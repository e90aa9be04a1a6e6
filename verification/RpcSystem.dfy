/** Clients, proxy and workers together.

The ROUTER puts the sender's identity in front of what it receives and routes a reply by taking the
identity off again; any idle worker may be handed any waiting request, and messages may be overtaken
or lost anywhere (section "The ROUTER Socket Type" and section "The DEALER Socket Type" of ZeroMQ
RFC 28/REQREP allow no more than that).  Identities are distinct because clients are a map.
*/
module RpcSystem {
  import opened Basics
  import opened LexicalCast
  import opened Framing
  import opened ChannelState
  import opened RpcWorkerClass

  datatype Call = Call(opcode: string, data: string)

  /** A client: its channel (controllers are numbered) and what its socket has received.  `asked` and
      `calls` are history: what each controller last sent, and what was sent under each id. */
  datatype Client = Client(chan: Channel<nat>, inbox: seq<Msg>, asked: map<nat, Call>, calls: map<nat, Call>)

  /** `hands` has the message each worker is busy with, [] for an idle worker.  Requests are waiting at
      the proxy or a worker; replies are under way to the proxy or waiting there. */
  datatype System = System(
    clients: map<string, Client>,
    requests: seq<Msg>,
    hands: seq<Msg>,
    replies: seq<Msg>,
    lost: seq<Msg>)

  datatype Step =
    | Send(client: string, h: nat, outcome: SendOutcome, call: Call)
    | Take(i: nat, w: nat)
    | Work(w: nat)
    | Route(i: nat)
    | Read(client: string, i: nat)
    | LoseRequest(i: nat)
    | LoseInHand(w: nat)
    | LoseReply(i: nat)
    | LoseReceived(client: string, i: nat)
  {
    /** A step of the machinery: not a new request, not a loss. */
    predicate Forward() {
      Take? || Work? || Route? || Read?
    }
  }

  function RemoveAt(s: seq<Msg>, i: nat): seq<Msg>
    requires i < |s|
  {
    s[..i] + s[i + 1..]
  }

  /** A controller is not sent again while it is waiting, and ids do not run out. */
  predicate CanSend(chan: Channel<nat>, h: nat) {
    h in chan.controllers && chan.controllers[h].rcode != Working && chan.next < MAX_SIZET
  }

  predicate Enabled(s: System, step: Step) {
    match step
    case Send(c, h, outcome, _) =>
      c in s.clients && CanSend(s.clients[c].chan, h)
    case Take(i, w) => i < |s.requests| && w < |s.hands| && s.hands[w] == []
    case Work(w) => w < |s.hands| && s.hands[w] != []
    case Route(i) => i < |s.replies| && s.replies[i] != []
    case Read(c, i) => c in s.clients && i < |s.clients[c].inbox| && s.clients[c].chan.Closed()
    case LoseRequest(i) => i < |s.requests|
    case LoseInHand(w) => w < |s.hands| && s.hands[w] != []
    case LoseReply(i) => i < |s.replies|
    case LoseReceived(c, i) => c in s.clients && i < |s.clients[c].inbox|
  }

  function SendBy(client: Client, h: nat, outcome: SendOutcome, call: Call): Client
    requires h in client.chan.controllers
  {
    var chan := SendStep(client.chan, h, outcome);
    if outcome.Sent? then
      client.(chan := chan, asked := client.asked[h := call], calls := client.calls[chan.next := call])
    else
      client.(chan := chan, asked := client.asked - {h})
  }

  function Do(methods: MethodMap, k: nat, s: System, step: Step): System
    requires Enabled(s, step)
  {
    match step
    case Send(c, h, outcome, call) =>
      var client := SendBy(s.clients[c], h, outcome, call);
      s.(clients := s.clients[c := client],
         requests := if outcome.Sent?
                     then s.requests + [[c] + RequestFrames(client.chan.next, call.opcode, call.data)]
                     else s.requests)
    case Take(i, w) =>
      s.(requests := RemoveAt(s.requests, i), hands := s.hands[w := s.requests[i]])
    case Work(w) =>
      var reply := ReplyTo(methods, s.hands[w]);
      s.(hands := s.hands[w := []], replies := if reply.Some? then s.replies + [reply.value] else s.replies)
    case Route(i) =>
      var m := s.replies[i];
      if m[0] in s.clients then
        var client := s.clients[m[0]];
        s.(replies := RemoveAt(s.replies, i),
           clients := s.clients[m[0] := client.(inbox := client.inbox + [m[1..]])])
      else
        s.(replies := RemoveAt(s.replies, i), lost := s.lost + [m])
    case Read(c, i) =>
      var client := s.clients[c];
      var m := client.inbox[i];
      var read := client.(chan := Deliver(k, client.chan, m), inbox := RemoveAt(client.inbox, i));
      s.(clients := s.clients[c := read],
         lost := if Classify(k, client.chan, m).Throw? then s.lost + [[c] + m] else s.lost)
    case LoseRequest(i) =>
      s.(requests := RemoveAt(s.requests, i), lost := s.lost + [s.requests[i]])
    case LoseInHand(w) =>
      s.(hands := s.hands[w := []], lost := s.lost + [s.hands[w]])
    case LoseReply(i) =>
      s.(replies := RemoveAt(s.replies, i), lost := s.lost + [s.replies[i]])
    case LoseReceived(c, i) =>
      var client := s.clients[c];
      s.(clients := s.clients[c := client.(inbox := RemoveAt(client.inbox, i))],
         lost := s.lost + [[c] + client.inbox[i]])
  }

  /** Any number of clients and workers, everybody idle. */
  ghost predicate Init(s: System) {
    && s.requests == [] && s.replies == [] && s.lost == []
    && (forall w | 0 <= w < |s.hands| :: s.hands[w] == [])
    && (forall c | c in s.clients ::
          && s.clients[c].chan.next == 0 && s.clients[c].chan.pending == map[]
          && (forall h | h in s.clients[c].chan.controllers ::
                s.clients[c].chan.controllers[h] == FRESH_CONTROLLER)
          && s.clients[c].inbox == [] && s.clients[c].asked == map[] && s.clients[c].calls == map[])
  }

  ghost predicate CanRun(methods: MethodMap, k: nat, s: System, steps: seq<Step>)
    decreases |steps|
  {
    steps != [] ==> Enabled(s, steps[0]) && CanRun(methods, k, Do(methods, k, s, steps[0]), steps[1..])
  }

  ghost function After(methods: MethodMap, k: nat, s: System, steps: seq<Step>): System
    requires CanRun(methods, k, s, steps)
    decreases |steps|
  {
    if steps == [] then s else After(methods, k, Do(methods, k, s, steps[0]), steps[1..])
  }

  // ---- Counting messages ----

  function Count(s: seq<Msg>, p: Msg -> bool): nat {
    if s == [] then 0 else Count(s[..|s| - 1], p) + if p(s[|s| - 1]) then 1 else 0
  }

  /** Messages that carry an identity and an id. */
  function Tagged(client: string, id: nat): Msg -> bool {
    (m: Msg) => |m| == 5 && m[0] == client && m[2] == ToDecimal(id)
  }

  /** Messages whose identity has been stripped. */
  function Stripped(id: nat): Msg -> bool {
    (m: Msg) => |m| == 4 && m[1] == ToDecimal(id)
  }

  /** How often a request, or the reply to it, is anywhere in the system. */
  function Copies(s: System, client: string, id: nat): nat
    requires client in s.clients
  {
    Count(s.requests, Tagged(client, id)) + Count(s.hands, Tagged(client, id)) + Count(s.replies, Tagged(client, id))
    + Count(s.lost, Tagged(client, id)) + Count(s.clients[client].inbox, Stripped(id))
  }

  lemma {:induction false} CountConcat(a: seq<Msg>, b: seq<Msg>, p: Msg -> bool)
    ensures Count(a + b, p) == Count(a, p) + Count(b, p)
  {
    if b == [] {
      assert a + b == a;
    } else {
      CountConcat(a, b[..|b| - 1], p);
      assert (a + b)[..|a + b| - 1] == a + b[..|b| - 1];
    }
  }

  lemma {:induction false} CountOne(m: Msg, p: Msg -> bool)
    ensures Count([m], p) == if p(m) then 1 else 0
  {
    assert [m][..0] == [];
  }

  lemma {:induction false} CountAdd(s: seq<Msg>, m: Msg, p: Msg -> bool)
    ensures Count(s + [m], p) == Count(s, p) + if p(m) then 1 else 0
  {
    CountConcat(s, [m], p);
    CountOne(m, p);
  }

  lemma {:induction false} CountRemove(s: seq<Msg>, i: nat, p: Msg -> bool)
    requires i < |s|
    ensures Count(s, p) == Count(RemoveAt(s, i), p) + if p(s[i]) then 1 else 0
  {
    CountConcat(s[..i], s[i + 1..], p);
    CountConcat(s[..i] + [s[i]], s[i + 1..], p);
    CountAdd(s[..i], s[i], p);
    assert s == s[..i] + [s[i]] + s[i + 1..];
  }

  lemma {:induction false} CountUpdate(s: seq<Msg>, i: nat, m: Msg, p: Msg -> bool)
    requires i < |s|
    ensures Count(s[i := m], p) + (if p(s[i]) then 1 else 0) == Count(s, p) + if p(m) then 1 else 0
  {
    CountRemove(s, i, p);
    CountRemove(s[i := m], i, p);
    assert RemoveAt(s[i := m], i) == RemoveAt(s, i);
  }

  lemma {:induction false} CountMember(s: seq<Msg>, i: nat, p: Msg -> bool)
    requires i < |s| && p(s[i])
    ensures Count(s, p) > 0
  {
    CountRemove(s, i, p);
  }

  // ---- The invariant ----

  /** The result a controller holds. */
  predicate Holds(c: Controller, r: Result) {
    match r
    case Value(payload) => c.rcode == Ready && c.payload == payload
    case Failure(zerror) => c.rcode == Error && c.zerror == zerror
  }

  /** Only issued ids are on record, and what is pending is what its controller last asked. */
  ghost predicate Recorded(client: Client) {
    && (forall id | id in client.calls :: 1 <= id <= client.chan.next)
    && (forall id | id in client.chan.pending ::
          && id in client.calls && client.chan.pending[id] in client.asked
          && client.asked[client.chan.pending[id]] == client.calls[id])
  }

  /** The result of what a controller last asked. */
  ghost function Due(methods: MethodMap, client: Client, h: nat): Result
    requires h in client.asked
  {
    Perceived(Execute(methods, client.asked[h].opcode, client.asked[h].data))
  }

  /** A controller that has asked and is not waiting holds its own result; any other is fresh or was
      not sent. */
  ghost predicate Settled(methods: MethodMap, client: Client) {
    forall h | h in client.chan.controllers ::
      var c := client.chan.controllers[h];
      if h in client.asked then c.rcode == Working || Holds(c, Due(methods, client, h))
      else c.rcode in {Unset, Error}
  }

  ghost predicate ClientInv(methods: MethodMap, client: Client) {
    Bijection(client.chan) && Recorded(client) && Settled(methods, client)
  }

  function RequestOf(client: string, id: nat, call: Call): Msg {
    [client] + RequestFrames(id, call.opcode, call.data)
  }

  function ReplyOf(methods: MethodMap, client: string, id: nat, call: Call): Msg {
    ReplyTo(methods, RequestOf(client, id, call)).value
  }

  /** The id a message of the system is about. */
  function IdIn(m: Msg): nat {
    if |m| == 5 && ParseSizeT(m[2]).Some? then ParseSizeT(m[2]).value else 0
  }

  ghost predicate IsRequest(clients: map<string, Client>, m: Msg) {
    && |m| == 5 && m[0] in clients && IdIn(m) in clients[m[0]].calls
    && m == RequestOf(m[0], IdIn(m), clients[m[0]].calls[IdIn(m)])
  }

  ghost predicate IsReply(methods: MethodMap, clients: map<string, Client>, m: Msg) {
    && |m| == 5 && m[0] in clients && IdIn(m) in clients[m[0]].calls
    && m == ReplyOf(methods, m[0], IdIn(m), clients[m[0]].calls[IdIn(m)])
  }

  ghost predicate GenuineRequests(clients: map<string, Client>, queue: seq<Msg>) {
    forall i | 0 <= i < |queue| :: queue[i] == [] || IsRequest(clients, queue[i])
  }

  ghost predicate GenuineReplies(methods: MethodMap, clients: map<string, Client>, queue: seq<Msg>) {
    forall i | 0 <= i < |queue| :: IsReply(methods, clients, queue[i])
  }

  ghost predicate GenuineInbox(methods: MethodMap, clients: map<string, Client>, c: string, inbox: seq<Msg>) {
    forall i | 0 <= i < |inbox| :: IsReply(methods, clients, [c] + inbox[i])
  }

  /** Every message under way is a request somebody made or the true reply to one. */
  ghost predicate Authentic(methods: MethodMap, s: System) {
    && GenuineRequests(s.clients, s.requests)
    && GenuineRequests(s.clients, s.hands)
    && GenuineReplies(methods, s.clients, s.replies)
    && (forall c | c in s.clients :: GenuineInbox(methods, s.clients, c, s.clients[c].inbox))
  }

  /** Conservation: a pending request has exactly one copy of itself or its reply somewhere, any other
      id has none. */
  ghost predicate Conserved(s: System) {
    forall c, id: nat | c in s.clients :: Copies(s, c, id) == if id in s.clients[c].chan.pending then 1 else 0
  }

  ghost predicate Books(methods: MethodMap, clients: map<string, Client>) {
    forall c | c in clients :: ClientInv(methods, clients[c])
  }

  ghost predicate Inv(methods: MethodMap, s: System) {
    && Books(methods, s.clients)
    && Authentic(methods, s)
    && Conserved(s)
  }

  // ---- Every step keeps the invariant ----

  /** The worker's answer to a genuine request is the genuine reply, under the same tag. */
  lemma {:induction false} AnswerIsReply(methods: MethodMap, clients: map<string, Client>, m: Msg)
    requires IsRequest(clients, m)
    ensures ReplyTo(methods, m).Some? && IsReply(methods, clients, ReplyTo(methods, m).value)
    ensures forall c, id :: Tagged(c, id)(ReplyTo(methods, m).value) == Tagged(c, id)(m)
  {
    var r := ReplyTo(methods, m).value;
    assert r[..3] == m[..3];
    assert r[0] == m[0] && r[2] == m[2];
  }

  /** Books that only grow keep every message genuine. */
  ghost predicate CallsGrow(before: map<string, Client>, after: map<string, Client>) {
    forall c | c in before :: c in after && forall id | id in before[c].calls ::
      id in after[c].calls && after[c].calls[id] == before[c].calls[id]
  }

  lemma {:induction false} StillRequest(before: map<string, Client>, after: map<string, Client>, m: Msg)
    requires CallsGrow(before, after) && IsRequest(before, m)
    ensures IsRequest(after, m)
  {
  }

  lemma {:induction false} StillReply(methods: MethodMap, before: map<string, Client>, after: map<string, Client>,
                                      m: Msg)
    requires CallsGrow(before, after) && IsReply(methods, before, m)
    ensures IsReply(methods, after, m)
  {
  }

  lemma {:induction false} StillAuthentic(methods: MethodMap, s: System, clients: map<string, Client>)
    requires Authentic(methods, s) && CallsGrow(s.clients, clients)
    requires forall c | c in clients :: c in s.clients && GenuineInbox(methods, s.clients, c, clients[c].inbox)
    ensures Authentic(methods, s.(clients := clients))
  {
    forall i | 0 <= i < |s.requests| ensures s.requests[i] == [] || IsRequest(clients, s.requests[i]) {
      if s.requests[i] != [] { StillRequest(s.clients, clients, s.requests[i]); }
    }
    forall i | 0 <= i < |s.hands| ensures s.hands[i] == [] || IsRequest(clients, s.hands[i]) {
      if s.hands[i] != [] { StillRequest(s.clients, clients, s.hands[i]); }
    }
    forall i | 0 <= i < |s.replies| ensures IsReply(methods, clients, s.replies[i]) {
      StillReply(methods, s.clients, clients, s.replies[i]);
    }
    forall c, i | c in clients && 0 <= i < |clients[c].inbox|
      ensures IsReply(methods, clients, [c] + clients[c].inbox[i])
    {
      StillReply(methods, s.clients, clients, [c] + clients[c].inbox[i]);
    }
  }

  lemma {:induction false} RepliesAdd(methods: MethodMap, clients: map<string, Client>, queue: seq<Msg>, m: Msg)
    requires GenuineReplies(methods, clients, queue) && IsReply(methods, clients, m)
    ensures GenuineReplies(methods, clients, queue + [m])
  {
  }

  lemma {:induction false} RepliesRemove(methods: MethodMap, clients: map<string, Client>, queue: seq<Msg>, i: nat)
    requires GenuineReplies(methods, clients, queue) && i < |queue|
    ensures GenuineReplies(methods, clients, RemoveAt(queue, i))
  {
    assert forall j | 0 <= j < |queue| - 1 :: RemoveAt(queue, i)[j] == queue[if j < i then j else j + 1];
  }

  lemma {:induction false} RequestsRemove(clients: map<string, Client>, queue: seq<Msg>, i: nat)
    requires GenuineRequests(clients, queue) && i < |queue|
    ensures GenuineRequests(clients, RemoveAt(queue, i))
  {
    assert forall j | 0 <= j < |queue| - 1 :: RemoveAt(queue, i)[j] == queue[if j < i then j else j + 1];
  }

  lemma {:induction false} ReceivedRemove(methods: MethodMap, clients: map<string, Client>, c: string,
                                          inbox: seq<Msg>, i: nat)
    requires GenuineInbox(methods, clients, c, inbox) && i < |inbox|
    ensures GenuineInbox(methods, clients, c, RemoveAt(inbox, i))
  {
    assert forall j | 0 <= j < |inbox| - 1 :: RemoveAt(inbox, i)[j] == inbox[if j < i then j else j + 1];
  }

  // Taking a request, answering it, routing the reply.

  lemma {:induction false} TakeConserves(methods: MethodMap, k: nat, s: System, i: nat, w: nat)
    requires Conserved(s) && Enabled(s, Take(i, w))
    ensures Conserved(Do(methods, k, s, Take(i, w)))
  {
    var t := Do(methods, k, s, Take(i, w));
    forall c, id: nat | c in t.clients ensures Copies(t, c, id) == Copies(s, c, id) {
      CountRemove(s.requests, i, Tagged(c, id));
      CountUpdate(s.hands, w, s.requests[i], Tagged(c, id));
    }
  }

  lemma {:induction false} TakeAuthentic(methods: MethodMap, k: nat, s: System, i: nat, w: nat)
    requires Authentic(methods, s) && Enabled(s, Take(i, w))
    ensures Authentic(methods, Do(methods, k, s, Take(i, w)))
  {
    RequestsRemove(s.clients, s.requests, i);
    assert GenuineRequests(s.clients, s.hands[w := s.requests[i]]);
  }

  lemma {:induction false} WorkConserves(methods: MethodMap, k: nat, s: System, w: nat)
    requires Conserved(s) && Enabled(s, Work(w)) && IsRequest(s.clients, s.hands[w])
    ensures Conserved(Do(methods, k, s, Work(w)))
  {
    var t := Do(methods, k, s, Work(w));
    AnswerIsReply(methods, s.clients, s.hands[w]);
    forall c, id: nat | c in t.clients ensures Copies(t, c, id) == Copies(s, c, id) {
      CountUpdate(s.hands, w, [], Tagged(c, id));
      CountAdd(s.replies, ReplyTo(methods, s.hands[w]).value, Tagged(c, id));
    }
  }

  lemma {:induction false} WorkAuthentic(methods: MethodMap, k: nat, s: System, w: nat)
    requires Authentic(methods, s) && Enabled(s, Work(w))
    ensures IsRequest(s.clients, s.hands[w]) && Authentic(methods, Do(methods, k, s, Work(w)))
  {
    AnswerIsReply(methods, s.clients, s.hands[w]);
    RepliesAdd(methods, s.clients, s.replies, ReplyTo(methods, s.hands[w]).value);
    assert GenuineRequests(s.clients, s.hands[w := []]);
  }

  lemma {:induction false} RouteConserves(methods: MethodMap, k: nat, s: System, i: nat)
    requires Conserved(s) && Enabled(s, Route(i)) && IsReply(methods, s.clients, s.replies[i])
    ensures Conserved(Do(methods, k, s, Route(i)))
  {
    var t, m := Do(methods, k, s, Route(i)), s.replies[i];
    forall c, id: nat | c in t.clients ensures Copies(t, c, id) == Copies(s, c, id) {
      CountRemove(s.replies, i, Tagged(c, id));
      if c == m[0] {
        CountAdd(s.clients[c].inbox, m[1..], Stripped(id));
        assert m[1..][1] == m[2];
      }
    }
  }

  lemma {:induction false} RouteAuthentic(methods: MethodMap, k: nat, s: System, i: nat)
    requires Authentic(methods, s) && Enabled(s, Route(i))
    ensures IsReply(methods, s.clients, s.replies[i]) && Authentic(methods, Do(methods, k, s, Route(i)))
  {
    var m := s.replies[i];
    var client := s.clients[m[0]];
    var clients := s.clients[m[0] := client.(inbox := client.inbox + [m[1..]])];
    assert [m[0]] + m[1..] == m;
    StillAuthentic(methods, s, clients);
    RepliesRemove(methods, clients, s.replies, i);
  }

  // Losing a message.

  lemma {:induction false} LoseConserves(methods: MethodMap, k: nat, s: System, step: Step)
    requires Conserved(s) && Authentic(methods, s) && Enabled(s, step)
    requires step.LoseRequest? || step.LoseInHand? || step.LoseReply?
    ensures Conserved(Do(methods, k, s, step))
  {
    var t := Do(methods, k, s, step);
    forall c, id: nat | c in t.clients ensures Copies(t, c, id) == Copies(s, c, id) {
      LoseCopies(methods, k, s, step, c, id);
    }
  }

  lemma {:induction false} LoseCopies(methods: MethodMap, k: nat, s: System, step: Step, c: string, id: nat)
    requires Enabled(s, step) && (step.LoseRequest? || step.LoseInHand? || step.LoseReply?) && c in s.clients
    ensures Copies(Do(methods, k, s, step), c, id) == Copies(s, c, id)
  {
    match step
    case LoseRequest(i) => MovedToLost(s.requests, s.lost, i, Tagged(c, id));
    case LoseInHand(w) => PutDownLost(s.hands, s.lost, w, Tagged(c, id));
    case LoseReply(i) => MovedToLost(s.replies, s.lost, i, Tagged(c, id));
  }

  lemma {:induction false} MovedToLost(queue: seq<Msg>, lost: seq<Msg>, i: nat, p: Msg -> bool)
    requires i < |queue|
    ensures Count(RemoveAt(queue, i), p) + Count(lost + [queue[i]], p) == Count(queue, p) + Count(lost, p)
  {
    CountRemove(queue, i, p);
    CountAdd(lost, queue[i], p);
  }

  lemma {:induction false} PutDownLost(hands: seq<Msg>, lost: seq<Msg>, w: nat, p: Msg -> bool)
    requires w < |hands| && !p([])
    ensures Count(hands[w := []], p) + Count(lost + [hands[w]], p) == Count(hands, p) + Count(lost, p)
  {
    CountUpdate(hands, w, [], p);
    CountAdd(lost, hands[w], p);
  }

  lemma {:induction false} LoseReceivedConserves(methods: MethodMap, k: nat, s: System, d: string, i: nat)
    requires Conserved(s) && Enabled(s, LoseReceived(d, i))
    requires IsReply(methods, s.clients, [d] + s.clients[d].inbox[i])
    ensures Conserved(Do(methods, k, s, LoseReceived(d, i)))
  {
    var t, m := Do(methods, k, s, LoseReceived(d, i)), s.clients[d].inbox[i];
    assert ([d] + m)[2] == m[1];
    forall c, id: nat | c in t.clients ensures Copies(t, c, id) == Copies(s, c, id) {
      CountRemove(s.clients[d].inbox, i, Stripped(id));
      CountAdd(s.lost, [d] + m, Tagged(c, id));
    }
  }

  lemma {:induction false} LoseAuthentic(methods: MethodMap, k: nat, s: System, step: Step)
    requires Authentic(methods, s) && Enabled(s, step)
    requires step.LoseRequest? || step.LoseInHand? || step.LoseReply?
    ensures Authentic(methods, Do(methods, k, s, step))
  {
    match step
    case LoseRequest(i) => RequestsRemove(s.clients, s.requests, i);
    case LoseInHand(w) => assert GenuineRequests(s.clients, s.hands[w := []]);
    case LoseReply(i) => RepliesRemove(methods, s.clients, s.replies, i);
  }

  lemma {:induction false} LoseReceivedAuthentic(methods: MethodMap, k: nat, s: System, c: string, i: nat)
    requires Authentic(methods, s) && Enabled(s, LoseReceived(c, i))
    ensures IsReply(methods, s.clients, [c] + s.clients[c].inbox[i])
    ensures Authentic(methods, Do(methods, k, s, LoseReceived(c, i)))
  {
    var client := s.clients[c];
    assert GenuineInbox(methods, s.clients, c, client.inbox);
    ReceivedRemove(methods, s.clients, c, client.inbox, i);
    StillAuthentic(methods, s, s.clients[c := client.(inbox := RemoveAt(client.inbox, i))]);
  }

  // Reading a reply.

  /** What a client reads is the answer to a pending request of its own, and its channel sees it so. */
  lemma {:induction false} ReadFacts(methods: MethodMap, k: nat, s: System, c: string, i: nat)
    requires k == TEXT_INDEX_SENT || k == TEXT_INDEX_READ
    requires c in s.clients && i < |s.clients[c].inbox| && ClientInv(methods, s.clients[c]) && Conserved(s)
    requires IsReply(methods, s.clients, [c] + s.clients[c].inbox[i])
    ensures var client := s.clients[c];
            var id := IdIn([c] + client.inbox[i]);
            && client.inbox[i][1] == ToDecimal(id) && |client.inbox[i]| == 4
            && id in client.chan.pending && id in client.calls
            && Classify(k, client.chan, client.inbox[i])
               == Outcome(k, id, Execute(methods, client.calls[id].opcode, client.calls[id].data))
  {
    var client := s.clients[c];
    var m := client.inbox[i];
    var id := IdIn([c] + m);
    var call := client.calls[id];
    assert ([c] + m)[1..] == m;
    assert m == ReplyOf(methods, c, id, call)[1..];
    assert m[1] == ToDecimal(id);
    CountMember(client.inbox, i, Stripped(id));
    assert Copies(s, c, id) > 0;
    ReplyIsUnderstood(k, client.chan, methods, c, id, call.opcode, call.data);
  }

  lemma {:induction false} SameTag(m: Msg, id: nat, other: nat)
    requires |m| == 4 && m[1] == ToDecimal(id)
    ensures Stripped(other)(m) <==> id == other
    ensures forall c, d: string :: Tagged(d, other)([c] + m) <==> c == d && id == other
  {
    if ToDecimal(other) == ToDecimal(id) {
      ToDecimalInjective(other, id);
    }
    forall c, d: string ensures Tagged(d, other)([c] + m) <==> c == d && id == other {
      assert ([c] + m)[2] == m[1];
    }
  }

  lemma {:induction false} ReadConserves(methods: MethodMap, k: nat, s: System, c: string, i: nat, id: nat)
    requires Conserved(s) && Enabled(s, Read(c, i))
    requires var m := s.clients[c].inbox[i]; |m| == 4 && m[1] == ToDecimal(id)
    requires id in s.clients[c].chan.pending
    requires var e := Classify(k, s.clients[c].chan, s.clients[c].inbox[i]); e.Throw? || (e.Complete? && e.id == id)
    ensures Conserved(Do(methods, k, s, Read(c, i)))
  {
    forall d, other: nat | d in s.clients
      ensures var t := Do(methods, k, s, Read(c, i));
              Copies(t, d, other) == if other in t.clients[d].chan.pending then 1 else 0
    {
      assert Copies(s, d, other) == if other in s.clients[d].chan.pending then 1 else 0;
      ReadCopies(methods, k, s, c, i, id, d, other);
    }
  }

  /** Reading takes the one copy away if it takes the request out of the table. */
  lemma {:induction false} ReadCopies(methods: MethodMap, k: nat, s: System, c: string, i: nat, id: nat, d: string,
                                      other: nat)
    requires Enabled(s, Read(c, i)) && d in s.clients
    requires var m := s.clients[c].inbox[i]; |m| == 4 && m[1] == ToDecimal(id)
    requires id in s.clients[c].chan.pending
    requires var e := Classify(k, s.clients[c].chan, s.clients[c].inbox[i]); e.Throw? || (e.Complete? && e.id == id)
    ensures var t := Do(methods, k, s, Read(c, i));
            Copies(t, d, other) + (if other in s.clients[d].chan.pending then 1 else 0)
            == Copies(s, d, other) + if other in t.clients[d].chan.pending then 1 else 0
  {
    var inbox := s.clients[c].inbox;
    SameTag(inbox[i], id, other);
    CountRemove(inbox, i, Stripped(other));
    ReadLost(methods, k, s, c, i, id, d, other);
  }

  /** What a read adds to the lost messages. */
  lemma {:induction false} ReadLost(methods: MethodMap, k: nat, s: System, c: string, i: nat, id: nat, d: string,
                                    other: nat)
    requires Enabled(s, Read(c, i))
    requires var m := s.clients[c].inbox[i]; |m| == 4 && m[1] == ToDecimal(id)
    ensures Count(Do(methods, k, s, Read(c, i)).lost, Tagged(d, other))
         == Count(s.lost, Tagged(d, other))
            + if Classify(k, s.clients[c].chan, s.clients[c].inbox[i]).Throw? && c == d && id == other then 1 else 0
  {
    var m := s.clients[c].inbox[i];
    SameTag(m, id, other);
    CountAdd(s.lost, [c] + m, Tagged(d, other));
  }

  lemma {:induction false} ReadSettles(methods: MethodMap, k: nat, client: Client, m: Msg, id: nat)
    requires Settled(methods, client) && Recorded(client) && client.chan.Closed()
    requires id in client.chan.pending && id in client.calls
    requires Classify(k, client.chan, m)
             == Outcome(k, id, Execute(methods, client.calls[id].opcode, client.calls[id].data))
    ensures Settled(methods, client.(chan := Deliver(k, client.chan, m)))
  {
    var t := client.(chan := Deliver(k, client.chan, m));
    assert forall h | h in client.asked :: Due(methods, t, h) == Due(methods, client, h);
  }

  lemma {:induction false} ReadBooks(methods: MethodMap, k: nat, client: Client, m: Msg, id: nat)
    requires ClientInv(methods, client) && client.chan.Closed() && id in client.chan.pending && id in client.calls
    requires Classify(k, client.chan, m)
             == Outcome(k, id, Execute(methods, client.calls[id].opcode, client.calls[id].data))
    ensures ClientInv(methods, client.(chan := Deliver(k, client.chan, m)))
  {
    DeliverKeepsBijection(k, client.chan, m);
    ReadSettles(methods, k, client, m, id);
  }

  lemma {:induction false} ReadAuthentic(methods: MethodMap, k: nat, s: System, c: string, i: nat)
    requires Authentic(methods, s) && Enabled(s, Read(c, i))
    ensures IsReply(methods, s.clients, [c] + s.clients[c].inbox[i])
    ensures Authentic(methods, Do(methods, k, s, Read(c, i)))
  {
    var client := s.clients[c];
    var m := client.inbox[i];
    assert GenuineInbox(methods, s.clients, c, client.inbox);
    ReceivedRemove(methods, s.clients, c, client.inbox, i);
    var read := client.(chan := Deliver(k, client.chan, m), inbox := RemoveAt(client.inbox, i));
    StillAuthentic(methods, s, s.clients[c := read]);
  }

  // Sending a request.

  lemma {:induction false} SendRecords(client: Client, h: nat, outcome: SendOutcome, call: Call)
    requires Bijection(client.chan) && Recorded(client) && CanSend(client.chan, h)
    ensures Recorded(SendBy(client, h, outcome, call))
  {
    assert forall id | id in client.chan.pending :: client.chan.pending[id] != h;
    if outcome.Sent? {
      SentRecords(client, h, call);
    } else {
      assert SendBy(client, h, outcome, call).chan.next >= client.chan.next;
    }
  }

  lemma {:induction false} SentRecords(client: Client, h: nat, call: Call)
    requires Recorded(client) && CanSend(client.chan, h)
    requires forall id | id in client.chan.pending :: client.chan.pending[id] != h
    ensures Recorded(SendBy(client, h, Sent, call))
  {
    var t := SendBy(client, h, Sent, call);
    assert t.chan.next == client.chan.next + 1;
    assert t.chan.next !in client.chan.pending && t.chan.next !in client.calls;
  }

  lemma {:induction false} SendSettles(methods: MethodMap, client: Client, h: nat, outcome: SendOutcome, call: Call)
    requires Settled(methods, client) && h in client.chan.controllers
    ensures Settled(methods, SendBy(client, h, outcome, call))
  {
    var t := SendBy(client, h, outcome, call);
    forall x | x in client.asked && x != h ensures Due(methods, t, x) == Due(methods, client, x) {
      assert t.asked[x] == client.asked[x];
    }
    assert h in t.asked ==> t.chan.controllers[h].rcode == Working;
  }

  lemma {:induction false} SendBooks(methods: MethodMap, client: Client, h: nat, outcome: SendOutcome, call: Call)
    requires ClientInv(methods, client) && CanSend(client.chan, h)
    ensures ClientInv(methods, SendBy(client, h, outcome, call))
  {
    SendKeeps(client.chan, h, outcome);
    SendRecords(client, h, outcome, call);
    SendSettles(methods, client, h, outcome, call);
  }

  lemma {:induction false} SendAuthentic(methods: MethodMap, k: nat, s: System, step: Step)
    requires Authentic(methods, s) && step.Send? && Enabled(s, step) && Recorded(s.clients[step.client])
    ensures Authentic(methods, Do(methods, k, s, step))
  {
    var c, client := step.client, s.clients[step.client];
    var sent := SendBy(client, step.h, step.outcome, step.call);
    var clients := s.clients[c := sent];
    SendGrows(s.clients, c, step.h, step.outcome, step.call);
    StillAuthentic(methods, s, clients);
    if step.outcome.Sent? {
      NewRequest(clients, c, sent.chan.next, step.call);
      RequestsAdd(clients, s.requests, RequestOf(c, sent.chan.next, step.call));
    }
  }

  lemma {:induction false} SendGrows(clients: map<string, Client>, c: string, h: nat, outcome: SendOutcome, call: Call)
    requires c in clients && Recorded(clients[c]) && CanSend(clients[c].chan, h)
    ensures CallsGrow(clients, clients[c := SendBy(clients[c], h, outcome, call)])
  {
    var client := clients[c];
    assert SendBy(client, h, outcome, call).chan.next !in client.calls || !outcome.Sent?;
  }

  lemma {:induction false} NewRequest(clients: map<string, Client>, c: string, id: nat, call: Call)
    requires c in clients && id in clients[c].calls && clients[c].calls[id] == call && id < TWO_TO_THE_64
    ensures IsRequest(clients, RequestOf(c, id, call))
  {
    IdRoundTrip(id);
  }

  lemma RequestsAdd(clients: map<string, Client>, queue: seq<Msg>, m: Msg)
    requires GenuineRequests(clients, queue) && IsRequest(clients, m)
    ensures GenuineRequests(clients, queue + [m])
  {
  }

  lemma {:induction false} SendConserves(methods: MethodMap, k: nat, s: System, step: Step)
    requires Conserved(s) && step.Send? && Enabled(s, step) && Recorded(s.clients[step.client])
    ensures Conserved(Do(methods, k, s, step))
  {
    forall d, id: nat | d in s.clients
      ensures var t := Do(methods, k, s, step);
              Copies(t, d, id) == if id in t.clients[d].chan.pending then 1 else 0
    {
      assert Copies(s, d, id) == if id in s.clients[d].chan.pending then 1 else 0;
      SendCopies(methods, k, s, step, d, id);
    }
  }

  /** Sending adds the one copy if it puts the request into the table. */
  lemma {:induction false} SendCopies(methods: MethodMap, k: nat, s: System, step: Step, d: string, id: nat)
    requires step.Send? && Enabled(s, step) && Recorded(s.clients[step.client]) && d in s.clients
    ensures var t := Do(methods, k, s, step);
            Copies(t, d, id) + (if id in s.clients[d].chan.pending then 1 else 0)
            == Copies(s, d, id) + if id in t.clients[d].chan.pending then 1 else 0
  {
    var c, client := step.client, s.clients[step.client];
    var next := SendBy(client, step.h, step.outcome, step.call).chan.next;
    var m := [c] + RequestFrames(next, step.call.opcode, step.call.data);
    if step.outcome.Sent? {
      assert next !in client.chan.pending;
      CountAdd(s.requests, m, Tagged(d, id));
      SameTag(m[1..], next, id);
      assert [c] + m[1..] == m;
    }
  }

  lemma {:induction false} LoseReceivedKeeps(methods: MethodMap, k: nat, s: System, c: string, i: nat)
    requires Inv(methods, s) && Enabled(s, LoseReceived(c, i))
    ensures Inv(methods, Do(methods, k, s, LoseReceived(c, i)))
  {
    var inbox := RemoveAt(s.clients[c].inbox, i);
    LoseReceivedAuthentic(methods, k, s, c, i);
    LoseReceivedConserves(methods, k, s, c, i);
    InboxIsNoBook(methods, s.clients[c], inbox);
    OneBook(methods, s.clients, c, s.clients[c].(inbox := inbox));
  }

  lemma {:induction false} SendKeepsInv(methods: MethodMap, k: nat, s: System, step: Step)
    requires Inv(methods, s) && step.Send? && Enabled(s, step)
    ensures Inv(methods, Do(methods, k, s, step))
  {
    var c, client := step.client, s.clients[step.client];
    SendBooks(methods, client, step.h, step.outcome, step.call);
    OneBook(methods, s.clients, c, SendBy(client, step.h, step.outcome, step.call));
    SendAuthentic(methods, k, s, step);
    SendConserves(methods, k, s, step);
  }

  lemma {:induction false} StepKeeps(methods: MethodMap, k: nat, s: System, step: Step)
    requires k == TEXT_INDEX_SENT || k == TEXT_INDEX_READ
    requires Inv(methods, s) && Enabled(s, step)
    ensures Inv(methods, Do(methods, k, s, step))
  {
    match step
    case Send(_, _, _, _) =>
      SendKeepsInv(methods, k, s, step);
    case Take(i, w) =>
      TakeAuthentic(methods, k, s, i, w);
      TakeConserves(methods, k, s, i, w);
    case Work(w) =>
      WorkAuthentic(methods, k, s, w);
      WorkConserves(methods, k, s, w);
    case Route(i) =>
      RouteAuthentic(methods, k, s, i);
      RouteConserves(methods, k, s, i);
      RouteBooks(methods, k, s, i);
    case Read(c, i) =>
      ReadKeeps(methods, k, s, c, i);
    case LoseReceived(c, i) =>
      LoseReceivedKeeps(methods, k, s, c, i);
    case _ =>
      LoseAuthentic(methods, k, s, step);
      LoseConserves(methods, k, s, step);
  }

  lemma {:induction false} InboxIsNoBook(methods: MethodMap, client: Client, inbox: seq<Msg>)
    requires ClientInv(methods, client)
    ensures ClientInv(methods, client.(inbox := inbox))
  {
    var t := client.(inbox := inbox);
    assert forall h | h in client.asked :: Due(methods, t, h) == Due(methods, client, h);
  }

  lemma {:induction false} RouteBooks(methods: MethodMap, k: nat, s: System, i: nat)
    requires Books(methods, s.clients) && Enabled(s, Route(i))
    ensures Books(methods, Do(methods, k, s, Route(i)).clients)
  {
    var m := s.replies[i];
    if m[0] in s.clients {
      InboxIsNoBook(methods, s.clients[m[0]], s.clients[m[0]].inbox + [m[1..]]);
    }
  }

  lemma {:induction false} ReadKeepsBooks(methods: MethodMap, k: nat, s: System, c: string, i: nat)
    requires k == TEXT_INDEX_SENT || k == TEXT_INDEX_READ
    requires Books(methods, s.clients) && Conserved(s) && Enabled(s, Read(c, i))
    requires IsReply(methods, s.clients, [c] + s.clients[c].inbox[i])
    ensures Books(methods, Do(methods, k, s, Read(c, i)).clients)
  {
    var client := s.clients[c];
    var m := client.inbox[i];
    ReadFacts(methods, k, s, c, i);
    ReadBooks(methods, k, client, m, IdIn([c] + m));
    var read := client.(chan := Deliver(k, client.chan, m));
    InboxIsNoBook(methods, read, RemoveAt(client.inbox, i));
    OneBook(methods, s.clients, c, read.(inbox := RemoveAt(client.inbox, i)));
  }

  lemma {:induction false} OneBook(methods: MethodMap, clients: map<string, Client>, c: string, client: Client)
    requires Books(methods, clients) && ClientInv(methods, client)
    ensures Books(methods, clients[c := client])
  {
  }

  lemma {:induction false} ReadKeeps(methods: MethodMap, k: nat, s: System, c: string, i: nat)
    requires k == TEXT_INDEX_SENT || k == TEXT_INDEX_READ
    requires Inv(methods, s) && Enabled(s, Read(c, i))
    ensures Inv(methods, Do(methods, k, s, Read(c, i)))
  {
    ReadAuthentic(methods, k, s, c, i);
    ReadKeepsBooks(methods, k, s, c, i);
    GenuineReadConserves(methods, k, s, c, i);
  }

  lemma {:induction false} GenuineReadConserves(methods: MethodMap, k: nat, s: System, c: string, i: nat)
    requires k == TEXT_INDEX_SENT || k == TEXT_INDEX_READ
    requires Books(methods, s.clients) && Conserved(s) && Enabled(s, Read(c, i))
    requires IsReply(methods, s.clients, [c] + s.clients[c].inbox[i])
    ensures Conserved(Do(methods, k, s, Read(c, i)))
  {
    var id := IdIn([c] + s.clients[c].inbox[i]);
    ReadCompletes(methods, k, s, c, i, id);
    ReadConserves(methods, k, s, c, i, id);
  }

  lemma {:induction false} ReadCompletes(methods: MethodMap, k: nat, s: System, c: string, i: nat, id: nat)
    requires k == TEXT_INDEX_SENT || k == TEXT_INDEX_READ
    requires c in s.clients && i < |s.clients[c].inbox| && ClientInv(methods, s.clients[c]) && Conserved(s)
    requires IsReply(methods, s.clients, [c] + s.clients[c].inbox[i]) && id == IdIn([c] + s.clients[c].inbox[i])
    ensures |s.clients[c].inbox[i]| == 4 && s.clients[c].inbox[i][1] == ToDecimal(id) && id in s.clients[c].chan.pending
    ensures var e := Classify(k, s.clients[c].chan, s.clients[c].inbox[i]); e.Throw? || (e.Complete? && e.id == id)
  {
    ReadFacts(methods, k, s, c, i);
  }

  lemma {:induction false} InitInv(methods: MethodMap, s: System)
    requires Init(s)
    ensures Inv(methods, s)
  {
    forall c, id: nat | c in s.clients ensures Copies(s, c, id) == 0 {
      NoneInHand(s.hands, Tagged(c, id));
    }
  }

  lemma {:induction false} NoneInHand(hands: seq<Msg>, p: Msg -> bool)
    requires !p([]) && forall w | 0 <= w < |hands| :: hands[w] == []
    ensures Count(hands, p) == 0
  {
    if hands != [] {
      NoneInHand(hands[..|hands| - 1], p);
    }
  }

  lemma {:induction false} RunKeeps(methods: MethodMap, k: nat, s: System, steps: seq<Step>)
    requires k == TEXT_INDEX_SENT || k == TEXT_INDEX_READ
    requires Inv(methods, s) && CanRun(methods, k, s, steps)
    ensures Inv(methods, After(methods, k, s, steps))
    decreases |steps|
  {
    if steps != [] {
      StepKeeps(methods, k, s, steps[0]);
      RunKeeps(methods, k, Do(methods, k, s, steps[0]), steps[1..]);
    }
  }
}
