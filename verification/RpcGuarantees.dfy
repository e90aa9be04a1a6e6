/** What the clients may rely on, in every state any run can reach. */
module RpcGuarantees {
  import opened Basics
  import opened LexicalCast
  import opened Framing
  import opened ChannelState
  import opened RpcWorkerClass
  import opened RpcSystem

  predicate TextIndex(k: nat) {
    k == TEXT_INDEX_SENT || k == TEXT_INDEX_READ
  }

  ghost predicate Reaches(methods: MethodMap, k: nat, s0: System, steps: seq<Step>, s: System) {
    TextIndex(k) && Init(s0) && CanRun(methods, k, s0, steps) && s == After(methods, k, s0, steps)
  }

  lemma {:induction false} ReachableInv(methods: MethodMap, k: nat, s0: System, steps: seq<Step>, s: System)
    requires Reaches(methods, k, s0, steps, s)
    ensures Inv(methods, s)
  {
    InitInv(methods, s0);
    RunKeeps(methods, k, s0, steps);
  }

  /** The controller holds what its call came to, said by the method's own parts: the bytes its serialiser
      made of the response its call returned, or what went wrong. */
  predicate HeldByParts(methods: MethodMap, opcode: string, data: string, con: Controller) {
    if opcode !in methods then con.rcode == Error && con.zerror == ZError(3, "")
    else
      var f := methods[opcode];
      match f.parse(data)
      case None => con.rcode == Error && con.zerror == ZError(6, "")
      case Some(request) =>
        match f.call(request)
        case Throws(zerror) =>
          if zerror.code != 0 then con.rcode == Error && con.zerror == zerror
          else con.rcode == Ready && con.payload == zerror.text
        case Returns(response) =>
          match f.serialize(response)
          case None => con.rcode == Error && con.zerror == ZError(6, "")
          case Some(buffer) => con.rcode == Ready && con.payload == buffer
  }

  /** The call fails as its client sees it, said by the method's own parts. */
  predicate FailsByParts(methods: MethodMap, opcode: string, data: string) {
    opcode in methods ==>
      var f := methods[opcode];
      match f.parse(data)
      case None => true
      case Some(request) =>
        match f.call(request)
        case Throws(zerror) => zerror.code != 0
        case Returns(response) => f.serialize(response).None?
  }

  /** Correlation.  A controller that has asked and is not waiting holds exactly what its own method made of
      exactly the bytes it sent last, however many clients number their requests alike and however
      requests and replies overtake each other; only such a controller is Ready. */
  lemma {:induction false} Correlation(methods: MethodMap, k: nat, s0: System, steps: seq<Step>, s: System,
                                       c: string, h: nat)
    requires Reaches(methods, k, s0, steps, s)
    requires c in s.clients && h in s.clients[c].chan.controllers
    ensures var client := s.clients[c];
            var con := client.chan.controllers[h];
            && (con.rcode == Ready ==> h in client.asked)
            && (h in client.asked && con.rcode != Working ==>
                  HeldByParts(methods, client.asked[h].opcode, client.asked[h].data, con))
  {
    ReachableInv(methods, k, s0, steps, s);
    assert ClientInv(methods, s.clients[c]);
    SettledMeans(methods, s.clients[c], h);
  }

  /** In particular: if the method parses what was sent, returns and can be serialised, the controller is
      Ready with the bytes of that response. */
  lemma {:induction false} ReadyHoldsOwnResponse(methods: MethodMap, k: nat, s0: System, steps: seq<Step>, s: System,
                                                 c: string, h: nat, request: Message, response: Message, buffer: string)
    requires Reaches(methods, k, s0, steps, s)
    requires c in s.clients && h in s.clients[c].chan.controllers && h in s.clients[c].asked
    requires s.clients[c].chan.controllers[h].rcode != Working
    requires var call := s.clients[c].asked[h];
             && call.opcode in methods && methods[call.opcode].parse(call.data) == Some(request)
             && methods[call.opcode].call(request) == Returns(response)
             && methods[call.opcode].serialize(response) == Some(buffer)
    ensures s.clients[c].chan.controllers[h].rcode == Ready && s.clients[c].chan.controllers[h].payload == buffer
  {
    Correlation(methods, k, s0, steps, s, c, h);
  }

  lemma {:induction false} SettledMeans(methods: MethodMap, client: Client, h: nat)
    requires Settled(methods, client) && h in client.chan.controllers
    ensures var con := client.chan.controllers[h];
            && (con.rcode == Ready ==> h in client.asked)
            && (h in client.asked && con.rcode != Working ==>
                  HeldByParts(methods, client.asked[h].opcode, client.asked[h].data, con))
  {
    if h in client.asked {
      assert Due(methods, client, h) == Perceived(Execute(methods, client.asked[h].opcode, client.asked[h].data));
    }
  }

  lemma {:induction false} DueFails(methods: MethodMap, client: Client, h: nat)
    requires h in client.asked
    ensures Due(methods, client, h).Failure? <==> FailsByParts(methods, client.asked[h].opcode, client.asked[h].data)
  {
  }

  /** What ok() tells a caller whose request is no longer waiting: its own method succeeded, or threw an
      error whose code means success. */
  lemma {:induction false} OkIffSucceeded(methods: MethodMap, k: nat, s0: System, steps: seq<Step>, s: System,
                                          c: string, h: nat)
    requires Reaches(methods, k, s0, steps, s)
    requires c in s.clients && h in s.clients[c].chan.controllers && h in s.clients[c].asked
    requires s.clients[c].chan.controllers[h].rcode != Working
    ensures s.clients[c].chan.controllers[h].rcode == Ready
       <==> !FailsByParts(methods, s.clients[c].asked[h].opcode, s.clients[c].asked[h].data)
  {
    Correlation(methods, k, s0, steps, s, c, h);
  }

  /** Conservation.  A pending request has exactly one copy, of itself or of its reply, among the queues,
      the workers' hands, the clients' inboxes and the lost messages; an id that has completed, or was
      never issued, has none. */
  lemma {:induction false} Conservation(methods: MethodMap, k: nat, s0: System, steps: seq<Step>, s: System,
                                        c: string, id: nat)
    requires Reaches(methods, k, s0, steps, s) && c in s.clients
    ensures Copies(s, c, id) == if id in s.clients[c].chan.pending then 1 else 0
  {
    ReachableInv(methods, k, s0, steps, s);
  }

  /** Every message a client reads completes a request, or makes the receive throw: nothing under way is
      ever dropped as malformed, rogue or unknown. */
  lemma {:induction false} NothingDiscarded(methods: MethodMap, k: nat, s0: System, steps: seq<Step>, s: System,
                                            c: string, i: nat)
    requires Reaches(methods, k, s0, steps, s)
    requires c in s.clients && i < |s.clients[c].inbox|
    ensures !Classify(k, s.clients[c].chan, s.clients[c].inbox[i]).Discard?
  {
    ReachableInv(methods, k, s0, steps, s);
    assert GenuineInbox(methods, s.clients, c, s.clients[c].inbox);
    ReadFacts(methods, k, s, c, i);
  }

  // ---- Progress ----

  function Busy(hands: seq<Msg>): nat {
    if hands == [] then 0 else Busy(hands[..|hands| - 1]) + if hands[|hands| - 1] == [] then 0 else 1
  }

  lemma {:induction false} BusyUpdate(hands: seq<Msg>, w: nat, m: Msg)
    requires w < |hands|
    ensures Busy(hands[w := m]) + (if hands[w] == [] then 0 else 1) == Busy(hands) + if m == [] then 0 else 1
  {
    var n := |hands| - 1;
    if w < n {
      BusyUpdate(hands[..n], w, m);
      assert hands[w := m][..n] == hands[..n][w := m];
    } else {
      assert hands[w := m][..n] == hands[..n];
    }
  }

  /** All that the given clients have received and not read. */
  ghost function Unread(clients: map<string, Client>, cs: set<string>): nat
    requires cs <= clients.Keys
  {
    if cs == {} then 0 else
      var c :| c in cs;
      |clients[c].inbox| + Unread(clients, cs - {c})
  }

  lemma {:induction false} UnreadPick(clients: map<string, Client>, cs: set<string>, c: string)
    requires cs <= clients.Keys && c in cs
    ensures Unread(clients, cs) == |clients[c].inbox| + Unread(clients, cs - {c})
    decreases |cs|
  {
    var d :| d in cs && Unread(clients, cs) == |clients[d].inbox| + Unread(clients, cs - {d});
    if d != c {
      UnreadPick(clients, cs - {d}, c);
      UnreadPick(clients, cs - {c}, d);
      assert cs - {d} - {c} == cs - {c} - {d};
    }
  }

  lemma {:induction false} UnreadSame(a: map<string, Client>, b: map<string, Client>, cs: set<string>)
    requires cs <= a.Keys && cs <= b.Keys && forall c | c in cs :: |a[c].inbox| == |b[c].inbox|
    ensures Unread(a, cs) == Unread(b, cs)
    decreases |cs|
  {
    if cs != {} {
      var c :| c in cs;
      UnreadPick(a, cs, c);
      UnreadPick(b, cs, c);
      UnreadSame(a, b, cs - {c});
    }
  }

  lemma {:induction false} UnreadUpdate(clients: map<string, Client>, c: string, client: Client)
    requires c in clients
    ensures Unread(clients[c := client], clients.Keys) + |clients[c].inbox|
         == Unread(clients, clients.Keys) + |client.inbox|
  {
    var updated := clients[c := client];
    UnreadPick(clients, clients.Keys, c);
    UnreadPick(updated, clients.Keys, c);
    UnreadSame(clients, updated, clients.Keys - {c});
  }

  /** The steps the messages under way can still take. */
  ghost function StepsLeft(s: System): nat {
    4 * |s.requests| + 3 * Busy(s.hands) + 2 * |s.replies| + Unread(s.clients, s.clients.Keys)
  }

  lemma {:induction false} ForwardDecreases(methods: MethodMap, k: nat, s: System, step: Step)
    requires Enabled(s, step) && step.Forward()
    ensures StepsLeft(Do(methods, k, s, step)) < StepsLeft(s)
  {
    var t := Do(methods, k, s, step);
    match step
    case Take(i, w) =>
      BusyUpdate(s.hands, w, s.requests[i]);
    case Work(w) =>
      BusyUpdate(s.hands, w, []);
    case Route(i) =>
      var m := s.replies[i];
      if m[0] in s.clients {
        UnreadUpdate(s.clients, m[0], t.clients[m[0]]);
        assert t.clients.Keys == s.clients.Keys;
      }
    case Read(c, i) =>
      UnreadUpdate(s.clients, c, t.clients[c]);
      assert t.clients.Keys == s.clients.Keys;
  }

  // ---- Who gets an answer when the network loses nothing ----

  /** Does the method fail on what this reply answers? */
  ghost predicate FailureReply(methods: MethodMap, clients: map<string, Client>, m: Msg) {
    && IsReply(methods, clients, m)
    && var call := clients[m[0]].calls[IdIn(m)]; Perceived(Execute(methods, call.opcode, call.data)).Failure?
  }

  /** The only messages lost are error replies that made a receive throw. */
  ghost predicate OnlyThrown(methods: MethodMap, k: nat, clients: map<string, Client>, lost: seq<Msg>) {
    lost == [] || (k == TEXT_INDEX_READ && forall i | 0 <= i < |lost| :: FailureReply(methods, clients, lost[i]))
  }

  /** As the code stands, a controller whose method failed is still waiting. */
  ghost predicate FailuresWait(methods: MethodMap, k: nat, client: Client) {
    k == TEXT_INDEX_READ ==>
      forall h | h in client.asked && h in client.chan.controllers && Due(methods, client, h).Failure? ::
        client.chan.controllers[h].rcode == Working
  }

  ghost predicate AllFailuresWait(methods: MethodMap, k: nat, clients: map<string, Client>) {
    forall c | c in clients :: FailuresWait(methods, k, clients[c])
  }

  ghost predicate LossFree(methods: MethodMap, k: nat, s: System) {
    Inv(methods, s) && OnlyThrown(methods, k, s.clients, s.lost) && AllFailuresWait(methods, k, s.clients)
  }

  lemma {:induction false} StillThrown(methods: MethodMap, k: nat, before: map<string, Client>,
                                       after: map<string, Client>, lost: seq<Msg>)
    requires OnlyThrown(methods, k, before, lost) && CallsGrow(before, after)
    ensures OnlyThrown(methods, k, after, lost)
  {
    forall i | 0 <= i < |lost| ensures FailureReply(methods, after, lost[i]) {
      StillReply(methods, before, after, lost[i]);
    }
  }

  lemma {:induction false} SendFailuresWait(methods: MethodMap, k: nat, client: Client, h: nat,
                                            outcome: SendOutcome, call: Call)
    requires FailuresWait(methods, k, client) && CanSend(client.chan, h)
    ensures FailuresWait(methods, k, SendBy(client, h, outcome, call))
  {
    var t := SendBy(client, h, outcome, call);
    assert forall x | x in client.asked && x != h :: Due(methods, t, x) == Due(methods, client, x);
  }

  lemma {:induction false} ReadFailuresWait(methods: MethodMap, k: nat, client: Client, m: Msg, id: nat)
    requires FailuresWait(methods, k, client) && Recorded(client) && client.chan.Closed()
    requires id in client.chan.pending && id in client.calls
    requires Classify(k, client.chan, m)
             == Outcome(k, id, Execute(methods, client.calls[id].opcode, client.calls[id].data))
    ensures FailuresWait(methods, k, client.(chan := Deliver(k, client.chan, m)))
  {
    var t := client.(chan := Deliver(k, client.chan, m));
    assert forall x | x in client.asked :: Due(methods, t, x) == Due(methods, client, x);
  }

  lemma {:induction false} InboxIsNoMatter(methods: MethodMap, k: nat, client: Client, inbox: seq<Msg>)
    requires FailuresWait(methods, k, client)
    ensures FailuresWait(methods, k, client.(inbox := inbox))
  {
    var t := client.(inbox := inbox);
    assert forall x | x in client.asked :: Due(methods, t, x) == Due(methods, client, x);
  }

  predicate Loses(step: Step) {
    step.LoseRequest? || step.LoseInHand? || step.LoseReply? || step.LoseReceived?
  }

  lemma {:induction false} SendLossFree(methods: MethodMap, k: nat, s: System, step: Step)
    requires OnlyThrown(methods, k, s.clients, s.lost) && AllFailuresWait(methods, k, s.clients)
    requires step.Send? && Enabled(s, step) && Recorded(s.clients[step.client])
    ensures var t := Do(methods, k, s, step);
            OnlyThrown(methods, k, t.clients, t.lost) && AllFailuresWait(methods, k, t.clients)
  {
    var client := s.clients[step.client];
    var sent := SendBy(client, step.h, step.outcome, step.call);
    SendFailuresWait(methods, k, client, step.h, step.outcome, step.call);
    if step.outcome.Sent? {
      assert sent.chan.next !in client.calls;
    }
    StillThrown(methods, k, s.clients, s.clients[step.client := sent], s.lost);
  }

  lemma {:induction false} RouteLossFree(methods: MethodMap, k: nat, s: System, i: nat)
    requires OnlyThrown(methods, k, s.clients, s.lost) && AllFailuresWait(methods, k, s.clients)
    requires Enabled(s, Route(i)) && IsReply(methods, s.clients, s.replies[i])
    ensures var t := Do(methods, k, s, Route(i));
            OnlyThrown(methods, k, t.clients, t.lost) && AllFailuresWait(methods, k, t.clients)
  {
    var m := s.replies[i];
    var client := s.clients[m[0]];
    var inbox := client.inbox + [m[1..]];
    InboxIsNoMatter(methods, k, client, inbox);
    StillThrown(methods, k, s.clients, s.clients[m[0] := client.(inbox := inbox)], s.lost);
  }

  lemma {:induction false} ReadLossFree(methods: MethodMap, k: nat, s: System, c: string, i: nat, id: nat)
    requires OnlyThrown(methods, k, s.clients, s.lost) && AllFailuresWait(methods, k, s.clients)
    requires Enabled(s, Read(c, i)) && Recorded(s.clients[c])
    requires IsReply(methods, s.clients, [c] + s.clients[c].inbox[i])
    requires id == IdIn([c] + s.clients[c].inbox[i]) && id in s.clients[c].chan.pending && id in s.clients[c].calls
    requires Classify(k, s.clients[c].chan, s.clients[c].inbox[i])
             == Outcome(k, id, Execute(methods, s.clients[c].calls[id].opcode, s.clients[c].calls[id].data))
    ensures var t := Do(methods, k, s, Read(c, i));
            OnlyThrown(methods, k, t.clients, t.lost) && AllFailuresWait(methods, k, t.clients)
  {
    var client := s.clients[c];
    var m := client.inbox[i];
    var chan := Deliver(k, client.chan, m);
    var read := client.(chan := chan, inbox := RemoveAt(client.inbox, i));
    ReadFailuresWait(methods, k, client, m, id);
    InboxIsNoMatter(methods, k, client.(chan := chan), RemoveAt(client.inbox, i));
    ThrownIsFailure(methods, k, s, c, i, id, s.clients[c := read]);
  }

  lemma {:induction false} ThrownIsFailure(methods: MethodMap, k: nat, s: System, c: string, i: nat, id: nat,
                                           clients: map<string, Client>)
    requires OnlyThrown(methods, k, s.clients, s.lost) && CallsGrow(s.clients, clients)
    requires Enabled(s, Read(c, i)) && IsReply(methods, s.clients, [c] + s.clients[c].inbox[i])
    requires id == IdIn([c] + s.clients[c].inbox[i]) && id in s.clients[c].chan.pending && id in s.clients[c].calls
    requires Classify(k, s.clients[c].chan, s.clients[c].inbox[i])
             == Outcome(k, id, Execute(methods, s.clients[c].calls[id].opcode, s.clients[c].calls[id].data))
    ensures OnlyThrown(methods, k, clients, Do(methods, k, s, Read(c, i)).lost)
  {
    var m := [c] + s.clients[c].inbox[i];
    StillThrown(methods, k, s.clients, clients, s.lost);
    StillReply(methods, s.clients, clients, m);
    if Classify(k, s.clients[c].chan, s.clients[c].inbox[i]).Throw? {
      assert FailureReply(methods, clients, m);
    }
  }

  lemma {:induction false} StepLossFree(methods: MethodMap, k: nat, s: System, step: Step)
    requires TextIndex(k) && LossFree(methods, k, s) && Enabled(s, step) && !Loses(step)
    ensures LossFree(methods, k, Do(methods, k, s, step))
  {
    StepKeeps(methods, k, s, step);
    match step
    case Send(c, _, _, _) =>
      assert ClientInv(methods, s.clients[c]);
      SendLossFree(methods, k, s, step);
    case Route(i) => RouteLossFree(methods, k, s, i);
    case Read(c, i) =>
      assert ClientInv(methods, s.clients[c]);
      assert GenuineInbox(methods, s.clients, c, s.clients[c].inbox);
      ReadFacts(methods, k, s, c, i);
      ReadLossFree(methods, k, s, c, i, IdIn([c] + s.clients[c].inbox[i]));
    case _ =>
  }

  lemma {:induction false} RunLossFree(methods: MethodMap, k: nat, s: System, steps: seq<Step>)
    requires TextIndex(k) && LossFree(methods, k, s) && CanRun(methods, k, s, steps)
    requires forall i | 0 <= i < |steps| :: !Loses(steps[i])
    ensures LossFree(methods, k, After(methods, k, s, steps))
    ensures (|After(methods, k, s, steps).hands| == |s.hands|)
    decreases |steps|
  {
    if steps != [] {
      StepLossFree(methods, k, s, steps[0]);
      RunLossFree(methods, k, Do(methods, k, s, steps[0]), steps[1..]);
    }
  }

  /** No step is possible that is neither a new request nor a loss. */
  ghost predicate AtRest(s: System) {
    forall step: Step | step.Forward() :: !Enabled(s, step)
  }

  lemma {:induction false} Find(s: seq<Msg>, p: Msg -> bool) returns (i: nat)
    requires Count(s, p) > 0
    ensures i < |s| && p(s[i])
  {
    if p(s[|s| - 1]) {
      i := |s| - 1;
    } else {
      i := Find(s[..|s| - 1], p);
    }
  }

  lemma RepliesHaveFrames(methods: MethodMap, s: System)
    requires Authentic(methods, s)
    ensures s.replies != [] ==> s.replies[0] != []
  {
    if s.replies != [] {
      assert IsReply(methods, s.clients, s.replies[0]);
    }
  }

  lemma {:induction false} RestIsEmpty(methods: MethodMap, s: System, c: string)
    requires Authentic(methods, s) && AtRest(s) && s.hands != []
    requires c in s.clients && s.clients[c].chan.Closed()
    ensures s.requests == [] && s.replies == [] && s.clients[c].inbox == []
    ensures forall w | 0 <= w < |s.hands| :: s.hands[w] == []
  {
    forall w: nat | w < |s.hands| ensures s.hands[w] == [] {
      assert Work(w).Forward() && !Enabled(s, Work(w));
    }
    assert Take(0, 0).Forward() && !Enabled(s, Take(0, 0));
    assert Read(c, 0).Forward() && !Enabled(s, Read(c, 0));
    RepliesHaveFrames(methods, s);
    assert Route(0).Forward() && !Enabled(s, Route(0));
  }

  /** At rest, what a client still waits for was lost: the machinery itself never gets stuck. */
  lemma {:induction false} RestMeansLost(methods: MethodMap, s: System, c: string, id: nat) returns (i: nat)
    requires Authentic(methods, s) && Conserved(s) && AtRest(s) && s.hands != []
    requires c in s.clients && s.clients[c].chan.Closed() && id in s.clients[c].chan.pending
    ensures i < |s.lost| && Tagged(c, id)(s.lost[i])
  {
    RestIsEmpty(methods, s, c);
    NoneInHand(s.hands, Tagged(c, id));
    assert Copies(s, c, id) == 1;
    i := Find(s.lost, Tagged(c, id));
  }

  /** Who completes.  When the network loses nothing and the machinery has come to rest, every
      controller that asked has its result; as the code stands, every one except exactly those whose
      method failed, which wait for ever because their reply made a receive throw. */
  lemma {:induction false} WhoCompletes(methods: MethodMap, k: nat, s: System, c: string, h: nat)
    requires TextIndex(k) && LossFree(methods, k, s) && AtRest(s) && s.hands != []
    requires c in s.clients && h in s.clients[c].asked && h in s.clients[c].chan.controllers
    ensures s.clients[c].chan.controllers[h].rcode == Working
       <==> k == TEXT_INDEX_READ && Due(methods, s.clients[c], h).Failure?
  {
    var client := s.clients[c];
    assert ClientInv(methods, client);
    if client.chan.controllers[h].rcode == Working {
      BijectionIsClosed(client.chan);
      assert h in client.chan.pending.Values;
      var id :| id in client.chan.pending && client.chan.pending[id] == h;
      var i := RestMeansLost(methods, s, c, id);
      IdRoundTrip(id);
      assert IdIn(s.lost[i]) == id;
      assert FailureReply(methods, s.clients, s.lost[i]);
    } else {
      assert FailuresWait(methods, k, client);
    }
  }

  ghost predicate AllForward(steps: seq<Step>) {
    forall i | 0 <= i < |steps| :: steps[i].Forward()
  }

  /** Rest is always reached: from any state the machinery runs a bounded number of steps. */
  lemma {:induction false} RestIsReached(methods: MethodMap, k: nat, s: System, steps: seq<Step>)
    requires CanRun(methods, k, s, steps) && AllForward(steps)
    ensures |steps| <= StepsLeft(s)
    decreases |steps|
  {
    if steps != [] {
      ForwardDecreases(methods, k, s, steps[0]);
      RestIsReached(methods, k, Do(methods, k, s, steps[0]), steps[1..]);
    }
  }

  /** End to end: any clients, any requests, any interleaving without losses, run until rest. */
  lemma {:induction false} EveryRequestCompletes(methods: MethodMap, k: nat, s0: System, steps: seq<Step>,
                                                 s: System, c: string, h: nat)
    requires Reaches(methods, k, s0, steps, s) && (forall i | 0 <= i < |steps| :: !Loses(steps[i]))
    requires s0.hands != [] && AtRest(s)
    requires c in s.clients && h in s.clients[c].asked && h in s.clients[c].chan.controllers
    ensures s.clients[c].chan.controllers[h].rcode == Working
       <==> k == 4 && FailsByParts(methods, s.clients[c].asked[h].opcode, s.clients[c].asked[h].data)
  {
    InitInv(methods, s0);
    RunLossFree(methods, k, s0, steps);
    WhoCompletes(methods, k, s, c, h);
    DueFails(methods, s.clients[c], h);
  }
}
