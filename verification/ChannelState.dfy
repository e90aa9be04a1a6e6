/** What one channel knows, as values: the id counter, the pending-reply table and the controllers.

A controller is named by any type C with equality; the class RpcChannel uses object references, the
step system uses plain handles.
*/
module ChannelState {
  import opened Basics
  import opened LexicalCast
  import opened Framing

  datatype RespCode = Unset | Working | Ready | Error | TimedOut

  datatype ZError = ZError(code: int, text: string)

  const ZEC_SUCCESS := 0
  const ZEC_INVALIDHEADER := 1
  const ZEC_NOSUCHMETHOD := 3
  const ZEC_CONNECTIONERROR := 5
  const ZEC_DATACORRUPTED := 6
  const ZEC_CLIENTERROR := 7

  const MAX_SIZET: nat := TWO_TO_THE_64 - 1

  datatype Controller = Controller(reqno: nat, rcode: RespCode, zerror: ZError, payload: string)

  const FRESH_CONTROLLER := Controller(MAX_SIZET, Unset, ZError(ZEC_SUCCESS, ""), "")

  /** The index the channel reads the error text from, and the one where the worker puts it. */
  const TEXT_INDEX_READ: nat := 4
  const TEXT_INDEX_SENT: nat := 3

  datatype Channel<C> = Channel(next: SizeT, pending: map<nat, C>, controllers: map<C, Controller>) {
    predicate Closed() {
      pending.Values <= controllers.Keys
    }
  }

  /** How a send ends.  The id is taken before the message goes out, so a refused send uses one up;
      a failure of any other kind may come before or after. */
  datatype SendOutcome =
    | Sent
    | NotSerialized
    | Refused
    | ConnectionFailed
    | ClientFailed(idTaken: bool)
  {
    predicate TakesId() {
      match this
      case NotSerialized => false
      case ClientFailed(taken) => taken
      case _ => true
    }

    function Code(): int {
      match this
      case Sent => ZEC_SUCCESS
      case NotSerialized => ZEC_INVALIDHEADER
      case Refused => ZEC_INVALIDHEADER
      case ConnectionFailed => ZEC_CONNECTIONERROR
      case ClientFailed(_) => ZEC_CLIENTERROR
    }
  }

  /** ++ on a std::size_t. */
  function Increment(n: SizeT): SizeT {
    if n == MAX_SIZET then 0 else n + 1
  }

  function RequestFrames(id: nat, opcode: string, data: string): Msg {
    ["", ToDecimal(id), opcode, data]
  }

  function SendStep<C>(s: Channel<C>, c: C, outcome: SendOutcome): (t: Channel<C>)
    requires c in s.controllers
    ensures t.controllers.Keys == s.controllers.Keys && (s.Closed() ==> t.Closed())
  {
    var next := if outcome.TakesId() then Increment(s.next) else s.next;
    if outcome.Sent? then
      Channel(next, s.pending[next := c],
              s.controllers[c := s.controllers[c].(rcode := Working, reqno := |s.pending|)])
    else
      Channel(next, s.pending,
              s.controllers[c := s.controllers[c].(rcode := Error, zerror := ZError(outcome.Code(), ""))])
  }

  /** What a reply tells its controller. */
  datatype Result = Value(payload: string) | Failure(zerror: ZError)

  function Store(c: Controller, r: Result): Controller {
    match r
    case Value(payload) => c.(payload := payload, rcode := Ready)
    case Failure(zerror) => c.(zerror := zerror, rcode := Error)
  }

  /** What the channel makes of one received message: drop it, throw out of ZRecvMethod with the
      message consumed, or complete the request with the given id. */
  datatype Effect = Discard | Throw | Complete(id: nat, result: Result)

  function Classify<C>(textIndex: nat, s: Channel<C>, frames: Msg): (e: Effect)
    ensures e.Complete? ==> e.id in s.pending
  {
    if |frames| != 4 then Discard
    else match ParseSizeT(frames[1])
      case None => Throw
      case Some(id) =>
        if id > s.next || id !in s.pending then Discard
        else if Atoi(frames[2]) == 0 then Complete(id, Value(frames[3]))
        else if textIndex < |frames| then Complete(id, Failure(ZError(Atoi(frames[2]), frames[textIndex])))
        else Throw
  }

  function Apply<C>(s: Channel<C>, e: Effect): (t: Channel<C>)
    requires s.Closed()
    requires e.Complete? ==> e.id in s.pending
    ensures t.Closed() && t.next == s.next && t.controllers.Keys == s.controllers.Keys
  {
    match e
    case Complete(id, result) =>
      var c := s.pending[id];
      assert c in s.pending.Values;
      s.(pending := s.pending - {id}, controllers := s.controllers[c := Store(s.controllers[c], result)])
    case _ => s
  }

  function Deliver<C>(textIndex: nat, s: Channel<C>, frames: Msg): (t: Channel<C>)
    requires s.Closed()
    ensures t.Closed() && t.next == s.next && t.controllers.Keys == s.controllers.Keys
  {
    Apply(s, Classify(textIndex, s, frames))
  }

  function DeliverAll<C>(textIndex: nat, s: Channel<C>, msgs: seq<Msg>): (t: Channel<C>)
    requires s.Closed()
    ensures t.Closed() && t.next == s.next && t.controllers.Keys == s.controllers.Keys
  {
    if msgs == [] then s
    else Deliver(textIndex, DeliverAll(textIndex, s, msgs[..|msgs| - 1]), msgs[|msgs| - 1])
  }

  /** The pending table is a bijection between ids in 1..next and the Working controllers. */
  ghost predicate Bijection<C>(s: Channel<C>) {
    && (forall id | id in s.pending :: 1 <= id <= s.next && s.pending[id] in s.controllers
                                       && s.controllers[s.pending[id]].rcode == Working)
    && (forall i, j | i in s.pending && j in s.pending && s.pending[i] == s.pending[j] :: i == j)
    && (forall c | c in s.controllers && s.controllers[c].rcode == Working :: c in s.pending.Values)
  }

  lemma {:induction false} BijectionIsClosed<C>(s: Channel<C>)
    requires Bijection(s)
    ensures s.Closed()
  {
    forall c | c in s.pending.Values ensures c in s.controllers.Keys {
      var id :| id in s.pending && s.pending[id] == c;
    }
  }

  /** What a caller has to check before a send: the controller is not waiting already, and the counter
      does not wrap (a failed send may also wrap it while nothing is pending). */
  predicate MaySend<C>(s: Channel<C>, c: C, outcome: SendOutcome)
    requires c in s.controllers
  {
    && s.controllers[c].rcode != Working
    && (outcome.TakesId() && s.next == MAX_SIZET ==> !outcome.Sent? && s.pending == map[])
  }

  lemma {:induction false} SendKeeps<C>(s: Channel<C>, c: C, outcome: SendOutcome)
    requires Bijection(s) && c in s.controllers && MaySend(s, c, outcome)
    ensures Bijection(SendStep(s, c, outcome))
  {
    var t := SendStep(s, c, outcome);
    if outcome.Sent? {
      assert t.next == s.next + 1 && t.pending == s.pending[t.next := c];
    }
    forall x | x in t.controllers && t.controllers[x].rcode == Working ensures x in t.pending.Values {
      WaitingIsPending(s, c, outcome, x);
    }
  }

  lemma {:induction false} WaitingIsPending<C>(s: Channel<C>, c: C, outcome: SendOutcome, x: C)
    requires Bijection(s) && c in s.controllers && MaySend(s, c, outcome)
    requires x in s.controllers && SendStep(s, c, outcome).controllers[x].rcode == Working
    ensures x in SendStep(s, c, outcome).pending.Values
  {
    var t := SendStep(s, c, outcome);
    if x == c {
      assert t.pending[t.next] == c;
    } else {
      var id :| id in s.pending && s.pending[id] == x;
      assert id in t.pending && t.pending[id] == x;
    }
  }

  lemma {:induction false} SendBreaks<C>(s: Channel<C>, c: C, outcome: SendOutcome)
    requires Bijection(s) && c in s.controllers && !MaySend(s, c, outcome)
    ensures !Bijection(SendStep(s, c, outcome))
  {
    var t := SendStep(s, c, outcome);
    if s.controllers[c].rcode == Working {
      var id :| id in s.pending && s.pending[id] == c;
      if !outcome.Sent? {
        assert id in t.pending && t.controllers[c].rcode == Error;
      } else if s.next < MAX_SIZET {
        assert id in t.pending && t.next in t.pending && t.pending[id] == t.pending[t.next];
      } else {
        assert t.next in t.pending && t.next == 0;
      }
    } else if outcome.Sent? {
      assert t.next in t.pending && t.next == 0;
    } else {
      var id :| id in s.pending;
      assert id in t.pending && t.next == 0;
    }
  }

  /** A send, successful or not, keeps the bijection exactly when the caller may send. */
  lemma {:induction false} SendKeepsBijection<C>(s: Channel<C>, c: C, outcome: SendOutcome)
    requires Bijection(s) && c in s.controllers
    ensures Bijection(SendStep(s, c, outcome)) <==> MaySend(s, c, outcome)
  {
    if MaySend(s, c, outcome) {
      SendKeeps(s, c, outcome);
    } else {
      SendBreaks(s, c, outcome);
    }
  }

  lemma {:induction false} DeliverKeepsBijection<C>(textIndex: nat, s: Channel<C>, frames: Msg)
    requires Bijection(s)
    ensures s.Closed() && Bijection(Deliver(textIndex, s, frames))
  {
    BijectionIsClosed(s);
    var t := Deliver(textIndex, s, frames);
    forall x | x in t.controllers && t.controllers[x].rcode == Working ensures x in t.pending.Values {
      var id :| id in s.pending && s.pending[id] == x;
      assert id in t.pending && t.pending[id] == x;
    }
  }

  lemma {:induction false} DeliverAllKeepsBijection<C>(textIndex: nat, s: Channel<C>, msgs: seq<Msg>)
    requires Bijection(s)
    ensures s.Closed() && Bijection(DeliverAll(textIndex, s, msgs))
  {
    BijectionIsClosed(s);
    if msgs != [] {
      DeliverAllKeepsBijection(textIndex, s, msgs[..|msgs| - 1]);
      DeliverKeepsBijection(textIndex, DeliverAll(textIndex, s, msgs[..|msgs| - 1]), msgs[|msgs| - 1]);
    }
  }

  /** The test against the id counter never drops a reply that the table could still deliver: taking
      it out changes no outcome. */
  lemma {:induction false} RogueTestIsHarmless<C>(textIndex: nat, s: Channel<C>, frames: Msg)
    requires Bijection(s)
    ensures Classify(textIndex, s, frames) == Classify(textIndex, s.(next := MAX_SIZET), frames)
  {
  }

  /** Reading the text at index 4 of a four-frame message is always out of range: as the code stands,
      a reply completes its request exactly when its code reads as 0, and a pending request answered
      with an error makes ZRecvMethod throw. */
  lemma {:induction false} ErrorRepliesThrow<C>(s: Channel<C>, frames: Msg)
    requires |frames| == 4 && ParseSizeT(frames[1]).Some? && ParseSizeT(frames[1]).value <= s.next
    requires ParseSizeT(frames[1]).value in s.pending
    ensures Classify(TEXT_INDEX_READ, s, frames).Complete? <==> Atoi(frames[2]) == 0
    ensures Classify(TEXT_INDEX_READ, s, frames).Throw? <==> Atoi(frames[2]) != 0
    ensures Classify(TEXT_INDEX_SENT, s, frames).Complete?
  {
  }
}
