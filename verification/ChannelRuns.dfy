/** Whole runs of a channel: any sequence of sends, successful or not, and received messages, well
formed or not. */
module ChannelRuns {
  import opened Basics
  import opened LexicalCast
  import opened Framing
  import opened ChannelState

  datatype Op<C> = DoSend(c: C, outcome: SendOutcome) | DoReceive(frames: Msg)

  ghost predicate Known<C>(s: Channel<C>, ops: seq<Op<C>>) {
    forall i | 0 <= i < |ops| && ops[i].DoSend? :: ops[i].c in s.controllers
  }

  function Step<C>(k: nat, s: Channel<C>, op: Op<C>): (t: Channel<C>)
    requires s.Closed() && (op.DoSend? ==> op.c in s.controllers)
    ensures t.Closed() && t.controllers.Keys == s.controllers.Keys
  {
    match op
    case DoSend(c, outcome) => SendStep(s, c, outcome)
    case DoReceive(frames) => Deliver(k, s, frames)
  }

  ghost function Run<C>(k: nat, s: Channel<C>, ops: seq<Op<C>>): (t: Channel<C>)
    requires s.Closed() && Known(s, ops)
    ensures t.Closed() && t.controllers.Keys == s.controllers.Keys
  {
    if ops == [] then s else Step(k, Run(k, s, ops[..|ops| - 1]), ops[|ops| - 1])
  }

  /** The request that the i-th step of a run completes, if it completes one. */
  ghost function CompletedAt<C>(k: nat, s: Channel<C>, ops: seq<Op<C>>, i: nat): Option<nat>
    requires s.Closed() && Known(s, ops) && i < |ops|
  {
    match ops[i]
    case DoSend(_, _) => None
    case DoReceive(frames) =>
      var e := Classify(k, Run(k, s, ops[..i]), frames);
      if e.Complete? then Some(e.id) else None
  }

  ghost predicate IdsIssued<C>(s: Channel<C>) {
    forall id | id in s.pending :: id <= s.next
  }

  /** How many of these steps take an id. */
  function IdsTaken<C>(ops: seq<Op<C>>): nat {
    if ops == [] then 0
    else
      var last := ops[|ops| - 1];
      IdsTaken(ops[..|ops| - 1]) + if last.DoSend? && last.outcome.TakesId() then 1 else 0
  }

  lemma {:induction false} IdsTakenBoth<C>(a: seq<Op<C>>, b: seq<Op<C>>)
    ensures IdsTaken(a + b) == IdsTaken(a) + IdsTaken(b)
  {
    if b == [] {
      assert a + b == a;
    } else {
      IdsTakenBoth(a, b[..|b| - 1]);
      assert (a + b)[..|a + b| - 1] == a + b[..|b| - 1];
    }
  }

  lemma {:induction false} IdsTakenBefore<C>(ops: seq<Op<C>>, i: nat)
    requires i <= |ops|
    ensures IdsTaken(ops[..i]) <= IdsTaken(ops)
  {
    assert ops == ops[..i] + ops[i..];
    IdsTakenBoth(ops[..i], ops[i..]);
  }

  /** The steps take no more ids than there are. */
  ghost predicate EnoughIds<C>(s: Channel<C>, ops: seq<Op<C>>) {
    s.next + IdsTaken(ops) < TWO_TO_THE_64
  }

  lemma {:induction false} CounterBound<C>(k: nat, s: Channel<C>, ops: seq<Op<C>>)
    requires s.Closed() && Known(s, ops) && IdsIssued(s) && EnoughIds(s, ops)
    ensures Run(k, s, ops).next == s.next + IdsTaken(ops) && IdsIssued(Run(k, s, ops))
  {
    if ops != [] {
      CounterBound(k, s, ops[..|ops| - 1]);
    }
  }

  lemma {:induction false} RunBoth<C>(k: nat, s: Channel<C>, a: seq<Op<C>>, b: seq<Op<C>>)
    requires s.Closed() && Known(s, a) && Known(s, b)
    ensures Known(s, a + b) && Known(Run(k, s, a), b)
    ensures Run(k, s, a + b) == Run(k, Run(k, s, a), b)
  {
    KnownBoth(s, a, b);
    if b == [] {
      assert a + b == a;
    } else {
      RunBoth(k, s, a, b[..|b| - 1]);
      RunLast(k, s, a, b);
    }
  }

  lemma KnownBoth<C>(s: Channel<C>, a: seq<Op<C>>, b: seq<Op<C>>)
    requires Known(s, a) && Known(s, b)
    ensures Known(s, a + b)
  {
  }

  lemma {:induction false} RunLast<C>(k: nat, s: Channel<C>, a: seq<Op<C>>, b: seq<Op<C>>)
    requires s.Closed() && b != [] && Known(s, a + b) && Known(s, a + b[..|b| - 1])
    ensures Run(k, s, a + b) == Step(k, Run(k, s, a + b[..|b| - 1]), b[|b| - 1])
  {
    var all := a + b;
    assert all[..|all| - 1] == a + b[..|b| - 1] && all[|all| - 1] == b[|b| - 1];
  }

  /** An issued id that is not pending never becomes pending again. */
  lemma {:induction false} NeverAgain<C>(k: nat, s: Channel<C>, ops: seq<Op<C>>, id: nat)
    requires s.Closed() && Known(s, ops) && IdsIssued(s) && EnoughIds(s, ops)
    requires id <= s.next && id !in s.pending
    ensures id !in Run(k, s, ops).pending
  {
    if ops != [] {
      var before := ops[..|ops| - 1];
      NeverAgain(k, s, before, id);
      CounterBound(k, s, before);
    }
  }

  /** Over any run an id completes at most once, and every later message with that id is dropped. */
  lemma {:induction false} AtMostOnce<C>(k: nat, s: Channel<C>, ops: seq<Op<C>>, i: nat, j: nat)
    requires s.Closed() && Known(s, ops) && IdsIssued(s) && EnoughIds(s, ops)
    requires i < j < |ops| && CompletedAt(k, s, ops, i).Some?
    ensures CompletedAt(k, s, ops, j) != CompletedAt(k, s, ops, i)
    ensures forall m: Msg | |m| == 4 && ParseSizeT(m[1]) == CompletedAt(k, s, ops, i) ::
              Classify(k, Run(k, s, ops[..j]), m) == Discard
  {
    IdsTakenBefore(ops, i);
    IdsTakenBefore(ops, j);
    CounterBound(k, s, ops[..i]);
    CounterBound(k, s, ops[..j]);
    GoneAfterwards(k, s, ops, i, j, CompletedAt(k, s, ops, i).value);
  }

  lemma {:induction false} GoneAfterwards<C>(k: nat, s: Channel<C>, ops: seq<Op<C>>, i: nat, j: nat, id: nat)
    requires s.Closed() && Known(s, ops) && IdsIssued(s) && EnoughIds(s, ops)
    requires i < j < |ops| && CompletedAt(k, s, ops, i) == Some(id)
    ensures id !in Run(k, s, ops[..j]).pending
  {
    GoneAtOnce(k, s, ops, i, id);
    KnownPieces(s, ops, i + 1, j);
    GoneBehind(k, s, ops[..i + 1], ops[i + 1..j], id);
  }

  lemma KnownPieces<C>(s: Channel<C>, ops: seq<Op<C>>, i: nat, j: nat)
    requires Known(s, ops) && EnoughIds(s, ops) && i <= j <= |ops|
    ensures Known(s, ops[..i]) && Known(s, ops[i..j]) && ops[..j] == ops[..i] + ops[i..j]
    ensures EnoughIds(s, ops[..i] + ops[i..j])
  {
    assert ops[..j] == ops[..i] + ops[i..j];
    IdsTakenBefore(ops, j);
  }

  lemma {:induction false} GoneBehind<C>(k: nat, s: Channel<C>, first: seq<Op<C>>, others: seq<Op<C>>, id: nat)
    requires s.Closed() && Known(s, first) && Known(s, others) && IdsIssued(s) && EnoughIds(s, first + others)
    requires id <= Run(k, s, first).next && id !in Run(k, s, first).pending
    ensures Known(s, first + others) && id !in Run(k, s, first + others).pending
  {
    IdsTakenBoth(first, others);
    CounterBound(k, s, first);
    RunBoth(k, s, first, others);
    NeverAgain(k, Run(k, s, first), others, id);
  }

  lemma {:induction false} GoneAtOnce<C>(k: nat, s: Channel<C>, ops: seq<Op<C>>, i: nat, id: nat)
    requires s.Closed() && Known(s, ops) && IdsIssued(s) && EnoughIds(s, ops)
    requires i < |ops| && CompletedAt(k, s, ops, i) == Some(id)
    ensures id <= Run(k, s, ops[..i + 1]).next && id !in Run(k, s, ops[..i + 1]).pending
  {
    IdsTakenBefore(ops, i);
    CounterBound(k, s, ops[..i]);
    assert ops[..i + 1][..i] == ops[..i];
    assert Run(k, s, ops[..i + 1]) == Deliver(k, Run(k, s, ops[..i]), ops[i].frames);
  }

  /** A controller that is not waiting keeps everything it holds until it is sent again, whatever
      else is sent and received meanwhile. */
  lemma {:induction false} KeepsResult<C>(k: nat, s: Channel<C>, ops: seq<Op<C>>, c: C)
    requires s.Closed() && Known(s, ops) && c in s.controllers && c !in s.pending.Values
    requires forall i | 0 <= i < |ops| && ops[i].DoSend? :: ops[i].c != c
    ensures Run(k, s, ops).controllers[c] == s.controllers[c] && c !in Run(k, s, ops).pending.Values
  {
    if ops != [] {
      KeepsResult(k, s, ops[..|ops| - 1], c);
    }
  }

  /** No run that respects the rule about sending breaks the bijection. */
  ghost predicate MaySendEach<C>(k: nat, s: Channel<C>, ops: seq<Op<C>>)
    requires s.Closed() && Known(s, ops)
  {
    forall i | 0 <= i < |ops| && ops[i].DoSend? :: MaySend(Run(k, s, ops[..i]), ops[i].c, ops[i].outcome)
  }

  lemma {:induction false} RunKeepsBijection<C>(k: nat, s: Channel<C>, ops: seq<Op<C>>)
    requires Bijection(s) && s.Closed() && Known(s, ops) && MaySendEach(k, s, ops)
    ensures Bijection(Run(k, s, ops))
  {
    if ops != [] {
      var n := |ops| - 1;
      assert MaySendEach(k, s, ops[..n]) by {
        assert forall i | 0 <= i < n :: ops[..n][..i] == ops[..i];
      }
      RunKeepsBijection(k, s, ops[..n]);
      StepKeepsBijection(k, Run(k, s, ops[..n]), ops[n]);
    }
  }

  lemma {:induction false} StepKeepsBijection<C>(k: nat, s: Channel<C>, op: Op<C>)
    requires Bijection(s) && s.Closed() && (op.DoSend? ==> op.c in s.controllers && MaySend(s, op.c, op.outcome))
    ensures Bijection(Step(k, s, op))
  {
    match op
    case DoSend(c, outcome) => SendKeeps(s, c, outcome);
    case DoReceive(frames) => DeliverKeepsBijection(k, s, frames);
  }

  /** The message asks for the completion of this request, with this outcome for its controller. */
  ghost predicate Completes<C>(k: nat, s: Channel<C>, m: Msg, id: nat, outcome: Controller)
    requires s.Closed() && id in s.pending
  {
    assert s.pending[id] in s.pending.Values;
    var e := Classify(k, s, m);
    e.Complete? && e.id == id && outcome == Store(s.controllers[s.pending[id]], e.result)
  }

  /** A request that has left the table after a batch of messages was completed by one of them, and its
      controller holds what that message says. */
  lemma {:induction false} CompletedByOwnReply<C>(k: nat, s: Channel<C>, msgs: seq<Msg>, id: nat) returns (i: nat)
    requires Bijection(s) && s.Closed() && id in s.pending && id !in DeliverAll(k, s, msgs).pending
    ensures i < |msgs| && Completes(k, s, msgs[i], id, DeliverAll(k, s, msgs).controllers[s.pending[id]])
  {
    var n := |msgs| - 1;
    assert msgs != [];
    var t := DeliverAll(k, s, msgs[..n]);
    if id in t.pending {
      i := n;
      LastCompletes(k, s, msgs, id);
    } else {
      i := CompletedByOwnReply(k, s, msgs[..n], id);
      NoLongerWaiting(k, s, msgs[..n], id);
      OthersUntouched(k, t, msgs[n], s.pending[id]);
    }
  }

  lemma {:induction false} LastCompletes<C>(k: nat, s: Channel<C>, msgs: seq<Msg>, id: nat)
    requires Bijection(s) && s.Closed() && id in s.pending && msgs != []
    requires id in DeliverAll(k, s, msgs[..|msgs| - 1]).pending && id !in DeliverAll(k, s, msgs).pending
    ensures Completes(k, s, msgs[|msgs| - 1], id, DeliverAll(k, s, msgs).controllers[s.pending[id]])
  {
    var n := |msgs| - 1;
    var t := DeliverAll(k, s, msgs[..n]);
    PendingIsOld(k, s, msgs[..n], id);
    assert Classify(k, t, msgs[n]).Complete? && Classify(k, t, msgs[n]).id == id;
    assert Classify(k, s, msgs[n]) == Classify(k, t, msgs[n]);
  }

  lemma {:induction false} NoLongerWaiting<C>(k: nat, s: Channel<C>, msgs: seq<Msg>, id: nat)
    requires Bijection(s) && s.Closed() && id in s.pending && id !in DeliverAll(k, s, msgs).pending
    ensures s.pending[id] !in DeliverAll(k, s, msgs).pending.Values
  {
    var t := DeliverAll(k, s, msgs);
    if s.pending[id] in t.pending.Values {
      var other :| other in t.pending && t.pending[other] == s.pending[id];
      PendingIsOld(k, s, msgs, other);
    }
  }

  lemma {:induction false} OthersUntouched<C>(k: nat, s: Channel<C>, m: Msg, c: C)
    requires s.Closed() && c in s.controllers && c !in s.pending.Values
    ensures Deliver(k, s, m).controllers[c] == s.controllers[c]
  {
  }

  /** Receiving only ever shrinks the table; a request still in it has its controller untouched. */
  lemma {:induction false} PendingIsOld<C>(k: nat, s: Channel<C>, msgs: seq<Msg>, id: nat)
    requires Bijection(s) && s.Closed()
    ensures var t := DeliverAll(k, s, msgs);
            id in t.pending ==> id in s.pending && t.pending[id] == s.pending[id]
                                && t.controllers[s.pending[id]] == s.controllers[s.pending[id]]
  {
    if msgs != [] {
      var n := |msgs| - 1;
      var t := DeliverAll(k, s, msgs[..n]);
      PendingIsOld(k, s, msgs[..n], id);
      DeliverAllKeepsBijection(k, s, msgs[..n]);
      var e := Classify(k, t, msgs[n]);
      if id in t.pending && e.Complete? && e.id != id {
        assert t.pending[e.id] != t.pending[id];
      }
    }
  }
}
