/** Whole receives: what calls of ZRecvMethod, in any order, leave behind and give their callers.  The
messages still to come are a list; each call gets to read some of them, as the network and its deadline
have it, and stops when its controller is done and nothing more has arrived, when the time is spent, or
when a message makes it throw. */
module ReceiveOrder {
  import opened Basics
  import opened LexicalCast
  import opened Framing
  import opened ChannelState
  import opened Confluence
  import opened RpcChannelClass

  /** What a call gives its caller: an exception, or a return with the payload that was parsed, if any. */
  datatype Return = Threw | Returned(parsed: Option<string>)

  /** The return of a call that ends with its controller in this state. */
  function Parsed(c: Controller): Return {
    Returned(if c.rcode == Ready then Some(c.payload) else None)
  }

  /** Reading up to n messages: the channel afterwards, the messages left, and whether one of them threw. */
  function Drain<C>(k: nat, s: Channel<C>, coming: seq<Msg>, n: nat): (r: (Channel<C>, seq<Msg>, bool))
    requires s.Closed()
    ensures r.0.Closed() && r.0.controllers.Keys == s.controllers.Keys
    decreases n
  {
    if n == 0 || coming == [] then (s, coming, false)
    else if Classify(k, s, coming[0]).Throw? then (s, coming[1..], true)
    else Drain(k, Deliver(k, s, coming[0]), coming[1..], n - 1)
  }

  function Receive<C>(k: nat, s: Channel<C>, coming: seq<Msg>, c: C, n: nat): (r: (Channel<C>, seq<Msg>, Return))
    requires s.Closed() && c in s.controllers
    ensures r.0.Closed() && r.0.controllers.Keys == s.controllers.Keys
  {
    if s.controllers[c].rcode != Working then (s, coming, Parsed(s.controllers[c]))
    else
      var (t, rest, thrown) := Drain(k, s, coming, n);
      (t, rest, if thrown then Threw else Parsed(t.controllers[c]))
  }

  /** Does a call that gets to read n messages end before its deadline?  It does when its controller is
      done or a message threw; without messages to wait for, the deadline changes nothing any more. */
  predicate InTime<C>(k: nat, s: Channel<C>, coming: seq<Msg>, c: C, n: nat)
    requires s.Closed() && c in s.controllers
  {
    var (t, rest, return_) := Receive(k, s, coming, c, n);
    return_ == Threw || rest == [] || t.controllers[c].rcode != Working
  }

  /** Receiving for one controller after the other, each call getting to read so many messages. */
  function ReceiveEach<C>(k: nat, s: Channel<C>, coming: seq<Msg>, order: seq<C>, upto: seq<nat>)
      : (r: (Channel<C>, seq<Msg>, seq<Return>))
    requires s.Closed() && |upto| == |order| && forall i | 0 <= i < |order| :: order[i] in s.controllers
    ensures r.0.Closed() && r.0.controllers.Keys == s.controllers.Keys && |r.2| == |order|
    decreases |order|
  {
    if order == [] then (s, coming, [])
    else
      var (t, rest, return_) := Receive(k, s, coming, order[0], upto[0]);
      var (u, left, returns_) := ReceiveEach(k, t, rest, order[1..], upto[1..]);
      (u, left, [return_] + returns_)
  }

  /** No call of these is cut short by its deadline. */
  predicate AllInTime<C>(k: nat, s: Channel<C>, coming: seq<Msg>, order: seq<C>, upto: seq<nat>)
    requires s.Closed() && |upto| == |order| && forall i | 0 <= i < |order| :: order[i] in s.controllers
    decreases |order|
  {
    if order == [] then true
    else
      var (t, rest, _) := Receive(k, s, coming, order[0], upto[0]);
      InTime(k, s, coming, order[0], upto[0]) && AllInTime(k, t, rest, order[1..], upto[1..])
  }

  // ---- ZRecvMethod is such a receive ----

  /** ZRecvMethod is such a receive, of as many messages as it took.  Its contract says the hypotheses: the
      messages read were folded into the channel, a call that found its controller done read none, and
      the payload is parsed when the controller is ready. */
  lemma {:induction false} ZRecvMethodReceives(k: nat, s: Channel<ZController>, arrivals: seq<Arrival>, c: ZController,
                                               taken: nat, thrown: bool, rest: seq<Arrival>, t: Channel<ZController>,
                                               parsed: Option<string>)
    requires Folded(k, s, arrivals, taken, thrown, rest, t) && c in s.controllers && c in t.controllers
    requires s.controllers[c].rcode != Working ==> taken == 0 && !thrown
    requires parsed == if !thrown && t.controllers[c].rcode == Ready then Some(t.controllers[c].payload) else None
    ensures (t, Messages(rest), if thrown then Threw else Returned(parsed))
         == Receive(k, s, Messages(arrivals), c, taken)
    ensures thrown || rest == [] || t.controllers[c].rcode != Working <==> InTime(k, s, Messages(arrivals), c, taken)
  {
    assert arrivals[0..] == arrivals;
    FoldedIsDrain(k, s, arrivals, taken, thrown, rest, t, 0);
  }

  lemma {:induction false} FoldedIsDrain(k: nat, s: Channel<ZController>, arrivals: seq<Arrival>, taken: nat,
                                         thrown: bool, rest: seq<Arrival>, t: Channel<ZController>, i: nat)
    requires Folded(k, s, arrivals, taken, thrown, rest, t)
    requires i <= taken && (thrown ==> i < taken)
    ensures (t, Messages(rest), thrown) == Drain(k, After(k, s, arrivals, i), Messages(arrivals[i..]), taken - i)
    decreases taken - i
  {
    if i < taken {
      NextArrival(k, s, arrivals, i);
      assert ThrowsAt(k, s, arrivals, i) <==> thrown && i == taken - 1;
      if !ThrowsAt(k, s, arrivals, i) {
        FoldedIsDrain(k, s, arrivals, taken, thrown, rest, t, i + 1);
      }
    }
  }

  lemma {:induction false} NextArrival(k: nat, s: Channel<ZController>, arrivals: seq<Arrival>, i: nat)
    requires s.Closed() && i < |arrivals|
    ensures var coming := Messages(arrivals[i..]);
            coming[0] == arrivals[i].frames && coming[1..] == Messages(arrivals[i + 1..])
    ensures After(k, s, arrivals, i + 1) == Deliver(k, After(k, s, arrivals, i), arrivals[i].frames)
  {
    var msgs := Messages(arrivals[..i + 1]);
    assert msgs[..i] == Messages(arrivals[..i]);
    assert arrivals[i..][1..] == arrivals[i + 1..];
  }

  // ---- What one receive does to the messages behind it ----

  /** Every four-frame message names a request by number, and no request is named twice. */
  ghost predicate WellAddressed(inbox: seq<Msg>) {
    DistinctIds(inbox) && forall i | 0 <= i < |inbox| && |inbox[i]| == 4 :: IdOf(inbox[i]).Some?
  }

  function Effects<C>(k: nat, s: Channel<C>, inbox: seq<Msg>): seq<Effect> {
    seq(|inbox|, i requires 0 <= i < |inbox| => Classify(k, s, inbox[i]))
  }

  /** How many messages make a receive throw. */
  function Throwing(es: seq<Effect>): nat {
    if es == [] then 0 else Throwing(es[1..]) + if es[0].Throw? then 1 else 0
  }

  function Completed(es: seq<Effect>): set<nat> {
    if es == [] then {} else Completed(es[1..]) + if es[0].Complete? then {es[0].id} else {}
  }

  lemma {:induction false} EffectsStay<C>(k: nat, s: Channel<C>, inbox: seq<Msg>)
    requires s.Closed() && inbox != [] && WellAddressed(inbox)
    ensures WellAddressed(inbox[1..])
    ensures Effects(k, Deliver(k, s, inbox[0]), inbox[1..]) == Effects(k, s, inbox)[1..]
  {
    var m, rest := inbox[0], inbox[1..];
    forall i | 0 <= i < |rest|
      ensures Classify(k, Deliver(k, s, m), rest[i]) == Classify(k, s, rest[i])
    {
      assert rest[i] == inbox[i + 1];
      ClassifyStays(k, s, m, rest[i]);
    }
  }

  /** A request leaves the table exactly when one of the messages completes it. */
  lemma {:induction false} PendingAfter<C>(k: nat, s: Channel<C>, inbox: seq<Msg>)
    requires s.Closed() && WellAddressed(inbox)
    ensures DeliverAll(k, s, inbox).pending == s.pending - Completed(Effects(k, s, inbox))
    decreases |inbox|
  {
    if inbox != [] {
      EffectsStay(k, s, inbox);
      PendingAfter(k, Deliver(k, s, inbox[0]), inbox[1..]);
      FirstDelivered(k, s, inbox);
    }
  }

  lemma {:induction false} FirstDelivered<C>(k: nat, s: Channel<C>, inbox: seq<Msg>)
    requires s.Closed() && inbox != []
    ensures DeliverAll(k, s, inbox) == DeliverAll(k, Deliver(k, s, inbox[0]), inbox[1..])
  {
    assert inbox == [inbox[0]] + inbox[1..];
    DeliverAllCons(k, s, inbox[0], inbox[1..]);
  }

  /** What is not read is put off: filing the rest leaves the same channel. */
  lemma {:induction false} DrainPutsOff<C>(k: nat, s: Channel<C>, coming: seq<Msg>, n: nat)
    requires s.Closed()
    ensures var (t, rest, thrown) := Drain(k, s, coming, n);
            && DeliverAll(k, t, rest) == DeliverAll(k, s, coming)
            && (!thrown && |coming| <= n ==> rest == [])
            && (Bijection(s) ==> Bijection(t))
    decreases n
  {
    if n > 0 && coming != [] {
      FirstDelivered(k, s, coming);
      if !Classify(k, s, coming[0]).Throw? {
        if Bijection(s) {
          DeliverKeepsBijection(k, s, coming[0]);
        }
        DrainPutsOff(k, Deliver(k, s, coming[0]), coming[1..], n - 1);
      }
    }
  }

  /** A drain that throws takes one message that throws off the list, any other takes none; one that may
      read everything throws if there is such a message. */
  lemma {:induction false} DrainStops<C>(k: nat, s: Channel<C>, coming: seq<Msg>, n: nat)
    requires s.Closed() && WellAddressed(coming)
    ensures var (t, rest, thrown) := Drain(k, s, coming, n);
            var es, fs := Effects(k, s, coming), Effects(k, t, rest);
            && WellAddressed(rest)
            && Throwing(es) == Throwing(fs) + (if thrown then 1 else 0)
            && (|coming| <= n && Throwing(es) > 0 ==> thrown)
            && Completed(fs) <= Completed(es)
    decreases n
  {
    if n > 0 && coming != [] {
      EffectsStay(k, s, coming);
      if !Classify(k, s, coming[0]).Throw? {
        DrainStops(k, Deliver(k, s, coming[0]), coming[1..], n - 1);
      }
    }
  }

  /** A request that no message completes stays pending, and the table gets no new entry. */
  lemma {:induction false} DrainPending<C>(k: nat, s: Channel<C>, coming: seq<Msg>, n: nat)
    requires s.Closed() && WellAddressed(coming)
    ensures var t := Drain(k, s, coming, n).0;
            && (forall id | id in t.pending :: id in s.pending && t.pending[id] == s.pending[id])
            && (forall id | id in s.pending && id !in Completed(Effects(k, s, coming)) :: id in t.pending)
    decreases n
  {
    if n > 0 && coming != [] {
      EffectsStay(k, s, coming);
      if !Classify(k, s, coming[0]).Throw? {
        DrainPending(k, Deliver(k, s, coming[0]), coming[1..], n - 1);
      }
    }
  }

  lemma {:induction false} CompletedPending<C>(k: nat, s: Channel<C>, inbox: seq<Msg>)
    ensures Completed(Effects(k, s, inbox)) <= s.pending.Keys
  {
    CompletedBy(Effects(k, s, inbox));
  }

  lemma {:induction false} CompletedBy(es: seq<Effect>)
    ensures forall id :: id in Completed(es) <==> exists i :: 0 <= i < |es| && es[i].Complete? && es[i].id == id
    ensures Throwing(es) == 0 <==> forall i | 0 <= i < |es| :: !es[i].Throw?
  {
    if es != [] {
      CompletedBy(es[1..]);
      assert es == [es[0]] + es[1..];
    }
  }

  // ---- The order of receives does not matter ----

  /** The receives include one for every pending request that a message is about. */
  ghost predicate Serves<C>(s: Channel<C>, inbox: seq<Msg>, order: seq<C>) {
    && (forall i | 0 <= i < |order| :: order[i] in s.controllers)
    && forall i | 0 <= i < |inbox| && IdOf(inbox[i]).Some? && IdOf(inbox[i]).value in s.pending ::
         s.pending[IdOf(inbox[i]).value] in order
  }

  predicate Served<C(==)>(s: Channel<C>, order: seq<C>, id: nat) {
    id in s.pending && s.pending[id] in order
  }

  /** The receives still to come get past every message that throws: each request in `owed` will find no
      reply and so read on to the next such message.  When there are no more of them than such messages,
      whatever else is to be completed has a receive of its own. */
  ghost predicate Enough<C>(s: Channel<C>, es: seq<Effect>, order: seq<C>, owed: set<nat>) {
    && EachOwed(s, es, order, owed)
    && Throwing(es) <= |owed|
    && (Throwing(es) == |owed| ==> forall id | id in Completed(es) :: Served(s, order, id))
  }

  ghost predicate EachOwed<C>(s: Channel<C>, es: seq<Effect>, order: seq<C>, owed: set<nat>) {
    forall id | id in owed :: Served(s, order, id) && id !in Completed(es)
  }

  /** What the first receive does not serve is served by the others. */
  lemma {:induction false} ServedLater<C>(s: Channel<C>, t: Channel<C>, order: seq<C>, id: nat)
    requires order != [] && Served(s, order, id) && s.pending[id] != order[0]
    requires id in t.pending && t.pending[id] == s.pending[id]
    ensures Served(t, order[1..], id)
  {
    assert order == [order[0]] + order[1..];
  }

  lemma {:induction false} EnoughWithoutIdle<C>(s: Channel<C>, es: seq<Effect>, order: seq<C>, owed: set<nat>)
    requires Bijection(s) && order != [] && Enough(s, es, order, owed)
    requires order[0] in s.controllers && s.controllers[order[0]].rcode != Working
    ensures Enough(s, es, order[1..], owed)
  {
    forall id | Served(s, order, id) ensures Served(s, order[1..], id) {
      ServedLater(s, s, order, id);
    }
  }

  /** What a drain leaves of table and messages. */
  ghost predicate StopsBehind<C>(s: Channel<C>, es: seq<Effect>, t: Channel<C>, fs: seq<Effect>) {
    && Completed(fs) <= Completed(es) && Completed(fs) <= t.pending.Keys
    && (forall id | id in t.pending :: id in s.pending && t.pending[id] == s.pending[id])
    && (forall id | id in s.pending && id !in Completed(es) :: id in t.pending)
  }

  lemma {:induction false} DrainStopsBehind<C>(k: nat, s: Channel<C>, coming: seq<Msg>, n: nat)
    requires s.Closed() && WellAddressed(coming)
    ensures var (t, rest, _) := Drain(k, s, coming, n);
            StopsBehind(s, Effects(k, s, coming), t, Effects(k, t, rest))
  {
    var (t, rest, _) := Drain(k, s, coming, n);
    DrainStops(k, s, coming, n);
    DrainPending(k, s, coming, n);
    CompletedPending(k, t, rest);
  }

  lemma {:induction false} EachOwedBehind<C>(s: Channel<C>, es: seq<Effect>, t: Channel<C>, fs: seq<Effect>,
                                             order: seq<C>, owed: set<nat>, id: nat)
    requires Bijection(s) && StopsBehind(s, es, t, fs) && order != [] && EachOwed(s, es, order, owed)
    requires id in s.pending && s.pending[id] == order[0]
    ensures EachOwed(t, fs, order[1..], owed - {id})
  {
    forall x | x in owed - {id} ensures Served(t, order[1..], x) && x !in Completed(fs) {
      assert Served(s, order, x);
      ServedLater(s, t, order, x);
    }
  }

  lemma {:induction false} OthersServed<C>(s: Channel<C>, es: seq<Effect>, t: Channel<C>, fs: seq<Effect>,
                                           order: seq<C>, id: nat)
    requires Bijection(s) && StopsBehind(s, es, t, fs) && order != [] && id !in Completed(fs)
    requires id in s.pending && s.pending[id] == order[0] && forall x | x in Completed(es) :: Served(s, order, x)
    ensures forall x | x in Completed(fs) :: Served(t, order[1..], x)
  {
    forall x | x in Completed(fs) ensures Served(t, order[1..], x) {
      assert Served(s, order, x);
      ServedLater(s, t, order, x);
    }
  }

  lemma OneLess(ids: set<nat>, id: nat)
    ensures |ids - {id}| == |ids| - if id in ids then 1 else 0
  {
    if id !in ids {
      assert ids - {id} == ids;
    }
  }

  /** A receive that throws uses up one message that throws, and at most one receive that was owed. */
  lemma {:induction false} EnoughAfterThrow<C>(s: Channel<C>, es: seq<Effect>, t: Channel<C>, fs: seq<Effect>,
                                               order: seq<C>, owed: set<nat>, id: nat)
    requires Bijection(s) && StopsBehind(s, es, t, fs) && order != [] && Enough(s, es, order, owed)
    requires id in s.pending && s.pending[id] == order[0] && Throwing(es) == Throwing(fs) + 1
    ensures Enough(t, fs, order[1..], owed - {id})
  {
    EachOwedBehind(s, es, t, fs, order, owed, id);
    OneLess(owed, id);
    if id in owed && Throwing(es) == |owed| {
      OthersServed(s, es, t, fs, order, id);
    }
  }

  /** A receive whose controller is done was not owed, and has been served. */
  lemma {:induction false} EnoughAfterDone<C>(s: Channel<C>, es: seq<Effect>, t: Channel<C>, fs: seq<Effect>,
                                              order: seq<C>, owed: set<nat>, id: nat)
    requires Bijection(s) && StopsBehind(s, es, t, fs) && order != [] && Enough(s, es, order, owed)
    requires id in s.pending && s.pending[id] == order[0] && Throwing(es) == Throwing(fs) && id !in t.pending
    ensures Enough(t, fs, order[1..], owed)
  {
    assert id !in owed;
    assert owed - {id} == owed;
    EachOwedBehind(s, es, t, fs, order, owed, id);
    if Throwing(es) == |owed| {
      OthersServed(s, es, t, fs, order, id);
    }
  }

  lemma {:induction false} NothingCompleted<C>(k: nat, s: Channel<C>, inbox: seq<Msg>)
    requires s.Closed() && Completed(Effects(k, s, inbox)) == {}
    ensures DeliverAll(k, s, inbox) == s
    decreases |inbox|
  {
    if inbox != [] {
      assert Effects(k, s, inbox[1..]) == Effects(k, s, inbox)[1..];
      FirstDelivered(k, s, inbox);
      NothingCompleted(k, s, inbox[1..]);
    }
  }

  lemma {:induction false} EnoughInTheEnd<C>(s: Channel<C>, es: seq<Effect>, owed: set<nat>)
    requires Enough(s, es, [], owed)
    ensures Throwing(es) == 0 && Completed(es) == {}
  {
    assert forall id | id in owed :: Served(s, [], id);
    assert owed == {};
    assert forall id | id in Completed(es) :: Served(s, [], id);
  }

  /** The first receive leaves enough receives for what it leaves to be read. */
  lemma {:induction false} EnoughAfterFirst<C>(k: nat, s: Channel<C>, coming: seq<Msg>, order: seq<C>, n: nat,
                                               owed: set<nat>) returns (left: set<nat>)
    requires Bijection(s) && s.Closed() && WellAddressed(coming) && Enough(s, Effects(k, s, coming), order, owed)
    requires order != [] && order[0] in s.controllers && InTime(k, s, coming, order[0], n)
    ensures var (t, rest, _) := Receive(k, s, coming, order[0], n);
            && Bijection(t) && WellAddressed(rest) && DeliverAll(k, t, rest) == DeliverAll(k, s, coming)
            && Enough(t, Effects(k, t, rest), order[1..], left)
  {
    if s.controllers[order[0]].rcode != Working {
      left := owed;
      EnoughWithoutIdle(s, Effects(k, s, coming), order, owed);
    } else {
      DrainPutsOff(k, s, coming, n);
      DrainStops(k, s, coming, n);
      left := EnoughAfterDrain(k, s, coming, order, n, owed);
    }
  }

  lemma {:induction false} EnoughAfterDrain<C>(k: nat, s: Channel<C>, coming: seq<Msg>, order: seq<C>, n: nat,
                                               owed: set<nat>) returns (left: set<nat>)
    requires Bijection(s) && s.Closed() && WellAddressed(coming) && Enough(s, Effects(k, s, coming), order, owed)
    requires order != [] && order[0] in s.controllers && s.controllers[order[0]].rcode == Working
    requires InTime(k, s, coming, order[0], n)
    ensures var (t, rest, _) := Drain(k, s, coming, n);
            Enough(t, Effects(k, t, rest), order[1..], left)
  {
    var (t, rest, thrown) := Drain(k, s, coming, n);
    var id :| id in s.pending && s.pending[id] == order[0];
    DrainStops(k, s, coming, n);
    DrainStopsBehind(k, s, coming, n);
    if thrown {
      left := owed - {id};
      EnoughAfterThrow(s, Effects(k, s, coming), t, Effects(k, t, rest), order, owed, id);
    } else if rest == [] {
      left := {};
    } else {
      left := owed;
      DrainPutsOff(k, s, coming, n);
      DoneIsGone(t, order[0], id);
      EnoughAfterDone(s, Effects(k, s, coming), t, Effects(k, t, rest), order, owed, id);
    }
  }

  lemma DoneIsGone<C>(s: Channel<C>, c: C, id: nat)
    requires Bijection(s) && c in s.controllers && s.controllers[c].rcode != Working
    ensures id in s.pending ==> s.pending[id] != c
  {
  }

  /** Nothing that could throw or complete a request is left in the end. */
  lemma {:induction false} EnoughReceives<C>(k: nat, s: Channel<C>, coming: seq<Msg>, order: seq<C>, upto: seq<nat>,
                                             owed: set<nat>)
    requires Bijection(s) && s.Closed() && WellAddressed(coming) && Enough(s, Effects(k, s, coming), order, owed)
    requires |upto| == |order| && (forall i | 0 <= i < |order| :: order[i] in s.controllers)
    requires AllInTime(k, s, coming, order, upto)
    ensures var (t, rest, _) := ReceiveEach(k, s, coming, order, upto);
            && t == DeliverAll(k, s, coming)
            && Throwing(Effects(k, t, rest)) == 0 && Completed(Effects(k, t, rest)) == {}
    decreases |order|
  {
    if order == [] {
      EnoughInTheEnd(s, Effects(k, s, coming), owed);
      NothingCompleted(k, s, coming);
    } else {
      var (t, rest, _) := Receive(k, s, coming, order[0], upto[0]);
      assert InTime(k, s, coming, order[0], upto[0]);
      var left := EnoughAfterFirst(k, s, coming, order, upto[0], owed);
      EnoughReceives(k, t, rest, order[1..], upto[1..], left);
    }
  }

  /** The requests whose reply makes a receive throw. */
  function ThrowingIds<C>(k: nat, s: Channel<C>, inbox: seq<Msg>): set<nat> {
    if inbox == [] then {}
    else ThrowingIds(k, s, inbox[1..])
         + if Classify(k, s, inbox[0]).Throw? && IdOf(inbox[0]).Some? then {IdOf(inbox[0]).value} else {}
  }

  lemma {:induction false} ThrowingIdsBy<C>(k: nat, s: Channel<C>, inbox: seq<Msg>, id: nat)
    requires id in ThrowingIds(k, s, inbox)
    ensures exists i :: 0 <= i < |inbox| && Classify(k, s, inbox[i]).Throw? && IdOf(inbox[i]) == Some(id)
  {
    if id in ThrowingIds(k, s, inbox[1..]) {
      ThrowingIdsBy(k, s, inbox[1..], id);
      var i :| 0 <= i < |inbox[1..]| && Classify(k, s, inbox[1..][i]).Throw? && IdOf(inbox[1..][i]) == Some(id);
      assert inbox[i + 1] == inbox[1..][i];
    }
  }

  lemma {:induction false} OneIdEach<C>(k: nat, s: Channel<C>, inbox: seq<Msg>)
    requires s.Closed() && WellAddressed(inbox)
    ensures |ThrowingIds(k, s, inbox)| == Throwing(Effects(k, s, inbox))
    decreases |inbox|
  {
    if inbox != [] {
      assert Effects(k, s, inbox[1..]) == Effects(k, s, inbox)[1..];
      EffectsStay(k, s, inbox);
      OneIdEach(k, s, inbox[1..]);
      if Classify(k, s, inbox[0]).Throw? {
        NotAmongOthers(k, s, inbox);
      }
    }
  }

  lemma {:induction false} NotAmongOthers<C>(k: nat, s: Channel<C>, inbox: seq<Msg>)
    requires inbox != [] && WellAddressed(inbox) && Classify(k, s, inbox[0]).Throw?
    ensures IdOf(inbox[0]).Some? && IdOf(inbox[0]).value !in ThrowingIds(k, s, inbox[1..])
  {
    var id := IdOf(inbox[0]).value;
    if id in ThrowingIds(k, s, inbox[1..]) {
      ThrowingIdsBy(k, s, inbox[1..], id);
    }
  }

  lemma OnlyOneWithId(inbox: seq<Msg>, i: nat, j: nat)
    requires WellAddressed(inbox) && i < |inbox| && j < |inbox| && IdOf(inbox[i]).Some?
    ensures IdOf(inbox[j]) == IdOf(inbox[i]) ==> i == j
  {
    if j < i {
      assert IdOf(inbox[j]).Some? ==> IdOf(inbox[j]) != IdOf(inbox[i]);
    }
  }

  lemma {:induction false} NotCompleted<C>(k: nat, s: Channel<C>, inbox: seq<Msg>, i: nat)
    requires WellAddressed(inbox) && i < |inbox| && Classify(k, s, inbox[i]).Throw?
    ensures IdOf(inbox[i]).Some? && IdOf(inbox[i]).value in s.pending
    ensures IdOf(inbox[i]).value !in Completed(Effects(k, s, inbox))
  {
    var es := Effects(k, s, inbox);
    forall j | 0 <= j < |es| ensures !es[j].Complete? || IdOf(inbox[i]) != Some(es[j].id) {
      OnlyOneWithId(inbox, i, j);
    }
    CompletedBy(es);
  }

  /** A request whose reply makes a receive throw is pending, and nothing else completes it. */
  lemma {:induction false} ThrowingIdIsOwed<C>(k: nat, s: Channel<C>, inbox: seq<Msg>, order: seq<C>, id: nat)
    requires WellAddressed(inbox) && Serves(s, inbox, order) && id in ThrowingIds(k, s, inbox)
    ensures Served(s, order, id) && id !in Completed(Effects(k, s, inbox))
  {
    ThrowingIdsBy(k, s, inbox, id);
    var i :| 0 <= i < |inbox| && Classify(k, s, inbox[i]).Throw? && IdOf(inbox[i]) == Some(id);
    NotCompleted(k, s, inbox, i);
  }

  lemma {:induction false} CompletedHasOwner<C>(k: nat, s: Channel<C>, inbox: seq<Msg>, order: seq<C>, id: nat)
    requires Serves(s, inbox, order) && id in Completed(Effects(k, s, inbox))
    ensures Served(s, order, id)
  {
    var es := Effects(k, s, inbox);
    CompletedBy(es);
    var i :| 0 <= i < |es| && es[i].Complete? && es[i].id == id;
    assert es[i] == Classify(k, s, inbox[i]) && IdOf(inbox[i]) == Some(id);
  }

  lemma {:induction false} EnoughAtFirst<C>(k: nat, s: Channel<C>, inbox: seq<Msg>, order: seq<C>)
    requires s.Closed() && WellAddressed(inbox) && Serves(s, inbox, order)
    ensures Enough(s, Effects(k, s, inbox), order, ThrowingIds(k, s, inbox))
  {
    var es, owed := Effects(k, s, inbox), ThrowingIds(k, s, inbox);
    forall id | id in owed ensures Served(s, order, id) && id !in Completed(es) {
      ThrowingIdIsOwed(k, s, inbox, order, id);
    }
    OneIdEach(k, s, inbox);
    forall id | id in Completed(es) ensures Served(s, order, id) {
      CompletedHasOwner(k, s, inbox, order, id);
    }
  }

  /** Receiving in any order, however the arrivals fall between the receives: the channel is left as if
      every reply had been filed, whichever replies carry errors and make receives throw, as long as each
      request that has a reply is received for, in whatever order and however often. */
  lemma {:induction false} ReceivesInAnyOrder<C>(k: nat, s: Channel<C>, coming: seq<Msg>, order: seq<C>, upto: seq<nat>)
    requires Bijection(s) && s.Closed() && WellAddressed(coming) && Serves(s, coming, order)
    requires |upto| == |order| && AllInTime(k, s, coming, order, upto)
    ensures ReceiveEach(k, s, coming, order, upto).0 == DeliverAll(k, s, coming)
  {
    EnoughAtFirst(k, s, coming, order);
    EnoughReceives(k, s, coming, order, upto, ThrowingIds(k, s, coming));
  }

  // ---- Receives that find everything arrived, and receives cut short ----

  /** Every call may read all there is. */
  function AllArrived<C>(inbox: seq<Msg>, order: seq<C>): seq<nat> {
    seq(|order|, i => |inbox|)
  }

  /** If all replies have arrived before the first receive, no deadline cuts any receive short. */
  lemma {:induction false} AllArrivedInTime<C>(k: nat, s: Channel<C>, inbox: seq<Msg>, order: seq<C>, upto: seq<nat>)
    requires s.Closed() && |upto| == |order| && forall i | 0 <= i < |order| :: order[i] in s.controllers
    requires forall i | 0 <= i < |upto| :: |inbox| <= upto[i]
    ensures AllInTime(k, s, inbox, order, upto)
    decreases |order|
  {
    if order != [] {
      var (t, rest, _) := Receive(k, s, inbox, order[0], upto[0]);
      DrainPutsOff(k, s, inbox, upto[0]);
      DrainShortens(k, s, inbox, upto[0]);
      AllArrivedInTime(k, t, rest, order[1..], upto[1..]);
    }
  }

  lemma {:induction false} DrainShortens<C>(k: nat, s: Channel<C>, coming: seq<Msg>, n: nat)
    requires s.Closed()
    ensures |Drain(k, s, coming, n).1| <= |coming|
    decreases n
  {
    if n > 0 && coming != [] && !Classify(k, s, coming[0]).Throw? {
      DrainShortens(k, Deliver(k, s, coming[0]), coming[1..], n - 1);
    }
  }

  /** Receives cut short lose nothing: wherever each of them stops, and whatever the messages are, what was
      not read is put off, and filing it leaves the same channel. */
  lemma {:induction false} ReceivesPutOff<C>(k: nat, s: Channel<C>, coming: seq<Msg>, order: seq<C>, upto: seq<nat>)
    requires s.Closed() && |upto| == |order| && forall i | 0 <= i < |order| :: order[i] in s.controllers
    ensures var (t, rest, _) := ReceiveEach(k, s, coming, order, upto);
            && DeliverAll(k, t, rest) == DeliverAll(k, s, coming)
            && (Bijection(s) ==> Bijection(t))
            && (WellAddressed(coming) ==> WellAddressed(rest))
    decreases |order|
  {
    if order != [] {
      var (t, rest, _) := Receive(k, s, coming, order[0], upto[0]);
      DrainPutsOff(k, s, coming, upto[0]);
      if WellAddressed(coming) {
        DrainStops(k, s, coming, upto[0]);
      }
      ReceivesPutOff(k, t, rest, order[1..], upto[1..]);
    }
  }

  /** A timeout holds for its own receive only: after any receives cut short anywhere, receives in time for
      what is still to come leave the channel as if none had been cut short. */
  lemma {:induction false} CutShortMadeUp<C>(k: nat, s: Channel<C>, coming: seq<Msg>, order: seq<C>, upto: seq<nat>,
                                             again: seq<C>, upto': seq<nat>)
    requires Bijection(s) && s.Closed() && WellAddressed(coming)
    requires |upto| == |order| && forall i | 0 <= i < |order| :: order[i] in s.controllers
    requires var (t, rest, _) := ReceiveEach(k, s, coming, order, upto);
             Serves(t, rest, again) && |upto'| == |again| && AllInTime(k, t, rest, again, upto')
    ensures var (t, rest, _) := ReceiveEach(k, s, coming, order, upto);
            ReceiveEach(k, t, rest, again, upto').0 == DeliverAll(k, s, coming)
  {
    var (t, rest, _) := ReceiveEach(k, s, coming, order, upto);
    ReceivesPutOff(k, s, coming, order, upto);
    ReceivesInAnyOrder(k, t, rest, again, upto');
  }

  // ---- What each call returns ----

  lemma {:induction false} OthersKeep<C>(k: nat, s: Channel<C>, msgs: seq<Msg>, c: C)
    requires s.Closed() && c in s.controllers && c !in s.pending.Values
    ensures DeliverAll(k, s, msgs).controllers[c] == s.controllers[c]
  {
    if msgs != [] {
      OthersKeep(k, s, msgs[..|msgs| - 1], c);
      PendingShrinks(k, s, msgs[..|msgs| - 1]);
    }
  }

  /** A call that does not throw returns what its controller will hold in the end, or nothing if it is cut
      short. */
  lemma {:induction false} ReceiveReturns<C>(k: nat, s: Channel<C>, coming: seq<Msg>, c: C, n: nat)
    requires Bijection(s) && s.Closed() && c in s.controllers
    ensures var (t, rest, return_) := Receive(k, s, coming, c, n);
            && Bijection(t) && DeliverAll(k, t, rest) == DeliverAll(k, s, coming)
            && (return_ == Threw || return_ == Parsed(DeliverAll(k, s, coming).controllers[c])
                || (return_ == Returned(None) && !InTime(k, s, coming, c, n)))
  {
    var (t, rest, return_) := Receive(k, s, coming, c, n);
    DrainPutsOff(k, s, coming, n);
    if t.controllers[c].rcode != Working {
      OthersKeep(k, t, rest, c);
    }
  }

  ghost predicate FinalOrThrew<C>(returns_: seq<Return>, order: seq<C>, final: Channel<C>)
    requires |returns_| == |order| && forall i | 0 <= i < |order| :: order[i] in final.controllers
  {
    forall j | 0 <= j < |order| :: returns_[j] == Threw || returns_[j] == Parsed(final.controllers[order[j]])
  }

  /** In whatever order calls are made and however the arrivals fall between them, each either throws or
      returns what its controller holds when all replies have been filed. */
  lemma {:induction false} ReturnsAreFinal<C>(k: nat, s: Channel<C>, coming: seq<Msg>, order: seq<C>, upto: seq<nat>)
    requires Bijection(s) && s.Closed()
    requires |upto| == |order| && forall i | 0 <= i < |order| :: order[i] in s.controllers
    requires AllInTime(k, s, coming, order, upto)
    ensures FinalOrThrew(ReceiveEach(k, s, coming, order, upto).2, order, DeliverAll(k, s, coming))
    decreases |order|
  {
    if order != [] {
      ReceiveReturns(k, s, coming, order[0], upto[0]);
      var (t, rest, return_) := Receive(k, s, coming, order[0], upto[0]);
      ReturnsAreFinal(k, t, rest, order[1..], upto[1..]);
      FinalOrThrewFirst(return_, ReceiveEach(k, t, rest, order[1..], upto[1..]).2, order, DeliverAll(k, s, coming));
    }
  }

  lemma FinalOrThrewFirst<C>(first: Return, others: seq<Return>, order: seq<C>, final: Channel<C>)
    requires |order| == |others| + 1 && forall i | 0 <= i < |order| :: order[i] in final.controllers
    requires FinalOrThrew(others, order[1..], final)
    requires first == Threw || first == Parsed(final.controllers[order[0]])
    ensures FinalOrThrew([first] + others, order, final)
  {
  }

  /** Even calls that may be cut short never return anything else but nothing. */
  lemma {:induction false} ReturnsFinalOrNothing<C>(k: nat, s: Channel<C>, coming: seq<Msg>, order: seq<C>,
                                                    upto: seq<nat>)
    requires Bijection(s) && s.Closed()
    requires |upto| == |order| && forall i | 0 <= i < |order| :: order[i] in s.controllers
    ensures forall j | 0 <= j < |order| ::
              var return_ := ReceiveEach(k, s, coming, order, upto).2[j];
              return_ == Threw || return_ == Returned(None)
              || return_ == Parsed(DeliverAll(k, s, coming).controllers[order[j]])
    decreases |order|
  {
    if order != [] {
      ReceiveReturns(k, s, coming, order[0], upto[0]);
      var (t, rest, _) := Receive(k, s, coming, order[0], upto[0]);
      ReturnsFinalOrNothing(k, t, rest, order[1..], upto[1..]);
    }
  }

  // ---- How many calls throw ----

  function Thrown(returns_: seq<Return>): nat {
    if returns_ == [] then 0 else Thrown(returns_[1..]) + if returns_[0] == Threw then 1 else 0
  }

  ghost predicate SomeThrow(returns_: seq<Return>) {
    exists j :: 0 <= j < |returns_| && returns_[j] == Threw
  }

  lemma {:induction false} SomeThrown(returns_: seq<Return>)
    ensures SomeThrow(returns_) <==> Thrown(returns_) > 0
  {
    if returns_ != [] {
      SomeThrown(returns_[1..]);
      SomeThrowFirst(returns_[0], returns_[1..]);
      assert returns_ == [returns_[0]] + returns_[1..];
    }
  }

  lemma {:induction false} SomeThrowFirst(first: Return, others: seq<Return>)
    ensures SomeThrow([first] + others) <==> first == Threw || SomeThrow(others)
  {
    var all := [first] + others;
    if SomeThrow(others) {
      var j :| 0 <= j < |others| && others[j] == Threw;
      assert all[j + 1] == Threw;
    }
    assert all[0] == first;
  }

  /** Each call that throws takes one message that throws off the list, and no other call does. */
  lemma {:induction false} ThrownCounted<C>(k: nat, s: Channel<C>, coming: seq<Msg>, order: seq<C>, upto: seq<nat>)
    requires s.Closed() && WellAddressed(coming)
    requires |upto| == |order| && forall i | 0 <= i < |order| :: order[i] in s.controllers
    ensures var (t, rest, returns_) := ReceiveEach(k, s, coming, order, upto);
            Throwing(Effects(k, s, coming)) == Thrown(returns_) + Throwing(Effects(k, t, rest))
    decreases |order|
  {
    if order != [] {
      var (t, rest, return_) := Receive(k, s, coming, order[0], upto[0]);
      DrainStops(k, s, coming, upto[0]);
      ThrownCounted(k, t, rest, order[1..], upto[1..]);
      ThrownFirst(return_, ReceiveEach(k, t, rest, order[1..], upto[1..]).2);
    }
  }

  lemma ThrownFirst(first: Return, others: seq<Return>)
    ensures Thrown([first] + others) == Thrown(others) + if first == Threw then 1 else 0
  {
    assert ([first] + others)[1..] == others;
  }

  /** If each request that has a reply is received for, exactly as many calls throw as there are messages
      that make one throw, in whatever order and however the arrivals fall between the calls. */
  lemma {:induction false} ThrowsOncePerMessage<C>(k: nat, s: Channel<C>, coming: seq<Msg>, order: seq<C>,
                                                   upto: seq<nat>)
    requires Bijection(s) && s.Closed() && WellAddressed(coming) && Serves(s, coming, order)
    requires |upto| == |order| && AllInTime(k, s, coming, order, upto)
    ensures Thrown(ReceiveEach(k, s, coming, order, upto).2) == Throwing(Effects(k, s, coming))
  {
    EnoughAtFirst(k, s, coming, order);
    EnoughReceives(k, s, coming, order, upto, ThrowingIds(k, s, coming));
    ThrownCounted(k, s, coming, order, upto);
  }

  /** All of this holds in particular when every reply has arrived before the first receive. */
  lemma {:induction false} OnceArrived<C>(k: nat, s: Channel<C>, inbox: seq<Msg>, order: seq<C>)
    requires Bijection(s) && s.Closed() && WellAddressed(inbox) && Serves(s, inbox, order)
    ensures var (t, _, returns_) := ReceiveEach(k, s, inbox, order, AllArrived(inbox, order));
            && t == DeliverAll(k, s, inbox)
            && FinalOrThrew(returns_, order, t)
            && Thrown(returns_) == Throwing(Effects(k, s, inbox))
  {
    var upto := AllArrived(inbox, order);
    AllArrivedInTime(k, s, inbox, order, upto);
    ReceivesInAnyOrder(k, s, inbox, order, upto);
    ReturnsAreFinal(k, s, inbox, order, upto);
    ThrowsOncePerMessage(k, s, inbox, order, upto);
  }

  // ---- Error replies ----

  /** Reading this reply to a pending request makes a receive throw: it carries an error, and the text is
      looked for behind the last frame. */
  predicate Throws(k: nat, m: Msg) {
    |m| == 4 && Atoi(m[2]) != 0 && k >= 4
  }

  function ErrorReplies(k: nat, inbox: seq<Msg>): nat {
    if inbox == [] then 0 else ErrorReplies(k, inbox[1..]) + if Throws(k, inbox[0]) then 1 else 0
  }

  lemma {:induction false} SomeErrorReply(k: nat, inbox: seq<Msg>)
    ensures ErrorReplies(k, inbox) > 0 <==> exists i :: 0 <= i < |inbox| && Throws(k, inbox[i])
  {
    if inbox != [] {
      SomeErrorReply(k, inbox[1..]);
      assert inbox == [inbox[0]] + inbox[1..];
    }
  }

  /** Every message is a well-formed reply to a pending request, no two to the same one. */
  ghost predicate Replied<C>(s: Channel<C>, inbox: seq<Msg>) {
    && DistinctIds(inbox)
    && forall i | 0 <= i < |inbox| :: IdOf(inbox[i]).Some? && IdOf(inbox[i]).value in s.pending
  }

  lemma {:induction false} ReplyEffect<C>(k: nat, s: Channel<C>, m: Msg)
    requires Bijection(s) && IdOf(m).Some? && IdOf(m).value in s.pending
    ensures Classify(k, s, m).Throw? <==> Throws(k, m)
    ensures !Throws(k, m) ==> Classify(k, s, m).Complete? && Classify(k, s, m).id == IdOf(m).value
  {
  }

  lemma {:induction false} ErrorRepliesThrowing<C>(k: nat, s: Channel<C>, inbox: seq<Msg>)
    requires Bijection(s) && forall i | 0 <= i < |inbox| :: IdOf(inbox[i]).Some? && IdOf(inbox[i]).value in s.pending
    ensures Throwing(Effects(k, s, inbox)) == ErrorReplies(k, inbox)
  {
    var es := Effects(k, s, inbox);
    forall i | 0 <= i < |inbox| ensures es[i].Throw? <==> Throws(k, inbox[i]) {
      ReplyEffect(k, s, inbox[i]);
    }
    ThrowingForErrors(k, es, inbox);
  }

  lemma {:induction false} ThrowingForErrors(k: nat, es: seq<Effect>, inbox: seq<Msg>)
    requires |es| == |inbox| && forall i | 0 <= i < |inbox| :: es[i].Throw? <==> Throws(k, inbox[i])
    ensures Throwing(es) == ErrorReplies(k, inbox)
  {
    if inbox != [] {
      ThrowingForErrors(k, es[1..], inbox[1..]);
    }
  }

  /** Exactly as many calls throw as replies carry an error whose text is looked for behind the last frame;
      in particular some call throws exactly when there is such a reply. */
  lemma {:induction false} ThrowsIffErrorReply<C>(k: nat, s: Channel<C>, coming: seq<Msg>, order: seq<C>,
                                                  upto: seq<nat>)
    requires Bijection(s) && s.Closed() && Replied(s, coming) && Serves(s, coming, order)
    requires |upto| == |order| && AllInTime(k, s, coming, order, upto)
    ensures Thrown(ReceiveEach(k, s, coming, order, upto).2) == ErrorReplies(k, coming)
    ensures SomeThrow(ReceiveEach(k, s, coming, order, upto).2)
       <==> exists i :: 0 <= i < |coming| && Throws(k, coming[i])
  {
    ThrowsOncePerMessage(k, s, coming, order, upto);
    ErrorRepliesThrowing(k, s, coming);
    SomeErrorReply(k, coming);
    SomeThrown(ReceiveEach(k, s, coming, order, upto).2);
  }

  lemma {:induction false} FirstWaiting<C>(k: nat, s: Channel<C>, inbox: seq<Msg>, order: seq<C>, upto: seq<nat>)
    requires s.Closed() && WellAddressed(inbox) && order != [] && |upto| == |order| && |inbox| <= upto[0]
    requires forall i | 0 <= i < |order| :: order[i] in s.controllers
    requires s.controllers[order[0]].rcode == Working && Throwing(Effects(k, s, inbox)) > 0
    ensures ReceiveEach(k, s, inbox, order, upto).2[0] == Threw
  {
    DrainStops(k, s, inbox, upto[0]);
  }

  lemma {:induction false} SomebodyThrows<C>(k: nat, s: Channel<C>, inbox: seq<Msg>, order: seq<C>, upto: seq<nat>,
                                             waiting: nat)
    requires s.Closed() && WellAddressed(inbox) && waiting < |order| == |upto|
    requires forall i | 0 <= i < |upto| :: |inbox| <= upto[i]
    requires forall i | 0 <= i < |order| :: order[i] in s.controllers
    requires s.controllers[order[waiting]].rcode == Working && Throwing(Effects(k, s, inbox)) > 0
    ensures SomeThrow(ReceiveEach(k, s, inbox, order, upto).2)
    decreases waiting
  {
    if s.controllers[order[0]].rcode == Working {
      FirstWaiting(k, s, inbox, order, upto);
    } else {
      SomebodyThrows(k, s, inbox, order[1..], upto[1..], waiting - 1);
      SomeThrowFirst(Parsed(s.controllers[order[0]]), ReceiveEach(k, s, inbox, order[1..], upto[1..]).2);
    }
  }

  /** Once all replies have arrived it is enough that somebody waits: then some call throws exactly when
      there is such a reply, whomever the calls are for. */
  lemma {:induction false} ThrowsIffErrorArrived<C>(k: nat, s: Channel<C>, inbox: seq<Msg>, order: seq<C>)
    requires Bijection(s) && s.Closed() && Replied(s, inbox)
    requires forall i | 0 <= i < |order| :: order[i] in s.controllers
    requires exists i :: 0 <= i < |order| && s.controllers[order[i]].rcode == Working
    ensures SomeThrow(ReceiveEach(k, s, inbox, order, AllArrived(inbox, order)).2)
       <==> exists i :: 0 <= i < |inbox| && Throws(k, inbox[i])
  {
    var upto := AllArrived(inbox, order);
    ErrorRepliesThrowing(k, s, inbox);
    SomeErrorReply(k, inbox);
    if ErrorReplies(k, inbox) > 0 {
      var waiting :| 0 <= waiting < |order| && s.controllers[order[waiting]].rcode == Working;
      SomebodyThrows(k, s, inbox, order, upto, waiting);
    } else {
      ThrownCounted(k, s, inbox, order, upto);
      SomeThrown(ReceiveEach(k, s, inbox, order, upto).2);
    }
  }

  /** The order shows in what the calls return once a reply carries an error.  Request 1 is answered with
      an error, request 2 well.  Receiving for 1 and then for 2 gives 2 its payload; receiving for 2 first
      throws on the reply to the other, and nobody is given the payload, although the channel is left the
      same. */
  lemma {:induction false} OrderShowsInReturns()
    ensures
      var waiting := FRESH_CONTROLLER.(rcode := Working);
      var s := Channel(2, map[1 := 1, 2 := 2], map[1 := waiting, 2 := waiting]);
      var inbox := [["", "1", "3", ""], ["", "2", "0", "x"]];
      && s.Closed() && 1 in s.controllers && 2 in s.controllers
      && ReceiveEach(TEXT_INDEX_READ, s, inbox, [1, 2], [2, 2]).2 == [Threw, Returned(Some("x"))]
      && ReceiveEach(TEXT_INDEX_READ, s, inbox, [2, 1], [2, 2]).2 == [Threw, Returned(None)]
      && ReceiveEach(TEXT_INDEX_READ, s, inbox, [1, 2], [2, 2]).0
         == ReceiveEach(TEXT_INDEX_READ, s, inbox, [2, 1], [2, 2]).0
  {
    var waiting := FRESH_CONTROLLER.(rcode := Working);
    var s := Channel(2, map[1 := 1, 2 := 2], map[1 := waiting, 2 := waiting]);
    var bad, good := ["", "1", "3", ""], ["", "2", "0", "x"];
    BadThenGood(s, bad, good, 1, 2);
    BadThenGood(s, bad, good, 2, 1);
    GoodForSecond(s, bad, good);
  }

  lemma {:induction false} GoodForSecond(s: Channel<int>, bad: Msg, good: Msg)
    requires s.Closed() && 1 in s.pending && 2 in s.pending && s.pending[2] == 2 && s.next == 2
    requires 1 in s.controllers && s.controllers[1].rcode == Working
    requires bad == ["", "1", "3", ""] && good == ["", "2", "0", "x"]
    ensures var t := Deliver(TEXT_INDEX_READ, s, good);
            && 1 in t.controllers && Parsed(t.controllers[1]) == Returned(None)
            && 2 in t.controllers && Parsed(t.controllers[2]) == Returned(Some("x"))
  {
    BadAndGood(s, bad, good);
    assert s.pending[2] in s.pending.Values;
  }

  lemma {:induction false} BadThenGood(s: Channel<int>, bad: Msg, good: Msg, first: int, second: int)
    requires s.Closed() && first in s.controllers && second in s.controllers && 1 in s.pending && 2 in s.pending
    requires s.controllers[first].rcode == Working && s.controllers[second].rcode == Working && s.next == 2
    requires bad == ["", "1", "3", ""] && good == ["", "2", "0", "x"]
    ensures var t := Deliver(TEXT_INDEX_READ, s, good);
            ReceiveEach(TEXT_INDEX_READ, s, [bad, good], [first, second], [2, 2])
            == (t, [], [Threw, Parsed(t.controllers[second])])
  {
    BadAndGood(s, bad, good);
    var t := Deliver(TEXT_INDEX_READ, s, good);
    assert Drain(TEXT_INDEX_READ, s, [bad, good], 2) == (s, [good], true);
    assert Drain(TEXT_INDEX_READ, s, [good], 2) == Drain(TEXT_INDEX_READ, t, [], 1) == (t, [], false);
    var last := Parsed(t.controllers[second]);
    assert Receive(TEXT_INDEX_READ, s, [good], second, 2) == (t, [], last);
    assert ReceiveEach(TEXT_INDEX_READ, s, [good], [second], [2]) == (t, [], [last]) by {
      assert [second][1..] == [] && ReceiveEach(TEXT_INDEX_READ, t, [], [], []) == (t, [], []);
      assert [last] + [] == [last];
    }
    assert [first, second][1..] == [second] && [2, 2][1..] == [2] && [Threw] + [last] == [Threw, last];
  }

  lemma {:induction false} BadAndGood(s: Channel<int>, bad: Msg, good: Msg)
    requires s.next == 2 && 1 in s.pending && 2 in s.pending && bad == ["", "1", "3", ""] && good == ["", "2", "0", "x"]
    ensures Classify(TEXT_INDEX_READ, s, bad).Throw?
    ensures Classify(TEXT_INDEX_READ, s, good) == Complete(2, Value("x"))
  {
    assert ToDecimal(1) == "1" && ToDecimal(2) == "2" && IntToDecimal(3) == "3" && IntToDecimal(0) == "0";
    IdRoundTrip(1);
    IdRoundTrip(2);
    CodeRoundTrip(3);
    CodeRoundTrip(0);
  }

  // ---- Which requests complete ----

  /** The receives include one for every waiting controller. */
  ghost predicate Covers<C>(s: Channel<C>, order: seq<C>) {
    && (forall i | 0 <= i < |order| :: order[i] in s.controllers)
    && (forall c | c in s.controllers && s.controllers[c].rcode == Working :: c in order)
  }

  ghost predicate Answered<C>(s: Channel<C>, inbox: seq<Msg>) {
    forall id | id in s.pending :: exists i :: 0 <= i < |inbox| && IdOf(inbox[i]) == Some(id)
  }

  /** One well-formed reply for every pending request, and nothing else. */
  ghost predicate OneReplyEach<C>(s: Channel<C>, inbox: seq<Msg>) {
    Replied(s, inbox) && Answered(s, inbox)
  }

  lemma {:induction false} EmptiesTable<C>(k: nat, s: Channel<C>, inbox: seq<Msg>)
    requires Bijection(s) && s.Closed() && OneReplyEach(s, inbox)
    ensures DeliverAll(k, s, inbox).pending == map[] <==> forall i | 0 <= i < |inbox| :: !Throws(k, inbox[i])
  {
    var es := Effects(k, s, inbox);
    PendingAfter(k, s, inbox);
    if i :| 0 <= i < |inbox| && Throws(k, inbox[i]) {
      ReplyEffect(k, s, inbox[i]);
      NotCompleted(k, s, inbox, i);
      assert IdOf(inbox[i]).value in DeliverAll(k, s, inbox).pending;
    } else {
      CompletedBy(es);
      forall id | id in s.pending ensures id in Completed(es) {
        var i :| 0 <= i < |inbox| && IdOf(inbox[i]) == Some(id);
        ReplyEffect(k, s, inbox[i]);
        assert es[i].Complete? && es[i].id == id;
      }
    }
  }

  lemma {:induction false} CoversServes<C>(s: Channel<C>, inbox: seq<Msg>, order: seq<C>)
    requires Bijection(s) && Covers(s, order)
    ensures Serves(s, inbox, order)
  {
  }

  /** As the code stands, which reads the error text out of range, N receives in some or any order
      complete every request exactly when no handler answered with an error. */
  lemma {:induction false} CompletesUnlessError<C>(s: Channel<C>, coming: seq<Msg>, order: seq<C>, upto: seq<nat>)
    requires Bijection(s) && s.Closed() && Covers(s, order) && OneReplyEach(s, coming)
    requires |upto| == |order| && AllInTime(TEXT_INDEX_READ, s, coming, order, upto)
    ensures ReceiveEach(TEXT_INDEX_READ, s, coming, order, upto).0.pending == map[]
            <==> forall i | 0 <= i < |coming| :: Atoi(coming[i][2]) == 0
  {
    CoversServes(s, coming, order);
    ReceivesInAnyOrder(TEXT_INDEX_READ, s, coming, order, upto);
    EmptiesTable(TEXT_INDEX_READ, s, coming);
    assert forall i | 0 <= i < |coming| :: Throws(TEXT_INDEX_READ, coming[i]) <==> Atoi(coming[i][2]) != 0;
  }

  /** With the text read where the worker puts it, every order completes every request. */
  lemma {:induction false} CompletesWithTextIndexSent<C>(s: Channel<C>, coming: seq<Msg>, order: seq<C>,
                                                         upto: seq<nat>)
    requires Bijection(s) && s.Closed() && Covers(s, order) && OneReplyEach(s, coming)
    requires |upto| == |order| && AllInTime(TEXT_INDEX_SENT, s, coming, order, upto)
    ensures ReceiveEach(TEXT_INDEX_SENT, s, coming, order, upto).0 == DeliverAll(TEXT_INDEX_SENT, s, coming)
    ensures DeliverAll(TEXT_INDEX_SENT, s, coming).pending == map[]
  {
    CoversServes(s, coming, order);
    ReceivesInAnyOrder(TEXT_INDEX_SENT, s, coming, order, upto);
    EmptiesTable(TEXT_INDEX_SENT, s, coming);
  }

  // ---- Inboxes where requests are named more than once ----

  ghost predicate OnlyErrorsFor(inbox: seq<Msg>, id: nat) {
    forall i | 0 <= i < |inbox| && IdOf(inbox[i]) == Some(id) :: Atoi(inbox[i][2]) != 0
  }

  lemma {:induction false} ErrorStaysPending<C>(s: Channel<C>, coming: seq<Msg>, n: nat, id: nat)
    requires s.Closed() && id in s.pending && OnlyErrorsFor(coming, id)
    ensures var (t, rest, _) := Drain(TEXT_INDEX_READ, s, coming, n);
            id in t.pending && OnlyErrorsFor(rest, id)
    decreases n
  {
    if n > 0 && coming != [] && !Classify(TEXT_INDEX_READ, s, coming[0]).Throw? {
      ErrorStaysPending(Deliver(TEXT_INDEX_READ, s, coming[0]), coming[1..], n - 1, id);
    }
  }

  lemma {:induction false} ErrorNeverCompletes<C>(s: Channel<C>, coming: seq<Msg>, order: seq<C>, upto: seq<nat>,
                                                  id: nat)
    requires s.Closed() && |upto| == |order| && forall i | 0 <= i < |order| :: order[i] in s.controllers
    requires id in s.pending && OnlyErrorsFor(coming, id)
    ensures id in ReceiveEach(TEXT_INDEX_READ, s, coming, order, upto).0.pending
    decreases |order|
  {
    if order != [] {
      var (t, rest, _) := Receive(TEXT_INDEX_READ, s, coming, order[0], upto[0]);
      ErrorStaysPending(s, coming, upto[0], id);
      ErrorNeverCompletes(t, rest, order[1..], upto[1..], id);
    }
  }

  /** No receive that reads this message will throw. */
  predicate Harmless(k: nat, m: Msg) {
    |m| == 4 ==> ParseSizeT(m[1]).Some? && (Atoi(m[2]) == 0 || k < 4)
  }

  lemma {:induction false} HarmlessDrain<C>(k: nat, s: Channel<C>, coming: seq<Msg>, n: nat)
    requires s.Closed() && forall i | 0 <= i < |coming| :: Harmless(k, coming[i])
    ensures var (t, rest, thrown) := Drain(k, s, coming, n);
            && !thrown && (forall i | 0 <= i < |rest| :: Harmless(k, rest[i]))
            && forall c | c in s.controllers && t.controllers[c].rcode == Working :: s.controllers[c].rcode == Working
    decreases n
  {
    if n > 0 && coming != [] {
      HarmlessDrain(k, Deliver(k, s, coming[0]), coming[1..], n - 1);
    }
  }

  /** While nothing throws, each call ends with its controller done or with everything read. */
  lemma {:induction false} AllDoneOrRead<C>(k: nat, s: Channel<C>, coming: seq<Msg>, order: seq<C>, upto: seq<nat>)
    requires s.Closed() && forall i | 0 <= i < |coming| :: Harmless(k, coming[i])
    requires |upto| == |order| && (forall i | 0 <= i < |order| :: order[i] in s.controllers)
    requires AllInTime(k, s, coming, order, upto)
    ensures var (t, rest, _) := ReceiveEach(k, s, coming, order, upto);
            && (rest == [] || forall i | 0 <= i < |order| :: t.controllers[order[i]].rcode != Working)
            && (coming == [] ==> rest == [])
            && forall c | c in s.controllers && t.controllers[c].rcode == Working :: s.controllers[c].rcode == Working
    decreases |order|
  {
    if order != [] {
      var (t, rest, _) := Receive(k, s, coming, order[0], upto[0]);
      HarmlessDrain(k, s, coming, upto[0]);
      AllDoneOrRead(k, t, rest, order[1..], upto[1..]);
    }
  }

  lemma {:induction false} NoneWorking<C>(s: Channel<C>)
    requires Bijection(s)
    ensures s.pending == map[] <==> forall c | c in s.controllers :: s.controllers[c].rcode != Working
  {
    if s.pending != map[] {
      var id :| id in s.pending;
      assert s.controllers[s.pending[id]].rcode == Working;
    }
  }

  lemma {:induction false} GoneOnceAnswered<C>(k: nat, s: Channel<C>, msgs: seq<Msg>, i: nat)
    requires s.Closed() && i < |msgs| && IdOf(msgs[i]).Some? && IdOf(msgs[i]).value <= s.next
    requires Harmless(k, msgs[i])
    ensures IdOf(msgs[i]).value !in DeliverAll(k, s, msgs).pending
  {
    var n := |msgs| - 1;
    if i < n {
      GoneOnceAnswered(k, s, msgs[..n], i);
    } else {
      GoneWhenDelivered(k, DeliverAll(k, s, msgs[..n]), msgs[n]);
    }
  }

  lemma GoneWhenDelivered<C>(k: nat, s: Channel<C>, m: Msg)
    requires s.Closed() && IdOf(m).Some? && IdOf(m).value <= s.next && Harmless(k, m)
    ensures IdOf(m).value !in Deliver(k, s, m).pending
  {
  }

  lemma {:induction false} PendingIds<C>(k: nat, s: Channel<C>, msgs: seq<Msg>)
    requires s.Closed()
    ensures DeliverAll(k, s, msgs).pending.Keys <= s.pending.Keys
  {
    if msgs != [] {
      PendingIds(k, s, msgs[..|msgs| - 1]);
    }
  }

  lemma {:induction false} AllAnswered<C>(k: nat, s: Channel<C>, inbox: seq<Msg>)
    requires Bijection(s) && s.Closed() && Answered(s, inbox)
    requires forall i | 0 <= i < |inbox| :: Harmless(k, inbox[i])
    ensures DeliverAll(k, s, inbox).pending == map[]
  {
    PendingIds(k, s, inbox);
    forall id | id in DeliverAll(k, s, inbox).pending ensures false {
      var i :| 0 <= i < |inbox| && IdOf(inbox[i]) == Some(id);
      GoneOnceAnswered(k, s, inbox, i);
    }
  }

  /** Even where requests are named more than once or never were made: if no message makes a receive
      throw, receives in any order leave what filing every message leaves, and complete every request
      that is answered. */
  lemma {:induction false} ReceivesWithoutError<C>(k: nat, s: Channel<C>, coming: seq<Msg>, order: seq<C>,
                                                   upto: seq<nat>)
    requires Bijection(s) && s.Closed() && Covers(s, order) && forall i | 0 <= i < |coming| :: Harmless(k, coming[i])
    requires |upto| == |order| && AllInTime(k, s, coming, order, upto)
    ensures ReceiveEach(k, s, coming, order, upto).0 == DeliverAll(k, s, coming)
    ensures Answered(s, coming) ==> DeliverAll(k, s, coming).pending == map[]
  {
    var (t, rest, _) := ReceiveEach(k, s, coming, order, upto);
    ReceivesPutOff(k, s, coming, order, upto);
    AllDoneOrRead(k, s, coming, order, upto);
    if rest != [] {
      forall c | c in t.controllers ensures t.controllers[c].rcode != Working {
        assert s.controllers[c].rcode == Working ==> c in order;
      }
      NoneWorking(t);
      CompletedPending(k, t, rest);
      NothingCompleted(k, t, rest);
    }
    if Answered(s, coming) {
      AllAnswered(k, s, coming);
    }
  }
}
