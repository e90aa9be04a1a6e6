/** N sends and then N receives, in any order and however the replies arrive between them, against N calls
one after the other: the same channel, and the same returns. */
module Pipelining {
  import opened Basics
  import opened LexicalCast
  import opened Framing
  import opened ChannelState
  import opened Confluence
  import opened ReceiveOrder

  // ---- The replies that have arrived ----

  lemma {:induction false} SameMessages(a: seq<Msg>, b: seq<Msg>)
    requires multiset(a) == multiset(b)
    ensures |a| == |b| && forall m | m in b :: m in a
  {
    assert |multiset(a)| == |multiset(b)|;
    assert forall m | m in b :: m in multiset(b);
  }

  lemma {:induction false} StillDistinct(a: seq<Msg>, b: seq<Msg>)
    requires DistinctIds(a) && multiset(a) == multiset(b)
    ensures DistinctIds(b)
    decreases |a|
  {
    SameMessages(a, b);
    if a != [] {
      var i := Locate(a, b);
      StillDistinct(a[1..], b[..i] + b[i + 1..]);
      NotAgain(a, b[..i] + b[i + 1..]);
      DistinctWith(b, i);
    }
  }

  lemma {:induction false} DistinctWith(b: seq<Msg>, i: nat)
    requires i < |b|
    requires var rest := b[..i] + b[i + 1..];
             DistinctIds(rest) && forall y | 0 <= y < |rest| :: IdOf(b[i]).None? || IdOf(rest[y]) != IdOf(b[i])
    ensures DistinctIds(b)
  {
    var rest := b[..i] + b[i + 1..];
    forall x, y | 0 <= x < y < |b| && IdOf(b[x]).Some? ensures IdOf(b[x]) != IdOf(b[y]) {
      assert x < i ==> b[x] == rest[x];
      assert x > i ==> b[x] == rest[x - 1];
      assert y < i ==> b[y] == rest[y];
      assert y > i ==> b[y] == rest[y - 1];
    }
  }

  lemma {:induction false} ArrivedWellAddressed<C>(s: Channel<C>, cs: seq<C>, replies: seq<Msg>, arrived: seq<Msg>)
    requires RepliesTo(s, cs, replies) && multiset(arrived) == multiset(replies)
    ensures WellAddressed(arrived)
  {
    assert DistinctIds(replies);
    StillDistinct(replies, arrived);
    forall i | 0 <= i < |arrived| ensures IdOf(arrived[i]).Some? {
      var j := WhoseReply(s, cs, replies, arrived, i);
    }
  }

  /** Each message that has arrived is the reply to one of the requests. */
  lemma {:induction false} WhoseReply<C>(s: Channel<C>, cs: seq<C>, replies: seq<Msg>, arrived: seq<Msg>, i: nat)
      returns (j: nat)
    requires RepliesTo(s, cs, replies) && multiset(arrived) == multiset(replies) && i < |arrived|
    ensures j < |cs| && arrived[i] == replies[j] && IsFor(arrived[i], s.next + 1 + j)
  {
    SameMessages(replies, arrived);
    assert arrived[i] in arrived;
    j :| 0 <= j < |replies| && replies[j] == arrived[i];
  }

  // ---- The requests that have been sent ----

  /** Every controller is known, and there are ids for all. */
  ghost predicate InReach<C>(s: Channel<C>, cs: seq<C>) {
    (forall i | 0 <= i < |cs| :: cs[i] in s.controllers) && s.next + |cs| < TWO_TO_THE_64
  }

  lemma InReachFewer<C>(s: Channel<C>, cs: seq<C>)
    requires InReach(s, cs) && cs != []
    ensures InReach(s, cs[..|cs| - 1]) && cs[|cs| - 1] in s.controllers
  {
  }

  lemma {:induction false} SentPending<C>(s: Channel<C>, cs: seq<C>, i: nat)
    requires InReach(s, cs) && i < |cs|
    ensures s.next + 1 + i in SendAll(s, cs).pending && SendAll(s, cs).pending[s.next + 1 + i] == cs[i]
  {
    var n := |cs| - 1;
    InReachFewer(s, cs);
    SendAllTouches(s, cs[..n]);
    SentLast(SendAll(s, cs[..n]), cs[n], SendAll(s, cs), s.next + |cs|);
    if i < n {
      SentPending(s, cs[..n], i);
    }
  }

  lemma SentLast<C>(s: Channel<C>, c: C, sent: Channel<C>, id: nat)
    requires c in s.controllers && sent == SendStep(s, c, Sent) && id == s.next + 1 <= MAX_SIZET
    ensures sent.next == id && id in sent.pending && sent.pending[id] == c
    ensures forall x | x in s.pending && x != id :: x in sent.pending && sent.pending[x] == s.pending[x]
  {
  }

  lemma CanSendFewer<C>(s: Channel<C>, cs: seq<C>)
    requires CanSendAll(s, cs) && cs != []
    ensures CanSendAll(s, cs[..|cs| - 1])
    ensures forall i | 0 <= i < |cs| - 1 :: cs[i] != cs[|cs| - 1]
  {
  }

  /** What is pending for a message that has arrived. */
  lemma {:induction false} ArrivedPending<C>(s: Channel<C>, cs: seq<C>, replies: seq<Msg>, arrived: seq<Msg>, i: nat)
    requires CanSendAll(s, cs) && RepliesTo(s, cs, replies) && multiset(arrived) == multiset(replies) && i < |arrived|
    ensures IdOf(arrived[i]).Some?
    ensures var id := IdOf(arrived[i]).value; id in SendAll(s, cs).pending && SendAll(s, cs).pending[id] in cs
  {
    var j := WhoseReply(s, cs, replies, arrived, i);
    SentPending(s, cs, j);
  }

  lemma {:induction false} ReceivedFor<C>(s: Channel<C>, cs: seq<C>, replies: seq<Msg>, arrived: seq<Msg>,
                                          order: seq<C>)
    requires CanSendAll(s, cs) && RepliesTo(s, cs, replies) && multiset(arrived) == multiset(replies)
    requires (forall i | 0 <= i < |order| :: order[i] in s.controllers) && forall c | c in cs :: c in order
    ensures Serves(SendAll(s, cs), arrived, order)
  {
    forall i | 0 <= i < |arrived| && IdOf(arrived[i]).Some? && IdOf(arrived[i]).value in SendAll(s, cs).pending
      ensures SendAll(s, cs).pending[IdOf(arrived[i]).value] in order
    {
      ArrivedPending(s, cs, replies, arrived, i);
    }
  }

  /** Receives in any order, none cut short by its deadline, that get to read so many of the replies each. */
  ghost predicate Receives<C>(k: nat, s: Channel<C>, coming: seq<Msg>, order: seq<C>, upto: seq<nat>)
    requires s.Closed()
  {
    && |upto| == |order| && (forall i | 0 <= i < |order| :: order[i] in s.controllers)
    && AllInTime(k, s, coming, order, upto)
  }

  /** Pipelining.  Sending N requests and then receiving for each of them, in any order, however the replies
      arrive between the receives and whichever carry errors, leaves everything (but reqno_) as N calls one
      after the other leave it. */
  lemma {:induction false} SendsThenReceives<C>(k: nat, s: Channel<C>, cs: seq<C>, replies: seq<Msg>, arrived: seq<Msg>,
                                                order: seq<C>, upto: seq<nat>)
    requires Bijection(s) && s.Closed() && CanSendAll(s, cs)
    requires RepliesTo(s, cs, replies) && multiset(arrived) == multiset(replies)
    requires Receives(k, SendAll(s, cs), arrived, order, upto) && forall c | c in cs :: c in order
    ensures Erase(ReceiveEach(k, SendAll(s, cs), arrived, order, upto).0) == Erase(CallEach(k, s, cs, replies))
  {
    AfterSendAll(s, cs);
    ArrivedWellAddressed(s, cs, replies, arrived);
    ReceivedFor(s, cs, replies, arrived, order);
    ReceivesInAnyOrder(k, SendAll(s, cs), arrived, order, upto);
    PipelinedIsSynchronous(k, s, cs, replies, arrived);
  }

  // ---- What the calls return ----

  /** What N calls one after the other return. */
  function CallReturns<C>(k: nat, s: Channel<C>, cs: seq<C>, replies: seq<Msg>): (r: seq<Return>)
    requires |replies| == |cs| && s.Closed() && forall i | 0 <= i < |cs| :: cs[i] in s.controllers
    ensures |r| == |cs|
    decreases |cs|
  {
    if cs == [] then []
    else
      var n := |cs| - 1;
      var sent := SendStep(CallEach(k, s, cs[..n], replies[..n]), cs[n], Sent);
      CallReturns(k, s, cs[..n], replies[..n]) + [Receive(k, sent, [replies[n]], cs[n], 1).2]
  }

  /** A call is a send and a receive. */
  lemma {:induction false} OneCall<C>(k: nat, s: Channel<C>, c: C, m: Msg)
    requires s.Closed() && c in s.controllers && s.next < MAX_SIZET && IsFor(m, s.next + 1)
    ensures var sent := SendStep(s, c, Sent);
            var (t, _, return_) := Receive(k, sent, [m], c, 1);
            && t == Deliver(k, sent, m)
            && return_ == (if Throws(k, m) then Threw else Parsed(t.controllers[c]))
            && forall x | x in s.controllers && x != c :: t.controllers[x] == s.controllers[x]
  {
    var sent := SendStep(s, c, Sent);
    assert sent.pending[s.next + 1] == c;
    assert Classify(k, sent, m).Throw? <==> Throws(k, m);
    assert [m][1..] == [];
    assert Drain(k, Deliver(k, sent, m), [], 0) == (Deliver(k, sent, m), [], false);
  }

  lemma {:induction false} CallCounts<C>(k: nat, s: Channel<C>, cs: seq<C>, replies: seq<Msg>)
    requires |replies| == |cs| && s.Closed() && InReach(s, cs)
    ensures CallEach(k, s, cs, replies).next == s.next + |cs|
  {
    if cs != [] {
      var n := |cs| - 1;
      InReachFewer(s, cs);
      CallCounts(k, s, cs[..n], replies[..n]);
      CallEachLast(k, s, cs, replies);
      var before := CallEach(k, s, cs[..n], replies[..n]);
      SentLast(before, cs[n], SendStep(before, cs[n], Sent), s.next + |cs|);
    }
  }

  lemma {:induction false} LastCallReturns<C>(k: nat, s: Channel<C>, cs: seq<C>, replies: seq<Msg>)
    requires s.Closed() && CanSendAll(s, cs) && RepliesTo(s, cs, replies) && cs != []
    ensures var n := |cs| - 1;
            CallReturns(k, s, cs, replies)[n]
            == if Throws(k, replies[n]) then Threw else Parsed(CallEach(k, s, cs, replies).controllers[cs[n]])
  {
    var n := |cs| - 1;
    CallCounts(k, s, cs[..n], replies[..n]);
    OneCall(k, CallEach(k, s, cs[..n], replies[..n]), cs[n], replies[n]);
    CallEachLast(k, s, cs, replies);
  }

  lemma {:induction false} EarlierReturn<C>(k: nat, s: Channel<C>, cs: seq<C>, replies: seq<Msg>, i: nat)
    requires |replies| == |cs| && s.Closed() && (forall x | 0 <= x < |cs| :: cs[x] in s.controllers) && i < |cs| - 1
    ensures CallReturns(k, s, cs, replies)[i] == CallReturns(k, s, cs[..|cs| - 1], replies[..|cs| - 1])[i]
  {
  }

  /** The last call changes nothing for the earlier ones. */
  lemma {:induction false} EarlierController<C>(k: nat, s: Channel<C>, cs: seq<C>, replies: seq<Msg>, c: C)
    requires s.Closed() && CanSendAll(s, cs) && RepliesTo(s, cs, replies) && cs != []
    requires c in s.controllers && c != cs[|cs| - 1]
    ensures CallEach(k, s, cs, replies).controllers[c]
         == CallEach(k, s, cs[..|cs| - 1], replies[..|cs| - 1]).controllers[c]
  {
    var n := |cs| - 1;
    CallCounts(k, s, cs[..n], replies[..n]);
    OneCall(k, CallEach(k, s, cs[..n], replies[..n]), cs[n], replies[n]);
    CallEachLast(k, s, cs, replies);
  }

  /** Each call throws if its own reply makes it, and else returns what its controller holds at the end. */
  lemma {:induction false} CallReturnsOwn<C>(k: nat, s: Channel<C>, cs: seq<C>, replies: seq<Msg>, i: nat)
    requires s.Closed() && CanSendAll(s, cs) && RepliesTo(s, cs, replies) && i < |cs|
    ensures CallReturns(k, s, cs, replies)[i]
         == if Throws(k, replies[i]) then Threw else Parsed(CallEach(k, s, cs, replies).controllers[cs[i]])
  {
    var n := |cs| - 1;
    if i == n {
      LastCallReturns(k, s, cs, replies);
    } else {
      CanSendFewer(s, cs);
      AvoidNext(s, cs, replies);
      CallReturnsOwn(k, s, cs[..n], replies[..n], i);
      assert cs[..n][i] == cs[i] && replies[..n][i] == replies[i];
      EarlierOwn(k, s, cs, replies, i);
    }
  }

  lemma {:induction false} EarlierOwn<C>(k: nat, s: Channel<C>, cs: seq<C>, replies: seq<Msg>, i: nat)
    requires s.Closed() && CanSendAll(s, cs) && RepliesTo(s, cs, replies) && i < |cs| - 1
    requires var n := |cs| - 1;
             CallReturns(k, s, cs[..n], replies[..n])[i]
             == if Throws(k, replies[i]) then Threw
                else Parsed(CallEach(k, s, cs[..n], replies[..n]).controllers[cs[i]])
    ensures CallReturns(k, s, cs, replies)[i]
         == if Throws(k, replies[i]) then Threw else Parsed(CallEach(k, s, cs, replies).controllers[cs[i]])
  {
    EarlierReturn(k, s, cs, replies, i);
    EarlierController(k, s, cs, replies, cs[i]);
  }

  lemma {:induction false} EraseParsed<C>(s: Channel<C>, t: Channel<C>, c: C)
    requires Erase(s) == Erase(t) && c in s.controllers
    ensures c in t.controllers && Parsed(s.controllers[c]) == Parsed(t.controllers[c])
  {
    assert c in Erase(s).controllers && c in Erase(t).controllers;
    assert Erase(s).controllers[c] == Erase(t).controllers[c];
  }

  /** The j-th receive throws, or returns what the call for its controller returns if that does not throw. */
  lemma {:induction false} ReturnsLikeCalls<C>(k: nat, s: Channel<C>, cs: seq<C>, replies: seq<Msg>, arrived: seq<Msg>,
                                               order: seq<C>, upto: seq<nat>, i: nat, j: nat)
    requires Bijection(s) && s.Closed() && CanSendAll(s, cs)
    requires RepliesTo(s, cs, replies) && multiset(arrived) == multiset(replies)
    requires Receives(k, SendAll(s, cs), arrived, order, upto)
    requires i < |cs| && j < |order| && order[j] == cs[i]
    ensures var received := ReceiveEach(k, SendAll(s, cs), arrived, order, upto).2[j];
            received == Threw || Throws(k, replies[i]) || received == CallReturns(k, s, cs, replies)[i]
  {
    AfterSendAll(s, cs);
    ReturnsAreFinal(k, SendAll(s, cs), arrived, order, upto);
    PipelinedIsSynchronous(k, s, cs, replies, arrived);
    EraseParsed(DeliverAll(k, SendAll(s, cs), arrived), CallEach(k, s, cs, replies), cs[i]);
    CallReturnsOwn(k, s, cs, replies, i);
  }

  /** As many receives throw as calls throw.  If none does, every receive, in whatever order and however the
      replies arrive, returns exactly what the call for its controller returns. */
  lemma {:induction false} SameReturns<C>(k: nat, s: Channel<C>, cs: seq<C>, replies: seq<Msg>, arrived: seq<Msg>,
                                          order: seq<C>, upto: seq<nat>)
    requires Bijection(s) && s.Closed() && CanSendAll(s, cs)
    requires RepliesTo(s, cs, replies) && multiset(arrived) == multiset(replies)
    requires Receives(k, SendAll(s, cs), arrived, order, upto) && forall c | c in cs :: c in order
    ensures Thrown(ReceiveEach(k, SendAll(s, cs), arrived, order, upto).2) == Thrown(CallReturns(k, s, cs, replies))
            == ErrorReplies(k, replies)
    ensures Thrown(CallReturns(k, s, cs, replies)) == 0 ==>
              forall i, j | 0 <= i < |cs| && 0 <= j < |order| && order[j] == cs[i] ::
                ReceiveEach(k, SendAll(s, cs), arrived, order, upto).2[j] == CallReturns(k, s, cs, replies)[i]
  {
    ThrowingReply(k, s, cs, replies, arrived, order, upto);
    ThrowingCall(k, s, cs, replies);
    if Thrown(CallReturns(k, s, cs, replies)) == 0 {
      SomeThrown(ReceiveEach(k, SendAll(s, cs), arrived, order, upto).2);
      SomeErrorReply(k, replies);
      forall i, j | 0 <= i < |cs| && 0 <= j < |order| && order[j] == cs[i]
        ensures ReceiveEach(k, SendAll(s, cs), arrived, order, upto).2[j] == CallReturns(k, s, cs, replies)[i]
      {
        ReturnsLikeCalls(k, s, cs, replies, arrived, order, upto, i, j);
      }
    }
  }

  lemma {:induction false} ThrowingCall<C>(k: nat, s: Channel<C>, cs: seq<C>, replies: seq<Msg>)
    requires s.Closed() && CanSendAll(s, cs) && RepliesTo(s, cs, replies)
    ensures Thrown(CallReturns(k, s, cs, replies)) == ErrorReplies(k, replies)
  {
    var returns_ := CallReturns(k, s, cs, replies);
    forall i | 0 <= i < |cs| ensures returns_[i] == Threw <==> Throws(k, replies[i]) {
      CallReturnsOwn(k, s, cs, replies, i);
    }
    ThrownForErrors(k, returns_, replies);
  }

  lemma {:induction false} ThrownForErrors(k: nat, returns_: seq<Return>, replies: seq<Msg>)
    requires |returns_| == |replies| && forall i | 0 <= i < |replies| :: returns_[i] == Threw <==> Throws(k, replies[i])
    ensures Thrown(returns_) == ErrorReplies(k, replies)
  {
    if replies != [] {
      ThrownForErrors(k, returns_[1..], replies[1..]);
    }
  }

  lemma {:induction false} ThrowingReply<C>(k: nat, s: Channel<C>, cs: seq<C>, replies: seq<Msg>, arrived: seq<Msg>,
                                            order: seq<C>, upto: seq<nat>)
    requires Bijection(s) && s.Closed() && CanSendAll(s, cs)
    requires RepliesTo(s, cs, replies) && multiset(arrived) == multiset(replies)
    requires Receives(k, SendAll(s, cs), arrived, order, upto) && forall c | c in cs :: c in order
    ensures Thrown(ReceiveEach(k, SendAll(s, cs), arrived, order, upto).2) == ErrorReplies(k, replies)
  {
    AfterSendAll(s, cs);
    ArrivedReplied(s, cs, replies, arrived);
    ReceivedFor(s, cs, replies, arrived, order);
    ThrowsIffErrorReply(k, SendAll(s, cs), arrived, order, upto);
    SameErrors(k, arrived, replies);
  }

  lemma {:induction false} ArrivedReplied<C>(s: Channel<C>, cs: seq<C>, replies: seq<Msg>, arrived: seq<Msg>)
    requires CanSendAll(s, cs) && RepliesTo(s, cs, replies) && multiset(arrived) == multiset(replies)
    ensures Replied(SendAll(s, cs), arrived)
  {
    ArrivedWellAddressed(s, cs, replies, arrived);
    forall i | 0 <= i < |arrived|
      ensures IdOf(arrived[i]).Some? && IdOf(arrived[i]).value in SendAll(s, cs).pending
    {
      ArrivedPending(s, cs, replies, arrived, i);
    }
  }

  lemma {:induction false} ErrorsWithout(k: nat, b: seq<Msg>, i: nat)
    requires i < |b|
    ensures ErrorReplies(k, b) == ErrorReplies(k, b[..i] + b[i + 1..]) + if Throws(k, b[i]) then 1 else 0
  {
    if i == 0 {
      assert b[..0] + b[1..] == b[1..];
    } else {
      ErrorsWithout(k, b[1..], i - 1);
      assert (b[..i] + b[i + 1..])[1..] == b[1..][..i - 1] + b[1..][i..];
    }
  }

  lemma {:induction false} SameErrors(k: nat, a: seq<Msg>, b: seq<Msg>)
    requires multiset(a) == multiset(b)
    ensures ErrorReplies(k, a) == ErrorReplies(k, b)
    decreases |a|
  {
    SameMessages(a, b);
    SameMessages(b, a);
    if a != [] {
      assert a[0] in b;
      var i :| 0 <= i < |b| && b[i] == a[0];
      WithoutFirst(a, b, i);
      SameErrors(k, a[1..], b[..i] + b[i + 1..]);
      ErrorsWithout(k, b, i);
    }
  }

  // ---- When the returns depend on the order ----

  /** Every receive returns what the call for its controller returns. */
  ghost predicate SameEach<C>(k: nat, s: Channel<C>, cs: seq<C>, replies: seq<Msg>, arrived: seq<Msg>, order: seq<C>,
                              upto: seq<nat>)
    requires |replies| == |cs| && s.Closed() && InReach(s, cs)
  {
    && |upto| == |order| && (forall i | 0 <= i < |order| :: order[i] in s.controllers)
    && forall i, j | 0 <= i < |cs| && 0 <= j < |order| && order[j] == cs[i] ::
         ReceiveEach(k, SendAll(s, cs), arrived, order, upto).2[j] == CallReturns(k, s, cs, replies)[i]
  }

  /** While every message throws, so does every call. */
  lemma {:induction false} AllThrow<C>(k: nat, s: Channel<C>, coming: seq<Msg>, order: seq<C>, upto: seq<nat>)
    requires s.Closed() && |order| <= |coming| && forall i | 0 <= i < |coming| :: Classify(k, s, coming[i]).Throw?
    requires forall i | 0 <= i < |order| :: order[i] in s.controllers && s.controllers[order[i]].rcode == Working
    requires |upto| == |order| && AllInTime(k, s, coming, order, upto)
    ensures forall j | 0 <= j < |order| :: ReceiveEach(k, s, coming, order, upto).2[j] == Threw
    decreases |order|
  {
    if order != [] {
      assert Receive(k, s, coming, order[0], upto[0]) == (s, coming[1..], Threw);
      AllThrow(k, s, coming[1..], order[1..], upto[1..]);
    }
  }

  lemma {:induction false} SentWaiting<C>(s: Channel<C>, cs: seq<C>, i: nat)
    requires Bijection(s) && CanSendAll(s, cs) && i < |cs|
    ensures cs[i] in SendAll(s, cs).controllers && SendAll(s, cs).controllers[cs[i]].rcode == Working
  {
    AfterSendAll(s, cs);
    SentPending(s, cs, i);
  }

  lemma {:induction false} SameControllersIn<C>(cs: seq<C>, order: seq<C>)
    requires multiset(order) == multiset(cs)
    ensures |order| == |cs| && (forall c | c in order :: c in cs) && forall c | c in cs :: c in order
  {
    assert |multiset(order)| == |multiset(cs)|;
    assert forall c | c in order :: c in multiset(order);
    assert forall c | c in cs :: c in multiset(cs);
  }

  lemma {:induction false} AllReceivesThrow<C>(k: nat, s: Channel<C>, cs: seq<C>, replies: seq<Msg>, arrived: seq<Msg>,
                                               order: seq<C>, upto: seq<nat>)
    requires Bijection(s) && s.Closed() && CanSendAll(s, cs)
    requires RepliesTo(s, cs, replies) && multiset(arrived) == multiset(replies) && multiset(order) == multiset(cs)
    requires Receives(k, SendAll(s, cs), arrived, order, upto) && EveryReplyThrows(k, replies)
    ensures SameEach(k, s, cs, replies, arrived, order, upto)
  {
    var sent := SendAll(s, cs);
    SameControllersIn(cs, order);
    SameMessages(replies, arrived);
    AfterSendAll(s, cs);
    ArrivedReplied(s, cs, replies, arrived);
    forall i | 0 <= i < |arrived| ensures Classify(k, sent, arrived[i]).Throw? {
      var j := WhoseReply(s, cs, replies, arrived, i);
      ReplyEffect(k, sent, arrived[i]);
    }
    forall j | 0 <= j < |order| ensures order[j] in sent.controllers && sent.controllers[order[j]].rcode == Working {
      assert order[j] in cs;
      var i :| 0 <= i < |cs| && cs[i] == order[j];
      SentWaiting(s, cs, i);
    }
    AllThrow(k, sent, arrived, order, upto);
    forall i | 0 <= i < |cs| ensures CallReturns(k, s, cs, replies)[i] == Threw {
      CallReturnsOwn(k, s, cs, replies, i);
    }
  }

  /** Receiving first for a request that is answered well throws, if another is answered with an error. */
  lemma {:induction false} GoodFirst<C>(k: nat, s: Channel<C>, cs: seq<C>, replies: seq<Msg>, arrived: seq<Msg>,
                                        order: seq<C>, good: nat, bad: nat)
    requires Bijection(s) && s.Closed() && CanSendAll(s, cs)
    requires RepliesTo(s, cs, replies) && multiset(arrived) == multiset(replies)
    requires good < |cs| && bad < |cs| && Throws(k, replies[bad])
    requires order != [] && order[0] == cs[good] && forall i | 0 <= i < |order| :: order[i] in s.controllers
    ensures ReceiveEach(k, SendAll(s, cs), arrived, order, AllArrived(arrived, order)).2[0] == Threw
  {
    AfterSendAll(s, cs);
    ArrivedReplied(s, cs, replies, arrived);
    ArrivedWellAddressed(s, cs, replies, arrived);
    SentWaiting(s, cs, good);
    SomeArrivedThrows(k, SendAll(s, cs), replies, arrived, bad);
    FirstWaiting(k, SendAll(s, cs), arrived, order, AllArrived(arrived, order));
  }

  lemma {:induction false} GoodFirstShows<C>(k: nat, s: Channel<C>, cs: seq<C>, replies: seq<Msg>, arrived: seq<Msg>,
                                             order: seq<C>, good: nat, bad: nat)
    requires Bijection(s) && s.Closed() && CanSendAll(s, cs)
    requires RepliesTo(s, cs, replies) && multiset(arrived) == multiset(replies)
    requires good < |cs| && bad < |cs| && !Throws(k, replies[good]) && Throws(k, replies[bad])
    requires order != [] && order[0] == cs[good]
    ensures !SameEach(k, s, cs, replies, arrived, order, AllArrived(arrived, order))
  {
    if forall i | 0 <= i < |order| :: order[i] in s.controllers {
      GoodFirst(k, s, cs, replies, arrived, order, good, bad);
      CallReturnsOwn(k, s, cs, replies, good);
    }
  }

  lemma {:induction false} SomeArrivedThrows<C>(k: nat, sent: Channel<C>, replies: seq<Msg>, arrived: seq<Msg>,
                                                bad: nat)
    requires Bijection(sent) && Replied(sent, arrived) && multiset(arrived) == multiset(replies)
    requires bad < |replies| && Throws(k, replies[bad])
    ensures Throwing(Effects(k, sent, arrived)) > 0
  {
    SameMessages(arrived, replies);
    assert replies[bad] in replies;
    var i :| 0 <= i < |arrived| && arrived[i] == replies[bad];
    ReplyEffect(k, sent, arrived[i]);
    CompletedBy(Effects(k, sent, arrived));
    assert Effects(k, sent, arrived)[i].Throw?;
  }

  lemma {:induction false} SamePermutation<C>(cs: seq<C>, i: nat)
    requires i < |cs|
    ensures multiset([cs[i]] + (cs[..i] + cs[i + 1..])) == multiset(cs)
  {
    assert cs == cs[..i] + [cs[i]] + cs[i + 1..];
  }

  ghost predicate NoReplyThrows(k: nat, replies: seq<Msg>) {
    forall i | 0 <= i < |replies| :: !Throws(k, replies[i])
  }

  ghost predicate EveryReplyThrows(k: nat, replies: seq<Msg>) {
    forall i | 0 <= i < |replies| :: Throws(k, replies[i])
  }

  lemma {:induction false} NoneThrow<C>(k: nat, s: Channel<C>, cs: seq<C>, replies: seq<Msg>, arrived: seq<Msg>,
                                        order: seq<C>, upto: seq<nat>)
    requires Bijection(s) && s.Closed() && CanSendAll(s, cs)
    requires RepliesTo(s, cs, replies) && multiset(arrived) == multiset(replies) && multiset(order) == multiset(cs)
    requires Receives(k, SendAll(s, cs), arrived, order, upto) && NoReplyThrows(k, replies)
    ensures SameEach(k, s, cs, replies, arrived, order, upto)
  {
    SameControllersIn(cs, order);
    SomeErrorReply(k, replies);
    SameReturns(k, s, cs, replies, arrived, order, upto);
  }

  /** If some replies throw and others do not, the order shows even when all have arrived beforehand. */
  lemma {:induction false} MixedShows<C>(k: nat, s: Channel<C>, cs: seq<C>, replies: seq<Msg>, arrived: seq<Msg>)
      returns (order: seq<C>)
    requires Bijection(s) && s.Closed() && CanSendAll(s, cs)
    requires RepliesTo(s, cs, replies) && multiset(arrived) == multiset(replies)
    requires !NoReplyThrows(k, replies) && !EveryReplyThrows(k, replies)
    ensures multiset(order) == multiset(cs) && Receives(k, SendAll(s, cs), arrived, order, AllArrived(arrived, order))
    ensures !SameEach(k, s, cs, replies, arrived, order, AllArrived(arrived, order))
  {
    var bad :| 0 <= bad < |replies| && Throws(k, replies[bad]);
    var good :| 0 <= good < |replies| && !Throws(k, replies[good]);
    order := [cs[good]] + (cs[..good] + cs[good + 1..]);
    SamePermutation(cs, good);
    ReceivesOnceArrived(k, s, cs, arrived, order);
    GoodFirstShows(k, s, cs, replies, arrived, order, good, bad);
  }

  lemma {:induction false} ReceivesOnceArrived<C>(k: nat, s: Channel<C>, cs: seq<C>, arrived: seq<Msg>, order: seq<C>)
    requires s.Closed() && InReach(s, cs) && multiset(order) == multiset(cs)
    ensures Receives(k, SendAll(s, cs), arrived, order, AllArrived(arrived, order))
  {
    SameControllersIn(cs, order);
    assert forall i | 0 <= i < |order| :: order[i] in order;
    AllArrivedInTime(k, SendAll(s, cs), arrived, order, AllArrived(arrived, order));
  }

  lemma {:induction false} UniformNeverShows<C>(k: nat, s: Channel<C>, cs: seq<C>, replies: seq<Msg>, arrived: seq<Msg>)
    requires Bijection(s) && s.Closed() && CanSendAll(s, cs)
    requires RepliesTo(s, cs, replies) && multiset(arrived) == multiset(replies)
    requires NoReplyThrows(k, replies) || EveryReplyThrows(k, replies)
    ensures forall order: seq<C>, upto: seq<nat> |
              multiset(order) == multiset(cs) && Receives(k, SendAll(s, cs), arrived, order, upto) ::
              SameEach(k, s, cs, replies, arrived, order, upto)
  {
    forall order: seq<C>, upto: seq<nat> |
      multiset(order) == multiset(cs) && Receives(k, SendAll(s, cs), arrived, order, upto)
      ensures SameEach(k, s, cs, replies, arrived, order, upto)
    {
      if NoReplyThrows(k, replies) {
        NoneThrow(k, s, cs, replies, arrived, order, upto);
      } else {
        AllReceivesThrow(k, s, cs, replies, arrived, order, upto);
      }
    }
  }

  /** Exactly when neither the order of receives nor the way the replies arrive shows in what the receives
      return: receiving once for each request always returns what the calls return if and only if no reply
      makes a call throw or all do. */
  lemma {:induction false} OrderNeverShowsIff<C>(k: nat, s: Channel<C>, cs: seq<C>, replies: seq<Msg>,
                                                 arrived: seq<Msg>)
    requires Bijection(s) && s.Closed() && CanSendAll(s, cs)
    requires RepliesTo(s, cs, replies) && multiset(arrived) == multiset(replies)
    ensures (forall order: seq<C>, upto: seq<nat> |
               multiset(order) == multiset(cs) && Receives(k, SendAll(s, cs), arrived, order, upto) ::
               SameEach(k, s, cs, replies, arrived, order, upto))
       <==> NoReplyThrows(k, replies) || EveryReplyThrows(k, replies)
  {
    if NoReplyThrows(k, replies) || EveryReplyThrows(k, replies) {
      UniformNeverShows(k, s, cs, replies, arrived);
    } else {
      var order := MixedShows(k, s, cs, replies, arrived);
    }
  }

  /** The same condition decides it already for receives that find every reply arrived. */
  lemma {:induction false} OrderNeverShowsIffArrived<C>(k: nat, s: Channel<C>, cs: seq<C>, replies: seq<Msg>,
                                                        arrived: seq<Msg>)
    requires Bijection(s) && s.Closed() && CanSendAll(s, cs)
    requires RepliesTo(s, cs, replies) && multiset(arrived) == multiset(replies)
    ensures (forall order: seq<C> | multiset(order) == multiset(cs) ::
               SameEach(k, s, cs, replies, arrived, order, AllArrived(arrived, order)))
       <==> NoReplyThrows(k, replies) || EveryReplyThrows(k, replies)
  {
    if NoReplyThrows(k, replies) || EveryReplyThrows(k, replies) {
      UniformNeverShows(k, s, cs, replies, arrived);
      forall order: seq<C> | multiset(order) == multiset(cs)
        ensures SameEach(k, s, cs, replies, arrived, order, AllArrived(arrived, order))
      {
        ReceivesOnceArrived(k, s, cs, arrived, order);
      }
    } else {
      var order := MixedShows(k, s, cs, replies, arrived);
    }
  }
}
