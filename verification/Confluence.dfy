/** Order does not matter: batches of replies, pipelined calls, and receives may come in any order. */
module Confluence {
  import opened Basics
  import opened LexicalCast
  import opened Framing
  import opened ChannelState

  /** The request a message claims to answer. */
  function IdOf(frames: Msg): Option<SizeT> {
    if |frames| == 4 then ParseSizeT(frames[1]) else None
  }

  ghost predicate DistinctIds(msgs: seq<Msg>) {
    forall i, j | 0 <= i < j < |msgs| && IdOf(msgs[i]).Some? :: IdOf(msgs[i]) != IdOf(msgs[j])
  }

  // ---- Permuting a batch of replies ----

  lemma {:induction false} DeliverCommutes<C>(k: nat, s: Channel<C>, a: Msg, b: Msg)
    requires Bijection(s) && s.Closed()
    requires IdOf(a).None? || IdOf(a) != IdOf(b)
    ensures Deliver(k, Deliver(k, s, a), b) == Deliver(k, Deliver(k, s, b), a)
  {
    var ea, eb := Classify(k, s, a), Classify(k, s, b);
    ClassifyStays(k, s, a, b);
    ClassifyStays(k, s, b, a);
    if ea.Complete? && eb.Complete? {
      CompletionsCommute(s, ea, eb);
    }
  }

  /** Delivering one message does not change what becomes of another with a different id. */
  lemma {:induction false} ClassifyStays<C>(k: nat, s: Channel<C>, a: Msg, b: Msg)
    requires s.Closed() && (IdOf(a).None? || IdOf(a) != IdOf(b))
    ensures Classify(k, Deliver(k, s, a), b) == Classify(k, s, b)
  {
    if Classify(k, s, a).Complete? {
      assert IdOf(b) != Some(Classify(k, s, a).id);
    }
  }

  lemma {:induction false} CompletionsCommute<C>(s: Channel<C>, a: Effect, b: Effect)
    requires Bijection(s) && s.Closed() && a.Complete? && b.Complete?
    requires a.id in s.pending && b.id in s.pending && a.id != b.id
    ensures Apply(Apply(s, a), b) == Apply(Apply(s, b), a)
  {
    assert s.pending[a.id] != s.pending[b.id];
    assert s.pending - {a.id} - {b.id} == s.pending - {b.id} - {a.id};
  }

  lemma {:induction false} DeliverAllCons<C>(k: nat, s: Channel<C>, m: Msg, msgs: seq<Msg>)
    requires s.Closed()
    ensures DeliverAll(k, s, [m] + msgs) == DeliverAll(k, Deliver(k, s, m), msgs)
  {
    var all := [m] + msgs;
    if msgs == [] {
      assert all == [m] && [m][..0] == [];
      assert DeliverAll(k, s, [m]) == Deliver(k, DeliverAll(k, s, []), m);
    } else {
      var n := |msgs| - 1;
      DeliverAllCons(k, s, m, msgs[..n]);
      assert all[..n + 1] == [m] + msgs[..n] && all[n + 1] == msgs[n];
    }
  }

  lemma {:induction false} MoveToFront<C>(k: nat, s: Channel<C>, before: seq<Msg>, m: Msg, after: seq<Msg>)
    requires Bijection(s) && s.Closed()
    requires forall i | 0 <= i < |before| :: IdOf(m).None? || IdOf(before[i]) != IdOf(m)
    ensures DeliverAll(k, s, before + [m] + after) == DeliverAll(k, s, [m] + (before + after))
    decreases |before|
  {
    if before == [] {
      assert before + [m] + after == [m] + (before + after);
    } else {
      var first, rest := before[0], before[1..];
      DeliverKeepsBijection(k, s, first);
      MoveToFront(k, Deliver(k, s, first), rest, m, after);
      assert before + [m] + after == [first] + (rest + [m] + after);
      assert before + after == [first] + (rest + after);
      DeliverAllCons(k, s, first, rest + [m] + after);
      SwapFirstTwo(k, s, first, m, rest + after);
    }
  }

  lemma {:induction false} SwapFirstTwo<C>(k: nat, s: Channel<C>, a: Msg, b: Msg, rest: seq<Msg>)
    requires Bijection(s) && s.Closed() && (IdOf(b).None? || IdOf(a) != IdOf(b))
    ensures DeliverAll(k, Deliver(k, s, a), [b] + rest) == DeliverAll(k, s, [b] + ([a] + rest))
  {
    DeliverCommutes(k, s, b, a);
    DeliverAllCons(k, Deliver(k, s, a), b, rest);
    DeliverAllCons(k, s, b, [a] + rest);
    DeliverAllCons(k, Deliver(k, s, b), a, rest);
  }

  lemma {:induction false} Split(b: seq<Msg>, i: nat)
    requires i < |b|
    ensures b == b[..i] + [b[i]] + b[i + 1..]
    ensures multiset(b) == multiset(b[..i] + b[i + 1..]) + multiset{b[i]}
  {
    assert b == b[..i] + [b[i]] + b[i + 1..];
  }

  lemma {:induction false} SameWithout(all: multiset<Msg>, x: multiset<Msg>, y: multiset<Msg>, m: Msg)
    requires all == x + multiset{m} && all == y + multiset{m}
    ensures x == y
  {
    assert x == all - multiset{m} && y == all - multiset{m};
  }

  /** In a list of distinct ids the id of the first message does not come again in any permutation of the others. */
  lemma {:induction false} NotAgain(a: seq<Msg>, rest: seq<Msg>)
    requires a != [] && DistinctIds(a) && multiset(a[1..]) == multiset(rest)
    ensures forall y | 0 <= y < |rest| :: IdOf(a[0]).None? || IdOf(rest[y]) != IdOf(a[0])
  {
    forall y | 0 <= y < |rest| ensures IdOf(a[0]).None? || IdOf(rest[y]) != IdOf(a[0]) {
      assert rest[y] in multiset(a[1..]);
      var z :| 0 <= z < |a[1..]| && a[1..][z] == rest[y];
      assert a[z + 1] == rest[y];
    }
  }

  /** Find the first message of a batch in a permutation of it. */
  lemma {:induction false} Locate(a: seq<Msg>, b: seq<Msg>) returns (i: nat)
    requires a != [] && DistinctIds(a) && multiset(a) == multiset(b)
    ensures i < |b| && b[i] == a[0] && multiset(a[1..]) == multiset(b[..i] + b[i + 1..])
    ensures forall j | 0 <= j < i :: IdOf(a[0]).None? || IdOf(b[j]) != IdOf(a[0])
  {
    assert a[0] in multiset(b);
    i :| 0 <= i < |b| && b[i] == a[0];
    WithoutFirst(a, b, i);
    NotAgain(a, b[..i] + b[i + 1..]);
    assert forall j | 0 <= j < i :: b[j] == (b[..i] + b[i + 1..])[j];
  }

  lemma {:induction false} WithoutFirst(a: seq<Msg>, b: seq<Msg>, i: nat)
    requires a != [] && multiset(a) == multiset(b) && i < |b| && b[i] == a[0]
    ensures multiset(a[1..]) == multiset(b[..i] + b[i + 1..])
  {
    Split(b, i);
    Split(a, 0);
    assert a[..0] + a[1..] == a[1..];
    SameWithout(multiset(a), multiset(a[1..]), multiset(b[..i] + b[i + 1..]), a[0]);
  }

  /** Draining two permutations of a batch of replies with distinct ids leaves the same channel:
      the same table and the same controllers, field for field. */
  lemma {:induction false} DrainOrderIrrelevant<C>(k: nat, s: Channel<C>, a: seq<Msg>, b: seq<Msg>)
    requires Bijection(s) && s.Closed()
    requires DistinctIds(a) && multiset(a) == multiset(b)
    ensures DeliverAll(k, s, a) == DeliverAll(k, s, b)
    decreases |a|
  {
    if a == [] {
      assert |b| == |multiset(b)| == |multiset(a)| == 0;
    } else {
      var m := a[0];
      var i := Locate(a, b);
      var rest := b[..i] + b[i + 1..];
      assert b == b[..i] + [m] + b[i + 1..];
      MoveToFront(k, s, b[..i], m, b[i + 1..]);
      DeliverAllCons(k, s, m, rest);
      assert a == [m] + a[1..];
      DeliverAllCons(k, s, m, a[1..]);
      DeliverKeepsBijection(k, s, m);
      DrainOrderIrrelevant(k, Deliver(k, s, m), a[1..], rest);
    }
  }

  // ---- Pipelined and synchronous calls ----

  function SendAll<C>(s: Channel<C>, cs: seq<C>): (t: Channel<C>)
    requires forall i | 0 <= i < |cs| :: cs[i] in s.controllers
    ensures t.controllers.Keys == s.controllers.Keys && (s.Closed() ==> t.Closed())
  {
    if cs == [] then s else SendStep(SendAll(s, cs[..|cs| - 1]), cs[|cs| - 1], Sent)
  }

  /** One call after the other: each is sent and its reply filed before the next is sent. */
  function CallEach<C>(k: nat, s: Channel<C>, cs: seq<C>, replies: seq<Msg>): (t: Channel<C>)
    requires |replies| == |cs| && s.Closed() && forall i | 0 <= i < |cs| :: cs[i] in s.controllers
    ensures t.Closed() && t.controllers.Keys == s.controllers.Keys
    decreases |cs|
  {
    if cs == [] then s
    else
      var n := |cs| - 1;
      Deliver(k, SendStep(CallEach(k, s, cs[..n], replies[..n]), cs[n], Sent), replies[n])
  }

  /** Distinct idle controllers, and ids enough for all of them. */
  ghost predicate CanSendAll<C>(s: Channel<C>, cs: seq<C>) {
    && (forall i | 0 <= i < |cs| :: cs[i] in s.controllers && s.controllers[cs[i]].rcode != Working)
    && (forall i, j | 0 <= i < j < |cs| :: cs[i] != cs[j])
    && s.next + |cs| < TWO_TO_THE_64
  }

  /** The replies to the next requests of a channel, in the order of the requests. */
  ghost predicate RepliesTo<C>(s: Channel<C>, cs: seq<C>, replies: seq<Msg>) {
    |replies| == |cs| && forall i | 0 <= i < |cs| :: IsFor(replies[i], s.next + 1 + i)
  }

  ghost predicate NonePending<C>(s: Channel<C>, cs: seq<C>) {
    && (forall i | 0 <= i < |cs| :: cs[i] in s.controllers && cs[i] !in s.pending.Values)
    && (forall i, j | 0 <= i < j < |cs| :: cs[i] != cs[j])
    && s.next + |cs| < TWO_TO_THE_64
  }

  /** Everything but reqno_, which counts the requests that were pending at the send. */
  function Erase<C>(s: Channel<C>): (t: Channel<C>)
    ensures s.Closed() ==> t.Closed()
    ensures t.controllers.Keys == s.controllers.Keys
  {
    s.(controllers := map c | c in s.controllers :: s.controllers[c].(reqno := 0))
  }

  /** Channels that are equal in this sense agree on counter, table and every controller, field for field,
      but for reqno_. */
  lemma {:induction false} EraseMeans<C>(s: Channel<C>, t: Channel<C>)
    ensures Erase(s) == Erase(t)
       <==> && s.next == t.next && s.pending == t.pending && s.controllers.Keys == t.controllers.Keys
            && forall c | c in s.controllers && c in t.controllers ::
                 && s.controllers[c].rcode == t.controllers[c].rcode
                 && s.controllers[c].zerror == t.controllers[c].zerror
                 && s.controllers[c].payload == t.controllers[c].payload
  {
    if Erase(s) == Erase(t) {
      forall c | c in s.controllers && c in t.controllers
        ensures s.controllers[c].(reqno := 0) == t.controllers[c].(reqno := 0)
      {
        assert Erase(s).controllers[c] == Erase(t).controllers[c];
      }
      assert Erase(s).controllers.Keys == Erase(t).controllers.Keys;
    } else if s.controllers.Keys == t.controllers.Keys && s.next == t.next && s.pending == t.pending {
      if forall c | c in s.controllers :: s.controllers[c].(reqno := 0) == t.controllers[c].(reqno := 0) {
        EraseEqual(s, t);
      }
    }
  }

  lemma {:induction false} EraseDeliver<C>(k: nat, s: Channel<C>, m: Msg)
    requires s.Closed()
    ensures Erase(Deliver(k, s, m)) == Deliver(k, Erase(s), m)
  {
    assert Classify(k, Erase(s), m) == Classify(k, s, m);
    assert Erase(Deliver(k, s, m)).controllers == Deliver(k, Erase(s), m).controllers;
  }

  lemma {:induction false} DeliverToEqual<C>(k: nat, s: Channel<C>, t: Channel<C>, m: Msg)
    requires s.Closed() && t.Closed() && Erase(s) == Erase(t)
    ensures Erase(Deliver(k, s, m)) == Erase(Deliver(k, t, m))
  {
    EraseDeliver(k, s, m);
    EraseDeliver(k, t, m);
  }

  lemma {:induction false} EraseSend<C>(s: Channel<C>, t: Channel<C>, c: C)
    requires Erase(s) == Erase(t) && c in s.controllers
    ensures c in t.controllers && Erase(SendStep(s, c, Sent)) == Erase(SendStep(t, c, Sent))
  {
    assert c in Erase(s).controllers && c in Erase(t).controllers;
    var a, b := Erase(SendStep(s, c, Sent)).controllers, Erase(SendStep(t, c, Sent)).controllers;
    forall x | x in a ensures x in b && a[x] == b[x] {
      assert x in Erase(s).controllers;
      assert Erase(s).controllers[x] == Erase(t).controllers[x];
    }
    assert a.Keys == b.Keys;
  }

  lemma {:induction false} SendAllTouches<C>(s: Channel<C>, cs: seq<C>)
    requires forall i | 0 <= i < |cs| :: cs[i] in s.controllers
    requires s.next + |cs| < TWO_TO_THE_64
    ensures SendAll(s, cs).next == s.next + |cs|
    ensures forall c | c in s.controllers && c !in cs :: SendAll(s, cs).controllers[c] == s.controllers[c]
    ensures forall c | c in SendAll(s, cs).pending.Values :: c in s.pending.Values || c in cs
  {
    if cs != [] {
      var before := cs[..|cs| - 1];
      SendAllTouches(s, before);
      assert forall c | c in before :: c in cs;
      assert cs[|cs| - 1] in cs;
    }
  }

  /** After the sends the bijection stands. */
  lemma {:induction false} AfterSendAll<C>(s: Channel<C>, cs: seq<C>)
    requires Bijection(s) && CanSendAll(s, cs)
    ensures Bijection(SendAll(s, cs))
  {
    if cs != [] {
      var before, c := cs[..|cs| - 1], cs[|cs| - 1];
      AfterSendAll(s, before);
      SendAllTouches(s, before);
      assert c !in before;
      SendKeeps(SendAll(s, before), c, Sent);
    }
  }

  lemma {:induction false} PendingShrinks<C>(k: nat, s: Channel<C>, msgs: seq<Msg>)
    requires s.Closed()
    ensures DeliverAll(k, s, msgs).pending.Values <= s.pending.Values
  {
    if msgs != [] {
      PendingShrinks(k, s, msgs[..|msgs| - 1]);
    }
  }

  lemma {:induction false} SendPastReply<C>(k: nat, s: Channel<C>, c: C, m: Msg)
    requires s.Closed() && c in s.controllers && c !in s.pending.Values
    requires s.next < MAX_SIZET && !IsFor(m, s.next + 1)
    ensures Erase(Deliver(k, SendStep(s, c, Sent), m)) == Erase(SendStep(Deliver(k, s, m), c, Sent))
  {
    var e := Classify(k, s, m);
    assert Classify(k, SendStep(s, c, Sent), m) == e;
    if e.Complete? {
      SendPastCompletion(s, c, e);
    }
  }

  lemma {:induction false} SendPastCompletion<C>(s: Channel<C>, c: C, e: Effect)
    requires s.Closed() && c in s.controllers && s.next < MAX_SIZET
    requires e.Complete? && e.id in s.pending && e.id != s.next + 1 && s.pending[e.id] != c
    ensures Erase(Apply(SendStep(s, c, Sent), e)) == Erase(SendStep(Apply(s, e), c, Sent))
  {
    var x, y := Apply(SendStep(s, c, Sent), e), SendStep(Apply(s, e), c, Sent);
    SendPastTable(s, c, e);
    forall h | h in s.controllers ensures x.controllers[h].(reqno := 0) == y.controllers[h].(reqno := 0) {
      SendPastForOne(s, c, e, h);
    }
    EraseEqual(x, y);
  }

  lemma {:induction false} EraseEqual<C>(s: Channel<C>, t: Channel<C>)
    requires s.next == t.next && s.pending == t.pending && s.controllers.Keys == t.controllers.Keys
    requires forall h | h in s.controllers :: s.controllers[h].(reqno := 0) == t.controllers[h].(reqno := 0)
    ensures Erase(s) == Erase(t)
  {
    assert Erase(s).controllers == Erase(t).controllers;
  }

  lemma {:induction false} SendPastTable<C>(s: Channel<C>, c: C, e: Effect)
    requires s.Closed() && c in s.controllers && s.next < MAX_SIZET
    requires e.Complete? && e.id in s.pending && e.id != s.next + 1
    ensures Apply(SendStep(s, c, Sent), e).pending == SendStep(Apply(s, e), c, Sent).pending
  {
  }

  lemma {:induction false} SendPastForOne<C>(s: Channel<C>, c: C, e: Effect, h: C)
    requires s.Closed() && c in s.controllers && s.next < MAX_SIZET && h in s.controllers
    requires e.Complete? && e.id in s.pending && e.id != s.next + 1 && s.pending[e.id] != c
    ensures Apply(SendStep(s, c, Sent), e).controllers[h].(reqno := 0)
         == SendStep(Apply(s, e), c, Sent).controllers[h].(reqno := 0)
  {
    assert s.pending[e.id] in s.pending.Values;
  }

  ghost predicate Avoid(msgs: seq<Msg>, id: nat) {
    forall i | 0 <= i < |msgs| :: !IsFor(msgs[i], id)
  }

  predicate IsFor(m: Msg, id: nat) {
    IdOf(m).Some? && IdOf(m).value == id
  }

  lemma AvoidLast(msgs: seq<Msg>, id: nat)
    requires msgs != [] && Avoid(msgs, id)
    ensures Avoid(msgs[..|msgs| - 1], id) && !IsFor(msgs[|msgs| - 1], id)
  {
  }

  lemma {:induction false} SendPastReplies<C>(k: nat, s: Channel<C>, c: C, msgs: seq<Msg>)
    requires s.Closed() && c in s.controllers && c !in s.pending.Values
    requires s.next < MAX_SIZET && Avoid(msgs, s.next + 1)
    ensures Erase(DeliverAll(k, SendStep(s, c, Sent), msgs)) == Erase(SendStep(DeliverAll(k, s, msgs), c, Sent))
  {
    if msgs != [] {
      var n := |msgs| - 1;
      AvoidLast(msgs, s.next + 1);
      SendPastReplies(k, s, c, msgs[..n]);
      PendingShrinks(k, s, msgs[..n]);
      SendPastOneMore(k, DeliverAll(k, s, msgs[..n]), DeliverAll(k, SendStep(s, c, Sent), msgs[..n]), c, s.next,
                      msgs[n], DeliverAll(k, s, msgs), DeliverAll(k, SendStep(s, c, Sent), msgs));
    }
  }

  lemma {:induction false} SendPastOneMore<C>(k: nat, s: Channel<C>, sent: Channel<C>, c: C, next: nat, m: Msg,
                                              s': Channel<C>, sent': Channel<C>)
    requires s.Closed() && sent.Closed() && c in s.controllers && c !in s.pending.Values
    requires s.next == next < MAX_SIZET && !IsFor(m, next + 1) && Erase(sent) == Erase(SendStep(s, c, Sent))
    requires s' == Deliver(k, s, m) && sent' == Deliver(k, sent, m)
    ensures Erase(sent') == Erase(SendStep(s', c, Sent))
  {
    SendPastReply(k, s, c, m);
    DeliverToEqual(k, sent, SendStep(s, c, Sent), m);
  }

  /** One more call in both ways of calling: sent before the earlier replies come in, or after. */
  lemma {:induction false} OneMoreCall<C>(k: nat, s: Channel<C>, called: Channel<C>, c: C, replies: seq<Msg>,
                                          both: Channel<C>, each: Channel<C>)
    requires s.Closed() && called.Closed() && c in s.controllers && c in called.controllers && replies != []
    requires c !in s.pending.Values && s.next < MAX_SIZET
    requires Avoid(replies[..|replies| - 1], s.next + 1)
    requires Erase(DeliverAll(k, s, replies[..|replies| - 1])) == Erase(called)
    requires both == SendStep(s, c, Sent) && each == Deliver(k, SendStep(called, c, Sent), replies[|replies| - 1])
    ensures Erase(DeliverAll(k, both, replies)) == Erase(each)
  {
    var before, m := replies[..|replies| - 1], replies[|replies| - 1];
    SendPastReplies(k, s, c, before);
    EraseSend(DeliverAll(k, s, before), called, c);
    DeliverToEqual(k, DeliverAll(k, both, before), SendStep(called, c, Sent), m);
  }

  /** What the sends before the last leave for it. */
  lemma {:induction false} BeforeLast<C>(s: Channel<C>, cs: seq<C>)
    requires NonePending(s, cs) && cs != []
    ensures var n := |cs| - 1;
            var u := SendAll(s, cs[..n]);
            && NonePending(s, cs[..n])
            && u.next == s.next + n && cs[n] in u.controllers && cs[n] !in u.pending.Values
  {
    var n := |cs| - 1;
    assert NonePending(s, cs[..n]);
    SendAllTouches(s, cs[..n]);
    assert cs[n] !in cs[..n];
  }

  lemma {:induction false} InOrder<C>(k: nat, s: Channel<C>, cs: seq<C>, replies: seq<Msg>)
    requires s.Closed() && NonePending(s, cs) && RepliesTo(s, cs, replies)
    ensures Erase(DeliverAll(k, SendAll(s, cs), replies)) == Erase(CallEach(k, s, cs, replies))
    decreases |cs|
  {
    if cs != [] {
      var n := |cs| - 1;
      BeforeLast(s, cs);
      AvoidNext(s, cs, replies);
      InOrder(k, s, cs[..n], replies[..n]);
      CallEachLast(k, s, cs, replies);
      OneMoreCall(k, SendAll(s, cs[..n]), CallEach(k, s, cs[..n], replies[..n]), cs[n], replies,
                  SendAll(s, cs), CallEach(k, s, cs, replies));
    }
  }

  lemma AvoidNext<C>(s: Channel<C>, cs: seq<C>, replies: seq<Msg>)
    requires RepliesTo(s, cs, replies) && cs != []
    ensures Avoid(replies[..|cs| - 1], s.next + |cs|) && RepliesTo(s, cs[..|cs| - 1], replies[..|cs| - 1])
  {
  }

  lemma {:induction false} CallEachLast<C>(k: nat, s: Channel<C>, cs: seq<C>, replies: seq<Msg>)
    requires s.Closed() && cs != [] && |replies| == |cs| && forall i | 0 <= i < |cs| :: cs[i] in s.controllers
    ensures var n := |cs| - 1;
            && SendAll(s, cs) == SendStep(SendAll(s, cs[..n]), cs[n], Sent)
            && CallEach(k, s, cs, replies)
               == Deliver(k, SendStep(CallEach(k, s, cs[..n], replies[..n]), cs[n], Sent), replies[n])
  {
  }

  /** Sending a batch of requests and draining their replies, in whatever order they arrive, leaves
      everything (but reqno_) as if each call had been sent and answered before the next. */
  lemma {:induction false} PipelinedIsSynchronous<C>(k: nat, s: Channel<C>, cs: seq<C>, replies: seq<Msg>,
                                                     arrived: seq<Msg>)
    requires Bijection(s) && s.Closed() && CanSendAll(s, cs) && RepliesTo(s, cs, replies)
    requires multiset(arrived) == multiset(replies)
    ensures Erase(DeliverAll(k, SendAll(s, cs), arrived)) == Erase(CallEach(k, s, cs, replies))
  {
    AfterSendAll(s, cs);
    InOrder(k, s, cs, replies);
    DrainOrderIrrelevant(k, SendAll(s, cs), replies, arrived);
  }
}
