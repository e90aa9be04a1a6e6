/** Which runs stop every worker: exactly those in which no worker is handed a second stop message.  While
nobody leaves the ring that depends only on the turns at which the stop messages are handed out. */
module StopTurns {
  import opened RpcServerClass
  import opened Shutdown

  /** The workers that are handed a stop message in a run, in order. */
  ghost function Targets(s: State, steps: seq<Step>): seq<nat>
    requires CanRun(s, steps)
    decreases |steps|
  {
    if steps == [] then []
    else (if steps[0] == RouteStop then [s.ring[0]] else []) + Targets(Do(s, steps[0]), steps[1..])
  }

  /** Every stop message in a run goes to a worker that had none. */
  ghost predicate AllFresh(s: State, steps: seq<Step>)
    requires CanRun(s, steps)
    decreases |steps|
  {
    steps != [] ==>
      && (steps[0] == RouteStop ==> Unstopped(s, s.ring[0]))
      && AllFresh(Do(s, steps[0]), steps[1..])
  }

  ghost predicate Distinct(xs: seq<nat>) {
    forall i, j | 0 <= i < j < |xs| :: xs[i] != xs[j]
  }

  // ---- What a run does to a worker ----

  lemma {:induction false} UnstoppedAfter(s: State, steps: seq<Step>, w: nat)
    requires Base(s) && CanRun(s, steps)
    ensures Unstopped(After(s, steps), w) <==> Unstopped(s, w) && w !in Targets(s, steps)
    decreases |steps|
  {
    if steps != [] {
      UnstoppedStep(s, steps[0], w);
      StepKeepsBase(s, steps[0]);
      UnstoppedAfter(Do(s, steps[0]), steps[1..], w);
    }
  }

  lemma {:induction false} TargetsAreWorkers(s: State, steps: seq<Step>)
    requires Base(s) && CanRun(s, steps)
    ensures forall i | 0 <= i < |Targets(s, steps)| :: Targets(s, steps)[i] < |s.workers|
    decreases |steps|
  {
    if steps != [] {
      StepKeepsBase(s, steps[0]);
      TargetsAreWorkers(Do(s, steps[0]), steps[1..]);
    }
  }

  lemma {:induction false} OwedAfter(s: State, steps: seq<Step>)
    requires CanRun(s, steps)
    ensures |Targets(s, steps)| == Owed(s) - Owed(After(s, steps))
    decreases |steps|
  {
    if steps != [] {
      OwedStep(s, steps[0]);
      OwedAfter(Do(s, steps[0]), steps[1..]);
    }
  }

  lemma {:induction false} FreshIsDistinct(s: State, steps: seq<Step>)
    requires Base(s) && CanRun(s, steps)
    ensures AllFresh(s, steps) <==> Distinct(Targets(s, steps)) && forall w | w in Targets(s, steps) :: Unstopped(s, w)
    decreases |steps|
  {
    if steps != [] {
      var t, others := Do(s, steps[0]), Targets(Do(s, steps[0]), steps[1..]);
      StepKeepsBase(s, steps[0]);
      FreshIsDistinct(t, steps[1..]);
      forall w: nat ensures Unstopped(t, w) <==> Unstopped(s, w) && (steps[0] == RouteStop ==> w != s.ring[0]) {
        UnstoppedStep(s, steps[0], w);
      }
      if steps[0] == RouteStop {
        DistinctCons(s.ring[0], others);
      } else {
        assert Targets(s, steps) == others;
      }
    }
  }

  lemma {:induction false} DistinctCons(x: nat, xs: seq<nat>)
    ensures Distinct([x] + xs) <==> Distinct(xs) && x !in xs
  {
    var all := [x] + xs;
    if Distinct(all) {
      forall i, j | 0 <= i < j < |xs| ensures xs[i] != xs[j] {
        assert all[i + 1] != all[j + 1];
      }
      forall i | 0 <= i < |xs| ensures xs[i] != x {
        assert all[0] != all[i + 1];
      }
    }
  }

  // ---- As many stop messages as workers ----

  function Elements(xs: seq<nat>): (r: set<nat>)
    ensures |r| <= |xs|
    ensures forall x :: x in r <==> x in xs
  {
    if xs == [] then {} else {xs[0]} + Elements(xs[1..])
  }

  lemma {:induction false} DistinctCount(xs: seq<nat>)
    ensures |Elements(xs)| == |xs| <==> Distinct(xs)
  {
    if xs != [] {
      assert xs == [xs[0]] + xs[1..];
      DistinctCons(xs[0], xs[1..]);
      DistinctCount(xs[1..]);
      assert xs[0] in xs[1..] ==> Elements(xs) == Elements(xs[1..]);
    }
  }

  function Below(n: nat): (r: set<nat>)
    ensures |r| == n && forall x :: x in r <==> 0 <= x < n
  {
    if n == 0 then {} else Below(n - 1) + {n - 1}
  }

  lemma {:induction false} SubsetOfSameSize(a: set<nat>, b: set<nat>)
    requires a <= b && |a| == |b|
    ensures a == b
  {
    assert |b - a| == |b| - |a|;
  }

  /** n choices among n workers reach all of them exactly when no choice is made twice. */
  lemma {:induction false} AllReached(xs: seq<nat>, n: nat)
    requires |xs| == n && forall i | 0 <= i < n :: xs[i] < n
    ensures (forall w: nat | w < n :: w in xs) <==> Distinct(xs)
  {
    DistinctCount(xs);
    assert Elements(xs) <= Below(n);
    if Distinct(xs) {
      SubsetOfSameSize(Elements(xs), Below(n));
    } else if forall w: nat | w < n :: w in xs {
      assert Below(n) <= Elements(xs);
      assert Elements(xs) == Below(n);
    }
  }

  ghost predicate NobodyForgotten(s: State) {
    forall w | 0 <= w < |s.workers| :: !Unstopped(s, w)
  }

  lemma {:induction false} WorkersStay(s: State, steps: seq<Step>)
    requires CanRun(s, steps)
    ensures |After(s, steps).workers| == |s.workers|
    decreases |steps|
  {
    if steps != [] {
      WorkersStay(Do(s, steps[0]), steps[1..]);
    }
  }

  /** Exactly when, in any run at all: once the last stop message has been handed out, every worker has one
      if and only if none was handed to the same worker as another; in other words, each went to a worker
      that had none.  This also decides whether Close can return. */
  lemma {:induction false} StopsEveryWorkerIff(s: State, steps: seq<Step>)
    requires Serving(s) && CanRun(s, steps) && Owed(After(s, steps)) == 0
    ensures NobodyForgotten(After(s, steps)) <==> Distinct(Targets(s, steps))
    ensures NobodyForgotten(After(s, steps)) <==> AllFresh(s, steps)
    ensures (exists more :: CanRun(After(s, steps), more) && After(After(s, steps), more).closer.Done?)
       <==> NobodyForgotten(After(s, steps))
  {
    var t, targets := After(s, steps), Targets(s, steps);
    WorkersStay(s, steps);
    OwedAfter(s, steps);
    TargetsAreWorkers(s, steps);
    RunKeepsBase(s, steps);
    forall w: nat | w < |s.workers| ensures Unstopped(t, w) <==> w !in targets {
      UnstoppedAfter(s, steps, w);
    }
    AllReached(targets, |s.workers|);
    FreshIsDistinct(s, steps);
    CloseReturnsIffNoneForgotten(t);
  }

  // ---- Turns ----

  /** The turns at which the stop messages are handed out, counting every message that is handed out. */
  function Turns(steps: seq<Step>, turn: nat): seq<nat> {
    if steps == [] then []
    else match steps[0]
      case RouteStop => [turn] + Turns(steps[1..], turn + 1)
      case RouteRequest => Turns(steps[1..], turn + 1)
      case _ => Turns(steps[1..], turn)
  }

  predicate DistinctModulo(turns: seq<nat>, n: nat) {
    n == 0 || forall i, j | 0 <= i < j < |turns| :: turns[i] % n != turns[j] % n
  }

  /** Nobody disconnects before the last stop message is handed out. */
  ghost predicate NobodyLeaves(s: State, steps: seq<Step>)
    requires CanRun(s, steps)
    decreases |steps|
  {
    steps != [] ==> (Owed(s) > 0 ==> !steps[0].Disconnect?) && NobodyLeaves(Do(s, steps[0]), steps[1..])
  }

  /** The ring, turned. */
  ghost predicate Turned(ring: seq<nat>, first: seq<nat>, turn: nat) {
    |ring| == |first| && forall i | 0 <= i < |ring| :: ring[i] == first[(i + turn) % |first|]
  }

  lemma {:induction false} NextTurn(ring: seq<nat>, first: seq<nat>, turn: nat)
    requires ring != [] && Turned(ring, first, turn)
    ensures Turned(ring[1..] + [ring[0]], first, turn + 1)
  {
    var n, next := |ring|, ring[1..] + [ring[0]];
    forall i | 0 <= i < n ensures next[i] == first[(i + (turn + 1)) % n] {
      if i == n - 1 {
        WholeTurn(turn, n);
      }
    }
  }

  lemma WholeTurn(turn: nat, n: nat)
    requires n > 0
    ensures (n - 1 + (turn + 1)) % n == turn % n
  {
    var q, r := turn / n, turn % n;
    assert n - 1 + (turn + 1) == n * (q + 1) + r;
    Remainder(n - 1 + (turn + 1), n, q + 1, r);
  }

  lemma Remainder(a: nat, n: nat, q: nat, r: nat)
    requires r < n && a == n * q + r
    ensures a % n == r
  {
    var d := a / n - q;
    assert n * d == r - a % n;
    Multiple(n, d);
  }

  lemma Multiple(n: int, d: int)
    requires n > 0
    ensures d > 0 ==> n * d >= n
    ensures d < 0 ==> n * d <= -n
  {
  }

  lemma NotTurned(ring: seq<nat>)
    ensures Turned(ring, ring, 0)
  {
  }

  lemma {:induction false} NoMoreStops(s: State, steps: seq<Step>, turn: nat)
    requires CanRun(s, steps) && Owed(s) == 0
    ensures Targets(s, steps) == [] && Turns(steps, turn) == []
    decreases |steps|
  {
    if steps != [] {
      OwedStep(s, steps[0]);
      NoMoreStops(Do(s, steps[0]), steps[1..], turn + if steps[0] == RouteRequest then 1 else 0);
    }
  }

  function At(first: seq<nat>, turns: seq<nat>): seq<nat>
    requires first != []
  {
    seq(|turns|, i requires 0 <= i < |turns| => first[turns[i] % |first|])
  }

  lemma {:induction false} TargetsByTurn(s: State, steps: seq<Step>, first: seq<nat>, turn: nat)
    requires CanRun(s, steps) && NobodyLeaves(s, steps) && first != [] && Turned(s.ring, first, turn)
    ensures Targets(s, steps) == At(first, Turns(steps, turn))
    decreases |steps|
  {
    if Owed(s) == 0 {
      NoMoreStops(s, steps, turn);
    } else if steps != [] {
      var t := Do(s, steps[0]);
      if steps[0] == RouteStop || steps[0] == RouteRequest {
        NextTurn(s.ring, first, turn);
        TargetsByTurn(t, steps[1..], first, turn + 1);
      } else {
        TargetsByTurn(t, steps[1..], first, turn);
      }
    }
  }

  lemma {:induction false} SameTurn(first: seq<nat>, turns: seq<nat>)
    requires first != [] && Distinct(first)
    ensures Distinct(At(first, turns)) <==> DistinctModulo(turns, |first|)
  {
    var n, targets := |first|, At(first, turns);
    forall i, j | 0 <= i < j < |turns| ensures targets[i] == targets[j] <==> turns[i] % n == turns[j] % n {
      SamePlace(first, turns[i] % n, turns[j] % n);
    }
  }

  lemma SamePlace(first: seq<nat>, i: nat, j: nat)
    requires Distinct(first) && i < |first| && j < |first|
    ensures first[i] == first[j] <==> i == j
  {
  }

  /** Exactly when, by turns: if nobody leaves the ring before the last stop message is handed out, every
      worker is stopped, and Close can return, if and only if the turns of the stop messages are distinct
      modulo the number of workers.  With no request in between they are consecutive.  Of two workers, one
      gets no stop message when one request is handed out between the two (turns 0 and 2), and both get
      theirs when two are (turns 0 and 3). */
  lemma {:induction false} StopsEveryWorkerByTurns(s: State, steps: seq<Step>)
    requires Serving(s) && CanRun(s, steps) && NobodyLeaves(s, steps) && Owed(After(s, steps)) == 0
    ensures NobodyForgotten(After(s, steps)) <==> DistinctModulo(Turns(steps, 0), |s.workers|)
    ensures (exists more :: CanRun(After(s, steps), more) && After(After(s, steps), more).closer.Done?)
       <==> DistinctModulo(Turns(steps, 0), |s.workers|)
  {
    StopsEveryWorkerIff(s, steps);
    DistinctByTurn(s, steps);
  }

  lemma {:induction false} DistinctByTurn(s: State, steps: seq<Step>)
    requires Serving(s) && CanRun(s, steps) && NobodyLeaves(s, steps)
    ensures Distinct(Targets(s, steps)) <==> DistinctModulo(Turns(steps, 0), |s.workers|)
  {
    if s.workers == [] {
      NoMoreStops(s, steps, 0);
    } else {
      NotTurned(s.ring);
      TargetsByTurn(s, steps, s.ring, 0);
      SameTurn(s.ring, Turns(steps, 0));
    }
  }

  /** In a quiet run, even with workers leaving, every stop message goes to a worker that had none. */
  lemma {:induction false} QuietIsFresh(s: State, steps: seq<Step>)
    requires OnePerWorker(s) && CanRun(s, steps) && AllQuiet(s, steps)
    ensures AllFresh(s, steps)
    decreases |steps|
  {
    if steps != [] {
      if steps[0] == RouteStop {
        EachStopIsNew(s);
      }
      StepKeepsOnePerWorker(s, steps[0]);
      QuietIsFresh(Do(s, steps[0]), steps[1..]);
    }
  }

  // ---- A started server ----

  /** The ring holds the workers that were started, each once, in the order in which they connected. */
  ghost predicate RingOfStarted(added: seq<Action>, ring: seq<nat>) {
    Distinct(ring) && forall w: nat :: w in ring <==> Spawn(w) in added
  }

  /** What Start has started is a serving server, once its workers have connected, whatever requests wait or
      have been handed out. */
  lemma {:induction false} StartedServes(added: seq<Action>, urls: seq<string>, n: nat, ring: seq<nat>,
                                         queues: seq<seq<Message>>, requests: nat)
    requires StartedWith(added, urls, 0, n) && RingOfStarted(added, ring)
    requires |queues| == n && forall w | 0 <= w < n :: Stop !in queues[w]
    ensures Serving(State(Unbinding(urls), 0, requests, ring, queues, seq(n, _ => Running), false, true))
  {
    WholeRing(added, urls, n, ring);
    AllConnected(ring, n);
  }

  lemma {:induction false} WholeRing(added: seq<Action>, urls: seq<string>, n: nat, ring: seq<nat>)
    requires StartedWith(added, urls, 0, n) && RingOfStarted(added, ring)
    ensures Distinct(ring) && |ring| == n && forall w: nat :: w in ring <==> w < n
  {
    StartOrder(added, urls, 0, n);
    DistinctCount(ring);
    assert Elements(ring) == Below(n);
  }

  lemma AllConnected(ring: seq<nat>, n: nat)
    requires Distinct(ring) && |ring| == n && forall w: nat :: w in ring <==> w < n
    ensures Connected(ring, seq(n, _ => Running))
  {
    assert forall i | 0 <= i < |ring| :: ring[i] in ring;
  }
}
