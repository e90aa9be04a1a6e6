/** Closing a running server: the closing thread, the proxy and the workers as one step system.

Stop messages reach the workers through the proxy like requests do: the ROUTER queues what arrives,
the DEALER hands each message to the next of its connected peers in turn (section "The DEALER Socket
Type" of ZeroMQ RFC 28/REQREP), and a worker that has seen TERMINATE leaves its loop and disconnects
some time later.
*/
module Shutdown {
  import opened Basics
  import opened RpcServerClass

  datatype Message = Stop | Request

  datatype WorkerState = Running | Leaving | Exited

  /** Where the closing thread is in RpcServer.Close. */
  datatype Closer =
    | Unbinding(urls: seq<string>)
    | Stopping(left: nat)
    | Joining(next: nat)
    | StoppingProxy
    | ClosingSockets
    | Done

  /** `stops` and `requests` wait at the ROUTER; `ring` lists the connected workers, the next one to be
      served first; `queues` has what each worker has been handed. */
  datatype State = State(
    closer: Closer,
    stops: nat,
    requests: nat,
    ring: seq<nat>,
    queues: seq<seq<Message>>,
    workers: seq<WorkerState>,
    control: bool,
    live: bool)

  datatype Step =
    | Close
    | RouteStop
    | RouteRequest
    | Process(w: nat)
    | Disconnect(w: nat)
    | ProxyEnds
    | Arrive

  // ---- The closing thread ----

  /** The action of the next step of the closing thread, if it is one that shows. */
  function Performs(c: Closer, n: nat): seq<Action> {
    match c
    case Unbinding(urls) => if urls == [] || Inproc(urls[0]) then [] else [Unbind(urls[0])]
    case Stopping(left) => if left == 0 then [] else [StopWorker(["TERMINATE"])]
    case Joining(next) => if next >= n then [] else [Join(next)]
    case StoppingProxy => [StopProxy]
    case ClosingSockets => [CloseSockets]
    case Done => []
  }

  function Advance(c: Closer, n: nat): Closer {
    match c
    case Unbinding(urls) => if urls == [] then Stopping(n) else Unbinding(urls[1..])
    case Stopping(left) => if left == 0 then Joining(0) else Stopping(left - 1)
    case Joining(next) => if next >= n then StoppingProxy else Joining(next + 1)
    case StoppingProxy => ClosingSockets
    case _ => Done
  }

  function Remaining(c: Closer, n: nat): seq<Action> {
    match c
    case Unbinding(urls) => Unbinds(urls) + (Stops(n) + (Joins(0, n) + [StopProxy, CloseSockets]))
    case Stopping(left) => Stops(left) + (Joins(0, n) + [StopProxy, CloseSockets])
    case Joining(next) => Joins(next, n) + [StopProxy, CloseSockets]
    case StoppingProxy => [StopProxy, CloseSockets]
    case ClosingSockets => [CloseSockets]
    case Done => []
  }

  /** The thread of this step system runs the script that RpcServer.Close was proved to run, one action
      after the other. */
  lemma {:induction false} CloserRunsCloseScript(urls: seq<string>, c: Closer, n: nat)
    ensures Remaining(Unbinding(urls), n) == CloseScript(urls, n)
    ensures Remaining(c, n) == Performs(c, n) + Remaining(Advance(c, n), n)
  {
    var end := [StopProxy, CloseSockets];
    match c
    case Unbinding(left) =>
      if left == [] {
        assert Unbinds(left) + (Stops(n) + (Joins(0, n) + end)) == Stops(n) + (Joins(0, n) + end);
      } else {
        Associate(Performs(c, n), Unbinds(left[1..]), Stops(n) + (Joins(0, n) + end));
      }
    case Stopping(left) =>
      if left > 0 {
        Associate(Performs(c, n), Stops(left - 1), Joins(0, n) + end);
      }
    case Joining(next) =>
      if next < n {
        Associate(Performs(c, n), Joins(next + 1, n), end);
      }
    case _ =>
  }

  // ---- Steps ----

  predicate Enabled(s: State, step: Step) {
    match step
    case Close =>
      !s.closer.Done?
      && (s.closer.Joining? && s.closer.next < |s.workers| ==> s.workers[s.closer.next] == Exited)
    case RouteStop => s.live && s.stops > 0 && s.ring != [] && s.ring[0] < |s.queues|
    case RouteRequest => s.live && s.requests > 0 && s.ring != [] && s.ring[0] < |s.queues|
    case Process(w) => w < |s.workers| && w < |s.queues| && s.workers[w] == Running && s.queues[w] != []
    case Disconnect(w) => w < |s.workers| && s.workers[w] == Leaving
    case ProxyEnds => s.live && s.control
    case Arrive => true
  }

  function Route(s: State, m: Message): State
    requires s.ring != [] && s.ring[0] < |s.queues|
  {
    s.(ring := s.ring[1..] + [s.ring[0]], queues := s.queues[s.ring[0] := s.queues[s.ring[0]] + [m]])
  }

  function Without(ring: seq<nat>, w: nat): seq<nat> {
    if ring == [] then []
    else if ring[0] == w then ring[1..]
    else [ring[0]] + Without(ring[1..], w)
  }

  function Do(s: State, step: Step): State
    requires Enabled(s, step)
  {
    match step
    case Close =>
      var action := Performs(s.closer, |s.workers|);
      s.(closer := Advance(s.closer, |s.workers|),
         stops := if action == [StopWorker(["TERMINATE"])] then s.stops + 1 else s.stops,
         control := s.control || action == [StopProxy])
    case RouteStop => Route(s, Stop).(stops := s.stops - 1)
    case RouteRequest => Route(s, Request).(requests := s.requests - 1)
    case Process(w) =>
      s.(queues := s.queues[w := s.queues[w][1..]],
         workers := if s.queues[w][0] == Stop then s.workers[w := Leaving] else s.workers)
    case Disconnect(w) => s.(workers := s.workers[w := Exited], ring := Without(s.ring, w))
    case ProxyEnds => s.(live := false)
    case Arrive => s.(requests := s.requests + 1)
  }

  ghost predicate CanRun(s: State, steps: seq<Step>)
    decreases |steps|
  {
    steps != [] ==> Enabled(s, steps[0]) && CanRun(Do(s, steps[0]), steps[1..])
  }

  ghost function After(s: State, steps: seq<Step>): State
    requires CanRun(s, steps)
    decreases |steps|
  {
    if steps == [] then s else After(Do(s, steps[0]), steps[1..])
  }

  // ---- Ordering, in every run ----

  /** Each worker is in the ring until it has exited, and only once. */
  ghost predicate Connected(ring: seq<nat>, workers: seq<WorkerState>) {
    && (forall i | 0 <= i < |ring| :: ring[i] < |workers| && workers[ring[i]] != Exited)
    && (forall i, j | 0 <= i < j < |ring| :: ring[i] != ring[j])
    && (forall w | 0 <= w < |workers| && workers[w] != Exited :: w in ring)
    && |ring| <= |workers|
  }

  /** Workers the closing thread has joined have exited; the proxy is told to end after all joins. */
  ghost predicate InOrder(s: State) {
    && (s.closer.Joining? ==> forall w | 0 <= w < s.closer.next && w < |s.workers| :: s.workers[w] == Exited)
    && (s.closer.StoppingProxy? || s.closer.ClosingSockets? || s.closer.Done? ==>
          forall w | 0 <= w < |s.workers| :: s.workers[w] == Exited)
    && (s.control ==> s.closer.ClosingSockets? || s.closer.Done?)
    && (!s.live ==> s.control)
    && (s.closer.Stopping? ==> s.closer.left <= |s.workers|)
  }

  ghost predicate Base(s: State) {
    |s.queues| == |s.workers| && Connected(s.ring, s.workers) && InOrder(s)
  }

  /** A server running with any ring order, any requests waiting or handed out, when Close is called. */
  ghost predicate Serving(s: State) {
    && |s.queues| == |s.workers| && Connected(s.ring, s.workers)
    && s.closer.Unbinding? && s.stops == 0 && !s.control && s.live
    && (forall w | 0 <= w < |s.workers| :: s.workers[w] == Running && Stop !in s.queues[w])
    && |s.ring| == |s.workers|
  }

  lemma {:induction false} WithoutIs(ring: seq<nat>, w: nat, at: nat)
    requires at < |ring| && ring[at] == w && forall i, j | 0 <= i < j < |ring| :: ring[i] != ring[j]
    ensures Without(ring, w) == ring[..at] + ring[at + 1..]
  {
    if at > 0 {
      WithoutIs(ring[1..], w, at - 1);
    }
  }

  lemma {:induction false} RemoveKeepsConnected(ring: seq<nat>, workers: seq<WorkerState>, at: nat)
    requires Connected(ring, workers) && at < |ring|
    ensures Connected(ring[..at] + ring[at + 1..], workers[ring[at] := Exited])
  {
    var rest, now := ring[..at] + ring[at + 1..], workers[ring[at] := Exited];
    RestOfRing(ring, at);
    forall x | 0 <= x < |now| && now[x] != Exited ensures x in rest {
      var i :| 0 <= i < |ring| && ring[i] == x;
      assert rest[if i < at then i else i - 1] == x;
    }
  }

  lemma RestOfRing(ring: seq<nat>, at: nat)
    requires at < |ring| && forall i, j | 0 <= i < j < |ring| :: ring[i] != ring[j]
    ensures var rest := ring[..at] + ring[at + 1..];
            && (forall i | 0 <= i < |rest| :: rest[i] != ring[at] && rest[i] == ring[if i < at then i else i + 1])
            && forall i, j | 0 <= i < j < |rest| :: rest[i] != rest[j]
  {
  }

  lemma {:induction false} RotateKeepsConnected(ring: seq<nat>, workers: seq<WorkerState>)
    requires Connected(ring, workers) && ring != []
    ensures Connected(ring[1..] + [ring[0]], workers)
  {
    var turned := ring[1..] + [ring[0]];
    forall x | 0 <= x < |workers| && workers[x] != Exited ensures x in turned {
      var i :| 0 <= i < |ring| && ring[i] == x;
      assert turned[if i == 0 then |ring| - 1 else i - 1] == x;
    }
  }

  lemma {:induction false} StepKeepsConnected(s: State, step: Step)
    requires |s.queues| == |s.workers| && Connected(s.ring, s.workers) && Enabled(s, step)
    ensures |Do(s, step).queues| == |Do(s, step).workers| && Connected(Do(s, step).ring, Do(s, step).workers)
  {
    match step
    case RouteStop => RotateKeepsConnected(s.ring, s.workers);
    case RouteRequest => RotateKeepsConnected(s.ring, s.workers);
    case Process(w) => LeavingKeepsConnected(s.ring, s.workers, w);
    case Disconnect(w) => DisconnectKeepsConnected(s.ring, s.workers, w);
    case _ =>
  }

  lemma LeavingKeepsConnected(ring: seq<nat>, workers: seq<WorkerState>, w: nat)
    requires Connected(ring, workers) && w < |workers| && workers[w] == Running
    ensures Connected(ring, workers[w := Leaving])
  {
  }

  lemma {:induction false} DisconnectKeepsConnected(ring: seq<nat>, workers: seq<WorkerState>, w: nat)
    requires Connected(ring, workers) && w < |workers| && workers[w] != Exited
    ensures Connected(Without(ring, w), workers[w := Exited])
  {
    var at :| 0 <= at < |ring| && ring[at] == w;
    WithoutIs(ring, w, at);
    RemoveKeepsConnected(ring, workers, at);
  }

  lemma {:induction false} StepKeepsInOrder(s: State, step: Step)
    requires |s.queues| == |s.workers| && Connected(s.ring, s.workers) && InOrder(s) && Enabled(s, step)
    ensures InOrder(Do(s, step))
  {
    match step
    case Process(w) => assert s.workers[w] != Exited;
    case _ =>
  }

  lemma {:induction false} StepKeepsBase(s: State, step: Step)
    requires Base(s) && Enabled(s, step)
    ensures Base(Do(s, step))
  {
    StepKeepsConnected(s, step);
    StepKeepsInOrder(s, step);
  }

  lemma {:induction false} RunKeepsBase(s: State, steps: seq<Step>)
    requires Base(s) && CanRun(s, steps)
    ensures Base(After(s, steps))
    decreases |steps|
  {
    if steps != [] {
      StepKeepsBase(s, steps[0]);
      RunKeepsBase(Do(s, steps[0]), steps[1..]);
    }
  }

  /** Whatever interleaves, the proxy is told to end only after every worker has exited, and it does
      not end before it is told. */
  lemma {:induction false} ProxyOutlivesWorkers(s: State, steps: seq<Step>)
    requires Serving(s) && CanRun(s, steps)
    ensures var t := After(s, steps);
            && (t.control ==> forall w | 0 <= w < |t.workers| :: t.workers[w] == Exited)
            && (!t.live ==> t.control)
  {
    RunKeepsBase(s, steps);
  }

  // ---- Delivery of the stop messages ----

  /** A worker that has neither seen nor been handed a stop message. */
  predicate Unstopped(s: State, w: nat) {
    w < |s.workers| && w < |s.queues| && s.workers[w] == Running && Stop !in s.queues[w]
  }

  function ToSend(c: Closer, n: nat): nat {
    match c
    case Unbinding(_) => n
    case Stopping(left) => left
    case _ => 0
  }

  /** Stop messages that no worker has been handed yet. */
  function Owed(s: State): nat {
    ToSend(s.closer, |s.workers|) + s.stops
  }

  /** Only handing out a stop message changes what is owed, and who is unstopped. */
  lemma OwedStep(s: State, step: Step)
    requires Enabled(s, step)
    ensures Owed(Do(s, step)) == Owed(s) - (if step == RouteStop then 1 else 0)
  {
  }

  lemma {:induction false} UnstoppedStep(s: State, step: Step, w: nat)
    requires Base(s) && Enabled(s, step)
    ensures Unstopped(Do(s, step), w) <==> Unstopped(s, w) && (step == RouteStop ==> w != s.ring[0])
  {
    var t := Do(s, step);
    match step
    case RouteStop =>
      assert t.queues[s.ring[0]][|s.queues[s.ring[0]]|] == Stop;
    case RouteRequest =>
      assert w == s.ring[0] ==> t.queues[w] == s.queues[w] + [Request];
    case Process(v) =>
      assert s.queues[v] == [s.queues[v][0]] + t.queues[v];
    case _ =>
  }

  /** The unstopped workers are the next in turn, as many as stop messages are owed. */
  ghost predicate OnePerWorker(s: State) {
    && Base(s)
    && Owed(s) <= |s.ring|
    && forall i | 0 <= i < |s.ring| :: Unstopped(s, s.ring[i]) <==> i < Owed(s)
  }

  /** No request is handed out while some of the connected workers are still owed a stop message and
      some are not. */
  predicate Quiet(s: State, step: Step) {
    step == RouteRequest ==> Owed(s) == 0 || Owed(s) == |s.ring|
  }

  lemma {:induction false} RouteKeepsOnePerWorker(s: State, step: Step)
    requires OnePerWorker(s) && Enabled(s, step) && Quiet(s, step) && (step == RouteStop || step == RouteRequest)
    ensures OnePerWorker(Do(s, step))
  {
    var t := Do(s, step);
    StepKeepsBase(s, step);
    var n := |s.ring|;
    forall i | 0 <= i < n ensures Unstopped(t, t.ring[i]) <==> i < Owed(t) {
      var was := if i == n - 1 then 0 else i + 1;
      assert t.ring[i] == s.ring[was];
      if was != 0 {
        assert s.ring[was] != s.ring[0];
        assert Unstopped(t, t.ring[i]) == Unstopped(s, s.ring[was]);
      } else if step == RouteStop {
        assert t.queues[s.ring[0]][|s.queues[s.ring[0]]|] == Stop;
      } else {
        assert Unstopped(t, s.ring[0]) == Unstopped(s, s.ring[0]);
      }
    }
  }

  lemma {:induction false} ProcessKeepsOnePerWorker(s: State, w: nat)
    requires OnePerWorker(s) && Enabled(s, Process(w))
    ensures OnePerWorker(Do(s, Process(w)))
  {
    var t := Do(s, Process(w));
    StepKeepsBase(s, Process(w));
    assert s.queues[w] == [s.queues[w][0]] + s.queues[w][1..];
    forall i | 0 <= i < |s.ring| ensures Unstopped(t, t.ring[i]) == Unstopped(s, s.ring[i]) {
      if s.ring[i] == w && s.queues[w][0] == Stop {
        assert Stop in s.queues[w];
      }
    }
  }

  /** A worker that disconnects is past its stop message; nobody else is affected. */
  lemma {:induction false} DisconnectEffect(s: State, w: nat) returns (at: nat)
    requires OnePerWorker(s) && Enabled(s, Disconnect(w))
    ensures at < |s.ring| && s.ring[at] == w && Owed(s) <= at
    ensures var t := Do(s, Disconnect(w));
            && t.ring == s.ring[..at] + s.ring[at + 1..] && Owed(t) == Owed(s)
            && forall x: nat | x != w :: Unstopped(t, x) == Unstopped(s, x)
  {
    at :| 0 <= at < |s.ring| && s.ring[at] == w;
    WithoutIs(s.ring, w, at);
    assert !Unstopped(s, s.ring[at]);
  }

  lemma {:induction false} DisconnectKeepsOnePerWorker(s: State, w: nat)
    requires OnePerWorker(s) && Enabled(s, Disconnect(w))
    ensures OnePerWorker(Do(s, Disconnect(w)))
  {
    StepKeepsBase(s, Disconnect(w));
    var at := DisconnectEffect(s, w);
    InTurn(s, Do(s, Disconnect(w)), at);
  }

  lemma {:induction false} InTurn(s: State, t: State, at: nat)
    requires OnePerWorker(s) && Base(t) && at < |s.ring| && Owed(s) <= at && Owed(t) == Owed(s)
    requires t.ring == s.ring[..at] + s.ring[at + 1..]
    requires forall x: nat | x != s.ring[at] :: Unstopped(t, x) == Unstopped(s, x)
    ensures OnePerWorker(t)
  {
    forall i | 0 <= i < |t.ring| ensures Unstopped(t, t.ring[i]) <==> i < Owed(t) {
      assert t.ring[i] == s.ring[if i < at then i else i + 1];
    }
  }

  lemma {:induction false} StepKeepsOnePerWorker(s: State, step: Step)
    requires OnePerWorker(s) && Enabled(s, step) && Quiet(s, step)
    ensures OnePerWorker(Do(s, step))
  {
    match step
    case RouteStop => RouteKeepsOnePerWorker(s, step);
    case RouteRequest => RouteKeepsOnePerWorker(s, step);
    case Process(w) => ProcessKeepsOnePerWorker(s, w);
    case Disconnect(w) => DisconnectKeepsOnePerWorker(s, w);
    case _ =>
      StepKeepsBase(s, step);
      var t := Do(s, step);
      assert Owed(t) == Owed(s);
      assert forall w :: Unstopped(t, w) == Unstopped(s, w);
  }

  /** No worker is handed a second stop message: each goes to one that had none, and leaves one fewer. */
  lemma {:induction false} EachStopIsNew(s: State)
    requires OnePerWorker(s) && Enabled(s, RouteStop)
    ensures var t := Do(s, RouteStop);
            && Unstopped(s, s.ring[0]) && !Unstopped(t, s.ring[0]) && Owed(t) == Owed(s) - 1
            && forall w: nat | w != s.ring[0] :: Unstopped(t, w) == Unstopped(s, w)
  {
    var w, t := s.ring[0], Do(s, RouteStop);
    assert t.queues[w][|s.queues[w]|] == Stop;
  }

  lemma {:induction false} ServingIsOnePerWorker(s: State)
    requires Serving(s)
    ensures OnePerWorker(s) && Owed(s) == |s.workers|
  {
  }

  // ---- Close ends ----

  function Total(xs: seq<nat>): nat {
    if xs == [] then 0 else Total(xs[..|xs| - 1]) + xs[|xs| - 1]
  }

  lemma {:induction false} TotalUpdate(xs: seq<nat>, i: nat, x: nat)
    requires i < |xs|
    ensures Total(xs[i := x]) + xs[i] == Total(xs) + x
  {
    var n := |xs| - 1;
    if i < n {
      TotalUpdate(xs[..n], i, x);
      assert xs[i := x][..n] == xs[..n][i := x];
    } else {
      assert xs[i := x][..n] == xs[..n];
    }
  }

  /** What each worker still has to do: its queue, leaving, disconnecting. */
  function Work(queues: seq<seq<Message>>, workers: seq<WorkerState>): seq<nat>
    requires |queues| == |workers|
  {
    seq(|queues|, w requires 0 <= w < |queues| =>
      |queues[w]| + match workers[w] case Running => 2 case Leaving => 1 case Exited => 0)
  }

  function CloserSteps(c: Closer, n: nat): nat {
    match c
    case Unbinding(urls) => 6 + 4 * n + |urls|
    case Stopping(left) => 5 + n + 3 * left
    case Joining(next) => 3 + (if next < n then n - next else 0)
    case StoppingProxy => 2
    case ClosingSockets => 1
    case Done => 0
  }

  function StepsLeft(s: State): nat
    requires |s.queues| == |s.workers|
  {
    CloserSteps(s.closer, |s.workers|) + 2 * (s.stops + s.requests)
    + Total(Work(s.queues, s.workers)) + if s.live then 1 else 0
  }

  lemma {:induction false} WorkUpdate(queues: seq<seq<Message>>, workers: seq<WorkerState>, w: nat,
                                      queue: seq<Message>, worker: WorkerState)
    requires |queues| == |workers| && w < |workers|
    ensures Total(Work(queues[w := queue], workers[w := worker])) + Work(queues, workers)[w]
         == Total(Work(queues, workers)) + Work([queue], [worker])[0]
  {
    var x := Work([queue], [worker])[0];
    TotalUpdate(Work(queues, workers), w, x);
    assert Work(queues[w := queue], workers[w := worker]) == Work(queues, workers)[w := x];
  }

  lemma {:induction false} RouteDecreases(s: State, m: Message)
    requires |s.queues| == |s.workers| && s.ring != [] && s.ring[0] < |s.queues|
    ensures var t := Route(s, m);
            |t.queues| == |t.workers| && Total(Work(t.queues, t.workers)) == Total(Work(s.queues, s.workers)) + 1
  {
    var w := s.ring[0];
    assert s.workers[w := s.workers[w]] == s.workers;
    WorkUpdate(s.queues, s.workers, w, s.queues[w] + [m], s.workers[w]);
  }

  lemma {:induction false} StepDecreases(s: State, step: Step)
    requires |s.queues| == |s.workers| && Enabled(s, step) && step != Arrive
    ensures |Do(s, step).queues| == |Do(s, step).workers|
    ensures StepsLeft(Do(s, step)) < StepsLeft(s)
  {
    match step
    case RouteStop => RouteStepDecreases(s, step);
    case RouteRequest => RouteStepDecreases(s, step);
    case Process(w) => ProcessDecreases(s, w);
    case Disconnect(w) => DisconnectDecreases(s, w);
    case _ =>
  }

  lemma {:induction false} RouteStepDecreases(s: State, step: Step)
    requires |s.queues| == |s.workers| && Enabled(s, step) && (step == RouteStop || step == RouteRequest)
    ensures |Do(s, step).queues| == |Do(s, step).workers|
    ensures StepsLeft(Do(s, step)) < StepsLeft(s)
  {
    RouteDecreases(s, if step == RouteStop then Stop else Request);
  }

  lemma {:induction false} DisconnectDecreases(s: State, w: nat)
    requires |s.queues| == |s.workers| && Enabled(s, Disconnect(w))
    ensures StepsLeft(Do(s, Disconnect(w))) < StepsLeft(s)
  {
    assert s.queues[w := s.queues[w]] == s.queues;
    WorkUpdate(s.queues, s.workers, w, s.queues[w], Exited);
  }

  lemma {:induction false} ProcessDecreases(s: State, w: nat)
    requires |s.queues| == |s.workers| && Enabled(s, Process(w))
    ensures StepsLeft(Do(s, Process(w))) < StepsLeft(s)
  {
    assert s.workers[w := Running] == s.workers;
    WorkUpdate(s.queues, s.workers, w, s.queues[w][1..], if s.queues[w][0] == Stop then Leaving else Running);
  }

  /** While Close is not done and every unstopped worker is still owed a stop message, somebody can
      move: the closing thread, the proxy with a stop message, or a worker. */
  lemma {:induction false} CloseNeverBlocks(s: State) returns (step: Step)
    requires OnePerWorker(s) && !s.closer.Done?
    ensures Enabled(s, step) && Quiet(s, step) && step != Arrive
  {
    if Enabled(s, Close) {
      step := Close;
    } else {
      var w := s.closer.next;
      if s.workers[w] == Leaving {
        step := Disconnect(w);
      } else if s.queues[w] != [] {
        step := Process(w);
      } else {
        assert Unstopped(s, w);
        var i :| 0 <= i < |s.ring| && s.ring[i] == w;
        assert s.stops > 0;
        step := RouteStop;
      }
    }
  }

  ghost predicate AllQuiet(s: State, steps: seq<Step>)
    requires CanRun(s, steps)
    decreases |steps|
  {
    steps != [] ==> Quiet(s, steps[0]) && AllQuiet(Do(s, steps[0]), steps[1..])
  }

  ghost predicate NoArrivals(steps: seq<Step>) {
    forall i | 0 <= i < |steps| :: steps[i] != Arrive
  }

  /** Delivery.  However many workers, wherever the ring stands, whatever they have been handed, and
      however exits and routing interleave: if no request is handed out while some but not all of the
      connected workers are owed a stop message, then at any time as many workers are unstopped as stop
      messages are owed, so once the last has been handed out every worker has one or is gone. */
  lemma {:induction false} StopsReachEveryWorker(s: State, steps: seq<Step>)
    requires OnePerWorker(s) && CanRun(s, steps) && AllQuiet(s, steps)
    ensures var t := After(s, steps);
            && OnePerWorker(t)
            && (Owed(t) == 0 ==> forall w | 0 <= w < |t.workers| :: !Unstopped(t, w))
    decreases |steps|
  {
    if steps != [] {
      StepKeepsOnePerWorker(s, steps[0]);
      StopsReachEveryWorker(Do(s, steps[0]), steps[1..]);
    } else if Owed(s) == 0 {
      forall w | 0 <= w < |s.workers| ensures !Unstopped(s, w) {
        if s.workers[w] != Exited {
          var i :| 0 <= i < |s.ring| && s.ring[i] == w;
        }
      }
    }
  }

  /** Termination.  Under the same condition, without further arrivals, a run from a serving server is
      bounded, and where it can go no further Close has returned and every worker has exited. */
  lemma {:induction false} CloseTerminates(s: State, steps: seq<Step>)
    requires OnePerWorker(s) && CanRun(s, steps) && AllQuiet(s, steps) && NoArrivals(steps)
    ensures |steps| <= StepsLeft(s)
    ensures var t := After(s, steps);
            (forall step | step != Arrive && Quiet(t, step) :: !Enabled(t, step)) ==>
              t.closer.Done? && forall w | 0 <= w < |t.workers| :: t.workers[w] == Exited
    decreases |steps|
  {
    if steps == [] {
      if !s.closer.Done? {
        var step := CloseNeverBlocks(s);
      }
    } else {
      StepKeepsOnePerWorker(s, steps[0]);
      StepDecreases(s, steps[0]);
      CloseTerminates(Do(s, steps[0]), steps[1..]);
    }
  }

  // ---- When a worker gets none ----

  /** A worker that is unstopped when no stop message is owed any more. */
  predicate Forgotten(s: State, w: nat) {
    Unstopped(s, w) && Owed(s) == 0
  }

  lemma {:induction false} ForgottenForever(s: State, steps: seq<Step>, w: nat)
    requires Base(s) && Forgotten(s, w) && CanRun(s, steps)
    ensures Base(After(s, steps)) && Forgotten(After(s, steps), w)
    decreases |steps|
  {
    if steps != [] {
      StepKeepsForgotten(s, steps[0], w);
      ForgottenForever(Do(s, steps[0]), steps[1..], w);
    }
  }

  lemma {:induction false} StepKeepsForgotten(s: State, step: Step, w: nat)
    requires Base(s) && Forgotten(s, w) && Enabled(s, step)
    ensures Base(Do(s, step)) && Forgotten(Do(s, step), w)
  {
    StepKeepsBase(s, step);
    OwedStep(s, step);
    UnstoppedStep(s, step, w);
  }

  /** Exactly when.  Once the last stop message has been handed out, Close can still return, in some
      continuation, if and only if no worker was passed over; and then it does in every continuation
      that goes on for as long as it can (CloseTerminates). */
  lemma {:induction false} CloseReturnsIffNoneForgotten(s: State)
    requires Base(s) && Owed(s) == 0
    ensures (forall w | 0 <= w < |s.workers| :: !Unstopped(s, w)) <==> OnePerWorker(s)
    ensures (exists steps :: CanRun(s, steps) && After(s, steps).closer.Done?) <==> OnePerWorker(s)
  {
    assert (forall w | 0 <= w < |s.workers| :: !Unstopped(s, w)) <==> OnePerWorker(s) by {
      if OnePerWorker(s) {
        forall w | 0 <= w < |s.workers| ensures !Unstopped(s, w) {
          if s.workers[w] != Exited {
            var i :| 0 <= i < |s.ring| && s.ring[i] == w;
          }
        }
      }
    }
    if OnePerWorker(s) {
      var steps := RunToEnd(s);
    } else {
      var w :| 0 <= w < |s.workers| && Unstopped(s, w);
      forall steps | CanRun(s, steps) ensures !After(s, steps).closer.Done? {
        ForgottenForever(s, steps, w);
      }
    }
  }

  lemma {:induction false} RunToEnd(s: State) returns (steps: seq<Step>)
    requires OnePerWorker(s)
    ensures CanRun(s, steps) && After(s, steps).closer.Done?
    decreases StepsLeft(s)
  {
    if s.closer.Done? {
      steps := [];
    } else {
      var step := CloseNeverBlocks(s);
      StepKeepsOnePerWorker(s, step);
      StepDecreases(s, step);
      var rest := RunToEnd(Do(s, step));
      steps := [step] + rest;
      assert steps[1..] == rest;
    }
  }

  /** A request handed out keeps this match exactly when the step is quiet; at any other time it puts an
      unstopped worker behind its turn.  Further such requests may still bring that worker its turn: which
      runs reach every worker is the matter of StopTurns. */
  lemma {:induction false} QuietIsExact(s: State)
    requires OnePerWorker(s) && Enabled(s, RouteRequest)
    ensures OnePerWorker(Do(s, RouteRequest)) <==> Quiet(s, RouteRequest)
    ensures !Quiet(s, RouteRequest) ==> Skipped(Do(s, RouteRequest), |s.ring| - 1)
  {
    if Quiet(s, RouteRequest) {
      RouteKeepsOnePerWorker(s, RouteRequest);
    } else {
      var t, w := Do(s, RouteRequest), s.ring[0];
      assert Unstopped(s, w) && t.queues[w] == s.queues[w] + [Request];
      assert t.ring[|s.ring| - 1] == w && Unstopped(t, w);
    }
  }

  /** The worker at this place of the ring is unstopped, and too far back for the stop messages owed. */
  ghost predicate Skipped(s: State, at: nat) {
    at < |s.ring| && at >= Owed(s) && Unstopped(s, s.ring[at])
  }

  /** While stop messages are owed, nobody disconnects and no other request is handed out. */
  ghost predicate NoOtherTurn(s: State, steps: seq<Step>)
    requires CanRun(s, steps)
    decreases |steps|
  {
    steps != [] ==>
      && (Owed(s) > 0 ==> steps[0] != RouteRequest && !steps[0].Disconnect?)
      && NoOtherTurn(Do(s, steps[0]), steps[1..])
  }

  lemma {:induction false} StepKeepsSkipped(s: State, step: Step, at: nat) returns (next: nat)
    requires Base(s) && Skipped(s, at) && Enabled(s, step) && Owed(s) > 0
    requires step != RouteRequest && !step.Disconnect?
    ensures Skipped(Do(s, step), next)
  {
    next := if step == RouteStop then at - 1 else at;
    var t := Do(s, step);
    assert t.ring[next] == s.ring[at];
    if step == RouteStop {
      assert s.ring[at] != s.ring[0];
    }
  }

  /** For any number of workers: one request handed out between the first and the last stop message
      strands the worker that got it.  Unless a worker leaves the ring or a further request is handed out
      before the last stop message, that worker is never stopped and Close never returns. */
  lemma {:induction false} SkippedStrands(s: State, steps: seq<Step>, at: nat)
    requires Base(s) && Skipped(s, at) && CanRun(s, steps) && NoOtherTurn(s, steps)
    ensures !After(s, steps).closer.Done?
    decreases |steps|
  {
    if Owed(s) == 0 {
      ForgottenForever(s, steps, s.ring[at]);
    } else if steps != [] {
      var next := StepKeepsSkipped(s, steps[0], at);
      StepKeepsBase(s, steps[0]);
      SkippedStrands(Do(s, steps[0]), steps[1..], next);
    } else {
      var w := s.ring[at];
      assert w < |s.workers| && s.workers[w] != Exited;
    }
  }

  /** With one request between the stop messages a worker may get none: the first stop goes to worker 0,
      the request to worker 1, and the second stop to worker 0 again.  Close never returns. */
  lemma {:induction false} OneRequestBetween() returns (s: State, steps: seq<Step>)
    ensures Serving(s) && |s.workers| == 2 && s.requests == 1
    ensures CanRun(s, steps) && Forgotten(After(s, steps), 1)
    ensures forall more | CanRun(After(s, steps), more) :: !After(After(s, steps), more).closer.Done?
  {
    var up := [Running, Running];
    s := State(Unbinding([]), 0, 1, [0, 1], [[], []], up, false, true);
    var sent := State(Stopping(0), 2, 1, [0, 1], [[], []], up, false, true);
    var end := State(Stopping(0), 0, 0, [1, 0], [[Stop, Stop], [Request]], up, false, true);
    var sending := SendBoth(s, sent);
    var handing := HandOut(sent, end);
    steps := sending + handing;
    RunConcat(s, sending, handing);
    BothServing(s);
    RunKeepsBase(s, steps);
    NeverDone(end, 1);
  }

  lemma {:induction false} BothServing(s: State)
    requires s == State(Unbinding([]), 0, 1, [0, 1], [[], []], [Running, Running], false, true)
    ensures Serving(s) && Base(s)
  {
    assert s.ring[0] == 0 && s.ring[1] == 1;
  }

  lemma {:induction false} NeverDone(s: State, w: nat)
    requires Base(s) && Forgotten(s, w)
    ensures forall more | CanRun(s, more) :: !After(s, more).closer.Done?
  {
    forall more | CanRun(s, more) ensures !After(s, more).closer.Done? {
      ForgottenForever(s, more, w);
    }
  }

  lemma {:induction false} SendBoth(s: State, t: State) returns (steps: seq<Step>)
    requires s.closer == Unbinding([]) && |s.workers| == 2
    requires t == s.(closer := Stopping(0), stops := s.stops + 2)
    ensures CanRun(s, steps) && After(s, steps) == t
  {
    steps := [Close, Close, Close];
    var s1 := Do(s, Close);
    var s2 := Do(s1, Close);
    assert s1 == s.(closer := Stopping(2)) && s2 == s.(closer := Stopping(1), stops := s.stops + 1);
    assert Do(s2, Close) == t;
    RunCons(s2, Close, []);
    RunCons(s1, Close, [Close]);
    RunCons(s, Close, [Close, Close]);
  }

  lemma {:induction false} HandOut(s: State, t: State) returns (steps: seq<Step>)
    requires s.live && s.stops == 2 && s.requests == 1 && s.ring == [0, 1] && s.queues == [[], []]
    requires t == s.(stops := 0, requests := 0, ring := [1, 0], queues := [[Stop, Stop], [Request]])
    ensures CanRun(s, steps) && After(s, steps) == t
  {
    steps := [RouteStop, RouteRequest, RouteStop];
    var s1 := s.(stops := 1, ring := [1, 0], queues := [[Stop], []]);
    var s2 := s.(stops := 1, requests := 0, ring := [0, 1], queues := [[Stop], [Request]]);
    assert Do(s, RouteStop) == s1 by {
      assert s.queues[0] + [Stop] == [Stop];
      assert Do(s, RouteStop).ring == [1, 0] && Do(s, RouteStop).queues == [[Stop], []];
    }
    assert Do(s1, RouteRequest) == s2 by {
      assert s1.queues[1] + [Request] == [Request];
      assert Do(s1, RouteRequest).ring == [0, 1] && Do(s1, RouteRequest).queues == [[Stop], [Request]];
    }
    assert Do(s2, RouteStop) == t by {
      assert [Stop] + [Stop] == [Stop, Stop];
      assert Do(s2, RouteStop).ring == [1, 0] && Do(s2, RouteStop).queues == [[Stop, Stop], [Request]];
    }
    RunCons(s2, RouteStop, []);
    RunCons(s1, RouteRequest, [RouteStop]);
    RunCons(s, RouteStop, [RouteRequest, RouteStop]);
  }

  lemma {:induction false} RunConcat(s: State, a: seq<Step>, b: seq<Step>)
    requires CanRun(s, a) && CanRun(After(s, a), b)
    ensures CanRun(s, a + b) && After(s, a + b) == After(After(s, a), b)
    decreases |a|
  {
    if a == [] {
      assert a + b == b;
    } else {
      RunConcat(Do(s, a[0]), a[1..], b);
      assert a + b == [a[0]] + (a[1..] + b);
      RunCons(s, a[0], a[1..] + b);
    }
  }

  lemma {:induction false} RunCons(s: State, step: Step, rest: seq<Step>)
    requires Enabled(s, step) && CanRun(Do(s, step), rest)
    ensures CanRun(s, [step] + rest) && After(s, [step] + rest) == After(Do(s, step), rest)
  {
    assert ([step] + rest)[1..] == rest;
  }
}
