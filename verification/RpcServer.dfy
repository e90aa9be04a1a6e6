/** The server: the table of registered methods, and the order in which it starts and closes. */
module RpcServerClass {
  import opened Basics
  import opened Framing
  import opened ChannelState
  import opened RpcWorkerClass

  /** A service as its .proto file describes it. */
  datatype ServiceDescriptor = ServiceDescriptor(fullName: string, methodNames: seq<string>) {
    function FullName(i: nat): string
      requires i < |methodNames|
    {
      fullName + "." + methodNames[i]
    }
  }

  /** An implementation: its virtual functions, by name. */
  datatype Service = Service(descriptor: ServiceDescriptor, functions: map<string, RpcMethod>)

  // ---- Generated code ----

  datatype Case = Case(index: nat, name: string)

  datatype StubMethod = StubMethod(name: string, index: nat)

  /** GenerateCallMethod: the cases of the switch, in the order they are printed. */
  method GenerateCallMethod(d: ServiceDescriptor) returns (cases: seq<Case>)
    ensures cases == CallCases(d)
  {
    cases := [];
    for i := 0 to |d.methodNames|
      invariant cases == CallCases(d)[..i]
    {
      cases := cases + [Case(i, d.methodNames[i])];
    }
  }

  /** GenerateStubMethods: what each stub function passes to descriptor()->method. */
  method GenerateStubMethods(d: ServiceDescriptor) returns (stubs: seq<StubMethod>)
    ensures stubs == StubMethods(d)
  {
    stubs := [];
    for i := 0 to |d.methodNames|
      invariant stubs == StubMethods(d)[..i]
    {
      stubs := stubs + [StubMethod(d.methodNames[i], i)];
    }
  }

  function CallCases(d: ServiceDescriptor): seq<Case> {
    seq(|d.methodNames|, i requires 0 <= i < |d.methodNames| => Case(i, d.methodNames[i]))
  }

  function StubMethods(d: ServiceDescriptor): seq<StubMethod> {
    seq(|d.methodNames|, i requires 0 <= i < |d.methodNames| => StubMethod(d.methodNames[i], i))
  }

  /** Running a switch: the function named in the case of the index. */
  function Switch(cases: seq<Case>, index: nat): Option<string> {
    if cases == [] then None
    else if cases[0].index == index then Some(cases[0].name)
    else Switch(cases[1..], index)
  }

  /** Calling a stub function by name: the opcode it sends. */
  function StubOpcode(d: ServiceDescriptor, stubs: seq<StubMethod>, name: string): Option<string> {
    if stubs == [] then None
    else if stubs[0].name == name && stubs[0].index < |d.methodNames| then Some(d.FullName(stubs[0].index))
    else StubOpcode(d, stubs[1..], name)
  }

  // ---- Registration ----

  datatype Entry = Entry(service: Service, index: nat)

  type Table = map<string, Entry>

  /** Registering the methods of a service from the i-th on: a name that is taken keeps its owner. */
  function Registered(table: Table, service: Service, i: nat): Table
    requires i <= |service.descriptor.methodNames|
    decreases |service.descriptor.methodNames| - i
  {
    if i == |service.descriptor.methodNames| then table
    else
      var opcode := service.descriptor.FullName(i);
      Registered(if opcode in table then table else table[opcode := Entry(service, i)], service, i + 1)
  }

  function RegisteredAll(services: seq<Service>): Table {
    if services == [] then map[]
    else Registered(RegisteredAll(services[..|services| - 1]), services[|services| - 1], 0)
  }

  /** What a table entry runs: CallMethod switches on the index, and the case calls the function. */
  function Target(e: Entry): Option<RpcMethod> {
    match Switch(CallCases(e.service.descriptor), e.index)
    case Some(name) => if name in e.service.functions then Some(e.service.functions[name]) else None
    case None => None
  }

  function MethodsOf(table: Table): MethodMap {
    map opcode | opcode in table && Target(table[opcode]).Some? :: Target(table[opcode]).value
  }

  // ---- The class ----

  datatype Action =
    | Bind(url: string)
    | BindInternal
    | Spawn(worker: nat)
    | RunProxy
    | Unbind(url: string)
    | StopWorker(frames: Msg)
    | Join(worker: nat)
    | StopProxy
    | CloseSockets

  predicate Inproc(url: string) {
    |url| >= 6 && url[..6] == "inproc"
  }

  function Binds(urls: seq<string>): seq<Action> {
    if urls == [] then [] else [Bind(urls[0])] + Binds(urls[1..])
  }

  function Spawns(i: nat, n: nat): seq<Action>
    decreases n - i
  {
    if i >= n then [] else [Spawn(i)] + Spawns(i + 1, n)
  }

  /** What starting does, in order, with workers numbered on from those there are already. */
  function StartScript(urls: seq<string>, from: nat, to: nat): seq<Action> {
    Binds(urls) + [BindInternal] + Spawns(from, to) + [RunProxy]
  }

  function Unbinds(urls: seq<string>): seq<Action> {
    if urls == [] then []
    else (if Inproc(urls[0]) then [] else [Unbind(urls[0])]) + Unbinds(urls[1..])
  }

  function Stops(n: nat): seq<Action> {
    if n == 0 then [] else [StopWorker(["TERMINATE"])] + Stops(n - 1)
  }

  function Joins(i: nat, n: nat): seq<Action>
    decreases n - i
  {
    if i >= n then [] else [Join(i)] + Joins(i + 1, n)
  }

  /** What closing a started server with n workers does, in order. */
  function CloseScript(urls: seq<string>, n: nat): seq<Action> {
    Unbinds(urls) + (Stops(n) + (Joins(0, n) + [StopProxy, CloseSockets]))
  }

  /** What starting adds to the log, place by place: every endpoint, the internal sockets, every new worker,
      and the proxy behind them all. */
  ghost predicate StartedWith(added: seq<Action>, urls: seq<string>, from: nat, to: nat) {
    && from <= to && |added| == |urls| + 1 + (to - from) + 1
    && (forall i | 0 <= i < |urls| :: added[i] == Bind(urls[i]))
    && added[|urls|] == BindInternal
    && (forall i | |urls| < i < |added| - 1 :: added[i] == Spawn(from + (i - |urls| - 1)))
    && added[|added| - 1] == RunProxy
  }

  /** What closing a started server adds: every endpoint unbound unless it is inside the process, one stop
      message for each worker, each worker joined in turn, and then the proxy stopped. */
  ghost predicate ClosedWith(added: seq<Action>, urls: seq<string>, n: nat) {
    && |added| >= 2 * n + 2
    && var u := |added| - (2 * n + 2);
       && UnbindsOf(added[..u], urls)
       && (forall i | u <= i < u + n :: added[i] == StopWorker(["TERMINATE"]))
       && (forall i | u + n <= i < u + 2 * n :: added[i] == Join(i - (u + n)))
       && added[u + 2 * n] == StopProxy && added[u + 2 * n + 1] == CloseSockets
  }

  lemma {:induction false} BindsAt(urls: seq<string>)
    ensures |Binds(urls)| == |urls| && forall i | 0 <= i < |urls| :: Binds(urls)[i] == Bind(urls[i])
  {
    if urls != [] {
      BindsAt(urls[1..]);
    }
  }

  lemma {:induction false} SpawnsAt(i: nat, n: nat)
    requires i <= n
    ensures |Spawns(i, n)| == n - i && forall j | 0 <= j < n - i :: Spawns(i, n)[j] == Spawn(i + j)
    decreases n - i
  {
    if i < n {
      SpawnsAt(i + 1, n);
    }
  }

  lemma {:induction false} StartScriptIs(urls: seq<string>, from: nat, to: nat)
    requires from <= to
    ensures StartedWith(StartScript(urls, from, to), urls, from, to)
  {
    BindsAt(urls);
    SpawnsAt(from, to);
  }

  /** These are the endpoints to unbind: each as often as it was bound, and none inside the process. */
  ghost predicate UnbindsOf(unbinds: seq<Action>, urls: seq<string>) {
    && (forall i | 0 <= i < |unbinds| :: unbinds[i].Unbind?)
    && forall url :: multiset(unbinds)[Unbind(url)] == if "inproc" <= url then 0 else multiset(urls)[url]
  }

  lemma {:induction false} UnbindCount(urls: seq<string>, url: string)
    ensures multiset(Unbinds(urls))[Unbind(url)] == if "inproc" <= url then 0 else multiset(urls)[url]
  {
    if urls != [] {
      UnbindCount(urls[1..], url);
      assert urls == [urls[0]] + urls[1..];
    }
  }

  lemma {:induction false} OnlyUnbinds(urls: seq<string>)
    ensures forall i | 0 <= i < |Unbinds(urls)| :: Unbinds(urls)[i].Unbind?
  {
    if urls != [] {
      OnlyUnbinds(urls[1..]);
    }
  }

  lemma {:induction false} UnbindsAre(urls: seq<string>)
    ensures UnbindsOf(Unbinds(urls), urls)
  {
    OnlyUnbinds(urls);
    forall url ensures multiset(Unbinds(urls))[Unbind(url)] == if "inproc" <= url then 0 else multiset(urls)[url] {
      UnbindCount(urls, url);
    }
  }

  lemma {:induction false} StopsAt(n: nat)
    ensures |Stops(n)| == n && forall i | 0 <= i < n :: Stops(n)[i] == StopWorker(["TERMINATE"])
  {
    if n > 0 {
      StopsAt(n - 1);
    }
  }

  lemma {:induction false} JoinsAt(i: nat, n: nat)
    requires i <= n
    ensures |Joins(i, n)| == n - i && forall j | 0 <= j < n - i :: Joins(i, n)[j] == Join(i + j)
    decreases n - i
  {
    if i < n {
      JoinsAt(i + 1, n);
    }
  }

  lemma JoinsFromStart(n: nat)
    ensures |Joins(0, n)| == n && forall i | 0 <= i < n :: Joins(0, n)[i] == Join(i)
  {
    JoinsAt(0, n);
    forall i | 0 <= i < n ensures Joins(0, n)[i] == Join(i) {
      assert Joins(0, n)[i] == Join(0 + i);
    }
  }

  lemma {:induction false} CloseScriptIs(urls: seq<string>, n: nat)
    ensures ClosedWith(CloseScript(urls, n), urls, n)
  {
    UnbindsAre(urls);
    StopsAt(n);
    JoinsFromStart(n);
    FourParts(Unbinds(urls), Stops(n), Joins(0, n), [StopProxy, CloseSockets]);
    InPlace(CloseScript(urls, n), urls, n, Unbinds(urls), Stops(n), Joins(0, n));
  }

  lemma InPlace(script: seq<Action>, urls: seq<string>, n: nat, unbinds: seq<Action>, stops: seq<Action>,
                joins: seq<Action>)
    requires Parts(script, unbinds, stops, joins, [StopProxy, CloseSockets]) && |stops| == |joins| == n
    requires UnbindsOf(unbinds, urls)
    requires forall i | 0 <= i < n :: stops[i] == StopWorker(["TERMINATE"])
    requires forall i | 0 <= i < n :: joins[i] == Join(i)
    ensures ClosedWith(script, urls, n)
  {
    assert script[..|unbinds|] == unbinds;
  }

  ghost predicate Parts(all: seq<Action>, a: seq<Action>, b: seq<Action>, c: seq<Action>, d: seq<Action>) {
    && |all| == |a| + |b| + |c| + |d|
    && (forall i | 0 <= i < |a| :: all[i] == a[i])
    && (forall i | |a| <= i < |a| + |b| :: all[i] == b[i - |a|])
    && (forall i | |a| + |b| <= i < |a| + |b| + |c| :: all[i] == c[i - (|a| + |b|)])
    && (forall i | |a| + |b| + |c| <= i < |all| :: all[i] == d[i - (|a| + |b| + |c|)])
  }

  lemma FourParts(a: seq<Action>, b: seq<Action>, c: seq<Action>, d: seq<Action>)
    ensures Parts(a + (b + (c + d)), a, b, c, d)
  {
  }

  /** The order of a start: the proxy last and once, every socket bound before any worker is started, each
      new worker started once and no other. */
  lemma {:induction false} StartOrder(added: seq<Action>, urls: seq<string>, from: nat, to: nat)
    requires StartedWith(added, urls, from, to)
    ensures added[|added| - 1] == RunProxy && RunProxy !in added[..|added| - 1]
    ensures forall i, j | 0 <= i < |added| && 0 <= j < |added| && (added[i].Bind? || added[i].BindInternal?)
              && added[j].Spawn? :: i < j
    ensures forall w: nat :: Spawn(w) in added <==> from <= w < to
    ensures forall i, j | 0 <= i < j < |added| && added[i].Spawn? :: added[i] != added[j]
  {
    forall w | from <= w < to ensures Spawn(w) in added {
      assert added[|urls| + 1 + (w - from)] == Spawn(w);
    }
  }

  /** The order of a close: stop messages only behind the unbinds, joins behind every stop message, the
      proxy stopped behind every join. */
  lemma {:induction false} CloseOrder(added: seq<Action>, urls: seq<string>, n: nat)
    requires ClosedWith(added, urls, n)
    ensures forall i, j | 0 <= i < |added| && 0 <= j < |added| && added[i].Unbind? && added[j].StopWorker? :: i < j
    ensures forall i, j | 0 <= i < |added| && 0 <= j < |added| && added[i].StopWorker? && added[j].Join? :: i < j
    ensures forall i, j | 0 <= i < |added| && 0 <= j < |added| && added[i].Join? && added[j].StopProxy? :: i < j
    ensures forall i | 0 <= i < |added| :: added[i].StopWorker? ==>
              forall identity :: Terminates(Got([identity] + added[i].frames))
  {
    ClosePlaces(added, urls, n);
  }

  lemma {:induction false} ClosePlaces(added: seq<Action>, urls: seq<string>, n: nat)
    requires ClosedWith(added, urls, n)
    ensures var u := |added| - (2 * n + 2);
            forall i | 0 <= i < |added| ::
              && (added[i].Unbind? <==> i < u)
              && (added[i].StopWorker? <==> u <= i < u + n)
              && (added[i].Join? <==> u + n <= i < u + 2 * n)
              && (added[i].StopProxy? <==> i == u + 2 * n)
  {
  }

  class RpcServer {
    var rpc_method_map_: Table
    var rpc_bind_vec_: seq<string>
    var threads_: nat
    var started_: bool
    /** The calls made on sockets and threads. */
    ghost var log: seq<Action>

    constructor ()
      ensures rpc_method_map_ == map[] && rpc_bind_vec_ == [] && threads_ == 0 && !started_ && log == []
    {
      rpc_method_map_, rpc_bind_vec_, threads_, started_, log := map[], [], 0, false, [];
    }

    method EndPoint(url: string)
      modifies this`rpc_bind_vec_
      ensures rpc_bind_vec_ == old(rpc_bind_vec_) + [url]
    {
      rpc_bind_vec_ := rpc_bind_vec_ + [url];
    }

    method RegisterService(service: Service)
      modifies this`rpc_method_map_
      ensures rpc_method_map_ == Registered(old(rpc_method_map_), service, 0)
    {
      var n := |service.descriptor.methodNames|;
      for i := 0 to n
        invariant Registered(rpc_method_map_, service, i) == Registered(old(rpc_method_map_), service, 0)
      {
        var opcode := service.descriptor.FullName(i);
        if opcode !in rpc_method_map_ {
          rpc_method_map_ := rpc_method_map_[opcode := Entry(service, i)];
        }
      }
    }

    /** Start workers and run the proxy; the call returns when the proxy does. */
    method Start(threads: nat)
      modifies this`threads_, this`started_, this`log
      ensures started_ && threads_ == old(threads_) + threads
      ensures log == old(log) + StartScript(rpc_bind_vec_, old(threads_), threads_)
      ensures old(log) <= log && StartedWith(log[|old(log)|..], rpc_bind_vec_, old(threads_), threads_)
    {
      ghost var was := log;
      for i := 0 to |rpc_bind_vec_|
        invariant log + Binds(rpc_bind_vec_[i..]) == was + Binds(rpc_bind_vec_)
      {
        Associate(log, [Bind(rpc_bind_vec_[i])], Binds(rpc_bind_vec_[i + 1..]));
        log := log + [Bind(rpc_bind_vec_[i])];
      }
      ghost var bound := log;
      log := log + [BindInternal];
      started_ := true;
      ghost var ready, all := log, old(threads_) + threads;
      for i := 0 to threads
        invariant started_ && threads_ == old(threads_) + i
        invariant log + Spawns(threads_, all) == ready + Spawns(old(threads_), all)
      {
        Associate(log, [Spawn(threads_)], Spawns(threads_ + 1, all));
        log := log + [Spawn(threads_)];
        threads_ := threads_ + 1;
      }
      FullyStarted(was, bound, log, rpc_bind_vec_, old(threads_), all);
      log := log + [RunProxy];
    }

    lemma FullyStarted(was: seq<Action>, bound: seq<Action>, now: seq<Action>, urls: seq<string>, from: nat, to: nat)
      requires from <= to && bound + [] == was + Binds(urls) && now + [] == bound + [BindInternal] + Spawns(from, to)
      ensures now + [RunProxy] == was + StartScript(urls, from, to)
      ensures was <= now + [RunProxy] && StartedWith((now + [RunProxy])[|was|..], urls, from, to)
    {
      StartScriptIs(urls, from, to);
      assert bound == was + Binds(urls) && now == bound + [BindInternal] + Spawns(from, to);
      assert (now + [RunProxy])[|was|..] == StartScript(urls, from, to);
    }

    /** Endpoints inside the process cannot be unbound. */
    method UnbindFrontend(url: string)
      modifies this`log
      ensures log == old(log) + if Inproc(url) then [] else [Unbind(url)]
    {
      if !Inproc(url) {
        log := log + [Unbind(url)];
      }
    }

    method WorkerStop(nos: nat)
      modifies this`log
      ensures log == old(log) + Stops(nos)
    {
      for i := 0 to nos
        invariant log + Stops(nos - i) == old(log) + Stops(nos)
      {
        log := log + [StopWorker(["TERMINATE"])];
      }
    }

    /** Stop workers and proxy if started, and close the sockets in any case. */
    method Close()
      modifies this`started_, this`log
      ensures !started_
      ensures log == old(log) + if old(started_) then CloseScript(rpc_bind_vec_, threads_) else [CloseSockets]
      ensures old(log) <= log
      ensures if old(started_) then ClosedWith(log[|old(log)|..], rpc_bind_vec_, threads_)
              else log[|old(log)|..] == [CloseSockets]
    {
      if started_ {
        ghost var was := log;
        for i := 0 to |rpc_bind_vec_|
          invariant log + Unbinds(rpc_bind_vec_[i..]) == was + Unbinds(rpc_bind_vec_) && started_ == old(started_)
        {
          UnbindFrontend(rpc_bind_vec_[i]);
        }
        started_ := false;
        ghost var unbound := log;
        WorkerStop(threads_);
        ghost var stopped := log;
        for i := 0 to threads_
          invariant log + Joins(i, threads_) == stopped + Joins(0, threads_) && !started_
        {
          Associate(log, [Join(i)], Joins(i + 1, threads_));
        log := log + [Join(i)];
        }
        ghost var joined := log;
        log := log + [StopProxy];
        InSequence(was, Unbinds(rpc_bind_vec_), unbound, Stops(threads_), stopped, Joins(0, threads_), joined);
      }
      log := log + [CloseSockets];
      CloseAdded(old(started_), old(log), log, rpc_bind_vec_, threads_);
    }
  }

  lemma CloseAdded(started: bool, was: seq<Action>, log: seq<Action>, urls: seq<string>, n: nat)
    requires log == was + if started then CloseScript(urls, n) else [CloseSockets]
    ensures was <= log
    ensures if started then ClosedWith(log[|was|..], urls, n) else log[|was|..] == [CloseSockets]
  {
    CloseScriptIs(urls, n);
    assert log[|was|..] == if started then CloseScript(urls, n) else [CloseSockets];
  }

  lemma {:induction false} InSequence(was: seq<Action>, a: seq<Action>, wasA: seq<Action>, b: seq<Action>,
                                      wasB: seq<Action>,
                                      c: seq<Action>, wasC: seq<Action>)
    requires wasA == was + a && wasB == wasA + b && wasC == wasB + c
    ensures wasC + [StopProxy] + [CloseSockets] == was + (a + (b + (c + [StopProxy, CloseSockets])))
  {
  }

  // ---- Dispatch preserves meaning ----

  predicate DistinctNames(d: ServiceDescriptor) {
    forall i, j | 0 <= i < j < |d.methodNames| :: d.methodNames[i] != d.methodNames[j]
  }

  /** protoc accepts only identifiers as method names, and no two alike in one service. */
  predicate WellNamed(d: ServiceDescriptor) {
    DistinctNames(d) && forall i | 0 <= i < |d.methodNames| :: '.' !in d.methodNames[i]
  }

  predicate Owns(service: Service, opcode: string) {
    exists i :: 0 <= i < |service.descriptor.methodNames| && service.descriptor.FullName(i) == opcode
  }

  /** The service that was registered first among those that own a full name. */
  function Owner(services: seq<Service>, opcode: string): Option<Service> {
    if services == [] then None
    else if Owns(services[0], opcode) then Some(services[0])
    else Owner(services[1..], opcode)
  }

  lemma {:induction false} RegisteredEffect(table: Table, service: Service, i: nat, opcode: string)
    requires i <= |service.descriptor.methodNames|
    ensures var t := Registered(table, service, i);
            && (opcode in table ==> opcode in t && t[opcode] == table[opcode])
            && (opcode !in table && opcode in t ==>
                  && t[opcode].service == service && t[opcode].index < |service.descriptor.methodNames|
                  && service.descriptor.FullName(t[opcode].index) == opcode)
            && (opcode !in t ==> forall j | i <= j < |service.descriptor.methodNames| ::
                  service.descriptor.FullName(j) != opcode)
    decreases |service.descriptor.methodNames| - i
  {
    if i < |service.descriptor.methodNames| {
      var name := service.descriptor.FullName(i);
      RegisteredEffect(if name in table then table else table[name := Entry(service, i)], service, i + 1, opcode);
    }
  }

  /** The owner is the first service that owns the name; there is none only if no service does. */
  lemma {:induction false} OwnerIsFirst(services: seq<Service>, opcode: string) returns (i: nat)
    ensures i <= |services| && forall j | 0 <= j < i :: !Owns(services[j], opcode)
    ensures if i == |services| then Owner(services, opcode) == None
            else Owns(services[i], opcode) && Owner(services, opcode) == Some(services[i])
  {
    if services == [] || Owns(services[0], opcode) {
      i := 0;
    } else {
      var rest := OwnerIsFirst(services[1..], opcode);
      i := rest + 1;
    }
  }

  lemma {:induction false} OwnerOfMore(services: seq<Service>, last: Service, opcode: string)
    ensures Owner(services + [last], opcode)
         == if Owner(services, opcode).Some? then Owner(services, opcode)
            else if Owns(last, opcode) then Some(last) else None
  {
    if services == [] {
      assert services + [last] == [last];
    } else {
      OwnerOfMore(services[1..], last, opcode);
      assert (services + [last])[1..] == services[1..] + [last];
    }
  }

  /** The table holds exactly the owned names, each with its first owner and the position of the name. */
  lemma {:induction false} FirstOwnerWins(services: seq<Service>, opcode: string)
    ensures var t := RegisteredAll(services);
            && (opcode in t <==> Owner(services, opcode).Some?)
            && (opcode in t ==>
                  && Owner(services, opcode) == Some(t[opcode].service)
                  && t[opcode].index < |t[opcode].service.descriptor.methodNames|
                  && t[opcode].service.descriptor.FullName(t[opcode].index) == opcode)
  {
    if services != [] {
      var n := |services| - 1;
      FirstOwnerWins(services[..n], opcode);
      OwnerOfMore(services[..n], services[n], opcode);
      assert services == services[..n] + [services[n]];
      RegisteredEffect(RegisteredAll(services[..n]), services[n], 0, opcode);
    }
  }

  lemma {:induction false} SwitchFinds(cases: seq<Case>, at: nat)
    requires at < |cases| && forall i, j | 0 <= i < j < |cases| :: cases[i].index != cases[j].index
    ensures Switch(cases, cases[at].index) == Some(cases[at].name)
  {
    if at > 0 {
      SwitchFinds(cases[1..], at - 1);
    }
  }

  lemma {:induction false} StubFinds(d: ServiceDescriptor, stubs: seq<StubMethod>, at: nat)
    requires at < |stubs| && stubs[at].index < |d.methodNames|
    requires forall i, j | 0 <= i < j < |stubs| :: stubs[i].name != stubs[j].name
    ensures StubOpcode(d, stubs, stubs[at].name) == Some(d.FullName(stubs[at].index))
  {
    if at > 0 {
      StubFinds(d, stubs[1..], at - 1);
    }
  }

  /** What follows the last dot. */
  function LastPart(s: string): string {
    if s == "" || s[|s| - 1] == '.' then "" else LastPart(s[..|s| - 1]) + [s[|s| - 1]]
  }

  lemma {:induction false} LastPartOf(a: string, x: string)
    requires '.' !in x
    ensures LastPart(a + "." + x) == x
  {
    var s := a + "." + x;
    if x != "" {
      LastPartOf(a, x[..|x| - 1]);
      assert s[..|s| - 1] == a + "." + x[..|x| - 1];
    }
  }

  /** A full name splits at its last dot in one way only. */
  lemma {:induction false} SameSplit(a: string, x: string, b: string, y: string)
    requires '.' !in x && '.' !in y && a + "." + x == b + "." + y
    ensures a == b && x == y
  {
    LastPartOf(a, x);
    LastPartOf(b, y);
    assert (a + "." + x)[..|a|] == a && (b + "." + y)[..|b|] == b;
  }

  /** Calling the generated stub X of a service runs exactly the function X of the first registered
      service that owns the full name, through the stub's index, the opcode, the first-wins table, the
      worker's lookup and the generated switch; if nobody registered it, the answer says so. */
  lemma {:induction false} DispatchPreservesMeaning(d: ServiceDescriptor, at: nat, services: seq<Service>, data: string)
    requires WellNamed(d) && at < |d.methodNames|
    requires forall i | 0 <= i < |services| :: WellNamed(services[i].descriptor)
    requires forall i | 0 <= i < |services| ::
               forall n | n in services[i].descriptor.methodNames :: n in services[i].functions
    ensures StubOpcode(d, StubMethods(d), d.methodNames[at]) == Some(d.FullName(at))
    ensures var opcode := d.FullName(at);
            var answer := Execute(MethodsOf(RegisteredAll(services)), opcode, data);
            match Owner(services, opcode)
            case None => answer == ErrorAnswer(ZError(ZEC_NOSUCHMETHOD, ""))
            case Some(owner) =>
              && owner.descriptor.fullName == d.fullName
              && d.methodNames[at] in owner.functions
              && answer == Execute(map[opcode := owner.functions[d.methodNames[at]]], opcode, data)
              && TailByParts(map[opcode := owner.functions[d.methodNames[at]]], opcode, data, Encode(answer))
  {
    CodeText();
    var name, opcode := d.methodNames[at], d.FullName(at);
    assert StubMethods(d)[at] == StubMethod(name, at);
    StubFinds(d, StubMethods(d), at);
    FirstOwnerWins(services, opcode);
    var t := RegisteredAll(services);
    if opcode in t {
      var e := t[opcode];
      OwnerIsRegistered(services, opcode);
      var od := e.service.descriptor;
      SameSplit(od.fullName, od.methodNames[e.index], d.fullName, name);
      SwitchFinds(CallCases(od), e.index);
      assert CallCases(od)[e.index] == Case(e.index, name);
      assert name in od.methodNames;
      assert Target(e) == Some(e.service.functions[name]);
    }
  }

  lemma {:induction false} OwnerIsRegistered(services: seq<Service>, opcode: string)
    requires Owner(services, opcode).Some?
    ensures exists i :: 0 <= i < |services| && services[i] == Owner(services, opcode).value
  {
    if !Owns(services[0], opcode) {
      OwnerIsRegistered(services[1..], opcode);
      var i :| 0 <= i < |services[1..]| && services[1..][i] == Owner(services[1..], opcode).value;
      assert services[i + 1] == Owner(services, opcode).value;
    }
  }
}
