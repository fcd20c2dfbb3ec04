// Record and replay of a taskgraph, and the loops built on it.
module Taskgraph {
  import opened Wrappers
  import opened Traces
  import Accesses
  import opened Scheduler
  import opened Determinacy
  import opened Recording
  import opened Subprograms

  datatype Flags = Flags(reset: bool, if_: bool, nogroup: bool)

  // LOGGER_FATAL in coherence_checks
  datatype Fatal = Unsupported | OnlyGraphZero

  // Calls the construct makes into XKRT, and the host body.
  datatype Call = RecordStart | HostBody | RecordStop | Build | Optimize | Replay

  // The dependency graph is the tasks' accesses (nodes) and what each of them recorded;
  // cg is the optimized command graph, rc the number of times the construct was
  // encountered.
  datatype Graph = Graph(rc: nat, nodes: seq<seq<Accesses.Access>>, records: seq<seq<Command>>, cg: Program)

  const NEW_GRAPH := Graph(0, [], [], [])

  // ---- the XKRT contracts ----

  // Waiting for a program's tasks takes one of its complete runs (there always is one,
  // by Liveness.CompletesFrom); the last argument lets the run differ from one wait to
  // the next.
  ghost predicate Drains(drain: (Program, Mem, nat) -> seq<Action>) {
    forall p, m, k :: Complete(p, m, drain(p, m, k))
  }

  // Some complete run of the program from m ends in memory m'.
  ghost predicate EndsIn(p: Program, m: Mem, m': Mem) {
    exists acts :: Complete(p, m, acts) && Reach(p, m, acts).mem == m'
  }

  // The optimization passes keep the meaning of a graph.
  ghost predicate Optimizes(opt: Program -> Program) {
    forall p :: WellBehaved(p) ==> WellBehaved(opt(p)) && forall m :: ProgramOrder(opt(p), m) == ProgramOrder(p, m)
  }

  // ---- meaning ----

  // n runs of the same body, one after the other
  function Iterate(body: Program, n: nat, m: Mem): Mem {
    if n == 0 then m else ProgramOrder(body, Iterate(body, n - 1, m))
  }

  function Repeat(body: Program, n: nat): Program {
    if n == 0 then [] else Repeat(body, n - 1) + body
  }

  lemma {:induction false} ProgramOrderConcat(p: Program, q: Program, m: Mem)
    ensures ProgramOrder(p + q, m) == ProgramOrder(q, ProgramOrder(p, m))
  {
    if p == [] {
      assert p + q == q;
    } else {
      assert (p + q)[1..] == p[1..] + q;
      ProgramOrderConcat(p[1..], q, ApplySteps(p[0].steps, m));
    }
  }

  lemma {:induction false} RepeatIterates(body: Program, n: nat, m: Mem)
    ensures ProgramOrder(Repeat(body, n), m) == Iterate(body, n, m)
  {
    if n > 0 {
      RepeatIterates(body, n - 1, m);
      ProgramOrderConcat(Repeat(body, n - 1), body, m);
    }
  }

  lemma {:induction false} IterateSum(body: Program, a: nat, b: nat, m: Mem)
    ensures Iterate(body, b, Iterate(body, a, m)) == Iterate(body, a + b, m)
  {
    if b > 0 { IterateSum(body, a, b - 1, m); }
  }

  // ---- what may be recorded ----

  // Bodies keep to their items, peers commute, and a taskwait's task has no body.
  ghost predicate Recordable(p: Program) {
    WellBehaved(p) && WaitsAreEmpty(p)
  }

  lemma RecordableBehaves(p: Program)
    requires Recordable(p)
    ensures WellBehaved(p)
  {
  }

  // Where the commands of a graph come from in the recorded program.
  lemma {:induction false} CommandsArePicked(p: Program) returns (pos: seq<nat>)
    ensures PicksFrom(p, Commands(p), pos)
    decreases |p|
  {
    pos := [];
    if p != [] {
      var rest := CommandsArePicked(p[1..]);
      var later := seq(|rest|, i requires 0 <= i < |rest| => rest[i] + 1);
      pos := (if p[0].omp then [0] else []) + later;
      PickFromTail(p, Commands(p[1..]), rest, later);
    }
  }

  // What is picked from the tail is picked from the whole, one place later.
  lemma PickFromTail(p: Program, q: Program, rest: seq<nat>, later: seq<nat>)
    requires p != [] && PicksFrom(p[1..], q, rest)
    requires |later| == |rest| && forall i :: 0 <= i < |rest| ==> later[i] == rest[i] + 1
    ensures PicksFrom(p, q, later)
  {
  }

  // Leaving out the taskwaits, and dropping the waits, leaves a program well behaved.
  lemma CommandsBehave(p: Program)
    requires WellBehaved(p)
    ensures WellBehaved(Commands(p))
  {
    var pos := CommandsArePicked(p);
    PickBehaves(p, Commands(p), pos);
  }

  lemma {:induction false} RepeatPrefix(body: Program, k: nat, n: nat)
    requires k <= n
    ensures Repeat(body, k) <= Repeat(body, n)
    decreases n
  {
    if k < n {
      RepeatPrefix(body, k, n - 1);
    }
  }

  // Fewer copies of a body can be recorded if more can.
  lemma FewerBehave(body: Program, k: nat, n: nat)
    requires k <= n && Recordable(Repeat(body, n))
    ensures Recordable(Repeat(body, k))
  {
    hide WellBehaved;
    RepeatPrefix(body, k, n);
    BeginningBehaves(Repeat(body, n), Repeat(body, k));
    assert forall i :: 0 <= i < |Repeat(body, k)| ==> Repeat(body, k)[i] == Repeat(body, n)[i];
  }

  lemma DrainIsProgramOrder(drain: (Program, Mem, nat) -> seq<Action>, p: Program, m: Mem, k: nat)
    requires Drains(drain) && WellBehaved(p)
    ensures Complete(p, m, drain(p, m, k)) && Reach(p, m, drain(p, m, k)).mem == ProgramOrder(p, m)
  {
    EveryScheduleIsProgramOrder(p, m, drain(p, m, k));
  }

  lemma OptimizedIsProgramOrder(opt: Program -> Program, p: Program)
    requires Optimizes(opt) && Recordable(p)
    ensures WellBehaved(opt(Commands(p)))
    ensures forall m :: ProgramOrder(opt(Commands(p)), m) == ProgramOrder(p, m)
  {
    hide WellBehaved;
    CommandsBehave(p);
    forall m ensures ProgramOrder(opt(Commands(p)), m) == ProgramOrder(p, m) {
      CommandsProgramOrder(p, m);
    }
  }

  // ---- the construct ----

  // What the p-th encounter of a graph asks of the runtime.
  function PassCalls(p: nat, bodies: nat): seq<Call> {
    if p == 1 then [RecordStart] + seq(bodies, _ => HostBody) + [RecordStop]
    else if p == 2 then [Build, Optimize, Replay]
    else [Replay]
  }

  function CallsOf(from: nat, passes: nat, bodies: nat): seq<Call> {
    if passes == 0 then [] else CallsOf(from, passes - 1, bodies) + PassCalls(from + passes, bodies)
  }

  function CountCalls(s: seq<Call>, c: Call): nat {
    if s == [] then 0 else (if s[0] == c then 1 else 0) + CountCalls(s[1..], c)
  }

  lemma {:induction false} CountConcat(s: seq<Call>, t: seq<Call>, c: Call)
    ensures CountCalls(s + t, c) == CountCalls(s, c) + CountCalls(t, c)
  {
    if s == [] {
      assert s + t == t;
    } else {
      assert (s + t)[1..] == s[1..] + t;
      CountConcat(s[1..], t, c);
    }
  }

  lemma {:induction false} CountBodies(n: nat, c: Call)
    ensures CountCalls(seq(n, _ => HostBody), c) == if c == HostBody then n else 0
  {
    if n > 0 {
      assert seq(n, _ => HostBody)[1..] == seq(n - 1, _ => HostBody);
      CountBodies(n - 1, c);
    }
  }

  lemma FirstPassCounts(bodies: nat, c: Call)
    ensures CountCalls(PassCalls(1, bodies), c)
         == if c == HostBody then bodies else if c == RecordStart || c == RecordStop then 1 else 0
  {
    var run := seq(bodies, _ => HostBody);
    CountBodies(bodies, c);
    CountConcat([RecordStart] + run, [RecordStop], c);
    CountConcat([RecordStart], run, c);
  }

  lemma LaterPassCounts(p: nat, bodies: nat, c: Call)
    requires p >= 2
    ensures CountCalls(PassCalls(p, bodies), c)
         == if c == Replay then 1 else if p == 2 && (c == Build || c == Optimize) then 1 else 0
  {
    assert [Build, Optimize, Replay] == [Build] + ([Optimize] + [Replay]);
    CountConcat([Build], [Optimize] + [Replay], c);
    CountConcat([Optimize], [Replay], c);
  }

  // Over any number of encounters of a new graph, the body is recorded once, the
  // command graph is built and optimized once, and every later encounter replays.
  lemma {:induction false} CallCounts(passes: nat, bodies: nat, c: Call)
    ensures CountCalls(CallsOf(0, passes, bodies), c) ==
      match c
      case RecordStart => if passes == 0 then 0 else 1
      case HostBody => if passes == 0 then 0 else bodies
      case RecordStop => if passes == 0 then 0 else 1
      case Build => if passes < 2 then 0 else 1
      case Optimize => if passes < 2 then 0 else 1
      case Replay => if passes == 0 then 0 else passes - 1
  {
    if passes > 0 {
      CallCounts(passes - 1, bodies, c);
      CountConcat(CallsOf(0, passes - 1, bodies), PassCalls(passes, bodies), c);
      if passes == 1 { FirstPassCounts(bodies, c); } else { LaterPassCounts(passes, bodies, c); }
    }
  }

  // The graph is built and optimized before it is first replayed.
  lemma {:induction false} BuiltBeforeReplay(passes: nat, bodies: nat, i: nat)
    requires i < |CallsOf(0, passes, bodies)| && CallsOf(0, passes, bodies)[i] == Replay
    ensures exists b, o :: 0 <= b < o < i && CallsOf(0, passes, bodies)[b] == Build
                           && CallsOf(0, passes, bodies)[o] == Optimize
  {
    var before, now := CallsOf(0, passes - 1, bodies), PassCalls(passes, bodies);
    if i < |before| {
      BuiltBeforeReplay(passes - 1, bodies, i);
      var b, o :| 0 <= b < o < i && before[b] == Build && before[o] == Optimize;
      assert CallsOf(0, passes, bodies)[b] == Build && CallsOf(0, passes, bodies)[o] == Optimize;
    } else if passes == 2 {
      assert CallsOf(0, 2, bodies)[|before|] == Build && CallsOf(0, 2, bodies)[|before| + 1] == Optimize;
    } else {
      var b, o := SecondPassBuilds(passes - 1, bodies);
      assert CallsOf(0, passes, bodies)[b] == Build && CallsOf(0, passes, bodies)[o] == Optimize;
    }
  }

  lemma {:induction false} SecondPassBuilds(passes: nat, bodies: nat) returns (b: nat, o: nat)
    requires passes >= 2
    ensures b < o < |CallsOf(0, passes, bodies)|
    ensures CallsOf(0, passes, bodies)[b] == Build && CallsOf(0, passes, bodies)[o] == Optimize
  {
    var before := CallsOf(0, passes - 1, bodies);
    if passes == 2 {
      assert CallsOf(0, passes, bodies) == before + [Build, Optimize, Replay];
      b, o := |before|, |before| + 1;
    } else {
      b, o := SecondPassBuilds(passes - 1, bodies);
    }
  }

  // coherence_checks: no clause is supported, and only graph 0.
  predicate Accepts(graphId: int, flags: Flags) {
    !flags.reset && !flags.if_ && !flags.nogroup && graphId == 0
  }

  // An unroll factor of 0 means 1.
  function AtLeastOne(unroll: nat): (u: nat)
    ensures u > 0 && (unroll > 0 ==> u == unroll) && (unroll == 0 ==> u == 1)
  {
    if unroll == 0 then 1 else unroll
  }

  // Epilogues that leave memory alone.
  ghost predicate Neutral(epilogue: (nat, nat, Mem) -> Mem) {
    forall i, d, m :: epilogue(i, d, m) == m
  }

  // The memory after k instances, each of which runs program `inst`, and their epilogues.
  function AfterInstances(epilogue: (nat, nat, Mem) -> Mem, inst: Program, unroll: nat, k: nat, m: Mem): Mem {
    if k == 0 then m
    else epilogue(k - 1, k * unroll,
                  ProgramOrder(inst, AfterInstances(epilogue, inst, unroll, k - 1, m)))
  }

  // The loop condition holds before each of the first k instances and fails then.
  ghost predicate StopsAfter(cond: (nat, Mem) -> bool, epilogue: (nat, nat, Mem) -> Mem, inst: Program,
                             unroll: nat, k: nat, m: Mem)
  {
    && (forall i: nat :: i < k ==> cond(i * unroll, AfterInstances(epilogue, inst, unroll, i, m)))
    && !cond(k * unroll, AfterInstances(epilogue, inst, unroll, k, m))
  }

  lemma StopsHere(cond: (nat, Mem) -> bool, epilogue: (nat, nat, Mem) -> Mem, inst: Program,
                  unroll: nat, k: nat, i: nat, m: Mem)
    requires StopsAfter(cond, epilogue, inst, unroll, k, m) && i <= k
    ensures cond(i * unroll, AfterInstances(epilogue, inst, unroll, i, m)) <==> i < k
  {
  }

  function Trips(unroll: nat, k: nat): seq<(nat, nat)> {
    if k == 0 then [] else Trips(unroll, k - 1) + [(k - 1, k * unroll)]
  }

  // Epilogue call number i, counted from 0, is told its number and the iterations issued.
  lemma {:induction false} TripsAt(unroll: nat, k: nat)
    ensures |Trips(unroll, k)| == k
    ensures forall i :: 0 <= i < k ==> Trips(unroll, k)[i] == (i, (i + 1) * unroll)
  {
    if k > 0 { TripsAt(unroll, k - 1); }
  }

  // The instances and epilogue calls of a loop, one after the other.
  function RunTrips(epilogue: (nat, nat, Mem) -> Mem, inst: Program, trips: seq<(nat, nat)>, m: Mem): Mem {
    if trips == [] then m
    else RunTrips(epilogue, inst, trips[1..], epilogue(trips[0].0, trips[0].1, ProgramOrder(inst, m)))
  }

  lemma {:induction false} RunTripsAppend(epilogue: (nat, nat, Mem) -> Mem, inst: Program,
                                          trips: seq<(nat, nat)>, t: (nat, nat), m: Mem)
    ensures RunTrips(epilogue, inst, trips + [t], m)
         == epilogue(t.0, t.1, ProgramOrder(inst, RunTrips(epilogue, inst, trips, m)))
    decreases |trips|
  {
    if trips == [] {
      assert [] + [t] == [t] && [t][1..] == [];
    } else {
      assert (trips + [t])[1..] == trips[1..] + [t];
      RunTripsAppend(epilogue, inst, trips[1..], t, epilogue(trips[0].0, trips[0].1, ProgramOrder(inst, m)));
    }
  }

  // The memory after a loop is that of its instances, each followed by its epilogue call.
  lemma {:induction false} InstancesFollowTrips(epilogue: (nat, nat, Mem) -> Mem, inst: Program, unroll: nat, k: nat,
                                                m: Mem)
    ensures AfterInstances(epilogue, inst, unroll, k, m) == RunTrips(epilogue, inst, Trips(unroll, k), m)
  {
    if k > 0 {
      InstancesFollowTrips(epilogue, inst, unroll, k - 1, m);
      RunTripsAppend(epilogue, inst, Trips(unroll, k - 1), (k - 1, k * unroll), m);
    }
  }

  // What the loop's bookkeeping amounts to before the first and after one more trip.
  lemma TripByTrip(epilogue: (nat, nat, Mem) -> Mem, inst: Program, unroll: nat, from: nat, k: nat, m: Mem)
    ensures AfterInstances(epilogue, inst, unroll, 0, m) == m
    ensures Trips(unroll, 0) == [] && CallsOf(from, 0, unroll) == []
    ensures (k + 1) * unroll == k * unroll + unroll
    ensures epilogue(k, k * unroll + unroll, ProgramOrder(inst, AfterInstances(epilogue, inst, unroll, k, m)))
         == AfterInstances(epilogue, inst, unroll, k + 1, m)
    ensures Trips(unroll, k + 1) == Trips(unroll, k) + [(k, k * unroll + unroll)]
    ensures CallsOf(from, k + 1, unroll) == CallsOf(from, k, unroll) + PassCalls(from + k + 1, unroll)
  {
  }

  // The loop condition of pragma_omp_taskgraphloop_n
  function Below(n: nat): (nat, Mem) -> bool {
    (d: nat, m: Mem) => d < n
  }

  // With the condition d < n the loop stops at the first multiple of unroll not below
  // n, so it overshoots by at most unroll - 1 iterations.
  lemma Overshoot(epilogue: (nat, nat, Mem) -> Mem, inst: Program, unroll: nat, n: nat, k: nat, m: Mem)
    requires unroll > 0
    ensures StopsAfter(Below(n), epilogue, inst, unroll, k, m) <==> n <= k * unroll < n + unroll
  {
    if StopsAfter(Below(n), epilogue, inst, unroll, k, m) {
      if k > 0 {
        assert Below(n)((k - 1) * unroll, AfterInstances(epilogue, inst, unroll, k - 1, m));
        assert (k - 1) * unroll == k * unroll - unroll;
      }
    }
    if n <= k * unroll < n + unroll {
      forall i: nat | i < k ensures i * unroll < n {
        assert (i + 1) * unroll <= k * unroll by { Times(i + 1, k, unroll); }
        assert (i + 1) * unroll == i * unroll + unroll;
      }
    }
  }

  // Whole recorded instances in n iterations, and the iterations left over.
  function Instances(n: nat, unroll: nat): nat
    requires unroll > 0
  {
    n / unroll
  }

  function Remainder(n: nat, unroll: nat): nat
    requires unroll > 0
  {
    n % unroll
  }

  lemma WholeInstances(n: nat, unroll: nat)
    requires unroll > 0
    ensures Instances(n, unroll) * unroll + Remainder(n, unroll) == n && Remainder(n, unroll) < unroll
    ensures n >= unroll <==> Instances(n, unroll) > 0
  {
  }

  lemma Times(a: nat, b: nat, c: nat)
    requires a <= b
    ensures a * c <= b * c
  {
  }

  // Epilogues that leave memory alone leave k * unroll iterations of the body.
  lemma {:induction false} InstancesIterate(epilogue: (nat, nat, Mem) -> Mem, body: Program,
                                            unroll: nat, k: nat, m: Mem)
    requires Neutral(epilogue)
    ensures AfterInstances(epilogue, Repeat(body, unroll), unroll, k, m) == Iterate(body, k * unroll, m)
  {
    if k > 0 {
      InstancesIterate(epilogue, body, unroll, k - 1, m);
      RepeatIterates(body, unroll, Iterate(body, (k - 1) * unroll, m));
      IterateSum(body, (k - 1) * unroll, unroll, m);
      assert (k - 1) * unroll + unroll == k * unroll;
    }
  }

  // The whole instances and the iterations left over are n iterations.
  lemma ExactTripCount(epilogue: (nat, nat, Mem) -> Mem, body: Program, unroll: nat, n: nat, m: Mem)
    requires unroll > 0 && Neutral(epilogue)
    ensures ProgramOrder(Repeat(body, Remainder(n, unroll)),
                         AfterInstances(epilogue, Repeat(body, unroll), unroll, Instances(n, unroll), m))
         == Iterate(body, n, m)
  {
    hide Iterate, Repeat, ProgramOrder, AfterInstances;
    var done, rest := Instances(n, unroll) * unroll, Remainder(n, unroll);
    WholeInstances(n, unroll);
    hide Instances, Remainder;
    InstancesIterate(epilogue, body, unroll, Instances(n, unroll), m);
    RepeatIterates(body, rest, Iterate(body, done, m));
    IterateSum(body, done, rest, m);
  }

  class Runtime {
    const drain: (Program, Mem, nat) -> seq<Action>
    const opt: Program -> Program
    const closureOf: TaskDef -> Closure
    var mem: Mem                  // memory as of the last wait
    var pending: Program          // tasks the host submitted since
    var waits: nat
    var graphs: map<int, Graph>
    var log: seq<Call>

    constructor (drain: (Program, Mem, nat) -> seq<Action>, opt: Program -> Program,
                 closureOf: TaskDef -> Closure, m: Mem)
      requires Drains(drain) && Optimizes(opt)
      ensures Valid() && mem == m && pending == [] && graphs == map[] && log == []
    {
      this.drain, this.opt, this.closureOf := drain, opt, closureOf;
      mem, pending, waits, graphs, log := m, [], 0, map[], [];
    }

    ghost predicate Valid()
      reads this
    {
      Drains(drain) && Optimizes(opt)
    }

    function GraphOf(graphId: int): Graph
      reads this
    {
      if graphId in graphs then graphs[graphId] else NEW_GRAPH
    }

    function Closures(p: Program): seq<Closure>
      reads this
    {
      seq(|p|, i requires 0 <= i < |p| reads this => closureOf(p[i]))
    }

    // The graph is new, or holds the recording of this program.
    ghost predicate Holds(graphId: int, held: Program)
      reads this
    {
      var g := GraphOf(graphId);
      g.rc == 0 || (Recordable(held) && g.nodes == Nodes(held) && Recorded(held, g.records)
                    && (g.rc >= 2 ==> g.cg == opt(Commands(held))))
    }

    // What an encounter with this body runs: a graph that holds a recording replays that.
    function Runs(graphId: int, body: Program, held: Program): Program
      reads this
    {
      if GraphOf(graphId).rc == 0 then body else held
    }

    // The user's body: submits its tasks.
    method RunBody(body: Program)
      modifies this`pending, this`log
      ensures pending == old(pending) + body && log == old(log) + [HostBody]
    {
      pending := pending + body;
      log := log + [HostBody];
    }

    // taskwait: the submitted tasks complete in some run XKRT chose.
    method Wait()
      requires Valid()
      modifies this`mem, this`pending, this`waits
      ensures EndsIn(old(pending), old(mem), mem) && pending == []
      ensures WellBehaved(old(pending)) ==> mem == ProgramOrder(old(pending), old(mem))
    {
      hide WellBehaved;
      var acts := drain(pending, mem, waits);
      assert Complete(pending, mem, acts);
      if WellBehaved(pending) {
        DrainIsProgramOrder(drain, pending, mem, waits);
      }
      mem, pending, waits := Reach(pending, mem, acts).mem, [], waits + 1;
    }

    method Begin(graphId: int, flags: Flags, ghost held: Program) returns (r: Result<nat, Fatal>)
      requires Valid() && pending == [] && Holds(graphId, held)
      modifies this`mem, this`waits, this`graphs, this`log
      ensures r.Err? <==> !Accepts(graphId, flags)
      ensures r == Err(Unsupported) <==> flags.reset || flags.if_ || flags.nogroup
      ensures r == Err(OnlyGraphZero) <==> !flags.reset && !flags.if_ && !flags.nogroup && graphId != 0
      ensures r.Err? ==> mem == old(mem) && graphs == old(graphs) && log == old(log)
      ensures r.Ok? ==>
        && r.value == old(GraphOf(graphId).rc) + 1 == GraphOf(graphId).rc
        && graphs.Keys == old(graphs).Keys + {graphId}
        && (r.value == 1 ==> mem == old(mem) && log == old(log) + [RecordStart])
        && (r.value > 1 ==> mem == ProgramOrder(held, old(mem)) && Holds(graphId, held)
                            && log == old(log) + PassCalls(r.value, 0))
    {
      hide Drains, Optimizes, WellBehaved, Recorded, ProgramOrder, Complete, Commands;
      if flags.reset || flags.if_ || flags.nogroup { return Err(Unsupported); }
      if graphId != 0 { return Err(OnlyGraphZero); }
      var g := GraphOf(graphId);
      g := g.(rc := g.rc + 1);
      if g.rc == 1 {
        log := log + [RecordStart];
      } else {
        OptimizedIsProgramOrder(opt, held);
        if g.rc == 2 {
          GraphIsCommands(held, g.records);
          g := g.(cg := opt(CommandGraph(g.nodes, g.records)));
          log := log + [Build, Optimize];
        }
        assert g.cg == opt(Commands(held));
        DrainIsProgramOrder(drain, g.cg, mem, waits);
        mem, waits := Reach(g.cg, mem, drain(g.cg, mem, waits)).mem, waits + 1;
        log := log + [Replay];
      }
      graphs := graphs[graphId := g];
      r := Ok(g.rc);
    }

    // The first encounter waits for the submitted tasks, each of which records its
    // command as its body completes, in whatever order that happens.
    method End(graphId: int)
      requires Valid() && graphId in graphs && (graphs[graphId].rc == 1 ==> WellBehaved(pending))
      modifies this`mem, this`pending, this`waits, this`graphs, this`log
      ensures graphs.Keys == old(graphs).Keys
      ensures graphs[graphId].rc == old(graphs[graphId].rc)
      ensures old(graphs[graphId].rc) == 1 ==>
        && graphs[graphId].nodes == Nodes(old(pending)) && Recorded(old(pending), graphs[graphId].records)
        && FromSomeRun(old(pending), Closures(old(pending)), old(mem), graphs[graphId].records)
        && mem == ProgramOrder(old(pending), old(mem)) && pending == [] && log == old(log) + [RecordStop]
      ensures old(graphs[graphId].rc) != 1 ==>
        graphs == old(graphs) && pending == old(pending) && mem == old(mem) && log == old(log)
    {
      hide Optimizes, WellBehaved, Complete, Recorded, ProgramOrder, RecordsOf;
      if graphs[graphId].rc == 1 {
        DrainIsProgramOrder(drain, pending, mem, waits);
        var acts := drain(pending, mem, waits);
        var end, records := RecordPass(pending, Closures(pending), mem, acts);
        graphs := graphs[graphId := graphs[graphId].(nodes := Nodes(pending), records := records)];
        mem, pending, waits := end, [], waits + 1;
        log := log + [RecordStop];
        assert Closures(old(pending)) == old(Closures(pending));
        assert Complete(old(pending), old(mem), acts)
               && graphs[graphId].records == RecordsOf(old(pending), Closures(old(pending)), old(mem), acts);
      }
    }

    // One encounter of pragma_omp_taskgraph has the effect of running its body, whether it
    // records or replays, exactly when the graph is new or what it holds has that effect.
    method PragmaTaskgraph(graphId: int, flags: Flags, body: Program, ghost held: Program)
      returns (r: Result<(), Fatal>)
      requires Valid() && pending == [] && Holds(graphId, held) && Recordable(body)
      modifies this
      ensures Valid()
      ensures r.Err? <==> !Accepts(graphId, flags)
      ensures r.Err? ==> mem == old(mem) && graphs == old(graphs) && log == old(log) && pending == []
      ensures r.Ok? ==>
        && mem == ProgramOrder(old(Runs(graphId, body, held)), old(mem)) && pending == []
        && GraphOf(graphId).rc == old(GraphOf(graphId).rc) + 1 && Holds(graphId, old(Runs(graphId, body, held)))
        && log == old(log) + PassCalls(GraphOf(graphId).rc, 1)
      ensures r.Ok? ==>
        (mem == ProgramOrder(body, old(mem)) <==>
           old(GraphOf(graphId)).rc == 0 || ProgramOrder(held, old(mem)) == ProgramOrder(body, old(mem)))
    {
      hide Drains, Optimizes, Recordable, Recorded, FromSomeRun, ProgramOrder, Commands, Nodes;
      var begun := Begin(graphId, flags, held);
      if begun.Err? { return Err(begun.error); }
      if begun.value == 1 {
        RunBody(body);
        assert [] + body == body;
        RecordableBehaves(body);
      }
      End(graphId);
      assert seq(1, _ => HostBody) == [HostBody];
      r := Ok(());
    }

    // Encountering the construct k times, as its users do, is k runs of the body:
    // one recorded, the others replayed from a graph built and optimized once.
    method EncounterTimes(body: Program, k: nat)
      requires Valid() && pending == [] && GraphOf(0) == NEW_GRAPH && Recordable(body)
      modifies this
      ensures mem == Iterate(body, k, old(mem)) && pending == []
      ensures log == old(log) + CallsOf(0, k, 1)
    {
      hide Drains, Optimizes, Recordable;
      for i := 0 to k
        invariant Valid() && pending == [] && Holds(0, body) && GraphOf(0).rc == i
        invariant mem == Iterate(body, i, old(mem))
        invariant log == old(log) + CallsOf(0, i, 1)
      {
        var _ := PragmaTaskgraph(0, Flags(false, false, false), body, body);
      }
    }

    // One trip of pragma_omp_taskgraphloop: record unroll copies of the body, or
    // replay what the graph holds.
    method Instance(graphId: int, flags: Flags, unroll: nat, body: Program, ghost held: Program)
      returns (r: Result<(), Fatal>)
      requires Valid() && pending == [] && Holds(graphId, held) && Recordable(Repeat(body, unroll))
      modifies this
      ensures Valid()
      ensures r.Err? <==> !Accepts(graphId, flags)
      ensures r.Err? ==> mem == old(mem) && graphs == old(graphs) && log == old(log) && pending == []
      ensures r.Ok? ==>
        var inst := old(Runs(graphId, Repeat(body, unroll), held));
        && mem == ProgramOrder(inst, old(mem)) && pending == []
        && GraphOf(graphId).rc == old(GraphOf(graphId).rc) + 1 && Holds(graphId, inst)
        && log == old(log) + PassCalls(GraphOf(graphId).rc, unroll)
    {
      hide Drains, Optimizes, Recordable, Recorded, FromSomeRun, ProgramOrder, Commands, Nodes;
      var begun := Begin(graphId, flags, held);
      if begun.Err? { return Err(begun.error); }
      if begun.value == 1 {
        ghost var started := log;
        for u := 0 to unroll
          invariant pending == Repeat(body, u) && log == started + seq(u, _ => HostBody)
          invariant mem == old(mem) && graphId in graphs && graphs[graphId].rc == 1 && Valid()
        {
          RunBody(body);
        }
        RecordableBehaves(Repeat(body, unroll));
      }
      End(graphId);
      r := Ok(());
    }

    // pragma_omp_taskgraphloop. `stop` witnesses that the condition eventually fails
    // on an instance boundary; trips are the epilogue calls made.
    method PragmaTaskgraphLoop(graphId: int, flags: Flags, unroll0: nat, cond: (nat, Mem) -> bool,
                               epilogue: (nat, nat, Mem) -> Mem, body: Program,
                               ghost stop: nat, ghost held: Program)
      returns (r: Result<nat, Fatal>, trips: seq<(nat, nat)>)
      requires Valid() && pending == [] && Holds(graphId, held)
      requires var unroll := AtLeastOne(unroll0);
        && Recordable(Repeat(body, unroll))
        && StopsAfter(cond, epilogue, Runs(graphId, Repeat(body, unroll), held), unroll, stop, mem)
      modifies this
      ensures Valid() && pending == []
      ensures r.Err? <==> stop > 0 && !Accepts(graphId, flags)
      ensures r.Ok? ==>
        var unroll := AtLeastOne(unroll0);
        var inst := old(Runs(graphId, Repeat(body, unroll), held));
        && r.value == stop * unroll && trips == Trips(unroll, stop)
        && mem == AfterInstances(epilogue, inst, unroll, stop, old(mem))
        && Holds(graphId, inst) && GraphOf(graphId).rc == old(GraphOf(graphId).rc) + stop
        && log == old(log) + CallsOf(old(GraphOf(graphId).rc), stop, unroll)
    {
      hide Drains, Optimizes, Recordable, StopsAfter, Iterate, Repeat, AfterInstances, ProgramOrder;
      hide Trips, CallsOf, PassCalls, Recorded, Commands, Nodes;
      var unroll := if unroll0 == 0 then 1 else unroll0;
      var done: nat, inst: nat := 0, 0;
      ghost var runs := Runs(graphId, Repeat(body, unroll), held);
      trips := [];
      TripByTrip(epilogue, runs, unroll, GraphOf(graphId).rc, 0, mem);
      StopsHere(cond, epilogue, runs, unroll, stop, 0, mem);
      while cond(done, mem)
        invariant cond(done, mem) <==> inst < stop
        invariant Valid() && pending == [] && 0 <= inst <= stop && done == inst * unroll
        invariant inst > 0 ==> Accepts(graphId, flags)
        invariant trips == Trips(unroll, inst)
        invariant mem == AfterInstances(epilogue, runs, unroll, inst, old(mem))
        invariant Holds(graphId, runs) && Runs(graphId, Repeat(body, unroll), runs) == runs
        invariant GraphOf(graphId).rc == old(GraphOf(graphId).rc) + inst
        invariant log == old(log) + CallsOf(old(GraphOf(graphId).rc), inst, unroll)
        decreases stop - inst
      {
        TripByTrip(epilogue, runs, unroll, old(GraphOf(graphId).rc), inst, old(mem));
        var ran := Instance(graphId, flags, unroll, body, runs);
        if ran.Err? { return Err(ran.error), trips; }
        done := done + unroll;
        trips := trips + [(inst, done)];
        mem := epilogue(inst, done, mem);
        inst := inst + 1;
        StopsHere(cond, epilogue, runs, unroll, stop, inst, old(mem));
      }
      r := Ok(done);
    }

    // pragma_omp_taskgraphloop_n: floor(n / unroll) instances, then the remaining
    // iterations as plain tasks.
    method PragmaTaskgraphLoopN(graphId: int, flags: Flags, unroll0: nat, n: nat,
                                epilogue: (nat, nat, Mem) -> Mem, body: Program, ghost held: Program)
      returns (r: Result<nat, Fatal>, trips: seq<(nat, nat)>)
      requires Valid() && pending == [] && Holds(graphId, held) && Recordable(Repeat(body, AtLeastOne(unroll0)))
      modifies this
      ensures Valid()
      ensures var unroll := AtLeastOne(unroll0);
        var inst := old(Runs(graphId, Repeat(body, unroll), held));
        && (r.Err? <==> n >= unroll && !Accepts(graphId, flags))
        && (r.Ok? ==>
              && r.value == n && trips == Trips(unroll, Instances(n, unroll))
              && mem == AfterInstances(epilogue, inst, unroll, Instances(n, unroll), old(mem))
              && Holds(graphId, inst)
              && GraphOf(graphId).rc == old(GraphOf(graphId).rc) + Instances(n, unroll)
              && pending == Repeat(body, Remainder(n, unroll))
              && log == old(log) + CallsOf(old(GraphOf(graphId).rc), Instances(n, unroll), unroll)
                        + seq(Remainder(n, unroll), _ => HostBody))
    {
      hide Drains, Optimizes, Recordable, StopsAfter, Instances, Remainder, ProgramOrder, AfterInstances;
      var unroll := if unroll0 == 0 then 1 else unroll0;
      var whole := Instances(n, unroll) * unroll;
      ghost var runs := Runs(graphId, Repeat(body, unroll), held);
      WholeInstances(n, unroll);
      Overshoot(epilogue, runs, unroll, whole, Instances(n, unroll), mem);
      r, trips := PragmaTaskgraphLoop(graphId, flags, unroll, Below(whole), epilogue, body, Instances(n, unroll), held);
      if r.Err? { return; }
      var done := r.value;
      ghost var looped := log;
      while done < n
        invariant whole <= done <= n && Valid()
        invariant mem == AfterInstances(epilogue, runs, unroll, Instances(n, unroll), old(mem))
        invariant Holds(graphId, runs) && GraphOf(graphId).rc == old(GraphOf(graphId).rc) + Instances(n, unroll)
        invariant pending == Repeat(body, done - whole) && log == looped + seq(done - whole, _ => HostBody)
      {
        RunBody(body);
        done := done + 1;
      }
      r := Ok(done);
    }

    // The loop followed by a taskwait: the epilogues', the instances' and the left-over
    // iterations' effect.
    method LoopNThenWait(graphId: int, flags: Flags, unroll0: nat, n: nat,
                         epilogue: (nat, nat, Mem) -> Mem, body: Program, ghost held: Program)
      returns (r: Result<nat, Fatal>)
      requires Valid() && pending == [] && Holds(graphId, held) && Recordable(Repeat(body, AtLeastOne(unroll0)))
      modifies this
      ensures Valid()
      ensures var unroll := AtLeastOne(unroll0);
        var inst := old(Runs(graphId, Repeat(body, unroll), held));
        && (r.Err? <==> n >= unroll && !Accepts(graphId, flags))
        && (r.Ok? ==> r.value == n && pending == [] && Holds(graphId, inst)
                      && GraphOf(graphId).rc == old(GraphOf(graphId).rc) + Instances(n, unroll)
                      && mem == ProgramOrder(Repeat(body, Remainder(n, unroll)),
                                             AfterInstances(epilogue, inst, unroll, Instances(n, unroll), old(mem))))
        // exactly n iterations, when epilogues leave memory alone and the graph was new or
        // holds this loop's recording
        && (r.Ok? && Neutral(epilogue) && inst == Repeat(body, unroll) ==> mem == Iterate(body, n, old(mem)))
    {
      hide Drains, Optimizes, Recordable, Iterate, Repeat, AfterInstances, ProgramOrder, Instances, Remainder;
      var unroll := if unroll0 == 0 then 1 else unroll0;
      WholeInstances(n, unroll);
      FewerBehave(body, Remainder(n, unroll), unroll);
      RecordableBehaves(Repeat(body, Remainder(n, unroll)));
      var trips;
      r, trips := PragmaTaskgraphLoopN(graphId, flags, unroll0, n, epilogue, body, held);
      if r.Err? { return; }
      Wait();
      if Neutral(epilogue) {
        ExactTripCount(epilogue, body, unroll, n, old(mem));
      }
    }

    // An unroll factor of 0 is 1: with the condition d < n the loop issues exactly n
    // iterations, in n instances, and tells each epilogue its number and that plus one.
    method LoopUnrolledByZero(graphId: int, flags: Flags, n: nat, epilogue: (nat, nat, Mem) -> Mem,
                              body: Program, ghost held: Program)
      returns (r: Result<nat, Fatal>, trips: seq<(nat, nat)>)
      requires Valid() && pending == [] && Holds(graphId, held) && Recordable(Repeat(body, 1))
      modifies this
      ensures Valid()
      ensures r.Err? <==> n > 0 && !Accepts(graphId, flags)
      ensures r.Ok? ==> r.value == n && |trips| == n && forall i :: 0 <= i < n ==> trips[i] == (i, i + 1)
      ensures r.Ok? ==> GraphOf(graphId).rc == old(GraphOf(graphId).rc) + n
                        && mem == RunTrips(epilogue, old(Runs(graphId, Repeat(body, 1), held)), trips, old(mem))
    {
      hide Drains, Optimizes, Recordable, StopsAfter, AfterInstances, Trips, ProgramOrder, Repeat, RunTrips;
      ghost var inst := Runs(graphId, Repeat(body, 1), held);
      Overshoot(epilogue, inst, 1, n, n, mem);
      r, trips := PragmaTaskgraphLoop(graphId, flags, 0, Below(n), epilogue, body, n, held);
      TripsAt(1, n);
      InstancesFollowTrips(epilogue, inst, 1, n, old(mem));
    }

    // The same of the loop with an exact count, which then leaves no iterations over.
    method LoopNUnrolledByZero(graphId: int, flags: Flags, n: nat, epilogue: (nat, nat, Mem) -> Mem,
                               body: Program, ghost held: Program)
      returns (r: Result<nat, Fatal>, trips: seq<(nat, nat)>)
      requires Valid() && pending == [] && Holds(graphId, held) && Recordable(Repeat(body, 1))
      modifies this
      ensures Valid()
      ensures r.Err? <==> n > 0 && !Accepts(graphId, flags)
      ensures r.Ok? ==> r.value == n && |trips| == n && forall i :: 0 <= i < n ==> trips[i] == (i, i + 1)
      ensures r.Ok? ==> GraphOf(graphId).rc == old(GraphOf(graphId).rc) + n && pending == []
                        && mem == RunTrips(epilogue, old(Runs(graphId, Repeat(body, 1), held)), trips, old(mem))
    {
      hide Drains, Optimizes, Recordable, AfterInstances, Trips, ProgramOrder, RunTrips;
      ghost var inst := Runs(graphId, Repeat(body, 1), held);
      assert Instances(n, 1) == n && Remainder(n, 1) == 0;
      r, trips := PragmaTaskgraphLoopN(graphId, flags, 0, n, epilogue, body, held);
      TripsAt(1, n);
      InstancesFollowTrips(epilogue, inst, 1, n, old(mem));
    }
  }
}
