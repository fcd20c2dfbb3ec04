// A taskgraph loop on a graph that holds the recording of another loop.
module OtherUnroll {
  import opened Accesses
  import opened Determinacy
  import opened Recording
  import opened Scheduler
  import opened Taskgraph
  import opened Traces
  import opened Wrappers

  const NO_FLAGS := Flags(false, false, false)

  // Two iterations with unroll 2, then three with unroll 3, on graph 0: the second loop
  // reports three iterations and replays the two of the first.
  method LoopTwiceLoopThrice(drain: (Program, Mem, nat) -> seq<Action>, opt: Program -> Program,
                             closureOf: TaskDef -> Closure, body: Program, m: Mem)
    returns (issued: nat, mem: Mem)
    requires Drains(drain) && Optimizes(opt) && Recordable(Repeat(body, 3))
    ensures issued == 5 && mem == Iterate(body, 4, m)
  {
    hide Drains, Optimizes, Recordable, Iterate, Repeat, ProgramOrder, AfterInstances;
    var epilogue := (i: nat, d: nat, m: Mem) => m;
    var runtime := new Runtime(drain, opt, closureOf, m);
    FewerBehave(body, 2, 3);
    var first := runtime.LoopNThenWait(0, NO_FLAGS, 2, 2, epilogue, body, []);
    assert runtime.mem == Iterate(body, 2, m);
    ghost var half := runtime.mem;
    var second := runtime.LoopNThenWait(0, NO_FLAGS, 3, 3, epilogue, body, Repeat(body, 2));
    OneInstance(epilogue, Repeat(body, 2), body, half);
    RepeatIterates(body, 2, half);
    IterateSum(body, 2, 2, m);
    issued, mem := first.value + second.value, runtime.mem;
  }

  lemma OneInstance(epilogue: (nat, nat, Mem) -> Mem, inst: Program, body: Program, m: Mem)
    requires Neutral(epilogue)
    ensures Instances(3, 3) == 1 && Remainder(3, 3) == 0 && Instances(2, 2) == 1
    ensures ProgramOrder(Repeat(body, 0), AfterInstances(epilogue, inst, 3, 1, m)) == ProgramOrder(inst, m)
  {
    assert AfterInstances(epilogue, inst, 3, 0, m) == m;
  }

  // ---- a body for which that is not five iterations ----

  function Counter(m: Mem): int {
    if Byte(0) in m then m[Byte(0)] else 0
  }

  function Bump(m: Mem): Mem {
    m[Byte(0) := Counter(m) + 1]
  }

  function Counting(): Program {
    [TaskDef([Access(Segment(0, 1), true, true, false, Sequential)], [Bump], false, true)]
  }

  lemma {:induction false} CountsIterations(n: nat, m: Mem)
    ensures Counter(Iterate(Counting(), n, m)) == Counter(m) + n
  {
    if n > 0 {
      CountsIterations(n - 1, m);
      var before := Iterate(Counting(), n - 1, m);
      assert ApplySteps([Bump], before) == ApplySteps([], Bump(before));
      assert ProgramOrder(Counting(), before) == ProgramOrder([], Bump(before));
    }
  }

  lemma {:induction false} OnlyCounting(n: nat)
    ensures forall i :: 0 <= i < |Repeat(Counting(), n)| ==> Repeat(Counting(), n)[i] == Counting()[0]
  {
    if n > 0 { OnlyCounting(n - 1); }
  }

  lemma BumpIsConfined()
    ensures Confined(Bump, Counting()[0].accesses)
  {
    var accs := Counting()[0].accesses;
    assert accs[0] in accs;
    forall l ensures MayWrite(accs, l) <==> l == Byte(0) {
      assert Covers(accs[0].region, l) <==> l == Byte(0);
    }
    assert MayRead(accs, Byte(0));
    forall m, m' | AgreeOnReads(accs, m, m')
      ensures forall l :: MayWrite(accs, l) ==> WritesAlike(Bump, m, m', l)
    {
      assert SameAt(m, m', Byte(0));
    }
  }

  // It may be recorded any number of times: its tasks are all ordered.
  lemma CountingIsRecordable(n: nat)
    ensures Recordable(Repeat(Counting(), n))
  {
    hide Confined;
    var p := Repeat(Counting(), n);
    OnlyCounting(n);
    BumpIsConfined();
    var a := Counting()[0].accesses;
    assert a[0] in a && Conflict(a[0], a[0]);
    assert Ordered(a, a);
    assert forall i: nat, j: nat :: i < j < |p| ==> Must(p, i, j);
  }

  method FiveIterationsAreFour(drain: (Program, Mem, nat) -> seq<Action>, opt: Program -> Program,
                               closureOf: TaskDef -> Closure)
    returns (issued: nat, count: int)
    requires Drains(drain) && Optimizes(opt)
    ensures issued == 5 && count == 4
  {
    hide Drains, Optimizes, Recordable, Iterate;
    CountingIsRecordable(3);
    var mem;
    issued, mem := LoopTwiceLoopThrice(drain, opt, closureOf, Counting(), map[]);
    CountsIterations(4, map[]);
    count := Counter(mem);
  }
}
