// Submitting tasks and running them. The encountering thread submits the tasks of
// a program one by one, suspending on undeferred ones; XKRT runs committed tasks
// in any way that respects the antecedent rule. That rule, and the mutual
// exclusion of commutative peers, are all that is assumed of XKRT here.
module Scheduler {
  import opened Accesses
  import opened Traces

  // What an access names: the storage behind a depend handle, or a byte.
  datatype Loc = Token(base: nat) | Byte(addr: nat)

  type Mem = map<Loc, int>

  // A task: its constructed accesses, its body as a list of atomic steps, whether the
  // encountering thread waits for it, and whether it is an OpenMP task rather than the
  // empty one of a taskwait.
  datatype TaskDef = TaskDef(accesses: seq<Access>, steps: seq<Mem -> Mem>, undeferred: bool, omp: bool)

  type Program = seq<TaskDef>

  // ---- program order ----

  function ApplySteps(steps: seq<Mem -> Mem>, m: Mem): Mem {
    if steps == [] then m else ApplySteps(steps[1..], steps[0](m))
  }

  // One task after the other, in the order they were submitted.
  function ProgramOrder(prog: Program, m: Mem): Mem {
    if prog == [] then m else ProgramOrder(prog[1..], ApplySteps(prog[0].steps, m))
  }

  // ---- relations between the tasks of a program ----

  // Task i must complete before task j starts.
  ghost predicate Must(prog: Program, i: nat, j: nat) {
    i < j < |prog| && Ordered(prog[i].accesses, prog[j].accesses)
  }

  // Tasks i and j must not run at the same time.
  ghost predicate Excl(prog: Program, i: nat, j: nat) {
    i < |prog| && j < |prog| && i != j
    && (Exclusive(prog[i].accesses, prog[j].accesses) || Exclusive(prog[j].accesses, prog[i].accesses))
  }

  // ---- states and actions ----

  datatype Phase = Pending | Running(at: nat) | Done

  datatype Event = Event(task: nat, step: nat)

  // Submitted tasks by index; started and trace record the run so far.
  datatype State = State(tasks: seq<Phase>, blocked: bool, started: seq<nat>, trace: seq<Event>, mem: Mem)

  datatype Action =
    | Submit            // translate, resolve, commit the next task; suspend if it is undeferred
    | Return            // the suspended thread sees its task completed
    | Start(i: nat)
    | Step(i: nat)
    | Finish(i: nat)

  function Init(m: Mem): State {
    State([], false, [], [], m)
  }

  predicate IsDone(s: State, i: nat) {
    i < |s.tasks| && s.tasks[i] == Done
  }

  predicate IsRunning(s: State, i: nat) {
    i < |s.tasks| && s.tasks[i].Running?
  }

  ghost predicate Startable(prog: Program, s: State, i: nat) {
    && i < |s.tasks| && s.tasks[i] == Pending
    && (forall j :: Must(prog, j, i) ==> IsDone(s, j))
    && (forall j :: Excl(prog, j, i) ==> !IsRunning(s, j))
  }

  ghost predicate Enabled(prog: Program, s: State, a: Action)
    requires |s.tasks| <= |prog|
  {
    match a
    case Submit => !s.blocked && |s.tasks| < |prog|
    case Return => s.blocked && |s.tasks| > 0 && IsDone(s, |s.tasks| - 1)
    case Start(i) => Startable(prog, s, i)
    case Step(i) => IsRunning(s, i) && s.tasks[i].at < |prog[i].steps|
    case Finish(i) => IsRunning(s, i) && s.tasks[i].at == |prog[i].steps|
  }

  function Apply(prog: Program, s: State, a: Action): State
    requires |s.tasks| <= |prog| && Enabled(prog, s, a)
  {
    match a
    case Submit => s.(tasks := s.tasks + [Pending], blocked := prog[|s.tasks|].undeferred)
    case Return => s.(blocked := false)
    case Start(i) => s.(tasks := s.tasks[i := Running(0)], started := s.started + [i])
    case Step(i) =>
      var k := s.tasks[i].at;
      s.(tasks := s.tasks[i := Running(k + 1)], trace := s.trace + [Event(i, k)], mem := prog[i].steps[k](s.mem))
    case Finish(i) => s.(tasks := s.tasks[i := Done])
  }

  // acts is a run of the program from memory m.
  ghost predicate Schedule(prog: Program, m: Mem, acts: seq<Action>)
    decreases |acts|, 0
  {
    acts == [] ||
    (Schedule(prog, m, acts[..|acts| - 1]) &&
     |Reach(prog, m, acts[..|acts| - 1]).tasks| <= |prog| &&
     Enabled(prog, Reach(prog, m, acts[..|acts| - 1]), acts[|acts| - 1]))
  }

  // The state a run ends in.
  function Reach(prog: Program, m: Mem, acts: seq<Action>): State
    requires Schedule(prog, m, acts)
    decreases |acts|, 1
  {
    if acts == [] then Init(m)
    else Apply(prog, Reach(prog, m, acts[..|acts| - 1]), acts[|acts| - 1])
  }

  // Everything submitted, everything completed.
  predicate Final(prog: Program, s: State) {
    |s.tasks| == |prog| && !s.blocked && forall i :: 0 <= i < |s.tasks| ==> s.tasks[i] == Done
  }

  // A complete run.
  ghost predicate Complete(prog: Program, m: Mem, acts: seq<Action>) {
    Schedule(prog, m, acts) && Final(prog, Reach(prog, m, acts))
  }

  lemma Extend(prog: Program, m: Mem, acts: seq<Action>, a: Action)
    requires Schedule(prog, m, acts)
    requires |Reach(prog, m, acts).tasks| <= |prog| && Enabled(prog, Reach(prog, m, acts), a)
    ensures Schedule(prog, m, acts + [a])
    ensures Reach(prog, m, acts + [a]) == Apply(prog, Reach(prog, m, acts), a)
  {
    assert (acts + [a])[..|acts + [a]| - 1] == acts;
  }

  // ---- what every run keeps ----

  function ExecEvent(prog: Program, e: Event, m: Mem): Mem {
    if e.task < |prog| && e.step < |prog[e.task].steps| then prog[e.task].steps[e.step](m) else m
  }

  function StepExec(prog: Program): (Event, Mem) -> Mem {
    (e: Event, m: Mem) => ExecEvent(prog, e, m)
  }

  // How many steps of task i have run.
  function Ran(prog: Program, s: State, i: nat): nat
    requires |s.tasks| <= |prog|
  {
    if i >= |s.tasks| then 0
    else match s.tasks[i]
      case Pending => 0
      case Running(k) => k
      case Done => |prog[i].steps|
  }

  predicate Bounded(prog: Program, s: State) {
    && |s.tasks| <= |prog|
    && forall i :: 0 <= i < |s.tasks| && s.tasks[i].Running? ==> s.tasks[i].at <= |prog[i].steps|
  }

  // started lists each started task once, predecessors and earlier peers completed.
  ghost predicate StartsInOrder(prog: Program, s: State) {
    && Distinct(s.started)
    && (forall i: nat :: i in s.started <==> i < |s.tasks| && s.tasks[i] != Pending)
    && (forall i: nat, j: nat :: i in s.started && Must(prog, j, i) ==> IsDone(s, j))
    && (forall p, q :: 0 <= p < q < |s.started| ==> !Must(prog, s.started[q], s.started[p]))
    && (forall p, q :: 0 <= p < q < |s.started| && Excl(prog, s.started[p], s.started[q]) ==> IsDone(s, s.started[p]))
  }

  // The trace holds exactly the steps run, each task's own in order, and the steps
  // of tasks that order or exclude each other in the order the tasks started.
  ghost predicate TraceInOrder(prog: Program, s: State)
    requires |s.tasks| <= |prog|
  {
    && Distinct(s.trace)
    && (forall e :: e in s.trace <==> e.step < Ran(prog, s, e.task))
    && (forall p, q :: 0 <= p < q < |s.trace| && s.trace[p].task == s.trace[q].task ==>
          s.trace[p].step < s.trace[q].step)
    && (forall p, q :: 0 <= p < q < |s.trace| && Related(prog, s.trace[p].task, s.trace[q].task) ==>
          Before(s.started, s.trace[p].task, s.trace[q].task))
  }

  ghost predicate Related(prog: Program, i: nat, j: nat) {
    Must(prog, i, j) || Must(prog, j, i) || Excl(prog, i, j)
  }

  // The encountering thread is past an undeferred task only when it is done.
  predicate WaitsKept(prog: Program, s: State)
    requires |s.tasks| <= |prog|
  {
    && (s.blocked ==> |s.tasks| > 0)
    && forall i :: 0 <= i < |s.tasks| && prog[i].undeferred ==> s.tasks[i] == Done || (s.blocked && i == |s.tasks| - 1)
  }

  ghost predicate Inv(prog: Program, m: Mem, s: State) {
    && Bounded(prog, s)
    && StartsInOrder(prog, s)
    && TraceInOrder(prog, s)
    && WaitsKept(prog, s)
    && s.mem == Run(StepExec(prog), s.trace, m)
  }

  lemma StartKeeps(prog: Program, s: State, i: nat)
    requires Bounded(prog, s) && StartsInOrder(prog, s) && TraceInOrder(prog, s)
    requires Enabled(prog, s, Start(i))
    ensures var s' := Apply(prog, s, Start(i));
      Bounded(prog, s') && StartsInOrder(prog, s') && TraceInOrder(prog, s')
  {
    hide Excl;
    StartKeepsStarts(prog, s, i);
    hide StartsInOrder, Must;
    assert forall j :: Ran(prog, Apply(prog, s, Start(i)), j) == Ran(prog, s, j);
    BeforeGrows(s.started, i);
  }

  lemma StartKeepsStarts(prog: Program, s: State, i: nat)
    requires Bounded(prog, s) && StartsInOrder(prog, s)
    requires Enabled(prog, s, Start(i))
    ensures StartsInOrder(prog, Apply(prog, s, Start(i)))
  {
    var s' := Apply(prog, s, Start(i));
    assert i !in s.started;
    assert forall j :: IsDone(s', j) <==> IsDone(s, j);
    assert forall j: nat :: j in s'.started <==> j in s.started || j == i;
    forall p, q | 0 <= p < q < |s'.started|
      ensures !Must(prog, s'.started[q], s'.started[p])
      ensures Excl(prog, s'.started[p], s'.started[q]) ==> IsDone(s', s'.started[p])
    {
      if q == |s.started| {
        var j := s.started[p];
        assert j in s.started;
        assert Must(prog, i, j) ==> IsDone(s, i);
        assert Excl(prog, j, i) ==> !IsRunning(s, j);
      }
    }
  }

  lemma BeforeGrows(s: seq<nat>, i: nat)
    ensures forall a, b :: Before(s, a, b) ==> Before(s + [i], a, b)
  {
    forall a, b | Before(s, a, b) ensures Before(s + [i], a, b) {
      var p, q :| 0 <= p < q < |s| && s[p] == a && s[q] == b;
      assert (s + [i])[p] == a && (s + [i])[q] == b;
    }
  }

  // A running task started after every related task that has started.
  lemma RelatedStartedBefore(prog: Program, s: State, i: nat, j: nat)
    requires Bounded(prog, s) && StartsInOrder(prog, s)
    requires IsRunning(s, i) && Related(prog, j, i) && j in s.started
    ensures Before(s.started, j, i)
  {
    assert i in s.started;
    var p :| 0 <= p < |s.started| && s.started[p] == j;
    var q :| 0 <= q < |s.started| && s.started[q] == i;
    assert q < p ==> IsDone(s, s.started[q]) by {
      assert Must(prog, i, j) ==> IsDone(s, i);
      assert Excl(prog, j, i) ==> Excl(prog, i, j);
    }
  }

  lemma StepKeepsTrace(prog: Program, s: State, i: nat)
    requires Bounded(prog, s) && StartsInOrder(prog, s) && TraceInOrder(prog, s)
    requires Enabled(prog, s, Step(i))
    ensures TraceInOrder(prog, Apply(prog, s, Step(i)))
  {
    var s' := Apply(prog, s, Step(i));
    var e := Event(i, s.tasks[i].at);
    assert e !in s.trace;
    assert forall j :: Ran(prog, s', j) == if j == i then Ran(prog, s, j) + 1 else Ran(prog, s, j);
    assert forall x :: x in s'.trace <==> x in s.trace || x == e;
    forall p, q | 0 <= p < q < |s'.trace|
      ensures s'.trace[p].task == s'.trace[q].task ==> s'.trace[p].step < s'.trace[q].step
      ensures Related(prog, s'.trace[p].task, s'.trace[q].task) ==>
        Before(s'.started, s'.trace[p].task, s'.trace[q].task)
    {
      if q == |s.trace| {
        assert s.trace[p] in s.trace;
        var j := s.trace[p].task;
        assert j in s.started;
        if Related(prog, j, i) {
          RelatedStartedBefore(prog, s, i, j);
        }
      }
    }
  }

  // Actions that start nothing leave the start order valid.
  lemma OthersKeepStarts(prog: Program, s: State, a: Action)
    requires Bounded(prog, s) && StartsInOrder(prog, s)
    requires Enabled(prog, s, a) && !a.Start?
    ensures Bounded(prog, Apply(prog, s, a)) && StartsInOrder(prog, Apply(prog, s, a))
  {
    var s' := Apply(prog, s, a);
    assert forall i :: IsDone(s, i) ==> IsDone(s', i);
    assert forall i: nat :: i < |s'.tasks| && s'.tasks[i] != Pending <==> i < |s.tasks| && s.tasks[i] != Pending;
  }

  lemma OthersKeepTrace(prog: Program, s: State, a: Action)
    requires Bounded(prog, s) && TraceInOrder(prog, s)
    requires Enabled(prog, s, a) && !a.Start? && !a.Step?
    ensures Bounded(prog, Apply(prog, s, a)) && TraceInOrder(prog, Apply(prog, s, a))
  {
    assert forall i :: Ran(prog, Apply(prog, s, a), i) == Ran(prog, s, i);
  }

  lemma MemoryKept(prog: Program, m: Mem, s: State, a: Action)
    requires Bounded(prog, s) && Enabled(prog, s, a)
    requires s.mem == Run(StepExec(prog), s.trace, m)
    ensures Apply(prog, s, a).mem == Run(StepExec(prog), Apply(prog, s, a).trace, m)
  {
    if a.Step? {
      var e := Event(a.i, s.tasks[a.i].at);
      RunConcat(StepExec(prog), s.trace, [e], m);
      assert Run(StepExec(prog), [e], s.mem) == StepExec(prog)(e, s.mem);
    }
  }

  lemma WaitsStayKept(prog: Program, s: State, a: Action)
    requires Bounded(prog, s) && Enabled(prog, s, a) && WaitsKept(prog, s)
    ensures WaitsKept(prog, Apply(prog, s, a))
  {
  }

  lemma ActionKeeps(prog: Program, m: Mem, s: State, a: Action)
    requires Inv(prog, m, s) && Enabled(prog, s, a)
    ensures Inv(prog, m, Apply(prog, s, a))
  {
    MemoryKept(prog, m, s, a);
    WaitsStayKept(prog, s, a);
    match a {
      case Start(i) => StartKeeps(prog, s, i);
      case Step(i) => OthersKeepStarts(prog, s, a); StepKeepsTrace(prog, s, i);
      case _ => OthersKeepStarts(prog, s, a); OthersKeepTrace(prog, s, a);
    }
  }

  lemma {:induction false} EveryRunKeeps(prog: Program, m: Mem, acts: seq<Action>)
    requires Schedule(prog, m, acts)
    ensures Inv(prog, m, Reach(prog, m, acts))
    decreases |acts|
  {
    if acts != [] {
      var prefix, a := acts[..|acts| - 1], acts[|acts| - 1];
      EveryRunKeeps(prog, m, prefix);
      ActionKeeps(prog, m, Reach(prog, m, prefix), a);
    }
  }
}
