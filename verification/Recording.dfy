// What body_omp_task records while the tasks of a taskgraph run for the first time.
module Recording {
  import opened Accesses
  import opened Liveness
  import opened Scheduler
  import opened Wrappers

  // A task's kmp_task_t and the compiler's scatter, which reads the captured values;
  // without one the task is packed and its only slot is the kmp_task_t itself.
  datatype Closure = Closure(ktask: int, scatter: Option<Mem -> seq<int>>)

  // A PROG command: the routine and its kmp_task_t, and the argument slots.
  datatype Command = Command(body: seq<Mem -> Mem>, ktask: int, args: seq<int>)

  function Slots(c: Closure, m: Mem): seq<int> {
    if c.scatter.Some? then c.scatter.value(m) else [c.ktask]
  }

  // The command for a task whose body has just run, in memory m.
  function Emitted(t: TaskDef, c: Closure, m: Mem): Command {
    Command(t.steps, c.ktask, Slots(c, m))
  }

  // The record of every task after a run: the completion of an OpenMP task's body adds a
  // command. The empty body of a taskwait's task is not body_omp_task and adds none.
  ghost function RecordsOf(prog: Program, closures: seq<Closure>, m: Mem, acts: seq<Action>): (r: seq<seq<Command>>)
    requires |closures| == |prog| && Schedule(prog, m, acts)
    ensures |r| == |prog|
    decreases |acts|
  {
    if acts == [] then seq(|prog|, _ => [])
    else
      var prefix, a := acts[..|acts| - 1], acts[|acts| - 1];
      AfterAction(prog, closures, RecordsOf(prog, closures, m, prefix), Reach(prog, m, prefix), a)
  }

  function AfterAction(prog: Program, closures: seq<Closure>, records: seq<seq<Command>>, s: State, a: Action)
    : (r: seq<seq<Command>>)
    requires |closures| == |records| == |prog|
    ensures |r| == |prog|
  {
    if a.Finish? && a.i < |prog| && prog[a.i].omp
    then records[a.i := records[a.i] + [Emitted(prog[a.i], closures[a.i], s.mem)]]
    else records
  }

  // Whatever the run and the order in which bodies complete, an OpenMP task has recorded
  // nothing before its body has completed and one command from then on: its own body, with
  // the slots as they were at that moment. A taskwait's task never records anything.
  lemma {:induction false} OneCommandPerTask(prog: Program, closures: seq<Closure>, m: Mem, acts: seq<Action>, i: nat)
    requires |closures| == |prog| && Schedule(prog, m, acts) && i < |prog|
    ensures !prog[i].omp || !IsDone(Reach(prog, m, acts), i) ==> RecordsOf(prog, closures, m, acts)[i] == []
    ensures prog[i].omp && IsDone(Reach(prog, m, acts), i) ==>
      exists k :: 0 <= k < |acts| && acts[k] == Finish(i) && Schedule(prog, m, acts[..k])
        && RecordsOf(prog, closures, m, acts)[i] ==
             [Command(prog[i].steps, closures[i].ktask,
                      if closures[i].scatter.Some? then closures[i].scatter.value(Reach(prog, m, acts[..k]).mem)
                      else [closures[i].ktask])]
    decreases |acts|
  {
    hide Enabled, Apply;
    if acts == [] {
      assert !IsDone(Reach(prog, m, acts), i);
    } else {
      var prefix, a := acts[..|acts| - 1], acts[|acts| - 1];
      OneCommandPerTask(prog, closures, m, prefix, i);
      OnlyFinishCompletes(prog, Reach(prog, m, prefix), a, i);
      if a == Finish(i) {
        assert acts[..|acts| - 1] == prefix && acts[|acts| - 1] == Finish(i);
      } else if prog[i].omp && IsDone(Reach(prog, m, acts), i) {
        var k :| 0 <= k < |prefix| && prefix[k] == Finish(i) && Schedule(prog, m, prefix[..k])
          && RecordsOf(prog, closures, m, prefix)[i] ==
               [Command(prog[i].steps, closures[i].ktask,
                        if closures[i].scatter.Some? then closures[i].scatter.value(Reach(prog, m, prefix[..k]).mem)
                        else [closures[i].ktask])];
        assert acts[..k] == prefix[..k] && acts[k] == Finish(i);
      }
    }
  }

  // At record stop there is one command per submitted OpenMP task, carrying its body, and
  // no other.
  ghost predicate Recorded(prog: Program, records: seq<seq<Command>>) {
    && |records| == |prog|
    && forall i :: 0 <= i < |prog| ==>
         if prog[i].omp then |records[i]| == 1 && records[i][0].body == prog[i].steps else records[i] == []
  }

  // What some complete run recorded.
  ghost predicate FromSomeRun(prog: Program, closures: seq<Closure>, m: Mem, records: seq<seq<Command>>)
    requires |closures| == |prog|
  {
    exists acts :: Complete(prog, m, acts) && records == RecordsOf(prog, closures, m, acts)
  }

  lemma CompleteRunRecordsAll(prog: Program, closures: seq<Closure>, m: Mem, acts: seq<Action>)
    requires |closures| == |prog| && Complete(prog, m, acts)
    ensures Recorded(prog, RecordsOf(prog, closures, m, acts))
  {
    var records: seq<seq<Command>> := RecordsOf(prog, closures, m, acts);
    forall i | 0 <= i < |prog|
      ensures if prog[i].omp then |records[i]| == 1 && records[i][0].body == prog[i].steps else records[i] == []
    {
      OneCommandPerTask(prog, closures, m, acts, i);
      assert IsDone(Reach(prog, m, acts), i);
    }
  }

  // ---- the code ----

  class Recorder {
    var kargs: seq<seq<int>>           // per task, the slots of its argument array
    var records: seq<seq<Command>>     // per task, the commands of its record

    constructor (closures: seq<Closure>)
      ensures records == seq(|closures|, _ => []) && |kargs| == |closures|
      ensures forall i :: 0 <= i < |closures| ==> closures[i].scatter == None ==> kargs[i] == [closures[i].ktask]
    {
      records := seq(|closures|, _ => []);
      kargs := seq(|closures|, i requires 0 <= i < |closures| =>
                     if closures[i].scatter == None then [closures[i].ktask] else []);
    }

    // body_omp_task, once the routine of task i has returned, in memory m
    method BodyOmpTask(i: nat, t: TaskDef, c: Closure, m: Mem)
      requires i < |records| == |kargs| && (c.scatter == None ==> kargs[i] == [c.ktask])
      modifies this
      ensures records == old(records)[i := old(records[i]) + [Emitted(t, c, m)]]
      // the routine, its kmp_task_t, and the scatter's slots or, packed, the kmp_task_t
      ensures c.scatter.Some? ==> records[i] == old(records[i]) + [Command(t.steps, c.ktask, c.scatter.value(m))]
      ensures c.scatter == None ==> records[i] == old(records[i]) + [Command(t.steps, c.ktask, [c.ktask])]
      ensures kargs == old(kargs)[i := Slots(c, m)]
    {
      if c.scatter.Some? {
        kargs := kargs[i := c.scatter.value(m)];
      }
      records := records[i := records[i] + [Command(t.steps, c.ktask, kargs[i])]];
    }
  }

  // The recording pass over any complete run of the submitted tasks.
  method RecordPass(prog: Program, closures: seq<Closure>, m: Mem, acts: seq<Action>)
    returns (end: Mem, records: seq<seq<Command>>)
    requires |closures| == |prog| && Complete(prog, m, acts)
    ensures end == Reach(prog, m, acts).mem
    ensures records == RecordsOf(prog, closures, m, acts) && Recorded(prog, records)
  {
    hide Enabled, Apply, Final, Emitted, Slots;
    var recorder := new Recorder(closures);
    var s := Init(m);
    PrefixesAreRuns(prog, m, acts, 0);
    assert acts[..0] == [];
    for k := 0 to |acts|
      invariant fresh(recorder) && |recorder.kargs| == |prog|
      invariant forall i :: 0 <= i < |prog| ==> closures[i].scatter == None ==> recorder.kargs[i] == [closures[i].ktask]
      invariant Schedule(prog, m, acts[..k]) && s == Reach(prog, m, acts[..k])
      invariant recorder.records == RecordsOf(prog, closures, m, acts[..k])
    {
      PrefixesAreRuns(prog, m, acts, k + 1);
      assert acts[..k + 1][..k] == acts[..k];
      if acts[k].Finish? && acts[k].i < |prog| && prog[acts[k].i].omp {
        NewSlots(closures[acts[k].i], s.mem);
        recorder.BodyOmpTask(acts[k].i, prog[acts[k].i], closures[acts[k].i], s.mem);
      }
      s := Apply(prog, s, acts[k]);
    }
    assert acts[..|acts|] == acts;
    CompleteRunRecordsAll(prog, closures, m, acts);
    end, records := s.mem, recorder.records;
  }

  lemma NewSlots(c: Closure, m: Mem)
    ensures c.scatter == None ==> Slots(c, m) == [c.ktask]
  {
  }

  lemma {:induction false} PrefixesAreRuns(prog: Program, m: Mem, acts: seq<Action>, k: nat)
    requires Schedule(prog, m, acts) && k <= |acts|
    ensures Schedule(prog, m, acts[..k])
    decreases |acts|
  {
    if k == |acts| {
      assert acts[..k] == acts;
    } else {
      PrefixesAreRuns(prog, m, acts[..|acts| - 1], k);
      assert acts[..|acts| - 1][..k] == acts[..k];
    }
  }

  // ---- the command graph ----

  // The tasks of the dependency graph, by their accesses, in submission order.
  function Nodes(prog: Program): seq<seq<Access>> {
    seq(|prog|, i requires 0 <= i < |prog| => prog[i].accesses)
  }

  // One graph node per command, with the dependences of its task and nobody waiting.
  function CommandGraph(nodes: seq<seq<Access>>, records: seq<seq<Command>>): Program
    requires |nodes| == |records|
  {
    if nodes == [] then []
    else NodesOf(nodes[0], records[0]) + CommandGraph(nodes[1..], records[1..])
  }

  function NodesOf(accesses: seq<Access>, commands: seq<Command>): Program {
    seq(|commands|, k requires 0 <= k < |commands| => TaskDef(accesses, commands[k].body, false, true))
  }

  // The commands of a recorded graph: the OpenMP tasks, with the same accesses and bodies,
  // and nobody waiting.
  function Commands(p: Program): Program {
    if p == [] then [] else (if p[0].omp then [p[0].(undeferred := false)] else []) + Commands(p[1..])
  }

  // Every complete recording builds the graph of the submitted OpenMP tasks.
  lemma {:induction false} GraphIsCommands(prog: Program, records: seq<seq<Command>>)
    requires Recorded(prog, records)
    ensures |Nodes(prog)| == |records| && CommandGraph(Nodes(prog), records) == Commands(prog)
    decreases |prog|
  {
    if prog != [] {
      assert Nodes(prog)[1..] == Nodes(prog[1..]);
      GraphIsCommands(prog[1..], records[1..]);
      assert NodesOf(Nodes(prog)[0], records[0]) == if prog[0].omp then [prog[0].(undeferred := false)] else [];
    }
  }

  // A taskwait's task has no body.
  ghost predicate WaitsAreEmpty(p: Program) {
    forall i :: 0 <= i < |p| && !p[i].omp ==> p[i].steps == []
  }

  // Leaving out tasks without a body does not change what a program computes.
  lemma {:induction false} CommandsProgramOrder(p: Program, m: Mem)
    requires WaitsAreEmpty(p)
    ensures ProgramOrder(Commands(p), m) == ProgramOrder(p, m)
    decreases |p|
  {
    if p != [] {
      CommandsProgramOrder(p[1..], ApplySteps(p[0].steps, m));
      if p[0].omp {
        assert Commands(p)[0] == p[0].(undeferred := false) && Commands(p)[1..] == Commands(p[1..]);
      } else {
        assert Commands(p) == Commands(p[1..]) && ApplySteps(p[0].steps, m) == m;
      }
    }
  }
}
