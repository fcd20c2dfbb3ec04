// Progress, termination, and what exactly an undeferred task or a taskwait with
// dependences waits for.
module Liveness {
  import opened Accesses
  import opened Scheduler

  // ---- progress ----

  lemma {:induction false} FirstUnfinished(s: State, n: nat) returns (i: nat)
    requires n <= |s.tasks| && exists k :: n <= k < |s.tasks| && s.tasks[k] != Done
    requires forall k :: 0 <= k < n ==> s.tasks[k] == Done
    ensures i < |s.tasks| && s.tasks[i] != Done && forall k :: 0 <= k < i ==> s.tasks[k] == Done
    decreases |s.tasks| - n
  {
    if s.tasks[n] != Done { i := n; } else { i := FirstUnfinished(s, n + 1); }
  }

  // While a committed task is unfinished, some task can start, step or finish.
  lemma SomeTaskIsRunnable(prog: Program, s: State) returns (a: Action)
    requires Bounded(prog, s) && exists i :: 0 <= i < |s.tasks| && s.tasks[i] != Done
    ensures (a.Start? || a.Step? || a.Finish?) && Enabled(prog, s, a)
  {
    if i: nat :| IsRunning(s, i) {
      a := if s.tasks[i].at < |prog[i].steps| then Step(i) else Finish(i);
    } else {
      var i := FirstUnfinished(s, 0);
      assert !IsRunning(s, i);
      a := Start(i);
    }
  }

  lemma Progress(prog: Program, s: State) returns (a: Action)
    requires Bounded(prog, s) && WaitsKept(prog, s) && !Final(prog, s)
    ensures Enabled(prog, s, a)
  {
    if i :| 0 <= i < |s.tasks| && s.tasks[i] != Done {
      a := SomeTaskIsRunnable(prog, s);
    } else {
      a := if s.blocked then Return else Submit;
    }
  }

  // ---- termination ----

  // Actions still owed on behalf of task i.
  function Work(prog: Program, s: State, i: nat): nat
    requires Bounded(prog, s) && i < |prog|
  {
    if i >= |s.tasks| then |prog[i].steps| + 3 + (if prog[i].undeferred then 1 else 0)
    else match s.tasks[i]
      case Pending => |prog[i].steps| + 2
      case Running(k) => |prog[i].steps| - k + 1
      case Done => 0
  }

  function SumWork(prog: Program, s: State, n: nat): nat
    requires Bounded(prog, s) && n <= |prog|
  {
    if n == 0 then 0 else SumWork(prog, s, n - 1) + Work(prog, s, n - 1)
  }

  function Remaining(prog: Program, s: State): nat
    requires Bounded(prog, s)
  {
    SumWork(prog, s, |prog|) + (if s.blocked then 1 else 0)
  }

  lemma {:induction false} OneTaskChanged(prog: Program, s: State, s': State, i: nat, n: nat)
    requires Bounded(prog, s) && Bounded(prog, s') && i < |prog| && n <= |prog|
    requires forall j: nat :: j < |prog| && j != i ==> Work(prog, s', j) == Work(prog, s, j)
    ensures SumWork(prog, s', n) - SumWork(prog, s, n)
         == if i < n then Work(prog, s', i) - Work(prog, s, i) else 0
  {
    if n > 0 { OneTaskChanged(prog, s, s', i, n - 1); }
  }

  // Each action does one unit of the remaining work.
  lemma ActionSpendsOne(prog: Program, s: State, a: Action)
    requires Bounded(prog, s) && Enabled(prog, s, a)
    requires Bounded(prog, Apply(prog, s, a))
    ensures Remaining(prog, s) == Remaining(prog, Apply(prog, s, a)) + 1
  {
    var i := match a case Submit => |s.tasks| case Return => |s.tasks| - 1
                     case Start(i) => i case Step(i) => i case Finish(i) => i;
    OneTaskChanged(prog, s, Apply(prog, s, a), i, |prog|);
  }

  lemma {:induction false} RunLength(prog: Program, m: Mem, acts: seq<Action>)
    requires Schedule(prog, m, acts)
    ensures Bounded(prog, Reach(prog, m, acts))
    ensures |acts| + Remaining(prog, Reach(prog, m, acts)) == Remaining(prog, Init(m))
    decreases |acts|
  {
    EveryRunKeeps(prog, m, acts);
    if acts != [] {
      var prefix := acts[..|acts| - 1];
      RunLength(prog, m, prefix);
      ActionSpendsOne(prog, Reach(prog, m, prefix), acts[|acts| - 1]);
    }
  }

  lemma {:induction false} NothingOwed(prog: Program, s: State, n: nat)
    requires Final(prog, s) && n <= |prog|
    ensures SumWork(prog, s, n) == 0
  {
    if n > 0 { NothingOwed(prog, s, n - 1); }
  }

  lemma OnlyFinishCompletes(prog: Program, s: State, a: Action, i: nat)
    requires |s.tasks| <= |prog| && Enabled(prog, s, a)
    ensures IsDone(Apply(prog, s, a), i) <==> IsDone(s, i) || a == Finish(i)
    ensures a == Finish(i) ==> !IsDone(s, i)
  {
  }

  // In a run, task i has finished once if it is done and never otherwise.
  lemma {:induction false} FinishesOnce(prog: Program, m: Mem, acts: seq<Action>, i: nat)
    requires Schedule(prog, m, acts)
    ensures multiset(acts)[Finish(i)] == if IsDone(Reach(prog, m, acts), i) then 1 else 0
    decreases |acts|
  {
    if acts != [] {
      var prefix, a := acts[..|acts| - 1], acts[|acts| - 1];
      hide Enabled, Apply;
      FinishesOnce(prog, m, prefix, i);
      OnlyFinishCompletes(prog, Reach(prog, m, prefix), a, i);
      assert acts == prefix + [a];
      assert multiset(acts) == multiset(prefix) + multiset{a};
    }
  }

  // Every run can be extended until all is done, every run that cannot be extended
  // is complete, and all complete runs have the same length, in which each of the
  // program's tasks completes exactly once.
  lemma EveryRunCompletes(prog: Program, m: Mem, acts: seq<Action>)
    requires Schedule(prog, m, acts)
    ensures |acts| <= Remaining(prog, Init(m))
    ensures Complete(prog, m, acts) ==> |acts| == Remaining(prog, Init(m))
    ensures Complete(prog, m, acts) ==> forall i: nat :: i < |prog| ==> multiset(acts)[Finish(i)] == 1
    ensures !Complete(prog, m, acts) ==> exists a :: Schedule(prog, m, acts + [a])
  {
    var s := Reach(prog, m, acts);
    RunLength(prog, m, acts);
    EveryRunKeeps(prog, m, acts);
    if Final(prog, s) {
      NothingOwed(prog, s, |prog|);
      forall i: nat | i < |prog| ensures multiset(acts)[Finish(i)] == 1 {
        FinishesOnce(prog, m, acts, i);
      }
    } else {
      var a := Progress(prog, s);
      Extend(prog, m, acts, a);
    }
  }

  // So every run is the beginning of a complete one.
  lemma {:induction false} CompletesFrom(prog: Program, m: Mem, acts: seq<Action>) returns (all: seq<Action>)
    requires Schedule(prog, m, acts)
    ensures acts <= all && Complete(prog, m, all)
    decreases Remaining(prog, Init(m)) - |acts|
  {
    EveryRunCompletes(prog, m, acts);
    if Complete(prog, m, acts) {
      all := acts;
    } else {
      var a :| Schedule(prog, m, acts + [a]);
      EveryRunCompletes(prog, m, acts + [a]);
      all := CompletesFrom(prog, m, acts + [a]);
    }
  }

  // ---- waiting ----

  // Task i requires task j: itself, or a predecessor that requires it.
  ghost predicate Needs(prog: Program, i: nat, j: nat) {
    j == i || exists k: nat :: k < i && Must(prog, k, i) && Needs(prog, k, j)
  }

  lemma {:induction false} DoneNeedsDone(prog: Program, s: State, i: nat, j: nat)
    requires StartsInOrder(prog, s) && IsDone(s, i) && Needs(prog, i, j)
    ensures IsDone(s, j)
    decreases i
  {
    if j != i {
      var k: nat :| k < i && Must(prog, k, i) && Needs(prog, k, j);
      assert i in s.started;
      DoneNeedsDone(prog, s, k, j);
    }
  }

  // One of the first n tasks is undeferred and requires task j.
  ghost predicate Required(prog: Program, n: nat, j: nat) {
    exists i: nat :: i < n <= |prog| && prog[i].undeferred && Needs(prog, i, j)
  }

  // Submitting an undeferred task returns only once it and everything it
  // transitively requires have completed.
  lemma ReturnMeansCompleted(prog: Program, m: Mem, acts: seq<Action>, j: nat)
    requires Schedule(prog, m, acts) && !Reach(prog, m, acts).blocked
    requires Required(prog, |Reach(prog, m, acts).tasks|, j)
    ensures IsDone(Reach(prog, m, acts), j)
  {
    var s := Reach(prog, m, acts);
    EveryRunKeeps(prog, m, acts);
    var i: nat :| i < |s.tasks| && prog[i].undeferred && Needs(prog, i, j);
    DoneNeedsDone(prog, s, i, j);
  }

  lemma ApplyFrom(steps: seq<Mem -> Mem>, k: nat, m: Mem)
    requires k <= |steps|
    ensures ApplySteps(steps[k..], m) == if k < |steps| then ApplySteps(steps[k + 1..], steps[k](m)) else m
  {
    if k < |steps| {
      assert steps[k..][0] == steps[k] && steps[k..][1..] == steps[k + 1..];
    }
  }

  lemma {:induction false} StepToEnd(prog: Program, m: Mem, acts: seq<Action>, i: nat) returns (acts': seq<Action>)
    requires Schedule(prog, m, acts) && Bounded(prog, Reach(prog, m, acts)) && IsRunning(Reach(prog, m, acts), i)
    ensures Schedule(prog, m, acts') && Bounded(prog, Reach(prog, m, acts'))
    ensures var s, s' := Reach(prog, m, acts), Reach(prog, m, acts');
      s'.tasks == s.tasks[i := Done] && s'.blocked == s.blocked
      && s'.mem == ApplySteps(prog[i].steps[s.tasks[i].at..], s.mem)
    decreases |prog[i].steps| - Reach(prog, m, acts).tasks[i].at
  {
    hide ApplySteps;
    var s := Reach(prog, m, acts);
    ApplyFrom(prog[i].steps, s.tasks[i].at, s.mem);
    if s.tasks[i].at < |prog[i].steps| {
      Extend(prog, m, acts, Step(i));
      acts' := StepToEnd(prog, m, acts + [Step(i)], i);
    } else {
      Extend(prog, m, acts, Finish(i));
      acts' := acts + [Finish(i)];
    }
  }

  lemma RequiredIsClosed(prog: Program, n: nat, k: nat, j: nat)
    requires Required(prog, n, j) && Must(prog, k, j)
    ensures Required(prog, n, k)
  {
    var i: nat :| i < n <= |prog| && prog[i].undeferred && Needs(prog, i, j);
    NeedsExtends(prog, i, j, k);
  }

  lemma {:induction false} NeedsExtends(prog: Program, i: nat, j: nat, k: nat)
    requires Needs(prog, i, j) && Must(prog, k, j)
    ensures Needs(prog, i, k)
    decreases i
  {
    if j == i {
      assert Needs(prog, k, k);
    } else {
      var h: nat :| h < i && Must(prog, h, i) && Needs(prog, h, j);
      NeedsExtends(prog, h, j, k);
    }
  }

  // Submit the next task and, if asked, run it to the end before going on.
  lemma SubmitNext(prog: Program, m: Mem, acts: seq<Action>, run: bool) returns (acts': seq<Action>)
    requires Schedule(prog, m, acts) && |Reach(prog, m, acts).tasks| < |prog| && !Reach(prog, m, acts).blocked
    requires Bounded(prog, Reach(prog, m, acts)) && forall i: nat :: !IsRunning(Reach(prog, m, acts), i)
    requires var s := Reach(prog, m, acts);
      && (prog[|s.tasks|].undeferred ==> run)
      && (run ==> forall j :: Must(prog, j, |s.tasks|) ==> IsDone(s, j))
    ensures Schedule(prog, m, acts') && !Reach(prog, m, acts').blocked
    ensures Reach(prog, m, acts').tasks == Reach(prog, m, acts).tasks + [if run then Done else Pending]
  {
    var s := Reach(prog, m, acts);
    var i := |s.tasks|;
    Extend(prog, m, acts, Submit);
    acts' := acts + [Submit];
    var s' := Reach(prog, m, acts');
    if run {
      assert forall j: nat :: IsDone(s, j) ==> IsDone(s', j);
      assert forall j: nat :: IsRunning(s', j) ==> IsRunning(s, j);
      Extend(prog, m, acts', Start(i));
      acts' := StepToEnd(prog, m, acts' + [Start(i)], i);
      if Reach(prog, m, acts').blocked {
        Extend(prog, m, acts', Return);
        acts' := acts' + [Return];
      }
    }
  }

  // Tasks that can run without any other: with each its predecessors, and all of the
  // first n that are waited for.
  ghost predicate Closed(prog: Program, n: nat, some: set<nat>) {
    && n <= |prog|
    && (forall k, h :: k in some && Must(prog, h, k) ==> h in some)
    && (forall k :: 0 <= k < n && prog[k].undeferred ==> k in some)
  }

  // Of these tasks those submitted have run, and no other.
  predicate Lazy(some: set<nat>, tasks: seq<Phase>) {
    forall i :: 0 <= i < |tasks| ==> tasks[i] == if i in some then Done else Pending
  }

  lemma {:induction false} LazyRun(prog: Program, m: Mem, n: nat, some: set<nat>, k: nat) returns (acts: seq<Action>)
    requires Closed(prog, n, some) && k <= n
    ensures Schedule(prog, m, acts) && !Reach(prog, m, acts).blocked
    ensures |Reach(prog, m, acts).tasks| == k && Lazy(some, Reach(prog, m, acts).tasks)
    decreases k
  {
    if k == 0 {
      acts := [];
    } else {
      var before := LazyRun(prog, m, n, some, k - 1);
      var s := Reach(prog, m, before);
      assert Bounded(prog, s) && forall i: nat :: !IsRunning(s, i);
      assert k - 1 in some ==> forall h :: Must(prog, h, k - 1) ==> IsDone(s, h);
      acts := SubmitNext(prog, m, before, k - 1 in some);
    }
  }

  // Waiting is exact. When the n-th submission has returned, an earlier task is
  // complete in every run exactly when some wait so far requires it; any other may
  // still not have started.
  lemma WaitIsExact(prog: Program, m: Mem, n: nat, j: nat)
    requires j < n <= |prog|
    ensures Required(prog, n, j) <==>
      forall acts :: Schedule(prog, m, acts) && |Reach(prog, m, acts).tasks| == n && !Reach(prog, m, acts).blocked ==>
        IsDone(Reach(prog, m, acts), j)
    ensures !Required(prog, n, j) ==>
      exists acts :: Schedule(prog, m, acts) && |Reach(prog, m, acts).tasks| == n && !Reach(prog, m, acts).blocked
        && Reach(prog, m, acts).tasks[j] == Pending
  {
    if Required(prog, n, j) {
      forall acts | Schedule(prog, m, acts) && |Reach(prog, m, acts).tasks| == n && !Reach(prog, m, acts).blocked
        ensures IsDone(Reach(prog, m, acts), j)
      {
        ReturnMeansCompleted(prog, m, acts, j);
      }
    } else {
      WaitedForIsClosed(prog, n);
      var acts := LazyRun(prog, m, n, WaitedFor(prog, n), n);
      assert Reach(prog, m, acts).tasks[j] == Pending;
    }
  }

  ghost function WaitedFor(prog: Program, n: nat): (some: set<nat>)
    ensures forall k: nat :: k in some <==> k < n && Required(prog, n, k)
  {
    set k: nat | k < n && Required(prog, n, k)
  }

  lemma {:induction false} NeedsAreEarlier(prog: Program, i: nat, j: nat)
    requires Needs(prog, i, j)
    ensures j <= i
    decreases i
  {
    if j != i {
      var k: nat :| k < i && Must(prog, k, i) && Needs(prog, k, j);
      NeedsAreEarlier(prog, k, j);
    }
  }

  lemma WaitedForIsClosed(prog: Program, n: nat)
    requires n <= |prog|
    ensures Closed(prog, n, WaitedFor(prog, n))
  {
    forall k, h | k in WaitedFor(prog, n) && Must(prog, h, k) ensures h in WaitedFor(prog, n) {
      RequiredIsClosed(prog, n, h, k);
    }
    forall k | 0 <= k < n && prog[k].undeferred ensures k in WaitedFor(prog, n) {
      assert Needs(prog, k, k);
    }
  }

  // What must have run before tasks i and j can start next to each other.
  ghost function Preparation(prog: Program, i: nat, j: nat): (some: set<nat>)
    ensures forall k: nat :: k in some <==>
      k < j && (Required(prog, j, k) || (k != i && Needs(prog, i, k)) || Needs(prog, j, k))
  {
    set k: nat | k < j && (Required(prog, j, k) || (k != i && Needs(prog, i, k)) || Needs(prog, j, k))
  }

  lemma PreparationIsClosed(prog: Program, i: nat, j: nat)
    requires i < j < |prog| && !Needs(prog, j, i) && !Required(prog, j, i)
    ensures Closed(prog, j, Preparation(prog, i, j)) && i !in Preparation(prog, i, j)
    ensures forall h :: Must(prog, h, i) || Must(prog, h, j) ==> h in Preparation(prog, i, j)
  {
    var some := Preparation(prog, i, j);
    forall k, h | k in some && Must(prog, h, k) ensures h in some {
      if Required(prog, j, k) {
        RequiredIsClosed(prog, j, h, k);
      } else if Needs(prog, j, k) {
        NeedsExtends(prog, j, k, h);
      } else {
        NeedsExtends(prog, i, k, h);
        NeedsAreEarlier(prog, i, k);
      }
    }
    forall k | 0 <= k < j && prog[k].undeferred ensures k in some {
      assert Needs(prog, k, k);
    }
    forall h | Must(prog, h, i) || Must(prog, h, j) ensures h in some {
      assert Needs(prog, h, h);
    }
  }

  // Two running tasks do not need each other, do not exclude each other, and no wait
  // between their submissions required the first.
  lemma RunningTogether(prog: Program, m: Mem, acts: seq<Action>, i: nat, j: nat)
    requires i < j && Schedule(prog, m, acts)
    requires IsRunning(Reach(prog, m, acts), i) && IsRunning(Reach(prog, m, acts), j)
    ensures !Needs(prog, j, i) && !Excl(prog, i, j) && !Required(prog, j, i)
  {
    hide TraceInOrder, Schedule, Reach;
    EveryRunKeeps(prog, m, acts);
    var s := Reach(prog, m, acts);
    if Needs(prog, j, i) {
      var k: nat :| k < j && Must(prog, k, j) && Needs(prog, k, i);
      DoneNeedsDone(prog, s, k, i);
    }
    if Required(prog, j, i) {
      var w: nat :| w < j && prog[w].undeferred && Needs(prog, w, i);
      DoneNeedsDone(prog, s, w, i);
    }
  }

  // Ordering is exact, too: two tasks overlap in some run if and only if the later one
  // does not require the earlier one, they do not exclude each other, and no wait
  // submitted before the later one requires the earlier one.
  lemma OverlapIsExact(prog: Program, m: Mem, i: nat, j: nat)
    requires i < j < |prog|
    ensures !Needs(prog, j, i) && !Excl(prog, i, j) && !Required(prog, j, i) <==>
      exists acts :: Schedule(prog, m, acts)
                     && IsRunning(Reach(prog, m, acts), i) && IsRunning(Reach(prog, m, acts), j)
  {
    if acts :| Schedule(prog, m, acts) && IsRunning(Reach(prog, m, acts), i) && IsRunning(Reach(prog, m, acts), j) {
      RunningTogether(prog, m, acts, i, j);
    }
    if !Needs(prog, j, i) && !Excl(prog, i, j) && !Required(prog, j, i) {
      var acts := Overlap(prog, m, i, j);
    }
  }

  lemma Overlap(prog: Program, m: Mem, i: nat, j: nat) returns (acts: seq<Action>)
    requires i < j < |prog| && !Needs(prog, j, i) && !Excl(prog, i, j) && !Required(prog, j, i)
    ensures Schedule(prog, m, acts) && IsRunning(Reach(prog, m, acts), i) && IsRunning(Reach(prog, m, acts), j)
  {
    hide Needs, Required;
    var some := Preparation(prog, i, j);
    PreparationIsClosed(prog, i, j);
    acts := LazyRun(prog, m, j, some, j);
    var s := Reach(prog, m, acts);
    Extend(prog, m, acts, Submit);
    acts := acts + [Submit];
    assert Reach(prog, m, acts).tasks == s.tasks + [Pending];
    assert forall k :: k in some ==> IsDone(Reach(prog, m, acts), k);
    acts := StartBoth(prog, m, acts, i, j);
  }

  lemma StartBoth(prog: Program, m: Mem, acts: seq<Action>, i: nat, j: nat) returns (acts': seq<Action>)
    requires Schedule(prog, m, acts) && |Reach(prog, m, acts).tasks| <= |prog|
    requires var s := Reach(prog, m, acts);
      && i < |s.tasks| && j < |s.tasks| && i != j && s.tasks[i] == s.tasks[j] == Pending && !Excl(prog, i, j)
      && (forall k: nat :: !IsRunning(s, k))
      && (forall h: nat :: Must(prog, h, i) || Must(prog, h, j) ==> IsDone(s, h))
    ensures Schedule(prog, m, acts') && IsRunning(Reach(prog, m, acts'), i) && IsRunning(Reach(prog, m, acts'), j)
  {
    hide Must, Excl;
    Extend(prog, m, acts, Start(i));
    var first := acts + [Start(i)];
    var s, s' := Reach(prog, m, acts), Reach(prog, m, first);
    assert s'.tasks == s.tasks[i := Running(0)];
    assert forall k: nat :: k != i ==> (IsRunning(s', k) <==> IsRunning(s, k)) && (IsDone(s', k) <==> IsDone(s, k));
    Extend(prog, m, first, Start(j));
    acts' := first + [Start(j)];
  }
}
