// Commutative peers run in either order, so their bodies have to commute.
module PeerOrder {
  import opened Accesses
  import opened Determinacy
  import opened Liveness
  import opened Scheduler
  import opened Traces

  // A startable task can be run to its end without any other moving.
  lemma RunTask(prog: Program, m: Mem, acts: seq<Action>, i: nat) returns (acts': seq<Action>)
    requires Schedule(prog, m, acts) && Bounded(prog, Reach(prog, m, acts))
    requires Startable(prog, Reach(prog, m, acts), i)
    ensures Schedule(prog, m, acts') && Bounded(prog, Reach(prog, m, acts'))
    ensures var s, s' := Reach(prog, m, acts), Reach(prog, m, acts');
      s'.tasks == s.tasks[i := Done] && s'.blocked == s.blocked && s'.mem == TaskExec(prog)(i, s.mem)
  {
    var s := Reach(prog, m, acts);
    Extend(prog, m, acts, Start(i));
    var begun := Reach(prog, m, acts + [Start(i)]);
    acts' := StepToEnd(prog, m, acts + [Start(i)], i);
    assert prog[i].steps[0..] == prog[i].steps;
    TaskExecIsApplySteps(prog, i, s.mem);
  }

  // Two deferred tasks that are not ordered can run the later one first.
  lemma LaterFirst(prog: Program, m: Mem) returns (acts: seq<Action>)
    requires |prog| == 2 && !prog[0].undeferred && !prog[1].undeferred && !Must(prog, 0, 1)
    ensures Complete(prog, m, acts)
    ensures Reach(prog, m, acts).mem == TaskExec(prog)(0, TaskExec(prog)(1, m))
  {
    Extend(prog, m, [], Submit);
    assert [] + [Submit] == [Submit];
    Extend(prog, m, [Submit], Submit);
    acts := [Submit] + [Submit];
    var s := Reach(prog, m, acts);
    assert s.tasks == [Pending, Pending] && s.mem == m;
    assert Startable(prog, s, 1);
    acts := RunTask(prog, m, acts, 1);
    var s1 := Reach(prog, m, acts);
    assert s1.tasks == [Pending, Done];
    assert Startable(prog, s1, 0);
    acts := RunTask(prog, m, acts, 0);
  }

  lemma TwoInOrder(prog: Program, m: Mem)
    requires |prog| == 2
    ensures ProgramOrder(prog, m) == TaskExec(prog)(1, TaskExec(prog)(0, m))
  {
    TaskExecIsApplySteps(prog, 0, m);
    TaskExecIsApplySteps(prog, 1, TaskExec(prog)(0, m));
    assert prog[1..][0] == prog[1] && prog[1..][1..] == [];
    assert ProgramOrder(prog[1..], TaskExec(prog)(0, m)) == ApplySteps(prog[1].steps, TaskExec(prog)(0, m));
  }

  lemma PairBehaves(prog: Program)
    requires |prog| == 2 && Excl(prog, 0, 1) && Commute(TaskExec(prog), 0, 1)
    requires forall i, k :: 0 <= i < 2 && 0 <= k < |prog[i].steps| ==> Confined(prog[i].steps[k], prog[i].accesses)
    ensures WellBehaved(prog)
  {
    hide Confined, Commute, Excl, SharePeers, StepsCommute;
    assert forall i: nat, j: nat :: i < j && Unordered(prog, i, j) ==> i == 0 && j == 1;
  }

  // For a pair of mutually exclusive tasks that stay within their items, schedules
  // always end like program order exactly when the two bodies commute.
  lemma PeersMustCommute(prog: Program)
    requires |prog| == 2 && !prog[0].undeferred && !prog[1].undeferred
    requires !Must(prog, 0, 1) && Excl(prog, 0, 1)
    requires forall i, k :: 0 <= i < 2 && 0 <= k < |prog[i].steps| ==> Confined(prog[i].steps[k], prog[i].accesses)
    ensures (forall m, acts :: Complete(prog, m, acts) ==> Reach(prog, m, acts).mem == ProgramOrder(prog, m))
       <==> Commute(TaskExec(prog), 0, 1)
  {
    hide Confined, Final, Excl, Must, WellBehaved, ProgramOrder, Reach;
    if Commute(TaskExec(prog), 0, 1) {
      PairBehaves(prog);
      forall m, acts | Complete(prog, m, acts) ensures Reach(prog, m, acts).mem == ProgramOrder(prog, m) {
        EveryScheduleIsProgramOrder(prog, m, acts);
      }
    } else {
      var m :| TaskExec(prog)(0, TaskExec(prog)(1, m)) != TaskExec(prog)(1, TaskExec(prog)(0, m));
      var acts := LaterFirst(prog, m);
      TwoInOrder(prog, m);
    }
  }
}
