// Leaving tasks out of a well-behaved program leaves a well-behaved one.
module Subprograms {
  import opened Accesses
  import opened Determinacy
  import opened Scheduler
  import opened Traces

  // q consists of the tasks of p at these positions, up to who waits.
  ghost predicate PicksFrom(p: Program, q: Program, pos: seq<nat>) {
    && |pos| == |q|
    && (forall i, j :: 0 <= i < j < |pos| ==> pos[i] < pos[j])
    && (forall i :: 0 <= i < |q| ==>
          pos[i] < |p| && q[i].accesses == p[pos[i]].accesses && q[i].steps == p[pos[i]].steps)
  }

  lemma SameRelations(p: Program, q: Program, pos: seq<nat>, i: nat, j: nat)
    requires PicksFrom(p, q, pos) && i < |q| && j < |q|
    ensures Must(q, i, j) <==> Must(p, pos[i], pos[j])
    ensures Excl(q, i, j) <==> Excl(p, pos[i], pos[j])
  {
    hide Ordered, Exclusive;
    assert i < j ==> pos[i] < pos[j];
    assert j < i ==> pos[j] < pos[i];
  }

  lemma SameStepsCommute(p: Program, q: Program, pos: seq<nat>, i: nat, j: nat)
    requires PicksFrom(p, q, pos) && i < |q| && j < |q|
    requires StepsCommute(p, pos[i], pos[j])
    ensures StepsCommute(q, i, j)
  {
    forall e: Event, f: Event | e.task == i && f.task == j ensures Commute(StepExec(q), e, f) {
      var e', f' := Event(pos[i], e.step), Event(pos[j], f.step);
      assert Commute(StepExec(p), e', f');
      forall m ensures StepExec(q)(e, StepExec(q)(f, m)) == StepExec(q)(f, StepExec(q)(e, m)) {
        assert StepExec(p)(e', StepExec(p)(f', m)) == StepExec(p)(f', StepExec(p)(e', m));
      }
    }
  }

  lemma SameTask(p: Program, q: Program, pos: seq<nat>, i: nat, m: Mem)
    requires PicksFrom(p, q, pos) && i < |q|
    ensures TaskExec(q)(i, m) == TaskExec(p)(pos[i], m)
  {
    TaskExecIsApplySteps(q, i, m);
    TaskExecIsApplySteps(p, pos[i], m);
  }

  lemma SameTasksCommute(p: Program, q: Program, pos: seq<nat>, i: nat, j: nat)
    requires PicksFrom(p, q, pos) && i < |q| && j < |q|
    requires Commute(TaskExec(p), pos[i], pos[j])
    ensures Commute(TaskExec(q), i, j)
  {
    forall m ensures TaskExec(q)(i, TaskExec(q)(j, m)) == TaskExec(q)(j, TaskExec(q)(i, m)) {
      SameTask(p, q, pos, j, m);
      SameTask(p, q, pos, i, m);
      SameTask(p, q, pos, i, TaskExec(q)(j, m));
      SameTask(p, q, pos, j, TaskExec(q)(i, m));
      assert TaskExec(p)(pos[i], TaskExec(p)(pos[j], m)) == TaskExec(p)(pos[j], TaskExec(p)(pos[i], m));
    }
  }

  lemma PairBehaves(p: Program, q: Program, pos: seq<nat>, i: nat, j: nat)
    requires WellBehaved(p) && PicksFrom(p, q, pos) && i < j && Unordered(q, i, j)
    ensures Excl(q, i, j) ==> Commute(TaskExec(q), i, j)
    ensures !Excl(q, i, j) && SharePeers(q[i].accesses, q[j].accesses) ==> StepsCommute(q, i, j)
  {
    hide Confined, SharePeers, StepsCommute, Commute, Must, Excl;
    SameRelations(p, q, pos, i, j);
    SameRelations(p, q, pos, j, i);
    assert pos[i] < pos[j] && Unordered(p, pos[i], pos[j]);
    if Excl(q, i, j) {
      SameTasksCommute(p, q, pos, i, j);
    } else if SharePeers(q[i].accesses, q[j].accesses) {
      SameStepsCommute(p, q, pos, i, j);
    }
  }

  lemma PickBehaves(p: Program, q: Program, pos: seq<nat>)
    requires WellBehaved(p) && PicksFrom(p, q, pos)
    ensures WellBehaved(q)
  {
    hide Confined, SharePeers, StepsCommute, Commute, Must, Excl;
    forall i, k | 0 <= i < |q| && 0 <= k < |q[i].steps| ensures Confined(q[i].steps[k], q[i].accesses) {
      assert Confined(p[pos[i]].steps[k], p[pos[i]].accesses);
    }
    forall i: nat, j: nat | i < j && Unordered(q, i, j)
      ensures Excl(q, i, j) ==> Commute(TaskExec(q), i, j)
      ensures !Excl(q, i, j) && SharePeers(q[i].accesses, q[j].accesses) ==> StepsCommute(q, i, j)
    {
      PairBehaves(p, q, pos, i, j);
    }
  }

  // In particular a beginning of it.
  lemma BeginningBehaves(p: Program, q: Program)
    requires WellBehaved(p) && q <= p
    ensures WellBehaved(q)
  {
    PickBehaves(p, q, UpTo(|q|));
  }
}
