// Every schedule leaves the memory of program order.
module Determinacy {
  import opened Accesses
  import opened Traces
  import opened Scheduler

  // ---- what a task body may touch ----

  predicate Covers(r: Region, l: Loc) {
    match r
    case Handle(b) => l == Token(b)
    case Segment(s, n) => l.Byte? && s <= l.addr < s + n
    case Nowhere => false
  }

  ghost predicate MayWrite(accs: seq<Access>, l: Loc) {
    exists a :: a in accs && a.wr && Covers(a.region, l)
  }

  // A segment is read only where an item says so; a handle only orders, so a body may
  // read what it names in any kind of dependence.
  ghost predicate MayRead(accs: seq<Access>, l: Loc) {
    exists a :: a in accs && (a.rd || (a.wr && a.region.Handle?)) && Covers(a.region, l)
  }

  ghost predicate MayTouch(accs: seq<Access>, l: Loc) {
    exists a :: a in accs && (a.rd || a.wr) && Covers(a.region, l)
  }

  predicate SameAt(m: Mem, m': Mem, l: Loc) {
    (l in m <==> l in m') && (l in m ==> m[l] == m'[l])
  }

  ghost predicate AgreeOnReads(accs: seq<Access>, m: Mem, m': Mem) {
    forall l :: MayRead(accs, l) ==> SameAt(m, m', l)
  }

  // Where two memories agree on what may be read, f writes the same value in both or
  // nothing in either.
  ghost predicate WritesAlike(f: Mem -> Mem, m: Mem, m': Mem, l: Loc) {
    SameAt(f(m), f(m'), l) || (SameAt(m, f(m), l) && SameAt(m', f(m'), l))
  }

  // A step changes only what the task declares written, and what it writes depends
  // only on what the task declares read.
  ghost predicate Confined(f: Mem -> Mem, accs: seq<Access>) {
    && (forall m, l :: !MayWrite(accs, l) ==> SameAt(m, f(m), l))
    && (forall m, m' :: AgreeOnReads(accs, m, m') ==> forall l :: MayWrite(accs, l) ==> WritesAlike(f, m, m', l))
  }

  ghost predicate SharePeers(a: seq<Access>, b: seq<Access>) {
    exists x, y :: x in a && y in b && Intersect(x.region, y.region) && Peers(x, y)
  }

  ghost predicate Unordered(prog: Program, i: nat, j: nat) {
    i < |prog| && j < |prog| && i != j && !Must(prog, i, j) && !Must(prog, j, i)
  }

  ghost predicate StepsCommute(prog: Program, i: nat, j: nat) {
    forall e: Event, f: Event :: e.task == i && f.task == j ==> Commute(StepExec(prog), e, f)
  }

  // The conditions on bodies. Every step stays within the task's items. Unordered
  // concurrent peers commute step by step, since they may interleave; commutative
  // peers only as wholes, since they never do.
  ghost predicate WellBehaved(prog: Program) {
    && (forall i, k :: 0 <= i < |prog| && 0 <= k < |prog[i].steps| ==>
          Confined(prog[i].steps[k], prog[i].accesses))
    && (forall i: nat, j: nat :: (i < j && Unordered(prog, i, j) && !Excl(prog, i, j)
          && SharePeers(prog[i].accesses, prog[j].accesses)) ==> StepsCommute(prog, i, j))
    && (forall i: nat, j: nat :: (i < j && Unordered(prog, i, j) && Excl(prog, i, j)) ==>
          Commute(TaskExec(prog), i, j))
  }

  // ---- whole tasks as events ----

  function Events(prog: Program, i: nat): seq<Event> {
    if i < |prog| then seq(|prog[i].steps|, k requires k >= 0 => Event(i, k)) else []
  }

  function TaskExec(prog: Program): (nat, Mem) -> Mem {
    (i: nat, m: Mem) => Run(StepExec(prog), Events(prog, i), m)
  }

  function Flatten(prog: Program, order: seq<nat>): seq<Event> {
    if order == [] then [] else Events(prog, order[0]) + Flatten(prog, order[1..])
  }

  function UpTo(n: nat): seq<nat> {
    seq(n, i => i)
  }

  lemma {:induction false} RunFlatten(prog: Program, order: seq<nat>, m: Mem)
    ensures Run(StepExec(prog), Flatten(prog, order), m) == Run(TaskExec(prog), order, m)
  {
    if order != [] {
      RunConcat(StepExec(prog), Events(prog, order[0]), Flatten(prog, order[1..]), m);
      RunFlatten(prog, order[1..], TaskExec(prog)(order[0], m));
    }
  }

  lemma {:induction false} InFlatten(prog: Program, order: seq<nat>, e: Event)
    ensures e in Flatten(prog, order) <==> e.task in order && e in Events(prog, e.task)
  {
    if order != [] {
      InFlatten(prog, order[1..], e);
      assert order == [order[0]] + order[1..];
      assert e in Events(prog, order[0]) ==> e.task == order[0];
    }
  }

  // In a flattened order, an event precedes another exactly as their tasks, or as
  // their steps.
  ghost predicate Aligned(order: seq<nat>, e: Event, f: Event) {
    (e.task == f.task && e.step < f.step) || Before(order, e.task, f.task)
  }

  lemma {:induction false} FlattenAligned(prog: Program, order: seq<nat>, p: nat, q: nat)
    requires Distinct(order) && p < q < |Flatten(prog, order)|
    ensures Aligned(order, Flatten(prog, order)[p], Flatten(prog, order)[q])
  {
    var head, tail := Events(prog, order[0]), Flatten(prog, order[1..]);
    var e, f := Flatten(prog, order)[p], Flatten(prog, order)[q];
    if q >= |head| {
      assert f == tail[q - |head|] && f in tail;
      InFlatten(prog, order[1..], f);
      if p < |head| {
        var j :| 0 <= j < |order[1..]| && order[1..][j] == f.task;
        assert order[0] == e.task && order[j + 1] == f.task;
      } else {
        FlattenAligned(prog, order[1..], p - |head|, q - |head|);
        if Before(order[1..], e.task, f.task) {
          var i, j :| 0 <= i < j < |order[1..]| && order[1..][i] == e.task && order[1..][j] == f.task;
          assert order[i + 1] == e.task && order[j + 1] == f.task;
        }
      }
    }
  }

  lemma AlignedOnce(order: seq<nat>, e: Event, f: Event)
    requires Distinct(order) && Aligned(order, e, f)
    ensures e != f && !Aligned(order, f, e)
  {
  }

  lemma FlattenDistinct(prog: Program, order: seq<nat>)
    requires Distinct(order)
    ensures Distinct(Flatten(prog, order))
  {
    var s := Flatten(prog, order);
    forall p, q | 0 <= p < q < |s| ensures s[p] != s[q] {
      FlattenAligned(prog, order, p, q);
      AlignedOnce(order, s[p], s[q]);
    }
  }

  // ---- independence ----

  // Storage two unrelated tasks share is written by neither.
  lemma Disjoint(a: seq<Access>, b: seq<Access>, l: Loc)
    requires !Ordered(a, b) && !SharePeers(a, b)
    ensures !(MayWrite(a, l) && MayTouch(b, l)) && !(MayTouch(a, l) && MayWrite(b, l))
  {
    forall x, y | x in a && y in b && Covers(x.region, l) && Covers(y.region, l)
      ensures !x.wr && !y.wr
    {
      assert Intersect(x.region, y.region);
      assert !Conflict(x, y) && !Peers(x, y);
    }
  }

  lemma SameEverywhere(m: Mem, m': Mem)
    requires forall l :: SameAt(m, m', l)
    ensures m == m'
  {
    forall l ensures (l in m <==> l in m') && (l in m ==> m[l] == m'[l]) {
      assert SameAt(m, m', l);
    }
  }

  lemma ReadsUntouched(a: seq<Access>, g: Mem -> Mem, b: seq<Access>, m: Mem)
    requires Confined(g, b) && forall l :: !(MayTouch(a, l) && MayWrite(b, l))
    ensures AgreeOnReads(a, m, g(m))
  {
    hide MayWrite, SameAt, WritesAlike;
    assert forall l :: MayRead(a, l) ==> MayTouch(a, l);
  }

  // Where only f may write, g before or after it makes no difference.
  lemma OnlyOneWrites(f: Mem -> Mem, a: seq<Access>, g: Mem -> Mem, b: seq<Access>, m: Mem, l: Loc)
    requires Confined(f, a) && Confined(g, b) && AgreeOnReads(a, m, g(m))
    requires MayWrite(a, l) && !MayWrite(b, l)
    ensures SameAt(f(g(m)), g(f(m)), l)
  {
    hide MayWrite, MayRead, AgreeOnReads;
    assert WritesAlike(f, m, g(m), l) && SameAt(m, g(m), l) && SameAt(f(m), g(f(m)), l);
  }

  lemma NeitherWrites(f: Mem -> Mem, a: seq<Access>, g: Mem -> Mem, b: seq<Access>, m: Mem, l: Loc)
    requires Confined(f, a) && Confined(g, b) && !MayWrite(a, l) && !MayWrite(b, l)
    ensures SameAt(f(g(m)), g(f(m)), l)
  {
    hide MayWrite, MayRead, AgreeOnReads, WritesAlike;
    assert SameAt(m, g(m), l) && SameAt(g(m), f(g(m)), l) && SameAt(m, f(m), l) && SameAt(f(m), g(f(m)), l);
  }

  lemma ConfinedCommute(f: Mem -> Mem, a: seq<Access>, g: Mem -> Mem, b: seq<Access>, m: Mem)
    requires Confined(f, a) && Confined(g, b)
    requires forall l :: !(MayWrite(a, l) && MayTouch(b, l)) && !(MayTouch(a, l) && MayWrite(b, l))
    ensures f(g(m)) == g(f(m))
  {
    hide Confined, SameAt, MayRead, AgreeOnReads;
    ReadsUntouched(a, g, b, m);
    ReadsUntouched(b, f, a, m);
    forall l ensures SameAt(f(g(m)), g(f(m)), l) {
      assert MayWrite(a, l) ==> MayTouch(a, l);
      assert MayWrite(b, l) ==> MayTouch(b, l);
      if MayWrite(a, l) {
        OnlyOneWrites(f, a, g, b, m, l);
      } else if MayWrite(b, l) {
        OnlyOneWrites(g, b, f, a, m, l);
        SameIsMutual(g(f(m)), f(g(m)), l);
      } else {
        NeitherWrites(f, a, g, b, m, l);
      }
    }
    SameEverywhere(f(g(m)), g(f(m)));
  }

  lemma SameIsMutual(m: Mem, m': Mem, l: Loc)
    requires SameAt(m, m', l)
    ensures SameAt(m', m, l)
  {
  }

  // Steps of two tasks that neither order nor exclude each other commute.
  lemma UnrelatedStepsCommute(prog: Program, i: nat, j: nat, e: Event, f: Event)
    requires WellBehaved(prog) && i < j && Unordered(prog, i, j) && !Excl(prog, i, j)
    requires e.task == i && f.task == j && e.step < |prog[i].steps| && f.step < |prog[j].steps|
    ensures Commute(StepExec(prog), e, f)
  {
    if SharePeers(prog[i].accesses, prog[j].accesses) {
      assert StepsCommute(prog, i, j);
    } else {
      forall l
        ensures !(MayWrite(prog[i].accesses, l) && MayTouch(prog[j].accesses, l))
        ensures !(MayTouch(prog[i].accesses, l) && MayWrite(prog[j].accesses, l))
      {
        Disjoint(prog[i].accesses, prog[j].accesses, l);
      }
      forall m ensures StepExec(prog)(e, StepExec(prog)(f, m)) == StepExec(prog)(f, StepExec(prog)(e, m)) {
        ConfinedCommute(prog[i].steps[e.step], prog[i].accesses, prog[j].steps[f.step], prog[j].accesses, m);
      }
    }
  }

  lemma {:induction false} EventsCommute(prog: Program, s: seq<Event>, t: seq<Event>, m: Mem)
    requires forall e, f :: e in s && f in t ==> Commute(StepExec(prog), e, f)
    ensures Run(StepExec(prog), t, Run(StepExec(prog), s, m)) == Run(StepExec(prog), s, Run(StepExec(prog), t, m))
  {
    if t != [] {
      var e := t[0];
      assert forall i :: 0 <= i < |s| ==> s[i] in s && Commute(StepExec(prog), s[i], e);
      MoveToFront(StepExec(prog), s, e, m);
      EventsCommute(prog, s, t[1..], StepExec(prog)(e, m));
    }
  }

  // Tasks that neither order the other commute as wholes, peers or not.
  lemma UnorderedTasksCommute(prog: Program, i: nat, j: nat)
    requires WellBehaved(prog) && i < j && Unordered(prog, i, j)
    ensures Commute(TaskExec(prog), i, j)
  {
    if !Excl(prog, i, j) {
      forall e, f | e in Events(prog, i) && f in Events(prog, j) ensures Commute(StepExec(prog), e, f) {
        UnrelatedStepsCommute(prog, i, j, e, f);
      }
      forall m ensures TaskExec(prog)(i, TaskExec(prog)(j, m)) == TaskExec(prog)(j, TaskExec(prog)(i, m)) {
        EventsCommute(prog, Events(prog, i), Events(prog, j), m);
      }
    }
  }

  // ---- the theorem ----

  // A complete trace is the started tasks run one after the other, rearranged.
  lemma TraceIsSerial(prog: Program, m: Mem, s: State)
    requires WellBehaved(prog) && Inv(prog, m, s) && Final(prog, s)
    ensures s.mem == Run(TaskExec(prog), s.started, m)
  {
    var serial := Flatten(prog, s.started);
    FlattenDistinct(prog, s.started);
    forall e ensures e in serial <==> e in s.trace {
      InFlatten(prog, s.started, e);
      assert e in s.trace <==> e.step < Ran(prog, s, e.task);
      InEvents(prog, e);
    }
    forall p, q | 0 <= p < q < |serial| && !Commute(StepExec(prog), serial[p], serial[q])
      ensures Before(s.trace, serial[p], serial[q])
    {
      var e, f := serial[p], serial[q];
      FlattenAligned(prog, s.started, p, q);
      assert e in serial && f in serial;
      InFlatten(prog, s.started, e);
      InFlatten(prog, s.started, f);
      CommuteUnlessRelated(prog, e, f);
      TraceAligned(prog, s, e, f);
    }
    Rearrange(StepExec(prog), serial, s.trace, m);
    RunFlatten(prog, s.started, m);
  }

  lemma InEvents(prog: Program, e: Event)
    ensures e in Events(prog, e.task) <==> e.task < |prog| && e.step < |prog[e.task].steps|
  {
    if e.task < |prog| && e.step < |prog[e.task].steps| {
      assert Events(prog, e.task)[e.step] == e;
    }
  }

  lemma CommuteUnlessRelated(prog: Program, e: Event, f: Event)
    requires WellBehaved(prog) && e in Events(prog, e.task) && f in Events(prog, f.task)
    ensures e.task == f.task || Related(prog, e.task, f.task) || Commute(StepExec(prog), e, f)
  {
    InEvents(prog, e);
    InEvents(prog, f);
    if e.task < f.task && !Related(prog, e.task, f.task) {
      UnrelatedStepsCommute(prog, e.task, f.task, e, f);
    } else if f.task < e.task && !Related(prog, e.task, f.task) {
      assert Excl(prog, f.task, e.task) ==> Excl(prog, e.task, f.task);
      UnrelatedStepsCommute(prog, f.task, e.task, f, e);
    }
  }

  // Two dependent events occur in the trace the way their tasks started.
  lemma TraceAligned(prog: Program, s: State, e: Event, f: Event)
    requires Bounded(prog, s) && StartsInOrder(prog, s) && TraceInOrder(prog, s)
    requires e in s.trace && f in s.trace && Aligned(s.started, e, f)
    requires e.task == f.task || Related(prog, e.task, f.task)
    ensures Before(s.trace, e, f)
  {
    AlignedOnce(s.started, e, f);
    var p :| 0 <= p < |s.trace| && s.trace[p] == e;
    var q :| 0 <= q < |s.trace| && s.trace[q] == f;
    assert q < p ==> Aligned(s.started, f, e) by {
      assert Related(prog, e.task, f.task) ==> Related(prog, f.task, e.task) by {
        assert Excl(prog, e.task, f.task) ==> Excl(prog, f.task, e.task);
      }
    }
  }

  // And starting in an order that respects the antecedent rule is as good as
  // starting in program order.
  lemma StartOrderIsProgramOrder(prog: Program, m: Mem, s: State)
    requires WellBehaved(prog) && Inv(prog, m, s) && Final(prog, s)
    ensures Run(TaskExec(prog), s.started, m) == Run(TaskExec(prog), UpTo(|prog|), m)
  {
    var all := UpTo(|prog|);
    forall i: nat ensures i in all <==> i < |prog| {
      assert i < |prog| ==> all[i] == i;
    }
    forall p, q | 0 <= p < q < |all| && !Commute(TaskExec(prog), all[p], all[q])
      ensures Before(s.started, all[p], all[q])
    {
      if Unordered(prog, p, q) { UnorderedTasksCommute(prog, p, q); }
      assert Must(prog, p, q);
      assert p in s.started && q in s.started;
      var i :| 0 <= i < |s.started| && s.started[i] == p;
      var j :| 0 <= j < |s.started| && s.started[j] == q;
    }
    Rearrange(TaskExec(prog), all, s.started, m);
  }

  lemma {:induction false} RunEventsIsApplySteps(prog: Program, i: nat, k: nat, m: Mem)
    requires i < |prog| && k <= |prog[i].steps|
    ensures Run(StepExec(prog), Events(prog, i)[k..], m) == ApplySteps(prog[i].steps[k..], m)
    decreases |prog[i].steps| - k
  {
    if k < |prog[i].steps| {
      var rest := Events(prog, i)[k..];
      assert rest[0] == Event(i, k) && rest[1..] == Events(prog, i)[k + 1..];
      RunEventsIsApplySteps(prog, i, k + 1, prog[i].steps[k](m));
    }
  }

  lemma TaskExecIsApplySteps(prog: Program, i: nat, m: Mem)
    requires i < |prog|
    ensures TaskExec(prog)(i, m) == ApplySteps(prog[i].steps, m)
  {
    RunEventsIsApplySteps(prog, i, 0, m);
    assert Events(prog, i)[0..] == Events(prog, i) && prog[i].steps[0..] == prog[i].steps;
  }

  lemma {:induction false} RunIsProgramOrder(prog: Program, i: nat, m: Mem)
    requires i <= |prog|
    ensures Run(TaskExec(prog), UpTo(|prog|)[i..], m) == ProgramOrder(prog[i..], m)
    decreases |prog| - i
  {
    if i < |prog| {
      var rest := UpTo(|prog|)[i..];
      assert rest[0] == i && rest[1..] == UpTo(|prog|)[i + 1..];
      assert Events(prog, i)[0..] == Events(prog, i) && prog[i].steps[0..] == prog[i].steps;
      RunEventsIsApplySteps(prog, i, 0, m);
      RunIsProgramOrder(prog, i + 1, ApplySteps(prog[i].steps, m));
    }
  }

  // Every complete run, under every interleaving the antecedent rule allows, ends
  // in the memory of running the tasks one by one in program order.
  lemma EveryScheduleIsProgramOrder(prog: Program, m: Mem, acts: seq<Action>)
    requires WellBehaved(prog) && Complete(prog, m, acts)
    ensures Reach(prog, m, acts).mem == ProgramOrder(prog, m)
  {
    var s := Reach(prog, m, acts);
    EveryRunKeeps(prog, m, acts);
    TraceIsSerial(prog, m, s);
    StartOrderIsProgramOrder(prog, m, s);
    assert UpTo(|prog|)[0..] == UpTo(|prog|) && prog[0..] == prog;
    RunIsProgramOrder(prog, 0, m);
  }
}
