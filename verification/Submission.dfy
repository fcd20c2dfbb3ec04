// Task allocation and submission (the __kmpc_omp_task* entry points), and what the
// program that results from a sequence of submissions guarantees.
module Submission {
  import opened Accesses
  import opened AccessRules
  import opened DependRules
  import opened Liveness
  import opened Scheduler
  import opened Wrappers

  const FIXED_ACCESSES: nat := 4

  // TASK_CURRENT_QUEUED
  const QUEUED := 1

  datatype Call = Resolve(slots: seq<Slot>) | Commit(accesses: seq<Access>) | WaitFor | RunAgain

  class Task {
    const slots: array<Slot>
    const steps: seq<Mem -> Mem>
    const undeferable: bool
    const omp: bool
    var executing: bool

    // __kmpc_omp_task_alloc: a fixed number of slots, all inert
    constructor Stock(steps: seq<Mem -> Mem>, undeferred: bool)
      ensures fresh(slots) && slots.Length == 4
      ensures forall k :: 0 <= k < slots.Length ==> slots[k] == Built(INERT)
      ensures this.steps == steps && undeferable == undeferred && omp && !executing
    {
      slots := new Slot[FIXED_ACCESSES](_ => Raw);
      this.steps, undeferable, omp, executing := steps, undeferred, true, false;
      new;
      PadAccesses(slots, 0, FIXED_ACCESSES);
    }

    // __kmpc_omp_task_alloc_with_deps: as many slots as announced, none constructed
    constructor Exact(naccesses: nat, steps: seq<Mem -> Mem>, undeferred: bool)
      ensures fresh(slots) && slots.Length == naccesses && forall k :: 0 <= k < slots.Length ==> slots[k] == Raw
      ensures this.steps == steps && undeferable == undeferred && omp && !executing
    {
      slots := new Slot[naccesses](_ => Raw);
      this.steps, undeferable, omp, executing := steps, undeferred, true, false;
    }

    // The task of a taskwait: an empty body, nothing constructed yet
    constructor Wait(naccesses: nat)
      ensures fresh(slots) && slots[..] == seq(naccesses, _ => Raw)
      ensures steps == [] && undeferable && !omp && !executing
    {
      slots := new Slot[naccesses](_ => Raw);
      steps, undeferable, omp, executing := [], true, false, false;
      new;
      assert slots[..] == seq(naccesses, _ => Raw);
    }
  }

  predicate RawOrInert(slots: seq<Slot>) {
    forall s :: s in slots ==> s == Raw || s == Built(INERT)
  }

  // The accesses a task is known by are these, give or take inert ones.
  ghost predicate SameAccesses(a: seq<Access>, b: seq<Access>) {
    forall x :: x != INERT ==> (x in a <==> x in b)
  }

  lemma BuiltIsTranslated(before: seq<Slot>, ts: seq<Translated>, after: seq<Slot>)
    requires FilledOver(before, ts, after) && RawOrInert(before)
    ensures SameAccesses(BuiltIn(after), Constructed(ts))
  {
    forall a | a != INERT ensures a in BuiltIn(after) <==> a in Constructed(ts) {
      InBuilt(after, a);
      InConstructed(ts, a);
      if Built(a) in after {
        var k :| 0 <= k < |after| && after[k] == Built(a);
        assert before[k] in before;
        assert k < |ts| && ts[k] == Filled(a);
      }
      if Filled(a) in ts {
        var k :| 0 <= k < |ts| && ts[k] == Filled(a);
        assert after[k] == Built(a);
      }
    }
  }

  lemma NothingFilled(slots: seq<Slot>)
    requires RawOrInert(slots)
    ensures SameAccesses(BuiltIn(slots), [])
  {
    assert FilledOver(slots, [], slots);
    BuiltIsTranslated(slots, [], slots);
  }

  // XKRT has been handed a slot in which no access was constructed. What it makes of that
  // is not known.
  predicate ResolvesRaw(calls: seq<Call>) {
    exists k :: 0 <= k < |calls| && calls[k].Resolve? && Raw in calls[k].slots
  }

  // The runtime as its callers see it: the calls made, and the tasks committed, in order,
  // by their constructed accesses.
  class Runtime {
    var calls: seq<Call>
    var prog: Program

    constructor ()
      ensures calls == [] && prog == []
    {
      calls, prog := [], [];
    }

    method CommitAndWait(task: Task)
      modifies this
      ensures prog == old(prog) + [TaskDef(BuiltIn(task.slots[..]), task.steps, task.undeferable, task.omp)]
      ensures calls == old(calls) + [Commit(BuiltIn(task.slots[..]))] + (if task.undeferable then [WaitFor] else [])
    {
      calls := calls + [Commit(BuiltIn(task.slots[..]))];
      prog := prog + [TaskDef(BuiltIn(task.slots[..]), task.steps, task.undeferable, task.omp)];
      if task.undeferable {
        calls := calls + [WaitFor];
      }
    }

    // __kmpc_omp_task: an untied task that is already executing is run on instead
    method OmpTask(task: Task) returns (r: int)
      requires !task.executing ==> RawOrInert(task.slots[..])
      modifies this
      ensures task.executing ==> r == 1 && prog == old(prog) && calls == old(calls) + [RunAgain]
      ensures !task.executing ==>
        && r == 0 && |prog| == |old(prog)| + 1 && prog[..|old(prog)|] == old(prog)
        && Lowered(prog[|old(prog)|], [], task.steps, task.undeferable, task.omp)
        && calls == old(calls) + [Commit(BuiltIn(task.slots[..]))] + (if task.undeferable then [WaitFor] else [])
    {
      if task.executing {
        calls := calls + [RunAgain];
        return 1;
      }
      NothingFilled(task.slots[..]);
      CommitAndWait(task);
      return 0;
    }

    // __kmpc_omp_task_with_deps_v2
    method OmpTaskWithDeps(task: Task, acs: array<AccInfo>, deps: seq<DepInfo>, noalias: seq<DepInfo>)
      returns (r: Result<int, Failure>)
      requires RawOrInert(task.slots[..])
      modifies this, task.slots, acs
      ensures var n := acs.Length + |deps| + |noalias|;
        var ts := TranslateAll(old(acs[..]), deps, noalias);
        && (r == Err(TooManyAccesses) <==> n > task.slots.Length)
        && (r == Err(Unsupported) <==> n <= task.slots.Length && Refused in ts)
        && (r.Ok? ==>
              && r.value == 1
              && FilledOver(old(task.slots[..]), ts, task.slots[..])
              && |prog| == |old(prog)| + 1 && prog[..|old(prog)|] == old(prog)
              && Lowered(prog[|old(prog)|], Constructed(ts), task.steps, task.undeferable, task.omp)
              && calls == old(calls) + (if n > 0 then [Resolve(task.slots[..n])] else [])
                        + [Commit(BuiltIn(task.slots[..]))] + (if task.undeferable then [WaitFor] else []))
    {
      var n := acs.Length + |deps| + |noalias|;
      ghost var ts := TranslateAll(acs[..], deps, noalias);
      ghost var before := task.slots[..];
      if n > 0 {
        var filled := FillSlots(task.slots, acs, deps, noalias);
        if filled.Err? {
          return Err(filled.error);
        }
        calls := calls + [Resolve(task.slots[..n])];
      } else {
        assert ts == [];
      }
      BuiltIsTranslated(before, ts, task.slots[..]);
      CommitAndWait(task);
      return Ok(QUEUED);
    }

    // xkomp_taskwait_deps: an empty undeferred task with exactly these items, or
    // nothing at all when there are none
    method TaskwaitDeps(acs: array<AccInfo>, deps: seq<DepInfo>, noalias: seq<DepInfo>)
      returns (r: Result<(), Failure>)
      modifies this, acs
      ensures var n := acs.Length + |deps| + |noalias|;
        var ts := TranslateAll(old(acs[..]), deps, noalias);
        && (n == 0 ==> r.Ok? && prog == old(prog) && calls == old(calls))
        && (r.Err? <==> Refused in ts)
        && (n > 0 && r.Ok? ==>
              && |prog| == |old(prog)| + 1 && prog[..|old(prog)|] == old(prog)
              && Lowered(prog[|old(prog)|], Constructed(ts), [], true, false)
              && |calls| == |old(calls)| + 3 && calls[..|old(calls)|] == old(calls)
              && calls[|old(calls)|].Resolve? && FilledOver(seq(n, _ => Raw), ts, calls[|old(calls)|].slots)
              && calls[|old(calls)| + 1].Commit? && calls[|old(calls)| + 2] == WaitFor)
    {
      var n := acs.Length + |deps| + |noalias|;
      if n == 0 {
        assert TranslateAll(acs[..], deps, noalias) == [];
        return Ok(());
      }
      ghost var ts := TranslateAll(acs[..], deps, noalias);
      var task := new Task.Wait(n);
      ghost var before := task.slots[..];
      var filled := FillSlots(task.slots, acs, deps, noalias);
      assert filled != Err(TooManyAccesses) && task.slots.Length == n;
      if filled.Err? {
        assert filled.error == Unsupported;
        return Err(Unsupported);
      }
      assert task.slots[..n] == task.slots[..];
      calls := calls + [Resolve(task.slots[..n])];
      BuiltIsTranslated(before, ts, task.slots[..]);
      CommitAndWait(task);
      return Ok(());
    }
  }

  ghost predicate Lowered(t: TaskDef, accesses: seq<Access>, steps: seq<Mem -> Mem>, undeferred: bool, omp: bool) {
    SameAccesses(t.accesses, accesses) && t.steps == steps && t.undeferred == undeferred && t.omp == omp
  }

  // ---- whole programs ----

  // A task or a taskwait construct with its access and depend clauses.
  datatype Construct =
    | TaskConstruct(accs: seq<AccessItem>, items: seq<ListItem>, steps: seq<Mem -> Mem>, undeferred: bool)
    | TaskwaitDepend(accs: seq<AccessItem>, items: seq<ListItem>)

  predicate Waits(c: Construct) {
    c.TaskwaitDepend? || c.undeferred
  }

  function AccessesOf(c: Construct): seq<Access> {
    Translations(c.accs, c.items)
  }

  function StepsOf(c: Construct): seq<Mem -> Mem> {
    if c.TaskConstruct? then c.steps else []
  }

  ghost predicate StandsFor(t: TaskDef, c: Construct) {
    Lowered(t, AccessesOf(c), StepsOf(c), Waits(c), c.TaskConstruct?)
  }

  // One task per construct, with the accesses, body and wait of that construct.
  ghost predicate Realizes(cs: seq<Construct>, prog: Program) {
    |prog| == |cs| && forall k :: 0 <= k < |cs| ==> StandsFor(prog[k], cs[k])
  }

  // How a construct is compiled: for which ABI, and how many of its depend items go in
  // the first of the two lists.
  datatype Compiled = Compiled(stock: bool, split: nat)

  // omp_all_memory, or an item without an address
  predicate HasNullBase(c: Construct) {
    (exists x :: x in c.accs && x.base == 0) || (exists y :: y in c.items && (y.AllMemory? || y.base == 0))
  }

  // A null-base item in a slot that nothing has padded: in a task sized for the patched
  // ABI, or in the task of a taskwait.
  predicate HandsRawSlot(c: Construct, how: Compiled) {
    HasNullBase(c) && (c.TaskwaitDepend? || !how.stock)
  }

  predicate Clean(cs: seq<Construct>, hows: seq<Compiled>) {
    |hows| == |cs| && forall k :: 0 <= k < |cs| ==> !HandsRawSlot(cs[k], hows[k])
  }

  // What the calls for these constructs leave in the runtime, when XKRT is handed
  // constructed accesses only.
  ghost predicate Submitted(cs: seq<Construct>, hows: seq<Compiled>, prog: Program) {
    Clean(cs, hows) && Realizes(cs, prog)
  }

  // With addresses in every item, the null bases are those of omp_all_memory.
  lemma OnlyAllMemoryIsNull(c: Construct)
    requires ValidClauses(c.accs, c.items)
    ensures HasNullBase(c) <==> AllMemory in c.items
  {
  }

  // The split into aliasing and other dependences is not visible in the translation.
  lemma ListsAreOneClause(accs: seq<AccessItem>, items: seq<ListItem>, deps: seq<DepInfo>, noalias: seq<DepInfo>)
    requires deps + noalias == EncodeAll(items)
    ensures Constructed(TranslateAll(EncodeAccesses(accs), deps, noalias)) == Translations(accs, items)
  {
    assert TranslateAll(EncodeAccesses(accs), deps, noalias) == TranslateAll(EncodeAccesses(accs), deps + noalias, []);
  }

  lemma NeverRefused(accs: seq<AccessItem>, deps: seq<DepInfo>, noalias: seq<DepInfo>, items: seq<ListItem>)
    requires deps + noalias == EncodeAll(items)
    ensures Refused !in TranslateAll(EncodeAccesses(accs), deps, noalias)
  {
    TranslateAllAt(EncodeAccesses(accs), deps, noalias);
    assert forall i :: 0 <= i < |deps| ==> deps[i] == EncodeAll(items)[i];
    assert forall i :: 0 <= i < |noalias| ==> noalias[i] == EncodeAll(items)[|deps| + i];
  }

  // A taskwait without items is not submitted at all.
  predicate IsNothing(c: Construct) {
    c.TaskwaitDepend? && c.accs == [] && c.items == []
  }

  function Effective(cs: seq<Construct>): seq<Construct> {
    if cs == [] then []
    else Effective(cs[..|cs| - 1]) + (if IsNothing(cs[|cs| - 1]) then [] else [cs[|cs| - 1]])
  }

  function EffectiveHows(cs: seq<Construct>, hows: seq<Compiled>): (r: seq<Compiled>)
    requires |hows| == |cs|
    ensures |r| == |Effective(cs)|
  {
    if cs == [] then []
    else EffectiveHows(cs[..|cs| - 1], hows[..|cs| - 1]) + (if IsNothing(cs[|cs| - 1]) then [] else [hows[|cs| - 1]])
  }

  // What is submitted of a sequence of constructs: all of it, in order, but for taskwaits
  // without items.
  lemma {:induction false} EffectiveIs(cs: seq<Construct>, c: Construct, ds: seq<Construct>)
    ensures Effective(cs + [c] + ds)
         == Effective(cs) + (if c.TaskwaitDepend? && c.accs == [] && c.items == [] then [] else [c]) + Effective(ds)
    decreases |ds|
  {
    var mid := if IsNothing(c) then [] else [c];
    var all := cs + [c] + ds;
    if ds == [] {
      assert all[..|all| - 1] == cs && all[|all| - 1] == c;
      assert Effective(cs) + mid + [] == Effective(cs) + mid;
    } else {
      var front, last := ds[..|ds| - 1], ds[|ds| - 1];
      EffectiveIs(cs, c, front);
      hide IsNothing;
      assert all[..|all| - 1] == cs + [c] + front && all[|all| - 1] == last;
      var end := if IsNothing(last) then [] else [last];
      assert Effective(cs) + mid + (Effective(front) + end) == (Effective(cs) + mid + Effective(front)) + end;
    }
  }

  predicate Fits(c: Construct, how: Compiled) {
    how.stock && c.TaskConstruct? ==> |c.accs| + |c.items| <= FIXED_ACCESSES
  }

  // The calls compiled code makes for one construct.
  method Submit(rt: Runtime, c: Construct, how: Compiled) returns (ok: bool)
    requires how.split <= |c.items|
    modifies rt
    ensures ok <==> Fits(c, how)
    ensures !ok <==> how.stock && c.TaskConstruct? && |c.accs| + |c.items| > 4
    ensures ok && IsNothing(c) ==> rt.prog == old(rt.prog)
    ensures ok && !IsNothing(c) ==> Appended(c, old(rt.prog), rt.prog)
    // only a taskwait without items is nothing
    ensures ok && (c.TaskConstruct? || c.accs != [] || c.items != []) ==> Appended(c, old(rt.prog), rt.prog)
    // it hands the runtime an unconstructed slot exactly in this case
    ensures ok ==> (ResolvesRaw(rt.calls) <==> ResolvesRaw(old(rt.calls)) || HandsRawSlot(c, how))
    // which for valid clauses is omp_all_memory where nothing is padded
    ensures ok && ValidClauses(c.accs, c.items) ==>
      (ResolvesRaw(rt.calls) <==>
         ResolvesRaw(old(rt.calls)) || (AllMemory in c.items && (c.TaskwaitDepend? || !how.stock)))
  {
    hide StandsFor, ResolvesRaw, HasNullBase;
    if ValidClauses(c.accs, c.items) { OnlyAllMemoryIsNull(c); }
    var all := EncodeAll(c.items);
    if c.TaskwaitDepend? {
      SubmitWait(rt, c, all[..how.split], all[how.split..]);
      ok := true;
    } else {
      ok := SubmitTask(rt, c, how.stock, all[..how.split], all[how.split..]);
    }
  }

  ghost predicate Appended(c: Construct, before: Program, after: Program) {
    |after| == |before| + 1 && after[..|before|] == before && StandsFor(after[|before|], c)
  }

  lemma LoggedRaw(before: seq<Call>, slots: seq<Slot>, rest: seq<Call>)
    requires forall c :: c in rest ==> !c.Resolve?
    ensures ResolvesRaw(before + [Resolve(slots)] + rest) <==> ResolvesRaw(before) || Raw in slots
    ensures ResolvesRaw(before + rest) <==> ResolvesRaw(before)
  {
    var all, without := before + [Resolve(slots)] + rest, before + rest;
    assert all[|before|] == Resolve(slots);
    assert forall k :: 0 <= k < |before| ==> all[k] == before[k] && without[k] == before[k];
    assert forall k :: |before| < k < |all| ==> all[k] in rest;
    assert forall k :: |before| <= k < |without| ==> without[k] in rest;
  }

  lemma BasesAre(c: Construct, deps: seq<DepInfo>, noalias: seq<DepInfo>)
    requires deps + noalias == EncodeAll(c.items)
    ensures var n := |c.accs| + |deps| + |noalias|;
      (forall k :: 0 <= k < n ==> BaseOf(EncodeAccesses(c.accs), deps, noalias, k) != 0) <==> !HasNullBase(c)
  {
    var acs := EncodeAccesses(c.accs);
    forall i: nat | i < |c.items|
      ensures BaseOf(acs, deps, noalias, |c.accs| + i) == if c.items[i].AllMemory? then 0 else c.items[i].base
    {
      assert (deps + noalias)[i] == Encode(c.items[i]);
    }
    if x :| x in c.accs && x.base == 0 {
      var i: nat :| i < |c.accs| && c.accs[i] == x;
      assert BaseOf(acs, deps, noalias, i) == 0;
    }
    if y :| y in c.items && (y.AllMemory? || y.base == 0) {
      var i: nat :| i < |c.items| && c.items[i] == y;
      assert BaseOf(acs, deps, noalias, |c.accs| + i) == 0;
    }
    forall k: nat | k < |acs| + |deps| + |noalias| && BaseOf(acs, deps, noalias, k) == 0 ensures HasNullBase(c) {
      if k < |acs| {
        assert c.accs[k] in c.accs;
      } else {
        var i := k - |acs|;
        assert BaseOf(acs, deps, noalias, |c.accs| + i) == 0 && c.items[i] in c.items;
      }
    }
  }

  // A fresh task's slots after they have been filled: one is raw exactly when it was not
  // padded and an item has no address.
  lemma RawSlotExactly(c: Construct, padded: bool, before: seq<Slot>, deps: seq<DepInfo>, noalias: seq<DepInfo>,
                       after: seq<Slot>)
    requires deps + noalias == EncodeAll(c.items)
    requires forall k :: 0 <= k < |before| ==> before[k] == if padded then Built(INERT) else Raw
    requires FilledOver(before, TranslateAll(EncodeAccesses(c.accs), deps, noalias), after)
    ensures Raw in after[..|c.accs| + |c.items|] <==> HasNullBase(c) && !padded
  {
    hide TranslateAll, FilledOver, BaseOf, HasNullBase;
    var n := |c.accs| + |c.items|;
    assert |deps| + |noalias| == |c.items|;
    FilledSize(before, TranslateAll(EncodeAccesses(c.accs), deps, noalias), after);
    ResolverSeesBuiltSlots(before, EncodeAccesses(c.accs), deps, noalias, after);
    BasesAre(c, deps, noalias);
    assert (forall k :: 0 <= k < n ==> after[k].Built?) <==> Raw !in after[..n] by {
      assert forall k :: 0 <= k < n ==> after[..n][k] == after[k];
    }
  }

  lemma FilledSize(before: seq<Slot>, ts: seq<Translated>, after: seq<Slot>)
    requires FilledOver(before, ts, after)
    ensures |ts| <= |before| == |after|
  {
  }

  method Items(accs: seq<AccessItem>) returns (acs: array<AccInfo>)
    ensures fresh(acs) && acs[..] == EncodeAccesses(accs) && acs.Length == |accs|
  {
    var infos := EncodeAccesses(accs);
    acs := new AccInfo[|infos|](i requires 0 <= i < |infos| => infos[i]);
  }

  method SubmitWait(rt: Runtime, c: Construct, deps: seq<DepInfo>, noalias: seq<DepInfo>)
    requires c.TaskwaitDepend? && deps + noalias == EncodeAll(c.items)
    modifies rt
    ensures IsNothing(c) ==> rt.prog == old(rt.prog)
    ensures !IsNothing(c) ==> Appended(c, old(rt.prog), rt.prog)
    ensures ResolvesRaw(rt.calls) <==> ResolvesRaw(old(rt.calls)) || HasNullBase(c)
  {
    hide Lowered, Translations, TranslateAll, Constructed, EncodeAccess, FilledOver, ResolvesRaw;
    var acs := Items(c.accs);
    ListsAreOneClause(c.accs, c.items, deps, noalias);
    NeverRefused(c.accs, deps, noalias, c.items);
    assert |deps| + |noalias| == |c.items|;
    ghost var calls := rt.calls;
    var waited := rt.TaskwaitDeps(acs, deps, noalias);
    if !IsNothing(c) {
      var slots := rt.calls[|calls|].slots;
      var n := |c.accs| + |c.items|;
      RawSlotExactly(c, false, seq(n, _ => Raw), deps, noalias, slots);
      FilledSize(seq(n, _ => Raw), TranslateAll(EncodeAccesses(c.accs), deps, noalias), slots);
      assert slots[..n] == slots;
      LoggedRaw(calls, slots, rt.calls[|calls| + 1..]);
      assert rt.calls == calls + [Resolve(slots)] + rt.calls[|calls| + 1..];
    }
  }

  method NewTask(c: Construct, stock: bool) returns (task: Task)
    requires c.TaskConstruct?
    ensures fresh(task) && fresh(task.slots) && !task.executing && task.omp
    ensures task.steps == c.steps && task.undeferable == c.undeferred
    ensures task.slots.Length == if stock then FIXED_ACCESSES else |c.accs| + |c.items|
    ensures forall k :: 0 <= k < task.slots.Length ==> task.slots[..][k] == if stock then Built(INERT) else Raw
    ensures RawOrInert(task.slots[..])
  {
    if stock {
      task := new Task.Stock(c.steps, c.undeferred);
    } else {
      task := new Task.Exact(|c.accs| + |c.items|, c.steps, c.undeferred);
    }
    FreshSlots(task.slots[..]);
  }

  method SubmitTask(rt: Runtime, c: Construct, stock: bool, deps: seq<DepInfo>, noalias: seq<DepInfo>)
    returns (ok: bool)
    requires c.TaskConstruct? && deps + noalias == EncodeAll(c.items)
    modifies rt
    ensures ok <==> (stock ==> |c.accs| + |c.items| <= FIXED_ACCESSES)
    ensures ok ==> Appended(c, old(rt.prog), rt.prog)
    ensures ok ==> (ResolvesRaw(rt.calls) <==> ResolvesRaw(old(rt.calls)) || (HasNullBase(c) && !stock))
  {
    hide Lowered, Translations, RawOrInert, BuiltIn, ResolvesRaw;
    var task := NewTask(c, stock);
    if c.accs == [] && c.items == [] {
      NoItemsNoAccesses(c);
      ghost var calls := rt.calls;
      var _ := rt.OmpTask(task);
      ghost var rest := rt.calls[|calls|..];
      assert rt.calls == calls + rest;
      LoggedRaw(calls, [], rest);
      ok := true;
    } else {
      ok := SubmitItems(rt, c, task, stock, deps, noalias);
    }
  }

  method SubmitItems(rt: Runtime, c: Construct, task: Task, stock: bool, deps: seq<DepInfo>, noalias: seq<DepInfo>)
    returns (ok: bool)
    requires c.TaskConstruct? && deps + noalias == EncodeAll(c.items) && (c.accs != [] || c.items != [])
    requires RawOrInert(task.slots[..]) && task.omp && task.steps == c.steps && task.undeferable == c.undeferred
    requires forall k :: 0 <= k < task.slots.Length ==> task.slots[..][k] == if stock then Built(INERT) else Raw
    modifies rt, task.slots
    ensures ok <==> |c.accs| + |c.items| <= task.slots.Length
    ensures ok ==> Appended(c, old(rt.prog), rt.prog)
    ensures ok ==> (ResolvesRaw(rt.calls) <==> ResolvesRaw(old(rt.calls)) || (HasNullBase(c) && !stock))
  {
    hide Lowered, Translations, TranslateAll, Constructed, EncodeAccess, FilledOver, RawOrInert, BuiltIn, ResolvesRaw;
    assert |deps| + |noalias| == |c.items|;
    ghost var calls, before := rt.calls, task.slots[..];
    var acs := Items(c.accs);
    ListsAreOneClause(c.accs, c.items, deps, noalias);
    NeverRefused(c.accs, deps, noalias, c.items);
    var submitted := rt.OmpTaskWithDeps(task, acs, deps, noalias);
    ok := submitted.Ok?;
    if !ok {
      match submitted.error {
        case TooManyAccesses =>
        case Unsupported =>
      }
      return;
    }
    ghost var slots := task.slots[..|c.accs| + |c.items|];
    RawSlotExactly(c, stock, before, deps, noalias, task.slots[..]);
    ghost var rest := rt.calls[|calls| + 1..];
    LoggedRaw(calls, slots, rest);
    assert rt.calls == calls + [Resolve(slots)] + rest;
  }

  lemma FreshSlots(slots: seq<Slot>)
    requires || (forall k :: 0 <= k < |slots| ==> slots[k] == Raw)
             || (forall k :: 0 <= k < |slots| ==> slots[k] == Built(INERT))
    ensures RawOrInert(slots)
  {
  }

  lemma NoItemsNoAccesses(c: Construct)
    ensures c.accs == [] && c.items == [] ==> AccessesOf(c) == []
  {
    if c.accs == [] && c.items == [] {
      assert TranslateAll(EncodeAccesses(c.accs), EncodeAll(c.items), []) == [];
    }
  }

  // Submitting constructs one after the other leaves the program they stand for, hands the
  // runtime an unconstructed slot exactly when one of them does, and fails exactly when a
  // task compiled for the stock ABI has too many items.
  method SubmitAll(cs: seq<Construct>, hows: seq<Compiled>) returns (ok: bool, prog: Program, calls: seq<Call>)
    requires |hows| == |cs| && forall k :: 0 <= k < |cs| ==> hows[k].split <= |cs[k].items|
    ensures ok <==> forall k :: 0 <= k < |cs| ==> Fits(cs[k], hows[k])
    ensures ok ==> Realizes(Effective(cs), prog)
    ensures ok ==> (ResolvesRaw(calls) <==> !Clean(cs, hows))
    ensures ok && !ResolvesRaw(calls) ==> Submitted(Effective(cs), EffectiveHows(cs, hows), prog)
  {
    hide Fits, StandsFor, HandsRawSlot, ResolvesRaw, Effective;
    var rt := new Runtime();
    NoCallsNoRaw();
    EffectiveSteps(cs, 0);
    for k := 0 to |cs|
      invariant fresh(rt)
      invariant forall i :: 0 <= i < k ==> Fits(cs[i], hows[i])
      invariant Realizes(Effective(cs[..k]), rt.prog)
      invariant ResolvesRaw(rt.calls) <==> exists i :: 0 <= i < k && HandsRawSlot(cs[i], hows[i])
    {
      ghost var before := rt.prog;
      ok := Submit(rt, cs[k], hows[k]);
      if !ok {
        return ok, [], [];
      }
      EffectiveSteps(cs, k);
      OneMoreRealized(Effective(cs[..k]), before, cs[k], Effective(cs[..k + 1]), rt.prog);
    }
    assert cs[..|cs|] == cs;
    if Clean(cs, hows) { CleanEffective(cs, hows); }
    return true, rt.prog, rt.calls;
  }

  lemma NoCallsNoRaw()
    ensures !ResolvesRaw([])
  {
  }

  lemma EffectiveSteps(cs: seq<Construct>, k: nat)
    requires k <= |cs|
    ensures Effective(cs[..0]) == []
    ensures k < |cs| ==> Effective(cs[..k + 1]) == Effective(cs[..k]) + (if IsNothing(cs[k]) then [] else [cs[k]])
  {
    if k < |cs| {
      assert cs[..k + 1][..k] == cs[..k];
    }
  }

  lemma OneMoreRealized(cs: seq<Construct>, prog: Program, c: Construct, cs': seq<Construct>, prog': Program)
    requires Realizes(cs, prog) && cs' == cs + (if IsNothing(c) then [] else [c])
    requires if IsNothing(c) then prog' == prog else Appended(c, prog, prog')
    ensures Realizes(cs', prog')
  {
    hide StandsFor;
    forall i | 0 <= i < |cs'| ensures StandsFor(prog'[i], cs'[i]) {
      if i < |cs| {
        assert prog'[i] == prog'[..|prog|][i];
      }
    }
  }

  // A taskwait that is not submitted hands over nothing, so the others are clean if all are.
  lemma {:induction false} CleanEffective(cs: seq<Construct>, hows: seq<Compiled>)
    requires Clean(cs, hows)
    ensures Clean(Effective(cs), EffectiveHows(cs, hows))
    decreases |cs|
  {
    hide HandsRawSlot;
    if cs != [] {
      CleanEffective(cs[..|cs| - 1], hows[..|cs| - 1]);
    }
  }

  // An exactly sized task with omp_all_memory as its only item hands over a raw slot.
  method RawSlotIsResolved(steps: seq<Mem -> Mem>) returns (prog: Program, calls: seq<Call>)
    ensures ResolvesRaw(calls)
  {
    var c := TaskConstruct([], [AllMemory], steps, false);
    assert AllMemory in c.items;
    var ok;
    ok, prog, calls := SubmitAll([c], [Compiled(false, 1)]);
    assert Fits(c, Compiled(false, 1)) && HandsRawSlot([c][0], [Compiled(false, 1)][0]);
  }

  predicate ValidConstructs(cs: seq<Construct>) {
    forall k :: 0 <= k < |cs| ==> ValidClauses(cs[k].accs, cs[k].items)
  }

  // Construct j depends on the earlier construct i by the rules of either clause, as far
  // as items name storage.
  ghost predicate SpecMust(cs: seq<Construct>, i: nat, j: nat) {
    i < j < |cs| && (AccessOrdered(cs[i].accs, cs[j].accs) || SpecOrdered(Named(cs[i].items), Named(cs[j].items)))
  }

  ghost predicate SpecNeeds(cs: seq<Construct>, i: nat, j: nat) {
    j == i || exists k: nat :: k < i && SpecMust(cs, k, i) && SpecNeeds(cs, k, j)
  }

  lemma SameOrder(a: seq<Access>, a': seq<Access>, b: seq<Access>, b': seq<Access>)
    requires SameAccesses(a, a') && SameAccesses(b, b')
    ensures Ordered(a, b) <==> Ordered(a', b')
    ensures Exclusive(a, b) <==> Exclusive(a', b')
  {
  }

  lemma ExclusionIsMutual(one: seq<ListItem>, two: seq<ListItem>)
    ensures SpecExclusive(one, two) <==> SpecExclusive(two, one)
  {
  }

  lemma MustIsSpecMust(cs: seq<Construct>, prog: Program, i: nat, j: nat)
    requires ValidConstructs(cs) && Realizes(cs, prog)
    ensures Must(prog, i, j) <==> SpecMust(cs, i, j)
    ensures i < |cs| && j < |cs| && i != j ==> (Excl(prog, i, j) <==> SpecExclusive(cs[i].items, cs[j].items))
  {
    if i < |cs| && j < |cs| {
      SameOrder(prog[i].accesses, AccessesOf(cs[i]), prog[j].accesses, AccessesOf(cs[j]));
      ClausesFaithful(cs[i].accs, cs[i].items, cs[j].accs, cs[j].items);
      ExclusionIsDepend(cs[i].accs, cs[i].items, cs[j].accs, cs[j].items);
      SameOrder(prog[j].accesses, AccessesOf(cs[j]), prog[i].accesses, AccessesOf(cs[i]));
      ExclusionIsDepend(cs[j].accs, cs[j].items, cs[i].accs, cs[i].items);
      ExclusionIsMutual(cs[i].items, cs[j].items);
    }
  }

  lemma {:induction false} NeedsIsSpecNeeds(cs: seq<Construct>, prog: Program, i: nat, j: nat)
    requires ValidConstructs(cs) && Realizes(cs, prog)
    ensures Needs(prog, i, j) <==> SpecNeeds(cs, i, j)
    decreases i
  {
    forall k: nat | k < i
      ensures Must(prog, k, i) && Needs(prog, k, j) <==> SpecMust(cs, k, i) && SpecNeeds(cs, k, j)
    {
      MustIsSpecMust(cs, prog, k, i);
      NeedsIsSpecNeeds(cs, prog, k, j);
    }
  }

  // Of two exclusive tasks, the one started first is done once the other starts.
  lemma NeverTogether(prog: Program, s: State, i: nat, j: nat)
    requires StartsInOrder(prog, s) && Excl(prog, i, j)
    ensures !(IsRunning(s, i) && IsRunning(s, j))
  {
    assert Excl(prog, j, i);
    if i in s.started && j in s.started {
      var p :| 0 <= p < |s.started| && s.started[p] == i;
      var q :| 0 <= q < |s.started| && s.started[q] == j;
      assert p < q || q < p;
    }
  }

  // In every run, a task that has started finds everything its clauses order before
  // it completed, and mutexinoutset tasks never run at the same time.
  lemma ClausesHonoured(cs: seq<Construct>, hows: seq<Compiled>, prog: Program, m: Mem, acts: seq<Action>,
                        i: nat, j: nat)
    requires ValidConstructs(cs) && Submitted(cs, hows, prog) && Schedule(prog, m, acts)
    ensures var s := Reach(prog, m, acts);
      && (SpecMust(cs, i, j) && j < |s.tasks| && s.tasks[j] != Pending ==> IsDone(s, i))
      && (i < |cs| && j < |cs| && i != j && SpecExclusive(cs[i].items, cs[j].items) ==>
            !(IsRunning(s, i) && IsRunning(s, j)))
  {
    var s := Reach(prog, m, acts);
    EveryRunKeeps(prog, m, acts);
    MustIsSpecMust(cs, prog, i, j);
    if j < |s.tasks| && s.tasks[j] != Pending {
      assert j in s.started;
    }
    if Excl(prog, i, j) {
      NeverTogether(prog, s, i, j);
    }
  }

  // One of the first n constructs suspends its thread and transitively depends on j.
  ghost predicate SpecRequired(cs: seq<Construct>, n: nat, j: nat) {
    exists i: nat :: i < n <= |cs| && Waits(cs[i]) && SpecNeeds(cs, i, j)
  }

  // When construct n - 1 returns, the earlier constructs completed in every run are
  // exactly those some waiting construct depends on, itself included, in the terms
  // of the clauses.
  lemma TaskwaitDependIsExact(cs: seq<Construct>, hows: seq<Compiled>, prog: Program, m: Mem, n: nat, j: nat)
    requires ValidConstructs(cs) && Submitted(cs, hows, prog) && j < n <= |cs|
    ensures SpecRequired(cs, n, j) <==>
      forall acts :: Schedule(prog, m, acts) && |Reach(prog, m, acts).tasks| == n && !Reach(prog, m, acts).blocked ==>
        IsDone(Reach(prog, m, acts), j)
  {
    assert Required(prog, n, j) <==> SpecRequired(cs, n, j) by {
      forall i: nat ensures Needs(prog, i, j) <==> SpecNeeds(cs, i, j) {
        NeedsIsSpecNeeds(cs, prog, i, j);
      }
    }
    WaitIsExact(prog, m, n, j);
  }

  // ---- padding, over whole runs ----

  // Same bodies, same accesses but for inert ones.
  ghost predicate SameButInert(prog: Program, prog': Program) {
    && |prog| == |prog'|
    && forall k :: 0 <= k < |prog| ==>
         Lowered(prog[k], prog'[k].accesses, prog'[k].steps, prog'[k].undeferred, prog'[k].omp)
  }

  lemma SameRelations(prog: Program, prog': Program, i: nat, j: nat)
    requires SameButInert(prog, prog')
    ensures Must(prog, i, j) <==> Must(prog', i, j)
    ensures Excl(prog, i, j) <==> Excl(prog', i, j)
  {
    if i < |prog| && j < |prog| {
      SameOrder(prog[i].accesses, prog'[i].accesses, prog[j].accesses, prog'[j].accesses);
      SameOrder(prog[j].accesses, prog'[j].accesses, prog[i].accesses, prog'[i].accesses);
    }
  }

  // However the same constructs are compiled, the two programs differ in inert accesses
  // at most.
  lemma RealizedTwice(cs: seq<Construct>, prog: Program, prog': Program)
    requires Realizes(cs, prog) && Realizes(cs, prog')
    ensures SameButInert(prog, prog')
  {
    hide Constructed;
    forall k | 0 <= k < |prog|
      ensures Lowered(prog[k], prog'[k].accesses, prog'[k].steps, prog'[k].undeferred, prog'[k].omp)
    {
      assert StandsFor(prog[k], cs[k]) && StandsFor(prog'[k], cs[k]);
    }
  }

  // A program of padded tasks has the runs of the exactly sized one, state by state.
  lemma {:induction false} PaddedRunsAreTheSame(prog: Program, prog': Program, m: Mem, acts: seq<Action>)
    requires SameButInert(prog, prog')
    ensures Schedule(prog, m, acts) <==> Schedule(prog', m, acts)
    ensures Schedule(prog, m, acts) ==> Reach(prog, m, acts) == Reach(prog', m, acts)
    decreases |acts|
  {
    if acts != [] {
      var prefix, a := acts[..|acts| - 1], acts[|acts| - 1];
      PaddedRunsAreTheSame(prog, prog', m, prefix);
      if Schedule(prog, m, prefix) && |Reach(prog, m, prefix).tasks| <= |prog| {
        var s := Reach(prog, m, prefix);
        forall i: nat, j: nat
          ensures (Must(prog, i, j) <==> Must(prog', i, j)) && (Excl(prog, i, j) <==> Excl(prog', i, j))
        {
          SameRelations(prog, prog', i, j);
        }
        assert Enabled(prog, s, a) <==> Enabled(prog', s, a);
      }
    }
  }

  // So the ABI a construct is compiled for, and the split of its items, are invisible in
  // every run, as long as neither hands the runtime an unconstructed slot.
  lemma CompilationIsInvisible(cs: seq<Construct>, hows: seq<Compiled>, hows': seq<Compiled>,
                               prog: Program, prog': Program, m: Mem, acts: seq<Action>)
    requires Submitted(cs, hows, prog) && Submitted(cs, hows', prog')
    ensures Schedule(prog, m, acts) <==> Schedule(prog', m, acts)
    ensures Schedule(prog, m, acts) ==> Reach(prog, m, acts) == Reach(prog', m, acts)
  {
    RealizedTwice(cs, prog, prog');
    PaddedRunsAreTheSame(prog, prog', m, acts);
  }
}
