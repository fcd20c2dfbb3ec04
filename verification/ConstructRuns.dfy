// Whole programs of constructs: conditions on bodies in the terms of their clauses, and
// the memory every schedule leaves.
module ConstructRuns {
  import opened Accesses
  import opened AccessRules
  import opened DependRules
  import opened Determinacy
  import opened PeerOrder
  import opened Scheduler
  import opened Submission
  import Taskgraph
  import opened Traces

  // ---- what a body may touch, by its clauses ----

  predicate Reads(x: AccessItem) {
    x.mode == Read || x.mode == ReadWrite
  }

  ghost predicate NamesByte(c: Construct, l: Loc, writing: bool) {
    l.Byte? && exists x :: x in c.accs && TouchesByte(x, l.addr) && (if writing then Writes(x) else Reads(x))
  }

  ghost predicate NamesHandle(c: Construct, l: Loc, writing: bool) {
    l.Token? && exists y :: y in c.items && y.Item? && y.base == l.base && (writing ==> y.kind != In)
  }

  // The clauses let the body write the location, or read it.
  ghost predicate Names(c: Construct, l: Loc, writing: bool) {
    NamesByte(c, l, writing) || NamesHandle(c, l, writing)
  }

  ghost predicate AgreeOnNamed(c: Construct, m: Mem, m': Mem) {
    forall l :: Names(c, l, false) ==> SameAt(m, m', l)
  }

  // A step changes only what the clauses name written, and what it writes depends only
  // on what they let it read.
  ghost predicate KeepsClauses(f: Mem -> Mem, c: Construct) {
    && (forall m, l :: !Names(c, l, true) ==> SameAt(m, f(m), l))
    && (forall m, m' :: AgreeOnNamed(c, m, m') ==> forall l :: Names(c, l, true) ==> WritesAlike(f, m, m', l))
  }

  // Both write the same storage as concurrent peers.
  ghost predicate ShareSet(c: Construct, d: Construct) {
    || (exists x, y :: x in c.accs && y in d.accs && x.mode == ConcurrentWrite && y.mode == ConcurrentWrite
                       && Overlap(x, y))
    || (exists x, y :: x in c.items && y in d.items && x.Item? && y.Item? && x.base == y.base
                       && x.kind == InOutSet && y.kind == InOutSet)
  }

  ghost predicate StepwiseCommute(c: Construct, d: Construct) {
    forall f, g, m :: f in StepsOf(c) && g in StepsOf(d) ==> f(g(m)) == g(f(m))
  }

  ghost predicate BodiesCommute(c: Construct, d: Construct) {
    forall m :: ApplySteps(StepsOf(c), ApplySteps(StepsOf(d), m)) == ApplySteps(StepsOf(d), ApplySteps(StepsOf(c), m))
  }

  // Bodies keep to their clauses; unordered mutexinoutset tasks commute as wholes,
  // unordered inoutset and concurrent-write peers step by step.
  ghost predicate WellBehavedConstructs(cs: seq<Construct>) {
    && (forall i, f :: 0 <= i < |cs| && f in StepsOf(cs[i]) ==> KeepsClauses(f, cs[i]))
    && (forall i: nat, j: nat :: i < j < |cs| && !SpecMust(cs, i, j) ==>
          if SpecExclusive(cs[i].items, cs[j].items) then BodiesCommute(cs[i], cs[j])
          else ShareSet(cs[i], cs[j]) ==> StepwiseCommute(cs[i], cs[j]))
  }

  // ---- the same conditions on translated accesses ----

  lemma TouchIsNamed(c: Construct, accs: seq<Access>, l: Loc)
    requires ValidClauses(c.accs, c.items) && SameAccesses(accs, AccessesOf(c))
    ensures MayWrite(accs, l) <==> Names(c, l, true)
    ensures MayRead(accs, l) <==> Names(c, l, false)
  {
    hide Translations, Names;
    if a :| a in accs && a.wr && Covers(a.region, l) {
      AccessIsNamed(c, a, l);
    }
    if a :| a in accs && (a.rd || (a.wr && a.region.Handle?)) && Covers(a.region, l) {
      AccessIsNamed(c, a, l);
    }
    if Names(c, l, true) { NamedIsAccessed(c, accs, l, true); }
    if Names(c, l, false) { NamedIsAccessed(c, accs, l, false); }
  }

  lemma NamedIsAccessed(c: Construct, accs: seq<Access>, l: Loc, writing: bool)
    requires ValidClauses(c.accs, c.items) && SameAccesses(accs, AccessesOf(c)) && Names(c, l, writing)
    ensures exists a :: a in accs && Covers(a.region, l)
                        && (if writing then a.wr else a.rd || (a.wr && a.region.Handle?))
  {
    hide Translations, Translation;
    if NamesByte(c, l, writing) {
      var x :| x in c.accs && TouchesByte(x, l.addr) && (if writing then Writes(x) else Reads(x));
      ModeOfAccess(x);
      InTranslations(c.accs, c.items, AccessFor(x));
      assert AccessFor(x) in accs && Covers(AccessFor(x).region, l);
    } else {
      var y :| y in c.items && y.Item? && y.base == l.base && (writing ==> y.kind != In);
      KindOfAccess(y.base, y.kind);
      InTranslation(c.items, AccessOf(y));
      InTranslations(c.accs, c.items, AccessOf(y));
      assert AccessOf(y) in accs && Covers(AccessOf(y).region, l);
    }
  }

  lemma AccessIsNamed(c: Construct, a: Access, l: Loc)
    requires ValidClauses(c.accs, c.items) && (a != INERT ==> a in AccessesOf(c)) && Covers(a.region, l)
    ensures a.wr ==> Names(c, l, true)
    ensures a.rd || (a.wr && a.region.Handle?) ==> Names(c, l, false)
  {
    InTranslations(c.accs, c.items, a);
    if a in Translation(c.items) {
      InTranslation(c.items, a);
      var y :| y in c.items && TranslateDep(Encode(y)) == Filled(a);
      assert y.Item? && NamesHandle(c, l, false) && (a.wr ==> NamesHandle(c, l, true));
    } else {
      var x :| x in c.accs && AccessFor(x) == a;
      ModeOfAccess(x);
      assert (a.rd ==> NamesByte(c, l, false)) && (a.wr ==> NamesByte(c, l, true));
    }
  }

  lemma KeepsIsConfined(f: Mem -> Mem, c: Construct, accs: seq<Access>)
    requires ValidClauses(c.accs, c.items) && SameAccesses(accs, AccessesOf(c)) && KeepsClauses(f, c)
    ensures Confined(f, accs)
  {
    hide Names, MayWrite, MayRead, SameAt, SameAccesses;
    forall l ensures (MayWrite(accs, l) <==> Names(c, l, true)) && (MayRead(accs, l) <==> Names(c, l, false)) {
      TouchIsNamed(c, accs, l);
    }
    forall m, m' | AgreeOnReads(accs, m, m')
      ensures forall l :: MayWrite(accs, l) ==> WritesAlike(f, m, m', l)
    {
      assert AgreeOnNamed(c, m, m');
    }
  }

  lemma PeersShareSet(c: Construct, d: Construct, a: seq<Access>, b: seq<Access>)
    requires ValidClauses(c.accs, c.items) && ValidClauses(d.accs, d.items)
    requires SameAccesses(a, AccessesOf(c)) && SameAccesses(b, AccessesOf(d))
    requires SharePeers(a, b) && !SpecExclusive(c.items, d.items)
    ensures ShareSet(c, d)
  {
    hide Translations, Translation, ShareSet, SpecExclusive, ValidClauses, Overlap;
    var x, y :| x in a && y in b && Intersect(x.region, y.region) && Peers(x, y);
    assert x in AccessesOf(c) && y in AccessesOf(d);
    ValidAccessItems(c);
    ValidAccessItems(d);
    Origin(c.accs, c.items, x);
    Origin(d.accs, d.items, y);
    if x.region.Segment? {
      SegmentPeers(c, d, x, y);
    } else {
      HandlePeers(c, d, x, y);
    }
  }

  lemma ValidAccessItems(c: Construct)
    requires ValidClauses(c.accs, c.items)
    ensures ValidAccesses(c.accs) && Valid(c.items)
  {
  }

  lemma SegmentPeers(c: Construct, d: Construct, x: Access, y: Access)
    requires ValidAccesses(c.accs) && ValidAccesses(d.accs)
    requires (exists p :: p in c.accs && AccessFor(p) == x) && exists q :: q in d.accs && AccessFor(q) == y
    requires Intersect(x.region, y.region) && Peers(x, y)
    ensures ShareSet(c, d)
  {
    var p :| p in c.accs && AccessFor(p) == x;
    var q :| q in d.accs && AccessFor(q) == y;
    OverlapIsIntersection(p, q);
  }

  lemma HandlePeers(c: Construct, d: Construct, x: Access, y: Access)
    requires Valid(c.items) && Valid(d.items) && x in Translation(c.items) && y in Translation(d.items)
    requires Intersect(x.region, y.region) && Peers(x, y) && !SpecExclusive(c.items, d.items)
    ensures ShareSet(c, d)
  {
    InTranslation(c.items, x);
    InTranslation(d.items, y);
    var p :| p in c.items && TranslateDep(Encode(p)) == Filled(x);
    var q :| q in d.items && TranslateDep(Encode(q)) == Filled(y);
    PairFaithful(p, q);
  }

  lemma SameSteps(cs: seq<Construct>, prog: Program, i: nat)
    requires Realizes(cs, prog) && i < |cs|
    ensures i < |prog| && prog[i].steps == StepsOf(cs[i])
  {
    assert StandsFor(prog[i], cs[i]);
  }

  lemma StepsCommuteToo(cs: seq<Construct>, prog: Program, i: nat, j: nat)
    requires Realizes(cs, prog) && i < |cs| && j < |cs| && StepwiseCommute(cs[i], cs[j])
    ensures StepsCommute(prog, i, j)
  {
    hide Realizes, StepsOf;
    SameSteps(cs, prog, i);
    SameSteps(cs, prog, j);
    forall e: Event, f: Event | e.task == i && f.task == j ensures Commute(StepExec(prog), e, f) {
      forall m ensures StepExec(prog)(e, StepExec(prog)(f, m)) == StepExec(prog)(f, StepExec(prog)(e, m)) {
        if e.step < |prog[i].steps| && f.step < |prog[j].steps| {
          var s, t := prog[i].steps[e.step], prog[j].steps[f.step];
          assert s in StepsOf(cs[i]) && t in StepsOf(cs[j]);
          assert s(t(m)) == t(s(m));
        }
      }
    }
  }

  lemma BodiesCommuteToo(cs: seq<Construct>, prog: Program, i: nat, j: nat)
    requires Realizes(cs, prog) && i < |cs| && j < |cs| && BodiesCommute(cs[i], cs[j])
    ensures Commute(TaskExec(prog), i, j)
  {
    hide Realizes, StepsOf, TaskExec;
    SameSteps(cs, prog, i);
    SameSteps(cs, prog, j);
    forall m ensures TaskExec(prog)(i, TaskExec(prog)(j, m)) == TaskExec(prog)(j, TaskExec(prog)(i, m)) {
      TaskExecIsApplySteps(prog, j, m);
      TaskExecIsApplySteps(prog, i, m);
      TaskExecIsApplySteps(prog, i, TaskExec(prog)(j, m));
      TaskExecIsApplySteps(prog, j, TaskExec(prog)(i, m));
    }
  }

  // Conditions stated on clauses are the conditions on the submitted tasks.
  lemma ConstructsBehave(cs: seq<Construct>, prog: Program)
    requires ValidConstructs(cs) && Realizes(cs, prog) && WellBehavedConstructs(cs)
    ensures WellBehaved(prog)
  {
    hide KeepsClauses, Confined, ShareSet, SharePeers, StepwiseCommute, BodiesCommute, StepsCommute, Commute;
    forall i, k | 0 <= i < |prog| && 0 <= k < |prog[i].steps| ensures Confined(prog[i].steps[k], prog[i].accesses) {
      assert prog[i].steps[k] in StepsOf(cs[i]);
      KeepsIsConfined(prog[i].steps[k], cs[i], prog[i].accesses);
    }
    forall i: nat, j: nat | i < j && Unordered(prog, i, j)
      ensures Excl(prog, i, j) ==> Commute(TaskExec(prog), i, j)
      ensures !Excl(prog, i, j) && SharePeers(prog[i].accesses, prog[j].accesses) ==> StepsCommute(prog, i, j)
    {
      PairBehavesToo(cs, prog, i, j);
    }
  }

  lemma PairBehavesToo(cs: seq<Construct>, prog: Program, i: nat, j: nat)
    requires ValidConstructs(cs) && Realizes(cs, prog) && WellBehavedConstructs(cs)
    requires i < j && Unordered(prog, i, j)
    ensures Excl(prog, i, j) ==> Commute(TaskExec(prog), i, j)
    ensures !Excl(prog, i, j) && SharePeers(prog[i].accesses, prog[j].accesses) ==> StepsCommute(prog, i, j)
  {
    hide KeepsClauses, ShareSet, SharePeers, StepwiseCommute, BodiesCommute, StepsCommute, Commute;
    MustIsSpecMust(cs, prog, i, j);
    if Excl(prog, i, j) {
      BodiesCommuteToo(cs, prog, i, j);
    } else if SharePeers(prog[i].accesses, prog[j].accesses) {
      PeersShareSet(cs[i], cs[j], prog[i].accesses, prog[j].accesses);
      StepsCommuteToo(cs, prog, i, j);
    }
  }

  // Such constructs can also be recorded: a taskwait's task has no body.
  lemma ConstructsAreRecordable(cs: seq<Construct>, prog: Program)
    requires ValidConstructs(cs) && Realizes(cs, prog) && WellBehavedConstructs(cs)
    ensures Taskgraph.Recordable(prog)
  {
    hide WellBehaved, WellBehavedConstructs;
    ConstructsBehave(cs, prog);
    forall i | 0 <= i < |prog| && !prog[i].omp ensures prog[i].steps == [] {
      assert StandsFor(prog[i], cs[i]);
    }
  }

  // ---- every schedule is sequential ----

  // The constructs' bodies run one after the other by a single thread.
  function Sequential(cs: seq<Construct>, m: Mem): Mem {
    if cs == [] then m else Sequential(cs[1..], ApplySteps(StepsOf(cs[0]), m))
  }

  lemma {:induction false} SubmittedInOrder(cs: seq<Construct>, prog: Program, m: Mem)
    requires Realizes(cs, prog)
    ensures ProgramOrder(prog, m) == Sequential(cs, m)
    decreases |cs|
  {
    if cs != [] {
      SubmittedInOrder(cs[1..], prog[1..], ApplySteps(prog[0].steps, m));
    }
  }

  // However the submitted constructs are scheduled, they leave the memory of that
  // sequential run.
  lemma SchedulesAreSequential(cs: seq<Construct>, hows: seq<Compiled>, prog: Program, m: Mem, acts: seq<Action>)
    requires ValidConstructs(cs) && Submitted(cs, hows, prog) && WellBehavedConstructs(cs)
    requires Complete(prog, m, acts)
    ensures Reach(prog, m, acts).mem == Sequential(cs, m)
  {
    hide Complete, WellBehavedConstructs;
    ConstructsBehave(cs, prog);
    EveryScheduleIsProgramOrder(prog, m, acts);
    SubmittedInOrder(cs, prog, m);
  }
}
