// The access clause as a reference, and tasks that carry access and depend items.
module AccessRules {
  import opened Accesses
  import opened DependRules
  import opened Words

  datatype Mode = Read | Write | ReadWrite | ConcurrentWrite

  datatype AccessItem = AccessItem(base: nat, len: nat, mode: Mode, storage: bool, noncoherent: bool)

  // ---- the rule, on bytes ----

  predicate TouchesByte(x: AccessItem, b: int) {
    x.base <= b < x.base + x.len
  }

  ghost predicate Overlap(x: AccessItem, y: AccessItem) {
    exists b :: TouchesByte(x, b) && TouchesByte(y, b)
  }

  // Requesting storage counts as writing it.
  predicate Writes(x: AccessItem) {
    x.mode != Read || x.storage
  }

  // Reads do not order reads, nor concurrent writes each other.
  predicate RuleApplies(earlier: AccessItem, later: AccessItem) {
    (Writes(earlier) || Writes(later)) && !(earlier.mode == ConcurrentWrite && later.mode == ConcurrentWrite)
  }

  ghost predicate AccessOrdered(earlier: seq<AccessItem>, later: seq<AccessItem>) {
    exists x, y :: x in earlier && y in later && Overlap(x, y) && RuleApplies(x, y)
  }

  predicate ValidAccesses(items: seq<AccessItem>) {
    forall x :: x in items ==> x.base != 0
  }

  // ---- how the compiler passes them ----

  function EncodeAccess(x: AccessItem): AccInfo {
    AccInfo(x.base, x.len,
            AccFlags(x.mode == Read || x.mode == ReadWrite, x.mode == Write || x.mode == ReadWrite,
                     x.storage, false, x.noncoherent, x.mode == ConcurrentWrite))
  }

  function EncodeAccesses(items: seq<AccessItem>): seq<AccInfo> {
    seq(|items|, i requires 0 <= i < |items| => EncodeAccess(items[i]))
  }

  // The accesses of a task with both clauses.
  function Translations(accs: seq<AccessItem>, items: seq<ListItem>): seq<Access> {
    Constructed(TranslateAll(EncodeAccesses(accs), EncodeAll(items), []))
  }

  function AccessFor(x: AccessItem): Access
    requires x.base != 0
  {
    TranslateAcc(EncodeAccess(x)).access
  }

  // ---- faithfulness ----

  lemma OverlapIsIntersection(x: AccessItem, y: AccessItem)
    ensures Overlap(x, y) <==> Intersect(Segment(x.base, x.len), Segment(y.base, y.len))
  {
    if Intersect(Segment(x.base, x.len), Segment(y.base, y.len)) {
      var b := Max(x.base, y.base);
      assert TouchesByte(x, b) && TouchesByte(y, b);
    }
  }

  // Item by item, two translated accesses conflict exactly when the rule applies to
  // a byte both items name; they never exclude each other.
  lemma PairAccessFaithful(x: AccessItem, y: AccessItem)
    requires x.base != 0 && y.base != 0
    ensures Conflict(AccessFor(x), AccessFor(y)) <==> Overlap(x, y) && RuleApplies(x, y)
    ensures AccessFor(x).concurrency != Commutative && AccessFor(x).region.Segment?
  {
    OverlapIsIntersection(x, y);
  }

  // The access reads exactly in the reading modes, writes when the item does or requests
  // storage, and is V exactly when the item is noncoherent or requests storage.
  lemma ModeOfAccess(x: AccessItem)
    requires x.base != 0
    ensures AccessFor(x).region == Segment(x.base, x.len)
    ensures AccessFor(x).rd <==> x.mode == Read || x.mode == ReadWrite
    ensures AccessFor(x).wr <==> x.mode == Write || x.mode == ReadWrite || x.mode == ConcurrentWrite || x.storage
    ensures AccessFor(x).virt <==> x.noncoherent || x.storage
    ensures AccessFor(x).concurrency == if x.mode == ConcurrentWrite then Concurrent else Sequential
  {
  }

  lemma InTranslations(accs: seq<AccessItem>, items: seq<ListItem>, a: Access)
    requires ValidAccesses(accs)
    ensures a in Translations(accs, items) <==>
      (exists x :: x in accs && AccessFor(x) == a) || a in Translation(items)
  {
    var acs, deps := EncodeAccesses(accs), EncodeAll(items);
    InConstructed(TranslateAll(acs, deps, []), a);
    FilledFrom(acs, deps, [], a);
    InConstructed(TranslateAll([], deps, []), a);
    FilledFrom([], deps, [], a);
    if x :| x in acs && TranslateAcc(x) == Filled(a) {
      var i :| 0 <= i < |acs| && acs[i] == x;
      assert accs[i] in accs && AccessFor(accs[i]) == a;
    }
    if x :| x in accs && AccessFor(x) == a {
      var i :| 0 <= i < |accs| && accs[i] == x;
      assert acs[i] in acs && TranslateAcc(acs[i]) == Filled(a);
    }
  }

  lemma TranslationsAreHandles(items: seq<ListItem>, a: Access)
    requires a in Translation(items)
    ensures a.region.Handle?
  {
    InTranslation(items, a);
  }

  predicate ValidClauses(accs: seq<AccessItem>, items: seq<ListItem>) {
    ValidAccesses(accs) && Valid(items)
  }

  // A task with both clauses is ordered after another exactly when the access rule says
  // so, or the depend rules on the items that name storage; the two clauses do not see
  // each other.
  lemma ClausesFaithful(accs: seq<AccessItem>, items: seq<ListItem>, accs': seq<AccessItem>, items': seq<ListItem>)
    requires ValidClauses(accs, items) && ValidClauses(accs', items')
    ensures Ordered(Translations(accs, items), Translations(accs', items'))
       <==> AccessOrdered(accs, accs') || SpecOrdered(Named(items), Named(items'))
  {
    var one, two := Translations(accs, items), Translations(accs', items');
    DependFaithful(items, items');
    if a, b :| a in one && b in two && Conflict(a, b) {
      Origin(accs, items, a);
      Origin(accs', items', b);
      if a.region.Segment? {
        var x :| x in accs && AccessFor(x) == a;
        var y :| y in accs' && AccessFor(y) == b;
        PairAccessFaithful(x, y);
      }
    }
    if x, y :| x in accs && y in accs' && Overlap(x, y) && RuleApplies(x, y) {
      PairAccessFaithful(x, y);
      InTranslations(accs, items, AccessFor(x));
      InTranslations(accs', items', AccessFor(y));
    }
    if a, b :| a in Translation(items) && b in Translation(items') && Conflict(a, b) {
      InTranslations(accs, items, a);
      InTranslations(accs', items', b);
    }
  }

  // Segments come from the access clause, handles from the depend clause.
  lemma Origin(accs: seq<AccessItem>, items: seq<ListItem>, a: Access)
    requires ValidAccesses(accs) && a in Translations(accs, items)
    ensures a.region.Segment? || a.region.Handle?
    ensures a.region.Segment? ==> a.concurrency != Commutative && exists x :: x in accs && AccessFor(x) == a
    ensures a.region.Handle? ==> a in Translation(items)
  {
    InTranslations(accs, items, a);
    if a in Translation(items) {
      TranslationsAreHandles(items, a);
    } else {
      var x :| x in accs && AccessFor(x) == a;
      PairAccessFaithful(x, x);
    }
  }

  // And two such tasks exclude each other exactly when mutexinoutset does.
  lemma ExclusionIsDepend(accs: seq<AccessItem>, items: seq<ListItem>, accs': seq<AccessItem>, items': seq<ListItem>)
    requires ValidClauses(accs, items) && ValidClauses(accs', items')
    ensures Exclusive(Translations(accs, items), Translations(accs', items')) <==> SpecExclusive(items, items')
  {
    ExclusionFaithful(items, items');
    if a, b :| a in Translations(accs, items) && b in Translations(accs', items')
               && Intersect(a.region, b.region) && Peers(a, b) && a.concurrency == Commutative {
      Origin(accs, items, a);
      Origin(accs', items', b);
    }
    if a, b :| a in Translation(items) && b in Translation(items')
               && Intersect(a.region, b.region) && Peers(a, b) && a.concurrency == Commutative {
      InTranslations(accs, items, a);
      InTranslations(accs', items', b);
    }
  }
}
