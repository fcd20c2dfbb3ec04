// The depend clause of OpenMP 5.2 (section 15.9.5) as a reference, and how the
// translated accesses measure up to it.
module DependRules {
  import opened Accesses
  import opened Wrappers

  // ---- the rules, on list items ----

  datatype Kind = In | Out | InOut | MutexInOutSet | InOutSet

  datatype ListItem = Item(base: nat, kind: Kind) | AllMemory

  // The storage of a list item has a non-null address.
  predicate Valid(items: seq<ListItem>) {
    forall x :: x in items && x.Item? ==> x.base != 0
  }

  predicate SameStorage(x: ListItem, y: ListItem) {
    x.AllMemory? || y.AllMemory? || x.base == y.base
  }

  // A later item of kind `later` depends on an earlier one of kind `earlier`.
  predicate Depends(earlier: Kind, later: Kind) {
    match later
    case In => earlier != In
    case Out => true
    case InOut => true
    case MutexInOutSet => earlier != MutexInOutSet
    case InOutSet => earlier != InOutSet
  }

  // omp_all_memory only appears with out and inout, which depend on everything.
  function KindOf(x: ListItem): Kind {
    if x.AllMemory? then InOut else x.kind
  }

  ghost predicate SpecOrdered(earlier: seq<ListItem>, later: seq<ListItem>) {
    exists x, y :: x in earlier && y in later && SameStorage(x, y) && Depends(KindOf(x), KindOf(y))
  }

  ghost predicate SpecExclusive(a: seq<ListItem>, b: seq<ListItem>) {
    exists x, y :: x in a && y in b && SameStorage(x, y) && KindOf(x) == KindOf(y) == MutexInOutSet
  }

  // ---- how the compiler passes them ----

  function Encode(x: ListItem): DepInfo {
    match x
    case AllMemory => DepInfo(0, DepFlags(false, false, false, false, true))
    case Item(b, In) => DepInfo(b, DepFlags(true, false, false, false, false))
    case Item(b, Out) => DepInfo(b, DepFlags(false, true, false, false, false))
    case Item(b, InOut) => DepInfo(b, DepFlags(true, true, false, false, false))
    case Item(b, MutexInOutSet) => DepInfo(b, DepFlags(false, false, true, false, false))
    case Item(b, InOutSet) => DepInfo(b, DepFlags(false, false, false, true, false))
  }

  function EncodeAll(items: seq<ListItem>): seq<DepInfo> {
    seq(|items|, i requires 0 <= i < |items| => Encode(items[i]))
  }

  // ---- the accesses a submission constructs ----

  function Constructed(ts: seq<Translated>): seq<Access> {
    if ts == [] then [] else (if ts[0].Filled? then [ts[0].access] else []) + Constructed(ts[1..])
  }

  function BuiltIn(slots: seq<Slot>): seq<Access> {
    if slots == [] then [] else (if slots[0].Built? then [slots[0].access] else []) + BuiltIn(slots[1..])
  }

  lemma {:induction false} InConstructed(ts: seq<Translated>, a: Access)
    ensures a in Constructed(ts) <==> Filled(a) in ts
  {
    if ts != [] {
      InConstructed(ts[1..], a);
      assert ts == [ts[0]] + ts[1..];
    }
  }

  lemma {:induction false} InBuilt(slots: seq<Slot>, a: Access)
    ensures a in BuiltIn(slots) <==> Built(a) in slots
  {
    if slots != [] {
      InBuilt(slots[1..], a);
      assert slots == [slots[0]] + slots[1..];
    }
  }

  function Translation(items: seq<ListItem>): seq<Access> {
    Constructed(TranslateAll([], EncodeAll(items), []))
  }

  lemma InTranslation(items: seq<ListItem>, a: Access)
    ensures a in Translation(items) <==> exists x :: x in items && TranslateDep(Encode(x)) == Filled(a)
  {
    var ts := TranslateAll([], EncodeAll(items), []);
    InConstructed(ts, a);
    assert |ts| == |items| && forall i :: 0 <= i < |items| ==> ts[i] == TranslateDep(Encode(items[i]));
    if Filled(a) in ts {
      var i :| 0 <= i < |ts| && ts[i] == Filled(a);
      assert items[i] in items;
    }
    if x :| x in items && TranslateDep(Encode(x)) == Filled(a) {
      var i :| 0 <= i < |items| && items[i] == x;
      assert ts[i] == Filled(a);
    }
  }

  // ---- faithfulness ----

  function AccessOf(x: ListItem): Access
    requires x.Item? && x.base != 0
  {
    TranslateDep(Encode(x)).access
  }

  // Item by item, the antecedent rule on accesses is the depend table.
  lemma PairFaithful(x: ListItem, y: ListItem)
    requires x.Item? && x.base != 0 && y.Item? && y.base != 0
    ensures Conflict(AccessOf(x), AccessOf(y)) <==> SameStorage(x, y) && Depends(x.kind, y.kind)
    ensures Intersect(AccessOf(x).region, AccessOf(y).region) && Peers(AccessOf(x), AccessOf(y))
            && AccessOf(x).concurrency == Commutative
       <==> SameStorage(x, y) && x.kind == y.kind == MutexInOutSet
  {
  }

  // What each kind of dependence becomes.
  lemma KindOfAccess(b: nat, kind: Kind)
    requires b != 0
    ensures AccessOf(Item(b, kind)) == match kind
      case In => Access(Handle(b), true, false, true, Sequential)
      case Out => Access(Handle(b), false, true, true, Sequential)
      case InOut => Access(Handle(b), true, true, true, Sequential)
      case MutexInOutSet => Access(Handle(b), false, true, true, Commutative)
      case InOutSet => Access(Handle(b), false, true, true, Concurrent)
  {
  }

  // The items of a clause that name storage, omp_all_memory struck out.
  function Named(items: seq<ListItem>): seq<ListItem> {
    if items == [] then [] else (if items[0].Item? then [items[0]] else []) + Named(items[1..])
  }

  lemma {:induction false} InNamed(items: seq<ListItem>, x: ListItem)
    ensures x in Named(items) <==> x in items && x.Item?
  {
    if items != [] {
      InNamed(items[1..], x);
      assert items == [items[0]] + items[1..];
    }
  }

  lemma {:induction false} NamedKeepsAll(items: seq<ListItem>)
    ensures AllMemory !in items ==> Named(items) == items
  {
    if items != [] {
      NamedKeepsAll(items[1..]);
      assert items == [items[0]] + items[1..];
    }
  }

  // Any two clauses order their tasks through their accesses exactly as the depend
  // rules order the items that name storage.
  lemma DependFaithful(earlier: seq<ListItem>, later: seq<ListItem>)
    requires Valid(earlier) && Valid(later)
    ensures SpecOrdered(Named(earlier), Named(later)) <==> Ordered(Translation(earlier), Translation(later))
  {
    if x, y :| x in Named(earlier) && y in Named(later) && SameStorage(x, y) && Depends(KindOf(x), KindOf(y)) {
      InNamed(earlier, x);
      InNamed(later, y);
      InTranslation(earlier, AccessOf(x));
      InTranslation(later, AccessOf(y));
      PairFaithful(x, y);
    }
    if a, b :| a in Translation(earlier) && b in Translation(later) && Conflict(a, b) {
      InTranslation(earlier, a);
      InTranslation(later, b);
      var x :| x in earlier && TranslateDep(Encode(x)) == Filled(a);
      var y :| y in later && TranslateDep(Encode(y)) == Filled(b);
      InNamed(earlier, x);
      InNamed(later, y);
      PairFaithful(x, y);
    }
  }

  // And they exclude tasks from running at once exactly when mutexinoutset does.
  lemma ExclusionFaithful(one: seq<ListItem>, two: seq<ListItem>)
    requires Valid(one) && Valid(two)
    ensures SpecExclusive(one, two) <==> Exclusive(Translation(one), Translation(two))
  {
    if x, y :| x in one && y in two && SameStorage(x, y) && KindOf(x) == KindOf(y) == MutexInOutSet {
      InTranslation(one, AccessOf(x));
      InTranslation(two, AccessOf(y));
      PairFaithful(x, y);
    }
    if a, b :| a in Translation(one) && b in Translation(two)
               && Intersect(a.region, b.region) && Peers(a, b) && a.concurrency == Commutative {
      InTranslation(one, a);
      InTranslation(two, b);
      var x :| x in one && TranslateDep(Encode(x)) == Filled(a);
      var y :| y in two && TranslateDep(Encode(y)) == Filled(b);
      PairFaithful(x, y);
    }
  }

  // ---- omp_all_memory ----

  // It arrives with a null base, so its item is skipped before the unsupported-flag
  // check: the task silently loses those dependences, on earlier tasks...
  lemma LaterAllMemoryIsDropped()
    ensures SpecOrdered([Item(8, Out)], [AllMemory])
    ensures !Ordered(Translation([Item(8, Out)]), Translation([AllMemory]))
  {
    assert Item(8, Out) in [Item(8, Out)] && AllMemory in [AllMemory];
    DependFaithful([Item(8, Out)], [AllMemory]);
  }

  // ...and for later ones.
  lemma EarlierAllMemoryIsDropped()
    ensures SpecOrdered([AllMemory], [Item(8, In)])
    ensures !Ordered(Translation([AllMemory]), Translation([Item(8, In)]))
  {
    assert AllMemory in [AllMemory] && Item(8, In) in [Item(8, In)];
    DependFaithful([AllMemory], [Item(8, In)]);
  }

  // A clause with omp_all_memory must be ordered with every clause that has items.
  lemma AllMemoryOrdersAll(earlier: seq<ListItem>, later: seq<ListItem>)
    requires AllMemory in earlier || AllMemory in later
    ensures SpecOrdered(earlier, later) <==> earlier != [] && later != []
  {
    if earlier != [] && later != [] {
      assert earlier[0] in earlier && later[0] in later;
      if AllMemory in earlier {
        assert Depends(KindOf(AllMemory), KindOf(later[0]));
      } else {
        assert Depends(KindOf(earlier[0]), KindOf(AllMemory));
      }
    }
  }

  // A pair of clauses is translated faithfully exactly when neither names
  // omp_all_memory, or the items that name storage order the pair anyway, or there is
  // nothing to order because one clause is empty.
  lemma FaithfulExactly(earlier: seq<ListItem>, later: seq<ListItem>)
    requires Valid(earlier) && Valid(later)
    ensures (SpecOrdered(earlier, later) <==> Ordered(Translation(earlier), Translation(later)))
       <==> || (AllMemory !in earlier && AllMemory !in later)
            || SpecOrdered(Named(earlier), Named(later))
            || earlier == [] || later == []
  {
    DependFaithful(earlier, later);
    if AllMemory in earlier || AllMemory in later {
      AllMemoryOrdersAll(earlier, later);
    } else {
      NamedKeepsAll(earlier);
      NamedKeepsAll(later);
    }
  }

  // ---- the order of items and their split into lists do not matter ----

  lemma SplitDoesNotMatter(acs: seq<AccInfo>, deps: seq<DepInfo>, noalias: seq<DepInfo>,
                           acs': seq<AccInfo>, deps': seq<DepInfo>, noalias': seq<DepInfo>, other: seq<Access>)
    requires multiset(acs) == multiset(acs')
    requires multiset(deps + noalias) == multiset(deps' + noalias')
    ensures var a := Constructed(TranslateAll(acs, deps, noalias));
      var a' := Constructed(TranslateAll(acs', deps', noalias'));
      && (Ordered(a, other) <==> Ordered(a', other)) && (Ordered(other, a) <==> Ordered(other, a'))
      && (Exclusive(a, other) <==> Exclusive(a', other))
  {
    var ts, ts' := TranslateAll(acs, deps, noalias), TranslateAll(acs', deps', noalias');
    forall a ensures a in Constructed(ts) <==> a in Constructed(ts') {
      InConstructed(ts, a);
      InConstructed(ts', a);
      FilledFrom(acs, deps, noalias, a);
      FilledFrom(acs', deps', noalias', a);
      assert forall x :: x in acs <==> x in multiset(acs);
      assert forall x :: x in acs' <==> x in multiset(acs');
      assert forall d :: d in deps + noalias <==> d in multiset(deps + noalias);
      assert forall d :: d in deps' + noalias' <==> d in multiset(deps' + noalias');
    }
  }

  lemma FilledFrom(acs: seq<AccInfo>, deps: seq<DepInfo>, noalias: seq<DepInfo>, a: Access)
    ensures Filled(a) in TranslateAll(acs, deps, noalias) <==>
      (exists x :: x in acs && TranslateAcc(x) == Filled(a))
      || (exists d :: d in deps + noalias && TranslateDep(d) == Filled(a))
  {
    var ts := TranslateAll(acs, deps, noalias);
    var all := deps + noalias;
    assert forall i :: 0 <= i < |acs| ==> ts[i] == TranslateAcc(acs[i]);
    assert forall i :: 0 <= i < |all| ==> ts[|acs| + i] == TranslateDep(all[i]);
    if Filled(a) in ts {
      var i :| 0 <= i < |ts| && ts[i] == Filled(a);
      if i < |acs| { assert acs[i] in acs; } else { assert all[i - |acs|] in all; }
    }
    if x :| x in acs && TranslateAcc(x) == Filled(a) {
      var i :| 0 <= i < |acs| && acs[i] == x;
      assert ts[i] == Filled(a);
    }
    if d :| d in all && TranslateDep(d) == Filled(a) {
      var i :| 0 <= i < |all| && all[i] == d;
      assert ts[|acs| + i] == Filled(a);
    }
  }

  // ---- padding ----

  // Padded and exactly sized tasks have the same predecessors, the same successors
  // and the same exclusions: null-base items and trailing slots stay inert.
  lemma PaddingIsInvisible(before: seq<Slot>, ts: seq<Translated>, after: seq<Slot>, other: seq<Access>)
    requires FilledOver(before, ts, after)
    requires forall s :: s in before ==> s == Raw || s == Built(INERT)
    ensures Ordered(BuiltIn(after), other) <==> Ordered(Constructed(ts), other)
    ensures Ordered(other, BuiltIn(after)) <==> Ordered(other, Constructed(ts))
    ensures Exclusive(BuiltIn(after), other) <==> Exclusive(Constructed(ts), other)
  {
    forall a ensures a in BuiltIn(after) && a != INERT ==> a in Constructed(ts) {
      InBuilt(after, a);
      InConstructed(ts, a);
      if a in BuiltIn(after) && a != INERT {
        var k :| 0 <= k < |after| && after[k] == Built(a);
        assert before[k] in before;
        assert k < |ts| && ts[k] == Filled(a);
      }
    }
    forall a ensures a in Constructed(ts) ==> a in BuiltIn(after) {
      InBuilt(after, a);
      InConstructed(ts, a);
      if a in Constructed(ts) {
        var k :| 0 <= k < |ts| && ts[k] == Filled(a);
        assert after[k] == Built(a);
      }
    }
  }

  // The base address of item k of a submission.
  function BaseOf(acs: seq<AccInfo>, deps: seq<DepInfo>, noalias: seq<DepInfo>, k: nat): nat
    requires k < |acs| + |deps| + |noalias|
  {
    if k < |acs| then acs[k].base
    else if k < |acs| + |deps| then deps[k - |acs|].base
    else noalias[k - |acs| - |deps|].base
  }

  // Only constructed slots reach the resolver exactly when every null-base item, of
  // whichever list, sits in a slot that was padded; an exactly sized task is not padded.
  lemma ResolverSeesBuiltSlots(before: seq<Slot>, acs: seq<AccInfo>, deps: seq<DepInfo>, noalias: seq<DepInfo>,
                               after: seq<Slot>)
    requires FilledOver(before, TranslateAll(acs, deps, noalias), after)
    ensures var n := |acs| + |deps| + |noalias|;
      (forall k :: 0 <= k < n ==> after[k].Built?)
      <==> (forall k :: 0 <= k < n ==> BaseOf(acs, deps, noalias, k) != 0 || before[k].Built?)
  {
    var ts := TranslateAll(acs, deps, noalias);
    forall k: nat | k < |ts|
      ensures after[k].Built? <==> BaseOf(acs, deps, noalias, k) != 0 || before[k].Built?
    {
      SlotBuilt(before, acs, deps, noalias, after, k);
    }
  }

  lemma SlotBuilt(before: seq<Slot>, acs: seq<AccInfo>, deps: seq<DepInfo>, noalias: seq<DepInfo>,
                  after: seq<Slot>, k: nat)
    requires FilledOver(before, TranslateAll(acs, deps, noalias), after) && k < |acs| + |deps| + |noalias|
    ensures after[k].Built? <==> BaseOf(acs, deps, noalias, k) != 0 || before[k].Built?
  {
    var ts := TranslateAll(acs, deps, noalias);
    assert ts[k] in ts && ts[k] != Refused && after[k] == Write(ts[k], before[k]);
  }
}
