// Depend and access items, their translation into the task's inline access
// slots, and the order that accesses impose on tasks.
module Accesses {
  import opened Wrappers

  // ---- XKRT accesses ----

  datatype Concurrency = Sequential | Commutative | Concurrent

  // A depend item is a handle keyed on its base address; an access item is a
  // segment of bytes. The two kinds never intersect.
  datatype Region = Handle(base: nat) | Segment(start: nat, len: nat) | Nowhere

  datatype Access = Access(region: Region, rd: bool, wr: bool, virt: bool, concurrency: Concurrency)

  // What task_pad_accesses writes: mode V, no region.
  const INERT := Access(Nowhere, false, false, true, Sequential)

  predicate Intersect(a: Region, b: Region) {
    match (a, b)
    case (Handle(x), Handle(y)) => x == y
    case (Segment(x, n), Segment(y, k)) => n > 0 && k > 0 && x < y + k && y < x + n
    case _ => false
  }

  // Writers of the same non-sequential kind are peers: they do not order each other.
  predicate Peers(a: Access, b: Access) {
    a.wr && b.wr && a.concurrency == b.concurrency && a.concurrency != Sequential
  }

  // The antecedent rule: intersecting storage, at least one writer, not peers.
  predicate Conflict(a: Access, b: Access) {
    Intersect(a.region, b.region) && (a.wr || b.wr) && !Peers(a, b)
  }

  // An earlier task with accesses a must precede a later one with accesses b.
  ghost predicate Ordered(a: seq<Access>, b: seq<Access>) {
    exists x, y :: x in a && y in b && Conflict(x, y)
  }

  // Commutative peers may run in either order but never at once.
  ghost predicate Exclusive(a: seq<Access>, b: seq<Access>) {
    exists x, y :: x in a && y in b && Intersect(x.region, y.region) && Peers(x, y) && x.concurrency == Commutative
  }

  // ---- items as the compiler passes them ----

  datatype DepFlags = DepFlags(in_: bool, out: bool, mtx: bool, set_: bool, all: bool)

  datatype DepInfo = DepInfo(base: nat, flags: DepFlags)

  datatype AccFlags = AccFlags(read: bool, write: bool, storage: bool, nostorage: bool,
                               noncoherent: bool, concurrentWrite: bool)

  datatype AccInfo = AccInfo(base: nat, len: nat, flags: AccFlags)

  // One item's effect on its slot: left alone (null base), fatal, or filled.
  datatype Translated = Skipped | Refused | Filled(access: Access)

  function TranslateDep(d: DepInfo): Translated {
    if d.base == 0 then Skipped
    else if d.flags.all then Refused
    else Filled(Access(Handle(d.base), d.flags.in_, d.flags.out || d.flags.mtx || d.flags.set_, true,
                       if d.flags.set_ then Concurrent else if d.flags.mtx then Commutative else Sequential))
  }

  // The storage modifier implies write and noncoherent; the flags are updated in place.
  function Normalized(a: AccInfo): AccInfo {
    if a.base != 0 && a.flags.storage then a.(flags := a.flags.(write := true, noncoherent := true)) else a
  }

  function TranslateAcc(a: AccInfo): Translated {
    var f := Normalized(a).flags;
    if a.base == 0 then Skipped
    else if f.nostorage then Refused
    else Filled(Access(Segment(a.base, a.len), f.read, f.write || f.concurrentWrite, f.noncoherent,
                       if f.concurrentWrite then Concurrent else Sequential))
  }

  // What each flag means for the access: reads, writes, no coherent replica (V), peers.
  lemma FlagsOfAccess(a: AccInfo)
    ensures TranslateAcc(a).Skipped? <==> a.base == 0
    ensures TranslateAcc(a).Refused? <==> a.base != 0 && a.flags.nostorage
    ensures TranslateAcc(a).Filled? ==>
      var x := TranslateAcc(a).access;
      && x.region == Segment(a.base, a.len)
      && (x.rd <==> a.flags.read)
      && (x.wr <==> a.flags.write || a.flags.storage || a.flags.concurrentWrite)
      && (x.virt <==> a.flags.noncoherent || a.flags.storage)
      && x.concurrency == (if a.flags.concurrentWrite then Concurrent else Sequential)
  {
  }

  lemma FlagsOfDependence(d: DepInfo)
    ensures TranslateDep(d).Skipped? <==> d.base == 0
    ensures TranslateDep(d).Refused? <==> d.base != 0 && d.flags.all
    ensures TranslateDep(d).Filled? ==>
      var x := TranslateDep(d).access;
      && x.region == Handle(d.base) && x.virt
      && (x.rd <==> d.flags.in_)
      && (x.wr <==> d.flags.out || d.flags.mtx || d.flags.set_)
      && (x.concurrency == Concurrent <==> d.flags.set_)
      && (x.concurrency == Commutative <==> d.flags.mtx && !d.flags.set_)
  {
  }

  // Padding has mode V, names no storage, and neither orders nor excludes anything.
  lemma PaddingIsInert(other: Access)
    ensures INERT.virt && !INERT.rd && !INERT.wr && INERT.region == Nowhere && INERT.concurrency == Sequential
    ensures !Conflict(INERT, other) && !Conflict(other, INERT)
  {
  }

  // ---- the slot array ----

  // A slot is raw storage until an access is constructed in it.
  datatype Slot = Raw | Built(access: Access)

  datatype Failure = TooManyAccesses | Unsupported

  function Write(t: Translated, old_: Slot): Slot {
    if t.Filled? then Built(t.access) else old_
  }

  function TranslateAll(acs: seq<AccInfo>, deps: seq<DepInfo>, noalias: seq<DepInfo>): (ts: seq<Translated>)
    ensures |ts| == |acs| + |deps| + |noalias|
  {
    seq(|acs|, i requires 0 <= i < |acs| => TranslateAcc(acs[i]))
    + seq(|deps|, i requires 0 <= i < |deps| => TranslateDep(deps[i]))
    + seq(|noalias|, i requires 0 <= i < |noalias| => TranslateDep(noalias[i]))
  }

  // What a submission leaves in the array, given what was there.
  ghost predicate FilledOver(before: seq<Slot>, ts: seq<Translated>, after: seq<Slot>) {
    && |ts| <= |before| == |after| && Refused !in ts
    && (forall k :: 0 <= k < |ts| ==> after[k] == Write(ts[k], before[k]))
    && (forall k :: |ts| <= k < |before| ==> after[k] == before[k])
  }

  // task_pad_accesses
  method PadAccesses(slots: array<Slot>, from: nat, to: nat)
    requires from <= to <= slots.Length
    modifies slots
    ensures forall i :: 0 <= i < slots.Length ==>
      slots[i] == if from <= i < to then Built(INERT) else old(slots[i])
  {
    for i := from to to
      invariant forall k :: 0 <= k < slots.Length ==>
        slots[k] == if from <= k < i then Built(INERT) else old(slots[k])
    {
      slots[i] := Built(INERT);
    }
  }

  // __kmp_omp_task_acs_to_xkomp_accesses
  method AcsToAccesses(slots: array<Slot>, offset: nat, acs: array<AccInfo>) returns (ok: bool)
    requires offset + acs.Length <= slots.Length
    modifies slots, acs
    ensures ok <==> forall i :: 0 <= i < acs.Length ==> !TranslateAcc(old(acs[i])).Refused?
    ensures ok ==> forall k :: 0 <= k < slots.Length ==>
      slots[k] == if offset <= k < offset + acs.Length
                  then Write(TranslateAcc(old(acs[k - offset])), old(slots[k])) else old(slots[k])
    ensures ok ==> forall i :: 0 <= i < acs.Length ==> acs[i] == Normalized(old(acs[i]))
  {
    for i := 0 to acs.Length
      invariant forall k :: 0 <= k < i ==> !TranslateAcc(old(acs[k])).Refused?
      invariant forall k :: 0 <= k < slots.Length ==>
        slots[k] == if offset <= k < offset + i
                    then Write(TranslateAcc(old(acs[k - offset])), old(slots[k])) else old(slots[k])
      invariant forall k :: 0 <= k < acs.Length ==>
        acs[k] == if k < i then Normalized(old(acs[k])) else old(acs[k])
    {
      if acs[i].base != 0 {
        var rd, wr, virt, concurrency := false, false, false, Sequential;
        if acs[i].flags.storage {
          acs[i] := acs[i].(flags := acs[i].flags.(write := true, noncoherent := true));
        }
        if acs[i].flags.read { rd := true; }
        if acs[i].flags.write || acs[i].flags.concurrentWrite {
          wr := true;
          if acs[i].flags.concurrentWrite { concurrency := Concurrent; }
        }
        if acs[i].flags.noncoherent { virt := true; }
        if acs[i].flags.nostorage { return false; }
        slots[offset + i] := Built(Access(Segment(acs[i].base, acs[i].len), rd, wr, virt, concurrency));
      }
    }
    ok := true;
  }

  // __kmp_omp_task_deps_to_xkomp_accesses
  method DepsToAccesses(slots: array<Slot>, offset: nat, deps: seq<DepInfo>) returns (ok: bool)
    requires offset + |deps| <= slots.Length
    modifies slots
    ensures ok <==> forall i :: 0 <= i < |deps| ==> !TranslateDep(deps[i]).Refused?
    ensures ok ==> forall k :: 0 <= k < slots.Length ==>
      slots[k] == if offset <= k < offset + |deps|
                  then Write(TranslateDep(deps[k - offset]), old(slots[k])) else old(slots[k])
  {
    for i := 0 to |deps|
      invariant forall k :: 0 <= k < i ==> !TranslateDep(deps[k]).Refused?
      invariant forall k :: 0 <= k < slots.Length ==>
        slots[k] == if offset <= k < offset + i
                    then Write(TranslateDep(deps[k - offset]), old(slots[k])) else old(slots[k])
    {
      if deps[i].base != 0 {
        var rd, wr, concurrency := false, false, Sequential;
        if deps[i].flags.in_ { rd, concurrency := true, Sequential; }
        if deps[i].flags.out { wr, concurrency := true, Sequential; }
        if deps[i].flags.mtx { wr, concurrency := true, Commutative; }
        if deps[i].flags.set_ { wr, concurrency := true, Concurrent; }
        if deps[i].flags.all { return false; }
        slots[offset + i] := Built(Access(Handle(deps[i].base), rd, wr, true, concurrency));
      }
    }
    ok := true;
  }

  lemma TranslateAllAt(acs: seq<AccInfo>, deps: seq<DepInfo>, noalias: seq<DepInfo>)
    ensures var ts := TranslateAll(acs, deps, noalias);
      Refused in ts <==>
        || (exists i :: 0 <= i < |acs| && TranslateAcc(acs[i]).Refused?)
        || (exists i :: 0 <= i < |deps| && TranslateDep(deps[i]).Refused?)
        || (exists i :: 0 <= i < |noalias| && TranslateDep(noalias[i]).Refused?)
  {
    var ts := TranslateAll(acs, deps, noalias);
    assert forall i :: 0 <= i < |acs| ==> ts[i] == TranslateAcc(acs[i]);
    assert forall i :: 0 <= i < |deps| ==> ts[|acs| + i] == TranslateDep(deps[i]);
    assert forall i :: 0 <= i < |noalias| ==> ts[|acs| + |deps| + i] == TranslateDep(noalias[i]);
  }

  // Three disjoint slices, filled one after the other, make up the whole item list.
  lemma SlicesFillAll(acs: seq<AccInfo>, deps: seq<DepInfo>, noalias: seq<DepInfo>,
                      before: seq<Slot>, first: seq<Slot>, second: seq<Slot>, third: seq<Slot>)
    requires |acs| + |deps| + |noalias| <= |before| == |first| == |second| == |third|
    requires Refused !in TranslateAll(acs, deps, noalias)
    requires forall k :: 0 <= k < |before| ==>
      first[k] == if k < |acs| then Write(TranslateAcc(acs[k]), before[k]) else before[k]
    requires forall k :: 0 <= k < |before| ==>
      second[k] == if |acs| <= k < |acs| + |deps| then Write(TranslateDep(deps[k - |acs|]), first[k]) else first[k]
    requires forall k :: 0 <= k < |before| ==>
      third[k] == if |acs| + |deps| <= k < |acs| + |deps| + |noalias|
                  then Write(TranslateDep(noalias[k - |acs| - |deps|]), second[k]) else second[k]
    ensures FilledOver(before, TranslateAll(acs, deps, noalias), third)
  {
  }

  // The slot-filling part of __kmpc_omp_task_with_deps_v2: three disjoint slices,
  // one per list, and nothing else. The answer is how many slots are resolved.
  method FillSlots(slots: array<Slot>, acs: array<AccInfo>, deps: seq<DepInfo>, noalias: seq<DepInfo>)
    returns (r: Result<nat, Failure>)
    modifies slots, acs
    ensures var n := acs.Length + |deps| + |noalias|;
      var ts := TranslateAll(old(acs[..]), deps, noalias);
      && (r == Err(TooManyAccesses) <==> n > slots.Length)
      && (r == Err(Unsupported) <==> n <= slots.Length && Refused in ts)
      && (r.Ok? ==> r.value == n)
      && (r.Ok? ==> FilledOver(old(slots[..]), ts, slots[..]))
  {
    var nacs := acs.Length;
    var n := nacs + |deps| + |noalias|;
    ghost var items := acs[..];
    ghost var before := slots[..];
    if n > slots.Length { return Err(TooManyAccesses); }
    TranslateAllAt(items, deps, noalias);
    var ok := AcsToAccesses(slots, 0, acs);
    if !ok { return Err(Unsupported); }
    ghost var first := slots[..];
    ok := DepsToAccesses(slots, nacs, deps);
    if !ok { return Err(Unsupported); }
    ghost var second := slots[..];
    ok := DepsToAccesses(slots, nacs + |deps|, noalias);
    if !ok { return Err(Unsupported); }
    ghost var third := slots[..];
    SlicesFillAll(items, deps, noalias, before, first, second, third);
    r := Ok(n);
  }
}
