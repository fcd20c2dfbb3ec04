// The per-construct task format cache of get_or_create_loc_format, with any number
// of threads looking formats up at once.
module FormatCache {
  import opened Wrappers

  type Thread = nat

  // Addresses; 0 is NULL.
  type Ptr = nat

  // The compiler's JIT descriptor: bitcode address and size, requested prototype,
  // and everything else it carries.
  datatype JitDesc = JitDesc(ir: Ptr, irSize: nat, proto: int, rest: int)

  datatype Request = Request(loc: Ptr, desc: Option<JitDesc>, scatter: bool)

  datatype Proto = PackedBuffer | UnpackedParams | VoidPtrPtr

  const PROTO_PACKED_BUFFER := 2

  datatype Source = NoSource | LlvmIr(desc: JitDesc, proto: Proto)

  // loc is where the label comes from, 0 for the default label.
  datatype Format = Format(loc: Ptr, source: Source)

  // Index of the shared template in the format table.
  const HOST: nat := 0

  predicate HasIr(q: Request) {
    q.desc.Some? && q.desc.value.ir != 0 && q.desc.value.irSize > 0
  }

  // Neither a location nor bitcode: the shared template is used.
  predicate Keyless(q: Request) {
    q.loc == 0 && !HasIr(q)
  }

  function Key(q: Request): Ptr {
    if HasIr(q) then q.desc.value.ir else q.loc
  }

  function FormatFor(q: Request): Format {
    Format(q.loc,
           if HasIr(q) then
             LlvmIr(q.desc.value,
                    if q.desc.value.proto == PROTO_PACKED_BUFFER then PackedBuffer
                    else if q.scatter then UnpackedParams else VoidPtrPtr)
           else NoSource)
  }

  // ---- threads, step by step ----

  datatype Pc =
    | Idle
    | Acquiring(q: Request)          // spinning on per_loc_lock
    | Finding(q: Request)            // lock held, about to look the key up
    | Creating(q: Request)           // key absent, about to call task_format_create
    | Inserting(q: Request, id: nat) // format created, about to store it
    | Releasing(q: Request, id: nat) // about to unlock and return

  // formats is XKRT's table; madeFor records, for each format but the template, the
  // request it was created for; answers the finished lookups.
  datatype State = State(
    lock: Option<Thread>, pcs: map<Thread, Pc>, perLoc: map<Ptr, nat>,
    formats: seq<Format>, madeFor: seq<Request>, answers: seq<(Request, nat)>)

  datatype Action = Call(t: Thread, q: Request) | Acquire(t: Thread) | Find(t: Thread)
                  | Create(t: Thread) | Insert(t: Thread) | Release(t: Thread)

  function PcOf(s: State, t: Thread): Pc {
    if t in s.pcs then s.pcs[t] else Idle
  }

  predicate Enabled(s: State, a: Action) {
    match a
    case Call(t, q) => PcOf(s, t).Idle?
    case Acquire(t) => PcOf(s, t).Acquiring? && s.lock == None
    case Find(t) => PcOf(s, t).Finding?
    case Create(t) => PcOf(s, t).Creating?
    case Insert(t) => PcOf(s, t).Inserting?
    case Release(t) => PcOf(s, t).Releasing?
  }

  function Apply(s: State, a: Action): State
    requires Enabled(s, a)
  {
    var pc := PcOf(s, a.t);
    match a
    case Call(t, q) =>
      if Keyless(q) then s.(answers := s.answers + [(q, HOST)]) else s.(pcs := s.pcs[t := Acquiring(q)])
    case Acquire(t) => s.(lock := Some(t), pcs := s.pcs[t := Finding(pc.q)])
    case Find(t) =>
      s.(pcs := s.pcs[t := if Key(pc.q) in s.perLoc then Releasing(pc.q, s.perLoc[Key(pc.q)]) else Creating(pc.q)])
    case Create(t) =>
      s.(pcs := s.pcs[t := Inserting(pc.q, |s.formats|)],
         formats := s.formats + [FormatFor(pc.q)], madeFor := s.madeFor + [pc.q])
    case Insert(t) => s.(pcs := s.pcs[t := Releasing(pc.q, pc.id)], perLoc := s.perLoc[Key(pc.q) := pc.id])
    case Release(t) => s.(lock := None, pcs := s.pcs[t := Idle], answers := s.answers + [(pc.q, pc.id)])
  }

  // The cache right after the template has been registered.
  predicate Initial(s: State) {
    s.lock == None && s.pcs == map[] && s.perLoc == map[] && |s.formats| == 1 && s.madeFor == [] && s.answers == []
  }

  ghost predicate Schedule(s: State, acts: seq<Action>)
    decreases |acts|
  {
    acts == [] || (Enabled(s, acts[0]) && Schedule(Apply(s, acts[0]), acts[1..]))
  }

  ghost function Reach(s: State, acts: seq<Action>): State
    requires Schedule(s, acts)
    decreases |acts|
  {
    if acts == [] then s else Reach(Apply(s, acts[0]), acts[1..])
  }

  // ---- what every interleaving keeps ----

  predicate Critical(pc: Pc) {
    pc.Finding? || pc.Creating? || pc.Inserting? || pc.Releasing?
  }

  // One holder at a time, and only it is past acquiring; keyless requests never queue.
  ghost predicate LockKept(s: State) {
    && (forall t: Thread :: Critical(PcOf(s, t)) <==> s.lock == Some(t))
    && (forall t: Thread :: !PcOf(s, t).Idle? ==> !Keyless(PcOf(s, t).q))
  }

  // Formats belong to different keys and carry what was asked; the map only holds
  // formats made for the key they are stored under.
  ghost predicate TableKept(s: State) {
    && |s.formats| == |s.madeFor| + 1
    && (forall i, j :: 0 <= i < j < |s.madeFor| ==> Key(s.madeFor[i]) != Key(s.madeFor[j]))
    && (forall i :: 0 <= i < |s.madeFor| ==> s.formats[i + 1] == FormatFor(s.madeFor[i]))
    && (forall k :: k in s.perLoc ==> 0 < s.perLoc[k] <= |s.madeFor| && Key(s.madeFor[s.perLoc[k] - 1]) == k)
  }

  predicate Stored(s: State, n: nat)
    requires n <= |s.madeFor|
  {
    forall i :: 0 <= i < n ==> Key(s.madeFor[i]) in s.perLoc && s.perLoc[Key(s.madeFor[i])] == i + 1
  }

  // What the lock holder knows: every format is stored, but for the one it has just made.
  predicate HolderKnows(s: State) {
    if s.lock == None then Stored(s, |s.madeFor|)
    else match PcOf(s, s.lock.value)
      case Inserting(q, id) =>
        |s.madeFor| > 0 && id == |s.madeFor| && s.madeFor[id - 1] == q && Stored(s, id - 1)
      case Creating(q) => Stored(s, |s.madeFor|) && Key(q) !in s.perLoc
      case Releasing(q, id) => Stored(s, |s.madeFor|) && Key(q) in s.perLoc && s.perLoc[Key(q)] == id
      case _ => Stored(s, |s.madeFor|)
  }

  // Answers are what the map says, or the template.
  predicate AnswersKept(s: State) {
    forall i :: 0 <= i < |s.answers| ==> AnswerOk(s, s.answers[i])
  }

  predicate AnswerOk(s: State, a: (Request, nat)) {
    if Keyless(a.0) then a.1 == HOST else Key(a.0) in s.perLoc && a.1 == s.perLoc[Key(a.0)]
  }

  ghost predicate Inv(s: State) {
    LockKept(s) && TableKept(s) && HolderKnows(s) && AnswersKept(s)
  }

  lemma LockStaysKept(s: State, a: Action)
    requires LockKept(s) && Enabled(s, a)
    ensures LockKept(Apply(s, a))
  {
    var s' := Apply(s, a);
    assert forall t: Thread :: t != a.t ==> PcOf(s', t) == PcOf(s, t);
  }

  lemma OthersHoldNothing(s: State, a: Action)
    requires LockKept(s) && Enabled(s, a) && !a.Call? && !a.Acquire?
    ensures s.lock == Some(a.t)
  {
    assert Critical(PcOf(s, a.t));
  }

  lemma TableStaysKept(s: State, a: Action)
    requires LockKept(s) && TableKept(s) && HolderKnows(s) && Enabled(s, a)
    ensures TableKept(Apply(s, a))
  {
    hide LockKept, FormatFor, Key, Stored, TableKept;
    if !a.Call? && !a.Acquire? {
      OthersHoldNothing(s, a);
    }
    if a.Create? {
      CreatingKeepsTable(s, a.t);
    } else if a.Insert? {
      InsertingKeepsTable(s, a.t);
    } else {
      SameTable(s, Apply(s, a));
    }
  }

  lemma SameTable(s: State, s': State)
    requires TableKept(s) && s'.madeFor == s.madeFor && s'.formats == s.formats && s'.perLoc == s.perLoc
    ensures TableKept(s')
  {
    hide FormatFor, Key;
  }

  lemma InsertingKeepsTable(s: State, t: Thread)
    requires TableKept(s) && HolderKnows(s) && s.lock == Some(t) && PcOf(s, t).Inserting?
    ensures TableKept(Apply(s, Insert(t)))
  {
    hide FormatFor, Key, Stored;
    var s' := Apply(s, Insert(t));
    forall k | k in s'.perLoc
      ensures 0 < s'.perLoc[k] <= |s'.madeFor| && Key(s'.madeFor[s'.perLoc[k] - 1]) == k
    {
      assert k != Key(PcOf(s, t).q) ==> k in s.perLoc;
    }
  }

  // A key that is not stored has no format yet.
  lemma CreatingKeepsTable(s: State, t: Thread)
    requires TableKept(s) && PcOf(s, t).Creating?
    requires Stored(s, |s.madeFor|) && Key(PcOf(s, t).q) !in s.perLoc
    ensures TableKept(Apply(s, Create(t)))
  {
    hide FormatFor, Key;
    var s' := Apply(s, Create(t));
    forall i, j | 0 <= i < j < |s'.madeFor| ensures Key(s'.madeFor[i]) != Key(s'.madeFor[j]) {
      assert Key(s.madeFor[i]) in s.perLoc;
    }
  }

  // Moves that leave the table and the map alone leave what is stored alone.
  lemma StoredStays(s: State, s': State, n: nat)
    requires n <= |s.madeFor| && Stored(s, n)
    requires s.madeFor <= s'.madeFor && s'.perLoc == s.perLoc
    ensures Stored(s', n)
  {
    forall i | 0 <= i < n
      ensures Key(s'.madeFor[i]) in s'.perLoc && s'.perLoc[Key(s'.madeFor[i])] == i + 1
    {
      assert s'.madeFor[i] == s.madeFor[i];
    }
  }

  lemma CallLeavesHolder(s: State, t: Thread, q: Request)
    requires LockKept(s) && TableKept(s) && HolderKnows(s) && PcOf(s, t).Idle?
    ensures HolderKnows(Apply(s, Call(t, q)))
  {
    hide Stored, TableKept;
    var s' := Apply(s, Call(t, q));
    if s.lock.Some? {
      assert Critical(PcOf(s, s.lock.value));
      assert PcOf(s', s.lock.value) == PcOf(s, s.lock.value);
    }
    if s.lock == None || !PcOf(s, s.lock.value).Inserting? {
      StoredStays(s, s', |s.madeFor|);
    } else {
      StoredStays(s, s', |s.madeFor| - 1);
    }
  }

  // Storing the format just made completes the map.
  lemma InsertCompletes(s: State, t: Thread)
    requires TableKept(s) && HolderKnows(s) && s.lock == Some(t) && PcOf(s, t).Inserting?
    ensures HolderKnows(Apply(s, Insert(t)))
  {
    hide Key, FormatFor;
    var s' := Apply(s, Insert(t));
    var n := |s.madeFor|;
    forall i | 0 <= i < n
      ensures Key(s'.madeFor[i]) in s'.perLoc && s'.perLoc[Key(s'.madeFor[i])] == i + 1
    {
      assert i < n - 1 ==> Key(s.madeFor[i]) != Key(s.madeFor[n - 1]);
    }
  }

  lemma TableCount(s: State)
    requires TableKept(s)
    ensures |s.formats| == |s.madeFor| + 1
  {
  }

  lemma HolderStillKnows(s: State, a: Action)
    requires LockKept(s) && TableKept(s) && HolderKnows(s) && Enabled(s, a)
    ensures HolderKnows(Apply(s, a))
  {
    hide Stored, LockKept, TableKept, Key, FormatFor;
    var s' := Apply(s, a);
    if a.Call? {
      CallLeavesHolder(s, a.t, a.q);
    } else if a.Acquire? {
      StoredStays(s, s', |s.madeFor|);
    } else {
      OthersHoldNothing(s, a);
      if a.Insert? {
        InsertCompletes(s, a.t);
      } else if a.Create? {
        TableCount(s);
        StoredStays(s, s', |s.madeFor|);
      } else if a.Find? {
        StoredStays(s, s', |s.madeFor|);
      } else {
        StoredStays(s, s', |s.madeFor|);
      }
    }
  }

  // Entries of the map are never changed or dropped.
  lemma MapOnlyGrows(s: State, a: Action, k: Ptr)
    requires LockKept(s) && TableKept(s) && HolderKnows(s) && Enabled(s, a) && k in s.perLoc
    ensures var s' := Apply(s, a); k in s'.perLoc && s'.perLoc[k] == s.perLoc[k]
  {
    hide LockKept, Stored, Key, FormatFor;
    if a.Insert? {
      OthersHoldNothing(s, a);
    }
  }

  lemma AnswersStayKept(s: State, a: Action)
    requires LockKept(s) && TableKept(s) && HolderKnows(s) && AnswersKept(s) && Enabled(s, a)
    ensures AnswersKept(Apply(s, a))
  {
    hide TableKept, Stored, Key, FormatFor, Keyless;
    var s' := Apply(s, a);
    forall i | 0 <= i < |s'.answers| ensures AnswerOk(s', s'.answers[i]) {
      if i < |s.answers| {
        assert AnswerOk(s, s.answers[i]);
        if !Keyless(s.answers[i].0) {
          MapOnlyGrows(s, a, Key(s.answers[i].0));
        }
      } else if a.Release? {
        OthersHoldNothing(s, a);
        assert !Keyless(PcOf(s, a.t).q);
      }
    }
  }

  lemma ActionKeeps(s: State, a: Action)
    requires Inv(s) && Enabled(s, a)
    ensures Inv(Apply(s, a))
  {
    LockStaysKept(s, a);
    TableStaysKept(s, a);
    HolderStillKnows(s, a);
    AnswersStayKept(s, a);
  }

  lemma {:induction false} EveryRunKeeps(s: State, acts: seq<Action>)
    requires Inv(s) && Schedule(s, acts)
    ensures Inv(Reach(s, acts))
    decreases |acts|
  {
    if acts != [] {
      ActionKeeps(s, acts[0]);
      EveryRunKeeps(Apply(s, acts[0]), acts[1..]);
    }
  }

  // ---- the cache as its users see it ----

  lemma StartsKept(s: State)
    requires Initial(s)
    ensures Inv(s)
  {
  }

  // At most one format is ever created per key, and the format an answer names was
  // built from a request with that key.
  lemma OneFormatPerKey(s: State, acts: seq<Action>, i: nat)
    requires Initial(s) && Schedule(s, acts) && i < |Reach(s, acts).answers|
    ensures var s' := Reach(s, acts);
      var (q, x) := s'.answers[i];
      && (forall m, n :: 0 <= m < n < |s'.madeFor| ==> Key(s'.madeFor[m]) != Key(s'.madeFor[n]))
      && |s'.formats| == |s'.madeFor| + 1
      && (Keyless(q) ==> x == HOST)
      && (!Keyless(q) ==> 0 < x <= |s'.madeFor| && Key(s'.madeFor[x - 1]) == Key(q)
                          && s'.formats[x] == FormatFor(s'.madeFor[x - 1]))
  {
    hide LockKept, HolderKnows, Key, FormatFor, Keyless;
    StartsKept(s);
    EveryRunKeeps(s, acts);
    var s' := Reach(s, acts);
    assert AnswerOk(s', s'.answers[i]);
  }

  // Lookups with the same key get the same format, with different keys never.
  lemma CacheIsAMap(s: State, acts: seq<Action>, i: nat, j: nat)
    requires Initial(s) && Schedule(s, acts)
    requires i < |Reach(s, acts).answers| && j < |Reach(s, acts).answers|
    ensures var ((q, x), (r, y)) := (Reach(s, acts).answers[i], Reach(s, acts).answers[j]);
      x == y <==> (if Keyless(q) || Keyless(r) then Keyless(q) && Keyless(r) else Key(q) == Key(r))
  {
    hide LockKept, TableKept, HolderKnows, Key, FormatFor, Keyless;
    OneFormatPerKey(s, acts, i);
    OneFormatPerKey(s, acts, j);
    StartsKept(s);
    EveryRunKeeps(s, acts);
    assert AnswerOk(Reach(s, acts), Reach(s, acts).answers[i]) && AnswerOk(Reach(s, acts), Reach(s, acts).answers[j]);
  }

  // A lookup comes with IR when it has a descriptor with an address and a size.
  lemma IrIsAddressAndSize(q: Request)
    ensures HasIr(q) <==> q.desc.Some? && q.desc.value.ir != 0 && q.desc.value.irSize > 0
    ensures q.desc == None ==> !HasIr(q)
    ensures q.desc.Some? && (q.desc.value.ir == 0 || q.desc.value.irSize == 0) ==> !HasIr(q)
  {
  }

  // Constructs with distinct IR never share a format, whatever their locations.
  lemma DistinctIrNeverShares(s: State, acts: seq<Action>, i: nat, j: nat)
    requires Initial(s) && Schedule(s, acts)
    requires i < |Reach(s, acts).answers| && j < |Reach(s, acts).answers|
    requires HasIr(Reach(s, acts).answers[i].0) && HasIr(Reach(s, acts).answers[j].0)
    ensures var ((q, x), (r, y)) := (Reach(s, acts).answers[i], Reach(s, acts).answers[j]);
      x == y <==> q.desc.value.ir == r.desc.value.ir
  {
    CacheIsAMap(s, acts, i, j);
  }

  // Lookups without IR share a format exactly when they come from the same location.
  lemma WithoutIrLocationDecides(s: State, acts: seq<Action>, i: nat, j: nat)
    requires Initial(s) && Schedule(s, acts)
    requires i < |Reach(s, acts).answers| && j < |Reach(s, acts).answers|
    requires !HasIr(Reach(s, acts).answers[i].0) && !HasIr(Reach(s, acts).answers[j].0)
    ensures var ((q, x), (r, y)) := (Reach(s, acts).answers[i], Reach(s, acts).answers[j]);
      x == y <==> q.loc == r.loc
  {
    CacheIsAMap(s, acts, i, j);
  }

  // A lookup with IR and one without share a format exactly when the address of the IR is
  // the other's location.
  lemma IrMeetsLocation(s: State, acts: seq<Action>, i: nat, j: nat)
    requires Initial(s) && Schedule(s, acts)
    requires i < |Reach(s, acts).answers| && j < |Reach(s, acts).answers|
    requires HasIr(Reach(s, acts).answers[i].0) && !HasIr(Reach(s, acts).answers[j].0)
    ensures var ((q, x), (r, y)) := (Reach(s, acts).answers[i], Reach(s, acts).answers[j]);
      x == y <==> q.desc.value.ir == r.loc
  {
    CacheIsAMap(s, acts, i, j);
  }

  // The template is the answer exactly for lookups with neither location nor IR.
  lemma TemplateIsForTheKeyless(s: State, acts: seq<Action>, i: nat)
    requires Initial(s) && Schedule(s, acts) && i < |Reach(s, acts).answers|
    ensures var (q, x) := Reach(s, acts).answers[i];
      x == 0 <==> q.loc == 0 && !HasIr(q)
  {
    OneFormatPerKey(s, acts, i);
  }

  // Constructs are distinct objects: an IR address is not a location's address, and
  // determines the descriptor it comes from.
  ghost predicate DistinctObjects(requests: set<Request>) {
    forall q, r :: q in requests && r in requests && HasIr(q) ==>
      && (!HasIr(r) ==> r.loc != q.desc.value.ir)
      && (HasIr(r) && r.desc.value.ir == q.desc.value.ir ==> r.desc == q.desc && r.scatter == q.scatter)
  }

  function Requested(acts: seq<Action>): set<Request> {
    set a | a in acts && a.Call? :: a.q
  }

  // Every request in play is one of these.
  ghost predicate AllFrom(s: State, all: set<Request>) {
    && (forall i :: 0 <= i < |s.madeFor| ==> s.madeFor[i] in all)
    && (forall i :: 0 <= i < |s.answers| ==> s.answers[i].0 in all)
    && (forall t: Thread :: !PcOf(s, t).Idle? ==> PcOf(s, t).q in all)
  }

  lemma ActionKeepsFrom(s: State, a: Action, all: set<Request>)
    requires Enabled(s, a) && AllFrom(s, all) && (a.Call? ==> a.q in all)
    ensures AllFrom(Apply(s, a), all)
  {
    var s' := Apply(s, a);
    assert forall t: Thread :: t != a.t ==> PcOf(s', t) == PcOf(s, t);
    assert PcOf(s', a.t).Idle? || PcOf(s', a.t).q in all;
  }

  lemma {:induction false} MadeForRequests(s: State, acts: seq<Action>, all: set<Request>)
    requires Schedule(s, acts) && Requested(acts) <= all && AllFrom(s, all)
    ensures AllFrom(Reach(s, acts), all)
    decreases |acts|
  {
    hide AllFrom;
    if acts != [] {
      assert acts[0] in acts && (acts[0].Call? ==> acts[0].q in Requested(acts));
      assert Requested(acts[1..]) <= Requested(acts);
      ActionKeepsFrom(s, acts[0], all);
      MadeForRequests(Apply(s, acts[0]), acts[1..], all);
    }
  }

  // An IR-keyed lookup then always gets a format carrying that IR's own descriptor.
  lemma IrFormatCarriesItsDescriptor(s: State, acts: seq<Action>, i: nat)
    requires Initial(s) && Schedule(s, acts) && DistinctObjects(Requested(acts))
    requires i < |Reach(s, acts).answers| && HasIr(Reach(s, acts).answers[i].0)
    ensures var s' := Reach(s, acts);
      var (q, x) := s'.answers[i];
      x < |s'.formats| && s'.formats[x].source.LlvmIr?
      && var source, desc := s'.formats[x].source, q.desc.value;
      && source.desc == desc
      && (source.proto == PackedBuffer <==> desc.proto == 2)
      && (source.proto == UnpackedParams <==> desc.proto != 2 && q.scatter)
  {
    OneFormatPerKey(s, acts, i);
    MadeForRequests(s, acts, Requested(acts));
    var s' := Reach(s, acts);
    var (q, x) := s'.answers[i];
    assert s'.madeFor[x - 1] in Requested(acts);
  }

  // Without IR the format is labelled for the lookup's own location and carries no source.
  lemma LocationFormatIsLabelled(s: State, acts: seq<Action>, i: nat)
    requires Initial(s) && Schedule(s, acts) && DistinctObjects(Requested(acts))
    requires i < |Reach(s, acts).answers|
    requires !HasIr(Reach(s, acts).answers[i].0) && Reach(s, acts).answers[i].0.loc != 0
    ensures var s' := Reach(s, acts);
      var (q, x) := s'.answers[i];
      0 < x < |s'.formats| && s'.formats[x].loc == q.loc && s'.formats[x].source == NoSource
  {
    OneFormatPerKey(s, acts, i);
    MadeForRequests(s, acts, Requested(acts));
    var s' := Reach(s, acts);
    var (q, x) := s'.answers[i];
    assert s'.madeFor[x - 1] in Requested(acts) && q in Requested(acts);
  }
}
