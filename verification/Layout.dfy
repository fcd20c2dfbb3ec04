// How task_alloc lays out what follows a task's accesses: task_args_t, then the
// kmp_task_t with its shared pointers, then the argument slots.
module Layout {
  import opened Words

  type Byte = x: int | 0 <= x < 256

  // ---- bits ----

  function Pow2(k: nat): (p: nat)
    ensures p > 0
  {
    if k == 0 then 1 else 2 * Pow2(k - 1)
  }

  function BitAnd(x: nat, y: nat): (r: nat)
    ensures r <= x && r <= y
  {
    if x == 0 || y == 0 then 0
    else 2 * BitAnd(x / 2, y / 2) + (if x % 2 == 1 && y % 2 == 1 then 1 else 0)
  }

  function Not64(x: Word): Word {
    U64 - 1 - x
  }

  lemma Scale(a: int, b: int, d: nat)
    requires a <= b
    ensures a * d <= b * d && (a + 1) * d == a * d + d
  {
  }

  lemma Regroup(x: int, y: int)
    ensures 2 * (x * y) == (2 * x) * y
  {
  }

  lemma {:induction false} Pow2Add(a: nat, b: nat)
    ensures Pow2(a + b) == Pow2(a) * Pow2(b)
    decreases a
  {
    if a > 0 {
      Pow2Add(a - 1, b);
      Regroup(Pow2(a - 1), Pow2(b));
    }
  }

  lemma Pow2Values()
    ensures Pow2(3) == 8 && Pow2(8) == 256 && Pow2(64) == U64
  {
    assert Pow2(3) == 8 && Pow2(4) == 16;
    Pow2Add(4, 4);
    Pow2Add(8, 8);
    Pow2Add(16, 16);
    Pow2Add(32, 32);
  }

  lemma DivModUnique(x: int, d: int, q: int, r: int)
    requires d > 0 && x == q * d + r && 0 <= r < d
    ensures x / d == q && x % d == r
  {
    var q' := x / d;
    assert x == q' * d + x % d;
    if q < q' {
      Scale(q + 1, q', d);
    } else if q > q' {
      Scale(q' + 1, q, d);
    }
  }

  lemma ModTwice(x: nat, d: nat)
    requires d > 0
    ensures x % (2 * d) == 2 * ((x / 2) % d) + x % 2
  {
    var q, r := (x / 2) / d, (x / 2) % d;
    assert x / 2 == q * d + r;
    assert x == q * (2 * d) + (2 * r + x % 2) by {
      assert q * (2 * d) == 2 * (q * d);
    }
    DivModUnique(x, 2 * d, q, 2 * r + x % 2);
  }

  lemma MaskOdd(x: nat, y: nat)
    ensures BitAnd(x, 2 * y + 1) == 2 * BitAnd(x / 2, y) + x % 2
  {
    if x != 0 {
      assert (2 * y + 1) / 2 == y && (2 * y + 1) % 2 == 1;
    }
  }

  // Masking with 2^k - 1 takes the remainder.
  lemma {:induction false} MaskLow(x: nat, k: nat)
    ensures BitAnd(x, Pow2(k) - 1) == x % Pow2(k)
    decreases k
  {
    if k > 0 {
      MaskOdd(x, Pow2(k - 1) - 1);
      MaskLow(x / 2, k - 1);
      ModTwice(x, Pow2(k - 1));
    }
  }

  lemma MaskEven(x: nat, y: nat)
    ensures BitAnd(x, 2 * y) == 2 * BitAnd(x / 2, y)
  {
    if x != 0 && y != 0 {
      assert 2 * y != 0 && (2 * y) / 2 == y && (2 * y) % 2 == 0;
    }
  }

  // Masking with the complement, in n bits, takes the rest.
  lemma {:induction false} MaskHigh(x: nat, k: nat, n: nat)
    requires k <= n && x < Pow2(n)
    ensures Pow2(k) <= Pow2(n) && BitAnd(x, Pow2(n) - Pow2(k)) == x - x % Pow2(k)
    decreases k
  {
    hide BitAnd;
    if k == 0 {
      MaskLow(x, n);
      assert x % Pow2(n) == x by { DivModUnique(x, Pow2(n), 0, x); }
    } else {
      MaskHigh(x / 2, k - 1, n - 1);
      ModTwice(x, Pow2(k - 1));
      MaskEven(x, Pow2(n - 1) - Pow2(k - 1));
    }
  }

  // ---- round_up_to_val ----

  function RoundUpToVal(size: Word, val: Word): Word {
    var mask := Sub64(val, 1);
    if BitAnd(size, mask) != 0 then
      var floor := BitAnd(size, Not64(mask));
      if floor <= U64 - 1 - val then floor + val else floor
    else size
  }

  ghost predicate LeastMultiple(r: nat, size: nat, d: nat)
    requires d > 0
  {
    r % d == 0 && r >= size && forall m: nat :: m % d == 0 && m >= size ==> r <= m
  }

  lemma CeilingIsMultiple(size: nat, d: nat) returns (b: nat)
    requires d > 0
    ensures b * d == if size % d == 0 then size else size - size % d + d
    ensures b * d < size + d && (b * d) % d == 0
  {
    var q := size / d;
    b := if size % d == 0 then q else q + 1;
    Scale(q, q, d);
    DivModUnique(b * d, d, b, 0);
  }

  // No multiple of d lies strictly between b * d - d and b * d.
  lemma NoneBetween(m: nat, d: nat, b: nat)
    requires d > 0 && m % d == 0 && m > b * d - d
    ensures b * d <= m
  {
    var a := m / d;
    assert m == a * d;
    if a < b {
      Scale(a, b - 1, d);
      Scale(b - 1, b, d);
      assert false;
    }
    Scale(b, a, d);
  }

  lemma CeilingIsLeast(size: nat, d: nat)
    requires d > 0
    ensures LeastMultiple(if size % d == 0 then size else size - size % d + d, size, d)
  {
    var b := CeilingIsMultiple(size, d);
    forall m: nat | m % d == 0 && m >= size ensures b * d <= m {
      NoneBetween(m, d, b);
    }
  }

  // U64 is a multiple of every smaller power of two.
  lemma Pow2Fits(k: nat)
    requires k < 64
    ensures Pow2(k) <= U64 / 2 && (Pow2(64 - k) - 1) * Pow2(k) == U64 - Pow2(k)
  {
    Pow2Values();
    Pow2Add(64 - k, k);
    Scale(2, Pow2(64 - k), Pow2(k));
    Scale(Pow2(64 - k) - 1, Pow2(64 - k), Pow2(k));
  }

  // The least multiple of a power of two not below size, exactly when that multiple
  // is a 64-bit number; above that the size is rounded down.
  lemma RoundUpMeaning(size: Word, k: nat)
    requires k < 64
    ensures Pow2(k) < U64
    ensures var r := RoundUpToVal(size, Pow2(k));
      && (LeastMultiple(r, size, Pow2(k)) <==> size <= U64 - Pow2(k))
      && (size > U64 - Pow2(k) ==> r == U64 - Pow2(k))
  {
    hide BitAnd, LeastMultiple, Pow2;
    Pow2Values();
    Pow2Fits(k);
    var d, r := Pow2(k), RoundUpToVal(size, Pow2(k));
    MaskLow(size, k);
    MaskHigh(size, k, 64);
    FloorEnds(size, k);
    CeilingIsLeast(size, d);
    if size > U64 - d {
      NotBelow(r, size, d);
    }
  }

  lemma NotBelow(r: nat, size: nat, d: nat)
    requires d > 0 && r < size
    ensures !LeastMultiple(r, size, d)
  {
  }

  // Above U64 - 2^k, and only there, the multiple below size is U64 - 2^k itself.
  lemma FloorEnds(size: Word, k: nat)
    requires k < 64
    ensures var d := Pow2(k);
      && (size > U64 - d ==> size - size % d == U64 - d && size % d != 0)
      && (size <= U64 - d ==> size % d == 0 || size - size % d <= U64 - 1 - d)
  {
    Pow2Fits(k);
    var d := Pow2(k);
    if size > U64 - d {
      DivModUnique(size, d, Pow2(64 - k) - 1, size - (U64 - d));
    }
  }

  // ---- the args region ----

  const ARGS_HEADER: nat := 32     // sizeof(task_args_t): task, kargs, n_kargs, scatter
  const KTASK_FIELDS: nat := 40    // sizeof(kmp_task_t): shareds, routine, part_id, data1, data2
  const WORD: nat := 8

  datatype Sizes = Sizes(ktask: Word, shareds: Word, nArgs: Word) {
    function Slots(): Word {
      if nArgs != 0 then nArgs else 1
    }

    // size_t arithmetic, wrapping
    function Block(): Word {
      RoundUpToVal(Add64(ktask, shareds), WORD)
    }

    function ArgsSize(): Word {
      Add64(Add64(ARGS_HEADER, Block()), Shl3(Slots()))
    }

    // the same in unbounded arithmetic
    function TrueBlock(): nat {
      var n := ktask + shareds;
      if n % WORD == 0 then n else n - n % WORD + WORD
    }

    function TrueSize(): nat {
      ARGS_HEADER + TrueBlock() + WORD * Slots()
    }

    predicate Fits() {
      TrueSize() < U64
    }
  }

  // The requested size is right exactly when the region fits the address space.
  lemma SizeIsExact(z: Sizes)
    ensures z.ArgsSize() == z.TrueSize() <==> z.Fits()
    ensures z.Fits() ==> z.Block() == z.TrueBlock()
    // the header, the task and its shared pointers up to a whole word, a slot for every
    // argument and at least one
    ensures z.TrueSize() == 32 + z.TrueBlock() + 8 * Max(z.nArgs, 1)
    ensures LeastMultiple(z.TrueBlock(), z.ktask + z.shareds, 8)
    ensures z.Fits() <==> z.TrueSize() < 0x1_0000_0000_0000_0000
  {
    CeilingIsLeast(z.ktask + z.shareds, 8);
    if z.Fits() {
      BlockIsCeiling(z);
    }
  }

  lemma BlockIsCeiling(z: Sizes)
    requires z.Fits()
    ensures z.Block() == z.TrueBlock()
  {
    var n := z.ktask + z.shareds;
    hide BitAnd, RoundUpToVal;
    Pow2Values();
    RoundUpMeaning(n, 3);
    CeilingIsLeast(n, WORD);
  }

  // Otherwise the block may even be smaller than its content.
  lemma HugeBlockIsCut()
    ensures var z := Sizes(U64 - 4, 0, 1);
      !z.Fits() && z.Block() == U64 - 8 && z.ArgsSize() == ARGS_HEADER
  {
    hide BitAnd, RoundUpToVal;
    Pow2Values();
    RoundUpMeaning(U64 - 4, 3);
  }

  // ---- words in bytes, least significant first ----

  function Bytes(v: nat, n: nat): (b: seq<Byte>)
    ensures |b| == n
  {
    if n == 0 then [] else [v % 256] + Bytes(v / 256, n - 1)
  }

  function Value(b: seq<Byte>): nat {
    if b == [] then 0 else b[0] + 256 * Value(b[1..])
  }

  lemma {:induction false} ValueOfBytes(v: nat, n: nat)
    requires v < Pow2(8 * n)
    ensures Value(Bytes(v, n)) == v
    decreases n
  {
    if n > 0 {
      Pow2Values();
      Pow2Add(8, 8 * (n - 1));
      ValueOfBytes(v / 256, n - 1);
      assert Bytes(v, n)[1..] == Bytes(v / 256, n - 1);
    }
  }

  function WordAt(m: seq<Byte>, o: nat): nat
    requires o + WORD <= |m|
  {
    Value(m[o..o + WORD])
  }

  function Stored(m: seq<Byte>, o: nat, v: Word): (m': seq<Byte>)
    requires o + WORD <= |m|
    ensures |m'| == |m|
  {
    m[..o] + Bytes(v, WORD) + m[o + WORD..]
  }

  // Writing a word changes that word and no word apart from it.
  lemma WordsOfStored(m: seq<Byte>, o: nat, v: Word)
    requires o + WORD <= |m|
    ensures WordAt(Stored(m, o, v), o) == v
    ensures forall i :: 0 <= i && i + WORD <= |m| && (i + WORD <= o || o + WORD <= i) ==>
      WordAt(Stored(m, o, v), i) == WordAt(m, i)
  {
    hide Value, Bytes;
    var m' := Stored(m, o, v);
    assert m'[o..o + WORD] == Bytes(v, WORD);
    Pow2Values();
    ValueOfBytes(v, WORD);
    forall i | 0 <= i && i + WORD <= |m| && (i + WORD <= o || o + WORD <= i)
      ensures WordAt(m', i) == WordAt(m, i)
    {
      assert m'[i..i + WORD] == m[i..i + WORD];
    }
  }

  // The region of one task, at address `args`.
  class TaskArgs {
    const args: Word
    const sizes: Sizes
    const mem: array<Byte>

    ghost predicate InPlace()
      reads this
    {
      sizes.Fits() && sizes.ktask >= KTASK_FIELDS && mem.Length == sizes.TrueSize()
      && args + mem.Length <= U64
    }

    // The word stored at an address.
    ghost function Load(address: int): nat
      requires args <= address && address + WORD <= args + mem.Length
      reads mem
    {
      WordAt(mem[..], address - args)
    }

    // ktask_from_task and its inverse
    function KtaskFromTask(): int {
      args + ARGS_HEADER
    }

    ghost function TaskFromKtask(ktask: int): nat
      requires args + ARGS_HEADER <= ktask && ktask <= args + mem.Length
      reads mem
    {
      Load(ktask - ARGS_HEADER)
    }

    function Kargs(): int {
      args + ARGS_HEADER + sizes.TrueBlock()
    }

    // What the allocation stores and no later write may disturb.
    ghost predicate Holds(task: Word, routine: Word, scatter: Word)
      reads this, mem
    {
      && InPlace()
      && TaskFromKtask(KtaskFromTask()) == task
      && Load(args + 8) == Kargs() && Load(args + 16) == sizes.nArgs && Load(args + 24) == scatter
      && Load(KtaskFromTask()) == (if sizes.shareds == 0 then 0 else KtaskFromTask() + sizes.ktask)
      && Load(KtaskFromTask() + 8) == routine
    }

    // Offsets the compiled code writes: privates after the fixed fields, shared
    // pointers, argument slots.
    predicate IsPrivate(o: int) {
      ARGS_HEADER + KTASK_FIELDS <= o < ARGS_HEADER + sizes.ktask
    }

    predicate IsShared(o: int) {
      ARGS_HEADER + sizes.ktask <= o < ARGS_HEADER + sizes.ktask + sizes.shareds
    }

    predicate IsSlot(o: int) {
      ARGS_HEADER + sizes.TrueBlock() <= o < ARGS_HEADER + sizes.TrueBlock() + WORD * sizes.Slots()
    }

    // No offset belongs to two parts; all are inside; the slots are words, start less
    // than a word after the shared pointers and end where the region ends.
    lemma PartsAreDisjoint(o: int)
      requires InPlace()
      ensures !(IsPrivate(o) && IsShared(o)) && !(IsPrivate(o) && IsSlot(o)) && !(IsShared(o) && IsSlot(o))
      ensures IsPrivate(o) || IsShared(o) || IsSlot(o) ==> ARGS_HEADER + KTASK_FIELDS <= o < mem.Length
      ensures sizes.TrueBlock() % WORD == 0
      ensures 0 <= sizes.TrueBlock() - (sizes.ktask + sizes.shareds) < WORD
      ensures IsSlot(o) <==> ARGS_HEADER + sizes.TrueBlock() <= o < mem.Length
    {
    }

    // Every slot the routine consumes, by the count in the header and the address in it, is
    // a word of the region that is in no other part; the region ends right after the last
    // one, or after one slot if there is none to consume.
    lemma SlotsAreThere(task: Word, routine: Word, scatter: Word, k: nat)
      requires Holds(task, routine, scatter)
      ensures Load(args + 16) == sizes.nArgs && Load(args + 8) == Kargs()
      ensures Kargs() + 8 * Max(sizes.nArgs, 1) == args + mem.Length
      ensures Kargs() >= args + 32 + sizes.ktask + sizes.shareds && (Kargs() - args) % 8 == 0
      ensures k < Load(args + 16) ==>
        && args + 32 + sizes.ktask + sizes.shareds <= Kargs() + 8 * k && Kargs() + 8 * k + 8 <= args + mem.Length
        && forall o :: Kargs() + 8 * k <= args + o < Kargs() + 8 * k + 8 ==>
             IsSlot(o) && !IsPrivate(o) && !IsShared(o)
    {
      SizeIsExact(sizes);
      forall o | Kargs() + 8 * k <= args + o < Kargs() + 8 * k + 8 && k < sizes.nArgs
        ensures IsSlot(o) && !IsPrivate(o) && !IsShared(o)
      {
        PartsAreDisjoint(o);
      }
    }

    method PutWord(o: nat, v: Word)
      requires o + WORD <= mem.Length
      modifies mem
      ensures mem[..] == Stored(old(mem[..]), o, v)
    {
      var b := Bytes(v, WORD);
      forall k | 0 <= k < WORD {
        mem[o + k] := b[k];
      }
    }

    // task_alloc, from the point where the runtime has returned the task
    constructor (task: Word, at: Word, z: Sizes, routine: Word, scatter: Word)
      requires z.Fits() && z.ktask >= KTASK_FIELDS && at + z.ArgsSize() <= U64
      requires scatter == 0 ==> z.nArgs == 1
      ensures args == at && sizes == z && fresh(mem)
      ensures Holds(task, routine, scatter)
      ensures scatter == 0 ==> Load(Kargs()) == KtaskFromTask()
      // where the source's structures have them
      ensures mem.Length == 32 + z.TrueBlock() + 8 * Max(z.nArgs, 1)
      ensures Load(at) == task && Load(at + 16) == z.nArgs && Load(at + 24) == scatter
      ensures Load(at + 8) == at + 32 + z.TrueBlock()
      ensures Load(at + 32) == (if z.shareds == 0 then 0 else at + 32 + z.ktask) && Load(at + 40) == routine
    {
      SizeIsExact(z);
      args, sizes := at, z;
      mem := new Byte[z.ArgsSize()](_ => 0);
      new;
      Fill(task, routine, scatter);
    }

    method Fill(task: Word, routine: Word, scatter: Word)
      requires InPlace() && (scatter == 0 ==> sizes.nArgs == 1)
      modifies mem
      ensures Holds(task, routine, scatter)
      ensures scatter == 0 ==> Load(Kargs()) == KtaskFromTask()
    {
      hide RoundUpToVal, WordAt, Stored;
      SizeIsExact(sizes);
      PartsAreDisjoint(0);
      var ktask := args + ARGS_HEADER;
      var shareds := if sizes.shareds == 0 then 0 else ktask + sizes.ktask;
      WordsOfStored(mem[..], 0, task);
      PutWord(0, task);
      WordsOfStored(mem[..], ARGS_HEADER, shareds);
      PutWord(ARGS_HEADER, shareds);
      WordsOfStored(mem[..], ARGS_HEADER + 8, routine);
      PutWord(ARGS_HEADER + 8, routine);
      WordsOfStored(mem[..], 8, ktask + sizes.Block());
      PutWord(8, ktask + sizes.Block());
      WordsOfStored(mem[..], 16, sizes.nArgs);
      PutWord(16, sizes.nArgs);
      WordsOfStored(mem[..], 24, scatter);
      PutWord(24, scatter);
      if scatter == 0 {
        WordsOfStored(mem[..], ARGS_HEADER + sizes.Block(), ktask);
        PutWord(ARGS_HEADER + sizes.Block(), ktask);
      }
    }

    // Any byte the compiled code may write leaves everything the runtime reads alone.
    method Write(o: nat, v: Byte, ghost task: Word, ghost routine: Word, ghost scatter: Word)
      requires Holds(task, routine, scatter) && (IsPrivate(o) || IsShared(o) || IsSlot(o))
      modifies mem
      ensures Holds(task, routine, scatter)
      ensures mem[..] == old(mem[..])[o := v]
    {
      PartsAreDisjoint(o);
      mem[o] := v;
    }
  }
}
