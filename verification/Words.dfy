// Machine words: 64-bit register contents as integers, with the wrap-around
// of the hardware written out.
module Words {
  const U32: int := 0x1_0000_0000
  const U64: int := 0x1_0000_0000_0000_0000
  const SIGN64: int := 0x8000_0000_0000_0000

  type Word = x: int | 0 <= x < 0x1_0000_0000_0000_0000

  function Add64(a: Word, b: Word): Word {
    if a + b < U64 then a + b else a + b - U64
  }

  function Sub64(a: Word, b: Word): Word {
    if b <= a then a - b else a - b + U64
  }

  // a << 3, with the bits shifted out lost
  function Shl3(a: Word): Word {
    if 8 * a < U64 then 8 * a else 8 * a % U64
  }

  function Low32(a: Word): Word {
    if a < U32 then a else a % U32
  }

  // The sign flag after an instruction whose 64-bit result is `a`.
  predicate Negative(a: Word) {
    a >= SIGN64
  }

  function Max(a: int, b: int): int {
    if a < b then b else a
  }

  // Address of the i-th 64-bit word at or above `base`.
  function Slot(base: int, i: int): int {
    base + 8 * i
  }

  // Memory by words: an address outside the map is unmapped.
  type WordMemory = map<int, Word>

  // p[0], ..., p[argc-1]
  function Argv(m: WordMemory, p: Word, argc: nat): seq<Word>
    requires forall i :: 0 <= i < argc ==> Slot(p, i) in m
  {
    seq(argc, i requires 0 <= i < argc => m[Slot(p, i)])
  }

  // Memory m' agrees with m outside the addresses [lo, hi).
  ghost predicate SameOutside<V>(m: map<int, V>, m': map<int, V>, lo: int, hi: int) {
    forall a :: !(lo <= a < hi) ==> (a in m <==> a in m') && (a in m ==> m'[a] == m[a])
  }

  // What every backend must hand to the microtask: &gtid, &tid, p[0], ..., p[argc-1].
  function MicrotaskArgs(gtid: Word, tid: Word, argv: seq<Word>): seq<Word> {
    [gtid, tid] + argv
  }

  // The operations are those of 64-bit registers: results modulo 2^64, the low half, the
  // top bit.
  lemma RegisterArithmetic(a: Word, b: Word)
    ensures Add64(a, b) == (a + b) % 0x1_0000_0000_0000_0000
    ensures Sub64(a, b) == (a - b) % 0x1_0000_0000_0000_0000
    ensures Shl3(a) == (a * 8) % 0x1_0000_0000_0000_0000
    ensures Low32(a) == a % 0x1_0000_0000
    ensures Negative(a) <==> a / 0x8000_0000_0000_0000 == 1
    ensures Max(a, b) >= a && Max(a, b) >= b && (Max(a, b) == a || Max(a, b) == b)
  {
  }

  // The arguments in order: the two ids, then the words at p, p + 8, ...
  lemma ArgumentsInOrder(gtid: Word, tid: Word, m: WordMemory, p: Word, argc: nat)
    requires forall i :: 0 <= i < argc ==> Slot(p, i) in m
    ensures var args := MicrotaskArgs(gtid, tid, Argv(m, p, argc));
      && |args| == argc + 2 && args[0] == gtid && args[1] == tid
      && forall i :: 0 <= i < argc ==> p + 8 * i in m && args[i + 2] == m[p + 8 * i]
  {
    forall i | 0 <= i < argc ensures p + 8 * i in m && Argv(m, p, argc)[i] == m[p + 8 * i] {
      assert Slot(p, i) == p + 8 * i;
    }
  }
}
