// The AArch64 trampoline __kmp_invoke_microtask, run instruction by instruction.
module AArch64Microtask {
  import opened Words

  // Memory holds one 32-bit cell per 4-byte aligned address, since the ids are
  // spilled as 32-bit words; a 64-bit access covers two cells, low half first.
  type Cell = x: int | 0 <= x < 0x1_0000_0000
  type Memory = map<int, Cell>

  datatype Regs = Regs(
    x0: Word, x1: Word, x2: Word, x3: Word, x4: Word, x5: Word, x6: Word, x7: Word,
    x8: Word, x29: Word, x30: Word, sp: Word)

  datatype Outcome =
    | Fault
    | Returned(call: Regs, callMem: Memory, exit: Regs, pc: Word)

  predicate Mapped(m: Memory, a: int) {
    a in m && a + 4 in m
  }

  function Load(m: Memory, a: int): Word
    requires Mapped(m, a)
  {
    m[a] + U32 * m[a + 4]
  }

  function Store(m: Memory, a: int, v: Word): (r: Memory)
    ensures Mapped(r, a) && Load(r, a) == v
    ensures SameOutside(m, r, a, a + 8)
  {
    m[a := v % U32][a + 4 := v / U32]
  }

  // Bytes reserved below the frame record for the two ids and parameters 7..argc.
  function Reserved(argc: nat): nat {
    16 * (1 + argc / 2)
  }

  predicate Readable(m: Memory, p: Word, argc: nat) {
    forall i :: 0 <= i < argc ==> Mapped(m, Slot(p, i))
  }

  // p[0], ..., p[argc-1], each from its two cells
  function Loaded(m: Memory, p: Word, argc: nat): seq<Word>
    requires Readable(m, p, argc)
  {
    seq(argc, i requires 0 <= i < argc => Load(m, Slot(p, i)))
  }

  // Argument number k of a call under the AAPCS64 parameter passing rules: x0 to
  // x7, then the stack from sp upward.
  predicate PassedAs(r: Regs, m: Memory, k: nat, v: Word) {
    if k == 0 then r.x0 == v
    else if k == 1 then r.x1 == v
    else if k == 2 then r.x2 == v
    else if k == 3 then r.x3 == v
    else if k == 4 then r.x4 == v
    else if k == 5 then r.x5 == v
    else if k == 6 then r.x6 == v
    else if k == 7 then r.x7 == v
    else Mapped(m, Slot(r.sp, k - 8)) && Load(m, Slot(r.sp, k - 8)) == v
  }

  predicate Receives(r: Regs, m: Memory, args: seq<Word>) {
    forall k :: 0 <= k < |args| ==> PassedAs(r, m, k, args[k])
  }

  // What the procedure call standard promises of any function the trampoline calls.
  ghost predicate Abides(callee: (Regs, Memory) -> (Regs, Memory), r: Regs, m: Memory) {
    var (r', m') := callee(r, m);
    && r'.x29 == r.x29 && r'.sp == r.sp
    && forall a :: r.x29 <= a < r.x29 + 16 && a in m ==> a in m' && m'[a] == m[a]
  }

  function Argc(r: Regs): Word {
    Low32(r.x3)
  }

  // Entry conditions of the procedure call standard; p_argv does not overlap the
  // free stack. The upper halves of w1, w2 and w3 may hold anything.
  predicate Entry(r: Regs, m: Memory) {
    && r.sp % 16 == 0 && r.x4 % 8 == 0
    && Argc(r) < 0x8000_0000
    && 16 + Reserved(Argc(r)) <= r.sp
    && Slot(r.x4, Argc(r)) <= U64
    && (Slot(r.x4, Argc(r)) <= r.sp - 16 - Reserved(Argc(r)) || r.sp <= r.x4)
  }

  // Lines 125-141: frame record, reserved area, spilled ids.
  method EnterFrame(entry: Regs, m0: Memory)
    returns (x0: Word, x1: Word, x11: Word, x29: Word, sp: Word, mem: Memory)
    requires Entry(entry, m0)
    ensures x29 == entry.sp - 16 && x0 == x29 - 4 && x1 == x29 - 8
    ensures x11 == sp == x29 - Reserved(Argc(entry)) && sp % 16 == 0
    ensures SameOutside(m0, mem, x29 - 8, entry.sp)
    ensures Mapped(mem, x29) && Load(mem, x29) == entry.x29
    ensures Mapped(mem, x29 + 8) && Load(mem, x29 + 8) == entry.x30
    ensures x0 in mem && mem[x0] == Low32(entry.x1)
    ensures x1 in mem && mem[x1] == Low32(entry.x2)
  {
    sp, mem := entry.sp, m0;
    sp := Sub64(sp, 16);                                    // stp  x29, x30, [sp, #-16]!
    mem := Store(Store(mem, sp, entry.x29), sp + 8, entry.x30);
    x29 := sp;                                              // mov  x29, sp
    var w9: Word := 1;                                      // orr  w9, wzr, #1
    w9 := Low32(w9 + Low32(entry.x3) / 2);                  // add  w9, w9, w3, lsr #1
    sp := Sub64(sp, 16 * w9);                               // sub  sp, sp, w9, uxtw #4
    x11 := sp;                                              // mov  x11, sp
    mem := mem[x29 - 4 := Low32(entry.x1)];                 // str  w1, [x29, #-__gtid]
    mem := mem[x29 - 8 := Low32(entry.x2)];                 // str  w2, [x29, #-__tid]
    x0 := Sub64(x29, 4);                                    // sub  x0, x29, #__gtid
    x1 := Sub64(x29, 8);                                    // sub  x1, x29, #__tid
  }

  // Lines 144-165: the first six entries go in x2..x7; the walk stops as soon as
  // the counter reaches zero.
  method RegisterParms(entry: Regs, m: Memory)
    returns (ok: bool, more: bool, r: Regs, w9: Word, x10: Word)
    requires Argc(entry) < 0x8000_0000 && Slot(entry.x4, Argc(entry)) <= U64
    ensures ok <==> forall i :: 0 <= i < Argc(entry) && i < 6 ==> Mapped(m, Slot(entry.x4, i))
    ensures ok ==>
      && (Argc(entry) >= 1 ==> r.x2 == Load(m, Slot(entry.x4, 0)))
      && (Argc(entry) >= 2 ==> r.x3 == Load(m, Slot(entry.x4, 1)))
      && (Argc(entry) >= 3 ==> r.x4 == Load(m, Slot(entry.x4, 2)))
      && (Argc(entry) >= 4 ==> r.x5 == Load(m, Slot(entry.x4, 3)))
      && (Argc(entry) >= 5 ==> r.x6 == Load(m, Slot(entry.x4, 4)))
      && (Argc(entry) >= 6 ==> r.x7 == Load(m, Slot(entry.x4, 5)))
    ensures ok ==> (more <==> Argc(entry) >= 6)
    ensures ok && more ==> w9 == Argc(entry) - 5 && x10 == Slot(entry.x4, 5)
  {
    ok, more, r, w9, x10 := true, false, entry, Low32(entry.x3), entry.x4;
    if w9 == 0 { return; }                                  // cbz  w9
    assert x10 == Slot(entry.x4, 0);
    if !Mapped(m, x10) { ok := false; return; }
    r := r.(x2 := Load(m, x10));                            // ldr  x2, [x10]
    w9 := w9 - 1; if w9 == 0 { return; }                    // sub  w9, w9, #1; cbz  w9
    x10 := Add64(x10, 8); assert x10 == Slot(entry.x4, 1);
    if !Mapped(m, x10) { ok := false; return; }
    r := r.(x3 := Load(m, x10));                            // ldr  x3, [x10, #8]!
    w9 := w9 - 1; if w9 == 0 { return; }
    x10 := Add64(x10, 8); assert x10 == Slot(entry.x4, 2);
    if !Mapped(m, x10) { ok := false; return; }
    r := r.(x4 := Load(m, x10));                            // ldr  x4, [x10, #8]!
    w9 := w9 - 1; if w9 == 0 { return; }
    x10 := Add64(x10, 8); assert x10 == Slot(entry.x4, 3);
    if !Mapped(m, x10) { ok := false; return; }
    r := r.(x5 := Load(m, x10));                            // ldr  x5, [x10, #8]!
    w9 := w9 - 1; if w9 == 0 { return; }
    x10 := Add64(x10, 8); assert x10 == Slot(entry.x4, 4);
    if !Mapped(m, x10) { ok := false; return; }
    r := r.(x6 := Load(m, x10));                            // ldr  x6, [x10, #8]!
    w9 := w9 - 1; if w9 == 0 { return; }
    x10 := Add64(x10, 8); assert x10 == Slot(entry.x4, 5);
    if !Mapped(m, x10) { ok := false; return; }
    r := r.(x7 := Load(m, x10));                            // ldr  x7, [x10, #8]!
    more := true;
  }

  // Lines 168-173: the remaining entries go to the reserved area, upward from sp.
  method StackParms(argc: nat, p: Word, w9: Word, x10: Word, sp: Word, m0: Memory)
    returns (ok: bool, mem: Memory)
    requires 6 <= argc < 0x8000_0000 && Slot(p, argc) <= U64
    requires w9 == argc - 5 && x10 == Slot(p, 5)
    requires Slot(sp, argc - 6) < U64
    requires Slot(p, argc) <= sp || Slot(sp, argc - 6) <= p
    ensures ok <==> forall i :: 6 <= i < argc ==> Mapped(m0, Slot(p, i))
    ensures ok ==> SameOutside(m0, mem, sp, Slot(sp, argc - 6))
    ensures ok ==> forall i :: 0 <= i < argc - 6 ==>
      Mapped(mem, Slot(sp, i)) && Mapped(m0, Slot(p, i + 6))
      && Load(mem, Slot(sp, i)) == Load(m0, Slot(p, i + 6))
  {
    var n, src, x11 := w9, x10, sp;
    mem := m0;
    ghost var done := 0;
    while true
      invariant 0 <= done <= argc - 6 && n == argc - 5 - done
      invariant src == Slot(p, 5 + done) && x11 == Slot(sp, done)
      invariant forall i :: 6 <= i < 6 + done ==> Mapped(m0, Slot(p, i))
      invariant forall i :: 0 <= i < done ==>
        Mapped(mem, Slot(sp, i)) && Mapped(m0, Slot(p, i + 6))
        && Load(mem, Slot(sp, i)) == Load(m0, Slot(p, i + 6))
      invariant SameOutside(m0, mem, sp, Slot(sp, done))
      decreases n
    {
      n := n - 1;                                           // sub  w9, w9, #1
      if n == 0 { break; }                                  // cbz  w9
      src := Add64(src, 8);                                 // ldr  x12, [x10, #8]!
      assert src == Slot(p, 6 + done);
      if !Mapped(mem, src) { ok := false; return; }
      var x12 := Load(mem, src);
      mem := Store(mem, x11, x12);                          // str  x12, [x11], #8
      x11 := Add64(x11, 8);
      done := done + 1;
    }
    ok := true;
  }

  // Lines 175-180: call the microtask, then leave the frame.
  method CallAndReturn(call: Regs, mem: Memory, callee: (Regs, Memory) -> (Regs, Memory))
    returns (exit: Regs, pc: Word)
    requires Abides(callee, call, mem)
    requires call.x29 < U64 - 16 && Mapped(mem, call.x29) && Mapped(mem, call.x29 + 8)
    ensures exit.x0 == 1 && exit.sp == call.x29 + 16
    ensures exit.x29 == Load(mem, call.x29) && exit.x30 == pc == Load(mem, call.x29 + 8)
  {
    var (after, m) := callee(call, mem);                    // blr  x8
    var sp := after.x29;                                    // orr  w0, wzr, #1; mov  sp, x29
    exit := after.(x0 := 1, x29 := Load(m, sp), x30 := Load(m, sp + 8), sp := Add64(sp, 16));
    pc := exit.x30;                                         // ldp  x29, x30, [sp], #16; ret
  }

  // Registers and stack words together hold the microtask's arguments.
  lemma ArgumentsInPlace(entry: Regs, m0: Memory, call: Regs, m: Memory)
    requires 24 <= entry.sp && Readable(m0, entry.x4, Argc(entry))
    requires call.x0 == entry.sp - 20 && call.x1 == entry.sp - 24
    requires Argc(entry) >= 1 ==> call.x2 == Load(m0, Slot(entry.x4, 0))
    requires Argc(entry) >= 2 ==> call.x3 == Load(m0, Slot(entry.x4, 1))
    requires Argc(entry) >= 3 ==> call.x4 == Load(m0, Slot(entry.x4, 2))
    requires Argc(entry) >= 4 ==> call.x5 == Load(m0, Slot(entry.x4, 3))
    requires Argc(entry) >= 5 ==> call.x6 == Load(m0, Slot(entry.x4, 4))
    requires Argc(entry) >= 6 ==> call.x7 == Load(m0, Slot(entry.x4, 5))
    requires forall i :: 0 <= i < Argc(entry) - 6 ==>
      Mapped(m, Slot(call.sp, i)) && Load(m, Slot(call.sp, i)) == Load(m0, Slot(entry.x4, i + 6))
    ensures Receives(call, m, MicrotaskArgs(entry.sp - 20, entry.sp - 24, Loaded(m0, entry.x4, Argc(entry))))
  {
    var args := MicrotaskArgs(entry.sp - 20, entry.sp - 24, Loaded(m0, entry.x4, Argc(entry)));
    forall k | 0 <= k < |args| ensures PassedAs(call, m, k, args[k]) {
      assert k >= 2 ==> args[k] == Load(m0, Slot(entry.x4, k - 2));
      if k >= 8 {
        assert args[k] == Load(m0, Slot(entry.x4, (k - 8) + 6));
      }
    }
  }

  // The argument words are those at p, p + 8, ..., low half first.
  lemma LoadedInOrder(m: Memory, p: Word, argc: nat)
    requires Readable(m, p, argc)
    ensures |Loaded(m, p, argc)| == argc
    ensures forall i :: 0 <= i < argc ==> WordAt(m, p + 8 * i, Loaded(m, p, argc)[i])
  {
    forall i | 0 <= i < argc ensures WordAt(m, p + 8 * i, Loaded(m, p, argc)[i]) {
      assert Mapped(m, Slot(p, i)) && Slot(p, i) == p + 8 * i;
    }
  }

  predicate WordAt(m: Memory, a: int, v: int) {
    a in m && a + 4 in m && m[a] == v % 0x1_0000_0000 && m[a + 4] == v / 0x1_0000_0000
  }

  // Stack writes leave every p_argv slot as it was.
  lemma ArgvUntouched(entry: Regs, m0: Memory, m: Memory)
    requires Entry(entry, m0)
    requires SameOutside(m0, m, entry.sp - 16 - Reserved(Argc(entry)), entry.sp)
    ensures forall i :: 0 <= i < Argc(entry) ==>
      (Mapped(m0, Slot(entry.x4, i)) <==> Mapped(m, Slot(entry.x4, i)))
      && (Mapped(m0, Slot(entry.x4, i)) ==> Load(m, Slot(entry.x4, i)) == Load(m0, Slot(entry.x4, i)))
  {
    forall i | 0 <= i < Argc(entry)
      ensures (Mapped(m0, Slot(entry.x4, i)) <==> Mapped(m, Slot(entry.x4, i)))
      ensures Mapped(m0, Slot(entry.x4, i)) ==> Load(m, Slot(entry.x4, i)) == Load(m0, Slot(entry.x4, i))
    {
      var a := Slot(entry.x4, i);
      var lo := entry.sp - 16 - Reserved(Argc(entry));
      assert a + 8 <= Slot(entry.x4, Argc(entry));
      assert !(lo <= a < entry.sp) && !(lo <= a + 4 < entry.sp);
    }
  }

  method InvokeMicrotask(entry: Regs, m0: Memory, callee: (Regs, Memory) -> (Regs, Memory))
    returns (out: Outcome)
    requires Entry(entry, m0)
    requires forall r, m :: Abides(callee, r, m)
    // the trampoline faults exactly when one of p[0..argc) is unmapped
    ensures out.Fault? <==> !Readable(m0, entry.x4, Argc(entry))
    // otherwise it calls f(&gtid, &tid, p[0], ..., p[argc-1]) on an aligned stack
    ensures out.Returned? ==>
      && out.call.x8 == entry.x0 && out.call.sp % 16 == 0
      && Receives(out.call, out.callMem,
                  MicrotaskArgs(entry.sp - 20, entry.sp - 24, Loaded(m0, entry.x4, Argc(entry))))
    // with the two ids in memory behind the first two pointers
    ensures out.Returned? ==>
      && entry.sp - 20 in out.callMem && out.callMem[entry.sp - 20] == Low32(entry.x1)
      && entry.sp - 24 in out.callMem && out.callMem[entry.sp - 24] == Low32(entry.x2)
    // right below the frame record and 16 bytes for every two arguments, and 16 more
    ensures out.Returned? ==>
      && out.call.x0 == entry.sp - 20 && out.call.x1 == entry.sp - 24
      && out.call.sp == entry.sp - 16 - 16 * (1 + Argc(entry) / 2)
    // and nothing of the caller's memory overwritten
    ensures out.Returned? ==> SameOutside(m0, out.callMem, out.call.sp, entry.sp)
    // the caller gets 1, its frame pointer, its link register and its stack pointer back
    ensures out.Returned? ==>
      && out.exit.x0 == 1 && out.exit.x29 == entry.x29 && out.exit.x30 == entry.x30
      && out.exit.sp == entry.sp && out.pc == entry.x30
  {
    hide Receives, PassedAs, Abides, MicrotaskArgs, Loaded;
    var argc := Argc(entry);
    var x0, x1, x11, x29, sp, mem := EnterFrame(entry, m0);
    ghost var framed := mem;
    ArgvUntouched(entry, m0, framed);
    var ok, more, r, w9, x10 := RegisterParms(entry, mem);
    if !ok { return Fault; }
    if more {
      var stored;
      stored, mem := StackParms(argc, entry.x4, w9, x10, x11, mem);
      if !stored { return Fault; }
    }
    assert SameOutside(framed, mem, sp, x29 - 8);
    var call := r.(x0 := x0, x1 := x1, x8 := entry.x0, x29 := x29, sp := sp);
    ArgumentsInPlace(entry, m0, call, mem);
    assert Load(mem, x29) == Load(framed, x29) && Load(mem, x29 + 8) == Load(framed, x29 + 8);
    var exit, pc := CallAndReturn(call, mem, callee);
    out := Returned(call, mem, exit, pc);
  }
}
