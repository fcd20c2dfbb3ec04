// The x86-64 trampoline __kmp_invoke_microtask, run instruction by instruction
// over a register file and a word-addressed memory.
module X86Microtask {
  import opened Words

  // Loading from an unmapped address faults.
  type Memory = WordMemory

  datatype Regs = Regs(
    rax: Word, rbx: Word, rcx: Word, rdx: Word, rsi: Word, rdi: Word,
    r8: Word, r9: Word, r11: Word, rbp: Word, rsp: Word)

  datatype Outcome =
    | Fault
    | Returned(call: Regs, callMem: Memory, exit: Regs, rip: Word)

  // Stack bytes the trampoline may touch: four saves, the argc-4 arguments that
  // do not fit in registers, up to 127 bytes of alignment, the return address.
  function StackBytes(argc: nat): nat {
    32 + 8 * Max(0, argc - 4) + 128 + 8
  }

  // The trampoline reads p_argv[0..4) whatever argc is: its register loads are
  // conditional moves, and a conditional move reads its memory operand even when
  // it does not move.
  predicate Readable(m: Memory, p: Word, argc: nat) {
    forall i :: 0 <= i < Max(argc, 4) ==> Slot(p, i) in m
  }

  // Integer argument number k of a call, section 3.2.3 of the System V AMD64
  // psABI: six registers, then the stack from %rsp upward.
  predicate PassedAs(r: Regs, m: Memory, k: nat, v: Word) {
    if k == 0 then r.rdi == v
    else if k == 1 then r.rsi == v
    else if k == 2 then r.rdx == v
    else if k == 3 then r.rcx == v
    else if k == 4 then r.r8 == v
    else if k == 5 then r.r9 == v
    else Slot(r.rsp, k - 6) in m && m[Slot(r.rsp, k - 6)] == v
  }

  predicate Receives(r: Regs, m: Memory, args: seq<Word>) {
    forall k :: 0 <= k < |args| ==> PassedAs(r, m, k, args[k])
  }

  // What the psABI promises of any function the trampoline calls: the
  // callee-saved registers come back, and so does the caller's frame.
  ghost predicate Abides(callee: (Regs, Memory) -> (Regs, Memory), r: Regs, m: Memory) {
    var (r', m') := callee(r, m);
    && r'.rbx == r.rbx && r'.rbp == r.rbp && r'.rsp == r.rsp
    && forall a :: r.rbp - 8 <= a <= r.rbp + 8 && a in m ==> a in m' && m'[a] == m[a]
  }

  // Entry conditions of the C calling convention. %rcx carries argc zero-extended,
  // as a 32-bit load leaves it; p_argv does not overlap the free stack.
  predicate Entry(r: Regs, m: Memory) {
    && r.rsp % 8 == 0 && r.r8 % 8 == 0
    && r.rcx < 0x8000_0000
    && StackBytes(r.rcx) <= r.rsp <= U64 - 16
    && r.rsp in m
    && Slot(r.r8, Max(r.rcx, 4)) <= U64
    && (Slot(r.r8, Max(r.rcx, 4)) <= r.rsp - StackBytes(r.rcx) || r.rsp <= r.r8)
  }

  // Stack writes leave every p_argv slot the trampoline reads as it was.
  lemma ArgvUntouched(entry: Regs, m0: Memory, m: Memory)
    requires Entry(entry, m0)
    requires SameOutside(m0, m, entry.rsp - StackBytes(entry.rcx), entry.rsp)
    ensures forall i :: 0 <= i < Max(entry.rcx, 4) ==>
      (Slot(entry.r8, i) in m0 <==> Slot(entry.r8, i) in m)
      && (Slot(entry.r8, i) in m0 ==> m[Slot(entry.r8, i)] == m0[Slot(entry.r8, i)])
  {
  }

  // Registers and stack words together hold the microtask's arguments.
  lemma ArgumentsInPlace(entry: Regs, m0: Memory, call: Regs, m: Memory)
    requires Readable(m0, entry.r8, entry.rcx) && 32 <= entry.rsp
    requires call.rdi == entry.rsp - 24 && call.rsi == entry.rsp - 32
    requires entry.rcx >= 1 ==> call.rdx == m0[Slot(entry.r8, 0)]
    requires entry.rcx >= 2 ==> call.rcx == m0[Slot(entry.r8, 1)]
    requires entry.rcx >= 3 ==> call.r8 == m0[Slot(entry.r8, 2)]
    requires entry.rcx >= 4 ==> call.r9 == m0[Slot(entry.r8, 3)]
    requires forall i :: 0 <= i < entry.rcx - 4 ==>
      Slot(call.rsp, i) in m && m[Slot(call.rsp, i)] == m0[Slot(entry.r8, i + 4)]
    ensures Receives(call, m, MicrotaskArgs(entry.rsp - 24, entry.rsp - 32, Argv(m0, entry.r8, entry.rcx)))
  {
    var args := MicrotaskArgs(entry.rsp - 24, entry.rsp - 32, Argv(m0, entry.r8, entry.rcx));
    forall k | 0 <= k < |args| ensures PassedAs(call, m, k, args[k]) {
      assert k >= 2 ==> args[k] == m0[Slot(entry.r8, k - 2)];
      if k >= 6 {
        assert args[k] == m0[Slot(entry.r8, (k - 6) + 4)];
      }
    }
  }

  // Lines 1441-1475: save the frame, then lower %rsp so that the argc-4 pushes to
  // come end on a 128-byte boundary.
  method SaveAndAlign(entry: Regs, m0: Memory) returns (rsi: Word, rbp: Word, rsp: Word, mem: Memory)
    requires Entry(entry, m0)
    ensures rbp == entry.rsp - 8
    ensures rsi == Max(0, entry.rcx - 4)
    ensures entry.rsp - StackBytes(entry.rcx) + 8 <= rsp - 8 * rsi && rsp <= entry.rsp - 32
    ensures rsp > entry.rsp - 32 - 128
    ensures (rsp - 8 * rsi) % 128 == 0
    ensures mem == m0[entry.rsp - 8 := entry.rbp][entry.rsp - 16 := entry.rbx]
                     [entry.rsp - 24 := entry.rsi][entry.rsp - 32 := entry.rdx]
  {
    rsp, mem := entry.rsp, m0;
    rsp := Sub64(rsp, 8); mem := mem[rsp := entry.rbp];     // pushq %rbp
    rbp := rsp;                                             // movq  %rsp,%rbp
    rsp := Sub64(rsp, 8); mem := mem[rsp := entry.rbx];     // pushq %rbx
    rsp := Sub64(rsp, 8); mem := mem[rsp := entry.rsi];     // pushq %rsi
    rsp := Sub64(rsp, 8); mem := mem[rsp := entry.rdx];     // pushq %rdx
    var rax := entry.rcx;                                   // movq  %rcx,%rax
    var rbx := 0;                                           // movq  $0,%rbx
    rax := Sub64(rax, 4);                                   // subq  $4,%rax
    if Negative(rax) { rax := rbx; }                        // cmovsq %rbx,%rax
    rsi := rax;                                             // movq  %rax,%rsi
    rax := Shl3(rax);                                       // shlq  $3,%rax
    var rdx := rsp;                                         // movq  %rsp,%rdx
    rdx := Sub64(rdx, rax);                                 // subq  %rax,%rdx
    rax := rdx;                                             // movq  %rdx,%rax
    rax := rax - rax % 128;                                 // andq  $0xFFFFFFFFFFFFFF80,%rax
    rdx := Sub64(rdx, rax);                                 // subq  %rax,%rdx
    rsp := Sub64(rsp, rdx);                                 // subq  %rdx,%rsp
  }

  // Lines 1478-1500: push p_argv[argc-1] down to p_argv[4].
  method PushParms(argc: nat, count: Word, p: Word, rsp0: Word, m0: Memory)
    returns (ok: bool, rdx: Word, rcx: Word, rsp: Word, mem: Memory)
    requires count == argc - 4 && 0 < count < 0x8000_0000
    requires Slot(p, argc) <= U64 && 8 * count <= rsp0
    requires Slot(p, argc) <= rsp0 - 8 * count || rsp0 <= p
    ensures ok <==> forall i :: 4 <= i < argc ==> Slot(p, i) in m0
    ensures ok ==> rsp == rsp0 - 8 * count && SameOutside(m0, mem, rsp, rsp0)
    ensures ok ==> forall i :: 0 <= i < count ==> Slot(rsp, i) in mem && Slot(p, i + 4) in m0
                                                  && mem[Slot(rsp, i)] == m0[Slot(p, i + 4)]
  {
    rcx, rsp, mem := argc, rsp0, m0;
    rcx := Shl3(rcx);                                       // shlq  $3,%rcx
    rdx := p;                                               // movq  %r8,%rdx
    rdx := Add64(rdx, rcx);                                 // addq  %rcx,%rdx
    rcx := count;                                           // movq  %rsi,%rcx
    ghost var base := rsp0 - 8 * count;
    while true
      invariant 1 <= rcx <= count
      invariant rdx == (if Slot(p, rcx + 4) < U64 then Slot(p, rcx + 4) else 0) && rsp == Slot(base, rcx)
      invariant forall i :: rcx + 4 <= i < argc ==> Slot(p, i) in m0
      invariant forall i :: rcx <= i < count ==> Slot(base, i) in mem && Slot(p, i + 4) in m0
                                                 && mem[Slot(base, i)] == m0[Slot(p, i + 4)]
      invariant SameOutside(m0, mem, rsp, rsp0)
      decreases rcx
    {
      rdx := Sub64(rdx, 8);                                 // subq  $8,%rdx
      assert rdx == Slot(p, rcx + 3);
      if rdx !in mem { ok := false; return; }
      var rsi := mem[rdx];                                  // movq  (%rdx),%rsi
      rsp := Sub64(rsp, 8); mem := mem[rsp := rsi];         // pushq %rsi
      rcx := Low32(Sub64(rcx, 1));                          // subl  $1,%ecx
      if rcx == 0 { break; }                                // jecxz
    }
    ok := true;
  }

  // Lines 1502-1551: put the first six parameters in registers.
  method PassParms(entry: Regs, rdx0: Word, rcx0: Word, rbp: Word, rsp: Word, mem: Memory)
    returns (ok: bool, call: Regs)
    requires entry.rcx < 0x8000_0000 && Slot(entry.r8, 4) <= U64 && 24 <= rbp
    ensures ok <==> forall i :: 0 <= i < 4 ==> Slot(entry.r8, i) in mem
    ensures ok ==>
      && call.rbx == entry.rdi && call.rdi == rbp - 16 && call.rsi == rbp - 24
      && (entry.rcx >= 1 ==> call.rdx == mem[Slot(entry.r8, 0)])
      && (entry.rcx >= 2 ==> call.rcx == mem[Slot(entry.r8, 1)])
      && (entry.rcx >= 3 ==> call.r8 == mem[Slot(entry.r8, 2)])
      && (entry.rcx >= 4 ==> call.r9 == mem[Slot(entry.r8, 3)])
      && call.rbp == rbp && call.rsp == rsp
  {
    var rdx, rcx, r8, r9 := rdx0, rcx0, entry.r8, entry.r9;
    var rax := entry.rcx;                                   // movq  %rcx,%rax
    var rbx := entry.rdi;                                   // movq  %rdi,%rbx
    var rdi := Sub64(rbp, 16);                              // leaq  __gtid(%rbp),%rdi
    var rsi := Sub64(rbp, 24);                              // leaq  __tid(%rbp),%rsi
    var r11 := r8;                                          // movq  %r8,%r11
    ok, call := false, entry;
    if Slot(r11, 3) !in mem { return; }
    if !Negative(Sub64(rax, 4)) { r9 := mem[Slot(r11, 3)]; }   // cmovnsq 24(%r11),%r9
    if Slot(r11, 2) !in mem { return; }
    if !Negative(Sub64(rax, 3)) { r8 := mem[Slot(r11, 2)]; }   // cmovnsq 16(%r11),%r8
    if Slot(r11, 1) !in mem { return; }
    if !Negative(Sub64(rax, 2)) { rcx := mem[Slot(r11, 1)]; }  // cmovnsq 8(%r11),%rcx
    if Slot(r11, 0) !in mem { return; }
    if !Negative(Sub64(rax, 1)) { rdx := mem[Slot(r11, 0)]; }  // cmovnsq (%r11),%rdx
    ok, call := true, Regs(rax, rbx, rcx, rdx, rsi, rdi, r8, r9, r11, rbp, rsp);
  }

  // Lines 1553-1559: call the microtask, then leave the frame.
  method CallAndReturn(call: Regs, mem: Memory, callee: (Regs, Memory) -> (Regs, Memory))
    returns (exit: Regs, rip: Word)
    requires Abides(callee, call, mem)
    requires 8 <= call.rbp <= U64 - 24
    requires call.rbp - 8 in mem && call.rbp + 0 in mem && call.rbp + 8 in mem
    ensures exit.rax == 1 && exit.rbx == mem[call.rbp - 8] && exit.rbp == mem[call.rbp]
    ensures exit.rsp == call.rbp + 16 && rip == mem[call.rbp + 8]
  {
    var (after, m) := callee(call, mem);                    // call  *%rbx
    var rax, rbp := 1, after.rbp;                           // movq  $1,%rax
    var rbx := m[rbp - 8];                                  // movq  -8(%rbp),%rbx
    var rsp := rbp;                                         // movq  %rbp,%rsp
    rbp := m[rsp]; rsp := Add64(rsp, 8);                    // popq  %rbp
    rip := m[rsp]; rsp := Add64(rsp, 8);                    // ret
    exit := after.(rax := rax, rbx := rbx, rbp := rbp, rsp := rsp);
  }

  // The four words pushed first.
  predicate Saved(entry: Regs, mem: Memory) {
    && entry.rsp - 8 in mem && mem[entry.rsp - 8] == entry.rbp
    && entry.rsp - 16 in mem && mem[entry.rsp - 16] == entry.rbx
    && entry.rsp - 24 in mem && mem[entry.rsp - 24] == entry.rsi
    && entry.rsp - 32 in mem && mem[entry.rsp - 32] == entry.rdx
  }

  lemma SameAsBefore(m: Memory, a: Word)
    ensures SameOutside(m, m, a, a)
  {
  }

  // The pushes leave the saved words and the caller's memory alone.
  lemma FrameKept(entry: Regs, m0: Memory, saved: Memory, mem: Memory, rsp: Word, top: Word)
    requires saved == m0[entry.rsp - 8 := entry.rbp][entry.rsp - 16 := entry.rbx]
                        [entry.rsp - 24 := entry.rsi][entry.rsp - 32 := entry.rdx]
    requires SameOutside(saved, mem, rsp, top)
    requires entry.rsp - StackBytes(entry.rcx) <= rsp <= top <= entry.rsp - 32
    ensures Saved(entry, mem) && SameOutside(m0, mem, rsp, entry.rsp)
    ensures SameOutside(m0, mem, entry.rsp - StackBytes(entry.rcx), entry.rsp)
  {
  }

  // Everything up to the call.
  method Prepare(entry: Regs, m0: Memory) returns (ok: bool, call: Regs, mem: Memory)
    requires Entry(entry, m0)
    ensures ok <==> Readable(m0, entry.r8, entry.rcx)
    ensures ok ==>
      && call.rbx == entry.rdi && call.rbp == entry.rsp - 8 && call.rsp % 128 == 0
      && Receives(call, mem, MicrotaskArgs(entry.rsp - 24, entry.rsp - 32, Argv(m0, entry.r8, entry.rcx)))
    ensures ok ==>
      && call.rdi == entry.rsp - 24 && call.rsi == entry.rsp - 32
      && -128 < call.rsp - (entry.rsp - 32 - 8 * Max(0, entry.rcx - 4)) <= 0
    ensures ok ==> Saved(entry, mem) && SameOutside(m0, mem, call.rsp, entry.rsp)
  {
    hide Receives, PassedAs, Abides, MicrotaskArgs, Argv, SameOutside, Saved;
    var rsi, rbp, rsp;
    rsi, rbp, rsp, mem := SaveAndAlign(entry, m0);
    var rdx, rcx := entry.rdx, entry.rcx;
    ghost var saved, top := mem, rsp;
    SameAsBefore(mem, rsp);
    FrameKept(entry, m0, saved, mem, rsp, top);
    ArgvUntouched(entry, m0, saved);
    call := entry;
    if rsi != 0 {                                           // cmpq  $0,%rsi; je
      ok, rdx, rcx, rsp, mem := PushParms(entry.rcx, rsi, entry.r8, rsp, mem);
      if !ok { return; }
    }
    FrameKept(entry, m0, saved, mem, rsp, top);
    ArgvUntouched(entry, m0, mem);
    ok, call := PassParms(entry, rdx, rcx, rbp, rsp, mem);
    if !ok { return; }
    ArgumentsInPlace(entry, m0, call, mem);
  }

  method InvokeMicrotask(entry: Regs, m0: Memory, callee: (Regs, Memory) -> (Regs, Memory))
    returns (out: Outcome)
    requires Entry(entry, m0)
    requires forall r, m :: Abides(callee, r, m)
    // the trampoline faults exactly when one of the slots it reads is unmapped
    ensures out.Fault? <==> !Readable(m0, entry.r8, entry.rcx)
    // otherwise it calls f(&gtid, &tid, p[0], ..., p[argc-1]) on an aligned stack
    ensures out.Returned? ==>
      && out.call.rbx == entry.rdi && out.call.rsp % 128 == 0
      && Receives(out.call, out.callMem,
                  MicrotaskArgs(entry.rsp - 24, entry.rsp - 32, Argv(m0, entry.r8, entry.rcx)))
    // with the two ids in memory behind the first two pointers
    ensures out.Returned? ==>
      && entry.rsp - 24 in out.callMem && Low32(out.callMem[entry.rsp - 24]) == Low32(entry.rsi)
      && entry.rsp - 32 in out.callMem && Low32(out.callMem[entry.rsp - 32]) == Low32(entry.rdx)
    // at the first such address below the four saved words and the stack arguments
    ensures out.Returned? ==>
      && out.call.rdi == entry.rsp - 24 && out.call.rsi == entry.rsp - 32
      && -128 < out.call.rsp - (entry.rsp - 32 - 8 * Max(0, entry.rcx - 4)) <= 0
    // and nothing of the caller's memory overwritten
    ensures out.Returned? ==> SameOutside(m0, out.callMem, out.call.rsp, entry.rsp)
    // the caller gets 1, its callee-saved registers and its stack pointer back
    ensures out.Returned? ==>
      && out.exit.rax == 1 && out.exit.rbx == entry.rbx && out.exit.rbp == entry.rbp
      && out.exit.rsp == entry.rsp + 8 && out.rip == m0[entry.rsp]
  {
    hide Receives, PassedAs, Abides, MicrotaskArgs, Argv, Readable;
    var ok, call, mem := Prepare(entry, m0);
    if !ok { return Fault; }
    var exit, rip := CallAndReturn(call, mem, callee);
    out := Returned(call, mem, exit, rip);
  }
}
