/**
 Three instructions that use a constant a change of mode has made false: the stack pointer is set, the mode is
 changed, and a word is loaded through the stack pointer of the other mode, with fast memory on.
 */
module ExchangedConstants {
  import opened MachineWords
  import opened EmittedCode
  import opened RegisterCache
  import opened KnownConstants
  import opened CompiledBlock
  import opened RegisterBanks
  import InstrInfo
  import LiteralLoads

  // ---- The block -----------------------------------------------------------------------------

  const STACK: Word := 0x200_0000

  /** `MOV r13, #0x2000000`, `MSR CPSR_c, #0xD2` and `LDR r0, [r13]`, at 0x2000100. */
  const MOV_WORD := 0xE3A0_D402
  const MSR_WORD := 0xE321_F0D2
  const LDR_WORD := 0xE59D_0000

  const HIGH: set<Reg> := {8, 9, 10, 11, 12, 13, 14}

  const MOV := Instr(0xE, 0x200_0108, Info({13}, {}, {}, {}))
  const MSR := Instr(0xE, 0x200_010C, Info({}, {}, {}, HIGH))
  const LDR := Instr(0xE, 0x200_0110, Info({0}, {13}, {}, {}))

  const BLOCK := [MOV, MSR, LDR]

  /** The load takes the constant for its base; the change of mode saves and unloads the high registers. */
  const PLANS := [Plan(true, Constant(13, STACK), {}, {}), Plan(true, NoConstant, {}, HIGH),
    Plan(true, NoConstant, {13}, {})]

  const MOV_ENTRY := InstrInfo.NOP.(kind := InstrInfo.Other, write12 := true)
  const MSR_ENTRY := InstrInfo.NOP.(kind := InstrInfo.Msr)
  const LDR_ENTRY := InstrInfo.NOP.(kind := InstrInfo.Other, read16 := true, write12 := true, loadMem := true)

  /** Their registers are those decoding finds. */
  lemma BlockDecoded(mov: InstrInfo.Decoded, msr: InstrInfo.Decoded, ldr: InstrInfo.Decoded)
    requires InstrInfo.ArmRegisters(mov, MOV_ENTRY, MOV_WORD) && InstrInfo.ArmRegisters(msr, MSR_ENTRY, MSR_WORD)
    requires InstrInfo.ArmRegisters(ldr, LDR_ENTRY, LDR_WORD)
    ensures MOV.info == mov.Registers({}) && MSR.info == msr.Registers(HIGH) && LDR.info == ldr.Registers({})
  {
    hide Bit, Field;
    BlockFields();
  }

  lemma BlockFields()
    ensures Field(MOV_WORD, 12) == 13 && Field(LDR_WORD, 12) == 0 && Field(LDR_WORD, 16) == 13
  {
    assert Pow2(12) == 0x1000;
    assert Pow2(16) == 0x10 * Pow2(12);
  }

  lemma BlockPlanned()
    ensures Planned(BLOCK, false, PLANS)
  {
    assert PlanFits(MOV, false, PLANS[0], false);
    assert PlanFits(MSR, false, PLANS[1], false);
    assert PlanFits(LDR, false, PLANS[2], true);
  }

  lemma BlockAllocatable(available: nat, pcAllocatableAsSrc: bool)
    requires available >= 2
    ensures Allocatable(available, pcAllocatableAsSrc, MOV) && Allocatable(available, pcAllocatableAsSrc, MSR)
    ensures Allocatable(available, pcAllocatableAsSrc, LDR)
  {
    assert Necessary(MOV, pcAllocatableAsSrc) == {13} && Necessary(MSR, pcAllocatableAsSrc) == {};
    assert Necessary(LDR, pcAllocatableAsSrc) == {0, 13};
  }

  lemma BlockCompilable(order: seq<Native>, pcAllocatableAsSrc: bool)
    requires Sequences.Distinct(order) && |order| >= 2
    ensures Compilable(order, pcAllocatableAsSrc, BLOCK, false, PLANS)
  {
    hide Planned, Allocatable;
    BlockPlanned();
    BlockAllocatable(|order|, pcAllocatableAsSrc);
  }

  // ---- What its instructions do --------------------------------------------------------------

  /** All but the current registers and memory; the block stores nothing. */
  datatype Rest = Rest(banks: Banks, cpsr: Word)

  type Memory = Word -> Word

  /** The status register after `MSR CPSR_c, #0xD2` in ARM state. A user has no control over it. */
  function Controlled(cpsr: Word): Word {
    if Mode(cpsr) == 0x10 then cpsr else Plus(cpsr / 0x100 * 0x100, 0xD2)
  }

  /** The exchange of banks is that of `UpdateMode`. */
  function AfterMsr(x: Regs, w: Rest): Banks {
    Switched(w.banks.(r := x), Mode(w.cpsr), Mode(Controlled(w.cpsr)))
  }

  function DoMsr(x: Regs, w: Rest): Effect<Rest> {
    Effect(true, AfterMsr(x, w).r, Rest(AfterMsr(x, w).(r := ZEROS), Controlled(w.cpsr)))
  }

  function DoMov(x: Regs, w: Rest): Effect<Rest> { Effect(true, x[13 := STACK], w) }

  /** The word is read from the address in the register; by how much it is rotated is taken from what is known. */
  function LoadedFrom(mem: Memory, known: map<Reg, Word>, base: Word): Word {
    Rotated(mem(base / 4 * 4), if 13 in known then known[13] else base)
  }

  function Codes(mem: Memory): seq<Code<Rest>> {
    [(known: map<Reg, Word>) => DoMov, (known: map<Reg, Word>) => DoMsr, (known: map<Reg, Word>) => Ldr(mem, known)]
  }

  function Ldr(mem: Memory, known: map<Reg, Word>): (Regs, Rest) -> Effect<Rest> {
    (x: Regs, w: Rest) => Effect(true, x[0 := LoadedFrom(mem, known, x[13])], w)
  }

  /** A change of mode moves r8 to r14 only, and depends on no other register. */
  lemma SwapIsHigh(s: Registers, t: Registers, mode: nat)
    requires s.Valid() && t == s.(r := t.r) && t.Valid() && s.r[8..15] == t.r[8..15]
    ensures var a, b := SwapBank(s, mode), SwapBank(t, mode);
            && b == a.(r := b.r) && a.r[8..15] == b.r[8..15] && a.r[..8] == s.r[..8] && a.r[15] == s.r[15]
  {
    assert forall i | 8 <= i < 15 :: s.r[i] == s.r[8..15][i - 8] && t.r[i] == t.r[8..15][i - 8];
    var a, b := SwapBank(s, mode), SwapBank(t, mode);
    assert a.r[8..15] == b.r[8..15] && a.r[..8] == s.r[..8];
  }

  lemma SwitchIsHigh(s: Registers, t: Registers, oldmode: nat, newmode: nat)
    requires s.Valid() && t == s.(r := t.r) && t.Valid() && s.r[8..15] == t.r[8..15]
    ensures var a, b := Switched(s, oldmode, newmode), Switched(t, oldmode, newmode);
            && b == a.(r := b.r) && a.r[8..15] == b.r[8..15] && a.r[..8] == s.r[..8] && a.r[15] == s.r[15]
  {
    hide SwapBank;
    if oldmode != newmode {
      SwapIsHigh(s, t, oldmode);
      SwapIsHigh(SwapBank(s, oldmode), SwapBank(t, oldmode), newmode);
    }
  }

  lemma MsrObeys()
    ensures Obeys(DoMsr, MSR, false)
  {
    hide Switched;
    forall x: Regs, y: Regs, w: Rest | Agree(x, y, HIGH)
      ensures DoMsr(x, w).world == DoMsr(y, w).world && Agree(DoMsr(x, w).regs, DoMsr(y, w).regs, HIGH)
      ensures Untouched(x, DoMsr(x, w).regs, HIGH)
    {
      HighSame(x, y);
      SwitchIsHigh(w.banks.(r := x), w.banks.(r := y), Mode(w.cpsr), Mode(Controlled(w.cpsr)));
      HighParts(DoMsr(x, w).regs, DoMsr(y, w).regs, x);
    }
    assert MSR.info.Reads() == MSR.info.Writes() == HIGH;
    assert forall x: Regs :: Agree(x, x, HIGH);
  }

  lemma HighSame(x: Regs, y: Regs)
    requires Agree(x, y, HIGH)
    ensures x[8..15] == y[8..15]
  {
  }

  lemma HighParts(a: Regs, b: Regs, x: Regs)
    requires a[8..15] == b[8..15] && a[..8] == x[..8] && a[15] == x[15]
    ensures Agree(a, b, HIGH) && Untouched(x, a, HIGH)
  {
    forall r: Reg
      ensures r in HIGH ==> a[r] == b[r]
      ensures r !in HIGH ==> a[r] == x[r]
    {
      if r in HIGH {
        assert a[8..15][r - 8] == b[8..15][r - 8];
      } else if r < 8 {
        assert a[..8][r] == x[..8][r];
      }
    }
  }

  lemma MovObeys()
    ensures Obeys(DoMov, MOV, false)
  {
  }

  lemma LdrObeys(mem: Memory, known: map<Reg, Word>)
    ensures Obeys(Ldr(mem, known), LDR, false)
  {
    hide LoadedFrom;
    var step := Ldr(mem, known);
    assert LDR.info.Reads() == {13} && LDR.info.Writes() == {0} && 13 in {13};
    forall x: Regs, y: Regs, w: Rest | Agree(x, y, LDR.info.Reads())
      ensures step(x, w).world == step(y, w).world && Agree(step(x, w).regs, step(y, w).regs, LDR.info.Writes())
    {
      assert x[13] == y[13];
    }
    forall x: Regs, w: Rest
      ensures step(x, w).executed && Untouched(x, step(x, w).regs, LDR.info.Writes())
    {
    }
  }

  lemma LdrSpecialised(mem: Memory)
    ensures Specialised(Codes(mem)[2], {13})
  {
    forall known: map<Reg, Word>, x: Regs, w: Rest | TrueOf(known, {13}, x)
      ensures Ldr(mem, known)(x, w) == Ldr(mem, map[])(x, w)
    {
      assert 13 in {13};
    }
  }

  const ANY_REST := (w: Rest) => true

  lemma MovFaithful(mem: Memory)
    ensures Faithful(Codes(mem)[0], MOV, false, PLANS[0], ANY_REST)
  {
    hide Obeys;
    MovObeys();
  }

  lemma MsrFaithful(mem: Memory)
    ensures Faithful(Codes(mem)[1], MSR, false, PLANS[1], ANY_REST)
  {
    hide Obeys, AfterMsr;
    MsrObeys();
  }

  lemma LdrFaithful(mem: Memory)
    ensures Faithful(Codes(mem)[2], LDR, false, PLANS[2], ANY_REST)
  {
    hide Obeys, Specialised, LoadedFrom;
    LdrSpecialised(mem);
    forall known: map<Reg, Word>
      ensures Obeys(Ldr(mem, known), LDR, false)
    {
      LdrObeys(mem, known);
    }
  }

  /** The code of each is what compiled code may be. */
  lemma CodesFaithful(mem: Memory)
    ensures AllFaithful(Codes(mem), BLOCK, false, PLANS, ANY_REST)
  {
    hide Faithful;
    MovFaithful(mem);
    MsrFaithful(mem);
    LdrFaithful(mem);
  }

  /** What is known at the load. */
  lemma StackKnown()
    ensures KnownAt(BLOCK, PLANS, 0) == map[] && KnownAt(BLOCK, PLANS, 1) == map[13 := STACK]
    ensures KnownAt(BLOCK, PLANS, 2) == map[13 := STACK] && !UsesKept(BLOCK, PLANS, 2)
  {
    assert KnownBefore(BLOCK, PLANS, 0) == map[];
    assert KnownBefore(BLOCK, PLANS, 1) == map[13 := STACK];
    assert KnownBefore(BLOCK, PLANS, 2) == map[13 := STACK];
    assert StillKnown(BLOCK, PLANS, 13, 0, 2);
    assert 13 in BLOCK[1].info.banked - BLOCK[1].info.dst;
    assert Exchanged(BLOCK, 13, 0, 2);
  }

  /** From supervisor mode the stack pointer becomes that of IRQ mode. */
  lemma StackExchanged(x: Regs, w: Rest)
    requires Mode(w.cpsr) == SVC
    ensures DoMsr(x, w).regs[13] == w.banks.irq[0]
  {
    hide Mode;
    EntryStatus(w.cpsr);
  }

  /** Started in supervisor mode, with the stack pointer of IRQ mode two bytes further on, the compiled block loads
      the word as it lies in memory; executed directly the block loads it with its halves exchanged. */
  lemma ExchangedConstantUsed(block: seq<Segment>, tail: seq<Op>, layouts: Layouts, mem: Memory, f: File, w: Rest,
      pc: Word)
    requires |block| == 3 && WellAllocated(block, 3, layouts, BLOCK, false, PLANS)
    requires Simulates(layouts.at[3], tail, NOTHING_LOADED, pc)
    requires Mode(w.cpsr) == SVC && w.banks.irq[0] == STACK + 2
    ensures AllFaithful(Codes(mem), BLOCK, false, PLANS, ANY_REST)
    ensures var c := BlockRun(block, Codes(mem), BLOCK, 3, f, w);
            var d := DirectRun(Codes(mem), BLOCK, 3, f.mem, w);
            && Exec(tail, c.0).mem[0] == mem(STACK) && d.0[0] == Rotated(mem(STACK), 2)
            && (Exec(tail, c.0).mem[0] == d.0[0] <==> mem(STACK) / 0x1_0000 == mem(STACK) % 0x1_0000)
  {
    hide Exec, WellAllocated, Simulates, Faithful, AllObey, BlockRun, AfterMsr, DirectRun, KnowingRun,
        Rotated;
    CodesFaithful(mem);
    FaithfulObey(Codes(mem), BLOCK, false, PLANS, ANY_REST);
    AllocationRefines(block, tail, layouts, Codes(mem), BLOCK, false, PLANS, f, w, pc);
    LoadedThrough(mem, f.mem, w);
    var m := Exec(tail, BlockRun(block, Codes(mem), BLOCK, 3, f, w).0).mem;
    var k := KnowingRun(Codes(mem), BLOCK, PLANS, 3, f.mem, w).0;
    assert m[..15][0] == k[..15][0];
    LiteralLoads.RotatedBy(mem(STACK), STACK + 2);
    LiteralLoads.RotatedBy(mem(STACK), STACK);
    LiteralLoads.HalvesTurned(mem(STACK));
  }

  lemma LoadedThrough(mem: Memory, g: Regs, w: Rest)
    requires Mode(w.cpsr) == SVC && w.banks.irq[0] == STACK + 2
    ensures DirectRun(Codes(mem), BLOCK, 3, g, w).0[0] == Rotated(mem(STACK), STACK + 2)
    ensures KnowingRun(Codes(mem), BLOCK, PLANS, 3, g, w).0[0] == Rotated(mem(STACK), STACK)
  {
    hide DoMsr, AfterMsr, Rotated, KnownAt;
    StackKnown();
    var g1 := g[15 := MOV.pc][13 := STACK];
    var x := g1[15 := MSR.pc];
    StackExchanged(x, w);
    var codes := Codes(mem);
    var e := DoMsr(x, w);
    assert DirectRun(codes, BLOCK, 0, g, w) == KnowingRun(codes, BLOCK, PLANS, 0, g, w) == (g, w);
    assert DirectRun(codes, BLOCK, 1, g, w) == KnowingRun(codes, BLOCK, PLANS, 1, g, w) == (g1, w);
    assert DirectRun(codes, BLOCK, 2, g, w) == KnowingRun(codes, BLOCK, PLANS, 2, g, w) == (e.regs, e.world);
    var y := e.regs[15 := LDR.pc];
    assert DirectRun(codes, BLOCK, 3, g, w).0 == y[0 := LoadedFrom(mem, map[], y[13])];
    assert KnowingRun(codes, BLOCK, PLANS, 3, g, w).0 == y[0 := LoadedFrom(mem, map[13 := STACK], y[13])];
  }
}
