/**
 The banked registers of the ARM, and exception entry and return. The
 current mode's registers are in `r`; the bank of the current mode holds the user registers meanwhile.
 */
module RegisterBanks {
  import opened MachineWords

  function Plus(a: int, n: int): Word { Wrap(a + n) }

  const FIQ := 0x11
  const IRQ := 0x12
  const SVC := 0x13
  const ABT := 0x17
  const UND := 0x1B

  /** The last entry of each bank is its saved status register. */
  datatype Registers = Registers(r: seq<Word>, fiq: seq<Word>, irq: seq<Word>, svc: seq<Word>, abt: seq<Word>,
      und: seq<Word>)
  {
    predicate Valid() {
      |r| == 16 && |fiq| == 8 && |irq| == 3 && |svc| == 3 && |abt| == 3 && |und| == 3
    }
  }

  const ZEROS: seq<Word> := [0, 0, 0, 0, 0, 0, 0, 0, 0, 0, 0, 0, 0, 0, 0, 0]

  type Banks = b: Registers | b.Valid()
    witness Registers(ZEROS, seq(8, _ => 0), seq(3, _ => 0), seq(3, _ => 0), seq(3, _ => 0), seq(3, _ => 0))

  // ---- Banking -------------------------------------------------------------------------------

  function Mode(cpsr: Word): nat { cpsr % 0x20 }

  /** r13 and r14 with the given ones in their place. */
  function WithHigh(r: seq<Word>, bank: seq<Word>): seq<Word>
    requires |r| == 16 && |bank| == 3
  {
    r[13 := bank[0]][14 := bank[1]]
  }

  function Put(r: seq<Word>, bank: seq<Word>): seq<Word>
    requires |r| == 16 && |bank| == 3
  {
    bank[0 := r[13]][1 := r[14]]
  }

  /** Exchange the registers a mode banks. */
  function SwapBank(s: Registers, mode: nat): (t: Registers)
    requires s.Valid()
    ensures t.Valid()
  {
    match mode
    case 0x11 => s.(r := s.r[..8] + s.fiq[..7] + s.r[15..], fiq := s.r[8..15] + s.fiq[7..])
    case 0x12 => s.(r := WithHigh(s.r, s.irq), irq := Put(s.r, s.irq))
    case 0x13 => s.(r := WithHigh(s.r, s.svc), svc := Put(s.r, s.svc))
    case 0x17 => s.(r := WithHigh(s.r, s.abt), abt := Put(s.r, s.abt))
    case 0x1B => s.(r := WithHigh(s.r, s.und), und := Put(s.r, s.und))
    case _ => s
  }

  /** `UpdateMode`, from one mode to another. */
  function Switched(s: Registers, oldmode: nat, newmode: nat): (t: Registers)
    requires s.Valid()
    ensures t.Valid()
  {
    if oldmode == newmode then s else SwapBank(SwapBank(s, oldmode), newmode)
  }

  /** User register `i` while the processor is in `mode`, as `ReadReg` finds it. */
  function UserReg(s: Registers, mode: nat, i: nat): Word
    requires s.Valid() && i < 15
  {
    if mode == FIQ && i >= 8 then s.fiq[i - 8]
    else if i < 13 then s.r[i]
    else match mode
      case 0x12 => s.irq[i - 13]
      case 0x13 => s.svc[i - 13]
      case 0x17 => s.abt[i - 13]
      case 0x1B => s.und[i - 13]
      case _ => s.r[i]
  }

  /** Register `i` of the bank of `bank` while the processor is in `mode`, likewise. */
  function BankReg(s: Registers, mode: nat, bank: nat, i: nat): Word
    requires s.Valid() && bank in {FIQ, IRQ, SVC, ABT, UND} && (if bank == FIQ then 8 else 13) <= i < 15
  {
    if mode == bank then s.r[i]
    else match bank
      case 0x11 => s.fiq[i - 8]
      case 0x12 => s.irq[i - 13]
      case 0x13 => s.svc[i - 13]
      case 0x17 => s.abt[i - 13]
      case _ => s.und[i - 13]
  }

  /** Two states, each with its mode, hold the same register file. */
  ghost predicate SameFile(s: Registers, mode: nat, t: Registers, mode': nat)
    requires s.Valid() && t.Valid()
  {
    && (forall i | 0 <= i < 15 :: UserReg(t, mode', i) == UserReg(s, mode, i))
    && (forall bank, i | bank in {FIQ, IRQ, SVC, ABT, UND} && (if bank == FIQ then 8 else 13) <= i < 15 ::
          BankReg(t, mode', bank, i) == BankReg(s, mode, bank, i))
    && t.r[15] == s.r[15] && t.fiq[7] == s.fiq[7] && t.irq[2] == s.irq[2] && t.svc[2] == s.svc[2]
        && t.abt[2] == s.abt[2] && t.und[2] == s.und[2]
  }

  lemma SwapOutKeeps(s: Registers, mode: nat)
    requires s.Valid()
    ensures SameFile(s, mode, SwapBank(s, mode), 0x10)
  {
  }

  lemma SwapInKeeps(s: Registers, mode: nat)
    requires s.Valid()
    ensures SameFile(s, 0x10, SwapBank(s, mode), mode)
  {
  }

  /** Changing mode moves no register to another place in the file: every register of every mode reads as
      before, from any mode to any other. */
  lemma UpdateModeKeepsFile(s: Registers, oldmode: nat, newmode: nat)
    requires s.Valid()
    ensures SameFile(s, oldmode, Switched(s, oldmode, newmode), newmode)
  {
    SwapOutKeeps(s, oldmode);
    SwapInKeeps(SwapBank(s, oldmode), newmode);
    hide SwapBank, UserReg, BankReg;
  }

  lemma SwapTwice(s: Registers, mode: nat)
    requires s.Valid()
    ensures SwapBank(SwapBank(s, mode), mode) == s
  {
    var t := SwapBank(SwapBank(s, mode), mode);
    assert t.r == s.r && t.fiq == s.fiq && t.irq == s.irq && t.svc == s.svc && t.abt == s.abt && t.und == s.und;
  }

  /** A pair of changes there and back is nothing. */
  lemma PairedUpdateMode(s: Registers, a: nat, b: nat)
    requires s.Valid()
    ensures Switched(Switched(s, a, b), b, a) == s
  {
    hide SwapBank;
    SwapTwice(SwapBank(s, a), b);
    SwapTwice(s, a);
  }

  // ---- Exceptions ----------------------------------------------------------------------------

  datatype Cpu = Cpu(regs: Registers, cpsr: Word)

  function Thumb(cpsr: Word): bool { cpsr / 0x20 % 2 == 1 }

  /** The link register an interrupt leaves. */
  function Link(pc: Word, thumb: bool): Word { Plus(pc, if thumb then 2 else 0) }

  /** The program counter after a jump: one instruction ahead of the aligned address. */
  function Ahead(addr: Word, thumb: bool): Word {
    if thumb then Plus(addr, 2 - addr % 2) else Plus(addr, 4 - addr % 4)
  }

  /** `RestoreCPSR`. Bit 4 is forced. */
  function RestoreCpsr(c: Cpu): (d: Cpu)
    requires c.regs.Valid()
    ensures d.regs.Valid()
  {
    var mode := Mode(c.cpsr);
    var saved :=
      if mode == 0x11 then c.regs.fiq[7]
      else if mode == 0x12 then c.regs.irq[2]
      else if mode == 0x13 then c.regs.svc[2]
      else if 0x14 <= mode <= 0x17 then c.regs.abt[2]
      else if 0x18 <= mode <= 0x1B then c.regs.und[2]
      else c.cpsr;
    var cpsr := if saved / 0x10 % 2 == 1 then saved else Plus(saved, 0x10);
    Cpu(Switched(c.regs, mode, Mode(cpsr)), cpsr)
  }

  /** `JumpTo`, without the fetches. */
  function JumpTo(c: Cpu, addr: Word, restore: bool): (d: Cpu)
    requires c.regs.Valid()
    ensures d.regs.Valid()
  {
    var c := if restore then RestoreCpsr(c) else c;
    var thumb := if restore then Thumb(c.cpsr) else addr % 2 == 1;
    var cpsr := if thumb == Thumb(c.cpsr) then c.cpsr else if thumb then Plus(c.cpsr, 0x20) else Plus(c.cpsr, -0x20);
    var pc := Ahead(addr, thumb);
    Cpu(c.regs.(r := c.regs.r[15 := pc]), cpsr)
  }

  /** `TriggerIRQ`. */
  function TriggerIrq(c: Cpu, exceptionBase: Word): (d: Cpu)
    requires c.regs.Valid()
    ensures d.regs.Valid()
  {
    if c.cpsr / 0x80 % 2 == 1 then c else
      var cpsr := Plus(c.cpsr / 0x100 * 0x100, 0xD2);
      var regs := Switched(c.regs, Mode(c.cpsr), IRQ);
      var regs := regs.(irq := regs.irq[2 := c.cpsr]);
      var regs := regs.(r := regs.r[14 := Link(regs.r[15], Thumb(c.cpsr))]);
      JumpTo(Cpu(regs, cpsr), Plus(exceptionBase, 0x18), false)
  }

  /** What an interrupt handler ends with: SUBS PC, LR, #4. */
  function ReturnFromIrq(c: Cpu): (d: Cpu)
    requires c.regs.Valid()
    ensures d.regs.Valid()
  {
    JumpTo(c, Plus(c.regs.r[14], -4), true)
  }

  lemma IrqEntry(c: Cpu, exceptionBase: Word)
    requires c.regs.Valid() && c.cpsr / 0x80 % 2 == 0 && exceptionBase % 4 == 0
    ensures var d := TriggerIrq(c, exceptionBase);
            && Mode(d.cpsr) == IRQ && !Thumb(d.cpsr) && d.cpsr / 0x80 % 2 == 1
            && d.regs == Switched(c.regs, Mode(c.cpsr), IRQ).(irq := d.regs.irq, r := d.regs.r)
            && d.regs.irq == Switched(c.regs, Mode(c.cpsr), IRQ).irq[2 := c.cpsr]
            && d.regs.r == Switched(c.regs, Mode(c.cpsr), IRQ).r[14 := Link(c.regs.r[15], Thumb(c.cpsr))][15 :=
                Plus(exceptionBase, 0x1C)]
  {
    UpdateModeKeepsFile(c.regs, Mode(c.cpsr), IRQ);
    hide Switched, UserReg, BankReg, SwapBank, Link, Mode, Thumb, JumpTo, Plus;
    EntryStatus(c.cpsr);
    var regs := Switched(c.regs, Mode(c.cpsr), IRQ);
    var status := Plus(c.cpsr / 0x100 * 0x100, 0xD2);
    var linked := regs.(irq := regs.irq[2 := c.cpsr], r := regs.r[14 := Link(regs.r[15], Thumb(c.cpsr))]);
    JumpPlain(Cpu(linked, status), exceptionBase);
  }

  lemma JumpPlain(c: Cpu, exceptionBase: Word)
    requires c.regs.Valid() && !Thumb(c.cpsr) && exceptionBase % 4 == 0
    ensures JumpTo(c, Plus(exceptionBase, 0x18), false)
        == c.(regs := c.regs.(r := c.regs.r[15 := Plus(exceptionBase, 0x1C)]))
  {
    hide Wrap;
    WrapLow(exceptionBase + 0x18);
    WrapAdd(exceptionBase + 0x18, 4);
  }

  lemma EntryStatus(cpsr: Word)
    ensures var entry := Plus(cpsr / 0x100 * 0x100, 0xD2); Mode(entry) == IRQ && !Thumb(entry) && entry / 0x80 % 2 == 1
  {
    var high := cpsr / 0x100;
    var entry := Plus(high * 0x100, 0xD2);
    assert entry == high * 0x100 + 0xD2;
    assert entry / 0x20 == high * 8 + 6 && entry / 0x80 == high * 2 + 1;
  }

  lemma WrapLow(a: int)
    ensures Wrap(a) % 4 == a % 4 && Wrap(a) % 2 == a % 2
  {
    var q := a / 0x1_0000_0000;
    assert a == 4 * (0x4000_0000 * q) + Wrap(a);
    LowBits(0x4000_0000 * q, Wrap(a));
  }

  lemma LowBits(k: int, w: int)
    ensures (4 * k + w) % 4 == w % 4 && (4 * k + w) % 2 == w % 2
  {
    Remainder4(4 * k + w, k + w / 4, w % 4);
    Remainder2(4 * k + w, 2 * k + w / 2, w % 2);
  }

  lemma Remainder4(a: int, q: int, r: int)
    requires a == 4 * q + r && 0 <= r < 4
    ensures a % 4 == r
  {
  }

  lemma Remainder2(a: int, q: int, r: int)
    requires a == 2 * q + r && 0 <= r < 2
    ensures a % 2 == r
  {
  }

  lemma ReturnAddress(pc: Word, thumb: bool)
    requires pc % (if thumb then 2 else 4) == 0
    ensures Ahead(Plus(Link(pc, thumb), -4), thumb) == pc
  {
    hide *;
    if thumb {
      ReturnAddressThumb(pc);
    } else {
      ReturnAddressArm(pc);
    }
  }

  lemma ReturnAddressThumb(pc: Word)
    requires pc % 2 == 0
    ensures Ahead(Plus(Link(pc, true), -4), true) == pc
  {
    hide *;
    LinkLess(pc, true);
    LessIsEven(pc);
    AheadFrom(Plus(pc, -2), true);
    PlusBack(pc, 2);
  }

  lemma ReturnAddressArm(pc: Word)
    requires pc % 4 == 0
    ensures Ahead(Plus(Link(pc, false), -4), false) == pc
  {
    hide *;
    LinkLess(pc, false);
    LessIsAligned(pc);
    AheadFrom(Plus(pc, -4), false);
    PlusBack(pc, 4);
  }

  lemma LinkLess(pc: Word, thumb: bool)
    ensures Plus(Link(pc, thumb), -4) == Plus(pc, if thumb then -2 else -4)
  {
    hide Wrap;
    var n := if thumb then 2 else 0;
    WrapAdd(pc + n, -4);
  }

  lemma AheadFrom(a: Word, thumb: bool)
    requires a % (if thumb then 2 else 4) == 0
    ensures Ahead(a, thumb) == Plus(a, if thumb then 2 else 4)
  {
    hide Plus;
  }

  lemma PlusBack(pc: Word, n: int)
    ensures Plus(Plus(pc, -n), n) == pc
  {
    hide Wrap;
    WrapAdd(pc - n, n);
    WrapSmall(pc);
  }

  lemma LessIsEven(pc: Word)
    requires pc % 2 == 0
    ensures Plus(pc, -2) % 2 == 0
  {
    hide Wrap;
    Remainder2(pc - 2, pc / 2 - 1, 0);
    WrapLow(pc - 2);
  }

  lemma LessIsAligned(pc: Word)
    requires pc % 4 == 0
    ensures Plus(pc, -4) % 4 == 0
  {
    hide Wrap;
    Remainder4(pc - 4, pc / 4 - 1, 0);
    WrapLow(pc - 4);
  }

  /** Where the return from an interrupt leads, given the state after entry. */
  lemma ReturnsTo(c: Cpu, e: Cpu)
    requires c.regs.Valid() && e.regs.Valid() && Mode(e.cpsr) == IRQ && e.regs.irq[2] == c.cpsr
        && c.cpsr / 0x10 % 2 == 1
    requires e.regs.r[14] == Link(c.regs.r[15], Thumb(c.cpsr))
    requires c.regs.r[15] % (if Thumb(c.cpsr) then 2 else 4) == 0
    ensures var d := ReturnFromIrq(e);
            d.cpsr == c.cpsr && d.regs == Switched(e.regs, IRQ, Mode(c.cpsr)).(r := d.regs.r)
            && d.regs.r == Switched(e.regs, IRQ, Mode(c.cpsr)).r[15 := c.regs.r[15]]
  {
    hide Switched;
    ReturnAddress(c.regs.r[15], Thumb(c.cpsr));
  }

  /** What the entry changed in the IRQ bank and the program counter does not show in another mode. */
  lemma LinkBack(t: Registers, e: Registers, mode: nat)
    requires t.Valid() && e.Valid() && mode != IRQ
    requires e == t.(irq := t.irq[2 := e.irq[2]], r := t.r[14 := e.r[14]][15 := e.r[15]])
    ensures forall i | 0 <= i < 15 :: Switched(e, IRQ, mode).r[i] == Switched(t, IRQ, mode).r[i]
  {
  }

  /** An interrupt taken and left, with the handler's work undone, resumes where it was: program counter,
      status, and every register of the interrupted mode are back. Only in IRQ mode itself is the link
      register lost, because the entry overwrites it. */
  lemma InterruptResumes(c: Cpu, exceptionBase: Word)
    requires c.regs.Valid() && c.cpsr / 0x80 % 2 == 0 && c.cpsr / 0x10 % 2 == 1 && exceptionBase % 4 == 0
    requires c.regs.r[15] % (if Thumb(c.cpsr) then 2 else 4) == 0
    ensures var d := ReturnFromIrq(TriggerIrq(c, exceptionBase));
            && d.cpsr == c.cpsr && d.regs.r[15] == c.regs.r[15]
            && (forall i | 0 <= i < 14 :: d.regs.r[i] == c.regs.r[i])
            && (d.regs.r[14] == c.regs.r[14] <==>
                Mode(c.cpsr) != IRQ
                || c.regs.r[14] == Link(c.regs.r[15], Thumb(c.cpsr)))
  {
    hide TriggerIrq, ReturnFromIrq, SwapBank, Switched;
    var mode, e := Mode(c.cpsr), TriggerIrq(c, exceptionBase);
    IrqEntry(c, exceptionBase);
    ReturnsTo(c, e);
    PairedUpdateMode(c.regs, mode, IRQ);
    if mode == IRQ {
      NoSwitch(c.regs, IRQ);
      NoSwitch(e.regs, IRQ);
    } else {
      LinkBack(Switched(c.regs, mode, IRQ), e.regs, mode);
    }
  }

  lemma NoSwitch(s: Registers, mode: nat)
    requires s.Valid()
    ensures Switched(s, mode, mode) == s
  {
  }
}
