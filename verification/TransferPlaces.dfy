/**
 Block transfers by their four addressing modes: where each register goes, what the base becomes, and where a listed
 r15 leads.
 */
module TransferPlaces {
  import opened Arithmetic
  import opened MachineWords
  import opened RegisterBanks
  import opened BlockTransfer

  /** IA, IB, DA and DB: increment or decrement, after or before. `k` registers of `n` lie below the one at hand. */
  function Place(i: Instr, base: int, k: nat, n: nat): int {
    if i.up then if i.pre then base + 4 + 4 * k else base + 4 * k
    else if i.pre then base - 4 * n + 4 * k
    else base - 4 * n + 4 + 4 * k
  }

  lemma PlaceIs(i: Instr, base: int, k: nat)
    requires i.Valid()
    ensures Slot(i, base, k) == Place(i, base, k, Count(i.list, 16))
    ensures Written(i, base) == Wrap(if i.up then base + 4 * Count(i.list, 16) else base - 4 * Count(i.list, 16))
  {
  }

  /** Every listed register is stored in its place: the base as it was, unless the ARM7 has stored another before it. */
  lemma StmPlaces(c: Machine, i: Instr, num: nat, k: nat)
    requires c.regs.Valid() && i.Valid() && !i.s && k < 16 && i.list[k]
    requires k != i.base || num == 0 || Count(i.list, k) == 0
    ensures var d, base := Stm(c, i, num), c.regs.r[i.base];
            && Load(d.mem, Place(i, base, Count(i.list, k), Count(i.list, 16))) == c.regs.r[k]
            && d.regs == (if !i.writeback then c.regs else c.regs.(r := c.regs.r[i.base := Written(i, base)]))
            && d.cpsr == c.cpsr
  {
    hide Slot, Key, StoreAll, Load, Written;
    var base := c.regs.r[i.base];
    var regs := if i.up then c.regs else WriteBack(c.regs, i, base);
    PlaceIs(i, base, Count(i.list, k));
    StoredAt(c.mem, StoredValues(c, i, regs, num), i, base, 16, k);
  }

  /** And loaded from it, but for a base that is written back. */
  lemma LdmPlaces(c: Machine, i: Instr, num: nat, k: nat)
    requires c.regs.Valid() && i.Valid() && !i.s && k < 15
    ensures var d, base := Ldm(c, i, num), c.regs.r[i.base];
            d.regs.r[k] ==
              if k == i.base && BaseWrittenBack(i, num) then Written(i, base)
              else if i.list[k] then Load(c.mem, Place(i, base, Count(i.list, k), Count(i.list, 16)))
              else c.regs.r[k]
  {
    hide Slot, Load, LoadAll, Written, Ahead;
    var base := c.regs.r[i.base];
    PlaceIs(i, base, Count(i.list, k));
    LoadedAt(c.mem, c.regs.r, i, base, 15, k);
  }

  /** The registers below r15 as they are before a jump. */
  function Ldm0(c: Machine, i: Instr, num: nat): (r: seq<Word>)
    requires c.regs.Valid() && i.Valid()
    ensures |r| == 16
  {
    var loaded := LoadAll(c.mem, c.regs.r, i, c.regs.r[i.base], 15);
    if BaseWrittenBack(i, num) then loaded[i.base := Written(i, c.regs.r[i.base])] else loaded
  }

  /** What is loaded into r15; the ARM7 drops bit 0. */
  function Pc(c: Machine, i: Instr, num: nat): Word
    requires c.regs.Valid() && i.Valid()
  {
    var word := Load(c.mem, Place(i, c.regs.r[i.base], Count(i.list, 15), Count(i.list, 16)));
    if num == 1 then word / 2 * 2 else word
  }

  /** Without the S bit a listed r15 continues in Thumb state if bit 0 of the word is set, on the ARM7 never, and
      nothing else of the status changes. */
  lemma LdmJumps(c: Machine, i: Instr, num: nat)
    requires c.regs.Valid() && i.Valid() && !i.s && i.list[15]
    ensures var d, pc := Ldm(c, i, num), Pc(c, i, num);
            && (Thumb(d.cpsr) <==> pc % 2 == 1)
            && d.cpsr / 0x40 == c.cpsr / 0x40 && d.cpsr % 0x20 == c.cpsr % 0x20
            && d.regs.r[15] == (if pc % 2 == 1 then Wrap(pc / 2 * 2 + 2) else Wrap(pc / 4 * 4 + 4))
            && (num == 1 ==> !Thumb(d.cpsr))
  {
    hide Slot, Load, LoadAll, Written, Wrap;
    var base := c.regs.r[i.base];
    PlaceIs(i, base, Count(i.list, 15));
    WithoutBit0(Load(c.mem, Place(i, base, Count(i.list, 15), Count(i.list, 16))));
    StateBit(c.cpsr, Pc(c, i, num) % 2 == 1);
  }

  lemma WithoutBit0(w: Word)
    ensures w - w % 2 == w / 2 * 2 && (w / 2 * 2) % 2 == 0
  {
  }

  /** Setting or clearing bit 5. */
  lemma StateBit(cpsr: Word, thumb: bool)
    ensures var next := if thumb == Thumb(cpsr) then cpsr else if thumb then Plus(cpsr, 0x20) else Plus(cpsr, -0x20);
            next / 0x40 == cpsr / 0x40 && next % 0x20 == cpsr % 0x20 && Thumb(next) == thumb
  {
    hide Wrap;
    var next := if thumb == Thumb(cpsr) then cpsr else if thumb then cpsr + 0x20 else cpsr - 0x20;
    SameButBit5(cpsr / 0x40, cpsr / 0x20 % 2, if thumb then 1 else 0, cpsr % 0x20, cpsr, next);
    WrapSmall(next);
  }

  lemma SameButBit5(high: nat, bit: nat, bit': nat, low: nat, w: Word, w': int)
    requires high == w / 0x40 && bit == w / 0x20 % 2 && low == w % 0x20 && bit' < 2
    requires w' == w - 0x20 * bit + 0x20 * bit'
    ensures 0 <= w' < 0x1_0000_0000 && w' / 0x40 == high && w' / 0x20 % 2 == bit' && w' % 0x20 == low
  {
    Halves(w);
    Quotient(w', 0x20, 2 * high + bit');
    Quotient(w', 0x40, high);
  }

  lemma Halves(w: Word)
    ensures w == 0x40 * (w / 0x40) + 0x20 * (w / 0x20 % 2) + w % 0x20 && w / 0x40 < 0x400_0000
  {
    var q := w / 0x20;
    assert w / 0x40 == q / 2;
  }

  /** With the S bit the status is the saved one of the mode, its mode's registers come in, and the state is the one it
      says, whatever bit 0 of the word. */
  lemma LdmReturns(c: Machine, i: Instr, num: nat)
    requires c.regs.Valid() && i.Valid() && i.s && i.list[15]
    ensures var d, before := Ldm(c, i, num), c.regs.(r := Ldm0(c, i, num));
            && d.cpsr == Restored(c)
            && SameFile(before, Mode(c.cpsr), d.regs.(r := d.regs.r[15 := before.r[15]]), Mode(d.cpsr))
            && d.regs.r[15] == (if Thumb(d.cpsr) then Wrap(Pc(c, i, num) / 2 * 2 + 2)
                else Wrap(Pc(c, i, num) / 4 * 4 + 4))
  {
    hide Slot, Load, LoadAll, Written, Wrap, SwapBank, UserReg, BankReg;
    var base := c.regs.r[i.base];
    PlaceIs(i, base, Count(i.list, 15));
    WithoutBit0(Load(c.mem, Place(i, base, Count(i.list, 15), Count(i.list, 16))));
    var before := c.regs.(r := Ldm0(c, i, num));
    UpdateModeKeepsFile(before, Mode(c.cpsr), Mode(Restored(c)));
    FileBut15(before, Mode(c.cpsr), Switched(before, Mode(c.cpsr), Mode(Restored(c))), Mode(Restored(c)),
      Ldm(c, i, num).regs.r[15]);
  }

  /** The saved status register of the mode, with bit 4 set; a mode without one has the current status. */
  function Restored(c: Machine): Word
    requires c.regs.Valid()
  {
    var mode := Mode(c.cpsr);
    var saved :=
      if mode == FIQ then c.regs.fiq[7]
      else if mode == IRQ then c.regs.irq[2]
      else if mode == SVC then c.regs.svc[2]
      else if 0x14 <= mode <= 0x17 then c.regs.abt[2]
      else if 0x18 <= mode <= 0x1B then c.regs.und[2]
      else c.cpsr;
    if saved / 0x10 % 2 == 1 then saved else Wrap(saved + 0x10)
  }

  lemma FileBut15(s: Registers, mode: nat, t: Registers, mode': nat, pc: Word)
    requires s.Valid() && t.Valid() && SameFile(s, mode, t, mode')
    ensures SameFile(s, mode, t.(r := t.r[15 := pc][15 := s.r[15]]), mode')
  {
    assert t.r[15 := pc][15 := s.r[15]] == t.r;
  }

  // ---- Writing back a base in the list -------------------------------------------------------

  predicate Alone(i: Instr)
    requires i.Valid()
  {
    forall k | 0 <= k < 16 :: i.list[k] <==> k == i.base
  }

  predicate NotLast(i: Instr)
    requires i.Valid()
  {
    exists k | i.base < k < 16 :: i.list[k]
  }

  lemma {:induction false} Listed(list: seq<bool>, m: nat, n: nat)
    requires m <= n <= |list|
    ensures Count(list, m) < Count(list, n) <==> exists k | m <= k < n :: list[k]
  {
    if m < n {
      Listed(list, m, n - 1);
      CountMono(list, m, n - 1);
    }
  }

  /** A base in the list is written back by the ARM9 only, if it is alone or not the last. */
  lemma WritesBackIff(i: Instr, num: nat)
    requires i.Valid()
    ensures BaseWrittenBack(i, num) <==>
        i.writeback && (!i.list[i.base] || (num == 0 && (Alone(i) || NotLast(i))))
  {
    Listed(i.list, 0, i.base);
    Listed(i.list, i.base, i.base + 1);
    Listed(i.list, i.base + 1, 16);
    CountMono(i.list, 0, i.base);
    CountMono(i.list, i.base + 1, 16);
    assert Count(i.list, i.base + 1) == Count(i.list, i.base) + if i.list[i.base] then 1 else 0;
  }

  /** What the compiler decides for a load: its `&&` binds more tightly than its `||`. */
  predicate WrittenBackByJit(i: Instr, num: nat)
    requires i.Valid()
  {
    if i.writeback && i.list[i.base] then (num == 0 && Alone(i)) || NotLast(i) else i.writeback
  }

  /** Interpreter and compiler agree on it except on the ARM7, where the compiler writes a base back that is listed
      and not the last. */
  lemma JitAgreesIff(i: Instr, num: nat)
    requires i.Valid()
    ensures WrittenBackByJit(i, num) == BaseWrittenBack(i, num) <==>
        !(num != 0 && i.writeback && i.list[i.base] && NotLast(i))
  {
    WritesBackIff(i, num);
  }
}
