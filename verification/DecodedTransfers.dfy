/**
 What decoding promises of loads and stores holds of them as they are executed: they read no registers but their
 sources, write all of their destinations, and touch no other.
 */
module DecodedTransfers {
  import opened MachineWords
  import opened EmittedCode
  import opened RegisterBanks
  import FlagLiveness
  import InstrInfo
  import BlockTransfer
  import SingleTransfers

  type Flag = FlagLiveness.Flag

  /** Is an instruction with this condition carried out? */
  predicate Holds(cond: nat, flags: set<Flag>) { cond >= 0xE || InstrInfo.CheckCondition(cond, flags) }

  // ---- One register --------------------------------------------------------------------------

  /** The entry of the table for a transfer with an immediate offset. */
  function SingleEntry(op: SingleTransfers.Op, post: bool): InstrInfo.ArmEntry {
    InstrInfo.NOP.(kind := InstrInfo.Other, read16 := true, write12 := op.Loads(), read12 := !op.Loads(),
      loadMem := op.Loads(), writeMem := !op.Loads(), memWriteback := !post, write16 := post)
  }

  function SingleStep<W>(bus: SingleTransfers.Bus<W>, op: SingleTransfers.Op, post: bool,
      word: Word): (Regs, W) -> Effect<W> {
    (x: Regs, w: W) =>
      if Holds(word / 0x1000_0000, bus.flags(w)) then
        var r := SingleTransfers.Transfer(bus, op, post, word, x, w);
        Effect(true, r.0, r.1)
      else Effect(false, x, w)
  }

  /** What a transfer does to the registers and to the rest depends on the base and, if it stores, on what it stores. */
  lemma SingleAgrees<W>(bus: SingleTransfers.Bus<W>, op: SingleTransfers.Op, post: bool, word: Word, x: Regs, y: Regs,
      w: W)
    requires x[Field(word, 16)] == y[Field(word, 16)] && (op.Loads() || x[Field(word, 12)] == y[Field(word, 12)])
    ensures var a, b := SingleTransfers.Transfer(bus, op, post, word, x, w),
              SingleTransfers.Transfer(bus, op, post, word, y, w);
            && a.1 == b.1
            && forall r: Reg ::
                 if (op.Loads() && r == Field(word, 12)) || ((post || Bit(word, 21)) && r == Field(word, 16))
                 then a.0[r] == b.0[r] else a.0[r] == x[r]
  {
    hide Bit, Field, SingleTransfers.Offset, SingleTransfers.Loaded;
  }

  lemma SingleRegisters(res: InstrInfo.Decoded, op: SingleTransfers.Op, post: bool, word: Word)
    requires InstrInfo.ArmRegisters(res, SingleEntry(op, post), word)
    ensures Field(word, 16) in res.src && (op.Loads() || Field(word, 12) in res.src)
    ensures forall r: Reg :: r in res.dst <==>
        (op.Loads() && r == Field(word, 12)) || ((post || Bit(word, 21)) && r == Field(word, 16))
  {
    hide Bit, Field;
  }

  lemma SingleExecuted<W>(bus: SingleTransfers.Bus<W>, op: SingleTransfers.Op, post: bool, word: Word, x: Regs, w: W)
    ensures SingleStep(bus, op, post, word)(x, w).executed <==> Holds(word / 0x1000_0000, bus.flags(w))
    ensures word / 0x1000_0000 >= 0xE ==> SingleStep(bus, op, post, word)(x, w).executed
  {
    var r := SingleTransfers.Transfer(bus, op, post, word, x, w);
    assert Holds(word / 0x1000_0000, bus.flags(w)) ==> SingleStep(bus, op, post, word)(x, w) == Effect(true, r.0, r.1);
  }

  /** Every such instruction obeys what is decoded of it. */
  lemma SingleObeys<W(!new)>(bus: SingleTransfers.Bus<W>, op: SingleTransfers.Op, post: bool, word: Word,
      res: InstrInfo.Decoded, pc: Word)
    requires InstrInfo.ArmRegisters(res, SingleEntry(op, post), word)
    ensures Obeys(SingleStep(bus, op, post, word), Instr(word / 0x1000_0000, pc, res.Registers({})), false)
  {
    hide Bit, Field, InstrInfo.ArmRegisters, SingleTransfers.Transfer;
    SingleRegisters(res, op, post, word);
    var step, info := SingleStep(bus, op, post, word), res.Registers({});
    assert info.Reads() == res.src && info.Writes() == res.dst;
    forall x: Regs, y: Regs, w: W | Agree(x, y, info.Reads())
      ensures step(x, w).executed == step(y, w).executed && step(x, w).world == step(y, w).world
      ensures step(x, w).executed ==> Agree(step(x, w).regs, step(y, w).regs, info.Writes())
    {
      SingleAgrees(bus, op, post, word, x, y, w);
    }
    forall x: Regs, w: W
      ensures Untouched(x, step(x, w).regs, if step(x, w).executed then info.Writes() else {})
    {
      SingleAgrees(bus, op, post, word, x, x, w);
    }
    forall x: Regs, w: W | word / 0x1000_0000 >= 0xE
      ensures step(x, w).executed
    {
      SingleExecuted(bus, op, post, word, x, w);
    }
  }

  // ---- Lists of registers --------------------------------------------------------------------

  /** All but the current registers. */
  datatype Rest = Rest(banks: Banks, cpsr: Word, mem: BlockTransfer.Memory)

  function FlagsOf(cpsr: Word): set<Flag> {
    (if Bit(cpsr, 31) then {FlagLiveness.N} else {}) + (if Bit(cpsr, 30) then {FlagLiveness.Z} else {})
    + (if Bit(cpsr, 29) then {FlagLiveness.C} else {}) + (if Bit(cpsr, 28) then {FlagLiveness.V} else {})
  }

  /** The fields of an LDM or STM. */
  function FieldsOf(word: Word): BlockTransfer.Instr {
    BlockTransfer.Instr(Field(word, 16), seq(16, k requires 0 <= k < 16 => Bit(word, k)), Bit(word, 24), Bit(word, 23),
      Bit(word, 22), Bit(word, 21))
  }

  function Whole(x: Regs, w: Rest): BlockTransfer.Machine { BlockTransfer.Machine(w.banks.(r := x), w.cpsr, w.mem) }

  function Split(m: BlockTransfer.Machine): (Regs, Rest)
    requires m.regs.Valid()
  {
    (m.regs.r, Rest(m.regs.(r := ZEROS), m.cpsr, m.mem))
  }

  function ListStep(load: bool, num: nat, word: Word): (Regs, Rest) -> Effect<Rest> {
    (x: Regs, w: Rest) =>
      if Holds(word / 0x1000_0000, FlagsOf(w.cpsr)) then
        var m, i := Whole(x, w), FieldsOf(word);
        var r := Split(if load then BlockTransfer.Ldm(m, i, num) else BlockTransfer.Stm(m, i, num));
        Effect(true, r.0, r.1)
      else Effect(false, x, w)
  }

  /** Of the registers LDM writes the listed ones and a base it writes back. */
  predicate LdmWrites(i: BlockTransfer.Instr, num: nat, r: Reg)
    requires i.Valid()
  {
    i.list[r] || (r == i.base && i.writeback)
  }

  lemma LdmAt(c: BlockTransfer.Machine, i: BlockTransfer.Instr, num: nat, r: Reg)
    requires c.regs.Valid() && i.Valid() && !i.s
    ensures var d, base := BlockTransfer.Ldm(c, i, num), c.regs.r[i.base];
            && d.regs == c.regs.(r := d.regs.r) && d.mem == c.mem
            && (!LdmWrites(i, num, r) ==> d.regs.r[r] == c.regs.r[r])
  {
    hide BlockTransfer.Slot, BlockTransfer.Load, BlockTransfer.LoadAll, BlockTransfer.Written, Ahead, Switched;
    BlockTransfer.LoadedAt(c.mem, c.regs.r, i, c.regs.r[i.base], 15, r);
  }

  /** And what it makes of them depends on the base and memory. */
  lemma LdmAgrees(c: BlockTransfer.Machine, d: BlockTransfer.Machine, i: BlockTransfer.Instr, num: nat)
    requires c.regs.Valid() && d.regs.Valid() && i.Valid() && !i.s
    requires d.cpsr == c.cpsr && d.mem == c.mem && d.regs.r[i.base] == c.regs.r[i.base]
    ensures var e, f := BlockTransfer.Ldm(c, i, num), BlockTransfer.Ldm(d, i, num);
            e.cpsr == f.cpsr && forall r: Reg | LdmWrites(i, num, r) :: e.regs.r[r] == f.regs.r[r]
  {
    hide BlockTransfer.Slot, BlockTransfer.Load, BlockTransfer.LoadAll, BlockTransfer.Written, Ahead, Switched;
    forall r: Reg | LdmWrites(i, num, r)
      ensures BlockTransfer.Ldm(c, i, num).regs.r[r] == BlockTransfer.Ldm(d, i, num).regs.r[r]
    {
      BlockTransfer.LoadedAt(c.mem, c.regs.r, i, c.regs.r[i.base], 15, r);
      BlockTransfer.LoadedAt(d.mem, d.regs.r, i, c.regs.r[i.base], 15, r);
    }
  }

  lemma {:induction false} StoredSame(m: BlockTransfer.Memory, v: seq<Word>, u: seq<Word>, i: BlockTransfer.Instr,
      base: int, n: nat)
    requires i.Valid() && |v| == |u| == 16 && n <= 16 && forall k | 0 <= k < n && i.list[k] :: v[k] == u[k]
    ensures BlockTransfer.StoreAll(m, v, i, base, n) == BlockTransfer.StoreAll(m, u, i, base, n)
  {
    hide BlockTransfer.Slot, BlockTransfer.Key;
    if n > 0 {
      StoredSame(m, v, u, i, base, n - 1);
    }
  }

  /** STM writes a base it writes back, and what it stores are the listed registers. */
  lemma StmAgrees(c: BlockTransfer.Machine, d: BlockTransfer.Machine, i: BlockTransfer.Instr, num: nat)
    requires c.regs.Valid() && d.regs.Valid() && i.Valid() && !i.s
    requires d.cpsr == c.cpsr && d.mem == c.mem && d.regs.r[i.base] == c.regs.r[i.base]
    requires forall k: Reg | i.list[k] :: d.regs.r[k] == c.regs.r[k]
    ensures var e, f := BlockTransfer.Stm(c, i, num), BlockTransfer.Stm(d, i, num);
            && e.cpsr == f.cpsr == c.cpsr && e.mem == f.mem && e.regs == c.regs.(r := e.regs.r)
            && e.regs.r[i.base] == f.regs.r[i.base]
            && forall r: Reg | r != i.base || !i.writeback :: e.regs.r[r] == c.regs.r[r]
  {
    hide BlockTransfer.StoreAll, BlockTransfer.Written, BlockTransfer.Slot, BlockTransfer.Banked;
    var base := c.regs.r[i.base];
    var r := if i.up then c.regs else BlockTransfer.WriteBack(c.regs, i, base);
    var q := if i.up then d.regs else BlockTransfer.WriteBack(d.regs, i, base);
    StoredSame(c.mem, BlockTransfer.StoredValues(c, i, r, num), BlockTransfer.StoredValues(d, i, q, num), i, base, 16);
  }

  const LDM_ENTRY := InstrInfo.NOP.(kind := InstrInfo.Ldm, read16 := true, memWriteback := true, loadMem := true)
  const STM_ENTRY := InstrInfo.NOP.(kind := InstrInfo.Stm, read16 := true, memWriteback := true, writeMem := true)

  lemma ListRegisters(res: InstrInfo.Decoded, load: bool, word: Word)
    requires InstrInfo.ArmRegisters(res, if load then LDM_ENTRY else STM_ENTRY, word) && !FieldsOf(word).s
    ensures var i := FieldsOf(word);
            && i.Valid() && i.base in res.src
            && forall r: Reg :: (r in res.src <==> r == i.base || (!load && i.list[r]))
                 && (r in res.dst <==> (load && i.list[r]) || (r == i.base && i.writeback))
  {
    hide Bit, Field;
    forall r: Reg
      ensures r in InstrInfo.List(word, 16) <==> Bit(word, r)
    {
    }
  }

  /** Every LDM and STM without the S bit obeys what is decoded of it, r15 in the list or not. */
  lemma ListObeys(load: bool, num: nat, word: Word, res: InstrInfo.Decoded, pc: Word)
    requires InstrInfo.ArmRegisters(res, if load then LDM_ENTRY else STM_ENTRY, word) && !FieldsOf(word).s
    ensures Obeys(ListStep(load, num, word), Instr(word / 0x1000_0000, pc, res.Registers({})), false)
  {
    hide InstrInfo.ArmRegisters, BlockTransfer.Ldm, BlockTransfer.Stm, FieldsOf, FlagsOf;
    ListRegisters(res, load, word);
    var step, info, i := ListStep(load, num, word), res.Registers({}), FieldsOf(word);
    assert info.Reads() == res.src && info.Writes() == res.dst;
    forall x: Regs, y: Regs, w: Rest | Agree(x, y, info.Reads())
      ensures step(x, w).executed == step(y, w).executed && step(x, w).world == step(y, w).world
      ensures step(x, w).executed ==> Agree(step(x, w).regs, step(y, w).regs, info.Writes())
      ensures Untouched(x, step(x, w).regs, if step(x, w).executed then info.Writes() else {})
    {
      if load {
        LdmStep(x, y, w, i, num);
      } else {
        StmAgrees(Whole(x, w), Whole(y, w), i, num);
        StmAgrees(Whole(y, w), Whole(x, w), i, num);
      }
    }
    forall x: Regs, w: Rest
      ensures Untouched(x, step(x, w).regs, if step(x, w).executed then info.Writes() else {})
      ensures word / 0x1000_0000 >= 0xE ==> step(x, w).executed
    {
      assert Agree(x, x, info.Reads());
      ListExecuted(load, num, word, x, w);
    }
  }

  lemma ListExecuted(load: bool, num: nat, word: Word, x: Regs, w: Rest)
    ensures ListStep(load, num, word)(x, w).executed <==> Holds(word / 0x1000_0000, FlagsOf(w.cpsr))
    ensures word / 0x1000_0000 >= 0xE ==> ListStep(load, num, word)(x, w).executed
  {
    var m, i := Whole(x, w), FieldsOf(word);
    var r := Split(if load then BlockTransfer.Ldm(m, i, num) else BlockTransfer.Stm(m, i, num));
    assert Holds(word / 0x1000_0000, FlagsOf(w.cpsr)) ==> ListStep(load, num, word)(x, w) == Effect(true, r.0, r.1);
  }

  lemma LdmStep(x: Regs, y: Regs, w: Rest, i: BlockTransfer.Instr, num: nat)
    requires i.Valid() && !i.s && x[i.base] == y[i.base]
    ensures var a, b := Split(BlockTransfer.Ldm(Whole(x, w), i, num)), Split(BlockTransfer.Ldm(Whole(y, w), i, num));
            && a.1 == b.1
            && forall r: Reg :: if LdmWrites(i, num, r) then a.0[r] == b.0[r] else a.0[r] == x[r]
  {
    hide BlockTransfer.Ldm;
    LdmAgrees(Whole(x, w), Whole(y, w), i, num);
    forall r: Reg
      ensures var a := BlockTransfer.Ldm(Whole(x, w), i, num); !LdmWrites(i, num, r) ==> a.regs.r[r] == x[r]
    {
      LdmAt(Whole(x, w), i, num, r);
    }
    LdmAt(Whole(x, w), i, num, 0);
    LdmAt(Whole(y, w), i, num, 0);
  }
}
