/** What decoding promises of the registers of Thumb instructions. */
module DecodedThumb {
  import opened MachineWords
  import opened EmittedCode
  import opened RegisterBanks
  import opened InstrInfo
  import opened DecodedOperands
  import opened DecodedTransfers
  import BlockTransfer

  // ---- By their operands ---------------------------------------------------------------------

  const NOTHING := ThumbEntry(ThumbOther, false, false, false, false, false, false, false, false, false, false, false,
    false, false, false, false, false, false, false, false, false, false)

  /** Shifts and other operations of one register; of two and of three; with an immediate of eight bits; on the high
      registers; on the stack pointer; loads and stores; branches. A compared register is not written. */
  datatype Class = Unary | Binary | Compare | Ternary | SetTo | AddTo | CompareTo | AddHigh | CompareHigh | MoveHigh
    | FromPc | FromStack | MoveStack | LoadFrom | StoreFrom | LoadAt | StoreAt | LoadStack | StoreStack | Jump | JumpTo
    | CallTo | CallFirst | CallSecond

  function EntryOf(c: Class): ThumbEntry {
    match c
    case Unary => NOTHING.(write0 := true, read3 := true)
    case Binary => NOTHING.(write0 := true, read0 := true, read3 := true)
    case Compare => NOTHING.(read0 := true, read3 := true)
    case Ternary => NOTHING.(write0 := true, read3 := true, read6 := true)
    case SetTo => NOTHING.(write8 := true)
    case AddTo => NOTHING.(write8 := true, read8 := true)
    case CompareTo => NOTHING.(read8 := true)
    case AddHigh => NOTHING.(writeHi0 := true, readHi0 := true, readHi3 := true)
    case CompareHigh => NOTHING.(readHi0 := true, readHi3 := true)
    case MoveHigh => NOTHING.(writeHi0 := true, readHi3 := true)
    case FromPc => NOTHING.(write8 := true, loadMem := true, kind := ThumbLoadPc)
    case FromStack => NOTHING.(write8 := true, readR13 := true)
    case MoveStack => NOTHING.(writeR13 := true, readR13 := true)
    case LoadFrom => NOTHING.(write0 := true, read3 := true, read6 := true, loadMem := true)
    case StoreFrom => NOTHING.(read0 := true, read3 := true, read6 := true, writeMem := true)
    case LoadAt => NOTHING.(write0 := true, read3 := true, loadMem := true)
    case StoreAt => NOTHING.(read0 := true, read3 := true, writeMem := true)
    case LoadStack => NOTHING.(write8 := true, readR13 := true, loadMem := true)
    case StoreStack => NOTHING.(read8 := true, readR13 := true, writeMem := true)
    case Jump => NOTHING.(branchAlways := true)
    case JumpTo => NOTHING.(branchAlways := true, readHi3 := true)
    case CallTo => NOTHING.(branchAlways := true, writeR14 := true, readHi3 := true)
    case CallFirst => NOTHING.(writeR14 := true)
    case CallSecond => NOTHING.(branchAlways := true, readR14 := true, writeR14 := true)
  }

  /** The three bits from `k` on. */
  function Three(word: Word, k: nat): Reg { word / Pow2(k) % 8 }

  /** The low three bits, with bit 7 on top. */
  function Four(word: Word): Reg { word % 8 + if word / 0x80 % 2 == 1 then 8 else 0 }

  /** Where the interpreter takes the operands from. A literal's address is that of r15, which is an operand only if
      literals are not folded. */
  function OperandsOf(c: Class, word: Word, literals: bool): seq<Reg> {
    match c
    case Unary => [Three(word, 3)]
    case Binary => [Three(word, 0), Three(word, 3)]
    case Compare => [Three(word, 0), Three(word, 3)]
    case Ternary => [Three(word, 3), Three(word, 6)]
    case SetTo => []
    case AddTo => [Three(word, 8)]
    case CompareTo => [Three(word, 8)]
    case AddHigh => [Four(word), In(word, 3)]
    case CompareHigh => [Four(word), In(word, 3)]
    case MoveHigh => [In(word, 3)]
    case FromPc => if literals then [] else [15]
    case FromStack => [13]
    case MoveStack => [13]
    case LoadFrom => [Three(word, 3), Three(word, 6)]
    case StoreFrom => [Three(word, 3), Three(word, 6), Three(word, 0)]
    case LoadAt => [Three(word, 3)]
    case StoreAt => [Three(word, 3), Three(word, 0)]
    case LoadStack => [13]
    case StoreStack => [13, Three(word, 8)]
    case Jump => []
    case JumpTo => [In(word, 3)]
    case CallTo => [In(word, 3)]
    case CallFirst => []
    case CallSecond => [14]
  }

  function ResultsOf(c: Class, word: Word): seq<Reg> {
    match c
    case Unary => [Three(word, 0)]
    case Binary => [Three(word, 0)]
    case Compare => []
    case Ternary => [Three(word, 0)]
    case SetTo => [Three(word, 8)]
    case AddTo => [Three(word, 8)]
    case CompareTo => []
    case AddHigh => [Four(word)]
    case CompareHigh => []
    case MoveHigh => [Four(word)]
    case FromPc => [Three(word, 8)]
    case FromStack => [Three(word, 8)]
    case MoveStack => [13]
    case LoadFrom => [Three(word, 0)]
    case StoreFrom => []
    case LoadAt => [Three(word, 0)]
    case StoreAt => []
    case LoadStack => [Three(word, 8)]
    case StoreStack => []
    case Jump => [15]
    case JumpTo => [15]
    case CallTo => [15, 14]
    case CallFirst => [14]
    case CallSecond => [15, 14]
  }

  predicate Reads(d: ThumbEntry, word: Word, literals: bool, r: Reg) {
    (d.read0 && r == Three(word, 0)) || (d.read3 && r == Three(word, 3)) || (d.read6 && r == Three(word, 6))
      || (d.read8 && r == Three(word, 8)) || (d.readHi0 && r == Four(word)) || (d.readHi3 && r == In(word, 3))
      || (d.readR13 && r == 13) || (d.readR14 && r == 14)
      || (d.loadMem && d.kind.ThumbLoadPc? && !literals && r == 15)
  }

  predicate Gives(d: ThumbEntry, word: Word, r: Reg) {
    (d.write0 && r == Three(word, 0)) || (d.write8 && r == Three(word, 8)) || (d.writeHi0 && r == Four(word))
      || (d.writeR13 && r == 13) || (d.writeR14 && r == 14) || (d.branchAlways && r == 15)
  }

  predicate Plain(d: ThumbEntry) { d.kind.ThumbOther? || d.kind.ThumbLoadPc? }

  lemma EntriesPlain(c: Class)
    ensures Plain(EntryOf(c))
  {
  }

  lemma FieldNames(word: Word, k: nat)
    ensures Low(word, k) == Three(word, k) && High(word) == Four(word) && Field(word, k) == In(word, k)
  {
    hide Pow2;
  }

  lemma ReadIs(d: ThumbEntry, word: Word, literals: bool, r: Reg)
    ensures r in ThumbRead(d, word, literals) <==> Reads(d, word, literals, r)
  {
    hide If, Low, High, Field, Three, Four, In;
    FieldNames(word, 0);
    FieldNames(word, 3);
    FieldNames(word, 6);
    FieldNames(word, 8);
    IfOne(d.read0, Three(word, 0), r);
    IfOne(d.read3, Three(word, 3), r);
    IfOne(d.read6, Three(word, 6), r);
    IfOne(d.read8, Three(word, 8), r);
    IfOne(d.readHi0, Four(word), r);
    IfOne(d.readHi3, In(word, 3), r);
    IfOne(d.readR13, 13, r);
    IfOne(d.readR14, 14, r);
    IfOne(d.loadMem && d.kind.ThumbLoadPc? && !literals, 15, r);
  }

  lemma IfOne(b: bool, x: Reg, r: Reg)
    ensures r in If(b, {x}) <==> b && r == x
  {
  }

  lemma WrittenIs(d: ThumbEntry, word: Word, r: Reg)
    requires !d.kind.ThumbPop?
    ensures r in ThumbWritten(d, word) <==> Gives(d, word, r)
  {
    hide Low, High, Field, Three, Four, In, Bit;
    FieldNames(word, 0);
    FieldNames(word, 8);
  }

  lemma SourcesAre(res: Decoded, d: ThumbEntry, word: Word, literals: bool, r: Reg)
    requires ThumbDecoded(res, d, word, literals) && Plain(d)
    ensures r in res.src <==> Reads(d, word, literals, r)
  {
    hide Reads, ThumbRead, ThumbWritten, ThumbList, IfFlags, FlagsReadPerCond;
    ReadIs(d, word, literals, r);
  }

  lemma DestinationsAre(res: Decoded, d: ThumbEntry, word: Word, literals: bool, r: Reg)
    requires ThumbDecoded(res, d, word, literals) && Plain(d)
    ensures r in res.dst <==> Gives(d, word, r)
  {
    hide Gives, ThumbRead, ThumbWritten, ThumbList, IfFlags, FlagsReadPerCond;
    WrittenIs(d, word, r);
  }

  lemma OperandIs(c: Class, word: Word, literals: bool, r: Reg)
    ensures r in OperandsOf(c, word, literals) <==> Reads(EntryOf(c), word, literals, r)
  {
    hide Three, Four, In;
  }

  lemma ResultIs(c: Class, word: Word, r: Reg)
    ensures r in ResultsOf(c, word) <==> Gives(EntryOf(c), word, r)
  {
    hide Three, Four, In;
  }

  lemma RegistersAre(res: Decoded, c: Class, word: Word, literals: bool)
    requires ThumbDecoded(res, EntryOf(c), word, literals)
    ensures forall r: Reg :: r in OperandsOf(c, word, literals) <==> r in res.src
    ensures forall r: Reg :: r in ResultsOf(c, word) <==> r in res.dst
  {
    hide *;
    EntriesPlain(c);
    forall r: Reg
      ensures r in OperandsOf(c, word, literals) <==> r in res.src
      ensures r in ResultsOf(c, word) <==> r in res.dst
    {
      SourcesAre(res, EntryOf(c), word, literals, r);
      DestinationsAre(res, EntryOf(c), word, literals, r);
      OperandIs(c, word, literals, r);
      ResultIs(c, word, r);
    }
  }

  /** Whatever it computes, every such instruction obeys what is decoded of it. */
  lemma ThumbObeys<W(!new)>(f: Operation<W>, res: Decoded, c: Class, word: Word, literals: bool, cond: nat, pc: Word)
    requires ThumbDecoded(res, EntryOf(c), word, literals)
    ensures Obeys(StepOf(f, OperandsOf(c, word, literals), ResultsOf(c, word), (w: W) => true),
        EmittedCode.Instr(cond, pc, res.Registers({})), true)
  {
    hide EntryOf, OperandsOf, ResultsOf, ThumbDecoded, Obeys;
    RegistersAre(res, c, word, literals);
    OperandsObey(f, OperandsOf(c, word, literals), ResultsOf(c, word), (w: W) => true, true,
      EmittedCode.Instr(cond, pc, res.Registers({})));
  }

  // ---- Lists of registers --------------------------------------------------------------------

  /** PUSH and POP, STMIA and LDMIA. */
  datatype Transfer = Push | Pop | StoreUp | LoadUp

  function TransferEntry(t: Transfer): ThumbEntry {
    match t
    case Push => NOTHING.(kind := ThumbPush, readR13 := true, writeR13 := true, writeMem := true)
    case Pop => NOTHING.(kind := ThumbPop, readR13 := true, writeR13 := true, loadMem := true)
    case StoreUp => NOTHING.(kind := ThumbStoreList, read8 := true, write8 := true, writeMem := true)
    case LoadUp => NOTHING.(kind := ThumbLoadList, read8 := true, write8 := true, loadMem := true)
  }

  /** As block transfers: PUSH stores downwards, r14 with bit 8, and POP loads upwards, r15 with bit 8. LDMIA writes a
      base that is listed back on neither CPU. */
  function FieldsOf(t: Transfer, word: Word): (i: BlockTransfer.Instr)
    ensures i.Valid() && !i.s
  {
    var base := if t.Push? || t.Pop? then 13 else Three(word, 8);
    var top := if t.Push? then 14 else if t.Pop? then 15 else 16;
    var list := seq(16, k requires 0 <= k < 16 => if k < 8 then Bit(word, k) else k == top && Bit(word, 8));
    BlockTransfer.Instr(base, list, t.Push?, !t.Push?, false, !(t.LoadUp? && list[base]))
  }

  /** The ARM7 stays in Thumb state whatever POP loads into r15. */
  function Popped(m: BlockTransfer.Machine, i: BlockTransfer.Instr): (d: BlockTransfer.Machine)
    requires m.regs.Valid() && i.Valid()
    ensures d.regs.Valid()
  {
    var d := BlockTransfer.Ldm(m, i, 0);
    var pc := BlockTransfer.Load(m.mem, BlockTransfer.Slot(i, m.regs.r[i.base], BlockTransfer.Count(i.list, 15)));
    var c := RegisterBanks.JumpTo(Cpu(d.regs, m.cpsr), if pc % 2 == 1 then pc else pc + 1, false);
    BlockTransfer.Machine(c.regs, c.cpsr, d.mem)
  }

  function TransferStep(t: Transfer, num: nat, word: Word): (Regs, Rest) -> Effect<Rest> {
    (x: Regs, w: Rest) =>
      var m, i := Whole(x, w), FieldsOf(t, word);
      var d :=
        if t.Push? || t.StoreUp? then BlockTransfer.Stm(m, i, 0)
        else if i.list[15] && num == 1 then Popped(m, i)
        else BlockTransfer.Ldm(m, i, 0);
      Effect(true, Split(d).0, Split(d).1)
  }

  lemma ListedAt(t: Transfer, word: Word, r: Reg)
    ensures FieldsOf(t, word).list[r]
        <==> r in List(word, 8) || (Bit(word, 8) && ((t.Push? && r == 14) || (t.Pop? && r == 15)))
  {
    hide Bit, Three;
  }

  lemma TransferSources(res: Decoded, t: Transfer, word: Word, literals: bool, r: Reg)
    requires ThumbDecoded(res, TransferEntry(t), word, literals)
    ensures r in res.src <==>
        r == FieldsOf(t, word).base || ((t.Push? || t.StoreUp?) && FieldsOf(t, word).list[r])
  {
    hide Bit, List, IfFlags, FieldsOf, ThumbWritten;
    ListedAt(t, word, r);
    BaseIs(t, word);
    match t
    case Push => assert ThumbRead(TransferEntry(t), word, literals) == {13};
    case Pop => assert ThumbRead(TransferEntry(t), word, literals) == {13};
    case StoreUp => assert ThumbRead(TransferEntry(t), word, literals) == {Low(word, 8)};
    case LoadUp => assert ThumbRead(TransferEntry(t), word, literals) == {Low(word, 8)};
  }

  lemma BaseIs(t: Transfer, word: Word)
    ensures FieldsOf(t, word).base == if t.Push? || t.Pop? then 13 else Low(word, 8)
  {
    hide Bit;
  }

  lemma TransferTargets(res: Decoded, t: Transfer, word: Word, literals: bool, r: Reg)
    requires ThumbDecoded(res, TransferEntry(t), word, literals)
    ensures r in res.dst <==> ((t.Pop? || t.LoadUp?) && FieldsOf(t, word).list[r]) || r == FieldsOf(t, word).base
  {
    hide Bit, List, IfFlags, FieldsOf, ThumbRead;
    ListedAt(t, word, r);
    BaseIs(t, word);
    match t
    case Push => assert ThumbWritten(TransferEntry(t), word) == {13};
    case Pop => assert ThumbWritten(TransferEntry(t), word) == {13} + If(Bit(word, 8), {15});
    case StoreUp => assert ThumbWritten(TransferEntry(t), word) == {Low(word, 8)};
    case LoadUp => assert ThumbWritten(TransferEntry(t), word) == {Low(word, 8)};
  }

  /** Register `r` is a source if it is the base or stored, and a destination if it is the base or loaded. */
  predicate MovedAs(res: Decoded, t: Transfer, i: BlockTransfer.Instr, r: Reg)
    requires i.Valid()
  {
    && (r in res.src <==> r == i.base || ((t.Push? || t.StoreUp?) && i.list[r]))
    && (r in res.dst <==> ((t.Pop? || t.LoadUp?) && i.list[r]) || r == i.base)
  }

  lemma TransferRegisters(res: Decoded, t: Transfer, word: Word, literals: bool)
    requires ThumbDecoded(res, TransferEntry(t), word, literals)
    ensures forall r: Reg :: MovedAs(res, t, FieldsOf(t, word), r)
  {
    hide *;
    forall r: Reg
      ensures MovedAs(res, t, FieldsOf(t, word), r)
    {
      TransferRegister(res, t, word, literals, r);
    }
  }

  lemma TransferRegister(res: Decoded, t: Transfer, word: Word, literals: bool, r: Reg)
    requires ThumbDecoded(res, TransferEntry(t), word, literals)
    ensures MovedAs(res, t, FieldsOf(t, word), r)
  {
    hide ThumbDecoded, TransferEntry, FieldsOf;
    TransferSources(res, t, word, literals, r);
    TransferTargets(res, t, word, literals, r);
  }

  lemma PoppedStep(x: Regs, y: Regs, w: Rest, i: BlockTransfer.Instr)
    requires i.Valid() && !i.s && i.list[15] && x[i.base] == y[i.base]
    ensures var a, b := Split(Popped(Whole(x, w), i)), Split(Popped(Whole(y, w), i));
            && a.1 == b.1
            && forall r: Reg :: if LdmWrites(i, 0, r) then a.0[r] == b.0[r] else a.0[r] == x[r]
  {
    hide BlockTransfer.Ldm, BlockTransfer.Slot, BlockTransfer.Load, Ahead;
    LdmStep(x, y, w, i, 0);
    LdmAt(Whole(x, w), i, 0, 0);
    LdmAt(Whole(y, w), i, 0, 0);
  }

  /** The list transfers obey what is decoded of them. */
  lemma TransferObeys(res: Decoded, t: Transfer, num: nat, word: Word, literals: bool, cond: nat, pc: Word)
    requires ThumbDecoded(res, TransferEntry(t), word, literals)
    ensures Obeys(TransferStep(t, num, word), EmittedCode.Instr(cond, pc, res.Registers({})), true)
  {
    hide ThumbDecoded, TransferEntry, BlockTransfer.Ldm, BlockTransfer.Stm, Popped, Split, Whole;
    TransferRegisters(res, t, word, literals);
    var step, info, i := TransferStep(t, num, word), res.Registers({}), FieldsOf(t, word);
    assert MovedAs(res, t, i, i.base);
    assert forall r: Reg | i.list[r] :: MovedAs(res, t, i, r);
    assert forall r: Reg | r in res.dst :: MovedAs(res, t, i, r);
    assert info.Reads() == res.src && info.Writes() == res.dst;
    forall x: Regs, y: Regs, w: Rest | Agree(x, y, info.Reads())
      ensures step(x, w).world == step(y, w).world && Agree(step(x, w).regs, step(y, w).regs, info.Writes())
      ensures Untouched(x, step(x, w).regs, info.Writes())
    {
      TransferIs(t, num, word, x, w);
      TransferIs(t, num, word, y, w);
      if t.Push? || t.StoreUp? {
        StmStep(x, y, w, i);
      } else if i.list[15] && num == 1 {
        PoppedStep(x, y, w, i);
      } else {
        LdmStep(x, y, w, i, 0);
      }
    }
    forall x: Regs, w: Rest
      ensures step(x, w).executed && Untouched(x, step(x, w).regs, info.Writes())
    {
      assert Agree(x, x, info.Reads());
      assert step(x, w).world == step(x, w).world;
      TransferIs(t, num, word, x, w);
    }
  }

  lemma StmStep(x: Regs, y: Regs, w: Rest, i: BlockTransfer.Instr)
    requires i.Valid() && !i.s && x[i.base] == y[i.base] && forall r: Reg | i.list[r] :: x[r] == y[r]
    ensures var a, b := Split(BlockTransfer.Stm(Whole(x, w), i, 0)), Split(BlockTransfer.Stm(Whole(y, w), i, 0));
            && a.1 == b.1 && a.0[i.base] == b.0[i.base]
            && forall r: Reg | r != i.base :: a.0[r] == x[r]
  {
    hide BlockTransfer.Stm;
    StmAgrees(Whole(x, w), Whole(y, w), i, 0);
    StmAgrees(Whole(y, w), Whole(x, w), i, 0);
  }

  lemma TransferIs(t: Transfer, num: nat, word: Word, x: Regs, w: Rest)
    ensures var m, i, e := Whole(x, w), FieldsOf(t, word), TransferStep(t, num, word)(x, w);
            var d :=
              if t.Push? || t.StoreUp? then BlockTransfer.Stm(m, i, 0)
              else if i.list[15] && num == 1 then Popped(m, i)
              else BlockTransfer.Ldm(m, i, 0);
            e == Effect(true, Split(d).0, Split(d).1)
  {
    hide BlockTransfer.Ldm, BlockTransfer.Stm, Popped, FieldsOf;
  }
}
