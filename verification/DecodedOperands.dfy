/**
 What decoding promises of the registers of other instructions: which registers the interpreter takes its operands from
 and puts its results into, for each kind of entry, and that the instruction then reads and writes no others.
 */
module DecodedOperands {
  import opened MachineWords
  import opened EmittedCode
  import opened InstrInfo

  // ---- Instructions by their operands --------------------------------------------------------

  /** From the values of the operands to the values of the results. */
  type Operation<!W> = (seq<Word>, W) -> (seq<Word>, W)

  function Values(x: Regs, sources: seq<Reg>): seq<Word> {
    seq(|sources|, k requires 0 <= k < |sources| => x[sources[k]])
  }

  function ValueAt(values: seq<Word>, k: nat): Word { if k < |values| then values[k] else 0 }

  function Put(x: Regs, targets: seq<Reg>, values: seq<Word>): Regs {
    if targets == [] then x
    else Put(x, targets[..|targets| - 1], values)[targets[|targets| - 1] := ValueAt(values, |targets| - 1)]
  }

  lemma {:induction false} PutAt(x: Regs, y: Regs, targets: seq<Reg>, values: seq<Word>, r: Reg)
    ensures r in targets ==> Put(x, targets, values)[r] == Put(y, targets, values)[r]
    ensures r !in targets ==> Put(x, targets, values)[r] == x[r]
  {
    if targets != [] {
      var n := |targets| - 1;
      PutAt(x, y, targets[..n], values, r);
      assert targets == targets[..n] + [targets[n]];
    }
  }

  /** An instruction that is carried out if `holds`. */
  function StepOf<W>(f: Operation<W>, sources: seq<Reg>, targets: seq<Reg>, holds: W -> bool): (Regs, W) -> Effect<W> {
    (x: Regs, w: W) =>
      if holds(w) then Effect(true, Put(x, targets, f(Values(x, sources), w).0), f(Values(x, sources), w).1)
      else Effect(false, x, w)
  }

  lemma StepIs<W>(f: Operation<W>, sources: seq<Reg>, targets: seq<Reg>, holds: W -> bool, x: Regs, w: W)
    ensures var e := StepOf(f, sources, targets, holds)(x, w);
            && (e.executed <==> holds(w))
            && e.regs == (if holds(w) then Put(x, targets, f(Values(x, sources), w).0) else x)
            && e.world == if holds(w) then f(Values(x, sources), w).1 else w
  {
    var e := Effect(true, Put(x, targets, f(Values(x, sources), w).0), f(Values(x, sources), w).1);
    assert holds(w) ==> StepOf(f, sources, targets, holds)(x, w) == e;
  }

  /** If sources and destinations are the registers of the operands and of the results, it obeys what is decoded. */
  lemma OperandsObey<W(!new)>(f: Operation<W>, sources: seq<Reg>, targets: seq<Reg>, holds: W -> bool, thumb: bool,
      instr: Instr)
    requires instr.info.banked == {} && (Always(thumb, instr) ==> forall w :: holds(w))
    requires forall r: Reg :: (r in sources <==> r in instr.info.src) && (r in targets <==> r in instr.info.dst)
    ensures Obeys(StepOf(f, sources, targets, holds), instr, thumb)
  {
    hide Put;
    var step := StepOf(f, sources, targets, holds);
    forall x: Regs, y: Regs, w: W | Agree(x, y, instr.info.Reads())
      ensures step(x, w).executed == step(y, w).executed && step(x, w).world == step(y, w).world
      ensures step(x, w).executed ==> Agree(step(x, w).regs, step(y, w).regs, instr.info.Writes())
    {
      StepIs(f, sources, targets, holds, x, w);
      StepIs(f, sources, targets, holds, y, w);
      assert Values(x, sources) == Values(y, sources);
      forall r | r in targets
        ensures holds(w) ==> step(x, w).regs[r] == step(y, w).regs[r]
      {
        PutAt(x, y, targets, f(Values(x, sources), w).0, r);
      }
    }
    forall x: Regs, w: W
      ensures Untouched(x, step(x, w).regs, if step(x, w).executed then instr.info.Writes() else {})
      ensures holds(w) ==> step(x, w).executed
    {
      StepIs(f, sources, targets, holds, x, w);
      forall r: Reg | r !in targets
        ensures step(x, w).regs[r] == x[r]
      {
        PutAt(x, x, targets, f(Values(x, sources), w).0, r);
      }
    }
  }

  // ---- ARM -----------------------------------------------------------------------------------

  /** Data processing with an immediate, a register shifted by an amount, or one shifted by a register, with a result
      or as a test; multiplications; swaps; branches; and loads and stores of one or two words with a register
      offset. */
  datatype Class = Alu(shift: Shift) | Move(shift: Shift) | Test(shift: Shift) | Mul | Mla | Mull | Mlal | Clz
    | Saturate | Swap | Branch | BranchLink | BranchTo | BranchLinkTo | LoadBy | StoreBy | LoadTwo | StoreTwo

  datatype Shift = Immediate | ByAmount | ByRegister

  function ShiftEntry(shift: Shift): ArmEntry {
    var other := NOP.(kind := Kind.Other);
    match shift
    case Immediate => other
    case ByAmount => other.(read0 := true)
    case ByRegister => other.(read0 := true, read8 := true)
  }

  /** The registers of the entry of each, as in the table. */
  function EntryOf(c: Class): ArmEntry {
    var other := NOP.(kind := Kind.Other);
    match c
    case Alu(shift) => ShiftEntry(shift).(read16 := true, write12 := true)
    case Move(shift) => ShiftEntry(shift).(write12 := true)
    case Test(shift) => ShiftEntry(shift).(read16 := true)
    case Mul => other.(write16 := true, read0 := true, read8 := true)
    case Mla => other.(write16 := true, read0 := true, read8 := true, read12 := true)
    case Mull => other.(write16 := true, write12 := true, read0 := true, read8 := true)
    case Mlal => other.(write16 := true, write12 := true, read16 := true, read12 := true, read0 := true, read8 := true)
    case Clz => other.(write12 := true, read0 := true)
    case Saturate => other.(write12 := true, read0 := true, read16 := true)
    case Swap => other.(write12 := true, read16 := true, read0 := true, loadMem := true, writeMem := true)
    case Branch => other.(branchAlways := true)
    case BranchLink => other.(branchAlways := true, link := true)
    case BranchTo => other.(branchAlways := true, read0 := true)
    case BranchLinkTo => other.(branchAlways := true, link := true, read0 := true)
    case LoadBy => other.(write12 := true, loadMem := true, read16 := true, write16 := true, read0 := true)
    case StoreBy => other.(read12 := true, writeMem := true, read16 := true, write16 := true, read0 := true)
    case LoadTwo => other.(write12Double := true, loadMem := true, read16 := true, write16 := true)
    case StoreTwo => other.(read12Double := true, writeMem := true, read16 := true, write16 := true)
  }

  /** The register in the field at bit `k`, and the one after it. */
  function In(word: Word, k: nat): Reg { word / Pow2(k) % 16 }

  function After(word: Word, k: nat): Reg { if In(word, k) == 15 then 15 else In(word, k) + 1 }

  function ShiftReads(shift: Shift, word: Word): seq<Reg> {
    match shift
    case Immediate => []
    case ByAmount => [In(word, 0)]
    case ByRegister => [In(word, 0), In(word, 8)]
  }

  /** Where the interpreter takes the operands from ... */
  function OperandsOf(c: Class, word: Word): seq<Reg> {
    match c
    case Alu(shift) => [In(word, 16)] + ShiftReads(shift, word)
    case Move(shift) => ShiftReads(shift, word)
    case Test(shift) => [In(word, 16)] + ShiftReads(shift, word)
    case Mul => [In(word, 0), In(word, 8)]
    case Mla => [In(word, 0), In(word, 8), In(word, 12)]
    case Mull => [In(word, 0), In(word, 8)]
    case Mlal => [In(word, 0), In(word, 8), In(word, 12), In(word, 16)]
    case Clz => [In(word, 0)]
    case Saturate => [In(word, 0), In(word, 16)]
    case Swap => [In(word, 16), In(word, 0)]
    case Branch => []
    case BranchLink => []
    case BranchTo => [In(word, 0)]
    case BranchLinkTo => [In(word, 0)]
    case LoadBy => [In(word, 0), In(word, 16)]
    case StoreBy => [In(word, 0), In(word, 16), In(word, 12)]
    case LoadTwo => [In(word, 16)]
    case StoreTwo => [In(word, 16), In(word, 12), After(word, 12)]
  }

  /** ... and puts the results. The transfers are post-indexed. */
  function ResultsOf(c: Class, word: Word): seq<Reg> {
    match c
    case Alu(_) => [In(word, 12)]
    case Move(_) => [In(word, 12)]
    case Test(_) => []
    case Mul => [In(word, 16)]
    case Mla => [In(word, 16)]
    case Mull => [In(word, 12), In(word, 16)]
    case Mlal => [In(word, 12), In(word, 16)]
    case Clz => [In(word, 12)]
    case Saturate => [In(word, 12)]
    case Swap => [In(word, 12)]
    case Branch => [15]
    case BranchLink => [14, 15]
    case BranchTo => [15]
    case BranchLinkTo => [15, 14]
    case LoadBy => [In(word, 16), In(word, 12)]
    case StoreBy => [In(word, 16)]
    case LoadTwo => [In(word, 16), In(word, 12), After(word, 12)]
    case StoreTwo => [In(word, 16)]
  }

  predicate Reads(d: ArmEntry, word: Word, r: Reg) {
    (d.read0 && r == In(word, 0)) || (d.read8 && r == In(word, 8)) || (d.read12 && r == In(word, 12))
      || (d.read16 && r == In(word, 16)) || (d.read12Double && (r == In(word, 12) || r == After(word, 12)))
  }

  predicate Gives(d: ArmEntry, word: Word, r: Reg) {
    (d.write12 && r == In(word, 12)) || (d.write16 && r == In(word, 16)) || (d.branchAlways && r == 15)
      || (d.link && r == 14) || (d.write12Double && (r == In(word, 12) || r == After(word, 12)))
  }

  lemma EntriesPlain(c: Class)
    ensures EntryOf(c).kind.Other? && !EntryOf(c).memWriteback
  {
  }

  lemma PairIs(word: Word)
    ensures Pair(Field(word, 12)) == {In(word, 12), After(word, 12)}
  {
  }

  lemma SourcesAre(res: Decoded, d: ArmEntry, word: Word, r: Reg)
    requires ArmRegisters(res, d, word) && d.kind.Other?
    ensures r in res.src <==> Reads(d, word, r)
  {
    hide Pow2, Pair, List, FieldsWritten;
    PairIs(word);
  }

  lemma DestinationsAre(res: Decoded, d: ArmEntry, word: Word, r: Reg)
    requires ArmRegisters(res, d, word) && d.kind.Other? && !d.memWriteback
    ensures r in res.dst <==> Gives(d, word, r)
  {
    hide Pow2, Pair, List, FieldsRead;
    PairIs(word);
  }

  lemma OperandIs(c: Class, word: Word, r: Reg)
    ensures r in OperandsOf(c, word) <==> Reads(EntryOf(c), word, r)
  {
    hide In, After;
  }

  lemma ResultIs(c: Class, word: Word, r: Reg)
    ensures r in ResultsOf(c, word) <==> Gives(EntryOf(c), word, r)
  {
    hide In, After;
  }

  lemma RegistersAre(res: Decoded, c: Class, word: Word)
    requires ArmRegisters(res, EntryOf(c), word)
    ensures forall r: Reg :: r in OperandsOf(c, word) <==> r in res.src
    ensures forall r: Reg :: r in ResultsOf(c, word) <==> r in res.dst
  {
    hide *;
    EntriesPlain(c);
    forall r: Reg
      ensures r in OperandsOf(c, word) <==> r in res.src
      ensures r in ResultsOf(c, word) <==> r in res.dst
    {
      SourcesAre(res, EntryOf(c), word, r);
      DestinationsAre(res, EntryOf(c), word, r);
      OperandIs(c, word, r);
      ResultIs(c, word, r);
    }
  }

  /** Whatever it computes, every such instruction obeys what is decoded of it. */
  lemma ArmObeys<W(!new)>(f: Operation<W>, holds: W -> bool, res: Decoded, c: Class, word: Word, pc: Word)
    requires ArmRegisters(res, EntryOf(c), word) && (word / 0x1000_0000 >= 0xE ==> forall w :: holds(w))
    ensures Obeys(StepOf(f, OperandsOf(c, word), ResultsOf(c, word), holds),
        EmittedCode.Instr(word / 0x1000_0000, pc, res.Registers({})), false)
  {
    hide EntryOf, OperandsOf, ResultsOf, ArmRegisters, Obeys;
    RegistersAre(res, c, word);
    OperandsObey(f, OperandsOf(c, word), ResultsOf(c, word), holds, false,
      EmittedCode.Instr(word / 0x1000_0000, pc, res.Registers({})));
  }
}
