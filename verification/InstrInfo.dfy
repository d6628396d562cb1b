/**
 Decoding an instruction into what the JIT's analyses need: the registers it reads and writes, and the flags.
 The entry of the instruction table is given; what is proved holds for every entry.
 */
module InstrInfo {
  import opened MachineWords
  import EmittedCode
  import opened FlagLiveness
  import NativeMapping
  import RegisterCache

  type Reg = EmittedCode.Reg

  datatype Special = NotSpecial | WriteMem | LoadMem | WaitForInterrupt | LoadLiteral

  /** `always` and `maybe` are the low and the high half of WriteFlags. */
  datatype Decoded = Decoded(
    src: set<Reg>, dst: set<Reg>, notStrictlyNeeded: set<Reg>, special: Special,
    readFlags: set<Flag>, always: set<Flag>, maybe: set<Flag>, endBlock: bool)
  {
    function Registers(banked: set<Reg>): EmittedCode.Info { EmittedCode.Info(dst, src, notStrictlyNeeded, banked) }
  }

  /** The registers a list of `n` bits names. */
  function List(instr: nat, n: nat): set<Reg> {
    set r: Reg | r < n && Bit(instr, r)
  }

  function If(b: bool, r: set<Reg>): set<Reg> { if b then r else {} }

  function IfFlags(b: bool, f: set<Flag>): set<Flag> { if b then f else {} }

  // ---- Conditions ----------------------------------------------------------------------------

  /** The flags a condition looks at. */
  function FlagsReadPerCond(pair: nat): set<Flag> {
    match pair
    case 0 => {Z}
    case 1 => {C}
    case 2 => {N}
    case 3 => {V}
    case 4 => {C, Z}
    case 5 => {N, V}
    case 6 => {Z, N, V}
    case _ => {}
  }

  function Row(h3: nat, h2: nat, h1: nat, h0: nat): (r: seq<bool>)
    ensures |r| == 16
  {
    Digit(h0) + Digit(h1) + Digit(h2) + Digit(h3)
  }

  /** The row of a condition, one bit for each state of the flags. */
  function ConditionTable(cond: nat): (r: seq<bool>)
    ensures |r| == 16
  {
    match cond
    case 0x0 => Row(0xF, 0x0, 0xF, 0x0)
    case 0x1 => Row(0x0, 0xF, 0x0, 0xF)
    case 0x2 => Row(0xC, 0xC, 0xC, 0xC)
    case 0x3 => Row(0x3, 0x3, 0x3, 0x3)
    case 0x4 => Row(0xF, 0xF, 0x0, 0x0)
    case 0x5 => Row(0x0, 0x0, 0xF, 0xF)
    case 0x6 => Row(0xA, 0xA, 0xA, 0xA)
    case 0x7 => Row(0x5, 0x5, 0x5, 0x5)
    case 0x8 => Row(0x0, 0xC, 0x0, 0xC)
    case 0x9 => Row(0xF, 0x3, 0xF, 0x3)
    case 0xA => Row(0xA, 0xA, 0x5, 0x5)
    case 0xB => Row(0x5, 0x5, 0xA, 0xA)
    case 0xC => Row(0x0, 0xA, 0x0, 0x5)
    case 0xD => Row(0xF, 0x5, 0xF, 0xA)
    case 0xE => Row(0xF, 0xF, 0xF, 0xF)
    case _ => Row(0x0, 0x0, 0x0, 0x0)
  }

  /** The state of the flags as a number: N, Z, C, V from the top. */
  function Number(flags: set<Flag>): (n: nat)
    ensures n < 16
  {
    (if N in flags then 8 else 0) + (if Z in flags then 4 else 0) + (if C in flags then 2 else 0) + if V in flags
        then 1 else 0
  }

  /** `CheckCondition`. */
  predicate CheckCondition(cond: nat, flags: set<Flag>) {
    ConditionTable(cond)[Number(flags)]
  }

  /** The table says what the mnemonics say. */
  lemma ConditionMeans(cond: nat, flags: set<Flag>)
    requires cond < 0xE
    ensures CheckCondition(cond, flags) <==>
              match cond
              case 0x0 => Z in flags
              case 0x1 => Z !in flags
              case 0x2 => C in flags
              case 0x3 => C !in flags
              case 0x4 => N in flags
              case 0x5 => N !in flags
              case 0x6 => V in flags
              case 0x7 => V !in flags
              case 0x8 => C in flags && Z !in flags
              case 0x9 => C !in flags || Z in flags
              case 0xA => (N in flags) == (V in flags)
              case 0xB => (N in flags) != (V in flags)
              case 0xC => Z !in flags && (N in flags) == (V in flags)
              case _ => Z in flags || (N in flags) != (V in flags)
  {
    hide Row;
    RowAt(flags);
  }

  /** A row is four digits: one for each state of N and Z. */
  lemma RowAt(flags: set<Flag>)
    ensures forall h3: nat, h2: nat, h1: nat, h0: nat :: Row(h3, h2, h1, h0)[Number(flags)] ==
              Digit(if N in flags then (if Z in flags then h3 else h2) else if Z in flags then h1 else h0)
                [(if C in flags then 2 else 0) + if V in flags then 1 else 0]
  {
  }

  /** A condition looks at no flag but those listed for it. */
  lemma ConditionReads(cond: nat, f: set<Flag>, g: set<Flag>)
    requires cond < 0xE && f * FlagsReadPerCond(cond / 2) == g * FlagsReadPerCond(cond / 2)
    ensures CheckCondition(cond, f) == CheckCondition(cond, g)
  {
    hide CheckCondition;
    ConditionMeans(cond, f);
    ConditionMeans(cond, g);
    forall x: Flag
      ensures x in FlagsReadPerCond(cond / 2) ==> (x in f <==> x in g)
    {
      assert x in f * FlagsReadPerCond(cond / 2) <==> x in g * FlagsReadPerCond(cond / 2);
    }
  }

  // ---- ARM -----------------------------------------------------------------------------------

  datatype Kind = Ldm | Stm | Mcr | Mrc | Mrs | Msr | DspMul | Nop | Unknown | Other

  /** An entry of the ARM instruction table. */
  datatype ArmEntry = ArmEntry(
    kind: Kind, read0: bool, read16: bool, read8: bool, read12: bool, write12: bool, write16: bool, memWriteback: bool,
    branchAlways: bool, read12Double: bool, write12Double: bool, link: bool, unkOnArm7: bool,
    setNZ: bool, setCV: bool, setMaybeC: bool, mulFlags: bool, readC: bool, rrxReadC: bool, staticShiftSetC: bool,
    setC: bool, setCImm: bool, writeMem: bool, loadMem: bool)

  const NOP := ArmEntry(Nop, false, false, false, false, false, false, false, false, false, false, false, false,
    false, false, false, false, false, false, false, false, false, false, false)

  const UNK := NOP.(kind := Unknown, branchAlways := true, link := true)

  const BLX_IMM := NOP.(kind := Other, branchAlways := true, link := true)

  /** The second register of a double transfer. A sixteenth would be lost: the masks have 16 bits. */
  function Pair(r: Reg): set<Reg> {
    if r == 15 then {15} else {r, r + 1}
  }

  /** The entry of the table, after the exceptions for CPU and encoding. */
  function Found(table: nat -> ArmEntry, num: nat, instr: nat): ArmEntry {
    var data := table(instr / 0x10 % 0x10 + instr / 0x10_0000 % 0x100 * 0x10);
    var data :=
      if num == 0 && instr / 0x200_0000 == 0x7D then BLX_IMM
      else if instr / 0x1000_0000 == 0xF then NOP
      else data;
    var data := if data.unkOnArm7 && num == 1 then UNK else data;
    if data.kind.DspMul? && num == 1 then NOP else data
  }

  /** The entry that counts: an access to a coprocessor that is not there is unknown. */
  function Entry(table: nat -> ArmEntry, num: nat, instr: nat): ArmEntry {
    var data := Found(table, num, instr);
    var cp := Field(instr, 8);
    if (data.kind.Mcr? || data.kind.Mrc?) && ((num == 0 && cp != 15) || (num == 1 && cp != 14)) then UNK else data
  }

  /** Registers named by fields of the instruction, apart from a list. */
  function FieldsRead(d: ArmEntry, instr: nat): set<Reg> {
    If(d.read0, {Field(instr, 0)}) + If(d.read16, {Field(instr, 16)}) + If(d.read8, {Field(instr, 8)})
        + If(d.read12, {Field(instr, 12)})
    + If(d.read12Double, Pair(Field(instr, 12)))
  }

  function FieldsWritten(d: ArmEntry, instr: nat): set<Reg> {
    If(d.write12, {Field(instr, 12)}) + If(d.write16, {Field(instr, 16)})
        + If(d.memWriteback && Bit(instr, 21), {Field(instr, 16)})
    + If(d.branchAlways, {15}) + If(d.write12Double, Pair(Field(instr, 12))) + If(d.link, {14})
        + If(d.kind.Ldm? && Bit(instr, 15), {15})
  }

  /** All the registers a field can name, with r14 and r15: seven. */
  function Nameable(instr: nat): set<Reg> {
    {Field(instr, 0), Field(instr, 8), Field(instr, 12), Field(instr, 16), 14, 15} + Pair(Field(instr, 12))
  }

  /** A load from r15 alone is a literal. */
  function SpecialOf(table: nat -> ArmEntry, num: nat, instr: nat): Special {
    var d := Entry(table, num, instr);
    if d.loadMem then (if FieldsRead(d, instr) + If(d.kind.Stm? && Bit(instr, 15), {15}) == {15} then LoadLiteral
        else LoadMem)
    else if d.writeMem then WriteMem
    else if Found(table, num, instr).kind.Mcr? && CpOperation(instr) in {0x704, 0x782} then WaitForInterrupt
    else NotSpecial
  }

  /** The registers of a list come on top of the fields; those no field names are optional. */
  ghost predicate ArmRegisters(res: Decoded, d: ArmEntry, instr: nat) {
    && res.src == FieldsRead(d, instr) + If(d.kind.Stm?, List(instr, 16))
        + If(d.kind.Ldm? && Bit(instr, 22), List(instr, 16) * {8, 9, 10, 11, 12, 13, 14})
    && res.dst == FieldsWritten(d, instr) + If(d.kind.Ldm?, List(instr, 16))
    && res.notStrictlyNeeded == If(d.kind.Ldm? || d.kind.Stm?,
        List(instr, 16) - FieldsRead(d, instr) - FieldsWritten(d, instr) - {15})
  }

  /** Under a condition every write is only possible, and the condition's flags are read. */
  ghost predicate ArmFlags(res: Decoded, d: ArmEntry, instr: nat) {
    var cond := instr / 0x1000_0000;
    && res.readFlags == FlagsRead(d, instr) + (if cond < 0xE then FlagsReadPerCond(cond / 2) else {})
    && res.always == (if cond < 0xE then {} else CertainFlags(d, instr))
    && res.maybe == IfFlags(d.setMaybeC, {C}) + if cond < 0xE then CertainFlags(d, instr) else {}
  }

  method DecodeArm(table: nat -> ArmEntry, num: nat, instr: nat) returns (res: Decoded)
    requires num <= 1 && instr < 0x1_0000_0000
    ensures ArmRegisters(res, Entry(table, num, instr), instr) && ArmFlags(res, Entry(table, num, instr), instr)
    ensures res.endBlock <==> 15 in res.dst || (Found(table, num, instr).kind.Mcr? && Barrier(instr))
    ensures res.special == SpecialOf(table, num, instr)
  {
    hide Field, Bit, If, FieldsRead, FieldsWritten, FlagsRead, CertainFlags, FlagsReadPerCond, IfFlags, List, Found,
        Entry, Barrier, CpOperation, SpecialOf;
    var d := Entry(table, num, instr);
    var src, dst := RegistersOf(d, instr);
    var always, maybe, readFlags := FlagsOf(d, instr);
    var special, endBlock := SpecialKind(table, num, instr, src);
    var nsn: set<Reg>;
    src, dst, nsn := ListOf(d, instr, src, dst);
    always, maybe, readFlags := Under(instr, always, maybe, readFlags);
    endBlock := endBlock || 15 in dst;
    res := Decoded(src, dst, nsn, special, readFlags, always, maybe, endBlock);
  }

  method SpecialKind(table: nat -> ArmEntry, num: nat, instr: nat, src: set<Reg>)
      returns (special: Special, endBlock: bool)
    requires var d := Entry(table, num, instr); src == FieldsRead(d, instr) + If(d.kind.Stm? && Bit(instr, 15), {15})
    ensures special == SpecialOf(table, num, instr)
    ensures endBlock <==> Found(table, num, instr).kind.Mcr? && Barrier(instr)
  {
    hide Field, Bit, FieldsRead, Found, Entry, Barrier, CpOperation;
    var d := Entry(table, num, instr);
    special, endBlock := NotSpecial, false;
    if Found(table, num, instr).kind.Mcr? {
      endBlock := Barrier(instr);
      if CpOperation(instr) == 0x704 || CpOperation(instr) == 0x782 {
        special := WaitForInterrupt;
      }
    }
    if d.writeMem {
      special := WriteMem;
    }
    if d.loadMem {
      special := if src == {15} then LoadLiteral else LoadMem;
    }
  }

  /** Under a condition what was certain is only possible, and the condition is read. */
  method Under(instr: nat, always0: set<Flag>, maybe0: set<Flag>, readFlags0: set<Flag>)
      returns (always: set<Flag>, maybe: set<Flag>, readFlags: set<Flag>)
    ensures if instr / 0x1000_0000 < 0xE
      then always == {} && maybe == maybe0 + always0
        && readFlags == readFlags0 + FlagsReadPerCond(instr / 0x1000_0000 / 2)
      else always == always0 && maybe == maybe0 && readFlags == readFlags0
  {
    always, maybe, readFlags := always0, maybe0, readFlags0;
    if instr / 0x1000_0000 < 0xE {
      maybe := maybe + always;
      always := {};
      readFlags := readFlags + FlagsReadPerCond(instr / 0x1000_0000 / 2);
    }
  }

  method ListOf(d: ArmEntry, instr: nat, src0: set<Reg>, dst0: set<Reg>)
      returns (src: set<Reg>, dst: set<Reg>, nsn: set<Reg>)
    requires src0 == FieldsRead(d, instr) + If(d.kind.Stm? && Bit(instr, 15), {15}) && dst0 == FieldsWritten(d, instr)
    ensures src == FieldsRead(d, instr) + If(d.kind.Stm?, List(instr, 16))
        + If(d.kind.Ldm? && Bit(instr, 22), List(instr, 16) * {8, 9, 10, 11, 12, 13, 14})
    ensures dst == FieldsWritten(d, instr) + If(d.kind.Ldm?, List(instr, 16))
    ensures nsn == If(d.kind.Ldm? || d.kind.Stm?, List(instr, 16) - FieldsRead(d, instr) - FieldsWritten(d,
        instr) - {15})
  {
    hide Field, FieldsRead, FieldsWritten;
    src, dst, nsn := src0, dst0, {};
    var regs := List(instr, 16);
    assert Bit(instr, 15) <==> 15 in regs;
    hide Bit, List;
    if d.kind.Ldm? {
      nsn := nsn + (regs - (src + dst + {15}));
      dst := dst + regs;
      if Bit(instr, 22) {
        src := src + regs * {8, 9, 10, 11, 12, 13, 14};
      }
    }
    if d.kind.Stm? {
      nsn := nsn + (regs - (src + dst + {15}));
      src := src + regs;
    }
  }

  function CpOperation(instr: nat): nat {
    Field(instr, 16) * 0x100 + Field(instr, 0) * 0x10 + instr / 0x20 % 8
  }

  /** Coprocessor writes that end a block: wait for interrupt and instruction cache maintenance. */
  predicate Barrier(instr: nat) {
    CpOperation(instr) in {0x704, 0x782, 0x750, 0x751, 0x752}
  }

  method RegistersOf(d: ArmEntry, instr: nat) returns (src: set<Reg>, dst: set<Reg>)
    ensures src == FieldsRead(d, instr) + If(d.kind.Stm? && Bit(instr, 15), {15}) && dst == FieldsWritten(d, instr)
  {
    hide Field, Bit, Pair, If;
    src := If(d.read0, {Field(instr, 0)});
    src := src + If(d.read16, {Field(instr, 16)});
    src := src + If(d.read8, {Field(instr, 8)});
    src := src + If(d.read12, {Field(instr, 12)});
    dst := If(d.write12, {Field(instr, 12)});
    dst := dst + If(d.write16, {Field(instr, 16)});
    dst := dst + If(d.memWriteback && Bit(instr, 21), {Field(instr, 16)});
    dst := dst + If(d.branchAlways, {15});
    src := src + If(d.read12Double, Pair(Field(instr, 12)));
    dst := dst + If(d.write12Double, Pair(Field(instr, 12)));
    dst := dst + If(d.link, {14});
    dst := dst + If(d.kind.Ldm? && Bit(instr, 15), {15});
    src := src + If(d.kind.Stm? && Bit(instr, 15), {15});
  }

  /** The flags an instruction is taken to write for certain when it is executed. For MSR see `MsrObeysIff`. */
  function CertainFlags(d: ArmEntry, instr: nat): set<Flag> {
    IfFlags(d.kind.Msr? && Bit(instr, 19), ALL_FLAGS) + IfFlags(d.setNZ, {N, Z}) + IfFlags(d.setCV, {C, V})
    + IfFlags(d.mulFlags && Bit(instr, 20), {N, Z})
    + IfFlags(d.setC || (d.staticShiftSetC && instr / 0x80 % 0x20 != 0) || (d.setCImm && instr / 0x100 % 0x10 != 0),
        {C})
  }

  function FlagsRead(d: ArmEntry, instr: nat): set<Flag> {
    IfFlags(d.kind.Mrs? && !Bit(instr, 22), ALL_FLAGS) + IfFlags(d.readC, {C})
        + IfFlags(d.rrxReadC && instr / 0x80 % 0x20 == 0, {C})
  }

  method FlagsOf(d: ArmEntry, instr: nat) returns (always: set<Flag>, maybe: set<Flag>, read: set<Flag>)
    ensures always == CertainFlags(d, instr) && maybe == IfFlags(d.setMaybeC, {C}) && read == FlagsRead(d, instr)
  {
    hide Bit, IfFlags;
    read := IfFlags(d.kind.Mrs? && !Bit(instr, 22), ALL_FLAGS);
    always := IfFlags(d.kind.Msr? && Bit(instr, 19), ALL_FLAGS);
    always := always + IfFlags(d.setNZ, {N, Z});
    always := always + IfFlags(d.setCV, {C, V});
    maybe := IfFlags(d.setMaybeC, {C});
    always := always + IfFlags(d.mulFlags && Bit(instr, 20), {N, Z});
    read := read + IfFlags(d.readC, {C});
    read := read + IfFlags(d.rrxReadC && instr / 0x80 % 0x20 == 0, {C});
    always := always + IfFlags(d.setC || (d.staticShiftSetC && instr / 0x80 % 0x20 != 0)
        || (d.setCImm && instr / 0x100 % 0x10 != 0), {C});
  }

  // ---- What the analyses rely on -------------------------------------------------------------

  lemma Insert<T>(s: set<T>, x: T)
    ensures |s + {x}| <= |s| + 1
  {
    if x in s {
      assert s + {x} == s;
    }
  }

  lemma AtMostSeven<T>(a: T, b: T, c: T, d: T, e: T, f: T, g: T)
    ensures |{a, b, c, d, e, f, g}| <= 7
  {
    var s2, s3 := {a} + {b}, {a} + {b} + {c};
    var s4 := s3 + {d};
    var s5 := s4 + {e};
    var s6 := s5 + {f};
    Insert({a}, b);
    Insert(s2, c);
    Insert(s3, d);
    Insert(s4, e);
    Insert(s5, f);
    Insert(s6, g);
    assert s3 == {a, b, c};
    assert s6 == {a, b, c, d, e, f};
    assert {a, b, c, d, e, f, g} == s6 + {g};
  }

  lemma SevenNameable(instr: nat)
    ensures |Nameable(instr)| <= 7
  {
    hide Field;
    var a, b, c, d := Field(instr, 0), Field(instr, 8), Field(instr, 12), Field(instr, 16);
    var e := if c == 15 then 15 else c + 1;
    AtMostSeven(a, b, c, d, 14, 15, e);
    assert Nameable(instr) == {a, b, c, d, 14, 15, e};
  }

  /** What the register cache needs of an ARM instruction, for every entry of the table: only registers it
      mentions are optional, and at most seven are not, which is as many as any host has native registers. */
  lemma ArmFitsCache(res: Decoded, d: ArmEntry, instr: nat, cond: nat, pc: Word, banked: set<Reg>,
      pcAllocatable: bool)
    requires ArmRegisters(res, d, instr)
    ensures res.notStrictlyNeeded <= res.src + res.dst
    ensures |RegisterCache.Necessary(EmittedCode.Instr(cond, pc, res.Registers(banked)), pcAllocatable)| <= 7
  {
    hide List, Bit, Field, FieldsRead, FieldsWritten, Nameable;
    var necessary := RegisterCache.Necessary(EmittedCode.Instr(cond, pc, res.Registers(banked)), pcAllocatable);
    FieldsNameable(d, instr);
    SevenNameable(instr);
    assert necessary <= FieldsRead(d, instr) + FieldsWritten(d, instr) + {15};
    NativeMapping.SubsetCount(necessary, Nameable(instr));
  }

  /** A load with an immediate offset is one of a literal if and only if its base is r15. */
  lemma ImmediateLoadIsLiteral(table: nat -> ArmEntry, num: nat, instr: nat)
    requires var d := Entry(table, num, instr);
             d.loadMem && d.read16 && !d.read0 && !d.read8 && !d.read12 && !d.read12Double && !d.kind.Stm?
    ensures SpecialOf(table, num, instr).LoadLiteral? <==> Field(instr, 16) == 15
  {
    hide Field, Bit, Entry, Found;
    var d := Entry(table, num, instr);
    assert FieldsRead(d, instr) == {Field(instr, 16)};
    assert Field(instr, 16) in FieldsRead(d, instr);
  }

  /** A store counts as one only if the instruction does not load as well: a swap does not. */
  lemma StoreIsSeen(table: nat -> ArmEntry, num: nat, instr: nat)
    ensures SpecialOf(table, num, instr).WriteMem? <==>
        Entry(table, num, instr).writeMem && !Entry(table, num, instr).loadMem
  {
    hide Entry, Found, FieldsRead;
  }

  lemma IfWithin(b: bool, r: set<Reg>, all: set<Reg>)
    requires r <= all
    ensures If(b, r) <= all
  {
  }

  lemma FieldsNameable(d: ArmEntry, instr: nat)
    ensures FieldsRead(d, instr) + FieldsWritten(d, instr) + {15} <= Nameable(instr)
  {
    hide If, Bit, Field, Pair, FieldsRead, FieldsWritten;
    ReadWithin(d, instr, Nameable(instr));
    WrittenWithin(d, instr, Nameable(instr));
  }

  lemma ReadWithin(d: ArmEntry, instr: nat, all: set<Reg>)
    requires {Field(instr, 0), Field(instr, 8), Field(instr, 12), Field(instr, 16)} <= all
        && Pair(Field(instr, 12)) <= all
    ensures FieldsRead(d, instr) <= all
  {
    hide If, Bit, Field, Pair;
    IfWithin(d.read0, {Field(instr, 0)}, all);
    IfWithin(d.read16, {Field(instr, 16)}, all);
    IfWithin(d.read8, {Field(instr, 8)}, all);
    IfWithin(d.read12, {Field(instr, 12)}, all);
    IfWithin(d.read12Double, Pair(Field(instr, 12)), all);
  }

  lemma WrittenWithin(d: ArmEntry, instr: nat, all: set<Reg>)
    requires {Field(instr, 12), Field(instr, 16), 14, 15} <= all && Pair(Field(instr, 12)) <= all
    ensures FieldsWritten(d, instr) <= all
  {
    hide If, Bit, Field, Pair;
    IfWithin(d.write12, {Field(instr, 12)}, all);
    IfWithin(d.write16, {Field(instr, 16)}, all);
    IfWithin(d.memWriteback && Bit(instr, 21), {Field(instr, 16)}, all);
    IfWithin(d.branchAlways, {15}, all);
    IfWithin(d.write12Double, Pair(Field(instr, 12)), all);
    IfWithin(d.link, {14}, all);
    IfWithin(d.kind.Ldm? && Bit(instr, 15), {15}, all);
  }

  /** What the flag pass needs: flags an instruction writes under a condition are never taken as certainly
      written, and the flags that decide the condition are among those it reads. */
  lemma ArmConditional(res: Decoded, d: ArmEntry, instr: nat, f: set<Flag>, g: set<Flag>)
    requires ArmFlags(res, d, instr) && instr / 0x1000_0000 < 0xE && f * res.readFlags == g * res.readFlags
    ensures res.always == {} && res.maybe == CertainFlags(d, instr) + IfFlags(d.setMaybeC, {C})
    ensures CheckCondition(instr / 0x1000_0000, f) == CheckCondition(instr / 0x1000_0000, g)
  {
    hide CheckCondition, FlagsReadPerCond, FlagsRead, CertainFlags;
    var cond := instr / 0x1000_0000;
    assert FlagsReadPerCond(cond / 2) <= res.readFlags;
    assert f * FlagsReadPerCond(cond / 2) == f * res.readFlags * FlagsReadPerCond(cond / 2);
    assert g * FlagsReadPerCond(cond / 2) == g * res.readFlags * FlagsReadPerCond(cond / 2);
    ConditionReads(cond, f, g);
  }

  /** The flag part of what is decoded, for an instruction that is compiled. */
  function ForFlagPass(res: Decoded): FlagLiveness.Instr {
    FlagLiveness.Instr(res.readFlags, res.always, res.maybe, true, false)
  }

  /** `A_MSR_IMM` and `A_MSR_REG` on the flags, the world being the flag bits of the operand: bit 19 selects
      them, and with bit 22 the saved status register is written instead. */
  function MsrStep(instr: nat): Step<set<Flag>> {
    (f: set<Flag>, operand: set<Flag>) =>
      Effect(IfFlags(CheckCondition(instr / 0x1000_0000, f) && Bit(instr, 19) && !Bit(instr, 22), ALL_FLAGS), operand,
          operand)
  }

  /** An entry that sets flags as MSR only. */
  predicate PlainMsr(d: ArmEntry) {
    d.kind.Msr? && !d.setNZ && !d.setCV && !d.setMaybeC && !d.mulFlags && !d.readC && !d.rrxReadC
        && !d.staticShiftSetC && !d.setC && !d.setCImm
  }

  /** An MSR writes the flags it is taken to write for certain if and only if it is conditional or does not
      write the flags of a saved status register: of those the decoder says that they are CPSR's. */
  lemma MsrObeysIff(res: Decoded, d: ArmEntry, instr: nat)
    requires ArmFlags(res, d, instr) && PlainMsr(d) && instr / 0x1000_0000 <= 0xE
    ensures Obeys(MsrStep(instr), ForFlagPass(res)) <==>
        instr / 0x1000_0000 < 0xE
        || !(Bit(instr, 19) && Bit(instr, 22))
  {
    hide Bit, CheckCondition, FlagsReadPerCond;
    var cond, step := instr / 0x1000_0000, MsrStep(instr);
    if cond < 0xE {
      forall f: set<Flag>, g: set<Flag>, w | f * res.readFlags == g * res.readFlags
        ensures step(f, w) == step(g, w)
      {
        ArmConditional(res, d, instr, f, g);
      }
    } else {
      forall f: set<Flag>
        ensures CheckCondition(cond, f)
      {
        AlwaysTrue(f);
      }
      assert res.always == IfFlags(Bit(instr, 19), ALL_FLAGS);
      if Bit(instr, 19) && Bit(instr, 22) {
        assert step({}, {}).written == {} && N in res.always;
      }
    }
  }

  lemma AlwaysTrue(f: set<Flag>)
    ensures CheckCondition(0xE, f)
  {
  }

  /** `MSR SPSR_fsxc, r1` */
  const MSR_SPSR := 0xE16F_F001

  const PRUNED := [{}, ALL_FLAGS, ALL_FLAGS]

  /** So such an MSR between a comparison and a branch on its result hides the comparison's flags from the branch: the
      pass lets the comparison store none, and the branch sees what was there before. */
  lemma SpsrWriteHidesFlags(res: Decoded, d: ArmEntry)
    requires ArmFlags(res, d, MSR_SPSR) && PlainMsr(d)
    ensures var compare := FlagLiveness.Instr({}, ALL_FLAGS, {}, true, false);
            var block := [compare, ForFlagPass(res), FlagLiveness.Instr({Z}, {}, {}, true, false)];
            var equal := (f: set<Flag>, w: set<Flag>) => Effect(ALL_FLAGS, {Z}, w);
            var steps := [equal, MsrStep(MSR_SPSR), (f: set<Flag>, w: set<Flag>) => Effect({}, {}, w)];
            && Keeps(PRUNED, block) && Obeys(steps[0], block[0]) && Obeys(steps[2], block[2])
            && Z in Run(steps, Full(3), 2, {}, {}).0 && Z !in Run(steps, PRUNED, 2, {}, {}).0
  {
    hide Bit, CheckCondition, FlagsReadPerCond;
    SpsrBits();
    AlwaysTrue({});
    AlwaysTrue({Z});
    assert res.always == ALL_FLAGS;
    var block := [FlagLiveness.Instr({}, ALL_FLAGS, {}, true, false), ForFlagPass(res),
        FlagLiveness.Instr({Z}, {}, {}, true, false)];
    forall x
      ensures !Live(block, 1, x)
    {
      AllFlags(x);
      assert Demanded(block[1]) == {} && x in block[1].always;
      forall r | 1 <= r <= 3
        ensures !Sees(block, 1, r, x)
      {
      }
    }
    var equal := (f: set<Flag>, w: set<Flag>) => Effect(ALL_FLAGS, {Z}, w);
    var steps := [equal, MsrStep(MSR_SPSR), (f: set<Flag>, w: set<Flag>) => Effect({}, {}, w)];
    assert Run(steps, Full(3), 0, {}, {}) == Run(steps, PRUNED, 0, {}, {}) == ({}, {});
    var none: set<Flag> := {};
    assert equal({}, {}) == Effect(ALL_FLAGS, {Z}, {})
        && (none - ALL_FLAGS * ALL_FLAGS) + {Z} * (ALL_FLAGS * ALL_FLAGS) == {Z};
    assert PRUNED[0] == none && (none - ALL_FLAGS * none) + {Z} * (ALL_FLAGS * none) == none;
    assert Run(steps, Full(3), 1, {}, {}) == ({Z}, {});
    assert Run(steps, PRUNED, 1, {}, {}) == ({}, {});
  }

  lemma SpsrBits()
    ensures Bit(MSR_SPSR, 19) && Bit(MSR_SPSR, 22) && MSR_SPSR / 0x1000_0000 == 0xE
  {
    assert Pow2(10) == 0x400;
    assert Pow2(19) == 0x200 * Pow2(10);
    assert Pow2(22) == 8 * Pow2(19);
  }

  // ---- Thumb ---------------------------------------------------------------------------------

  datatype ThumbKind =
    | ThumbLoadList | ThumbPop | ThumbStoreList | ThumbPush | ThumbBranchCond | ThumbLoadPc | ThumbOther

  /** An entry of the Thumb instruction table. */
  datatype ThumbEntry = ThumbEntry(
    kind: ThumbKind, read0: bool, read3: bool, read6: bool, read8: bool, write0: bool, write8: bool,
    readHi0: bool, readHi3: bool, writeHi0: bool, readR13: bool, writeR13: bool, branchAlways: bool, readR14: bool,
        writeR14: bool,
    setNZ: bool, setCV: bool, setMaybeC: bool, readC: bool, setC: bool, writeMem: bool, loadMem: bool)

  function Low(instr: nat, k: nat): Reg { instr / Pow2(k) % 8 }

  /** A register number with its top bit in bit 7. */
  function High(instr: nat): Reg { instr % 8 + instr / 0x80 % 2 * 8 }

  function ThumbRead(d: ThumbEntry, instr: nat, literals: bool): set<Reg> {
    If(d.read0, {Low(instr, 0)}) + If(d.read3, {Low(instr, 3)}) + If(d.read6, {Low(instr, 6)})
        + If(d.read8, {Low(instr, 8)})
    + If(d.readHi0, {High(instr)}) + If(d.readHi3, {Field(instr, 3)}) + If(d.readR13, {13}) + If(d.readR14, {14})
    + If(d.loadMem && d.kind.ThumbLoadPc? && !literals, {15})
  }

  function ThumbWritten(d: ThumbEntry, instr: nat): set<Reg> {
    If(d.write0, {Low(instr, 0)}) + If(d.write8, {Low(instr, 8)}) + If(d.writeHi0, {High(instr)})
        + If(d.writeR13, {13}) + If(d.writeR14, {14})
    + If(d.branchAlways, {15}) + If(d.kind.ThumbPop? && Bit(instr, 8), {15})
  }

  function ThumbList(d: ThumbEntry, instr: nat): set<Reg> {
    List(instr, 8) + If(d.kind.ThumbPush? && Bit(instr, 8), {14})
  }

  ghost predicate ThumbDecoded(res: Decoded, d: ThumbEntry, instr: nat, literals: bool) {
    var loads, stores := d.kind.ThumbLoadList? || d.kind.ThumbPop?, d.kind.ThumbStoreList? || d.kind.ThumbPush?;
    && res.src == ThumbRead(d, instr, literals) + If(stores, ThumbList(d, instr))
    && res.dst == ThumbWritten(d, instr) + If(loads, ThumbList(d, instr))
    && res.notStrictlyNeeded == If(loads || stores,
        ThumbList(d, instr) - ThumbRead(d, instr, literals) - ThumbWritten(d, instr))
    && res.always == IfFlags(d.setNZ, {N, Z}) + IfFlags(d.setCV, {C, V}) + IfFlags(d.setC, {C})
        && res.maybe == IfFlags(d.setMaybeC, {C})
    && res.readFlags == IfFlags(d.readC, {C}) + (if d.kind.ThumbBranchCond? then FlagsReadPerCond(instr / 0x200 % 8)
        else {})
    && (res.endBlock <==> 15 in res.dst)
    && res.special == (if d.loadMem then (if d.kind.ThumbLoadPc? then LoadLiteral else LoadMem) else if d.writeMem
        then WriteMem else NotSpecial)
  }

  method DecodeThumb(table: nat -> ThumbEntry, instr: nat, literals: bool) returns (res: Decoded)
    ensures ThumbDecoded(res, table(instr / 0x40 % 0x400), instr, literals)
  {
    hide Bit, Low, High, Field, If, IfFlags, List, FlagsReadPerCond;
    var d := table(instr / 0x40 % 0x400);
    var src := If(d.read0, {Low(instr, 0)});
    src := src + If(d.read3, {Low(instr, 3)});
    src := src + If(d.read6, {Low(instr, 6)});
    src := src + If(d.read8, {Low(instr, 8)});
    var dst := If(d.write0, {Low(instr, 0)});
    dst := dst + If(d.write8, {Low(instr, 8)});
    src := src + If(d.readHi0, {High(instr)});
    src := src + If(d.readHi3, {Field(instr, 3)});
    dst := dst + If(d.writeHi0, {High(instr)});
    src := src + If(d.readR13, {13});
    dst := dst + If(d.writeR13, {13});
    dst := dst + If(d.writeR14, {14});
    src := src + If(d.readR14, {14});
    dst := dst + If(d.branchAlways, {15});
    dst := dst + If(d.kind.ThumbPop? && Bit(instr, 8), {15});
    var always := IfFlags(d.setNZ, {N, Z});
    always := always + IfFlags(d.setCV, {C, V});
    var maybe := IfFlags(d.setMaybeC, {C});
    var readFlags := IfFlags(d.readC, {C});
    always := always + IfFlags(d.setC, {C});
    var special := if d.writeMem then WriteMem else NotSpecial;
    src := src + If(d.loadMem && d.kind.ThumbLoadPc? && !literals, {15});
    if d.loadMem {
      special := if d.kind.ThumbLoadPc? then LoadLiteral else LoadMem;
    }
    assert src == ThumbRead(d, instr, literals) && dst == ThumbWritten(d, instr);
    var nsn: set<Reg>;
    src, dst, nsn := ThumbListOf(d, instr, src, dst);
    if d.kind.ThumbBranchCond? {
      readFlags := readFlags + FlagsReadPerCond(instr / 0x200 % 8);
    }
    res := Decoded(src, dst, nsn, special, readFlags, always, maybe, 15 in dst);
  }

  method ThumbListOf(d: ThumbEntry, instr: nat, src0: set<Reg>, dst0: set<Reg>)
      returns (src: set<Reg>, dst: set<Reg>, nsn: set<Reg>)
    ensures src == src0 + If(d.kind.ThumbStoreList? || d.kind.ThumbPush?, ThumbList(d, instr))
    ensures dst == dst0 + If(d.kind.ThumbLoadList? || d.kind.ThumbPop?, ThumbList(d, instr))
    ensures nsn == If(d.kind.ThumbLoadList? || d.kind.ThumbPop? || d.kind.ThumbStoreList? || d.kind.ThumbPush?,
        ThumbList(d, instr) - src0 - dst0)
  {
    hide Bit, List;
    src, dst, nsn := src0, dst0, {};
    if d.kind.ThumbLoadList? || d.kind.ThumbPop? {
      var regs := List(instr, 8);
      nsn := nsn + (regs - (dst + src));
      dst := dst + regs;
    }
    if d.kind.ThumbStoreList? || d.kind.ThumbPush? {
      var regs := List(instr, 8) + If(d.kind.ThumbPush? && Bit(instr, 8), {14});
      nsn := nsn + (regs - (dst + src));
      src := src + regs;
    }
  }

  /** How many register fields of the instruction an entry uses. In the table they are never more than three. */
  function FieldsUsed(d: ThumbEntry): nat {
    One(d.read0 || d.write0) + One(d.read3) + One(d.read6) + One(d.read8 || d.write8) + One(d.readHi0 || d.writeHi0)
        + One(d.readHi3)
  }

  function One(b: bool): nat { if b then 1 else 0 }

  function Thrice(s: set<Reg>, b0: bool, r0: Reg, b1: bool, r1: Reg, b2: bool, r2: Reg): set<Reg> {
    s + If(b0, {r0}) + If(b1, {r1}) + If(b2, {r2})
  }

  function LowFields(d: ThumbEntry, instr: nat): set<Reg> {
    Thrice({13, 14, 15}, d.read0 || d.write0, Low(instr, 0), d.read3, Low(instr, 3), d.read6, Low(instr, 6))
  }

  function FieldRegisters(d: ThumbEntry, instr: nat): set<Reg> {
    Thrice(LowFields(d, instr), d.read8 || d.write8, Low(instr, 8), d.readHi0 || d.writeHi0, High(instr), d.readHi3,
        Field(instr, 3))
  }

  lemma Extend(s: set<Reg>, n: nat, b: bool, r: Reg)
    requires |s| <= n
    ensures |s + If(b, {r})| <= n + One(b)
  {
    Insert(s, r);
    assert s + {} == s;
  }

  lemma ExtendThrice(s: set<Reg>, n: nat, b0: bool, r0: Reg, b1: bool, r1: Reg, b2: bool, r2: Reg)
    requires |s| <= n
    ensures |Thrice(s, b0, r0, b1, r1, b2, r2)| <= n + One(b0) + One(b1) + One(b2)
  {
    hide If, One;
    Extend(s, n, b0, r0);
    Extend(s + If(b0, {r0}), n + One(b0), b1, r1);
    Extend(s + If(b0, {r0}) + If(b1, {r1}), n + One(b0) + One(b1), b2, r2);
  }

  lemma FieldsCounted(d: ThumbEntry, instr: nat)
    ensures |FieldRegisters(d, instr)| <= 3 + FieldsUsed(d)
  {
    hide *;
    var n := 3 + One(d.read0 || d.write0) + One(d.read3) + One(d.read6);
    var s := LowFields(d, instr);
    LowFieldsCounted(d, instr);
    ExtendThrice(s, n, d.read8 || d.write8, Low(instr, 8), d.readHi0 || d.writeHi0, High(instr), d.readHi3,
        Field(instr, 3));
    FieldsAre(d, instr);
  }

  lemma LowFieldsCounted(d: ThumbEntry, instr: nat)
    ensures |LowFields(d, instr)| <= 3 + One(d.read0 || d.write0) + One(d.read3) + One(d.read6)
  {
    hide Low, If, One, Thrice;
    assert |{13, 14, 15}| == 3;
    ExtendThrice({13, 14, 15}, 3, d.read0 || d.write0, Low(instr, 0), d.read3, Low(instr, 3), d.read6, Low(instr, 6));
  }

  lemma FieldsAre(d: ThumbEntry, instr: nat)
    ensures FieldRegisters(d, instr) == Thrice(LowFields(d, instr), d.read8 || d.write8, Low(instr, 8),
        d.readHi0 || d.writeHi0, High(instr), d.readHi3, Field(instr, 3))
    ensures FieldsUsed(d) == One(d.read0 || d.write0) + One(d.read3) + One(d.read6) + One(d.read8 || d.write8)
        + One(d.readHi0 || d.writeHi0) + One(d.readHi3)
  {
    hide Low, High, Field, If, One, Thrice, LowFields;
  }

  lemma ThumbWithinFields(d: ThumbEntry, instr: nat, literals: bool)
    ensures ThumbRead(d, instr, literals) + ThumbWritten(d, instr) <= FieldRegisters(d, instr)
  {
    hide Low, High, Field, Bit;
  }

  /** The same for Thumb: the registers that are not optional are those in fields, and r13 to r15. */
  lemma ThumbFitsCache(res: Decoded, d: ThumbEntry, instr: nat, literals: bool, cond: nat, pc: Word,
      banked: set<Reg>, pcAllocatable: bool)
    requires ThumbDecoded(res, d, instr, literals) && FieldsUsed(d) <= 4
    ensures res.notStrictlyNeeded <= res.src + res.dst
    ensures |RegisterCache.Necessary(EmittedCode.Instr(cond, pc, res.Registers(banked)), pcAllocatable)| <= 7
  {
    hide ThumbRead, ThumbWritten, ThumbList, FieldRegisters, FieldsUsed;
    var necessary := RegisterCache.Necessary(EmittedCode.Instr(cond, pc, res.Registers(banked)), pcAllocatable);
    assert necessary <= ThumbRead(d, instr, literals) + ThumbWritten(d, instr);
    ThumbWithinFields(d, instr, literals);
    FieldsCounted(d, instr);
    NativeMapping.SubsetCount(necessary, FieldRegisters(d, instr));
  }
}
