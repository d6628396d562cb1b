/**
 What decoding promises of flags holds of data processing and multiplication as they are interpreted: which flags they
 look at, which they are certain to write, and which they may write. Multiplication on the ARM7 is the exception.
 */
module DecodedFlags {
  import opened MachineWords
  import opened FlagLiveness
  import opened InstrInfo

  /** How the second operand of a logical operation is made. */
  datatype Shifter = ByLsl | ByOther(ror: bool) | ByRegister | ByImmediate

  /** Instructions with the S bit, and multiplications with or without it. An addition or subtraction can take the
      carry in; one with a register rotated by an amount takes it in if the amount is zero. */
  datatype Class = Arithmetic(carryIn: bool, ror: bool) | Logic(shifter: Shifter) | Multiply

  /** The flags of the entry of each, as in the table. */
  function EntryOf(c: Class): ArmEntry {
    var other := NOP.(kind := Kind.Other);
    match c
    case Arithmetic(carryIn, ror) => other.(setNZ := true, setCV := true, readC := carryIn, rrxReadC := ror)
    case Logic(ByLsl) => other.(setNZ := true, staticShiftSetC := true)
    case Logic(ByOther(ror)) => other.(setNZ := true, setC := true, rrxReadC := ror)
    case Logic(ByRegister) => other.(setNZ := true, setMaybeC := true)
    case Logic(ByImmediate) => other.(setNZ := true, setCImm := true)
    case Multiply => other.(mulFlags := true)
  }

  /** The amount of a shift, and the rotation of an immediate. */
  function Amount(word: Word): nat { word / 0x80 % 0x20 }

  function Rotation(word: Word): nat { word / 0x100 % 0x10 }

  predicate TakesCarry(c: Class, word: Word) {
    match c
    case Arithmetic(carryIn, ror) => carryIn || (ror && Amount(word) == 0)
    case Logic(ByOther(ror)) => ror && Amount(word) == 0
    case _ => false
  }

  /** What is written; `shifts` says whether a shift by a register is by more than zero. */
  function WrittenBy(c: Class, num: nat, word: Word, shifts: bool): set<Flag> {
    match c
    case Arithmetic(_, _) => ALL_FLAGS
    case Logic(ByLsl) => if Amount(word) == 0 then {N, Z} else {N, Z, C}
    case Logic(ByOther(_)) => {N, Z, C}
    case Logic(ByRegister) => if shifts then {N, Z, C} else {N, Z}
    case Logic(ByImmediate) => if Rotation(word) == 0 then {N, Z} else {N, Z, C}
    case Multiply => if !Bit(word, 20) then {} else if num == 1 then {N, Z, C} else {N, Z}
  }

  /** From the carry, if it is taken in, and the rest. */
  type Operation<!W> = (bool, W) -> (set<Flag>, W)

  function StepOf<W>(c: Class, num: nat, word: Word, f: Operation<W>, shifts: W -> bool): Step<W> {
    (flags: set<Flag>, w: W) =>
      if CheckCondition(word / 0x1000_0000, flags) then
        Effect(WrittenBy(c, num, word, shifts(w)), f(TakesCarry(c, word) && C in flags, w).0,
          f(TakesCarry(c, word) && C in flags, w).1)
      else Effect({}, {}, w)
  }

  /** Flags with which a condition holds. */
  function Satisfying(cond: nat): set<Flag> {
    match cond
    case 0x0 => {Z}
    case 0x2 => {C}
    case 0x4 => {N}
    case 0x6 => {V}
    case 0x8 => {C}
    case 0xB => {N}
    case 0xD => {Z}
    case _ => {}
  }

  lemma SatisfyingHolds(cond: nat)
    requires cond <= 0xE
    ensures CheckCondition(cond, Satisfying(cond))
  {
    hide CheckCondition;
    if cond < 0xE {
      ConditionMeans(cond, Satisfying(cond));
    } else {
      AlwaysTrue({});
    }
  }

  lemma Certain(res: Decoded, c: Class, word: Word)
    requires ArmFlags(res, EntryOf(c), word)
    ensures TakesCarry(c, word) ==> C in res.readFlags
    ensures res.always == if word / 0x1000_0000 < 0xE then {}
        else WrittenBy(c, 0, word, false)
    ensures res.always + res.maybe == WrittenBy(c, 0, word, true)
  {
    hide Bit, FlagsReadPerCond;
  }

  lemma Looks<W>(res: Decoded, c: Class, num: nat, word: Word, f: Operation<W>, shifts: W -> bool, x: set<Flag>,
      y: set<Flag>, w: W)
    requires ArmFlags(res, EntryOf(c), word) && word / 0x1000_0000 <= 0xE && x * res.readFlags == y * res.readFlags
    ensures StepOf(c, num, word, f, shifts)(x, w) == StepOf(c, num, word, f, shifts)(y, w)
  {
    hide CheckCondition, EntryOf, WrittenBy, TakesCarry;
    Certain(res, c, word);
    if word / 0x1000_0000 < 0xE {
      ArmConditional(res, EntryOf(c), word, x, y);
    } else {
      AlwaysTrue(x);
      AlwaysTrue(y);
    }
    if TakesCarry(c, word) {
      assert C in x * res.readFlags <==> C in y * res.readFlags;
    }
  }

  lemma WrittenBounds(c: Class, num: nat, word: Word, shifts: bool)
    ensures WrittenBy(c, 0, word, false) <= WrittenBy(c, num, word, shifts)
    ensures !(c.Multiply? && num == 1 && Bit(word, 20)) ==>
        WrittenBy(c, num, word, shifts) <= WrittenBy(c, 0, word, true)
    ensures c.Multiply? && num == 1 && Bit(word, 20) ==>
        C in WrittenBy(c, num, word, shifts) && C !in WrittenBy(c, 0, word, true)
  {
    hide Bit;
    forall x: Flag
      ensures x in ALL_FLAGS
    {
      AllFlags(x);
    }
  }

  /** Every such instruction obeys what is decoded of its flags, whatever it computes, if and only if it is not a
      multiplication with the S bit on the ARM7: that clears the carry, of which nothing is said. */
  lemma FlagsObeyIff<W(!new)>(res: Decoded, c: Class, num: nat, word: Word, f: Operation<W>, shifts: W -> bool,
      world: W)
    requires ArmFlags(res, EntryOf(c), word) && word / 0x1000_0000 <= 0xE
    ensures Obeys(StepOf(c, num, word, f, shifts), ForFlagPass(res))
        <==> !(c.Multiply? && num == 1 && Bit(word, 20))
  {
    hide Bit, CheckCondition, EntryOf, WrittenBy, TakesCarry;
    var cond, step := word / 0x1000_0000, StepOf(c, num, word, f, shifts);
    Certain(res, c, word);
    forall x, w
      ensures cond == 0xE ==> CheckCondition(cond, x)
      ensures !(c.Multiply? && num == 1 && Bit(word, 20)) ==> res.always <= step(x, w).written <= res.always + res.maybe
    {
      AlwaysTrue(x);
      WrittenBounds(c, num, word, shifts(w));
    }
    forall x, y, w | x * res.readFlags == y * res.readFlags
      ensures step(x, w) == step(y, w)
    {
      Looks(res, c, num, word, f, shifts, x, y, w);
    }
    if c.Multiply? && num == 1 && Bit(word, 20) {
      SatisfyingHolds(cond);
      WrittenBounds(c, num, word, shifts(world));
      assert C in step(Satisfying(cond), world).written;
    }
  }
}
