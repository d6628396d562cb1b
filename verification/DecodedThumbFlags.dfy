/** The same of Thumb instructions, which set flags without being asked to. */
module DecodedThumbFlags {
  import opened MachineWords
  import opened FlagLiveness
  import opened InstrInfo
  import DecodedThumb

  /** Shifts by an amount and by a register; additions, subtractions and comparisons, which can take the carry in;
      other operations; multiplication; a conditional branch; and all that leave the flags alone. */
  datatype Class = Shift(left: bool) | ByRegister | Addition(carryIn: bool) | Logic | Multiply | Branch | Plain

  /** The flags of the entry of each, as in the table. */
  function EntryOf(c: Class): ThumbEntry {
    var other := DecodedThumb.NOTHING;
    match c
    case Shift(left) => other.(setNZ := true, setMaybeC := left, setC := !left)
    case ByRegister => other.(setNZ := true, setMaybeC := true)
    case Addition(carryIn) => other.(setNZ := true, setCV := true, readC := carryIn)
    case Logic => other.(setNZ := true)
    case Multiply => other.(setNZ := true)
    case Branch => other.(kind := ThumbBranchCond, branchAlways := true)
    case Plain => other
  }

  function Condition(word: Word): nat { word / 0x100 % 0x10 }

  /** What is written; `shifts` says whether a shift by a register is by more than zero. A shift to the right by zero
      is one by 32. */
  function WrittenBy(c: Class, num: nat, word: Word, shifts: bool): set<Flag> {
    match c
    case Shift(left) => if left && word / 0x40 % 0x20 == 0 then {N, Z} else {N, Z, C}
    case ByRegister => if shifts then {N, Z, C} else {N, Z}
    case Addition(_) => ALL_FLAGS
    case Logic => {N, Z}
    case Multiply => if num == 1 then {N, Z, C} else {N, Z}
    case _ => {}
  }

  /** What it takes from the flags: the carry, or whether the branch is taken. */
  predicate Taken(c: Class, word: Word, flags: set<Flag>) {
    match c
    case Addition(carryIn) => carryIn && C in flags
    case Branch => CheckCondition(Condition(word), flags)
    case _ => false
  }

  /** From what it takes from the flags, and the rest. */
  type Operation<!W> = (bool, W) -> (set<Flag>, W)

  function StepOf<W>(c: Class, num: nat, word: Word, f: Operation<W>, shifts: W -> bool): Step<W> {
    (flags: set<Flag>, w: W) =>
      Effect(WrittenBy(c, num, word, shifts(w)), f(Taken(c, word, flags), w).0, f(Taken(c, word, flags), w).1)
  }

  lemma Bounds(res: Decoded, c: Class, num: nat, word: Word, literals: bool, shifts: bool)
    requires ThumbDecoded(res, EntryOf(c), word, literals)
    ensures res.always <= WrittenBy(c, num, word, shifts)
    ensures WrittenBy(c, num, word, shifts) <= res.always + res.maybe <==> !(c.Multiply? && num == 1)
  {
    hide FlagsReadPerCond, ThumbRead, ThumbWritten, ThumbList;
    forall x: Flag
      ensures x in ALL_FLAGS
    {
      AllFlags(x);
    }
    assert c.Multiply? ==> C !in res.always + res.maybe;
  }

  lemma Looks(res: Decoded, c: Class, word: Word, literals: bool, x: set<Flag>, y: set<Flag>)
    requires ThumbDecoded(res, EntryOf(c), word, literals) && x * res.readFlags == y * res.readFlags
    requires c.Branch? ==> Condition(word) < 0xE
    ensures Taken(c, word, x) == Taken(c, word, y)
  {
    hide ThumbDecoded, EntryOf, FlagsReadPerCond, CheckCondition, Condition;
    FlagsLookedAt(res, c, word, literals);
    match c
    case Addition(true) =>
      assert C in x * res.readFlags <==> C in y * res.readFlags;
    case Branch =>
      ConditionReads(Condition(word), x, y);
    case _ =>
  }

  lemma FlagsLookedAt(res: Decoded, c: Class, word: Word, literals: bool)
    requires ThumbDecoded(res, EntryOf(c), word, literals)
    ensures c == Addition(true) ==> C in res.readFlags
    ensures c.Branch? ==> res.readFlags == FlagsReadPerCond(Condition(word) / 2)
  {
    hide FlagsReadPerCond, ThumbRead, ThumbWritten, ThumbList, Condition;
    HalfCondition(word);
    if c.Branch? {
      assert res.readFlags == {} + FlagsReadPerCond(word / 0x200 % 8);
    }
  }

  lemma HalfCondition(word: Word)
    ensures Condition(word) / 2 == word / 0x200 % 8
  {
    var q := word / 0x100;
    assert word / 0x200 == q / 2;
    assert q % 0x10 / 2 == q / 2 % 8;
  }

  /** Every such instruction obeys what is decoded of its flags, whatever it computes, if and only if it is not a
      multiplication on the ARM7, which clears the carry. */
  lemma FlagsObeyIff<W(!new)>(res: Decoded, c: Class, num: nat, word: Word, literals: bool, f: Operation<W>,
      shifts: W -> bool, world: W)
    requires ThumbDecoded(res, EntryOf(c), word, literals)
    requires c.Branch? ==> Condition(word) < 0xE
    ensures Obeys(StepOf(c, num, word, f, shifts), ForFlagPass(res)) <==> !(c.Multiply? && num == 1)
  {
    hide EntryOf, WrittenBy, Taken, ThumbDecoded;
    var step := StepOf(c, num, word, f, shifts);
    forall x, w
      ensures step(x, w).written == WrittenBy(c, num, word, shifts(w))
      ensures res.always <= step(x, w).written
      ensures step(x, w).written <= res.always + res.maybe <==> !(c.Multiply? && num == 1)
    {
      Bounds(res, c, num, word, literals, shifts(w));
    }
    forall x, y, w | x * res.readFlags == y * res.readFlags
      ensures step(x, w) == step(y, w)
    {
      Looks(res, c, word, literals, x, y);
    }
    if c.Multiply? && num == 1 {
      assert !(step({}, world).written <= res.always + res.maybe);
    }
  }
}
