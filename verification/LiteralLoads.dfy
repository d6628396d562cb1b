/**
 Loads relative to r15. While instructions are fetched, one function decides which literals are noted in
 a block's ranges and hashed; while they are compiled, another decides which are read then and folded into
 the code. Literal optimisations are on.
 */
module LiteralLoads {
  import Arithmetic
  import opened MachineWords

  /** The guest address mapping, fixed throughout: CPU number and address to local address. */
  type Mapping = (nat, nat) -> nat

  /** The kinds of load with an immediate offset, not post-indexed; the last one is Thumb's. */
  datatype Kind = LdrImm | LdrbImm | LdrhImm | LdrsbImm | LdrshImm | LdrPcRel | OtherKind

  /** A fetched instruction. A Thumb instruction has sixteen bits. */
  datatype Instr = Instr(thumb: bool, kind: Kind, word: Word, addr: Word)
  {
    /** The `R15` an instruction sees. */
    function R15(): nat { addr + if thumb then 4 else 8 }
  }

  datatype Address = Nowhere | At(addr: Word)

  /** `a & ~2`. */
  function WithoutBit1(a: nat): nat { a / 4 * 4 + a % 2 }

  /** An offset with the sign bit 23 gives it. */
  function Signed(i: Instr, offset: int): int { if Bit(i.word, 23) then offset else -offset }

  // ---- While fetching ------------------------------------------------------------------------

  /** `special_LoadLiteral`: a load that reads no register but r15. */
  predicate LoadsLiteral(i: Instr) {
    if i.thumb then i.kind.LdrPcRel? else !i.kind.OtherKind? && !i.kind.LdrPcRel? && Field(i.word, 16) == 15
  }

  function DecodeLiteral(i: Instr): Address {
    if !i.thumb then
      match i.kind
      case LdrImm => At(Wrap(i.addr + 8 + Signed(i, i.word % 0x1000)))
      case LdrbImm => At(Wrap(i.addr + 8 + Signed(i, i.word % 0x1000)))
      case LdrhImm => At(Wrap(i.addr + 8 + Signed(i, i.word / 0x100 % 0x10 * 0x10 + i.word % 0x10)))
      case _ => Nowhere
    else if i.kind.LdrPcRel? then At(Wrap(WithoutBit1(i.addr + 4) + i.word % 0x100 * 4))
    else Nowhere
  }

  /** The literal CompileBlock notes for an instruction, given the literals known to be written to. */
  function Noted(i: Instr, num: nat, mapping: Mapping, invalid: set<nat>): Address {
    if LoadsLiteral(i) && DecodeLiteral(i).At? && mapping(num, DecodeLiteral(i).addr) !in invalid then DecodeLiteral(i)
    else Nowhere
  }

  // ---- While compiling -----------------------------------------------------------------------

  /** Not r15 itself, indexed before, no writeback: what `Comp_MemAccess` asks of an ARM load. */
  predicate Foldable(i: Instr) {
    LoadsLiteral(i) && (i.thumb || (Field(i.word, 12) != 15 && Bit(i.word, 24) && !Bit(i.word, 21)))
  }

  function FirstTry(i: Instr): Address {
    if !Foldable(i) then Nowhere
    else if i.thumb then At(Wrap(WithoutBit1(i.R15()) + i.word % 0x100 * 4))
    else if i.kind.LdrImm? || i.kind.LdrbImm? then At(Wrap(i.R15() + Signed(i, i.word % 0x1000)))
    else At(Wrap(i.R15() + Signed(i, i.word % 0x10 + i.word / 0x100 % 0x10 * 0x10)))
  }

  /** A Thumb load that could not be folded goes on to `Comp_MemAccess`, which tries again with the offset
      added to r15 as it is, bit 1 included. */
  function SecondTry(i: Instr): Address {
    if i.thumb && i.kind.LdrPcRel? then At(Wrap(i.R15() + i.word % 0x100 * 4)) else Nowhere
  }

  /** The address from which the compiler folds the literal of an instruction, given the literals known to be
      written to by then. */
  function Folded(i: Instr, num: nat, mapping: Mapping, invalid: set<nat>): Address {
    if FirstTry(i).At? && mapping(num, FirstTry(i).addr) !in invalid then FirstTry(i)
    else if SecondTry(i).At? && mapping(num, SecondTry(i).addr) !in invalid then SecondTry(i)
    else Nowhere
  }

  // ---- Where the two disagree ----------------------------------------------------------------

  /** The instruction's literal is folded, though it was not noted. */
  predicate Slips(i: Instr, num: nat, mapping: Mapping, before: set<nat>, after: set<nat>) {
    Folded(i, num, mapping, after).At? && Noted(i, num, mapping, before).Nowhere?
  }

  /** Both compute the same address. */
  lemma TriesDecoded(i: Instr)
    ensures DecodeLiteral(i).At? && FirstTry(i).At? ==> DecodeLiteral(i) == FirstTry(i)
    ensures SecondTry(i).At? ==> DecodeLiteral(i).At? && FirstTry(i).At?
  {
    hide Field, Bit;
  }

  /** The second try reads from the same aligned word. */
  lemma SecondTryNear(i: Instr)
    requires SecondTry(i).At? && i.addr % 2 == 0
    ensures FirstTry(i).addr % 4 == 0
    ensures SecondTry(i).addr == FirstTry(i).addr + if i.addr % 4 == 0 then 0 else 2
    ensures SecondTry(i).addr / 4 == FirstTry(i).addr / 4
  {
    hide Field, Bit, WithoutBit1, Wrap;
    var r, n := i.R15(), i.word % 0x100;
    Split(i.addr);
    WrapNear(r / 4 + n, if i.addr % 4 == 0 then 0 else 2);
  }

  lemma Split(a: nat)
    requires a % 2 == 0
    ensures WithoutBit1(a + 4) == 4 * ((a + 4) / 4) && a + 4 == 4 * ((a + 4) / 4) + if a % 4 == 0 then 0 else 2
  {
    hide WithoutBit1;
    var q, r := a / 4, a % 4;
    assert a == 4 * q + r;
    Quarter(a, q, r);
    Quarter(a + 4, q + 1, r);
    assert WithoutBit1(a + 4) == 4 * (q + 1) by {
      Bit1Cleared(a + 4, q + 1, r);
    }
  }

  lemma Quarter(a: nat, q: nat, r: nat)
    requires a == 4 * q + r && r < 4
    ensures a / 4 == q && a % 4 == r && a % 2 == r % 2
  {
    assert a == 2 * (2 * q + r / 2) + r % 2;
  }

  lemma Bit1Cleared(a: nat, q: nat, r: nat)
    requires a == 4 * q + r && r < 4 && r % 2 == 0
    ensures WithoutBit1(a) == 4 * q
  {
    Quarter(a, q, r);
  }

  lemma WrapOf(k: nat, b: nat)
    requires b < 4
    ensures Wrap(4 * k + b) == 4 * (k % 0x4000_0000) + b
  {
    var n := 0x4000_0000;
    Arithmetic.Euclid(k, n);
    Arithmetic.Quotient(4 * k + b, 4 * n, k / n);
  }

  lemma WrapNear(k: nat, b: nat)
    requires b < 4
    ensures Wrap(4 * k) % 4 == 0 && Wrap(4 * k + b) == Wrap(4 * k) + b && Wrap(4 * k + b) / 4 == Wrap(4 * k) / 4
  {
    hide Wrap;
    WrapOf(k, 0);
    WrapOf(k, b);
    Quarter(4 * (k % 0x4000_0000), k % 0x4000_0000, 0);
    Quarter(4 * (k % 0x4000_0000) + b, k % 0x4000_0000, b);
  }

  /** When a literal slips: a signed load, whose kind `DecodeLiteral` does not know, of a literal that is not
      invalid; any other load of one that was invalid and is so no more; or, from an address that is 2 modulo
      4, a Thumb load of one that is invalid throughout, on its second try. */
  lemma SlipsWhen(i: Instr, num: nat, mapping: Mapping, before: set<nat>, after: set<nat>)
    requires i.addr % 2 == 0
    ensures Slips(i, num, mapping, before, after) <==>
              Foldable(i) &&
              var literal := mapping(num, FirstTry(i).addr);
              if !i.thumb && (i.kind.LdrsbImm? || i.kind.LdrshImm?) then literal !in after
              else (literal in before &&
                    (literal !in after || (i.thumb && i.addr % 4 == 2 && mapping(num, SecondTry(i).addr) !in after)))
  {
    hide Field, Bit;
    TriesDecoded(i);
    if SecondTry(i).At? {
      SecondTryNear(i);
    }
  }

  /** Without a reset while compiling, nothing that was invalid becomes valid, and only the first and the last
      of these remain. */
  lemma SlipsWithoutReset(i: Instr, num: nat, mapping: Mapping, before: set<nat>, after: set<nat>)
    requires i.addr % 2 == 0 && before <= after
    ensures Slips(i, num, mapping, before, after) <==>
              Foldable(i) &&
              var literal := mapping(num, FirstTry(i).addr);
              if !i.thumb && (i.kind.LdrsbImm? || i.kind.LdrshImm?) then literal !in after
              else i.thumb && i.addr % 4 == 2 && literal in before && mapping(num, SecondTry(i).addr) !in after
  {
    hide Slips, FirstTry, SecondTry, Foldable;
    SlipsWhen(i, num, mapping, before, after);
  }

  predicate HalvesEqual(word: Word) { word / 0x1_0000 == word % 0x1_0000 }

  lemma HalvesTurned(word: Word)
    ensures Rotated(word, 0) == word
    ensures Rotated(word, 2) == word <==> HalvesEqual(word)
  {
    var h, l := word / 0x1_0000, word % 0x1_0000;
    assert word == 0x1_0000 * h + l && h < 0x1_0000;
    assert Rotated(word, 2) == h + 0x1_0000 * l;
  }

  /** Only the place within a word counts. */
  lemma RotatedBy(word: Word, addr: nat)
    ensures Rotated(word, addr) == Rotated(word, addr % 4)
  {
    assert addr % 4 % 4 == addr % 4;
  }

  lemma RotatedHere(word: Word, addr: nat, next: nat)
    requires addr % 4 == 0 && next == addr + 2
    ensures Rotated(word, addr) == word
    ensures Rotated(word, next) == word <==> HalvesEqual(word)
  {
    hide Rotated, HalvesEqual;
    assert next % 4 == 2;
    RotatedBy(word, addr);
    RotatedBy(word, next);
    HalvesTurned(word);
  }

  /** The second try also folds the wrong value: the word turned by sixteen bits. It is the one the instruction
      loads if and only if the halves of the word are equal. */
  lemma SecondTryTurned(i: Instr, word: Word)
    requires SecondTry(i).At? && i.addr % 4 == 2
    ensures FirstTry(i).At? && Rotated(word, FirstTry(i).addr) == word
    ensures Rotated(word, SecondTry(i).addr) == word <==> HalvesEqual(word)
  {
    hide *;
    TriesDecoded(i);
    SecondTryTwo(i);
    RotatedHere(word, FirstTry(i).addr, SecondTry(i).addr);
  }

  lemma SecondTryTwo(i: Instr)
    requires SecondTry(i).At? && i.addr % 4 == 2
    ensures FirstTry(i).At? && FirstTry(i).addr % 4 == 0 && SecondTry(i).addr == FirstTry(i).addr + 2
  {
    hide *;
    TriesDecoded(i);
    assert i.addr % 2 == 0;
    SecondTryNear(i);
  }
}
