/**
 The address that is noted for a literal while fetching, and the one that is folded from at the first try while
 compiling, are the one the load itself accesses when it is interpreted.
 */
module LiteralAddresses {
  import opened MachineWords
  import opened LiteralLoads
  import SingleTransfers

  type Regs = SingleTransfers.Regs

  function OpOf(kind: Kind): SingleTransfers.Op {
    match kind
    case LdrbImm => SingleTransfers.Ldrb
    case LdrhImm => SingleTransfers.Ldrh
    case LdrsbImm => SingleTransfers.Ldrsb
    case LdrshImm => SingleTransfers.Ldrsh
    case _ => SingleTransfers.Ldr
  }

  /** The address an interpreted load accesses, with these registers. */
  function Accessed(i: Instr, x: Regs): Word {
    if i.thumb then SingleTransfers.PcRelative(i.word, x) else SingleTransfers.Moved(OpOf(i.kind), i.word, x)
  }

  /** What is subtracted is subtracted, and what is added is added. */
  lemma AccessedMeans(i: Instr, x: Regs)
    requires LoadsLiteral(i) && !i.thumb
    ensures var imm := if i.kind.LdrImm? || i.kind.LdrbImm? then i.word % 0x1000
            else i.word % 0x10 + 0x10 * (i.word / 0x100 % 0x10);
            if Bit(i.word, 23) then Accessed(i, x) == Wrap(x[15] + imm) else Wrap(Accessed(i, x) + imm) == x[15]
  {
    hide Bit, Field, Wrap;
    var op := OpOf(i.kind);
    var imm := if op.Wide() then i.word % 0x1000 else i.word % 0x10 + i.word / 0x100 % 0x10 * 0x10;
    WrapSmall(x[15]);
    if Bit(i.word, 23) {
      assert SingleTransfers.Offset(op, i.word) == imm;
    } else {
      WrapAdd(-imm, x[15]);
      WrapAdd(x[15] - imm, imm);
    }
  }

  /** The noted address. */
  lemma NotedIsAccessed(i: Instr, x: Regs)
    requires LoadsLiteral(i) && DecodeLiteral(i).At? && x[15] == Wrap(i.R15())
    ensures DecodeLiteral(i).addr == Accessed(i, x)
  {
    hide Bit, Field, Wrap, WithoutBit1;
    if i.thumb {
      Bit1Dropped(i.R15(), i.word % 0x100 * 4);
    } else {
      SignedOffset(i, x);
    }
  }

  /** And the folded one. */
  lemma FoldedIsAccessed(i: Instr, x: Regs)
    requires FirstTry(i).At? && x[15] == Wrap(i.R15())
    ensures FirstTry(i).addr == Accessed(i, x)
  {
    hide Bit, Field, Wrap, WithoutBit1;
    if i.thumb {
      Bit1Dropped(i.R15(), i.word % 0x100 * 4);
    } else {
      SignedOffset(i, x);
    }
  }

  lemma SignedOffset(i: Instr, x: Regs)
    requires LoadsLiteral(i) && !i.thumb && x[15] == Wrap(i.R15())
    ensures var imm := if i.kind.LdrImm? || i.kind.LdrbImm? then i.word % 0x1000
            else i.word % 0x10 + i.word / 0x100 % 0x10 * 0x10;
            Accessed(i, x) == Wrap(i.R15() + Signed(i, imm))
  {
    hide Bit, Field, Wrap;
    var op := OpOf(i.kind);
    var imm := if op.Wide() then i.word % 0x1000 else i.word % 0x10 + i.word / 0x100 % 0x10 * 0x10;
    var offset := SingleTransfers.Offset(op, i.word);
    SumWraps(if Bit(i.word, 23) then imm else -imm, i.R15());
    WrapSmall(imm);
    assert offset == Wrap(if Bit(i.word, 23) then imm else -imm);
  }

  lemma SumWraps(a: int, b: int)
    ensures Wrap(Wrap(a) + Wrap(b)) == Wrap(a + b)
  {
    hide Wrap;
    WrapAdd(a, Wrap(b));
    WrapAdd(b, a);
  }

  lemma Bit1Dropped(a: nat, n: nat)
    ensures var r: nat := Wrap(a); Wrap(WithoutBit1(a) + n) == Wrap(r - r / 2 % 2 * 2 + n)
  {
    hide Wrap;
    WithoutBit1Is(a);
    var k, r := a / 0x1_0000_0000, Wrap(a);
    assert a == 0x1_0000_0000 * k + r by { Whole(a); }
    SameBit1(k, r);
    Cycles(k, r - r / 2 % 2 * 2 + n);
  }

  lemma Whole(a: nat)
    ensures a == 0x1_0000_0000 * (a / 0x1_0000_0000) + Wrap(a)
  {
  }

  lemma WithoutBit1Is(a: nat)
    ensures WithoutBit1(a) == a - a / 2 % 2 * 2
  {
    var q, r := a / 4, a % 4;
    assert a == 4 * q + r;
    assert a / 2 == 2 * q + r / 2;
    assert a % 2 == r % 2;
  }

  lemma SameBit1(k: nat, r: nat)
    ensures (0x1_0000_0000 * k + r) / 2 % 2 == r / 2 % 2
  {
    var q := 0x4000_0000 * k;
    assert 0x1_0000_0000 * k == 4 * q;
    Quarters(q, r);
  }

  lemma Quarters(q: nat, r: nat)
    ensures (4 * q + r) / 2 % 2 == r / 2 % 2
  {
    assert (4 * q + r) / 2 == 2 * q + r / 2;
  }

  lemma Cycles(k: nat, n: int)
    ensures Wrap(0x1_0000_0000 * k + n) == Wrap(n)
  {
  }
}
