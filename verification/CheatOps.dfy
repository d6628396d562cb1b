/**
 What the cheat interpreter's operations on words come to, bit by bit: the operations on the data register, the
 comparisons under a mask, and conditions within conditions.
 */
module CheatOps {
  import Arithmetic
  import opened MachineWords
  import opened WordBits
  import opened CheatVm

  // ---- And, or, exclusive or -----------------------------------------------------------------

  lemma {:induction false} AndBits(x: nat, y: nat, k: nat)
    ensures Bit(And(x, y), k) <==> Bit(x, k) && Bit(y, k)
  {
    BitUp(0, k);
    NoBits(k);
    if x > 0 && y > 0 {
      var a := And(x / 2, y / 2);
      assert And(x, y) / 2 == a;
      if k > 0 {
        BitUp(x, k - 1);
        BitUp(y, k - 1);
        BitUp(And(x, y), k - 1);
        AndBits(x / 2, y / 2, k - 1);
      } else {
        BitUp(x, 0);
        BitUp(y, 0);
        BitUp(And(x, y), 0);
      }
    }
  }

  /** Taking away what two numbers share leaves the bits the first has for itself. */
  lemma {:induction false} WithoutBits(x: nat, y: nat, k: nat)
    ensures Bit(x - And(x, y), k) <==> Bit(x, k) && !Bit(y, k)
  {
    NoBits(k);
    if x > 0 && y > 0 {
      var r := x - And(x, y);
      AndHalves(x, y);
      if k > 0 {
        BitUp(x, k - 1);
        BitUp(y, k - 1);
        BitUp(r, k - 1);
        WithoutBits(x / 2, y / 2, k - 1);
      } else {
        BitUp(x, 0);
        BitUp(y, 0);
        BitUp(r, 0);
      }
    }
  }

  lemma {:induction false} AndCommutes(x: nat, y: nat)
    ensures And(x, y) == And(y, x)
  {
    if x > 0 && y > 0 {
      AndCommutes(x / 2, y / 2);
    }
  }

  /** Numbers without a common bit add up to all the bits of both. */
  lemma {:induction false} SumBits(x: nat, y: nat, k: nat)
    requires And(x, y) == 0
    ensures Bit(x + y, k) <==> Bit(x, k) || Bit(y, k)
  {
    NoBits(k);
    if x > 0 && y > 0 {
      assert And(x / 2, y / 2) == 0;
      assert (x + y) / 2 == x / 2 + y / 2 && (x + y) % 2 == x % 2 + y % 2;
      if k > 0 {
        BitUp(x, k - 1);
        BitUp(y, k - 1);
        BitUp(x + y, k - 1);
        SumBits(x / 2, y / 2, k - 1);
      } else {
        BitUp(x, 0);
        BitUp(y, 0);
        BitUp(x + y, 0);
      }
    }
  }

  lemma {:induction false} SumBelow(x: nat, y: nat, n: nat)
    requires And(x, y) == 0 && x < Pow2(n) && y < Pow2(n)
    ensures x + y < Pow2(n)
  {
    if x > 0 && y > 0 && n > 0 {
      assert And(x / 2, y / 2) == 0;
      SumBelow(x / 2, y / 2, n - 1);
      assert x + y == 2 * (x / 2 + y / 2) + x % 2 + y % 2;
    }
  }

  lemma SumFits(x: Word, y: Word)
    requires And(x, y) == 0
    ensures x + y < 0x1_0000_0000
  {
    hide And;
    WordPower();
    SumBelow(x, y, 32);
  }

  lemma AndHalves(x: nat, y: nat)
    ensures (x - And(x, y)) / 2 == x / 2 - And(x / 2, y / 2)
    ensures (x - And(x, y)) % 2 == if x % 2 == 1 && y % 2 == 0 then 1 else 0
  {
  }

  lemma AndStep(x: nat, y: nat)
    requires x % 2 == 0 || y % 2 == 0
    requires And(x / 2, y / 2) == 0
    ensures And(x, y) == 0
  {
  }

  /** What is left of one number shares nothing with the other, and nothing with what is left of that. */
  lemma {:induction false} ApartFrom(x: nat, y: nat)
    ensures And(x - And(x, y), y) == 0
    ensures And(x - And(x, y), y - And(x, y)) == 0
  {
    if x > 0 && y > 0 {
      ApartFrom(x / 2, y / 2);
      AndHalves(x, y);
      AndHalves(y, x);
      AndCommutes(x, y);
      AndCommutes(x / 2, y / 2);
      var r, s := x - And(x, y), y - And(x, y);
      AndStep(r, y);
      AndStep(r, s);
    }
  }

  lemma WordPower()
    ensures Pow2(32) == 0x1_0000_0000 && Pow2(31) == 0x8000_0000 && Pow2(16) == 0x1_0000
  {
    assert Pow2(8) == 0x100;
    assert Pow2(16) == 0x1_0000;
    assert Pow2(24) == 0x100_0000;
    assert Pow2(31) == 0x8000_0000;
  }

  // ---- Shifts by one -------------------------------------------------------------------------

  lemma OverTop(w: Word, k: nat)
    requires k >= 32
    ensures !Bit(w, k)
  {
    WordPower();
    NoBitsAbove(w, 32, k);
  }

  lemma TopItself(w: nat, n: nat)
    requires w < Pow2(n)
    ensures Bit(w + Pow2(n), n)
  {
    hide Pow2;
    Arithmetic.Quotient(w + Pow2(n), Pow2(n), 1);
  }

  /** Bits from the top on are those of the whole, those below are those of the remainder. */
  lemma {:induction false} TopBit(w: nat, n: nat, k: nat)
    requires w < Pow2(n) && k <= n
    ensures Bit(w + Pow2(n), k) <==> k == n || Bit(w, k)
  {
    hide Bit;
    if k == n {
      TopItself(w, n);
    } else {
      assert Pow2(n) == 2 * Pow2(n - 1);
      hide Pow2;
      BitUp(w + Pow2(n), if k == 0 then 0 else k - 1);
      BitUp(w, if k == 0 then 0 else k - 1);
      if k > 0 {
        TopBit(w / 2, n - 1, k - 1);
      }
    }
  }

  lemma TopIs(w: Word)
    ensures Bit(w, 31) <==> w >= 0x8000_0000
  {
    WordPower();
  }

  lemma UpOne(w: Word, k: nat)
    requires k < 32
    ensures Bit(Wrap(w * 2), k) <==> k > 0 && Bit(w, k - 1)
  {
    hide Bit, Pow2;
    var r := Wrap(w * 2);
    WordPower();
    if w >= 0x8000_0000 {
      TopBit(r, 32, k);
      assert r + Pow2(32) == w * 2;
    }
    assert Bit(r, k) <==> Bit(w * 2, k);
    if k > 0 {
      BitUp(w * 2, k - 1);
    } else {
      BitUp(w * 2, 0);
    }
  }

  /** One to the right, with a bit put in at the top. */
  lemma DownOne(w: Word, top: bool, k: nat)
    requires k < 32
    ensures w / 2 + (if top then 0x8000_0000 else 0) < 0x1_0000_0000
    ensures Bit(w / 2 + if top then 0x8000_0000 else 0, k) <==> if k == 31 then top else Bit(w, k + 1)
  {
    WordPower();
    BitUp(w, k);
    if top {
      TopBit(w / 2, 31, k);
    }
    OverTop(w, 32);
  }

  // ---- Shifts --------------------------------------------------------------------------------

  lemma {:induction false} ShlBits(d: Word, n: nat, k: nat)
    requires k < 32
    ensures Bit(Shl(d, n), k) <==> k >= n && Bit(d, k - n)
    decreases n
  {
    if n > 0 {
      ShlBits(Wrap(d * 2), n - 1, k);
      if k >= n - 1 {
        UpOne(d, k - (n - 1));
      }
    }
  }

  lemma {:induction false} ShrBits(d: Word, n: nat, k: nat)
    ensures Bit(Shr(d, n), k) <==> Bit(d, k + n)
    decreases n
  {
    if n > 0 {
      ShrBits(d / 2, n - 1, k);
      BitUp(d, k + n - 1);
    }
  }

  lemma {:induction false} AsrBits(d: Word, n: nat, k: nat)
    requires k < 32
    ensures Bit(Asr(d, n), k) <==> Bit(d, if k + n < 32 then k + n else 31)
    decreases n
  {
    if n > 0 {
      var top := d >= 0x8000_0000;
      TopIs(d);
      DownOne(d, top, 31);
      AsrBits(d / 2 + if top then 0x8000_0000 else 0, n - 1, k);
      DownOne(d, top, if k + n - 1 < 32 then k + n - 1 else 31);
    }
  }

  lemma {:induction false} RorBits(d: Word, n: nat, k: nat)
    requires k < 32
    ensures Bit(Ror(d, n), k) <==> Bit(d, (k + n) % 32)
    decreases n
  {
    hide Bit, Pow2, RorOne;
    if n > 0 {
      TurnOne(d, (k + n - 1) % 32);
      RorBits(RorOne(d), n - 1, k);
      NextPlace(k + n - 1);
    }
  }

  lemma TurnOne(d: Word, k: nat)
    requires k < 32
    ensures Bit(RorOne(d), k) <==> Bit(d, (k + 1) % 32)
  {
    hide Bit, Pow2;
    BitUp(d, 0);
    DownOne(d, d % 2 == 1, k);
  }

  lemma NextPlace(k: nat)
    ensures (k % 32 + 1) % 32 == (k + 1) % 32
  {
  }

  // ---- The operations ------------------------------------------------------------------------

  /** The bit operations of D4 as C defines them: or, and, exclusive or, shifts to the left and the right by
      the low byte of the operand (nothing is left from 32 on, or the sign only), and the rotation. */
  ghost predicate BitOf(sub: nat, d: Word, b: Word, k: nat) {
    var n := b % 0x100;
    match sub
    case 1 => Bit(d, k) || Bit(b, k)
    case 2 => Bit(d, k) && Bit(b, k)
    case 3 => Bit(d, k) != Bit(b, k)
    case 4 => k >= n && Bit(d, k - n)
    case 5 => k + n < 32 && Bit(d, k + n)
    case 6 => Bit(d, (k + b) % 32)
    case _ => Bit(d, if k + n < 32 then k + n else 31)
  }

  lemma OrBits(d: Word, b: Word, k: nat)
    ensures Bit(DataOp(1, d, b), k) <==> Bit(d, k) || Bit(b, k)
  {
    hide And, Bit, Pow2;
    var r := d - And(d, b);
    ApartFrom(d, b);
    SumFits(r, b);
    SumBits(r, b, k);
    WithoutBits(d, b, k);
  }

  lemma XorBits(d: Word, b: Word, k: nat)
    ensures Bit(DataOp(3, d, b), k) <==> Bit(d, k) != Bit(b, k)
  {
    hide And, Bit, Pow2;
    var r, s := d - And(d, b), b - And(d, b);
    ApartFrom(d, b);
    SumFits(r, s);
    SumBits(r, s, k);
    WithoutBits(d, b, k);
    AndCommutes(d, b);
    WithoutBits(b, d, k);
  }

  lemma TurnedBits(d: Word, b: Word, k: nat)
    requires k < 32
    ensures Bit(Ror(d, b % 0x20), k) <==> Bit(d, (k + b) % 32)
  {
    hide Bit, Ror;
    RorBits(d, b % 0x20, k);
    PlaceOnce(k, b);
  }

  lemma PlaceOnce(k: nat, n: nat)
    ensures (k + n % 0x20) % 32 == (k + n) % 32
  {
  }

  lemma ShiftsAre(d: Word, b: Word, n: nat)
    requires n == b % 0x100
    ensures DataOp(4, d, b) == if n > 31 then 0 else Shl(d, n)
    ensures DataOp(5, d, b) == if n > 31 then 0 else Shr(d, n)
    ensures DataOp(6, d, b) == Ror(d, b % 0x20)
    ensures DataOp(7, d, b) == Asr(d, if n > 31 then 31 else n)
  {
    hide And, Wrap, Shl, Shr, Asr, Ror;
  }

  lemma ShiftBits(sub: nat, d: Word, b: Word, k: nat)
    requires 4 <= sub <= 7 && k < 32
    ensures Bit(DataOp(sub, d, b), k) <==> BitOf(sub, d, b, k)
  {
    hide Bit, Shl, Shr, Asr, Ror, Pow2, DataOp;
    var n := b % 0x100;
    ShiftsAre(d, b, n);
    NoBits(k);
    if sub == 4 {
      ShlBits(d, n, k);
    } else if sub == 5 {
      ShrBits(d, n, k);
      if k + n >= 32 {
        OverTop(d, k + n);
      }
    } else if sub == 6 {
      TurnedBits(d, b, k);
    } else {
      AsrBits(d, if n > 31 then 31 else n, k);
    }
  }

  /** Every operation on the data register gives the word with the bits C's operator gives, and the sum and
      the product are those modulo 2^32. An unknown one changes nothing. */
  lemma DataOpMeans(sub: nat, d: Word, b: Word)
    ensures 1 <= sub <= 7 ==> forall k: nat | k < 32 :: Bit(DataOp(sub, d, b), k) <==> BitOf(sub, d, b, k)
    ensures sub == 0 ==> exists carry: nat :: DataOp(sub, d, b) + carry * 0x1_0000_0000 == d + b
    ensures sub == 8 ==> exists high: nat :: DataOp(sub, d, b) + high * 0x1_0000_0000 == d * b
    ensures sub > 8 ==> DataOp(sub, d, b) == d
  {
    forall k: nat | 1 <= sub <= 7 && k < 32 ensures Bit(DataOp(sub, d, b), k) <==> BitOf(sub, d, b, k) {
      if sub == 1 {
        OrBits(d, b, k);
      } else if sub == 2 {
        AndBits(d, b, k);
      } else if sub == 3 {
        XorBits(d, b, k);
      } else {
        ShiftBits(sub, d, b, k);
      }
    }
    Overflow(d + b);
    Overflow(d * b);
  }

  lemma Overflow(a: nat)
    ensures exists high: nat :: Wrap(a) + high * 0x1_0000_0000 == a
  {
    var high: nat := a / 0x1_0000_0000;
    assert Wrap(a) + high * 0x1_0000_0000 == a;
  }

  // ---- Comparisons ---------------------------------------------------------------------------

  /** The halfword read, without the bits that are set in the high half of the operand. */
  ghost predicate IsMasked(half: nat, b: Word, v: Word) {
    half < 0x1_0000 && forall k: nat | k < 16 :: Bit(half, k) <==> Bit(v, k) && !Bit(b, k + 16)
  }

  lemma HalfBits(w: Word, k: nat)
    requires k < 16
    ensures Bit(w % 0x1_0000, k) <==> Bit(w, k)
    ensures Bit(w / 0x1_0000, k) <==> Bit(w, k + 16)
  {
    WordPower();
    ShiftedBits(w, 16, k, w / 0x1_0000);
    LowBits(w, 16, k);
  }

  lemma MaskedIs(half: nat, b: Word, v: Word)
    requires IsMasked(half, b, v)
    ensures half == v % 0x1_0000 - And(b / 0x1_0000, v % 0x1_0000)
  {
    var low, mask := v % 0x1_0000, b / 0x1_0000;
    AndCommutes(mask, low);
    var r := low - And(low, mask);
    forall k: nat | k < 16 ensures Bit(half, k) == Bit(r, k) {
      HalfBits(v, k);
      HalfBits(b, k);
      WithoutBits(low, mask, k);
    }
    WordPower();
    SameBits(half, r, 16);
  }

  /** Codes 3 to 6 compare the operand with the word read; 7 to A its low half with the halfword read, without
      the bits set in its high half. */
  lemma HoldsMeans(op: nat, b: Word, v: Word, half: nat)
    requires 0x30 <= op < 0xB0 && IsMasked(half, b, v)
    ensures 0x30 <= op < 0x40 ==> (Holds(op, b, v) <==> v < b)
    ensures 0x40 <= op < 0x50 ==> (Holds(op, b, v) <==> b < v)
    ensures 0x50 <= op < 0x60 ==> (Holds(op, b, v) <==> b == v)
    ensures 0x60 <= op < 0x70 ==> (Holds(op, b, v) <==> b != v)
    ensures 0x70 <= op < 0x80 ==> (Holds(op, b, v) <==> half < b % 0x1_0000)
    ensures 0x80 <= op < 0x90 ==> (Holds(op, b, v) <==> b % 0x1_0000 < half)
    ensures 0x90 <= op < 0xA0 ==> (Holds(op, b, v) <==> b % 0x1_0000 == half)
    ensures 0xA0 <= op < 0xB0 ==> (Holds(op, b, v) <==> b % 0x1_0000 != half)
  {
    hide IsMasked;
    MaskedIs(half, b, v);
  }

  // ---- Conditions within conditions ----------------------------------------------------------

  predicate IsIf(a: Word) { 0x30 <= Op(a) < 0xB0 }

  predicate IsEndIf(a: Word) { Op(a) == 0xD0 }

  /** The state behind an instruction that does not end the run. */
  function Behind(code: seq<Word>, bus: Bus, s: Vm): Vm
    requires s.pc + 2 <= |code| && Next(code, s.pc) <= |code|
  {
    match Step(code, bus, s)
    case Running(vm) => vm
    case Halted(vm) => vm
  }

  lemma IfSteps(code: seq<Word>, bus: Bus, s: Vm)
    requires s.pc + 2 <= |code| && IsIf(code[s.pc])
    ensures Next(code, s.pc) == s.pc + 2
    ensures !s.cond ==> Behind(code, bus, s) == s.(pc := s.pc + 2)
    ensures s.cond ==>
        var t := Behind(code, bus, s);
        t.pc == s.pc + 2 && t.condstack == Wrap(s.condstack * 2 + 1)
  {
    hide Holds;
  }

  lemma EndIfSteps(code: seq<Word>, bus: Bus, s: Vm)
    requires s.pc + 2 <= |code| && IsEndIf(code[s.pc])
    ensures Next(code, s.pc) == s.pc + 2
    ensures Behind(code, bus, s) == s.(pc := s.pc + 2, cond := s.condstack % 2 == 1, condstack := s.condstack / 2)
  {
  }

  lemma Popped(stack: Word)
    ensures Wrap(stack * 2 + 1) % 2 == 1 && Wrap(stack * 2 + 1) / 2 % 0x8000_0000 == stack % 0x8000_0000
  {
  }

  /** An IF within an IF, and the end of the inner one: behind it the condition is that of the outer IF if and
      only if the outer IF holds. If it fails the inner one is skipped without being pushed, its end pops the
      outer condition, and what follows is executed. */
  lemma NestedIff(code: seq<Word>, bus: Bus, s: Vm)
    requires s.cond && s.pc + 6 <= |code|
    requires IsIf(code[s.pc]) && IsIf(code[s.pc + 2]) && IsEndIf(code[s.pc + 4])
    ensures Next(code, s.pc) == s.pc + 2 && Next(code, s.pc + 2) == s.pc + 4 && Next(code, s.pc + 4) == s.pc + 6
    ensures
      var outer := Behind(code, bus, s);
      && outer.pc == s.pc + 2
      && var inner := Behind(code, bus, outer);
      && inner.pc == s.pc + 4
      && var ended := Behind(code, bus, inner);
      && ended.cond
      && (ended.cond == outer.cond && ended.condstack % 0x8000_0000 == outer.condstack % 0x8000_0000 <==> outer.cond)
  {
    hide Step, Wrap, IsIf, IsEndIf, Next, Behind;
    IfSteps(code, bus, s);
    var outer := Behind(code, bus, s);
    IfSteps(code, bus, outer);
    var inner := Behind(code, bus, outer);
    EndIfSteps(code, bus, inner);
    Popped(s.condstack);
    Popped(outer.condstack);
  }
}
