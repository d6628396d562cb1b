/** Bytes, 16-byte blocks and 128-bit big-endian counters, as the AES code uses them. */
module Bytes {
  import opened MachineWords
  import opened WordBits
  import opened Arithmetic

  type Byte = b: nat | b < 256

  type Block = b: seq<Byte> | |b| == 16 witness seq(16, _ => 0)

  /** Exclusive or, bit by bit. */
  function XorBits(a: nat, b: nat): nat
    decreases a + b
  {
    if a == 0 && b == 0 then 0 else (a + b) % 2 + 2 * XorBits(a / 2, b / 2)
  }

  lemma {:induction false} XorBitsBound(a: nat, b: nat, n: nat, bound: nat)
    requires bound == Pow2(n) && a < bound && b < bound
    ensures XorBits(a, b) < bound
  {
    if n > 0 {
      XorBitsBound(a / 2, b / 2, n - 1, Pow2(n - 1));
    }
  }

  lemma Parity(low: nat, high: nat)
    requires low < 2
    ensures (low + 2 * high) % 2 == low && (low + 2 * high) / 2 == high
  {
  }

  lemma XorBitsStep(a: nat, b: nat)
    ensures XorBits(a, b) % 2 == (a + b) % 2 && XorBits(a, b) / 2 == XorBits(a / 2, b / 2)
  {
    if a != 0 || b != 0 {
      Parity((a + b) % 2, XorBits(a / 2, b / 2));
    }
  }

  lemma LowBit(a: nat, b: nat)
    ensures ((a + b) % 2 + b) % 2 == a % 2
  {
  }

  lemma SameHalves(a: nat, b: nat)
    requires a % 2 == b % 2 && a / 2 == b / 2
    ensures a == b
  {
  }

  lemma {:induction false} XorBitsUndone(a: nat, b: nat)
    ensures XorBits(XorBits(a, b), b) == a
    decreases a + b
  {
    hide XorBits;
    if a != 0 || b != 0 {
      XorBitsUndone(a / 2, b / 2);
      var x := XorBits(a, b);
      XorBitsStep(a, b);
      XorBitsStep(x, b);
      assert (x + b) % 2 == (x % 2 + b) % 2;
      LowBit(a, b);
      SameHalves(XorBits(x, b), a);
    } else {
      XorBitsNothing();
    }
  }

  lemma XorBitsNothing()
    ensures XorBits(XorBits(0, 0), 0) == 0
  {
  }

  lemma {:induction false} XorBitsSwap(a: nat, b: nat)
    ensures XorBits(a, b) == XorBits(b, a)
    decreases a + b
  {
    if a != 0 || b != 0 {
      XorBitsSwap(a / 2, b / 2);
    }
  }

  lemma {:induction false} XorBitsAt(a: nat, b: nat, k: nat)
    ensures Bit(XorBits(a, b), k) <==> Bit(a, k) != Bit(b, k)
    decreases k
  {
    hide XorBits, Bit, Pow2;
    XorBitsStep(a, b);
    var x, i := XorBits(a, b), if k == 0 then 0 else k - 1;
    BitUp(a, i);
    BitUp(b, i);
    BitUp(x, i);
    if k > 0 {
      XorBitsAt(a / 2, b / 2, k - 1);
    }
  }

  function Xor(a: Byte, b: Byte): Byte {
    assert Pow2(8) == 256 by { assert Pow2(4) == 16; }
    XorBitsBound(a, b, 8, 256);
    XorBits(a, b)
  }

  lemma XorMeans(a: Byte, b: Byte, k: nat)
    ensures Bit(Xor(a, b), k) <==> Bit(a, k) != Bit(b, k)
  {
    hide XorBits, Bit;
    XorBitsAt(a, b, k);
  }

  function XorBlock(a: Block, b: Block): Block {
    seq(16, i requires 0 <= i < 16 => Xor(a[i], b[i]))
  }

  lemma XorBlockUndone(a: Block, b: Block)
    ensures XorBlock(XorBlock(a, b), b) == a
  {
    forall i | 0 <= i < 16
      ensures XorBlock(XorBlock(a, b), b)[i] == a[i]
    {
      XorBitsUndone(a[i], b[i]);
    }
  }

  lemma XorBlockSwap(a: Block, b: Block)
    ensures XorBlock(a, b) == XorBlock(b, a)
  {
    forall i | 0 <= i < 16
      ensures XorBlock(a, b)[i] == XorBlock(b, a)[i]
    {
      XorBitsSwap(a[i], b[i]);
    }
  }

  /** `Bswap128`. */
  function Reverse(b: Block): Block {
    seq(16, i requires 0 <= i < 16 => b[15 - i])
  }

  lemma ReverseUndone(b: Block)
    ensures Reverse(Reverse(b)) == b
  {
  }

  // ---- Big-endian counters -------------------------------------------------------------------

  function Value(b: seq<Byte>): nat {
    if b == [] then 0 else 256 * Value(b[..|b| - 1]) + b[|b| - 1]
  }

  function Modulus(n: nat): (m: nat)
    ensures m > 0
  {
    if n == 0 then 1 else 256 * Modulus(n - 1)
  }

  lemma {:induction false} ValueBound(b: seq<Byte>)
    ensures Value(b) < Modulus(|b|)
  {
    if b != [] {
      ValueBound(b[..|b| - 1]);
    }
  }

  lemma {:induction false} ValueInjective(a: seq<Byte>, b: seq<Byte>)
    requires |a| == |b| && Value(a) == Value(b)
    ensures a == b
  {
    if a != [] {
      var n := |a| - 1;
      ValueInjective(a[..n], b[..n]);
      assert a == a[..n] + [a[n]] && b == b[..n] + [b[n]];
    }
  }

  /** The increment of the counter: bytes that were 255 go to zero, from the last one on. */
  function Inc(b: seq<Byte>): (r: seq<Byte>)
    ensures |r| == |b|
  {
    if b == [] then []
    else if b[|b| - 1] == 255 then Inc(b[..|b| - 1]) + [0]
    else b[|b| - 1 := b[|b| - 1] + 1]
  }

  lemma {:induction false} IncValue(b: seq<Byte>)
    ensures Value(Inc(b)) == if Value(b) + 1 == Modulus(|b|) then 0 else Value(b) + 1
  {
    if b != [] {
      var n := |b| - 1;
      IncValue(b[..n]);
      ValueBound(b[..n]);
      if b[n] == 255 {
        assert Inc(b)[..n] == Inc(b[..n]);
      } else {
        assert Inc(b)[..n] == b[..n];
      }
    }
  }

  function IncBy(b: seq<Byte>, n: nat): (r: seq<Byte>)
    ensures |r| == |b|
  {
    if n == 0 then b else Inc(IncBy(b, n - 1))
  }

  lemma {:induction false} IncByValue(b: seq<Byte>, n: nat)
    ensures Value(IncBy(b, n)) == (Value(b) + n) % Modulus(|b|)
  {
    hide Value, Modulus, Inc;
    ValueBound(b);
    if n > 0 {
      IncByValue(b, n - 1);
      IncValue(IncBy(b, n - 1));
      ModSucc(Value(b) + n - 1, Modulus(|b|));
    } else {
      ModSmall(Value(b), Modulus(|b|));
    }
  }

  lemma ModSmall(x: nat, m: nat)
    requires x < m
    ensures x % m == x
  {
  }
}
