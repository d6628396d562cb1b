/** Numbers as their bits. */
module WordBits {
  import opened Arithmetic
  import opened MachineWords

  lemma BitUp(w: nat, k: nat)
    ensures Bit(w, k + 1) <==> Bit(w / 2, k)
    ensures Bit(w, 0) <==> w % 2 == 1
  {
    HalfDiv(w, Pow2(k));
  }

  lemma HalfDiv(w: nat, p: nat)
    requires p > 0
    ensures w / (2 * p) == w / 2 / p
    ensures w % (2 * p) == 2 * (w / 2 % p) + w % 2
  {
    var q, r := w / 2 / p, w / 2 % p;
    Euclid(w / 2, p);
    Regroup(2, p, q);
    Quotient(w, 2 * p, q);
  }

  /** A number is nothing but its bits. */
  lemma {:induction false} SameBits(x: nat, y: nat, n: nat)
    requires x < Pow2(n) && y < Pow2(n)
    requires forall k: nat | k < n :: Bit(x, k) == Bit(y, k)
    ensures x == y
  {
    if n > 0 {
      forall k: nat | k < n - 1 ensures Bit(x / 2, k) == Bit(y / 2, k) {
        BitUp(x, k);
        BitUp(y, k);
        assert Bit(x, k + 1) == Bit(y, k + 1);
      }
      SameBits(x / 2, y / 2, n - 1);
      BitUp(x, 0);
      BitUp(y, 0);
      assert Bit(x, 0) == Bit(y, 0);
    }
  }

  lemma NoBits(k: nat)
    ensures !Bit(0, k)
  {
    DivSmall(0, Pow2(k));
  }

  lemma DivSmall(x: nat, p: nat)
    requires x < p
    ensures x / p == 0
  {
    Quotient(x, p, 0);
  }

  lemma {:induction false} PowMono(a: nat, b: nat)
    requires a <= b
    ensures Pow2(a) <= Pow2(b)
  {
    if a < b {
      PowMono(a, b - 1);
    }
  }

  lemma NoBitsAbove(w: nat, n: nat, k: nat)
    requires w < Pow2(n) && n <= k
    ensures !Bit(w, k)
  {
    PowMono(n, k);
    DivSmall(w, Pow2(k));
  }

  lemma {:induction false} ShiftedBits(w: nat, n: nat, k: nat, high: nat)
    requires high == w / Pow2(n)
    ensures Bit(high, k) <==> Bit(w, k + n)
  {
    hide Bit;
    if n > 0 {
      HalfDiv(w, Pow2(n - 1));
      ShiftedBits(w / 2, n - 1, k, high);
      BitUp(w, k + n - 1);
    }
  }

  lemma {:induction false} LowBits(w: nat, n: nat, k: nat)
    requires k < n
    ensures Bit(w % Pow2(n), k) <==> Bit(w, k)
  {
    hide Bit;
    var p := Pow2(n - 1);
    assert Pow2(n) == 2 * p;
    hide Pow2;
    var low := w % (2 * p);
    HalfDiv(w, p);
    assert low / 2 == w / 2 % p;
    if k == 0 {
      BitUp(w, 0);
      BitUp(low, 0);
    } else {
      BitUp(w, k - 1);
      BitUp(low, k - 1);
      LowBits(w / 2, n - 1, k - 1);
    }
  }

  /** A field of `n` bits from `low` on. */
  lemma FieldBits(w: nat, low: nat, n: nat, high: nat, field: nat, k: nat)
    requires high == w / Pow2(low) && field == high % Pow2(n)
    ensures Bit(field, k) <==> k < n && Bit(w, k + low)
  {
    hide Bit, Pow2;
    ShiftedBits(w, low, k, high);
    if k < n {
      LowBits(high, n, k);
    } else {
      Euclid(high, Pow2(n));
      NoBitsAbove(field, n, k);
    }
  }

  /** The powers in use. */
  lemma Powers()
    ensures Pow2(1) == 2 && Pow2(2) == 4 && Pow2(3) == 8 && Pow2(4) == 0x10 && Pow2(7) == 0x80 && Pow2(8) == 0x100
    ensures Pow2(9) == 0x200 && Pow2(10) == 0x400 && Pow2(12) == 0x1000 && Pow2(15) == 0x8000 && Pow2(16) == 0x1_0000
    ensures Pow2(19) == 0x8_0000 && Pow2(20) == 0x10_0000
  {
    assert Pow2(4) == 0x10;
    assert Pow2(8) == 0x100;
    assert Pow2(12) == 0x1000;
    assert Pow2(16) == 0x1_0000;
  }
}
