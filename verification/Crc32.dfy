/**
 The table-driven CRC-32. Words are sequences of bits, lowest bit first, so that reflection is reversal and
 one step of the division is a shift and an exclusive or.
 */
module Crc32 {
  import MachineWords

  type Word = w: seq<bool> | |w| == 32 witness seq(32, _ => false)
  type Byte = b: seq<bool> | |b| == 8 witness seq(8, _ => false)

  function Zeros(n: nat): (z: seq<bool>)
    ensures |z| == n
  {
    seq(n, _ => false)
  }

  function Xor(a: seq<bool>, b: seq<bool>): (r: seq<bool>)
    requires |a| == |b|
    ensures |r| == |a|
  {
    seq(|a|, i requires 0 <= i < |a| => a[i] != b[i])
  }

  function Reversed(s: seq<bool>): (r: seq<bool>)
    ensures |r| == |s|
  {
    seq(|s|, i requires 0 <= i < |s| => s[|s| - 1 - i])
  }

  function Shl(w: Word): Word { [false] + w[..31] }

  function Shr(w: Word): Word { w[1..] + [false] }

  function Low(w: Word, n: nat): Word
    requires n <= 32
  {
    w[..n] + Zeros(32 - n)
  }

  function ShrBy(w: Word, n: nat): Word
    requires n <= 32
  {
    w[n..] + Zeros(n)
  }

  function Byte2(high: nat, low: nat): Byte { MachineWords.Digit(low) + MachineWords.Digit(high) }

  function Word4(b3: Byte, b2: Byte, b1: Byte, b0: Byte): Word {
    var low: seq<bool>, high: seq<bool> := b0, b2;
    (low + b1) + (high + b3)
  }

  const POLYNOMIAL: Word := Word4(Byte2(0x0, 0x4), Byte2(0xC, 0x1), Byte2(0x1, 0xD), Byte2(0xB, 0x7))

  /** As section 8 of RFC 1952 has it. */
  const REFLECTED: Word := Word4(Byte2(0xE, 0xD), Byte2(0xB, 0x8), Byte2(0x8, 0x3), Byte2(0x2, 0x0))

  lemma PolynomialReflected()
    ensures Reversed(POLYNOMIAL) == REFLECTED
  {
  }

  // ---- Division, bit by bit ------------------------------------------------------------------

  /** One step of the division with the lowest bit first. */
  function Step(c: Word): Word {
    if c[0] then Xor(Shr(c), REFLECTED) else Shr(c)
  }

  function Steps(c: Word, n: nat): Word {
    if n == 0 then c else Step(Steps(c, n - 1))
  }

  /** Exclusive or into the low bits. */
  function XorLow(c: Word, bits: seq<bool>): Word
    requires |bits| <= 32
  {
    Xor(c, bits + Zeros(32 - |bits|))
  }

  /** The bit-serial division of a message: one bit in, one step. */
  function Divide(c: Word, bits: seq<bool>): Word {
    if bits == [] then c else Step(XorLow(Divide(c, bits[..|bits| - 1]), [bits[|bits| - 1]]))
  }

  /** The bits of a message, lowest bit of each byte first. */
  function BitsOf(data: seq<Byte>): seq<bool> {
    if data == [] then [] else BitsOf(data[..|data| - 1]) + data[|data| - 1]
  }

  function Ones(): Word { seq(32, _ => true) }

  /** The CRC of section 8 of RFC 1952: complement, divide, complement. */
  function CrcOf(data: seq<Byte>, start: Word): Word {
    Xor(Divide(Xor(start, Ones()), BitsOf(data)), Ones())
  }

  lemma {:induction false} DivideAppend(c: Word, a: seq<bool>, b: seq<bool>)
    ensures Divide(c, a + b) == Divide(Divide(c, a), b)
  {
    if b == [] {
      assert a + b == a;
    } else {
      DivideAppend(c, a, b[..|b| - 1]);
      assert (a + b)[..|a + b| - 1] == a + b[..|b| - 1];
    }
  }

  lemma {:induction false} BitsAppend(a: seq<Byte>, b: seq<Byte>)
    ensures BitsOf(a + b) == BitsOf(a) + BitsOf(b)
  {
    if b == [] {
      assert a + b == a;
    } else {
      BitsAppend(a, b[..|b| - 1]);
      assert (a + b)[..|a + b| - 1] == a + b[..|b| - 1];
    }
  }

  lemma Complement(w: Word)
    ensures Xor(Xor(w, Ones()), Ones()) == w
  {
  }

  /** Chaining through `start` is one pass over the concatenation. */
  lemma Chains(a: seq<Byte>, b: seq<Byte>, start: Word)
    ensures CrcOf(b, CrcOf(a, start)) == CrcOf(a + b, start)
  {
    BitsAppend(a, b);
    DivideAppend(Xor(start, Ones()), BitsOf(a), BitsOf(b));
    Complement(Divide(Xor(start, Ones()), BitsOf(a)));
  }

  // ---- Steps are linear ----------------------------------------------------------------------

  lemma StepXor(a: Word, b: Word)
    ensures Step(Xor(a, b)) == Xor(Step(a), Step(b))
  {
    assert Shr(Xor(a, b)) == Xor(Shr(a), Shr(b));
  }

  lemma {:induction false} StepsXor(a: Word, b: Word, n: nat)
    ensures Steps(Xor(a, b), n) == Xor(Steps(a, n), Steps(b, n))
  {
    if n > 0 {
      StepsXor(a, b, n - 1);
      StepXor(Steps(a, n - 1), Steps(b, n - 1));
    }
  }

  /** With zeros below, steps only shift. */
  lemma {:induction false} StepsShift(w: Word, n: nat)
    requires n <= 32 && forall i | 0 <= i < n :: !w[i]
    ensures Steps(w, n) == ShrBy(w, n)
  {
    if n > 0 {
      StepsShift(w, n - 1);
      assert !ShrBy(w, n - 1)[0];
      assert Shr(ShrBy(w, n - 1)) == ShrBy(w, n);
    } else {
      assert ShrBy(w, 0) == w;
    }
  }

  /** Eight steps at once: what is left of the word, and what its low byte alone would give. */
  lemma StepsSplit(w: Word, n: nat)
    requires n <= 32
    ensures Steps(w, n) == Xor(ShrBy(w, n), Steps(Low(w, n), n))
  {
    var high: Word := Zeros(n) + w[n..];
    assert w == Xor(high, Low(w, n));
    assert ShrBy(high, n) == ShrBy(w, n);
    StepsXor(high, Low(w, n), n);
    StepsShift(high, n);
  }

  lemma {:induction false} StepsFirst(c: Word, n: nat)
    requires n > 0
    ensures Steps(c, n) == Steps(Step(c), n - 1)
  {
    if n > 1 {
      StepsFirst(c, n - 1);
    }
  }

  lemma NoSteps(c: Word)
    ensures Steps(c, 0) == c
  {
  }

  lemma DivideOne(c: Word, bit: bool)
    ensures Divide(c, [bit]) == Step(XorLow(c, [bit]))
  {
    assert [bit][..0] == [] && [bit][0] == bit;
    assert Divide(c, [bit][..0]) == c;
  }

  /** Taking in a byte at once and then stepping is taking in its bits one by one. */
  lemma {:induction false} DivideByte(c: Word, bits: seq<bool>)
    requires |bits| <= 32
    ensures Divide(c, bits) == Steps(XorLow(c, bits), |bits|)
    decreases |bits|
  {
    hide Steps;
    if bits == [] {
      assert XorLow(c, bits) == c;
      NoSteps(c);
    } else {
      var first, rest := bits[..1], bits[1..];
      assert bits == first + rest;
      DivideAppend(c, first, rest);
      var d := Step(XorLow(c, first));
      DivideOne(c, bits[0]);
      assert first == [bits[0]];
      DivideByte(d, rest);
      StepsFirst(XorLow(c, bits), |bits|);
      StepTakesIn(c, bits);
    }
  }

  lemma StepTakesIn(c: Word, bits: seq<bool>)
    requires 0 < |bits| <= 32
    ensures Step(XorLow(c, bits)) == XorLow(Step(XorLow(c, bits[..1])), bits[1..])
  {
    var whole, first := XorLow(c, bits), XorLow(c, bits[..1]);
    assert whole[0] == first[0];
    assert Shr(whole) == XorLow(Shr(first), bits[1..]);
  }

  // ---- The table -----------------------------------------------------------------------------

  /** The bits of an index and back. */
  function Bits(n: nat, k: nat): (r: seq<bool>)
    ensures |r| == k
  {
    if k == 0 then [] else [n % 2 == 1] + Bits(n / 2, k - 1)
  }

  function Index(bits: seq<bool>): nat {
    if bits == [] then 0 else (if bits[0] then 1 else 0) + 2 * Index(bits[1..])
  }

  lemma {:induction false} IndexBits(bits: seq<bool>)
    ensures Bits(Index(bits), |bits|) == bits
  {
    if bits != [] {
      IndexBits(bits[1..]);
      assert bits == [bits[0]] + bits[1..];
    }
  }

  lemma {:induction false} IndexBound(bits: seq<bool>)
    requires |bits| <= 8
    ensures Index(bits) < MachineWords.Pow2(|bits|)
  {
    if bits != [] {
      IndexBound(bits[1..]);
    }
  }

  /** What a table entry is to be: eight steps of its index. */
  function Entry(i: nat): Word {
    Steps(Bits(i, 8) + Zeros(24), 8)
  }

  /** The lowest `n` bits, mirrored within the lowest `ch`. */
  ghost function Mirrored(refl: Word, ch: nat, n: nat): Word
    requires n <= ch <= 32
  {
    Zeros(ch - n) + Reversed(refl[..n]) + Zeros(32 - ch)
  }

  /** `_reflect`. */
  method Reflect(refl: Word, ch: nat) returns (value: Word)
    requires ch <= 32
    ensures value == Reversed(refl[..ch]) + Zeros(32 - ch)
  {
    hide Mirrored, Reversed, ShrBy, Shr, Zeros;
    value := Zeros(32);
    var r := refl;
    MirroredEnds(refl, ch);
    for i := 1 to ch + 1
      invariant r == ShrBy(refl, i - 1) && value == Mirrored(refl, ch, i - 1)
    {
      MirroredBit(refl, ch, i - 1);
      if r[0] {
        value := value[ch - i := true];
      }
      r := Shr(r);
    }
  }

  lemma MirroredEnds(refl: Word, ch: nat)
    requires ch <= 32
    ensures ShrBy(refl, 0) == refl && Mirrored(refl, ch, 0) == Zeros(32)
    ensures Mirrored(refl, ch, ch) == Reversed(refl[..ch]) + Zeros(32 - ch)
  {
  }

  lemma MirroredBit(refl: Word, ch: nat, n: nat)
    requires n < ch <= 32
    ensures ShrBy(refl, n)[0] == refl[n] && Shr(ShrBy(refl, n)) == ShrBy(refl, n + 1)
    ensures Mirrored(refl, ch, n + 1) == if refl[n] then Mirrored(refl, ch, n)[ch - n - 1 := true]
        else Mirrored(refl, ch, n)
  {
    var v, w := Mirrored(refl, ch, n), Mirrored(refl, ch, n + 1);
    forall k | 0 <= k < 32
      ensures w[k] == if k == ch - n - 1 then refl[n] else v[k]
    {
      assert v[k] == if ch - n <= k < ch then refl[ch - 1 - k] else false;
      assert w[k] == if ch - n - 1 <= k < ch then refl[ch - 1 - k] else false;
    }
    assert v[ch - n - 1] == false;
  }

  /** One step of the division with the highest bit first. */
  function StepUp(c: Word): Word {
    Xor(Shl(c), if c[31] then POLYNOMIAL else Zeros(32))
  }

  /** Stepping from the top is stepping from the bottom in the mirror. */
  lemma StepMirrored(c: Word)
    ensures Reversed(StepUp(c)) == Step(Reversed(c))
  {
    PolynomialReflected();
    hide POLYNOMIAL, REFLECTED;
    assert Reversed(Shl(c)) == Shr(Reversed(c));
    if c[31] {
      assert Reversed(Xor(Shl(c), POLYNOMIAL)) == Xor(Reversed(Shl(c)), Reversed(POLYNOMIAL));
    } else {
      assert Xor(Shl(c), Zeros(32)) == Shl(c);
    }
  }

  method GetCRC32Table() returns (table: array<Word>)
    ensures fresh(table) && table.Length == 256 && forall i | 0 <= i < 256 :: table[i] == Entry(i)
  {
    table := new Word[256](_ => Zeros(32));
    for i := 0 to 256
      invariant forall k | 0 <= k < i :: table[k] == Entry(k)
    {
      var r := Reflect(Bits(i, 8) + Zeros(24), 8);
      table[i] := Zeros(24) + r[..8];
      MirroredIndex(i, table[i]);
      for j := 0 to 8
        invariant Reversed(table[i]) == Steps(Bits(i, 8) + Zeros(24), j)
        invariant forall k | 0 <= k < i :: table[k] == Entry(k)
      {
        StepMirrored(table[i]);
        table[i] := StepUp(table[i]);
      }
      r := Reflect(table[i], 32);
      assert table[i][..32] == table[i] && Reversed(table[i]) + Zeros(0) == Reversed(table[i]);
      table[i] := r;
    }
  }

  lemma MirroredIndex(i: nat, w: Word)
    requires w == Zeros(24) + Reversed((Bits(i, 8) + Zeros(24))[..8])
    ensures Reversed(w) == Bits(i, 8) + Zeros(24)
  {
    assert (Bits(i, 8) + Zeros(24))[..8] == Bits(i, 8);
  }

  /** One table step takes in one byte. */
  lemma TableStep(c: Word, byte: Byte)
    ensures Divide(c, byte) == Xor(ShrBy(c, 8), Entry(Index(Xor(c[..8], byte))))
  {
    hide Divide, Steps, Bits, Index;
    DivideByte(c, byte);
    var w := XorLow(c, byte);
    StepsSplit(w, 8);
    IndexBits(Xor(c[..8], byte));
    assert w[..8] == Xor(c[..8], byte) && ShrBy(w, 8) == ShrBy(c, 8);
  }

  lemma IndexInTable(bits: Byte)
    ensures Index(bits) < 256
  {
    IndexBound(bits);
    assert MachineWords.Pow2(4) == 16 && MachineWords.Pow2(8) == 256;
  }

  datatype Data = Null | Bytes(bytes: seq<Byte>)

  function ZeroBytes(n: nat): (z: seq<Byte>)
    ensures |z| == n
  {
    seq<Byte>(n, _ => Zeros(8))
  }

  /** `CRC32`: null data is a run of zero bytes. */
  method CRC32(data: Data, len: nat, start: Word) returns (crc: Word)
    requires data.Bytes? ==> len <= |data.bytes|
    ensures crc == CrcOf(if data.Null? then ZeroBytes(len) else data.bytes[..len], start)
  {
    hide Divide, Entry, Index;
    var table := GetCRC32Table();
    crc := Xor(start, Ones());
    ghost var first, message := crc, if data.Null? then ZeroBytes(len) else data.bytes[..len];
    NothingDivided(crc);
    for k := 0 to len
      invariant forall i | 0 <= i < 256 :: table[i] == Entry(i)
      invariant crc == Divide(first, BitsOf(message[..k]))
    {
      var byte: Byte := if data.Null? then Zeros(8) else data.bytes[k];
      BitsMore(message, k);
      DivideAppend(first, BitsOf(message[..k]), byte);
      TableStep(crc, byte);
      assert message[k] == byte;
      var i := if data.Null? then crc[..8] else Xor(crc[..8], byte);
      assert i == Xor(crc[..8], byte);
      IndexInTable(i);
      crc := Xor(ShrBy(crc, 8), table[Index(i)]);
    }
    assert message[..len] == message;
    crc := Xor(crc, Ones());
  }

  lemma BitsMore(data: seq<Byte>, k: nat)
    requires k < |data|
    ensures BitsOf(data[..k + 1]) == BitsOf(data[..k]) + data[k]
  {
    assert data[..k + 1][..k] == data[..k];
  }

  lemma NothingDivided(c: Word)
    ensures Divide(c, BitsOf([])) == c
  {
  }
}
