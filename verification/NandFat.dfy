/**
 The FAT partition of the DSi's NAND: sectors encrypted in counter mode, with a counter set up from the
 address, so that any part can be read back by itself.
 */
module NandFat {
  import opened Arithmetic
  import opened Bytes
  import opened Ccm
  import opened CtrBytes

  // ---- Seekable or not -----------------------------------------------------------------------

  /** The 32-bit block counter of an address. */
  function CounterOf(addr: nat): nat { addr / 16 % 0x1_0000_0000 }

  /** What writing `plain` at `addr` stores. */
  function Stored(aes: Cipher, iv: Block, addr: nat, plain: seq<Byte>): (r: seq<Byte>)
    ensures |r| == |plain|
  {
    Crypt(aes, IncBy(iv, CounterOf(addr)), plain)
  }

  /** Every byte is xored with one of the cipher of its counter block: the IV, plus the number of the block the
      address is in, plus the blocks since. As long as the 32-bit count does not wrap this depends on the byte's own
      address alone. */
  lemma StoredAt(aes: Cipher, iv: Block, addr: nat, plain: seq<Byte>, j: nat) returns (counter: Block)
    requires j / 16 * 16 + 16 <= |plain|
    ensures Stored(aes, iv, addr, plain)[j] == Xor(plain[j], aes(counter)[15 - j % 16])
    ensures Value(counter) == (Value(iv) + addr / 16 % 0x1_0000_0000 + j / 16) % Modulus(16)
    ensures addr / 16 / 0x1_0000_0000 == (addr + j) / 16 / 0x1_0000_0000 && addr % 16 == 0 ==>
        Value(counter) == (Value(iv) + (addr + j) / 16 % 0x1_0000_0000) % Modulus(16)
  {
    hide Crypt, IncBy, Xor, Value, Modulus;
    var i, k := j / 16, j % 16;
    InChunk(aes, IncBy(iv, CounterOf(addr)), plain, i, k);
    IncByAdd(iv, CounterOf(addr), i);
    counter := IncBy(iv, CounterOf(addr) + i);
    IncByValue(iv, CounterOf(addr) + i);
    CountersApart(addr, i);
    assert addr % 16 == 0 ==> (addr + j) / 16 == (addr + 16 * i) / 16;
  }

  /** The counters of two addresses are as far apart as the addresses, unless the counter wraps between. */
  lemma CountersApart(addr: nat, j: nat)
    ensures addr / 16 / 0x1_0000_0000 == (addr + 16 * j) / 16 / 0x1_0000_0000 <==>
        CounterOf(addr) + j == CounterOf(addr + 16 * j)
  {
    assert (addr + 16 * j) / 16 == addr / 16 + j;
    var b, n := addr / 16, 0x1_0000_0000;
    assert b == n * (b / n) + b % n && b + j == n * ((b + j) / n) + (b + j) % n;
  }

  predicate Injective(aes: Cipher, x: Block, y: Block) {
    aes(x) == aes(y) ==> x == y
  }

  lemma CryptDiffers(aes: Cipher, u: Block, v: Block, data: seq<Byte>)
    requires |data| >= 16 && aes(u) != aes(v)
    ensures Crypt(aes, u, data) != Crypt(aes, v, data)
  {
    CryptSlice(aes, u, data, 0, 1);
    CryptSlice(aes, v, data, 0, 1);
    var chunk: Block := data[..16];
    assert data[0..16] == chunk && chunk[..16] == chunk && chunk[16..] == [];
    IncByOne(u);
    IncByOne(v);
    assert Crypt(aes, u, chunk) == CryptChunk(aes, u, chunk) && Crypt(aes, v, chunk) == CryptChunk(aes, v, chunk);
    if CryptChunk(aes, u, chunk) == CryptChunk(aes, v, chunk) {
      ReverseUndone(Ctr(aes, u, Reverse(chunk)));
      ReverseUndone(Ctr(aes, v, Reverse(chunk)));
      XorBlockSwap(Reverse(chunk), aes(u));
      XorBlockSwap(Reverse(chunk), aes(v));
      XorBlockUndone(aes(u), Reverse(chunk));
      XorBlockUndone(aes(v), Reverse(chunk));
      assert false;
    }
  }

  lemma CounterBlocksDiffer(iv: Block, m: nat, n: nat)
    requires m < 0x2_0000_0000 && n < 0x2_0000_0000 && IncBy(iv, m) == IncBy(iv, n)
    ensures m == n
  {
    hide Modulus, Value, IncBy;
    ValueBound(iv);
    IncByValue(iv, m);
    IncByValue(iv, n);
    BigModulus();
    SameRemainder(Value(iv), m, n, Modulus(16));
  }

  lemma BigModulus()
    ensures Modulus(16) > 0x2_0000_0000
  {
    assert Modulus(5) == 0x100_0000_0000;
    assert forall k: nat :: Modulus(k + 1) == 256 * Modulus(k);
    assert Modulus(10) >= Modulus(5) && Modulus(16) >= Modulus(10);
  }

  lemma SameRemainder(v: nat, m: nat, n: nat, modulus: nat)
    requires m < modulus && n < modulus && v < modulus && (v + m) % modulus == (v + n) % modulus
    ensures m == n
  {
    Quotient(v + m, modulus, if v + m < modulus then 0 else 1);
    Quotient(v + n, modulus, if v + n < modulus then 0 else 1);
  }

  /** The slice that is read is the slice that was written if and only if the 32-bit block
      counter does not wrap between the two addresses. The `only if` needs that the cipher tells apart the
      two counter blocks in question, as a block cipher does. */
  lemma SeekableIffNoWrap(aes: Cipher, iv: Block, addr: nat, plain: seq<Byte>, j: nat, m: nat)
    requires 16 * j < 16 * m <= |plain| < 0x1_0000_0000
    requires Injective(aes, IncBy(iv, CounterOf(addr) + j), IncBy(iv, CounterOf(addr + 16 * j)))
    ensures Stored(aes, iv, addr + 16 * j, Stored(aes, iv, addr, plain)[16 * j..16 * m]) == plain[16 * j..16 * m]
            <==> addr / 16 / 0x1_0000_0000 == (addr + 16 * j) / 16 / 0x1_0000_0000
  {
    hide Crypt, IncBy;
    var c, d := CounterOf(addr) + j, CounterOf(addr + 16 * j);
    var slice := plain[16 * j..16 * m];
    CryptSlice(aes, IncBy(iv, CounterOf(addr)), plain, j, m);
    IncByAdd(iv, CounterOf(addr), j);
    var stored := Crypt(aes, IncBy(iv, c), slice);
    CountersApart(addr, j);
    CryptUndone(aes, IncBy(iv, c), slice);
    if c != d {
      if IncBy(iv, c) == IncBy(iv, d) {
        CounterBlocksDiffer(iv, c, d);
        assert false;
      }
      CryptDiffers(aes, IncBy(iv, c), IncBy(iv, d), stored);
    }
  }

  // ---- The routines --------------------------------------------------------------------------

  function Be32(n: nat): (r: seq<Byte>)
    ensures |r| == 4
  {
    [n / 0x100_0000 % 0x100, n / 0x1_0000 % 0x100, n / 0x100 % 0x100, n % 0x100]
  }

  lemma {:induction false} ValuePrepend(x: Byte, b: seq<Byte>)
    ensures Value([x] + b) == x * Modulus(|b|) + Value(b)
  {
    if b == [] {
      assert [x] + b == [x];
    } else {
      var n := |b| - 1;
      ValuePrepend(x, b[..n]);
      assert ([x] + b)[..n + 1] == [x] + b[..n];
      Scaled(x, Modulus(n));
    }
  }

  lemma Scaled(x: nat, m: nat)
    ensures 256 * (x * m) == x * (256 * m)
  {
  }

  /** The value of the last `i` bytes, and one step further. */
  lemma ValueStep(b: Block, i: nat)
    requires i < 16
    ensures Value(b[15 - i..]) == b[15 - i] * Modulus(i) + Value(b[16 - i..])
  {
    assert b[15 - i..] == [b[15 - i]] + b[16 - i..];
    ValuePrepend(b[15 - i], b[16 - i..]);
  }

  lemma {:induction false} ValueOfZeros(n: nat)
    ensures Value(seq(n, _ => 0)) == 0
  {
    if n > 0 {
      ValueOfZeros(n - 1);
      var z: seq<Byte> := seq(n, _ => 0);
      assert z[..n - 1] == seq(n - 1, _ => 0);
    }
  }

  lemma ValueAppend(b: seq<Byte>, x: Byte)
    ensures Value(b + [x]) == 256 * Value(b) + x
  {
    assert (b + [x])[..|b|] == b;
  }

  lemma CounterValue(ctr: nat)
    requires ctr < 0x1_0000_0000
    ensures Value(seq(12, _ => 0) + Be32(ctr)) == ctr
  {
    var z: seq<Byte> := seq(12, _ => 0);
    var b := Be32(ctr);
    ValueOfZeros(12);
    ValueAppend(z, b[0]);
    ValueAppend(z + [b[0]], b[1]);
    ValueAppend(z + [b[0]] + [b[1]], b[2]);
    ValueAppend(z + [b[0]] + [b[1]] + [b[2]], b[3]);
    assert z + b == z + [b[0]] + [b[1]] + [b[2]] + [b[3]];
    Be32Digits(ctr, b[0], b[1], b[2], b[3]);
  }

  lemma Be32Digits(n: nat, w: nat, x: nat, y: nat, z: nat)
    requires n < 0x1_0000_0000 && [w, x, y, z] == [n / 0x100_0000 % 0x100, n / 0x1_0000 % 0x100, n / 0x100 % 0x100,
        n % 0x100]
    ensures n == 256 * (256 * (256 * w + x) + y) + z
  {
    assert n / 0x1_0000 == n / 0x100 / 0x100 && n / 0x100_0000 == n / 0x1_0000 / 0x100;
    assert w == [w, x, y, z][0] && x == [w, x, y, z][1] && y == [w, x, y, z][2] && z == [w, x, y, z][3];
  }

  /** One digit of an addition in base 256, with `m` the weight of the digit. */
  lemma Carries(x: nat, y: nat, c: nat, digit: nat, carry: nat, low: nat, lowA: nat, lowB: nat, m: nat)
    requires low + c * m == lowA + lowB && x + y + c == digit + 256 * carry
    ensures digit * m + low + carry * (256 * m) == (x * m + lowA) + (y * m + lowB)
  {
    assert (x + y + c) * m == x * m + y * m + c * m;
    assert (digit + 256 * carry) * m == digit * m + carry * (256 * m);
  }

  lemma IncByOfValue(b: Block, r: Block, n: nat)
    requires Value(r) == (Value(b) + n) % Modulus(16)
    ensures r == IncBy(b, n)
  {
    IncByValue(b, n);
    ValueInjective(r, IncBy(b, n));
  }

  lemma SumModulus(r: Block, carry: nat, sum: nat)
    requires Value(r) + carry * Modulus(16) == sum
    ensures Value(r) == sum % Modulus(16)
  {
    hide Modulus, Value;
    ValueBound(r);
    assert carry * Modulus(16) == Modulus(16) * carry;
    Quotient(sum, Modulus(16), carry);
  }

  // ---- Adding a counter to the IV, byte by byte ----------------------------------------------

  /** The last `i` bytes of the sum are in `iv`. */
  ghost predicate Adding(iv: Block, start: Block, value: Block, carry: nat, i: nat)
    requires i <= 16
  {
    && carry <= 1 && iv[..16 - i] == start[..16 - i]
    && Value(iv[16 - i..]) + carry * Modulus(i) == Value(start[16 - i..]) + Value(value[16 - i..])
  }

  lemma AddBegins(start: Block, value: Block)
    ensures Adding(start, start, value, 0, 0)
  {
    hide Value, Modulus;
    EmptyValue();
    assert start[16..] == value[16..] == [];
  }

  lemma AddStep(iv: Block, start: Block, value: Block, carry: nat, i: nat)
    requires i < 16 && Adding(iv, start, value, carry, i)
    ensures var x := iv[15 - i] + value[15 - i] + carry;
            Adding(iv[15 - i := x % 0x100], start, value, if x >= 0x100 then 1 else 0, i + 1)
  {
    hide Modulus, Value;
    var j := 15 - i;
    var x := iv[j] + value[j] + carry;
    var next: Block, carry' := iv[j := x % 0x100], if x >= 0x100 then 1 else 0;
    DigitSet(iv, start, i, x % 0x100);
    AddDigit(next, start, value, carry, carry', i);
  }

  lemma DigitSet(iv: Block, start: Block, i: nat, digit: Byte)
    requires i < 16 && iv[..16 - i] == start[..16 - i]
    ensures var next: Block := iv[15 - i := digit];
            next[16 - i..] == iv[16 - i..] && iv[15 - i] == start[15 - i] && next[..15 - i] == start[..15 - i]
  {
    assert iv[15 - i] == iv[..16 - i][15 - i] && start[15 - i] == start[..16 - i][15 - i];
    assert iv[..15 - i] == iv[..16 - i][..15 - i] && start[..15 - i] == start[..16 - i][..15 - i];
  }

  lemma AddDigit(next: Block, start: Block, value: Block, carry: nat, carry': nat, i: nat)
    requires i < 16 && start[15 - i] + value[15 - i] + carry == next[15 - i] + 256 * carry'
    requires Value(next[16 - i..]) + carry * Modulus(i) == Value(start[16 - i..]) + Value(value[16 - i..])
    ensures Value(next[15 - i..]) + carry' * Modulus(i + 1) == Value(start[15 - i..]) + Value(value[15 - i..])
  {
    hide Modulus, Value;
    ValueStep(next, i);
    ValueStep(start, i);
    ValueStep(value, i);
    ModulusStep(i);
    Carries(start[15 - i], value[15 - i], carry, next[15 - i], carry', Value(next[16 - i..]), Value(start[16 - i..]),
        Value(value[16 - i..]), Modulus(i));
  }

  lemma AddEnds(iv: Block, start: Block, value: Block, carry: nat)
    requires Adding(iv, start, value, carry, 16)
    ensures iv == IncBy(start, Value(value))
  {
    hide Modulus, Value, IncBy;
    assert iv[0..] == iv && start[0..] == start && value[0..] == value;
    SumModulus(iv, carry, Value(start) + Value(value));
    IncByOfValue(start, iv, Value(value));
  }

  class NANDImage {
    const File: array<Byte>    // of fixed size: reading or writing past its end fails
    const FATIV: Block
    const FATKey: Block
    const Aes: (Block, Block) -> Block

    constructor (file: array<Byte>, iv: Block, key: Block, aes: (Block, Block) -> Block)
      ensures File == file && FATIV == iv && FATKey == key && Aes == aes
    {
      File, FATIV, FATKey, Aes := file, iv, key, aes;
    }

    function Cipher(): Ccm.Cipher {
      (b: Block) => Aes(FATKey, b)
    }

    /** The counter block for block number `ctr`: the byte-wise sum with carry is the 128-bit sum. */
    method SetupFATCrypto(ctr: nat) returns (iv: Block)
      requires ctr < 0x1_0000_0000
      ensures iv == IncBy(FATIV, ctr)
    {
      hide Adding, Value, IncBy, Be32;
      iv := FATIV;
      var zeros: seq<Byte> := seq(12, _ => 0);
      var value: Block := zeros + Be32(ctr);
      var carry: nat := 0;
      CounterValue(ctr);
      AddBegins(FATIV, value);
      for i := 0 to 16
        invariant Adding(iv, FATIV, value, carry, i)
      {
        AddStep(iv, FATIV, value, carry, i);
        var x: nat := iv[15 - i] + value[15 - i] + carry;
        carry := if x >= 0x100 then 1 else 0;
        iv := iv[15 - i := x % 0x100];
      }
      AddEnds(iv, FATIV, value, carry);
    }

    /** Reads and decrypts; 0 if the file is too short. What stands in the buffer behind a length that is not in
        whole blocks is decrypted with the last of them. */
    method ReadFATBlock(addr: nat, len: nat, buf: array<Byte>) returns (n: nat)
      requires RoundedUp(len, 16) <= buf.Length && buf != File
      modifies buf
      ensures n == if addr + len <= File.Length then len else 0
      ensures addr + len > File.Length ==> buf[len..] == old(buf[len..])
      ensures addr + len <= File.Length ==>
          var whole, read := RoundedUp(len, 16), File[addr..addr + len] + old(buf[..])[len..];
          buf[..] == Stored(Cipher(), FATIV, addr, read[..whole]) + read[whole..]
    {
      hide CryptChunk, IncBy, Crypt;
      var iv := SetupFATCrypto(addr / 16 % 0x1_0000_0000);
      var ok := FileRead(addr, len, buf);
      if !ok {
        return 0;
      }
      CryptBuffer(Cipher(), buf, (len + 15) / 16, iv);
      n := len;
    }

    /** As much as there is; whether it is all. */
    method FileRead(addr: nat, len: nat, buf: array<Byte>) returns (ok: bool)
      requires len <= buf.Length && buf != File
      modifies buf
      ensures ok <==> addr + len <= File.Length
      ensures buf[len..] == old(buf[len..])
      ensures ok ==> buf[..] == File[addr..addr + len] + old(buf[..])[len..]
    {
      ok := addr + len <= File.Length;
      forall k | 0 <= k < len && addr + k < File.Length {
        buf[k] := File[addr + k];
      }
    }

    /** Writes sectors of 512 bytes, one file access each; 0 as soon as one fails. The last one is written whole. */
    method WriteFATBlock(addr: nat, len: nat, buf: array<Byte>) returns (n: nat)
      requires RoundedUp(len, 0x200) <= buf.Length && buf != File
      modifies File
      ensures var whole := RoundedUp(len, 0x200);
          && n == (if addr + whole <= File.Length then len else 0)
          && (addr + whole <= File.Length ==>
                File[..] == Overwritten(old(File[..]), addr, Stored(Cipher(), FATIV, addr, buf[..whole])))
    {
      hide CryptChunk, IncBy, Crypt, Overwritten;
      var iv := SetupFATCrypto(addr / 16 % 0x1_0000_0000);
      ghost var whole := RoundedUp(len, 0x200);
      ghost var start, data := iv, buf[..whole];
      CryptNothing(Cipher(), start);
      if addr <= File.Length {
        NothingWritten(File[..], addr);
      }
      var s := 0;
      while s < len
        invariant s <= whole && s % 0x200 == 0 && iv == IncBy(start, s / 16)
        invariant s == 0 || addr + s <= File.Length
        invariant addr + s <= File.Length ==>
                    File[..] == Overwritten(old(File[..]), addr, Crypt(Cipher(), start, data[..s]))
      {
        SectorFits(s, len);
        var tempbuf: seq<Byte>;
        tempbuf, iv := CryptSector(buf, s, iv, start, whole);
        if addr + s + 0x200 > File.Length {
          return 0;
        }
        FileWrite(addr + s, tempbuf);
        Extends(old(File[..]), Crypt(Cipher(), start, data[..s]), addr, tempbuf);
        s := s + 0x200;
      }
      SectorsEnd(s, len);
      assert data[..whole] == data;
      n := len;
    }

    method FileWrite(addr: nat, data: seq<Byte>)
      requires addr + |data| <= File.Length
      modifies File
      ensures File[..] == Overwritten(old(File[..]), addr, data)
    {
      forall k | 0 <= k < |data| {
        File[addr + k] := data[k];
      }
    }

    /** A sector of the buffer, encrypted. */
    method CryptSector(buf: array<Byte>, s: nat, iv: Block, ghost start: Block, ghost len: nat)
        returns (tempbuf: seq<Byte>, next: Block)
      requires s % 16 == 0 && s + 0x200 <= len <= buf.Length && iv == IncBy(start, s / 16)
      ensures |tempbuf| == 0x200 && next == IncBy(start, (s + 0x200) / 16)
      ensures Crypt(Cipher(), start, buf[..len][..s + 0x200]) == Crypt(Cipher(), start, buf[..len][..s]) + tempbuf
    {
      hide CryptChunk, IncBy, Crypt;
      tempbuf, next := [], iv;
      ghost var data := buf[..len];
      for k := 0 to 32
        invariant |tempbuf| == 16 * k && next == IncBy(start, s / 16 + k)
        invariant Crypt(Cipher(), start, data[..s + 16 * k]) == Crypt(Cipher(), start, data[..s]) + tempbuf
      {
        var i := s + 16 * k;
        assert i == 16 * (s / 16 + k) && i + 16 <= |data|;
        CryptMore(Cipher(), start, data, s / 16 + k);
        var tmp := Reverse(buf[i..i + 16]);
        tmp := Ctr(Cipher(), next, tmp);
        InPrefix(buf[..], len, i);
        assert data[i..i + 16] == buf[i..i + 16] by {
          assert buf[..][..len] == data && buf[..][i..i + 16] == buf[i..i + 16];
        }
        assert Reverse(tmp) == CryptChunk(Cipher(), next,
            data[i..i + 16]) by { ChunkIs(Cipher(), next, data[i..i + 16]); }
        tempbuf := tempbuf + Reverse(tmp);
        next := Next(next);
      }
    }
  }

  lemma InPrefix(b: seq<Byte>, len: nat, i: nat)
    requires i + 16 <= len <= |b|
    ensures b[..len][i..i + 16] == b[i..i + 16]
  {
    var c := b[..len];
    var u, v := c[i..i + 16], b[i..i + 16];
    forall k | 0 <= k < 16
      ensures u[k] == v[k]
    {
      assert u[k] == c[i + k] == b[i + k];
    }
  }

  lemma SectorFits(s: nat, len: nat)
    requires s % 0x200 == 0 && s < len
    ensures s + 0x200 <= RoundedUp(len, 0x200) && (s + 0x200) % 0x200 == 0 && s % 16 == 0
  {
    Shift(s, 0x200, 1);
    ModMod(s, 16, 0x20);
  }

  lemma SectorsEnd(s: nat, len: nat)
    requires s % 0x200 == 0 && len <= s <= RoundedUp(len, 0x200)
    ensures s == RoundedUp(len, 0x200)
  {
  }

  /** Reading back through the file. */
  lemma ReadBackIffNoWrap(aes: Ccm.Cipher, iv: Block, was: seq<Byte>, addr: nat, plain: seq<Byte>, j: nat, m: nat)
    requires addr + |plain| <= |was| && 16 * j < 16 * m <= |plain| < 0x1_0000_0000
    requires Injective(aes, IncBy(iv, CounterOf(addr) + j), IncBy(iv, CounterOf(addr + 16 * j)))
    ensures var file := Overwritten(was, addr, Stored(aes, iv, addr, plain));
            Stored(aes, iv, addr + 16 * j, file[addr + 16 * j..addr + 16 * m]) == plain[16 * j..16 * m]
            <==> addr / 16 / 0x1_0000_0000 == (addr + 16 * j) / 16 / 0x1_0000_0000
  {
    hide Stored, CounterOf;
    var stored := Stored(aes, iv, addr, plain);
    assert Overwritten(was, addr, stored)[addr + 16 * j..addr + 16 * m] == stored[16 * j..16 * m];
    SeekableIffNoWrap(aes, iv, addr, plain, j, m);
  }

  /** It does fail: of two sectors written up to and from the address where the counter wraps, the second one reads
      back wrong. */
  lemma WrapFails(aes: Ccm.Cipher, iv: Block, was: seq<Byte>, plain: seq<Byte>)
    requires |plain| == 0x400 && |was| >= 0x10_0000_0200 && Injective(aes, IncBy(iv, 0x1_0000_0000), IncBy(iv, 0))
    ensures var file := Overwritten(was, 0xF_FFFF_FE00, Stored(aes, iv, 0xF_FFFF_FE00, plain));
            Stored(aes, iv, 0x10_0000_0000, file[0x10_0000_0000..0x10_0000_0200]) != plain[0x200..0x400]
  {
    hide Stored, IncBy, Overwritten;
    assert CounterOf(0xF_FFFF_FE00) + 0x20 == 0x1_0000_0000 && CounterOf(0x10_0000_0000) == 0;
    ReadBackIffNoWrap(aes, iv, was, 0xF_FFFF_FE00, plain, 0x20, 0x40);
  }

  lemma EmptyValue()
    ensures Value([]) == 0 && Modulus(0) == 1
  {
  }

  lemma ModulusStep(i: nat)
    ensures Modulus(i + 1) == 256 * Modulus(i)
  {
  }
}
