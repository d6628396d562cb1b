/**
 The ES container in the terms of RFC 3610, byte by byte: the payload is encrypted with the counter blocks from A_1 on
 and authenticated, filled up with zeros, with a first block B_0 for its filled-up length and no additional data.
 */
module EsAsCcm {
  import opened Arithmetic
  import opened Bytes
  import opened Ccm
  import opened CtrBytes
  import opened EsContainer

  /** Byte `j` of the payload, encrypted or decrypted: counter block A_(j / 16 + 1), its bytes in reverse. */
  function Masked(aes: Cipher, nonce: Nonce, j: nat, x: Byte): Byte {
    Xor(x, aes(CounterBlock(nonce, j / 16 + 1))[15 - j % 16])
  }

  lemma CryptAt(aes: Cipher, nonce: Nonce, data: seq<Byte>, j: nat)
    requires j < |data| && |data| % 16 == 0 && |data| < 0x1000_0000 - 16
    ensures Crypt(aes, CounterBlock(nonce, 1), data)[j] == Masked(aes, nonce, j, data[j])
  {
    hide Crypt, Xor, CounterBlock, IncBy;
    var i, k := j / 16, j % 16;
    assert j == 16 * i + k && 16 * i + 16 <= |data|;
    CounterSteps(nonce, 1, i);
    InChunk(aes, CounterBlock(nonce, 1), data, i, k);
  }

  lemma PaddedAt(d: seq<Byte>, len: nat, j: nat)
    requires len <= |d| && j < |Padded(d, len)|
    ensures |Padded(d, len)| == RoundedUp(len, 16) && Padded(d, len)[j] == if j < len then d[j] else 0
  {
    Whole(len);
  }

  lemma Whole(len: nat)
    ensures len + (16 - len % 16) % 16 == RoundedUp(len, 16)
  {
    var k, r := len / 16, len % 16;
    assert len == 16 * k + r;
    if r > 0 {
      Quotient(len + 15, 16, k + 1);
    } else {
      Quotient(len + 15, 16, k);
    }
  }

  /** What ESEncrypt writes to the payload, and the MAC. */
  lemma SealedAsCcm(aes: Cipher, d: seq<Byte>, len: nat) returns (first: Block)
    requires len + 0x20 <= |d| && RoundedUp(len, 16) < 0x100_0000
    ensures var s, nonce := Sealed(aes, d, len), NonceAt(d, len);
            && (forall k | 0 <= k < 12 :: nonce[k] == d[len + 0x1C - k])
            && (forall j | 0 <= j < len :: s[j] == Masked(aes, nonce, j, d[j]))
            && IsFirst(first, false, 7, nonce, RoundedUp(len, 16))
            && s[len..len + 16] == Reverse(MacField(aes, nonce, first, [], BlocksOf(Padded(d, len))))
  {
    hide Masked, Padded, Sealed, EsMac, BlocksOf, CounterBlock, SealMask, IsFirst, MacField, Reverse, RoundedUp;
    var s, nonce, p := Sealed(aes, d, len), NonceAt(d, len), Padded(d, len);
    UpAtLeast(len);
    SealedParts(aes, d, len);
    PaddedLength(d, len);
    forall j | 0 <= j < len
      ensures s[j] == Masked(aes, nonce, j, d[j])
    {
      SealedAt(aes, d, len, j);
    }
    MasksAgree(nonce, len);
    first := MacAsCcm(aes, nonce, len, SealMask(nonce, len), BlocksOf(p));
  }

  lemma SealedAt(aes: Cipher, d: seq<Byte>, len: nat, j: nat)
    requires len + 0x20 <= |d| && RoundedUp(len, 16) < 0x100_0000 && j < len
    ensures Sealed(aes, d, len)[j] == Masked(aes, NonceAt(d, len), j, d[j])
  {
    hide Crypt, Masked, Padded, Sealed, EsMac, BlocksOf, CounterBlock, SealMask, NonceAt, FooterByte, RoundedUp;
    var s, nonce, p := Sealed(aes, d, len), NonceAt(d, len), Padded(d, len);
    UpAtLeast(len);
    SealedParts(aes, d, len);
    PaddedLength(d, len);
    PaddedAt(d, len, j);
    CryptAt(aes, nonce, p, j);
    assert s[j] == s[..len][j] == Crypt(aes, CounterBlock(nonce, 1), p)[..len][j];
  }

  lemma UpAtLeast(len: nat)
    ensures len <= RoundedUp(len, 16) && RoundedUp(len, 16) % 16 == 0
  {
    Whole(len);
  }

  lemma PaddedLength(d: seq<Byte>, len: nat)
    requires len <= |d|
    ensures |Padded(d, len)| == RoundedUp(len, 16)
  {
    Whole(len);
  }

  lemma MacAsCcm(aes: Cipher, nonce: Nonce, len: nat, mask: Block, plain: seq<Block>) returns (first: Block)
    requires RoundedUp(len, 16) < 0x100_0000 && mask == CounterBlock(nonce, 0)
    ensures IsFirst(first, false, 7, nonce, RoundedUp(len, 16))
    ensures EsMac(aes, nonce, len, mask, plain) == MacField(aes, nonce, first, [], plain)
  {
    hide XorBlock, CbcMac, CounterBlock, IsFirst, FirstBlock;
    first := FirstBlock(0x3A, nonce, RoundedUp(len, 16));
    FirstIs(0x3A, false, 7, nonce, RoundedUp(len, 16));
    assert [] + plain == plain;
  }

  /** What ESDecrypt makes of any payload, and when it accepts: the length in the footer is right, and the MAC is the
      one of the decrypted payload, filled up with zeros. */
  lemma OpenedAsCcm(aes: Cipher, d: seq<Byte>, len: nat) returns (first: Block)
    requires len + 0x20 <= |d| && RoundedUp(len, 16) < 0x100_0000
    ensures var p, nonce := Opened(aes, d, len), NonceAt(d, len);
            && |p| == RoundedUp(len, 16)
            && (forall j | 0 <= j < |p| :: p[j] == if j < len then Masked(aes, nonce, j, d[j]) else 0)
            && IsFirst(first, false, 7, nonce, RoundedUp(len, 16))
            && (Accepts(aes, d, len) <==>
                  && FooterLength(aes, d, len) == len
                  && d[len..len + 16] == Reverse(MacField(aes, nonce, first, [], BlocksOf(p))))
  {
    hide Masked, Opened, EsMac, BlocksOf, CounterBlock, OpenMask, IsFirst, FooterLength, MacField, Reverse;
    var nonce := NonceAt(d, len);
    UpAtLeast(len);
    OpenedLength(aes, d, len);
    forall j | 0 <= j < |Opened(aes, d, len)|
      ensures Opened(aes, d, len)[j] == if j < len then Masked(aes, nonce, j, d[j]) else 0
    {
      OpenedAt(aes, d, len, j);
    }
    MasksAgree(nonce, len);
    first := MacAsCcm(aes, nonce, len, OpenMask(nonce, len), BlocksOf(Opened(aes, d, len)));
  }

  lemma OpenedLength(aes: Cipher, d: seq<Byte>, len: nat)
    requires len + 0x20 <= |d|
    ensures |Opened(aes, d, len)| == RoundedUp(len, 16)
  {
    hide Crypt, CryptChunk, CounterBlock;
    Whole(len);
  }

  lemma OpenedAt(aes: Cipher, d: seq<Byte>, len: nat, j: nat)
    requires len + 0x20 <= |d| && RoundedUp(len, 16) < 0x100_0000 && j < |Opened(aes, d, len)|
    ensures Opened(aes, d, len)[j] == if j < len then Masked(aes, NonceAt(d, len), j, d[j]) else 0
  {
    hide Opened, Crypt, CryptChunk, Ctr, CounterBlock, Masked, Reverse, NonceAt, RoundedUp;
    var nonce, k, rem := NonceAt(d, len), len / 16, len % 16;
    UpAtLeast(len);
    OpenedSplit(aes, d, len);
    if j < 16 * k {
      assert Opened(aes, d, len)[j] == Opened(aes, d, len)[..16 * k][j];
      CryptAt(aes, nonce, d[..16 * k], j);
    } else {
      var iv := CounterBlock(nonce, k + 1);
      var chunk: Block := d[16 * k..len] + Reverse(Ctr(aes, iv, Zeros(16)))[rem..];
      assert Opened(aes, d, len)[j] == Opened(aes, d, len)[16 * k..][j - 16 * k];
      ChunkAt(aes, iv, chunk, j - 16 * k);
      TailAt(aes, nonce, d, len, j);
    }
  }

  lemma OpenedSplit(aes: Cipher, d: seq<Byte>, len: nat)
    requires len + 0x20 <= |d|
    ensures var p, nonce, k, rem := Opened(aes, d, len), NonceAt(d, len), len / 16, len % 16;
            var iv := CounterBlock(nonce, k + 1);
            && |p| == 16 * k + (if rem == 0 then 0 else 16)
            && p[..16 * k] == Crypt(aes, CounterBlock(nonce, 1), d[..16 * k])
            && (rem > 0 ==>
                  p[16 * k..] == CryptChunk(aes, iv, d[16 * k..len] + Reverse(Ctr(aes, iv, Zeros(16)))[rem..]))
  {
    hide Crypt, CryptChunk, Ctr, CounterBlock, Reverse, NonceAt;
  }

  lemma TailAt(aes: Cipher, nonce: Nonce, d: seq<Byte>, len: nat, j: nat)
    requires len <= |d| && len / 16 * 16 <= j < len / 16 * 16 + 16 && len % 16 > 0
    ensures var k, rem, iv := len / 16, len % 16, CounterBlock(nonce, len / 16 + 1);
            var chunk: Block := d[16 * k..len] + Reverse(Ctr(aes, iv, Zeros(16)))[rem..];
            Xor(chunk[j - 16 * k], aes(iv)[15 - (j - 16 * k)]) == if j < len then Masked(aes, nonce, j, d[j]) else 0
  {
    hide CounterBlock, Xor;
    var k, iv := len / 16, CounterBlock(nonce, len / 16 + 1);
    var i := j - 16 * k;
    assert j / 16 == k && j % 16 == i;
    if j >= len {
      XorZero(aes(iv)[15 - i]);
    }
  }

  lemma XorZero(x: Byte)
    ensures Xor(Xor(0, x), x) == 0
  {
    XorBitsUndone(0, x);
  }
}
