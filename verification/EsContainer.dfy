/**
 The ES container of the DSi's NAND: a buffer of `len` bytes followed by 32 more, for the MAC, a fixed
 byte, the nonce and the length. Encryption and decryption work in place and treat a partial last block
 differently.
 */
module EsContainer {
  import opened Arithmetic
  import opened Bytes
  import opened Ccm
  import opened CtrBytes

  // ---- The layout ----------------------------------------------------------------------------

  /** The twelve nonce bytes, last one first. */
  function NonceAt(d: seq<Byte>, len: nat): Nonce
    requires len + 0x20 <= |d|
  {
    seq<Byte>(12, i requires 0 <= i < 12 => d[len + 0x1C - i])
  }

  function Zeros(n: nat): (z: seq<Byte>)
    ensures |z| == n
  {
    seq(n, _ => 0)
  }

  /** The payload, filled up with zeros to whole blocks. */
  function Padded(d: seq<Byte>, len: nat): (p: seq<Byte>)
    requires len <= |d|
    ensures |p| % 16 == 0 && len <= |p|
  {
    d[..len] + Zeros((16 - len % 16) % 16)
  }

  /** The blocks of a buffer, each read in reverse. */
  function BlocksOf(b: seq<Byte>): (r: seq<Block>)
    decreases |b|
  {
    if |b| < 16 then [] else BlocksOf(b[..|b| - 16]) + [Reverse(b[|b| - 16..])]
  }

  function FooterIv(nonce: Nonce): Block { [0, 0, 0] + nonce + [0] }

  function MacStart(aes: Cipher, nonce: Nonce, len: nat): Block {
    aes(FirstBlock(0x3A, nonce, (len + 0xF) / 16 * 16))
  }

  /** The counter block that masks the MAC when sealing: the running counter with its last bytes cleared. */
  function SealMask(nonce: Nonce, len: nat): Block {
    ZeroCounter(IncBy(CounterBlock(nonce, 1), (len + 0xF) / 16))
  }

  /** And when opening: for a partial block the counter was set up anew from its number. */
  function OpenMask(nonce: Nonce, len: nat): Block {
    if len % 16 == 0 then ZeroCounter(IncBy(CounterBlock(nonce, 1), len / 16))
    else ZeroCounter(Next(CounterBlock(nonce, len / 16 + 1)))
  }

  /** The MAC field for the plaintext blocks `plain`. */
  function EsMac(aes: Cipher, nonce: Nonce, len: nat, mask: Block, plain: seq<Block>): Block {
    Ctr(aes, mask, CbcMac(aes, MacStart(aes, nonce, len), plain))
  }

  /** The fixed byte and the length bytes, xored with the footer's key stream; the same both ways. */
  function FooterByte(aes: Cipher, nonce: Nonce, i: nat, x: Byte): Byte
    requires i < 16
  {
    Xor(x, aes(FooterIv(nonce))[i])
  }

  /** What ESEncrypt leaves in the buffer. */
  function Sealed(aes: Cipher, d: seq<Byte>, len: nat): (r: seq<Byte>)
    requires len + 0x20 <= |d|
    ensures |r| == |d|
  {
    var nonce := NonceAt(d, len);
    Crypt(aes, CounterBlock(nonce, 1), Padded(d, len))[..len]
      + Reverse(EsMac(aes, nonce, len, SealMask(nonce, len), BlocksOf(Padded(d, len))))
      + [FooterByte(aes, nonce, 15, 0x3A)]
      + d[len + 0x11..len + 0x1D]
      + [FooterByte(aes, nonce, 2, len / 0x1_0000 % 0x100), FooterByte(aes, nonce, 1, len / 0x100 % 0x100),
          FooterByte(aes, nonce, 0, len % 0x100)]
      + d[len + 0x20..]
  }

  /** The whole blocks ESDecrypt makes of the payload: a partial block is filled up with key stream. */
  function Opened(aes: Cipher, d: seq<Byte>, len: nat): (p: seq<Byte>)
    requires len + 0x20 <= |d|
    ensures len <= |p|
  {
    var nonce, coarse, rem := NonceAt(d, len), len / 16 * 16, len % 16;
    var iv := CounterBlock(nonce, coarse / 16 + 1);
    Crypt(aes, CounterBlock(nonce, 1), d[..coarse]) +
      if rem == 0 then [] else CryptChunk(aes, iv, d[coarse..len] + Reverse(Ctr(aes, iv, Zeros(16)))[rem..])
  }

  /** The length found in the footer. */
  function FooterLength(aes: Cipher, d: seq<Byte>, len: nat): nat
    requires len + 0x20 <= |d|
  {
    var nonce := NonceAt(d, len);
    FooterByte(aes, nonce, 0, d[len + 0x1F]) + FooterByte(aes, nonce, 1, d[len + 0x1E]) * 0x100
        + FooterByte(aes, nonce, 2, d[len + 0x1D]) * 0x1_0000
  }

  predicate Accepts(aes: Cipher, d: seq<Byte>, len: nat)
    requires len + 0x20 <= |d|
  {
    && FooterLength(aes, d, len) == len
    && d[len..len + 16] == Reverse(EsMac(aes, NonceAt(d, len), len, OpenMask(NonceAt(d, len), len),
        BlocksOf(Opened(aes, d, len))))
  }

  /** What ESDecrypt leaves in the buffer, whether or not it accepts. */
  function Unsealed(aes: Cipher, d: seq<Byte>, len: nat): (r: seq<Byte>)
    requires len + 0x20 <= |d|
    ensures |r| == |d|
  {
    var nonce := NonceAt(d, len);
    Opened(aes, d, len)[..len] + d[len..len + 0x10]
      + [FooterByte(aes, nonce, 15, d[len + 0x10])]
      + d[len + 0x11..len + 0x1D]
      + [FooterByte(aes, nonce, 2, d[len + 0x1D]), FooterByte(aes, nonce, 1, d[len + 0x1E]),
          FooterByte(aes, nonce, 0, d[len + 0x1F])]
      + d[len + 0x20..]
  }

  // ---- The round trip ------------------------------------------------------------------------

  lemma SealedParts(aes: Cipher, d: seq<Byte>, len: nat)
    requires len + 0x20 <= |d|
    ensures var s, nonce := Sealed(aes, d, len), NonceAt(d, len);
            && s[..len] == Crypt(aes, CounterBlock(nonce, 1), Padded(d, len))[..len]
            && s[len..len + 16] == Reverse(EsMac(aes, nonce, len, SealMask(nonce, len), BlocksOf(Padded(d, len))))
            && s[len + 0x10] == FooterByte(aes, nonce, 15, 0x3A)
            && s[len + 0x1D] == FooterByte(aes, nonce, 2, len / 0x1_0000 % 0x100)
            && s[len + 0x1E] == FooterByte(aes, nonce, 1, len / 0x100 % 0x100)
            && s[len + 0x1F] == FooterByte(aes, nonce, 0, len % 0x100)
            && s[len + 0x11..len + 0x1D] == d[len + 0x11..len + 0x1D] && s[len + 0x20..] == d[len + 0x20..]
            && NonceAt(s, len) == nonce
  {
    hide Crypt, EsMac, FooterByte, Padded, BlocksOf, CounterBlock, Reverse, SealMask;
    var s := Sealed(aes, d, len);
    assert s[len + 0x11..len + 0x1D] == d[len + 0x11..len + 0x1D];
    forall i | 0 <= i < 12
      ensures NonceAt(s, len)[i] == NonceAt(d, len)[i]
    {
      assert s[len + 0x11..len + 0x1D][11 - i] == d[len + 0x11..len + 0x1D][11 - i];
    }
  }

  lemma FooterByteUndone(aes: Cipher, nonce: Nonce, i: nat, x: Byte)
    requires i < 16
    ensures FooterByte(aes, nonce, i, FooterByte(aes, nonce, i, x)) == x
  {
    XorBitsUndone(x, aes(FooterIv(nonce))[i]);
  }

  /** The footer gives back the length modulo 2^24: it has three bytes for it. */
  lemma FooterLengthRead(aes: Cipher, d: seq<Byte>, len: nat)
    requires len + 0x20 <= |d|
    ensures FooterLength(aes, Sealed(aes, d, len), len) == len % 0x100_0000
  {
    hide FooterByte, Sealed, NonceAt;
    var nonce := NonceAt(d, len);
    SealedParts(aes, d, len);
    FooterByteUndone(aes, nonce, 0, len % 0x100);
    FooterByteUndone(aes, nonce, 1, len / 0x100 % 0x100);
    FooterByteUndone(aes, nonce, 2, len / 0x1_0000 % 0x100);
    LowBytes(len);
  }

  lemma LowBytes(n: nat)
    ensures n % 0x100 + n / 0x100 % 0x100 * 0x100 + n / 0x1_0000 % 0x100 * 0x1_0000 == n % 0x100_0000
  {
    NextByte(n, 0x100);
    NextByte(n, 0x1_0000);
  }

  lemma NextByte(n: nat, m: nat)
    requires m > 0
    ensures n % (0x100 * m) == n % m + n / m % 0x100 * m
  {
    var q := n / m;
    var high, low := q / 0x100, q % 0x100;
    Euclid(n, m);
    assert n == m * (0x100 * high + low) + n % m;
    assert m * (0x100 * high + low) == 0x100 * m * high + m * low;
    MulMono(m, low + 1, 0x100);
    Quotient(n, 0x100 * m, high);
  }

  /** Filling the encrypted tail up with key stream gives the encryption of the zero-padded tail. */
  lemma TailFilledUp(aes: Cipher, iv: Block, tail: seq<Byte>)
    requires 0 < |tail| < 16
    ensures var rem := |tail|;
            var whole := CryptChunk(aes, iv, tail + Zeros(16 - rem));
            whole[..rem] + Reverse(Ctr(aes, iv, Zeros(16)))[rem..] == whole
  {
    var rem := |tail|;
    var whole := CryptChunk(aes, iv, tail + Zeros(16 - rem));
    var stream := Reverse(Ctr(aes, iv, Zeros(16)));
    forall k | rem <= k < 16
      ensures whole[k] == stream[k]
    {
      assert (tail + Zeros(16 - rem))[k] == 0;
    }
  }

  lemma OpenedBlocks(aes: Cipher, first: Block, p: seq<Byte>, s: seq<Byte>, k: nat)
    requires 16 * k <= |p| && 16 * k <= |s| && s[..16 * k] == Crypt(aes, first, p)[..16 * k]
    ensures Crypt(aes, first, s[..16 * k]) == p[..16 * k]
  {
    hide Crypt, IncBy;
    CryptSlice(aes, first, p, 0, k);
    CryptNothing(aes, first);
    assert Crypt(aes, first, p)[0..16 * k] == Crypt(aes, first, p)[..16 * k] && p[0..16 * k] == p[..16 * k];
    CryptUndone(aes, first, p[..16 * k]);
  }

  /** The partial block: what ESDecrypt fills up is the encryption of the zero-padded tail. */
  lemma OpenedTail(aes: Cipher, first: Block, p: seq<Byte>, s: seq<Byte>, k: nat, tail: seq<Byte>)
    requires 0 < |tail| < 16 && |p| == 16 * k + 16 && p[16 * k..] == tail + Zeros(16 - |tail|)
    requires 16 * k + |tail| <= |s| && s[..16 * k + |tail|] == Crypt(aes, first, p)[..16 * k + |tail|]
    ensures var iv := IncBy(first, k);
            CryptChunk(aes, iv, s[16 * k..16 * k + |tail|] + Reverse(Ctr(aes, iv, Zeros(16)))[|tail|..]) == tail
                + Zeros(16 - |tail|)
  {
    hide Crypt, CryptChunk, IncBy, Ctr;
    var iv, chunk, n := IncBy(first, k), tail + Zeros(16 - |tail|), |tail|;
    var c := Crypt(aes, first, p);
    CryptMore(aes, first, p, k);
    assert p[..16 * k + 16] == p && p[16 * k..16 * k + 16] == chunk;
    LastChunk(c, Crypt(aes, first, p[..16 * k]), CryptChunk(aes, iv, chunk), s, k, n);
    TailFilledUp(aes, iv, tail);
    CryptChunkUndone(aes, iv, chunk);
  }

  lemma PaddedParts(d: seq<Byte>, len: nat)
    requires len <= |d|
    ensures var p, k, rem := Padded(d, len), len / 16, len % 16;
            && p[..len] == d[..len]
            && (rem == 0 ==> |p| == 16 * k && p[..16 * k] == p)
            && (rem > 0 ==>
                |p| == 16 * k + 16 && p[16 * k..] == d[16 * k..len] + Zeros(16 - rem)
                && p == p[..16 * k] + p[16 * k..])
  {
  }

  lemma LastChunk(c: seq<Byte>, head: seq<Byte>, whole: Block, s: seq<Byte>, k: nat, n: nat)
    requires c == head + whole && |head| == 16 * k && n <= 16 && 16 * k + n <= |s| && s[..16 * k + n] == c[..16 * k + n]
    ensures s[16 * k..16 * k + n] == whole[..n]
  {
    assert s[16 * k..16 * k + n] == s[..16 * k + n][16 * k..] == c[..16 * k + n][16 * k..];
  }

  /** Decryption recovers the padded payload, whole blocks and partial block alike. */
  lemma OpenedIsPadded(aes: Cipher, d: seq<Byte>, len: nat)
    requires len + 0x20 <= |d| && len < 0x100_0000
    ensures Opened(aes, Sealed(aes, d, len), len) == Padded(d, len)
  {
    hide CryptChunk, Crypt, IncBy, Sealed, NonceAt, CounterBlock, Ctr, Reverse, Padded, EsMac, FooterByte, BlocksOf,
        SealMask;
    var s, p, nonce := Sealed(aes, d, len), Padded(d, len), NonceAt(d, len);
    var k, rem, first := len / 16, len % 16, CounterBlock(nonce, 1);
    SealedParts(aes, d, len);
    assert s[..16 * k] == s[..len][..16 * k] && Crypt(aes, first, p)[..len][..16 * k] == Crypt(aes, first, p)[..16 * k];
    OpenedBlocks(aes, first, p, s, k);
    PaddedParts(d, len);
    if rem > 0 {
      CounterSteps(nonce, 1, k);
      OpenedTail(aes, first, p, s, k, d[16 * k..len]);
    }
  }

  /** Within the counter's three bytes both are counter block 0 of the RFC. */
  lemma MasksAgree(nonce: Nonce, len: nat)
    requires len < 0x100_0000
    ensures SealMask(nonce, len) == OpenMask(nonce, len) == CounterBlock(nonce, 0)
  {
    hide IncBy, CounterBlock, ZeroCounter, Inc;
    var k, n := len / 16, (len + 0xF) / 16;
    CounterSteps(nonce, 1, n);
    ZeroCounterIs(nonce, n + 1);
    if len % 16 == 0 {
      assert n == k;
    } else {
      assert n == k + 1;
      CounterStep(nonce, k + 1);
    }
  }

  /** The round trip: decrypting what was encrypted is accepted if and only if the length fits the three
      bytes of the footer, and then the payload is restored, whatever its last block. */
  lemma RoundTrip(aes: Cipher, d: seq<Byte>, len: nat)
    requires len + 0x20 <= |d|
    ensures Accepts(aes, Sealed(aes, d, len), len) <==> len < 0x100_0000
    ensures len < 0x100_0000 ==> Unsealed(aes, Sealed(aes, d, len), len)[..len] == d[..len]
  {
    hide Sealed, Opened, Unsealed, NonceAt, EsMac, FooterByte, FooterLength, Padded, BlocksOf, Reverse, Crypt,
        SealMask, OpenMask;
    FooterLengthRead(aes, d, len);
    if len < 0x100_0000 {
      SealedParts(aes, d, len);
      OpenedIsPadded(aes, d, len);
      MasksAgree(NonceAt(d, len), len);
      UnsealedPayload(aes, Sealed(aes, d, len), len);
      PaddedParts(d, len);
    }
  }

  lemma UnsealedPayload(aes: Cipher, d: seq<Byte>, len: nat)
    requires len + 0x20 <= |d|
    ensures Unsealed(aes, d, len)[..len] == Opened(aes, d, len)[..len]
  {
    hide Opened, NonceAt, FooterByte;
  }

  // ---- The routines, in place ----------------------------------------------------------------

  lemma BlocksOfMore(b: seq<Byte>, k: nat)
    requires 16 * k + 16 <= |b|
    ensures BlocksOf(b[..16 * k + 16]) == BlocksOf(b[..16 * k]) + [Reverse(b[16 * k..16 * k + 16])]
  {
    var c := b[..16 * k + 16];
    assert c[..16 * k] == b[..16 * k] && c[16 * k..] == b[16 * k..16 * k + 16];
  }

  lemma CbcMacMore(aes: Cipher, start: Block, blocks: seq<Block>, b: Block)
    ensures CbcMac(aes, start, blocks + [b]) == Absorb(aes, CbcMac(aes, start, blocks), b)
  {
    assert (blocks + [b])[..|blocks|] == blocks;
  }

  lemma MacMore(aes: Cipher, start: Block, b: seq<Byte>, k: nat)
    requires 16 * k + 16 <= |b|
    ensures CbcMac(aes, start, BlocksOf(b[..16 * k + 16]))
        == Absorb(aes, CbcMac(aes, start, BlocksOf(b[..16 * k])), Reverse(b[16 * k..16 * k + 16]))
  {
    hide CbcMac, BlocksOf, Reverse, Absorb;
    BlocksOfMore(b, k);
    CbcMacMore(aes, start, BlocksOf(b[..16 * k]), Reverse(b[16 * k..16 * k + 16]));
  }

  /** The MAC of the first `k` blocks. */
  ghost function MacUpTo(aes: Cipher, start: Block, d: seq<Byte>, k: nat): Block
    requires 16 * k <= |d|
  {
    CbcMac(aes, start, BlocksOf(d[..16 * k]))
  }

  lemma MacEnds(aes: Cipher, start: Block, d: seq<Byte>, k: nat)
    requires |d| == 16 * k
    ensures MacUpTo(aes, start, d, 0) == start && MacUpTo(aes, start, d, k) == CbcMac(aes, start, BlocksOf(d))
  {
    hide CbcMac, BlocksOf;
    NothingMacd(aes, start);
    assert d[..0] == [] && d[..16 * k] == d;
  }

  lemma MacStep(aes: Cipher, start: Block, d: seq<Byte>, k: nat)
    requires 16 * k + 16 <= |d|
    ensures MacUpTo(aes, start, d, k + 1)
        == Absorb(aes, MacUpTo(aes, start, d, k), Reverse(d[16 * k..16 * k + 16]))
  {
    hide CbcMac, BlocksOf, Reverse, Absorb;
    MacMore(aes, start, d, k);
  }

  lemma NothingMacd(aes: Cipher, start: Block)
    ensures CbcMac(aes, start, BlocksOf([])) == start
  {
  }

  method ReadNonce(data: array<Byte>, len: nat) returns (nonce: Nonce)
    requires len + 0x20 <= data.Length
    ensures nonce == NonceAt(data[..], len)
  {
    var n: seq<Byte> := [];
    for i := 0 to 12
      invariant |n| == i && forall k | 0 <= k < i :: n[k] == data[len + 0x1C - k]
    {
      n := n + [data[len + 0x1C - i]];
    }
    nonce := n;
  }

  method SealBlock(aes: Cipher, data: array<Byte>, at: nat, iv0: Block, mac0: Block) returns (iv: Block, mac: Block)
    requires at + 16 <= data.Length
    modifies data
    ensures var d := old(data[..]);
        && data[..] == d[..at] + CryptChunk(aes, iv0, d[at..at + 16]) + d[at + 16..]
        && iv == Next(iv0) && mac == Absorb(aes, mac0, Reverse(d[at..at + 16]))
  {
    hide CryptChunk, Reverse, Absorb, Next;
    assert data[at..at + 16] == data[..][at..at + 16];
    mac := Absorb(aes, mac0, Reverse(data[at..at + 16]));
    iv := CryptInPlace(aes, data, at, iv0);
  }

  /** The whole blocks of ESEncrypt: the MAC takes each in before it is encrypted. */
  method SealBlocks(aes: Cipher, data: array<Byte>, k: nat, iv0: Block, mac0: Block) returns (iv: Block, mac: Block)
    requires 16 * k <= data.Length
    modifies data
    ensures var d := old(data[..]);
        && data[..] == Crypt(aes, iv0, d[..16 * k]) + d[16 * k..]
        && iv == IncBy(iv0, k) && mac == CbcMac(aes, mac0, BlocksOf(d[..16 * k]))
  {
    hide Crypt, CryptChunk, CbcMac, BlocksOf, Reverse, Absorb, IncBy, Next, Partly, MacUpTo;
    ghost var d, tail := data[..][..16 * k], data[..][16 * k..];
    iv, mac := iv0, mac0;
    CryptNothing(aes, iv0);
    MacEnds(aes, mac0, d, k);
    PartlyEnds(aes, iv0, d, tail, k);
    assert data[..] == d + tail;
    for i := 0 to k
      invariant data[..] == Partly(aes, iv0, d, tail, i)
      invariant iv == IncBy(iv0, i) && mac == MacUpTo(aes, mac0, d, i)
    {
      PartlyStep(aes, iv0, d, tail, i);
      MacStep(aes, mac0, d, i);
      iv, mac := SealBlock(aes, data, 16 * i, iv, mac);
    }
  }

  /** The whole blocks of ESDecrypt: the MAC takes each in after it is decrypted. */
  method OpenBlocks(aes: Cipher, data: array<Byte>, k: nat, iv0: Block, mac0: Block) returns (iv: Block, mac: Block)
    requires 16 * k <= data.Length
    modifies data
    ensures var d := old(data[..]);
        && data[..] == Crypt(aes, iv0, d[..16 * k]) + d[16 * k..]
        && iv == IncBy(iv0, k) && mac == CbcMac(aes, mac0, BlocksOf(Crypt(aes, iv0, d[..16 * k])))
  {
    hide Crypt, CryptChunk, CbcMac, BlocksOf, Reverse, Absorb, IncBy, Next, Partly;
    ghost var d, tail := data[..][..16 * k], data[..][16 * k..];
    iv, mac := iv0, mac0;
    CryptNothing(aes, iv0);
    NothingMacd(aes, mac0);
    PartlyEnds(aes, iv0, d, tail, k);
    assert data[..] == d + tail && d[..0] == [];
    for i := 0 to k
      invariant data[..] == Partly(aes, iv0, d, tail, i)
      invariant iv == IncBy(iv0, i) && mac == CbcMac(aes, mac0, BlocksOf(Crypt(aes, iv0, d[..16 * i])))
    {
      PartlyStep(aes, iv0, d, tail, i);
      iv := CryptInPlace(aes, data, 16 * i, iv);
      assert data[16 * i..16 * i + 16] == data[..][16 * i..16 * i + 16];
      MacAppended(aes, mac0, Crypt(aes, iv0, d[..16 * i]), data[16 * i..16 * i + 16], i);
      mac := Absorb(aes, mac, Reverse(data[16 * i..16 * i + 16]));
    }
  }

  lemma MacAppended(aes: Cipher, start: Block, done: seq<Byte>, chunk: Block, k: nat)
    requires |done| == 16 * k
    ensures CbcMac(aes, start, BlocksOf(done + chunk))
        == Absorb(aes, CbcMac(aes, start, BlocksOf(done)), Reverse(chunk))
  {
    hide CbcMac, BlocksOf, Reverse, Absorb;
    var b := done + chunk;
    MacMore(aes, start, b, k);
    assert b[..16 * k + 16] == b && b[..16 * k] == done && b[16 * k..16 * k + 16] == chunk;
  }

  /** Bytes of the buffer into a block from its end, over what the block held. */
  method FillReversed(data: array<Byte>, at: nat, rem: nat, base: Block) returns (b: Block)
    requires at + rem <= data.Length && rem <= 16
    ensures b == Reverse(data[..][at..at + rem] + Reverse(base)[rem..])
  {
    b := base;
    ghost var bytes := data[..][at..at + rem];
    for i := 0 to rem
      invariant forall k | 0 <= k < 16 :: b[k] == if k > 15 - i then bytes[15 - k] else base[k]
    {
      assert data[at + i] == bytes[i];
      b := b[15 - i := data[at + i]];
    }
    Filled(b, bytes, base);
  }

  lemma Filled(b: Block, bytes: seq<Byte>, base: Block)
    requires |bytes| <= 16 && forall k | 0 <= k < 16 :: b[k] == if k > 15 - |bytes| then bytes[15 - k] else base[k]
    ensures b == Reverse(bytes + Reverse(base)[|bytes|..])
  {
    var r: Block := bytes + Reverse(base)[|bytes|..];
    forall k | 0 <= k < 16
      ensures b[k] == Reverse(r)[k]
    {
      assert Reverse(r)[k] == r[15 - k];
    }
  }

  /** And back. */
  method WriteReversed(data: array<Byte>, at: nat, rem: nat, b: Block)
    requires at + rem <= data.Length && rem <= 16
    modifies data
    ensures data[..] == Overwritten(old(data[..]), at, Reverse(b)[..rem])
  {
    for i := 0 to rem
      invariant data[..at] == old(data[..at]) && data[at + i..] == old(data[at + i..])
      invariant data[at..at + i] == Reverse(b)[..i]
    {
      data[at + i] := b[15 - i];
      assert data[at..at + i + 1] == data[at..at + i] + [data[at + i]];
    }
    assert data[..] == data[..at] + data[at..at + rem] + data[at + rem..];
  }

  /** The partial block of ESEncrypt, filled up with zeros. */
  method SealTail(aes: Cipher, data: array<Byte>, at: nat, rem: nat, iv0: Block, mac0: Block)
      returns (iv: Block, mac: Block)
    requires at + rem <= data.Length && rem <= 16
    modifies data
    ensures var chunk: Block := old(data[..])[at..at + rem] + Zeros(16 - rem);
            && data[..] == Overwritten(old(data[..]), at, CryptChunk(aes, iv0, chunk)[..rem])
            && mac == Absorb(aes, mac0, Reverse(chunk)) && iv == Next(iv0)
  {
    hide Absorb, Ctr, Next, Overwritten;
    var b := FillReversed(data, at, rem, Zeros(16));
    assert Reverse(Zeros(16))[rem..] == Zeros(16 - rem);
    mac := Absorb(aes, mac0, b);
    b := Ctr(aes, iv0, b);
    iv := Next(iv0);
    WriteReversed(data, at, rem, b);
  }

  /** The partial block of ESDecrypt, filled up with key stream. */
  method OpenTail(aes: Cipher, data: array<Byte>, at: nat, rem: nat, iv0: Block, mac0: Block)
      returns (iv: Block, mac: Block)
    requires at + rem <= data.Length && rem <= 16
    modifies data
    ensures var chunk: Block := old(data[..])[at..at + rem] + Reverse(Ctr(aes, iv0, Zeros(16)))[rem..];
            && data[..] == Overwritten(old(data[..]), at, CryptChunk(aes, iv0, chunk)[..rem])
            && mac == Absorb(aes, mac0, Reverse(CryptChunk(aes, iv0, chunk))) && iv == Next(iv0)
  {
    hide Absorb, Ctr, Next, Overwritten;
    var b := Ctr(aes, iv0, Zeros(16));
    b := FillReversed(data, at, rem, b);
    b := Ctr(aes, iv0, b);
    iv := Next(iv0);
    ReverseUndone(b);
    mac := Absorb(aes, mac0, b);
    WriteReversed(data, at, rem, b);
  }

  /** The payload of ESEncrypt, up to the MAC before it is masked. */
  method SealPayload(aes: Cipher, data: array<Byte>, len: nat, iv0: Block, mac0: Block) returns (iv: Block, mac: Block)
    requires len <= data.Length
    modifies data
    ensures data[..] == Overwritten(old(data[..]), 0, Crypt(aes, iv0, Padded(old(data[..]), len))[..len])
    ensures iv == IncBy(iv0, (len + 0xF) / 16) && mac == CbcMac(aes, mac0, BlocksOf(Padded(old(data[..]), len)))
  {
    hide Crypt, CryptChunk, CbcMac, BlocksOf, Reverse, Absorb, IncBy, Next, Padded, Zeros, Overwritten;
    ghost var d := data[..];
    var k, rem := len / 16, len % 16;
    iv, mac := SealBlocks(aes, data, k, iv0, mac0);
    if rem > 0 {
      iv, mac := SealTail(aes, data, 16 * k, rem, iv, mac);
    }
    SealedPayload(aes, iv0, mac0, d, len);
  }

  /** Whole blocks and tail together are the padded payload. */
  lemma SealedPayload(aes: Cipher, iv0: Block, mac0: Block, d: seq<Byte>, len: nat)
    requires len <= |d|
    ensures var k, rem, p := len / 16, len % 16, Padded(d, len);
            var e := Crypt(aes, iv0, d[..16 * k]) + d[16 * k..];
            if rem == 0 then
              && e == Overwritten(d, 0, Crypt(aes, iv0, p)[..len])
              && CbcMac(aes, mac0, BlocksOf(d[..16 * k])) == CbcMac(aes, mac0, BlocksOf(p)) && (len + 0xF) / 16 == k
            else
              var chunk: Block := e[16 * k..16 * k + rem] + Zeros(16 - rem);
              && Overwritten(e, 16 * k, CryptChunk(aes, IncBy(iv0, k), chunk)[..rem])
                  == Overwritten(d, 0, Crypt(aes, iv0, p)[..len])
              && Absorb(aes, CbcMac(aes, mac0, BlocksOf(d[..16 * k])), Reverse(chunk)) == CbcMac(aes, mac0, BlocksOf(p))
              && (len + 0xF) / 16 == k + 1 && Next(IncBy(iv0, k)) == IncBy(iv0, k + 1)
  {
    hide Crypt, CryptChunk, CbcMac, BlocksOf, Reverse, Absorb, IncBy, Next, Padded, Zeros;
    var k, rem, p := len / 16, len % 16, Padded(d, len);
    PaddedParts(d, len);
    assert p[..16 * k] == p[..len][..16 * k] == d[..16 * k];
    if rem == 0 {
      assert d[..16 * k] == p && Crypt(aes, iv0, p)[..len] == Crypt(aes, iv0, p);
    } else {
      CryptMore(aes, iv0, p, k);
      MacMore(aes, mac0, p, k);
      assert p[..16 * k + 16] == p && p[16 * k..16 * k + 16] == p[16 * k..];
      TailWritten(d, Crypt(aes, iv0, d[..16 * k]), CryptChunk(aes, IncBy(iv0, k), p[16 * k..]), k, rem);
    }
  }

  /** A tail of `rem` bytes written behind `k` whole blocks. */
  lemma TailWritten(d: seq<Byte>, done: seq<Byte>, chunk: Block, k: nat, rem: nat)
    requires |done| == 16 * k && rem <= 16 && 16 * k + rem <= |d|
    ensures var e := done + d[16 * k..];
            && e[16 * k..16 * k + rem] == d[16 * k..16 * k + rem]
            && Overwritten(e, 16 * k, chunk[..rem]) == Overwritten(d, 0, (done + chunk)[..16 * k + rem])
  {
    var e := done + d[16 * k..];
    assert (done + chunk)[..16 * k + rem] == done + chunk[..rem];
    assert e[..16 * k] == done && e[16 * k + rem..] == d[16 * k + rem..];
  }

  /** The payload of ESDecrypt. */
  method OpenPayload(aes: Cipher, data: array<Byte>, len: nat, nonce: Nonce, mac0: Block)
      returns (iv: Block, mac: Block)
    requires len + 0x20 <= data.Length && nonce == NonceAt(data[..], len)
    modifies data
    ensures data[..] == Overwritten(old(data[..]), 0, Opened(aes, old(data[..]), len)[..len])
    ensures mac == CbcMac(aes, mac0, BlocksOf(Opened(aes, old(data[..]), len)))
    ensures ZeroCounter(iv) == OpenMask(nonce, len)
  {
    hide Crypt, CryptChunk, CbcMac, BlocksOf, Reverse, Absorb, IncBy, Next, Zeros, Ctr, CounterBlock, NonceAt,
        ZeroCounter, Overwritten, Opened;
    ghost var d := data[..];
    var k, rem := len / 16, len % 16;
    iv, mac := OpenBlocks(aes, data, k, CounterBlock(nonce, 1), mac0);
    if rem > 0 {
      iv, mac := OpenTail(aes, data, 16 * k, rem, CounterBlock(nonce, k + 1), mac);
    }
    OpenedPayload(aes, mac0, d, len);
  }

  lemma OpenedPayload(aes: Cipher, mac0: Block, d: seq<Byte>, len: nat)
    requires len + 0x20 <= |d|
    ensures var k, rem, nonce, q := len / 16, len % 16, NonceAt(d, len), Opened(aes, d, len);
            var iv, e := CounterBlock(nonce, k + 1), Crypt(aes, CounterBlock(nonce, 1), d[..16 * k]) + d[16 * k..];
            var mac := CbcMac(aes, mac0, BlocksOf(Crypt(aes, CounterBlock(nonce, 1), d[..16 * k])));
            if rem == 0 then e == Overwritten(d, 0, q[..len]) && mac == CbcMac(aes, mac0, BlocksOf(q))
            else
              var chunk: Block := e[16 * k..16 * k + rem] + Reverse(Ctr(aes, iv, Zeros(16)))[rem..];
              && Overwritten(e, 16 * k, CryptChunk(aes, iv, chunk)[..rem]) == Overwritten(d, 0, q[..len])
              && Absorb(aes, mac, Reverse(CryptChunk(aes, iv, chunk))) == CbcMac(aes, mac0, BlocksOf(q))
  {
    hide Crypt, CryptChunk, CbcMac, BlocksOf, Reverse, Absorb, Zeros, Ctr, CounterBlock, NonceAt;
    var k, rem, nonce, q := len / 16, len % 16, NonceAt(d, len), Opened(aes, d, len);
    var iv, done := CounterBlock(nonce, k + 1), Crypt(aes, CounterBlock(nonce, 1), d[..16 * k]);
    if rem == 0 {
      assert q == done && d[..16 * k] == d[..len];
    } else {
      var chunk: Block := d[16 * k..len] + Reverse(Ctr(aes, iv, Zeros(16)))[rem..];
      assert q == done + CryptChunk(aes, iv, chunk);
      TailWritten(d, done, CryptChunk(aes, iv, chunk), k, rem);
      MacAppended(aes, mac0, done, CryptChunk(aes, iv, chunk), k);
    }
  }

  /** The fixed byte and the three length bytes. */
  method WriteFooter(data: array<Byte>, len: nat, fixed: Byte, b2: Byte, b1: Byte, b0: Byte)
    requires len + 0x20 <= data.Length
    modifies data
    ensures data[..] == old(data[..])[len + 0x10 := fixed][len + 0x1D := b2][len + 0x1E := b1][len + 0x1F := b0]
  {
    data[len + 0x10] := fixed;
    data[len + 0x1D] := b2;
    data[len + 0x1E] := b1;
    data[len + 0x1F] := b0;
  }

  method ESEncrypt(aes: Cipher, data: array<Byte>, len: nat)
    requires len + 0x20 <= data.Length
    modifies data
    ensures data[..] == Sealed(aes, old(data[..]), len)
  {
    hide Crypt, CbcMac, BlocksOf, Reverse, IncBy, Padded, Ctr, CounterBlock, NonceAt, ZeroCounter, MacStart,
        FooterByte, Overwritten, Sealed;
    ghost var d := data[..];
    var nonce := ReadNonce(data, len);
    var iv := CounterBlock(nonce, 1);
    var mac := MacStart(aes, nonce, len);
    iv, mac := SealPayload(aes, data, len, iv, mac);
    mac := Ctr(aes, ZeroCounter(iv), mac);
    WriteReversed(data, len, 16, mac);
    SealedNonce(aes, d, len, mac);
    nonce := ReadNonce(data, len);
    WriteFooter(data, len, FooterByte(aes, nonce, 15, 0x3A),
      FooterByte(aes, nonce, 2, len / 0x1_0000 % 0x100), FooterByte(aes, nonce, 1, len / 0x100 % 0x100),
          FooterByte(aes, nonce, 0, len % 0x100));
    SealedIs(aes, d, len);
  }

  lemma SealedNonce(aes: Cipher, d: seq<Byte>, len: nat, mac: Block)
    requires len + 0x20 <= |d|
    ensures var p := Crypt(aes, CounterBlock(NonceAt(d, len), 1), Padded(d, len))[..len];
            NonceAt(Overwritten(Overwritten(d, 0, p), len, Reverse(mac)[..16]), len) == NonceAt(d, len)
  {
    hide Crypt, Padded, CounterBlock, Reverse;
    var p := Crypt(aes, CounterBlock(NonceAt(d, len), 1), Padded(d, len))[..len];
    var e := Overwritten(Overwritten(d, 0, p), len, Reverse(mac)[..16]);
    assert forall i | len + 0x10 <= i < |d| :: e[i] == d[i];
  }

  lemma SealedIs(aes: Cipher, d: seq<Byte>, len: nat)
    requires len + 0x20 <= |d|
    ensures var nonce := NonceAt(d, len);
            var p := Crypt(aes, CounterBlock(nonce, 1), Padded(d, len))[..len];
            var mac := Ctr(aes, ZeroCounter(IncBy(CounterBlock(nonce, 1), (len + 0xF) / 16)),
                CbcMac(aes, MacStart(aes, nonce, len), BlocksOf(Padded(d, len))));
            Overwritten(Overwritten(d, 0, p), len, Reverse(mac)[..16])
              [len + 0x10 := FooterByte(aes, nonce, 15, 0x3A)][len + 0x1D :=
                  FooterByte(aes, nonce, 2, len / 0x1_0000 % 0x100)]
              [len + 0x1E := FooterByte(aes, nonce, 1, len / 0x100 % 0x100)][len + 0x1F :=
                  FooterByte(aes, nonce, 0, len % 0x100)]
            == Sealed(aes, d, len)
  {
    hide Crypt, CbcMac, BlocksOf, Reverse, IncBy, Padded, Ctr, CounterBlock, NonceAt, ZeroCounter, MacStart,
        FooterByte, Overwritten;
    var nonce := NonceAt(d, len);
    var p := Crypt(aes, CounterBlock(nonce, 1), Padded(d, len))[..len];
    var mac := EsMac(aes, nonce, len, SealMask(nonce, len), BlocksOf(Padded(d, len)));
    assert Reverse(mac)[..16] == Reverse(mac);
    FooterWritten(d, p, Reverse(mac), len, FooterByte(aes, nonce, 15, 0x3A),
        FooterByte(aes, nonce, 2, len / 0x1_0000 % 0x100),
      FooterByte(aes, nonce, 1, len / 0x100 % 0x100), FooterByte(aes, nonce, 0, len % 0x100));
  }

  lemma FooterWritten(d: seq<Byte>, p: seq<Byte>, mac: Block, len: nat, fixed: Byte, b2: Byte, b1: Byte, b0: Byte)
    requires len + 0x20 <= |d| && |p| == len
    ensures Overwritten(Overwritten(d, 0, p), len, mac)[len + 0x10 := fixed][len + 0x1D := b2][len + 0x1E :=
        b1][len + 0x1F := b0]
            == p + mac + [fixed] + d[len + 0x11..len + 0x1D] + [b2, b1, b0] + d[len + 0x20..]
  {
    var e := Overwritten(Overwritten(d, 0, p), len, mac);
    assert e == p + mac + d[len + 0x10..];
  }

  lemma OpenedRest(aes: Cipher, d: seq<Byte>, len: nat)
    requires len + 0x20 <= |d|
    ensures var e := Overwritten(d, 0, Opened(aes, d, len)[..len]);
            && NonceAt(e, len) == NonceAt(d, len) && e[len..] == d[len..]
            && e[len + 0x10] == d[len + 0x10] && e[len + 0x1D] == d[len + 0x1D] && e[len + 0x1E] == d[len + 0x1E]
                && e[len + 0x1F] == d[len + 0x1F]
  {
    hide Opened;
    var e := Overwritten(d, 0, Opened(aes, d, len)[..len]);
    assert forall i | len <= i < |d| :: e[i] == d[i];
  }

  lemma UnsealedIs(aes: Cipher, d: seq<Byte>, len: nat)
    requires len + 0x20 <= |d|
    ensures var nonce, u := NonceAt(d, len), Unsealed(aes, d, len);
            && Overwritten(d, 0, Opened(aes, d, len)[..len])
               [len + 0x10 := FooterByte(aes, nonce, 15, d[len + 0x10])][len + 0x1D :=
                   FooterByte(aes, nonce, 2, d[len + 0x1D])]
               [len + 0x1E := FooterByte(aes, nonce, 1, d[len + 0x1E])][len + 0x1F :=
                   FooterByte(aes, nonce, 0, d[len + 0x1F])] == u
            && u[len..len + 16] == d[len..len + 16]
  {
    hide Opened, NonceAt, FooterByte;
  }

  method ESDecrypt(aes: Cipher, data: array<Byte>, len: nat) returns (ok: bool)
    requires len + 0x20 <= data.Length
    modifies data
    ensures data[..] == Unsealed(aes, old(data[..]), len) && (ok <==> Accepts(aes, old(data[..]), len))
  {
    hide Crypt, CbcMac, BlocksOf, Reverse, IncBy, Ctr, CounterBlock, NonceAt, ZeroCounter, MacStart, FooterByte,
        Overwritten, Unsealed, Opened, OpenMask;
    ghost var d := data[..];
    var nonce := ReadNonce(data, len);
    var mac := MacStart(aes, nonce, len);
    var iv;
    iv, mac := OpenPayload(aes, data, len, nonce, mac);
    mac := Ctr(aes, ZeroCounter(iv), mac);
    OpenedRest(aes, d, len);
    ghost var e := data[..];
    nonce := ReadNonce(data, len);
    var b0, b1 := FooterByte(aes, nonce, 0, data[len + 0x1F]), FooterByte(aes, nonce, 1, data[len + 0x1E]);
    var b2 := FooterByte(aes, nonce, 2, data[len + 0x1D]);
    WriteFooter(data, len, FooterByte(aes, nonce, 15, data[len + 0x10]), b2, b1, b0);
    UnsealedIs(aes, d, len);
    var n0: nat, n1: nat, n2: nat := b0, b1, b2;
    if n0 + n1 * 0x100 + n2 * 0x1_0000 != len {
      return false;
    }
    ok := true;
    for i := 0 to 16
      invariant ok <==> forall k | 0 <= k < i :: data[len + k] == Reverse(mac)[k]
    {
      if data[len + i] != Reverse(mac)[i] {
        ok := false;
      }
    }
    assert data[len..len + 16] == d[len..len + 16];
    assert ok <==> data[len..len + 16] == Reverse(mac);
  }
}
