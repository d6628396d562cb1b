/**
 Counter mode with CBC-MAC, as RFC 3610 defines it, and as the DSi's AES code computes it: one block at a
 time, with the running counter in `iv` and the running MAC in `mac`. AES itself is a parameter.
 */
module Ccm {
  import opened Bytes

  /** Encrypt a block under a fixed key. */
  type Cipher = Block -> Block

  datatype Chain = Chain(iv: Block, mac: Block)

  /** `AES_CTR_xcrypt_buffer` on 16 bytes: the output, and the counter stepped. */
  function Ctr(aes: Cipher, iv: Block, data: Block): Block { XorBlock(data, aes(iv)) }

  function Next(iv: Block): Block { Inc(iv) }

  function Absorb(aes: Cipher, mac: Block, data: Block): Block { aes(XorBlock(mac, data)) }

  // ---- One block, and lists of blocks --------------------------------------------------------

  function SealStep(aes: Cipher, c: Chain, plain: Block): Chain {
    Chain(Next(c.iv), Absorb(aes, c.mac, plain))
  }

  function OpenStep(aes: Cipher, c: Chain, cipher: Block): Chain {
    Chain(Next(c.iv), Absorb(aes, c.mac, Ctr(aes, c.iv, cipher)))
  }

  function Seal(aes: Cipher, c: Chain, plain: seq<Block>): Chain {
    if plain == [] then c else SealStep(aes, Seal(aes, c, plain[..|plain| - 1]), plain[|plain| - 1])
  }

  function Open(aes: Cipher, c: Chain, cipher: seq<Block>): Chain {
    if cipher == [] then c else OpenStep(aes, Open(aes, c, cipher[..|cipher| - 1]), cipher[|cipher| - 1])
  }

  /** Counter mode over a list: the same for both directions. */
  function Stream(aes: Cipher, iv: Block, data: seq<Block>): (r: seq<Block>)
    ensures |r| == |data|
  {
    if data == [] then []
    else Stream(aes, iv, data[..|data| - 1]) + [Ctr(aes, IncBy(iv, |data| - 1), data[|data| - 1])]
  }

  lemma {:induction false} StreamAt(aes: Cipher, iv: Block, data: seq<Block>, i: nat)
    requires i < |data|
    ensures Stream(aes, iv, data)[i] == Ctr(aes, IncBy(iv, i), data[i])
  {
    if i < |data| - 1 {
      StreamAt(aes, iv, data[..|data| - 1], i);
    }
  }

  lemma StreamUndone(aes: Cipher, iv: Block, data: seq<Block>)
    ensures Stream(aes, iv, Stream(aes, iv, data)) == data
  {
    forall i | 0 <= i < |data|
      ensures Stream(aes, iv, Stream(aes, iv, data))[i] == data[i]
    {
      StreamAt(aes, iv, data, i);
      StreamAt(aes, iv, Stream(aes, iv, data), i);
      XorBlockUndone(data[i], aes(IncBy(iv, i)));
    }
  }

  function CbcMac(aes: Cipher, start: Block, data: seq<Block>): Block {
    if data == [] then start else Absorb(aes, CbcMac(aes, start, data[..|data| - 1]), data[|data| - 1])
  }

  lemma {:induction false} SealIs(aes: Cipher, c: Chain, plain: seq<Block>)
    ensures Seal(aes, c, plain) == Chain(IncBy(c.iv, |plain|), CbcMac(aes, c.mac, plain))
  {
    if plain != [] {
      SealIs(aes, c, plain[..|plain| - 1]);
    }
  }

  lemma {:induction false} OpenIs(aes: Cipher, c: Chain, cipher: seq<Block>)
    ensures Open(aes, c, cipher) == Chain(IncBy(c.iv, |cipher|), CbcMac(aes, c.mac, Stream(aes, c.iv, cipher)))
  {
    if cipher != [] {
      var n := |cipher| - 1;
      OpenIs(aes, c, cipher[..n]);
      assert Stream(aes, c.iv, cipher)[..n] == Stream(aes, c.iv, cipher[..n]);
    }
  }

  /** Opening what was sealed recovers the plaintext, and the MAC chain is the same. */
  lemma OpenUndoesSeal(aes: Cipher, c: Chain, plain: seq<Block>)
    ensures Stream(aes, c.iv, Stream(aes, c.iv, plain)) == plain
    ensures Open(aes, c, Stream(aes, c.iv, plain)) == Seal(aes, c, plain)
  {
    StreamUndone(aes, c.iv, plain);
    OpenIs(aes, c, Stream(aes, c.iv, plain));
    SealIs(aes, c, plain);
  }

  // ---- RFC 3610 with a 3-byte length field ---------------------------------------------------

  type Nonce = b: seq<Byte> | |b| == 12 witness seq(12, _ => 0)

  /** A value in three bytes, big-endian, truncated. */
  function Be24(n: nat): (r: seq<Byte>)
    ensures |r| == 3
  {
    [n / 0x1_0000 % 0x100, n / 0x100 % 0x100, n % 0x100]
  }

  /** Counter block A_i of section 2.3. */
  function CounterBlock(nonce: Nonce, i: nat): Block { [2] + nonce + Be24(i) }

  /** Block B_0 of section 2.2. */
  function FirstBlock(flags: Byte, nonce: Nonce, len: nat): Block { [flags] + nonce + Be24(len) }

  /** L of section 2: what the nonce leaves of fifteen bytes. */
  function LengthField(nonce: Nonce): nat { 15 - |nonce| }

  /** The value of the last three bytes. */
  function Low24(b: Block): nat { Joined24(b[13], b[14], b[15]) }

  function Joined24(x: nat, y: nat, z: nat): nat { x * 0x1_0000 + y * 0x100 + z }

  /** Block B_0 of section 2.2, field by field. In the flags bit 6 says whether there is additional data, bits 3 to 5
      are the field `m` for the length of the MAC and bits 0 to 2 are L - 1; then come nonce and length. */
  ghost predicate IsFirst(b: Block, headers: bool, m: nat, nonce: Nonce, len: nat) {
    && b[0] / 0x80 == 0 && (b[0] / 0x40 % 2 == 1 <==> headers) && b[0] / 8 % 8 == m
    && b[0] % 8 == LengthField(nonce) - 1 && b[1..13] == nonce && Low24(b) == len
  }

  /** Counter block A_i of section 2.3, likewise: of the flags only L - 1 is not zero. */
  ghost predicate IsCounter(b: Block, nonce: Nonce, i: nat) {
    b[0] == LengthField(nonce) - 1 && b[1..13] == nonce && Low24(b) == i
  }

  lemma Be24Value(n: nat)
    requires n < 0x100_0000
    ensures Joined24(Be24(n)[0], Be24(n)[1], Be24(n)[2]) == n
  {
    assert n / 0x1_0000 == n / 0x100 / 0x100;
  }

  lemma CounterIs(nonce: Nonce, i: nat)
    requires i < 0x100_0000
    ensures IsCounter(CounterBlock(nonce, i), nonce, i)
  {
    hide Be24;
    Be24Value(i);
  }

  lemma FirstIs(flags: Byte, headers: bool, m: nat, nonce: Nonce, len: nat)
    requires flags == 2 + 8 * m + (if headers then 0x40 else 0) && m < 8 && len < 0x100_0000
    ensures IsFirst(FirstBlock(flags, nonce, len), headers, m, nonce, len)
  {
    hide Be24;
    Be24Value(len);
    FlagFields(flags, if headers then 1 else 0, m);
  }

  lemma FlagFields(flags: Byte, h: nat, m: nat)
    requires flags == 2 + 8 * m + 0x40 * h && m < 8 && h < 2
    ensures flags / 0x80 == 0 && flags / 0x40 == h && flags / 8 % 8 == m && flags % 8 == 2
  {
    assert flags / 8 == m + 8 * h;
  }

  /** The counter block with its last three bytes cleared. */
  function ZeroCounter(iv: Block): Block { iv[13 := 0][14 := 0][15 := 0] }

  lemma ZeroCounterIs(nonce: Nonce, i: nat)
    ensures ZeroCounter(CounterBlock(nonce, i)) == CounterBlock(nonce, 0)
  {
    assert Be24(0) == [0, 0, 0];
  }

  lemma IncLast(head: seq<Byte>, z: Byte)
    ensures Inc(head + [z]) == if z < 255 then head + [z + 1] else Inc(head) + [0]
  {
    assert (head + [z])[..|head|] == head;
  }

  lemma IncTail(head: seq<Byte>, x: Byte, y: Byte, z: Byte)
    requires !(x == 255 && y == 255 && z == 255)
    ensures Inc(head + [x, y, z]) == head + if z < 255 then [x, y, z + 1] else if y < 255 then [x, y + 1, 0]
        else [x + 1, 0, 0]
  {
    hide Inc;
    assert head + [x, y, z] == head + [x] + [y] + [z];
    IncLast(head + [x] + [y], z);
    IncLast(head + [x], y);
    IncLast(head, x);
  }

  lemma Be24Step(i: nat)
    requires i + 1 < 0x100_0000
    ensures var b := Be24(i);
            Be24(i + 1) == if b[2] < 255 then [b[0], b[1], b[2] + 1] else if b[1] < 255 then [b[0], b[1] + 1, 0]
                else [b[0] + 1, 0, 0]
    ensures !(Be24(i)[0] == 255 && Be24(i)[1] == 255 && Be24(i)[2] == 255)
  {
    var z, q := i % 0x100, i / 0x100;
    var y, x := q % 0x100, q / 0x100;
    assert i / 0x1_0000 == x;
    assert (i + 1) / 0x1_0000 == (i + 1) / 0x100 / 0x100;
    if z < 255 {
      assert (i + 1) / 0x100 == q;
    } else {
      assert (i + 1) / 0x100 == q + 1;
      assert y < 255 ==> (q + 1) / 0x100 == x && (q + 1) % 0x100 == y + 1;
      assert y == 255 ==> (q + 1) / 0x100 == x + 1 && (q + 1) % 0x100 == 0;
    }
  }

  lemma CounterStep(nonce: Nonce, i: nat)
    requires i + 1 < 0x100_0000
    ensures Inc(CounterBlock(nonce, i)) == CounterBlock(nonce, i + 1)
  {
    hide Be24, Inc;
    Be24Step(i);
    var b := Be24(i);
    IncTail([2] + nonce, b[0], b[1], b[2]);
    assert b == [b[0], b[1], b[2]];
  }

  lemma {:induction false} CounterSteps(nonce: Nonce, i: nat, n: nat)
    requires i + n < 0x100_0000
    ensures IncBy(CounterBlock(nonce, i), n) == CounterBlock(nonce, i + n)
  {
    if n > 0 {
      CounterSteps(nonce, i, n - 1);
      CounterStep(nonce, i + n - 1);
    }
  }

  /** Section 2.3: C_i = P_i xor E(A_i), counting from 1. */
  predicate Encrypts(aes: Cipher, nonce: Nonce, plain: seq<Block>, cipher: seq<Block>) {
    |cipher| == |plain| && forall i | 0 <= i < |plain| ::
        cipher[i] == XorBlock(plain[i], aes(CounterBlock(nonce, i + 1)))
  }

  /** Section 2.3: the MAC is sent xored with E(A_0). */
  function MacField(aes: Cipher, nonce: Nonce, first: Block, extra: seq<Block>, plain: seq<Block>): Block {
    XorBlock(CbcMac(aes, aes(first), extra + plain), aes(CounterBlock(nonce, 0)))
  }

  lemma StreamEncrypts(aes: Cipher, nonce: Nonce, plain: seq<Block>)
    requires |plain| + 1 < 0x100_0000
    ensures Encrypts(aes, nonce, plain, Stream(aes, CounterBlock(nonce, 1), plain))
  {
    forall i | 0 <= i < |plain|
      ensures Stream(aes, CounterBlock(nonce, 1), plain)[i] == XorBlock(plain[i], aes(CounterBlock(nonce, i + 1)))
    {
      StreamAt(aes, CounterBlock(nonce, 1), plain, i);
      CounterSteps(nonce, 1, i);
    }
  }
}
