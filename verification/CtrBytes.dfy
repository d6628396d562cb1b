/** Buffers of bytes: writing into them, and counter mode over them, each block stored in reverse. */
module CtrBytes {
  import opened Bytes
  import opened Ccm

  /** One block of a buffer. */
  function CryptChunk(aes: Cipher, iv: Block, chunk: Block): Block {
    Reverse(Ctr(aes, iv, Reverse(chunk)))
  }

  /** Whole blocks; a remainder would be left as it is. */
  function Crypt(aes: Cipher, iv: Block, data: seq<Byte>): (r: seq<Byte>)
    ensures |r| == |data|
    decreases |data|
  {
    if |data| < 16 then data else CryptChunk(aes, iv, data[..16]) + Crypt(aes, Next(iv), data[16..])
  }

  lemma CryptChunkUndone(aes: Cipher, iv: Block, chunk: Block)
    ensures CryptChunk(aes, iv, CryptChunk(aes, iv, chunk)) == chunk
  {
    ReverseUndone(Ctr(aes, iv, Reverse(chunk)));
    XorBlockUndone(Reverse(chunk), aes(iv));
    ReverseUndone(chunk);
  }

  lemma {:induction false} IncByAdd(b: seq<Byte>, m: nat, n: nat)
    ensures IncBy(IncBy(b, m), n) == IncBy(b, m + n)
  {
    if n > 0 {
      IncByAdd(b, m, n - 1);
    }
  }

  lemma {:induction false} CryptUndone(aes: Cipher, iv: Block, data: seq<Byte>)
    ensures Crypt(aes, iv, Crypt(aes, iv, data)) == data
    decreases |data|
  {
    if |data| >= 16 {
      hide CryptChunk;
      CryptUndone(aes, Next(iv), data[16..]);
      CryptChunkUndone(aes, iv, data[..16]);
      var c := Crypt(aes, iv, data);
      assert c[..16] == CryptChunk(aes, iv, data[..16]) && c[16..] == Crypt(aes, Next(iv), data[16..]);
    }
  }

  lemma IncByOne(iv: Block)
    ensures IncBy(iv, 1) == Next(iv) && IncBy(iv, 0) == iv
  {
  }

  lemma {:induction false} CryptFrom(aes: Cipher, iv: Block, data: seq<Byte>, j: nat)
    requires 16 * j <= |data|
    ensures Crypt(aes, iv, data)[16 * j..] == Crypt(aes, IncBy(iv, j), data[16 * j..])
    decreases j
  {
    hide CryptChunk, Inc;
    if j == 0 {
      assert data[0..] == data;
    } else {
      var c := Crypt(aes, iv, data);
      assert c[16..] == Crypt(aes, Next(iv), data[16..]);
      CryptFrom(aes, Next(iv), data[16..], j - 1);
      IncByOne(iv);
      IncByAdd(iv, 1, j - 1);
      assert data[16..][16 * (j - 1)..] == data[16 * j..] && c[16..][16 * (j - 1)..] == c[16 * j..];
    }
  }

  lemma {:induction false} CryptUpTo(aes: Cipher, iv: Block, data: seq<Byte>, m: nat)
    requires 16 * m <= |data|
    ensures Crypt(aes, iv, data)[..16 * m] == Crypt(aes, iv, data[..16 * m])
    decreases m
  {
    hide CryptChunk, Inc;
    if m > 0 {
      var c, d := Crypt(aes, iv, data), data[..16 * m];
      assert c[16..] == Crypt(aes, Next(iv), data[16..]) && c[..16] == CryptChunk(aes, iv, data[..16]);
      CryptUpTo(aes, Next(iv), data[16..], m - 1);
      assert d[..16] == data[..16] && d[16..] == data[16..][..16 * (m - 1)];
      assert c[..16 * m] == c[..16] + c[16..][..16 * (m - 1)];
    }
  }

  /** A slice of the encryption is the encryption of the slice, with the counter moved along. */
  lemma CryptSlice(aes: Cipher, iv: Block, data: seq<Byte>, j: nat, m: nat)
    requires 16 * j <= 16 * m <= |data|
    ensures Crypt(aes, iv, data)[16 * j..16 * m] == Crypt(aes, IncBy(iv, j), data[16 * j..16 * m])
  {
    hide Crypt, IncBy;
    CryptUpTo(aes, iv, data, m);
    CryptFrom(aes, iv, data[..16 * m], j);
    assert data[..16 * m][16 * j..] == data[16 * j..16 * m];
    assert Crypt(aes, iv, data)[..16 * m][16 * j..] == Crypt(aes, iv, data)[16 * j..16 * m];
  }

  lemma OneChunk(aes: Cipher, iv: Block, chunk: Block)
    ensures Crypt(aes, iv, chunk) == CryptChunk(aes, iv, chunk)
  {
    hide CryptChunk;
    assert chunk[..16] == chunk && chunk[16..] == [];
    assert CryptChunk(aes, iv, chunk) + [] == CryptChunk(aes, iv, chunk);
  }

  lemma ChunkAt(aes: Cipher, iv: Block, chunk: Block, k: nat)
    requires k < 16
    ensures CryptChunk(aes, iv, chunk)[k] == Xor(chunk[k], aes(iv)[15 - k])
  {
    hide Xor;
  }

  /** Each byte is xored with that of its own counter block, whose bytes are in reverse. */
  lemma InChunk(aes: Cipher, iv: Block, data: seq<Byte>, i: nat, k: nat)
    requires 16 * i + 16 <= |data| && k < 16
    ensures Crypt(aes, iv, data)[16 * i + k] == Xor(data[16 * i + k], aes(IncBy(iv, i))[15 - k])
  {
    hide Crypt, CryptChunk, Xor, IncBy;
    var chunk := data[16 * i..16 * (i + 1)];
    CryptSlice(aes, iv, data, i, i + 1);
    OneChunk(aes, IncBy(iv, i), chunk);
    ChunkAt(aes, IncBy(iv, i), chunk, k);
    assert Crypt(aes, iv, data)[16 * i + k] == Crypt(aes, iv, data)[16 * i..16 * (i + 1)][k];
  }

  lemma CryptMore(aes: Cipher, iv: Block, data: seq<Byte>, k: nat)
    requires 16 * k + 16 <= |data|
    ensures Crypt(aes, iv, data[..16 * k + 16]) == Crypt(aes, iv, data[..16 * k])
        + CryptChunk(aes, IncBy(iv, k), data[16 * k..16 * k + 16])
    ensures IncBy(iv, k + 1) == Next(IncBy(iv, k))
  {
    hide CryptChunk;
    var d := data[..16 * k + 16];
    CryptSlice(aes, iv, d, 0, k);
    CryptSlice(aes, iv, d, k, k + 1);
    IncByOne(iv);
    var last := data[16 * k..16 * k + 16];
    assert d[0..16 * k] == data[..16 * k] && d[16 * k..16 * (k + 1)] == last && last[..16] == last && last[16..] == [];
    var c := Crypt(aes, iv, d);
    assert c == c[0..16 * k] + c[16 * k..16 * (k + 1)];
  }

  lemma CryptNothing(aes: Cipher, iv: Block)
    ensures Crypt(aes, iv, []) == [] && IncBy(iv, 0) == iv
  {
  }

  lemma ChunkIs(aes: Cipher, iv: Block, chunk: Block)
    ensures CryptChunk(aes, iv, chunk) == Reverse(Ctr(aes, iv, Reverse(chunk)))
  {
  }

  lemma Splits(b: seq<Byte>, done: seq<Byte>, rest: seq<Byte>, tail: seq<Byte>, i: nat)
    requires b == done + rest + tail && |done| == i && |rest| >= 16
    ensures b[..i] == done && b[i..i + 16] == rest[..16] && b[i + 16..] == rest[16..] + tail
  {
  }

  /** A buffer whose first `k` blocks are done. */
  ghost function Partly(aes: Cipher, iv: Block, d: seq<Byte>, tail: seq<Byte>, k: nat): seq<Byte>
    requires 16 * k <= |d|
  {
    Crypt(aes, iv, d[..16 * k]) + d[16 * k..] + tail
  }

  lemma PartlyEnds(aes: Cipher, iv: Block, d: seq<Byte>, tail: seq<Byte>, k: nat)
    requires |d| == 16 * k
    ensures Partly(aes, iv, d, tail, 0) == d + tail && Partly(aes, iv, d, tail, k) == Crypt(aes, iv, d) + tail
    ensures d[..16 * k] == d
  {
    assert d[..0] == [] && d[0..] == d && d[..16 * k] == d && d[16 * k..] == [];
  }

  lemma PartlyStep(aes: Cipher, iv: Block, d: seq<Byte>, tail: seq<Byte>, k: nat)
    requires 16 * k + 16 <= |d|
    ensures var b, chunk := Partly(aes, iv, d, tail, k), CryptChunk(aes, IncBy(iv, k), d[16 * k..16 * k + 16]);
            && |b| == |d| + |tail| && b[16 * k..16 * k + 16] == d[16 * k..16 * k + 16]
            && b[..16 * k] + chunk + b[16 * k + 16..] == Partly(aes, iv, d, tail, k + 1)
            && Partly(aes, iv, d, tail, k + 1)[16 * k..16 * k + 16] == chunk
            && Crypt(aes, iv, d[..16 * k + 16]) == Crypt(aes, iv, d[..16 * k]) + chunk
            && IncBy(iv, k + 1) == Next(IncBy(iv, k))
  {
    hide Crypt, CryptChunk, IncBy, Next;
    var b, done, chunk := Partly(aes, iv, d, tail, k), Crypt(aes, iv, d[..16 * k]),
        CryptChunk(aes, IncBy(iv, k), d[16 * k..16 * k + 16]);
    CryptMore(aes, iv, d, k);
    Splits(b, done, d[16 * k..], tail, 16 * k);
    assert d[16 * k..][16..] == d[16 * k + 16..] && d[16 * k..][..16] == d[16 * k..16 * k + 16];
    var r := Partly(aes, iv, d, tail, k + 1);
    assert r == done + chunk + d[16 * k + 16..] + tail;
    assert r == done + chunk + (d[16 * k + 16..] + tail);
    Middle(r, done, chunk, d[16 * k + 16..] + tail);
  }

  lemma Middle(b: seq<Byte>, done: seq<Byte>, chunk: Block, rest: seq<Byte>)
    requires b == done + chunk + rest
    ensures b[|done|..|done| + 16] == chunk
  {
  }

  /** Such a block, where it is. */
  method CryptInPlace(aes: Cipher, buf: array<Byte>, i: nat, iv: Block) returns (next: Block)
    requires i + 16 <= buf.Length
    modifies buf
    ensures var d := old(buf[..]);
        buf[..] == d[..i] + CryptChunk(aes, iv, d[i..i + 16]) + d[i + 16..] && next == Next(iv)
  {
    hide Ctr, Next;
    var tmp := Reverse(buf[i..i + 16]);
    tmp := Ctr(aes, iv, tmp);
    tmp := Reverse(tmp);
    forall k | 0 <= k < 16 {
      buf[i + k] := tmp[k];
    }
    next := Next(iv);
  }

  /** The first `k` blocks of a buffer, where they are. */
  method CryptBuffer(aes: Cipher, buf: array<Byte>, k: nat, iv0: Block)
    requires 16 * k <= buf.Length
    modifies buf
    ensures var d := old(buf[..]);
        buf[..] == Crypt(aes, iv0, d[..16 * k]) + d[16 * k..]
  {
    hide Crypt, CryptChunk, IncBy, Next, Partly;
    ghost var d, tail := buf[..][..16 * k], buf[..][16 * k..];
    var iv := iv0;
    CryptNothing(aes, iv0);
    PartlyEnds(aes, iv0, d, tail, k);
    assert buf[..] == d + tail;
    for i := 0 to k
      invariant buf[..] == Partly(aes, iv0, d, tail, i) && iv == IncBy(iv0, i)
    {
      PartlyStep(aes, iv0, d, tail, i);
      iv := CryptInPlace(aes, buf, 16 * i, iv);
    }
  }

  function Overwritten(was: seq<Byte>, addr: nat, data: seq<Byte>): (r: seq<Byte>)
    requires addr + |data| <= |was|
    ensures |r| == |was|
  {
    was[..addr] + data + was[addr + |data|..]
  }

  lemma NothingWritten(was: seq<Byte>, addr: nat)
    requires addr <= |was|
    ensures Overwritten(was, addr, []) == was
  {
  }

  /** Writing on where the last write stopped. */
  lemma Extends(was: seq<Byte>, done: seq<Byte>, addr: nat, more: seq<Byte>)
    requires addr + |done| + |more| <= |was|
    ensures Overwritten(Overwritten(was, addr, done), addr + |done|, more) == Overwritten(was, addr, done + more)
  {
    var now := Overwritten(was, addr, done);
    assert now[..addr + |done|] == was[..addr] + done;
    assert now[addr + |done| + |more|..] == was[addr + |done| + |more|..];
  }
}
