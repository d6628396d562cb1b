/**
 One transfer of the DSi's AES engine as a function of the words fed to it: which blocks they make, what
 the counter and the MAC are after any number of them, and which words come out.
 */
module CcmTransfer {
  import opened Bytes
  import opened Ccm

  /** A 32-bit word is its four bytes, lowest first. */
  type Word = w: seq<Byte> | |w| == 4 witness seq(4, _ => 0)

  datatype Mode = CcmDecrypt | CcmEncrypt | CtrMode

  datatype Transfer = Transfer(aes: Cipher, mode: Mode, extra: nat, blocks: nat, start: Chain)

  // ---- Words and blocks ----------------------------------------------------------------------

  function Joined(w: seq<Word>): Block
    requires |w| == 4
  {
    var a: seq<Byte>, b: seq<Byte>, c: seq<Byte>, d: seq<Byte> := w[0], w[1], w[2], w[3];
    a + b + c + d
  }

  function BlockOf(w: seq<Word>): Block
    requires |w| == 4
  {
    Reverse(Joined(w))
  }

  function WordsOf(b: Block): (w: seq<Word>)
    ensures |w| == 4
  {
    var r := Reverse(b);
    [r[..4], r[4..8], r[8..12], r[12..]]
  }

  /** The first byte of a block, the highest, is the last of its words' bytes; and so back to the first. */
  lemma ByteOrder(w: seq<Word>, b: Block, j: nat)
    requires |w| == 4 && j < 16
    ensures BlockOf(w)[15 - j] == w[j / 4][j % 4]
    ensures WordsOf(b)[j / 4][j % 4] == b[15 - j]
  {
  }

  lemma BlockOfWordsOf(b: Block)
    ensures BlockOf(WordsOf(b)) == b
  {
    assert Joined(WordsOf(b)) == Reverse(b);
    ReverseUndone(b);
  }

  lemma WordsOfBlockOf(w: seq<Word>)
    requires |w| == 4
    ensures WordsOf(BlockOf(w)) == w
  {
    ReverseUndone(Joined(w));
    assert forall k | 0 <= k < 4 :: WordsOf(BlockOf(w))[k] == w[k];
  }

  /** The blocks that words `4 * from` up to `4 * to` make. */
  function Blocks(words: seq<Word>, from: nat, to: nat): (b: seq<Block>)
    requires from <= to && 4 * to <= |words|
    ensures |b| == to - from
  {
    seq<Block>(to - from, i requires 0 <= i < to - from => BlockOf(words[4 * (from + i)..4 * (from + i) + 4]))
  }

  function Words(blocks: seq<Block>): (w: seq<Word>)
    ensures |w| == 4 * |blocks|
  {
    if blocks == [] then [] else Words(blocks[..|blocks| - 1]) + WordsOf(blocks[|blocks| - 1])
  }

  lemma {:induction false} WordsAt(blocks: seq<Block>, i: nat)
    requires i < |blocks|
    ensures Words(blocks)[4 * i..4 * i + 4] == WordsOf(blocks[i])
  {
    var n := |blocks| - 1;
    if i < n {
      WordsAt(blocks[..n], i);
      assert Words(blocks)[4 * i..4 * i + 4] == Words(blocks[..n])[4 * i..4 * i + 4];
    }
  }

  lemma {:induction false} WordsOfBlocks(words: seq<Word>, from: nat, to: nat)
    requires from <= to && 4 * to <= |words|
    ensures Words(Blocks(words, from, to)) == words[4 * from..4 * to]
  {
    if from < to {
      WordsOfBlocks(words, from, to - 1);
      assert Blocks(words, from, to)[..to - 1 - from] == Blocks(words, from, to - 1);
      WordsOfBlockOf(words[4 * (to - 1)..4 * (to - 1) + 4]);
    }
  }

  lemma Subslice<T>(s: seq<T>, a: nat, b: nat, i: nat, j: nat)
    requires a <= b <= |s| && i <= j <= b - a
    ensures s[a..b][i..j] == s[a + i..a + j]
  {
    var u, v, w := s[a..b], s[a..b][i..j], s[a + i..a + j];
    assert |v| == |w|;
    forall k | 0 <= k < |v|
      ensures v[k] == w[k]
    {
      assert v[k] == u[i + k] == s[a + (i + k)] == w[k];
    }
  }

  lemma WordsFound(words: seq<Word>, from: nat, blocks: seq<Block>, i: nat)
    requires 4 * (from + |blocks|) <= |words| && words[4 * from..4 * (from + |blocks|)] == Words(blocks) && i < |blocks|
    ensures words[4 * (from + i)..4 * (from + i) + 4] == WordsOf(blocks[i])
  {
    hide *;
    WordsAt(blocks, i);
    Subslice(words, 4 * from, 4 * (from + |blocks|), 4 * i, 4 * i + 4);
    assert 4 * from + 4 * i == 4 * (from + i);
  }

  lemma BlockOfWords(words: seq<Word>, from: nat, blocks: seq<Block>, i: nat)
    requires 4 * (from + |blocks|) <= |words| && words[4 * from..4 * (from + |blocks|)] == Words(blocks) && i < |blocks|
    ensures BlockOf(words[4 * (from + i)..4 * (from + i) + 4]) == blocks[i]
  {
    hide *;
    WordsFound(words, from, blocks, i);
    BlockOfWordsOf(blocks[i]);
  }

  lemma BlocksOfWords(words: seq<Word>, from: nat, blocks: seq<Block>)
    requires 4 * (from + |blocks|) <= |words| && words[4 * from..4 * (from + |blocks|)] == Words(blocks)
    ensures Blocks(words, from, from + |blocks|) == blocks
  {
    hide WordsOf, BlockOf, Words;
    forall i | 0 <= i < |blocks|
      ensures Blocks(words, from, from + |blocks|)[i] == blocks[i]
    {
      BlockOfWords(words, from, blocks, i);
    }
  }

  // ---- The state after `n` blocks ------------------------------------------------------------

  function Extra(t: Transfer, fed: seq<Word>, n: nat): seq<Block>
    requires 4 * n <= |fed|
  {
    Blocks(fed, 0, if n < t.extra then n else t.extra)
  }

  function Payload(t: Transfer, fed: seq<Word>, n: nat): seq<Block>
    requires 4 * n <= |fed|
  {
    if n <= t.extra then [] else Blocks(fed, t.extra, n)
  }

  /** The payload after the cipher. */
  function Output(t: Transfer, fed: seq<Word>, n: nat): seq<Block>
    requires 4 * n <= |fed|
  {
    Stream(t.aes, t.start.iv, Payload(t, fed, n))
  }

  function Plain(t: Transfer, fed: seq<Word>, n: nat): seq<Block>
    requires 4 * n <= |fed|
  {
    if t.mode.CcmDecrypt? then Output(t, fed, n) else Payload(t, fed, n)
  }

  function IvAfter(t: Transfer, fed: seq<Word>, n: nat): Block
    requires 4 * n <= |fed|
  {
    IncBy(t.start.iv, |Payload(t, fed, n)|)
  }

  function MacAfter(t: Transfer, fed: seq<Word>, n: nat): Block
    requires 4 * n <= |fed|
  {
    CbcMac(t.aes, t.start.mac, Extra(t, fed, n) + Plain(t, fed, n))
  }

  lemma FirstState(t: Transfer, fed: seq<Word>)
    ensures IvAfter(t, fed, 0) == t.start.iv && MacAfter(t, fed, 0) == t.start.mac && Words(Output(t, fed, 0)) == []
  {
  }

  /** Words fed later change nothing. */
  lemma FedMore(t: Transfer, fed: seq<Word>, n: nat, w: Word)
    requires 4 * n <= |fed|
    ensures Output(t, fed + [w], n) == Output(t, fed, n)
    ensures IvAfter(t, fed + [w], n) == IvAfter(t, fed, n) && MacAfter(t, fed + [w], n) == MacAfter(t, fed, n)
  {
    hide BlockOf, Stream, CbcMac;
    assert forall k | 0 <= k < n :: (fed + [w])[4 * k..4 * k + 4] == fed[4 * k..4 * k + 4];
    assert Extra(t, fed + [w], n) == Extra(t, fed, n) && Payload(t, fed + [w], n) == Payload(t, fed, n);
  }

  lemma ExtraAdvances(t: Transfer, fed: seq<Word>, n: nat)
    requires n < t.extra && 4 * (n + 1) <= |fed|
    ensures IvAfter(t, fed, n + 1) == IvAfter(t, fed, n) && Output(t, fed, n + 1) == Output(t, fed, n)
    ensures MacAfter(t, fed, n + 1) == Absorb(t.aes, MacAfter(t, fed, n), BlockOf(fed[4 * n..4 * n + 4]))
  {
    var x := Extra(t, fed, n + 1);
    assert x[..n] == Extra(t, fed, n);
    assert Extra(t, fed, n) + [] == Extra(t, fed, n) && x + [] == x;
  }

  lemma PayloadAdvances(t: Transfer, fed: seq<Word>, n: nat)
    requires t.extra <= n && 4 * (n + 1) <= |fed|
    ensures var b := BlockOf(fed[4 * n..4 * n + 4]);
            var out := Ctr(t.aes, IvAfter(t, fed, n), b);
            && IvAfter(t, fed, n + 1) == Next(IvAfter(t, fed, n))
            && Words(Output(t, fed, n + 1)) == Words(Output(t, fed, n)) + WordsOf(out)
            && MacAfter(t, fed, n + 1) == Absorb(t.aes, MacAfter(t, fed, n), if t.mode.CcmDecrypt? then out else b)
  {
    hide WordsOf, BlockOf, Inc, XorBlock;
    var b, k := BlockOf(fed[4 * n..4 * n + 4]), n - t.extra;
    var p, q := Payload(t, fed, n), Payload(t, fed, n + 1);
    assert q[..k] == p && q[k] == b;
    var o, r := Output(t, fed, n), Output(t, fed, n + 1);
    var out := Ctr(t.aes, IvAfter(t, fed, n), b);
    assert r == o + [out] && r[..k] == o;
    var x := Extra(t, fed, n);
    assert Extra(t, fed, n + 1) == x;
    assert (x + Plain(t, fed, n + 1))[..|x| + k] == x + Plain(t, fed, n);
  }
}
