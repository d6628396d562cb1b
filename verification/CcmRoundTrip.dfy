/**
 What a whole CCM transfer does, whatever the order of the writes and reads: the invariant of the engine
 read at its end, in the terms of RFC 3610, and the round trip of two engines.
 */
module CcmRoundTrip {
  import opened Bytes
  import opened Ccm
  import opened CcmTransfer
  import opened CcmEngine

  /** The counter and MAC a CCM transfer begins with: A_1, and B_0 encrypted. */
  ghost predicate BeganCcm(t: Transfer, nonce: Nonce, macLen: nat, first: Block) {
    && t.start.iv == CounterBlock(nonce, 1) && IsCounter(t.start.iv, nonce, 1) && t.blocks < 0x1_0000
    && StartsMac(t.aes, t.start.mac, first, t.extra, macLen, nonce, t.blocks)
  }

  /** So it does after a rising start bit, with the nonce in the IV register and the length field of the control
      register. */
  lemma BeganAsWritten(e: Engine, val: Control) returns (first: Block)
    requires val.macLen < 8 && e.Begins(val) && val.mode < 2 && e.Cnt.start
    ensures BeganCcm(e.T, NonceOf(e.IV), val.macLen, first)
  {
    hide NonceOf, StartsMac, IsCounter, CounterBlock;
    first :| StartsMac(e.T.aes, e.T.start.mac, first, e.T.extra, val.macLen, NonceOf(e.IV), e.T.blocks);
  }

  function Headers(t: Transfer, fed: seq<Word>): seq<Block>
    requires 4 * (t.extra + t.blocks) <= |fed|
  {
    Blocks(fed, 0, t.extra)
  }

  function Body(t: Transfer, fed: seq<Word>): seq<Block>
    requires 4 * (t.extra + t.blocks) <= |fed|
  {
    Blocks(fed, t.extra, t.extra + t.blocks)
  }

  lemma StreamEncryptsBack(aes: Cipher, nonce: Nonce, cipher: seq<Block>)
    requires |cipher| + 1 < 0x100_0000
    ensures Encrypts(aes, nonce, Stream(aes, CounterBlock(nonce, 1), cipher), cipher)
  {
    var plain := Stream(aes, CounterBlock(nonce, 1), cipher);
    StreamUndone(aes, CounterBlock(nonce, 1), cipher);
    StreamEncrypts(aes, nonce, plain);
  }

  lemma WholeTransfer(t: Transfer, fed: seq<Word>)
    requires 4 * (t.extra + t.blocks) <= |fed|
    ensures var n := t.extra + t.blocks;
            && Extra(t, fed, n) == Headers(t, fed) && Payload(t, fed, n) == Body(t, fed)
            && |Output(t, fed, n)| == t.blocks
  {
    hide BlockOf, Stream;
    var n := t.extra + t.blocks;
    assert Payload(t, fed, n) == Body(t, fed);
  }

  /** The MAC that is sent is the one of sections 2.2 and 2.3. */
  lemma FinalMacIs(t: Transfer, fed: seq<Word>, nonce: Nonce, macLen: nat, first: Block)
    requires 4 * (t.extra + t.blocks) <= |fed| && BeganCcm(t, nonce, macLen, first)
    ensures FinalMac(t, fed) == MacField(t.aes, nonce, first, Headers(t, fed), Plain(t, fed, t.extra + t.blocks))
  {
    hide Be24, Blocks, CounterBlock, Stream, CbcMac, XorBlock, ZeroCounter, BlockOf, IsFirst, IsCounter;
    var n := t.extra + t.blocks;
    WholeTransfer(t, fed);
    CounterSteps(nonce, 1, t.blocks);
    ZeroCounterIs(nonce, 1 + t.blocks);
  }

  /** Encryption. At the end of a transfer everything that has come out is, in order, what was in the
      queue before, each block of the body encrypted once, and the MAC, unless that is still due. */
  lemma EncryptedOnce(e: Engine, nonce: Nonce, macLen: nat, first: Block)
    requires e.Sound() && !e.Cnt.start && e.T.mode.CcmEncrypt? && e.T.extra + e.T.blocks > 0
        && BeganCcm(e.T, nonce, macLen, first)
    ensures 4 * (e.T.extra + e.T.blocks) <= |e.Fed|
    ensures var cipher := Output(e.T, e.Fed, e.T.extra + e.T.blocks);
            && Encrypts(e.T.aes, nonce, Body(e.T, e.Fed), cipher)
            && e.Drained + e.Out() == e.Before + Words(cipher) +
                 if e.OutputMACDue then [] else WordsOf(MacField(e.T.aes, nonce, first, Headers(e.T, e.Fed),
                     Body(e.T, e.Fed)))
  {
    hide Stream, CbcMac, XorBlock, Words, WordsOf, CounterBlock, Blocks, MacField, FinalMac, Encrypts, IsFirst,
        IsCounter;
    WholeTransfer(e.T, e.Fed);
    FinalMacIs(e.T, e.Fed, nonce, macLen, first);
    StreamEncrypts(e.T.aes, nonce, Body(e.T, e.Fed));
  }

  /** Decryption. Everything that has come out is the body decrypted, and bit 21 says whether the MAC
      register held the MAC of what came out. */
  lemma DecryptedAndJudged(d: Engine, nonce: Nonce, macLen: nat, first: Block)
    requires d.Sound() && !d.Cnt.start && d.T.mode.CcmDecrypt? && BeganCcm(d.T, nonce, macLen, first)
    ensures 4 * (d.T.extra + d.T.blocks) <= |d.Fed|
    ensures var plain := Output(d.T, d.Fed, d.T.extra + d.T.blocks);
            && Encrypts(d.T.aes, nonce, plain, Body(d.T, d.Fed))
            && d.Drained + d.Out() == d.Before + Words(plain)
            && (d.Judged ==> (d.Cnt.macOk <==>
                d.Compared
                == Reverse(MacField(d.T.aes, nonce, first, Headers(d.T, d.Fed), plain))))
  {
    hide Stream, CbcMac, XorBlock, Words, WordsOf, CounterBlock, Blocks, MacField, FinalMac, Encrypts, IsFirst,
        IsCounter;
    WholeTransfer(d.T, d.Fed);
    FinalMacIs(d.T, d.Fed, nonce, macLen, first);
    StreamEncryptsBack(d.T.aes, nonce, Body(d.T, d.Fed));
  }

  /** The round trip. Feed a decryption the headers and the words an encryption put out, with the same key,
      nonce and flags: the words of the plaintext come out, and bit 21 is set if and only if the MAC
      register holds the MAC that was put out. */
  lemma RoundTrip(e: Engine, d: Engine, nonce: Nonce, macLen: nat, first: Block)
    requires e.Sound() && !e.Cnt.start && e.T.mode.CcmEncrypt? && e.T.extra + e.T.blocks > 0
        && BeganCcm(e.T, nonce, macLen, first)
    requires d.Sound() && !d.Cnt.start && d.T == e.T.(mode := CcmDecrypt) && d.Judged
    requires 4 * (e.T.extra + e.T.blocks) <= |e.Fed| && 4 * (d.T.extra + d.T.blocks) <= |d.Fed|
    requires d.Fed[..4 * d.T.extra] == e.Fed[..4 * e.T.extra]
    requires d.Fed[4 * d.T.extra..4 * (d.T.extra + d.T.blocks)] == Words(Output(e.T, e.Fed, e.T.extra + e.T.blocks))
    ensures d.Drained + d.Out() == d.Before + e.Fed[4 * e.T.extra..4 * (e.T.extra + e.T.blocks)]
    ensures d.Cnt.macOk <==> d.Compared == e.OutputMAC
  {
    hide Stream, CbcMac, XorBlock, Words, WordsOf, CounterBlock, MacField, FinalMac, BlockOf, IsFirst, IsCounter;
    var x, n := e.T.extra, e.T.extra + e.T.blocks;
    WholeTransfer(e.T, e.Fed);
    WholeTransfer(d.T, d.Fed);
    var body, cipher := Body(e.T, e.Fed), Output(e.T, e.Fed, n);
    BlocksOfWords(d.Fed, x, cipher);
    StreamUndone(e.T.aes, e.T.start.iv, body);
    WordsOfBlocks(e.Fed, x, n);
    SameHeaders(e.Fed, d.Fed, x);
    FinalMacIs(e.T, e.Fed, nonce, macLen, first);
    FinalMacIs(d.T, d.Fed, nonce, macLen, first);
  }

  lemma SameHeaders(a: seq<Word>, b: seq<Word>, n: nat)
    requires 4 * n <= |a| && 4 * n <= |b| && a[..4 * n] == b[..4 * n]
    ensures Blocks(a, 0, n) == Blocks(b, 0, n)
  {
    hide BlockOf;
    forall i | 0 <= i < n
      ensures a[4 * i..4 * i + 4] == b[4 * i..4 * i + 4]
    {
      assert a[..4 * n][4 * i..4 * i + 4] == a[4 * i..4 * i + 4];
      assert b[..4 * n][4 * i..4 * i + 4] == b[4 * i..4 * i + 4];
    }
  }

  /** No transfer gets stuck: once all its words are fed, it goes on unless output is waiting to be read. */
  lemma NeverStuck(e: Engine)
    requires e.Sound() && e.Eager() && 4 * (e.T.extra + e.T.blocks) <= |e.Fed|
    ensures e.Cnt.start ==> |e.Out()| > 12
  {
    if e.Cnt.start {
      assert |e.In()| == |e.Fed| - 4 * e.Done();
    }
  }

  /** What the program on the CPU does: write a word to the input queue, or read one from the output queue. */
  datatype Access = Write(word: Word) | Read

  function Written(accesses: seq<Access>): seq<Word> {
    if accesses == [] then []
    else Written(accesses[..|accesses| - 1]) + if accesses[|accesses| - 1].Write? then [accesses[|accesses| - 1].word]
        else []
  }

  /** What has been fed and drained after these accesses. */
  ghost predicate Follows(fed0: seq<Word>, fed: seq<Word>, drained0: seq<Word>, drained: seq<Word>,
      accesses: seq<Access>) {
    && fed0 <= fed && |fed| <= |fed0| + |Written(accesses)|
    && (|fed| == |fed0| + |Written(accesses)| ==> fed == fed0 + Written(accesses))
    && drained0 <= drained && |drained| <= |drained0| + |accesses| - |Written(accesses)|
  }

  lemma FollowsNothing(fed: seq<Word>, drained: seq<Word>)
    ensures Follows(fed, fed, drained, drained, [])
  {
  }

  lemma FollowsMore(fed0: seq<Word>, fed: seq<Word>, drained0: seq<Word>, drained: seq<Word>, accesses: seq<Access>,
      a: Access, fed': seq<Word>, drained': seq<Word>)
    requires Follows(fed0, fed, drained0, drained, accesses)
    requires fed' == fed || (a.Write? && fed' == fed + [a.word])
    requires drained' == drained || (a.Read? && drained <= drained' && |drained'| == |drained| + 1)
    ensures Follows(fed0, fed', drained0, drained', accesses + [a])
  {
    assert (accesses + [a])[..|accesses|] == accesses;
  }

  lemma SoundIsValid(e: Engine)
    requires e.Sound()
    ensures e.Valid()
  {
    hide Engine.Valid;
  }

  method Serve(e: Engine, a: Access)
    requires e.Sound() && e.Valid() && (e.Cnt.start || e.Eager())
    requires !e.Cnt.start && e.T.mode.CcmDecrypt? ==> e.Judged && e.Compared == e.MAC
    modifies e, e.InputFIFO, e.InputFIFO.Entries, e.OutputFIFO, e.OutputFIFO.Entries
    ensures e.Sound() && e.Valid() && e.T == old(e.T) && e.Before == old(e.Before) && e.MAC == old(e.MAC)
    ensures e.Eager()
    ensures !e.Cnt.start && e.T.mode.CcmDecrypt? ==> e.Judged && e.Compared == e.MAC
    ensures e.Fed == old(e.Fed) || (a.Write? && e.Fed == old(e.Fed) + [a.word])
    ensures e.Drained == old(e.Drained)
        || (a.Read? && old(e.Drained) <= e.Drained && |e.Drained| == |old(e.Drained)| + 1)
  {
    hide Words, WordsOf, Output, IvAfter, MacAfter, FinalMac, CipherOf, ModeOf, Reverse, Engine.Valid,
        Engine.Underway, Engine.Ended, Fifo.Fifo.Contents;
    match a {
      case Write(word) => e.WriteInputFIFO(word);
      case Read => var _ := e.ReadOutputFIFO();
    }
    SoundIsValid(e);
  }

  /** Any interleaving. Whatever it is, the engine stays sound, a decryption that has ended was judged by the
      MAC register, and as long as no write met a full queue every word written has been taken in, in order. */
  method Interleave(e: Engine, accesses: seq<Access>)
    requires e.Sound() && e.Cnt.start
    modifies e, e.InputFIFO, e.InputFIFO.Entries, e.OutputFIFO, e.OutputFIFO.Entries
    ensures e.Sound() && e.T == old(e.T) && e.Before == old(e.Before) && e.MAC == old(e.MAC)
    ensures accesses != [] ==> e.Eager()
    ensures !e.Cnt.start && e.T.mode.CcmDecrypt? ==> e.Judged && e.Compared == e.MAC
    ensures old(e.Fed) <= e.Fed && |e.Fed| <= |old(e.Fed)| + |Written(accesses)|
    ensures |e.Fed| == |old(e.Fed)| + |Written(accesses)| ==> e.Fed == old(e.Fed) + Written(accesses)
    ensures old(e.Drained) <= e.Drained && |e.Drained| <= |old(e.Drained)| + |accesses| - |Written(accesses)|
  {
    hide Written, Engine.Sound, Engine.Eager, Engine.Valid;
    ghost var fed0, drained0 := e.Fed, e.Drained;
    SoundIsValid(e);
    FollowsNothing(fed0, drained0);
    for i := 0 to |accesses|
      invariant e.Sound() && e.Valid() && e.T == old(e.T) && e.Before == old(e.Before) && e.MAC == old(e.MAC)
      invariant i > 0 ==> e.Eager()
      invariant i == 0 ==> e.Cnt.start
      invariant !e.Cnt.start && e.T.mode.CcmDecrypt? ==> e.Judged && e.Compared == e.MAC
      invariant Follows(fed0, e.Fed, drained0, e.Drained, accesses[..i])
    {
      ghost var fed, drained := e.Fed, e.Drained;
      Serve(e, accesses[i]);
      FollowsMore(fed0, fed, drained0, drained, accesses[..i], accesses[i], e.Fed, e.Drained);
      assert accesses[..i + 1] == accesses[..i] + [accesses[i]];
    }
    assert accesses[..|accesses|] == accesses;
  }
}
