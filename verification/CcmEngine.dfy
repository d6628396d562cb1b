/**
 The DSi's AES engine: two 16-word queues, a control register, and blocks processed whenever four words
 are in and there is room for four to come out. Ghost fields record what was fed and drained since the
 transfer began; the invariant ties both ends to `CcmTransfer`.
 */
module CcmEngine {
  import opened Arithmetic
  import opened Bytes
  import opened Ccm
  import opened CcmTransfer
  import opened Fifo
  import MachineWords

  /** The fields of the control register that matter here. */
  datatype Control = Control(start: bool, irq: bool, mode: nat, slot: nat, loadKey: bool, macLen: nat, macOk: bool)

  const ZERO: Block := seq(16, _ => 0)

  type Keys = k: seq<Block> | |k| == 4 witness [ZERO, ZERO, ZERO, ZERO]

  function ModeOf(mode: nat): Mode {
    if mode == 0 then CcmDecrypt else if mode == 1 then CcmEncrypt else CtrMode
  }

  function CipherOf(aes: (Block, Block) -> Block, key: Block): Cipher {
    (b: Block) => aes(key, b)
  }

  function NonceOf(iv: Block): Nonce { Reverse(iv)[4..16] }

  function Flags(macLen: nat, extra: bool): Byte
    requires macLen < 8
  {
    2 + 8 * (if macLen < 1 then 1 else macLen) + if extra then 64 else 0
  }

  /** The field of B_0 for the length of the MAC: that of the control register, but at least 1. */
  function MacLength(macLen: nat): nat { if macLen == 0 then 1 else macLen }

  /** A MAC that starts as section 2.2 of RFC 3610 has it. */
  ghost predicate StartsMac(aes: Cipher, mac: Block, first: Block, extra: nat, macLen: nat, nonce: Nonce,
      blocks: nat) {
    IsFirst(first, extra > 0, MacLength(macLen), nonce, 16 * blocks) && mac == aes(first)
  }

  lemma FlagsStart(aes: Cipher, extra: nat, macLen: nat, nonce: Nonce, blocks: nat)
    requires macLen < 8 && blocks < 0x1_0000
    ensures var first := FirstBlock(Flags(macLen, extra > 0), nonce, 16 * blocks);
            StartsMac(aes, aes(first), first, extra, macLen, nonce, blocks)
  {
    FirstIs(Flags(macLen, extra > 0), extra > 0, MacLength(macLen), nonce, 16 * blocks);
  }

  /** The bytes of the nonce in the IV register, highest first. */
  lemma NonceBytes(iv: Block)
    ensures forall k | 0 <= k < 12 :: NonceOf(iv)[k] == iv[11 - k]
  {
  }

  /** The MAC as it leaves: xored with the cipher of counter block 0. */
  function FinalMac(t: Transfer, fed: seq<Word>): Block
    requires 4 * (t.extra + t.blocks) <= |fed|
  {
    Ctr(t.aes, ZeroCounter(IvAfter(t, fed, t.extra + t.blocks)), MacAfter(t, fed, t.extra + t.blocks))
  }

  /** In bytes: the high byte of the length, and so on, are what the source shifts out of the block count. */
  lemma LengthBytes(blocks: nat)
    ensures Be24(16 * blocks) == [blocks / 0x1000 % 0x100, blocks / 0x10 % 0x100, blocks * 0x10 % 0x100]
  {
    assert 16 * blocks == blocks * 0x10;
    Sixteenth(blocks, 0x10, 0x100);
    Sixteenth(blocks, 0x1000, 0x1_0000);
  }

  lemma Sixteenth(n: nat, d: nat, d': nat)
    requires d > 0 && d' == 16 * d
    ensures 16 * n / d' == n / d
  {
    var q, r := n / d, n % d;
    Euclid(n, d);
    assert d' * q == 16 * (d * q);
    Quotient(16 * n, d', q);
  }

  lemma SameReversed(a: Block, b: Block)
    ensures (forall k | 0 <= k < 16 :: a[15 - k] == b[k]) <==> b == Reverse(a)
  {
    var r := Reverse(a);
    assert forall k | 0 <= k < 16 :: r[k] == a[15 - k];
  }

  lemma FirstBlockBytes(nonce: Nonce, flags: Byte, blocks: nat)
    ensures CounterBlock(nonce, 1)[0 := flags][13 := blocks / 0x1000 % 0x100][14 := blocks / 0x10 % 0x100][15 :=
        blocks * 0x10 % 0x100]
            == FirstBlock(flags, nonce, 16 * blocks)
  {
    LengthBytes(blocks);
  }

  lemma Appending(before: seq<Word>, words: seq<Word>, more: seq<Word>, drained: seq<Word>, out: seq<Word>)
    requires before + words + [] == drained + out
    ensures before + (words + more) + [] == drained + (out + more)
    ensures before + words + more == drained + (out + more)
  {
    assert before + (words + more) + [] == before + words + [] + more;
  }

  class Engine {
    const Aes: (Block, Block) -> Block
    const InputFIFO: Fifo<Word>
    const OutputFIFO: Fifo<Word>
    var Cnt: Control
    var BlkCnt: MachineWords.Word
    var RemExtra: nat
    var RemBlocks: nat
    var AESMode: nat
    var IV: Block
    var MAC: Block
    var KeyNormal: Keys
    var CurKey: Block
    var CtxKey: Block
    var CtxIv: Block
    var CurMAC: Block
    var OutputMAC: Block
    var OutputMACDue: bool
    var Interrupts: nat

    ghost var T: Transfer
    ghost var Fed: seq<Word>        // words in the input queue when the transfer began, and since
    ghost var Before: seq<Word>     // words in the output queue when it began
    ghost var Drained: seq<Word>    // words read since
    ghost var Judged: bool          // a decryption has ended and the control register was not written since
    ghost var Compared: Block       // the MAC register when it ended

    /** `Reset`. */
    constructor (aes: (Block, Block) -> Block)
      ensures Sound() && !Cnt.start && In() == Out() == []
    {
      var none: Word := [0, 0, 0, 0];
      Aes := aes;
      InputFIFO := new Fifo<Word>(16, none);
      OutputFIFO := new Fifo<Word>(16, none);
      Cnt, BlkCnt, RemExtra, RemBlocks, AESMode := Control(false, false, 0, 0, false, 0, false), 0, 0, 0, 0;
      IV, MAC, KeyNormal, CurKey, CtxKey := ZERO, ZERO, [ZERO, ZERO, ZERO, ZERO], ZERO, ZERO;
      CtxIv, CurMAC, OutputMAC, OutputMACDue, Interrupts := ZERO, ZERO, ZERO, false, 0;
      T := Transfer(CipherOf(aes, ZERO), CtrMode, 0, 0, Chain(ZERO, ZERO));
      Fed, Before, Drained, Judged, Compared := [], [], [], false, ZERO;
    }

    ghost predicate Valid()
      reads InputFIFO, InputFIFO.Entries, OutputFIFO, OutputFIFO.Entries
    {
      && InputFIFO.Valid() && OutputFIFO.Valid() && InputFIFO != OutputFIFO && InputFIFO.Entries != OutputFIFO.Entries
      && InputFIFO.Entries.Length == OutputFIFO.Entries.Length == 16
    }

    ghost function In(): seq<Word>
      reads InputFIFO, InputFIFO.Entries, OutputFIFO, OutputFIFO.Entries
      requires Valid()
    {
      InputFIFO.Contents()
    }

    ghost function Out(): seq<Word>
      reads InputFIFO, InputFIFO.Entries, OutputFIFO, OutputFIFO.Entries
      requires Valid()
    {
      OutputFIFO.Contents()
    }

    /** Blocks processed so far. */
    ghost function Done(): int
      reads `T, `RemExtra, `RemBlocks
    {
      T.extra - RemExtra + T.blocks - RemBlocks
    }

    ghost predicate Counting()
      reads `T, `Fed, `RemExtra, `RemBlocks, InputFIFO, InputFIFO.Entries, OutputFIFO, OutputFIFO.Entries
    {
      && Valid() && RemExtra <= T.extra && RemBlocks <= T.blocks && (RemExtra > 0 ==> RemBlocks == T.blocks)
      && 4 * Done() <= |Fed| && In() == Fed[4 * Done()..]
    }

    /** What `n` blocks have put out, apart from the MAC. */
    ghost predicate Balanced(tail: seq<Word>)
      reads `T, `Fed, `RemExtra, `RemBlocks, `Before, `Drained, InputFIFO, InputFIFO.Entries, OutputFIFO,
          OutputFIFO.Entries
      requires Counting()
    {
      Before + Words(Output(T, Fed, Done())) + tail == Drained + Out()
    }

    /** What does not depend on the control register. */
    ghost predicate Advanced()
      reads `T, `Fed, `RemExtra, `RemBlocks, `Before, `Drained, `CtxKey, `CtxIv, `CurMAC, `OutputMACDue, InputFIFO,
          InputFIFO.Entries, OutputFIFO, OutputFIFO.Entries
    {
      && Valid() && Counting() && 4 * Done() <= |Fed| && Balanced([]) && T.aes == CipherOf(Aes, CtxKey)
      && T.extra + T.blocks > 0 && CtxIv == IvAfter(T, Fed, Done())
      && (!T.mode.CtrMode? ==> CurMAC == MacAfter(T, Fed, Done()))
      && !OutputMACDue
    }

    /** In the middle of a transfer, or at its end before it is wrapped up. */
    ghost predicate Underway()
      reads this, InputFIFO, InputFIFO.Entries, OutputFIFO, OutputFIFO.Entries
    {
      Advanced() && Cnt.start && T.mode == ModeOf(AESMode) && !Judged
    }

    /** Everything has come out, but for a MAC that is due. */
    ghost predicate Complete()
      reads `T, `Fed, `RemExtra, `RemBlocks, `Before, `Drained, `OutputMAC, `OutputMACDue, InputFIFO,
          InputFIFO.Entries, OutputFIFO, OutputFIFO.Entries
    {
      && Valid() && Counting() && RemExtra == RemBlocks == 0 && 4 * Done() <= |Fed|
      && (OutputMACDue ==> SendsMac() && |Out()| > 12)
      && (SendsMac() ==> OutputMAC == Reverse(FinalMac(T, Fed)))
      && Balanced(if SendsMac() && !OutputMACDue then WordsOf(FinalMac(T, Fed)) else [])
    }

    ghost predicate SendsMac()
      reads `T
    {
      T.mode.CcmEncrypt? && T.extra + T.blocks > 0
    }

    /** The transfer has ended, or none was ever started. */
    ghost predicate Ended()
      reads this, InputFIFO, InputFIFO.Entries, OutputFIFO, OutputFIFO.Entries
    {
      && Complete() && !Cnt.start
      && (Judged ==> T.mode.CcmDecrypt? && (Cnt.macOk <==> Compared == Reverse(FinalMac(T, Fed))))
    }

    /** The invariant: every operation keeps it, and outside an operation no block that could be
        processed is left waiting. */
    ghost predicate Sound()
      reads this, InputFIFO, InputFIFO.Entries, OutputFIFO, OutputFIFO.Entries
    {
      if Cnt.start then Underway() && RemExtra + RemBlocks > 0 else Ended()
    }

    ghost predicate Eager()
      reads `Cnt, `RemExtra, InputFIFO, InputFIFO.Entries, OutputFIFO, OutputFIFO.Entries
      requires Valid()
    {
      Cnt.start ==> |In()| < 4 || (RemExtra == 0 && |Out()| > 12)
    }

    method ReadBlock() returns (b: Block)
      requires Valid() && |In()| >= 4
      modifies InputFIFO
      ensures Valid() && b == BlockOf(old(In())[..4]) && In() == old(In())[4..] && Out() == old(Out())
    {
      var w0 := InputFIFO.Read();
      var w1 := InputFIFO.Read();
      var w2 := InputFIFO.Read();
      var w3 := InputFIFO.Read();
      assert old(In())[..4] == [w0, w1, w2, w3];
      b := BlockOf([w0, w1, w2, w3]);
    }

    method WriteBlock(b: Block)
      requires Valid() && |Out()| <= 12
      modifies OutputFIFO, OutputFIFO.Entries
      ensures Valid() && Out() == old(Out()) + WordsOf(b) && In() == old(In())
    {
      hide WordsOf, Fifo.Contents, Fifo.At;
      var w := WordsOf(b);
      OutputFIFO.Write(w[0]);
      OutputFIFO.Write(w[1]);
      OutputFIFO.Write(w[2]);
      OutputFIFO.Write(w[3]);
      assert old(Out()) + [w[0]] + [w[1]] + [w[2]] + [w[3]] == old(Out()) + w;
    }

    method ProcessBlockExtra()
      requires Underway() && RemExtra > 0 && |In()| >= 4
      modifies this`CurMAC, this`RemExtra, InputFIFO
      ensures Underway() && RemExtra == old(RemExtra) - 1 && |In()| == |old(In())| - 4 && Out() == old(Out())
    {
      hide Words, WordsOf, Output, Payload, Extra, IvAfter, MacAfter, Absorb, Ctr, CipherOf, BlockOf, Inc,
          ZeroCounter, Reverse, Flags, FirstBlock, CounterBlock, Fifo.Contents, Fifo.Valid, Fifo.At;
      ghost var n := Done();
      var data := ReadBlock();
      assert Fed[4 * n..][..4] == Fed[4 * n..4 * n + 4];
      ExtraAdvances(T, Fed, n);
      CurMAC := Absorb(CipherOf(Aes, CtxKey), CurMAC, data);
      RemExtra := RemExtra - 1;
    }

    /** The cipher's part of `ProcessBlock_CCM_Decrypt`, `ProcessBlock_CCM_Encrypt` and `ProcessBlock_CTR`. */
    method Crypt(data: Block) returns (out: Block)
      modifies this`CurMAC, this`CtxIv
      ensures out == Ctr(CipherOf(Aes, CtxKey), old(CtxIv), data) && CtxIv == Next(old(CtxIv))
      ensures CurMAC == match ModeOf(AESMode)
                        case CcmDecrypt => Absorb(CipherOf(Aes, CtxKey), old(CurMAC), out)
                        case CcmEncrypt => Absorb(CipherOf(Aes, CtxKey), old(CurMAC), data)
                        case CtrMode => old(CurMAC)
    {
      hide Absorb, Ctr, CipherOf, Next;
      var aes := CipherOf(Aes, CtxKey);
      if AESMode == 0 {
        out := Ctr(aes, CtxIv, data);
        CtxIv := Next(CtxIv);
        CurMAC := Absorb(aes, CurMAC, out);
      } else if AESMode == 1 {
        CurMAC := Absorb(aes, CurMAC, data);
        out := Ctr(aes, CtxIv, data);
        CtxIv := Next(CtxIv);
      } else {
        out := Ctr(aes, CtxIv, data);
        CtxIv := Next(CtxIv);
      }
    }

    method ProcessBlock()
      requires Underway() && RemExtra == 0 && RemBlocks > 0 && |In()| >= 4 && |Out()| <= 12
      modifies this`CurMAC, this`CtxIv, this`RemBlocks, InputFIFO, OutputFIFO, OutputFIFO.Entries
      ensures Underway() && RemExtra == 0 && RemBlocks == old(RemBlocks) - 1 && |In()| == |old(In())| - 4
    {
      hide Words, WordsOf, Output, IvAfter, MacAfter, Absorb, Ctr, Next, CipherOf, BlockOf, Valid, Fifo.Contents;
      ghost var n := Done();
      var data := ReadBlock();
      assert Fed[4 * n..][..4] == Fed[4 * n..4 * n + 4];
      PayloadAdvances(T, Fed, n);
      var out := Crypt(data);
      Appending(Before, Words(Output(T, Fed, n)), WordsOf(out), Drained, Out());
      WriteBlock(out);
      RemBlocks := RemBlocks - 1;
    }

    /** Counter block 0 encrypts the MAC. */
    method MaskMac()
      requires Underway() && RemExtra == RemBlocks == 0 && !T.mode.CtrMode?
      modifies this`CtxIv, this`CurMAC
      ensures CurMAC == FinalMac(T, Fed)
    {
      hide MacAfter, IvAfter, Inc, Absorb, CipherOf, ZeroCounter, Words, Output, Fifo.Contents, Fifo.Valid;
      CtxIv := ZeroCounter(CtxIv);
      CurMAC := Ctr(CipherOf(Aes, CtxKey), CtxIv, CurMAC);
      CtxIv := Next(CtxIv);
    }

    /** The MAC register holds the bytes of `CurMAC` in reverse. */
    method MacMatches() returns (ok: bool)
      ensures ok <==> MAC == Reverse(CurMAC)
    {
      ok := true;
      for i := 0 to 16
        invariant ok <==> forall k | 0 <= k < i :: CurMAC[15 - k] == MAC[k]
      {
        if CurMAC[15 - i] != MAC[i] {
          ok := false;
        }
      }
      SameReversed(CurMAC, MAC);
    }

    /** Put the MAC out if there is room for it, or note that it is due. */
    method PutMac()
      requires Valid() && Counting() && 4 * Done() <= |Fed| && Balanced([]) && !OutputMACDue
          && RemExtra == RemBlocks == 0
      requires SendsMac() && CurMAC == FinalMac(T, Fed)
      modifies this`OutputMAC, this`OutputMACDue, OutputFIFO, OutputFIFO.Entries
      ensures Complete()
    {
      hide Words, WordsOf, Output, Reverse, IvAfter, MacAfter, FinalMac, CipherOf, Fifo.Contents, Fifo.Valid, Fifo.At;
      OutputMAC := Reverse(CurMAC);
      var level := OutputFIFO.Level();
      if level <= 12 {
        Appending(Before, Words(Output(T, Fed, Done())), WordsOf(CurMAC), Drained, Out());
        WriteBlock(CurMAC);
      } else {
        OutputMACDue := true;
      }
    }

    lemma NoMacCompletes()
      requires Valid() && Counting() && 4 * Done() <= |Fed| && RemExtra == RemBlocks == 0 && Balanced([])
          && !OutputMACDue && !SendsMac()
      ensures Complete()
    {
      hide Words, WordsOf, Output, IvAfter, MacAfter, FinalMac, Counting, Balanced, Valid;
    }

    method FinishDecrypt()
      requires Underway() && RemExtra == RemBlocks == 0 && T.mode.CcmDecrypt?
      modifies this`CtxIv, this`CurMAC, this`Cnt, this`Judged, this`Compared
      ensures Complete() && Judged && Compared == MAC
          && Cnt == old(Cnt).(macOk := Compared == Reverse(FinalMac(T, Fed)))
    {
      hide Words, WordsOf, Output, Reverse, IvAfter, MacAfter, FinalMac, CipherOf, Counting, Balanced, Valid, Complete;
      NoMacCompletes();
      MaskMac();
      var ok := MacMatches();
      Cnt := Cnt.(macOk := ok);
      Judged, Compared := true, MAC;
    }

    method FinishEncrypt()
      requires Underway() && RemExtra == RemBlocks == 0 && SendsMac()
      modifies this`CtxIv, this`CurMAC, this`OutputMAC, this`OutputMACDue, this`Cnt, OutputFIFO, OutputFIFO.Entries
      ensures Complete() && Cnt == old(Cnt).(macOk := false)
    {
      hide Words, WordsOf, Output, Reverse, IvAfter, MacAfter, FinalMac, CipherOf, Counting, Balanced, Valid, Complete;
      MaskMac();
      PutMac();
      Cnt := Cnt.(macOk := false);
    }

    /** The end of `Update`: the MAC is compared, or put out. */
    method Finish()
      requires Underway() && RemExtra == RemBlocks == 0
      modifies this`CtxIv, this`CurMAC, this`OutputMAC, this`OutputMACDue, this`Cnt, this`Judged, this`Compared,
          this`Interrupts
      modifies OutputFIFO, OutputFIFO.Entries
      ensures Ended() && (T.mode.CcmDecrypt? ==> Judged && Compared == MAC)
      ensures Interrupts == old(Interrupts) + if Cnt.irq then 1 else 0
    {
      hide Words, WordsOf, Output, Reverse, IvAfter, MacAfter, FinalMac, CipherOf, Counting, Balanced, Valid, Complete;
      if AESMode == 0 {
        FinishDecrypt();
      } else if AESMode == 1 {
        FinishEncrypt();
      } else {
        NoMacCompletes();
        Cnt := Cnt.(macOk := false);
      }
      Cnt := Cnt.(start := false);
      if Cnt.irq {
        Interrupts := Interrupts + 1;
      }
    }

    /** The blocks that have been fed, as far as there is room for what they put out. */
    method ProcessPayload()
      requires Underway() && RemExtra == 0
      modifies this`CurMAC, this`CtxIv, this`RemBlocks, InputFIFO, OutputFIFO, OutputFIFO.Entries
      ensures Underway() && RemExtra == 0 && (|In()| < 4 || |Out()| > 12 || RemBlocks == 0)
    {
      hide Words, WordsOf, Output, IvAfter, MacAfter, FinalMac, CipherOf, ModeOf, Counting, Balanced, Fifo.Contents,
          Fifo.Valid;
      var level := InputFIFO.Level();
      var outLevel := OutputFIFO.Level();
      while level >= 4 && outLevel <= 12 && RemBlocks > 0
        invariant Underway() && RemExtra == 0 && level == |In()| && outLevel == |Out()|
        decreases RemBlocks
      {
        ProcessBlock();
        level := InputFIFO.Level();
        outLevel := OutputFIFO.Level();
      }
    }

    method Update()
      requires Underway()
      modifies this`CtxIv, this`CurMAC, this`OutputMAC, this`OutputMACDue, this`Cnt, this`Judged, this`Compared,
          this`Interrupts
      modifies this`RemExtra, this`RemBlocks, InputFIFO, OutputFIFO, OutputFIFO.Entries
      ensures Sound() && Eager()
      ensures T.mode.CcmDecrypt? && !Cnt.start ==> Judged && Compared == MAC
    {
      hide Words, WordsOf, Output, IvAfter, MacAfter, FinalMac, CipherOf, ModeOf, Counting, Balanced, Fifo.Contents,
          Fifo.Valid;
      var level := InputFIFO.Level();
      while level >= 4 && RemExtra > 0
        invariant Underway() && level == |In()|
        decreases RemExtra
      {
        ProcessBlockExtra();
        level := InputFIFO.Level();
      }
      if RemExtra == 0 {
        ProcessPayload();
      }
      if RemBlocks == 0 && RemExtra == 0 {
        Finish();
      }
    }

    /** Put a word into the input queue. */
    method Feed(val: Word)
      requires Valid() && Counting()
      modifies this`Fed, InputFIFO, InputFIFO.Entries
      ensures Valid() && Counting() && Out() == old(Out())
      ensures Fed == if |old(In())| < 16 then old(Fed) + [val] else old(Fed)
    {
      hide Fifo.Contents, Fifo.At;
      if |In()| < 16 {
        Fed := Fed + [val];
      }
      InputFIFO.Write(val);
    }

    /** What was true of the words fed so far is true with one more. */
    twostate lemma FedKeeps(val: Word)
      requires old(Sound()) && Valid() && Counting() && Out() == old(Out())
      requires Fed == old(Fed) || Fed == old(Fed) + [val]
      requires unchanged(`T, `RemExtra, `RemBlocks, `Before, `Drained, `Cnt, `AESMode, `CtxKey, `CtxIv, `CurMAC,
          `OutputMAC, `OutputMACDue, `Judged, `Compared)
      ensures Sound()
    {
      hide Words, Output, IvAfter, MacAfter, CipherOf, ModeOf, Reverse, WordsOf, ZeroCounter, Ctr, Valid, Fifo.Contents;
      FedMore(T, old(Fed), Done(), val);
    }

    method WriteInputFIFO(val: Word)
      requires Sound()
      modifies this, InputFIFO, InputFIFO.Entries, OutputFIFO, OutputFIFO.Entries
      ensures Sound() && (old(Cnt.start) ==> Eager())
      ensures old(Cnt.start) && !Cnt.start && T.mode.CcmDecrypt? ==> Judged && Compared == MAC
      ensures !old(Cnt.start) ==> Cnt == old(Cnt) && Judged == old(Judged) && Compared == old(Compared)
      ensures T == old(T) && Before == old(Before) && Drained == old(Drained) && MAC == old(MAC)
      ensures Fed == if |old(In())| < 16 then old(Fed) + [val] else old(Fed)
    {
      hide Words, Output, IvAfter, MacAfter, FinalMac, CipherOf, ModeOf, Reverse, WordsOf, Valid, Counting, Balanced;
      Feed(val);
      FedKeeps(val);
      if !Cnt.start {
        return;
      }
      Update();
    }

    /** Take a word out of the output queue. */
    method Drain(ghost tail: seq<Word>) returns (ret: Word)
      requires Counting() && Balanced(tail)
      modifies this`Drained, OutputFIFO
      ensures Valid() && Counting() && Balanced(tail)
      ensures old(Out()) == [] ==> Out() == [] && Drained == old(Drained)
      ensures old(Out()) != [] ==> ret == old(Out())[0] && Out() == old(Out())[1..] && Drained == old(Drained) + [ret]
    {
      hide Words, WordsOf, Output, Fifo.Contents, Fifo.Valid, Fifo.At;
      if |Out()| > 0 {
        assert Drained + Out() == Drained + [Out()[0]] + Out()[1..];
        Drained := Drained + [Out()[0]];
      }
      ret := OutputFIFO.Read();
    }

    /** Put out a MAC that was due. */
    method PutDueMac()
      requires Valid() && Counting() && 4 * Done() <= |Fed| && Balanced([]) && OutputMACDue
          && RemExtra == RemBlocks == 0
      requires SendsMac() && OutputMAC == Reverse(FinalMac(T, Fed))
      modifies this`OutputMACDue, OutputFIFO, OutputFIFO.Entries
      ensures Complete()
    {
      hide Words, WordsOf, Output, Reverse, IvAfter, MacAfter, FinalMac, CipherOf, Fifo.Contents, Fifo.Valid, Fifo.At;
      var level := OutputFIFO.Level();
      if level <= 12 {
        ReverseUndone(FinalMac(T, Fed));
        Appending(Before, Words(Output(T, Fed, Done())), WordsOf(FinalMac(T, Fed)), Drained, Out());
        WriteBlock(Reverse(OutputMAC));
        OutputMACDue := false;
      }
    }

    method ReadOutputFIFO() returns (ret: Word)
      requires Sound()
      modifies this, InputFIFO, OutputFIFO, OutputFIFO.Entries
      ensures Sound() && (old(Cnt.start) ==> Eager())
      ensures old(Cnt.start) && !Cnt.start && T.mode.CcmDecrypt? ==> Judged && Compared == MAC
      ensures !old(Cnt.start) ==> Cnt == old(Cnt) && Judged == old(Judged) && Compared == old(Compared)
      ensures T == old(T) && Before == old(Before) && Fed == old(Fed) && MAC == old(MAC)
      ensures if old(Out()) == [] then Drained == old(Drained)
              else ret == old(Out())[0] && Drained == old(Drained) + [ret]
    {
      hide Words, WordsOf, Output, Reverse, IvAfter, MacAfter, FinalMac, CipherOf, Counting, Balanced, Valid;
      if Cnt.start {
        ret := Drain([]);
        Update();
      } else {
        ret := Drain(if SendsMac() && !OutputMACDue then WordsOf(FinalMac(T, Fed)) else []);
        if OutputMACDue {
          PutDueMac();
        }
      }
    }

    /** The first counter block: flags, the top twelve bytes of the IV register, counter 1. */
    method CcmIv() returns (iv: Block)
      ensures iv == CounterBlock(NonceOf(IV), 1)
    {
      var was := Reverse(IV);
      iv := was[0 := 2];
      for i := 0 to 12
        invariant iv[0] == 2
        invariant forall k | 1 <= k <= i :: iv[k] == was[3 + k]
        invariant forall k | i < k < 16 && k > 0 :: iv[k] == was[k]
      {
        iv := iv[1 + i := iv[4 + i]];
      }
      iv := iv[13 := 0][14 := 0][15 := 1];
      assert Be24(1) == [0, 0, 1];
    }

    /** Set up the counter, and for CCM the MAC, for a transfer of `RemBlocks` blocks. */
    method SetupContext(val: Control)
      requires val.macLen < 8
      modifies this`CtxKey, this`CtxIv, this`CurMAC
      ensures CtxKey == Reverse(CurKey)
      ensures CtxIv == if AESMode < 2 then CounterBlock(NonceOf(IV), 1) else Reverse(IV)
      ensures AESMode < 2 ==>
                CurMAC == Aes(Reverse(CurKey), FirstBlock(Flags(val.macLen, BlkCnt % 0x1_0000 > 0), NonceOf(IV),
                    16 * RemBlocks))
    {
      hide Reverse, Flags, CounterBlock, FirstBlock, NonceOf;
      CtxKey := Reverse(CurKey);
      if AESMode < 2 {
        CtxIv := CcmIv();
        FirstBlockBytes(NonceOf(IV), Flags(val.macLen, BlkCnt % 0x1_0000 > 0), RemBlocks);
        var first := CtxIv[0 := Flags(val.macLen, BlkCnt % 0x1_0000 > 0)];
        first := first[13 := RemBlocks / 0x1000 % 0x100][14 := RemBlocks / 0x10 % 0x100][15 :=
            RemBlocks * 0x10 % 0x100];
        CurMAC := Aes(CtxKey, first);
      } else {
        CtxIv := Reverse(IV);
      }
    }

    /** The block counts and the context for a transfer about to begin. */
    method Start(val: Control)
      requires val.macLen < 8 && AESMode < 4
      modifies this`Cnt, this`RemExtra, this`RemBlocks, this`OutputMACDue, this`CtxKey, this`CtxIv, this`CurMAC
      ensures RemBlocks == BlkCnt / 0x1_0000 && RemExtra == (if AESMode < 2 then BlkCnt % 0x1_0000 else 0)
          && !OutputMACDue
      ensures Cnt == old(Cnt).(start := RemExtra + RemBlocks > 0)
      ensures Cnt.start ==>
                && CtxKey == Reverse(CurKey)
                && CtxIv == (if AESMode < 2 then CounterBlock(NonceOf(IV), 1) else Reverse(IV))
                && (AESMode < 2 ==> CurMAC == Aes(CtxKey,
                    FirstBlock(Flags(val.macLen, RemExtra > 0), NonceOf(IV), 16 * RemBlocks)))
    {
      hide Reverse, Flags, CounterBlock, FirstBlock, NonceOf;
      RemExtra := if AESMode < 2 then BlkCnt % 0x1_0000 else 0;
      RemBlocks := BlkCnt / 0x1_0000;
      OutputMACDue := false;
      if RemBlocks > 0 || RemExtra > 0 {
        Cnt := Cnt.(start := true);
        SetupContext(val);
      } else {
        Cnt := Cnt.(start := false);
      }
    }

    /** A rising start bit begins a transfer of the blocks in BLKCNT, whatever the engine was left in; with none
        there it is over at once. A transfer in progress goes on if start bit and mode stay, and otherwise
        nothing is promised until the next one. */
    method WriteCnt(val: Control)
      requires Valid() && val.macLen < 8 && val.slot < 4 && val.mode < 4
      modifies this
      ensures Valid() && In() == old(In()) && Out() == old(Out())
      ensures CurKey == if val.loadKey then KeyNormal[val.slot] else old(CurKey)
      ensures !old(Cnt.start) && val.start ==> Sound() && Fed == In() && Before == Out() && Drained == [] && Begins(val)
      ensures old(Cnt.start) || !val.start ==>
                && Cnt == val.(macOk := false) && T == old(T) && Fed == old(Fed) && Drained == old(Drained)
                    && Before == old(Before)
                && (old(Sound()) && old(Cnt.start) == val.start && (val.start ==> ModeOf(val.mode) == T.mode) ==>
                    Sound())
    {
      hide Words, WordsOf, Output, IvAfter, MacAfter, FinalMac, CipherOf, Reverse, Flags, FirstBlock, CounterBlock,
          NonceOf, ModeOf, Counting, Balanced, Complete, Underway, Ended, Sound, Valid, Begins, Fifo.Contents;
      var started := Cnt.start;
      Latch(val);
      if !started && val.start {
        Begin(val);
      }
    }

    /** Take over the fields of the register, and the key if one is to be loaded. */
    method Latch(val: Control)
      requires Valid() && val.slot < 4
      modifies this`Judged, this`CurKey, this`AESMode, this`Cnt
      ensures CurKey == if val.loadKey then KeyNormal[val.slot] else old(CurKey)
      ensures AESMode == val.mode && Cnt == val.(macOk := false) && !Judged
      ensures old(Sound()) && old(Cnt.start) == val.start && (val.start ==> ModeOf(val.mode) == T.mode) ==> Sound()
    {
      hide Words, WordsOf, Output, IvAfter, MacAfter, FinalMac, CipherOf, Reverse, ModeOf, Counting, Balanced,
          Complete, Valid, Advanced;
      Judged := false;
      if val.loadKey {
        CurKey := KeyNormal[val.slot];
      }
      AESMode := val.mode;
      Cnt := val.(macOk := false);
    }

    /** A transfer begins: it is fed by what is in the input queue, and puts out behind what is in the other. */
    method Begin(val: Control)
      requires Valid() && val.macLen < 8 && AESMode == val.mode < 4 && !Judged
      modifies this`Cnt, this`RemExtra, this`RemBlocks, this`OutputMACDue, this`CtxKey, this`CtxIv, this`CurMAC
      modifies this`T, this`Fed, this`Before, this`Drained
      ensures Sound() && Fed == In() && Before == Out() && Drained == [] && Begins(val)
    {
      hide Words, WordsOf, Output, IvAfter, MacAfter, FinalMac, CipherOf, Reverse, Flags, FirstBlock, CounterBlock,
          NonceOf, ModeOf, Counting, Balanced, Complete, Valid, Sound, Underway, Ended, Fifo.Contents, Fifo.Valid,
          Fifo.At, Begins;
      Start(val);
      NoteStart();
      BeginsSound();
      BeginsAs(val);
    }

    ghost method NoteStart()
      requires Valid()
      modifies this`T, this`Fed, this`Before, this`Drained
      ensures T == Transfer(CipherOf(Aes, Reverse(CurKey)), ModeOf(AESMode), RemExtra, RemBlocks,
          Chain(if AESMode < 2 then CounterBlock(NonceOf(IV), 1) else Reverse(IV), CurMAC))
      ensures Fed == In() && Before == Out() && Drained == []
    {
      hide *;
      T := Transfer(CipherOf(Aes, Reverse(CurKey)), ModeOf(AESMode), RemExtra, RemBlocks,
        Chain(if AESMode < 2 then CounterBlock(NonceOf(IV), 1) else Reverse(IV), CurMAC));
      Fed, Before, Drained := In(), Out(), [];
    }

    lemma BeginsAs(val: Control)
      requires val.macLen < 8 && AESMode == val.mode
      requires T == Transfer(CipherOf(Aes, Reverse(CurKey)), ModeOf(AESMode), RemExtra, RemBlocks,
          Chain(if AESMode < 2 then CounterBlock(NonceOf(IV), 1) else Reverse(IV), CurMAC))
      requires RemBlocks == BlkCnt / 0x1_0000 && RemExtra == (if AESMode < 2 then BlkCnt % 0x1_0000 else 0)
      requires Cnt.start <==> RemExtra + RemBlocks > 0
      requires Cnt.start && AESMode < 2 ==> CurMAC == Aes(Reverse(CurKey),
          FirstBlock(Flags(val.macLen, RemExtra > 0), NonceOf(IV), 16 * RemBlocks))
      ensures Begins(val)
    {
      hide Reverse, Flags, CounterBlock, FirstBlock, NonceOf, IsCounter, StartsMac;
      NonceBytes(IV);
      CounterIs(NonceOf(IV), 1);
      if Cnt.start && AESMode < 2 {
        FlagsStart(T.aes, T.extra, val.macLen, NonceOf(IV), T.blocks);
        assert T.aes(FirstBlock(Flags(val.macLen, T.extra > 0), NonceOf(IV), 16 * T.blocks)) == T.start.mac;
      }
    }

    lemma BeginsSound()
      requires Valid() && T.extra == RemExtra && T.blocks == RemBlocks && Fed == In() && Before == Out()
          && Drained == []
      requires !OutputMACDue && !Judged && (Cnt.start <==> RemExtra + RemBlocks > 0)
      requires Cnt.start ==>
          T.mode == ModeOf(AESMode) && T.aes == CipherOf(Aes, CtxKey)
          && T.start == Chain(CtxIv, CurMAC)
      ensures Sound()
    {
      hide Words, WordsOf, Output, IvAfter, MacAfter, FinalMac, CipherOf, ModeOf, Counting, Balanced, Complete, Valid;
      BeginsBalanced();
      FirstState(T, Fed);
      if !Cnt.start {
        NoMacCompletes();
      }
    }

    lemma BeginsBalanced()
      requires Valid() && T.extra == RemExtra && T.blocks == RemBlocks && Fed == In() && Before == Out()
          && Drained == []
      ensures Counting() && Balanced([]) && Done() == 0
    {
      hide Stream, Fifo.Contents, Fifo.Valid;
      FirstState(T, Fed);
      assert Fed[0..] == Fed;
    }

    /** What the transfer begins with: counter and MAC as sections 2.2 and 2.3 of RFC 3610 have them. */
    ghost predicate Begins(val: Control)
      requires val.macLen < 8
      reads this
    {
      && (T.mode.CcmDecrypt? <==> val.mode == 0) && (T.mode.CcmEncrypt? <==> val.mode == 1)
      && T.aes == CipherOf(Aes, Reverse(CurKey))
      && T.blocks == BlkCnt / 0x1_0000 && T.extra == (if val.mode < 2 then BlkCnt % 0x1_0000 else 0)
      && (Cnt.start <==> T.extra + T.blocks > 0)
      && T.start.iv == (if val.mode < 2 then CounterBlock(NonceOf(IV), 1) else Reverse(IV))
      && (val.mode < 2 ==>
            IsCounter(T.start.iv, NonceOf(IV), 1) && forall k | 0 <= k < 12 :: NonceOf(IV)[k] == IV[11 - k])
      && (val.mode < 2 && Cnt.start ==> exists first: Block ::
            StartsMac(T.aes, T.start.mac, first, T.extra, val.macLen, NonceOf(IV), T.blocks))
    }
  }
}
