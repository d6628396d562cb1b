/**
 The DMA controllers the DSi adds: a transfer of a total length in blocks, one block a trigger, each block
 done in slices, and in the geometry FIFO mode in runs of at most 112 words.
 */
module Ndma {
  import opened MachineWords
  import opened DmaUnits

  /** The fields of the control register. */
  datatype Control = Control(
    enabled: bool, irq: bool, repeating: bool,     // bits 31, 30 and 29
    mode: nat, srcMode: nat, srcReload: bool, dstMode: nat, dstReload: bool)

  const IMMEDIATE := 0x10

  function SrcIncOf(mode: nat): int {
    if mode == 0 then 1 else if mode == 1 then -1 else 0    // 3 is the fill mode
  }

  function DstIncOf(mode: nat): int {
    if mode == 1 then -1 else if mode == 2 then 0 else 1
  }

  /** Source mode 0 counts the address of each word up, 1 down, 2 and 3 leave it; destination mode 3 counts up. */
  lemma WordsStep(mode: nat, a: Word, k: nat)
    requires mode < 4
    ensures After(a, SrcIncOf(mode) * 4, k) ==
        if mode == 0 then Wrap(a + 4 * k) else if mode == 1 then Wrap(a - 4 * k) else a
    ensures After(a, DstIncOf(mode) * 4, k) ==
        if mode == 2 then a else if mode == 1 then Wrap(a - 4 * k) else Wrap(a + 4 * k)
  {
    hide Wrap;
    AfterIs(a, SrcIncOf(mode) * 4, k);
    AfterIs(a, DstIncOf(mode) * 4, k);
    WrapSmall(a);
  }

  class NdmaChannel {
    const Cpu: nat
    var SrcAddr: Word
    var DstAddr: Word
    var TotalLength: Word
    var BlockLength: Word
    var Cnt: Control
    var StartMode: nat
    var CurSrcAddr: Word
    var CurDstAddr: Word
    var RemCount: Word
    var IterCount: Word
    var TotalRemCount: Word
    var SrcAddrInc: int
    var DstAddrInc: int
    var Running: nat
    var InProgress: bool
    var Interrupts: nat
    var Log: seq<Unit>

    // Since the channel was last enabled: where it began, how long it was to be, and what went before.
    ghost var FirstSrc: Word
    ghost var FirstDst: Word
    ghost var Length: Word
    ghost var Before: seq<Unit>
    ghost var Moved: nat

    constructor (cpu: nat)
      requires cpu < 2
      ensures Sound() && !InProgress && Log == [] && Cpu == cpu
    {
      Cpu := cpu;
      SrcAddr, DstAddr, TotalLength, BlockLength := 0, 0, 0, 0;
      Cnt, StartMode := Control(false, false, false, 0, 0, false, 0, false), 0;
      CurSrcAddr, CurDstAddr, RemCount, IterCount, TotalRemCount, SrcAddrInc, DstAddrInc := 0, 0, 0, 0, 0, 0, 0;
      Running, InProgress, Interrupts, Log := 0, false, 0, [];
      FirstSrc, FirstDst, Length, Before, Moved := 0, 0, 0, [], 0;
    }

    function Mode(): Stride
      reads `SrcAddrInc, `DstAddrInc, `Cnt
    {
      Stride(SrcAddrInc, DstAddrInc, 4, Cnt.srcMode == 3)
    }

    /** Neither immediate nor repeating: the transfer is over when the total length is. */
    predicate Counted()
      reads `StartMode, `Cnt
    {
      StartMode % 0x20 != IMMEDIATE && !Cnt.repeating
    }

    predicate Reloads()
      reads `Cnt
    {
      Cnt.srcReload || Cnt.dstReload
    }

    /** What holds whatever is written to the registers. Without reloading, all blocks so far are one
        uninterrupted loop. */
    ghost predicate Steady()
      reads `Log, `Before, `FirstSrc, `FirstDst, `CurSrcAddr, `CurDstAddr, `SrcAddrInc, `DstAddrInc, `Cnt
      reads `IterCount, `RemCount, `TotalRemCount, `Running, `InProgress, `Length, `Moved
    {
      && Mode().Valid() && IterCount <= RemCount && (Running > 0 ==> InProgress) && Running <= 2
      && (InProgress && Running == 0 ==> RemCount > 0)
      && TotalRemCount == Wrap(Length - Moved)
      && (!Reloads() ==> Progress())
    }

    /** For a counted transfer every word still to be moved is accounted for, and a run never goes past the
        total. */
    ghost predicate Accounted()
      reads `IterCount, `TotalRemCount, `Running, `Length, `Moved, `StartMode, `Cnt
    {
      Counted() ==> Moved <= Length && (Running > 0 ==> IterCount <= TotalRemCount)
    }

    /** The invariant. */
    ghost predicate Sound()
      reads `Log, `Before, `FirstSrc, `FirstDst, `CurSrcAddr, `CurDstAddr, `SrcAddrInc, `DstAddrInc, `Cnt, `StartMode
      reads `IterCount, `RemCount, `TotalRemCount, `Running, `InProgress, `Length, `Moved
    {
      Steady() && Accounted()
    }

    ghost predicate Progress()
      reads `Log, `Before, `FirstSrc, `FirstDst, `CurSrcAddr, `CurDstAddr, `SrcAddrInc, `DstAddrInc, `Cnt, `Moved
    {
      Looped(Before, FirstSrc, FirstDst, Log, CurSrcAddr, CurDstAddr, Mode(), Moved)
    }

    /** A rising enable bit latches addresses, steps and total, and in immediate mode starts. A run under way goes
        on as it was: it is accounted for after the write if and only if it does not go past the new total. Any
        other write changes the register alone; the accounts are in order after it, if reloading and the source
        mode stay, if and only if they are by the new repeat bit. */
    method WriteCnt(val: Control)
      requires Steady() && val.srcMode < 4 && val.dstMode < 4 && val.mode < 0x20
      modifies `Cnt, `StartMode, `CurSrcAddr, `CurDstAddr, `TotalRemCount, `SrcAddrInc, `DstAddrInc
      modifies `RemCount, `IterCount, `Running, `InProgress, `FirstSrc, `FirstDst, `Length, `Before, `Moved
      ensures Cnt == val
      ensures if !old(Cnt).enabled && val.enabled then
                && TotalRemCount == TotalLength && CurSrcAddr == SrcAddr && CurDstAddr == DstAddr
                && SrcAddrInc == SrcIncOf(val.srcMode) && DstAddrInc == DstIncOf(val.dstMode)
                && StartMode == (if val.mode > IMMEDIATE then IMMEDIATE else val.mode) + (if Cpu == 1 then 0x20 else 0)
                && Before == Log && Moved == 0 && Length == TotalLength && FirstSrc == SrcAddr && FirstDst == DstAddr
                && (old(Running) == 0 ==> Sound() && (InProgress <==> old(InProgress) || StartMode % 0x20 == IMMEDIATE))
                && (old(Running) > 0 ==>
                      && Steady() && unchanged(`RemCount, `IterCount, `Running, `InProgress)
                      && (Sound() <==> (Counted() ==> IterCount <= TotalLength)))
              else
                && unchanged(`StartMode, `CurSrcAddr, `CurDstAddr, `TotalRemCount, `SrcAddrInc, `DstAddrInc)
                && unchanged(`RemCount, `IterCount, `Running, `InProgress, `FirstSrc, `FirstDst, `Length, `Before,
                    `Moved)
                && (Leaves(old(Cnt), val) ==>
                      && Steady() && (val.repeating == old(Cnt).repeating && old(Accounted()) ==> Sound())
                      && (Sound() <==> (Counted() ==> Moved <= Length && (Running > 0 ==> IterCount <= TotalRemCount))))
    {
      hide Looped, SrcIncOf, DstIncOf, Wrap, Stride.Valid;
      if !Cnt.enabled && val.enabled {
        Latch(val);
        if StartMode % 0x20 == IMMEDIATE && Running == 0 {
          Start(false);
        }
      } else {
        Rewrite(val);
      }
    }

    method Rewrite(val: Control)
      requires Steady()
      modifies `Cnt
      ensures Cnt == val
      ensures Leaves(old(Cnt), val) ==> Steady()
      ensures Leaves(old(Cnt), val) && val.repeating == old(Cnt).repeating && old(Accounted()) ==> Sound()
    {
      Cnt := val;
    }

    /** A write that leaves reloading and the source mode alone. */
    static predicate Leaves(was: Control, val: Control) {
      val.srcReload == was.srcReload && val.dstReload == was.dstReload && val.srcMode == was.srcMode
    }

    method Latch(val: Control)
      requires IterCount <= RemCount && (Running > 0 ==> InProgress) && Running <= 2
          && (InProgress && Running == 0 ==> RemCount > 0)
      requires val.srcMode < 4 && val.dstMode < 4 && val.mode < 0x20
      modifies `Cnt, `StartMode, `CurSrcAddr, `CurDstAddr, `TotalRemCount, `SrcAddrInc, `DstAddrInc
      modifies `FirstSrc, `FirstDst, `Length, `Before, `Moved
      ensures Cnt == val && TotalRemCount == TotalLength && CurSrcAddr == SrcAddr && CurDstAddr == DstAddr
      ensures SrcAddrInc == SrcIncOf(val.srcMode) && DstAddrInc == DstIncOf(val.dstMode)
      ensures StartMode == (if val.mode > IMMEDIATE then IMMEDIATE else val.mode) + if Cpu == 1 then 0x20 else 0
      ensures Before == Log && Moved == 0 && Length == TotalLength && FirstSrc == SrcAddr && FirstDst == DstAddr
      ensures Steady() && (Sound() <==> (Counted() && Running > 0 ==> IterCount <= TotalLength))
    {
      hide Looped, SrcIncOf, DstIncOf, Wrap, Stride.Valid;
      StepsValid(val);
      Take(val);
      Begin();
      WrapSmall(TotalLength);
    }

    method Take(val: Control)
      modifies `Cnt, `StartMode, `CurSrcAddr, `CurDstAddr, `TotalRemCount, `SrcAddrInc, `DstAddrInc
      ensures Cnt == val && TotalRemCount == TotalLength && CurSrcAddr == SrcAddr && CurDstAddr == DstAddr
      ensures SrcAddrInc == SrcIncOf(val.srcMode) && DstAddrInc == DstIncOf(val.dstMode)
      ensures StartMode == (if val.mode > IMMEDIATE then IMMEDIATE else val.mode) + if Cpu == 1 then 0x20 else 0
    {
      Cnt := val;
      CurSrcAddr, CurDstAddr, TotalRemCount := SrcAddr, DstAddr, TotalLength;
      DstAddrInc, SrcAddrInc := DstIncOf(Cnt.dstMode), SrcIncOf(Cnt.srcMode);
      StartMode := (if Cnt.mode > IMMEDIATE then IMMEDIATE else Cnt.mode) + if Cpu == 1 then 0x20 else 0;
    }

    lemma StepsValid(val: Control)
      ensures Stride(SrcIncOf(val.srcMode), DstIncOf(val.dstMode), 4, val.srcMode == 3).Valid()
    {
    }

    ghost method Begin()
      modifies `FirstSrc, `FirstDst, `Length, `Before, `Moved
      ensures FirstSrc == CurSrcAddr && FirstDst == CurDstAddr && Length == TotalLength && Before == Log && Moved == 0
          && Progress()
    {
      FirstSrc, FirstDst, Length, Before, Moved := CurSrcAddr, CurDstAddr, TotalLength, Log, 0;
      LoopBegins(Log, CurSrcAddr, CurDstAddr, Mode());
    }

    /** What is left of the block in progress, or a new one. */
    function BlockLeft(): Word
      reads `BlockLength, `RemCount, `InProgress
    {
      if InProgress then RemCount else BlockWords()
    }

    function RunLimit(): Word
      reads `BlockLength, `RemCount, `InProgress, `StartMode
    {
      if StartMode == 0x0A && BlockLeft() > 112 then 112 else BlockLeft()
    }

    /** The words of the run a trigger begins. */
    function RunWords(): Word
      reads `BlockLength, `RemCount, `InProgress, `StartMode, `TotalRemCount, `Cnt
    {
      if Counted() && RunLimit() > TotalRemCount then TotalRemCount else RunLimit()
    }

    /** A trigger: begins a block, or in FIFO mode the next run of the one in progress. */
    method Start(others: bool)
      requires Steady()
      modifies `RemCount, `IterCount, `CurSrcAddr, `CurDstAddr, `Running, `InProgress
      ensures Steady() && InProgress && (old(Sound()) ==> Sound())
      ensures old(Running) > 0 ==> unchanged(`RemCount, `IterCount, `CurSrcAddr, `CurDstAddr, `Running)
      ensures old(Running) == 0 ==>
                && Running == (if others then 1 else 2) && IterCount == old(RunWords())
                    && (StartMode == 0x0A ==> IterCount <= 112)
                && RemCount == (if Counted() && old(RunLimit()) > TotalRemCount then TotalRemCount
                    else old(BlockLeft()))
                && CurSrcAddr == (if Cnt.srcReload then SrcAddr else old(CurSrcAddr))
                && CurDstAddr == (if Cnt.dstReload then DstAddr else old(CurDstAddr))
    {
      hide Looped, BlockWords, Stride.Valid, Wrap;
      if Running > 0 {
        return;
      }
      StartRun();
      Running := if others then 1 else 2;
    }

    method StartRun()
      requires Steady() && Running == 0
      modifies `RemCount, `IterCount, `CurSrcAddr, `CurDstAddr, `Running, `InProgress
      ensures Steady() && InProgress && Running == 1 && (old(Sound()) ==> Sound())
      ensures IterCount == old(RunWords()) && (StartMode == 0x0A ==> IterCount <= 112)
      ensures RemCount == if Counted() && old(RunLimit()) > TotalRemCount then TotalRemCount else old(BlockLeft())
      ensures CurSrcAddr == (if Cnt.srcReload then SrcAddr else old(CurSrcAddr))
      ensures CurDstAddr == (if Cnt.dstReload then DstAddr else old(CurDstAddr))
    {
      hide Looped, BlockWords, Stride.Valid, Wrap;
      Count();
      Reload();
      Running, InProgress := 1, true;
    }

    /** How many words the run and the block have. */
    method Count()
      modifies `RemCount, `IterCount
      ensures IterCount == old(RunWords()) && IterCount <= RemCount && (StartMode == 0x0A ==> IterCount <= 112)
      ensures RemCount == if Counted() && old(RunLimit()) > TotalRemCount then TotalRemCount else old(BlockLeft())
    {
      hide BlockWords;
      var rem := if InProgress then RemCount else BlockWords();
      var iter := if StartMode == 0x0A && rem > 112 then 112 else rem;
      if Counted() && iter > TotalRemCount {
        iter := TotalRemCount;
        rem := iter;
      }
      RemCount, IterCount := rem, iter;
    }

    method Reload()
      modifies `CurSrcAddr, `CurDstAddr
      ensures CurSrcAddr == if Cnt.srcReload then SrcAddr else old(CurSrcAddr)
      ensures CurDstAddr == if Cnt.dstReload then DstAddr else old(CurDstAddr)
    {
      if Cnt.dstReload {
        CurDstAddr := DstAddr;
      }
      if Cnt.srcReload {
        CurSrcAddr := SrcAddr;
      }
    }

    function BlockWords(): Word
      reads `BlockLength
    {
      if BlockLength == 0 then 0x100_0000 else BlockLength
    }

    /** `Run9` or `Run7`: words are moved until the run or the time slice ends or the bus stalls, which is
        after `limit` words. A channel disabled meanwhile goes on to the end of its block. */
    method Run(limit: nat)
      requires Steady() && Running > 0
      modifies `Log, `RemCount, `IterCount, `TotalRemCount, `CurSrcAddr, `CurDstAddr, `Running, `InProgress, `Cnt,
          `Interrupts, `Moved
      ensures Steady() && Mode() == old(Mode()) && (old(Sound()) ==> Sound())
      ensures var n := if limit < old(IterCount) then limit else old(IterCount);
              && Moved == old(Moved) + n && RemCount == old(RemCount) - n && IterCount == old(IterCount) - n
              && TotalRemCount == Wrap(old(TotalRemCount) - n)
      ensures InProgress <==> RemCount > 0
      ensures Running == if IterCount == 0 then 0 else 1
      ensures Cnt == if InProgress then old(Cnt)
          else old(Cnt).(enabled := old(Cnt).enabled && StartMode % 0x20 != IMMEDIATE
              && (old(Cnt).repeating || TotalRemCount != 0))
      ensures old(Sound()) && old(Counted()) && old(Cnt).enabled ==> (Cnt.enabled <==> InProgress || TotalRemCount > 0)
      ensures old(Sound()) && old(Counted()) && old(Cnt).enabled && !Cnt.enabled ==> Moved == Length
      ensures Interrupts == old(Interrupts) + if !InProgress && Cnt.irq
          && (Cnt.repeating || StartMode % 0x20 == IMMEDIATE || TotalRemCount == 0) then 1 else 0
    {
      hide Looped, Wrap, Stride.Valid, Progress;
      Running := 1;
      MoveWords(limit);
      if RemCount > 0 {
        if IterCount == 0 {
          Running := 0;
        }
        return;
      }
      Finish();
      OneLess(Length, Moved, TotalRemCount);
    }

    /** The loop of a slice. */
    method MoveWords(limit: nat)
      requires Steady() && Running > 0
      modifies `Log, `RemCount, `IterCount, `TotalRemCount, `CurSrcAddr, `CurDstAddr, `Moved
      ensures Steady() && (old(Sound()) ==> Sound())
      ensures var n := if limit < old(IterCount) then limit else old(IterCount);
              && Moved == old(Moved) + n && RemCount == old(RemCount) - n && IterCount == old(IterCount) - n
              && TotalRemCount == Wrap(old(TotalRemCount) - n)
    {
      hide *;
      var n := 0;
      WrapSmall(TotalRemCount);
      while IterCount > 0 && n < limit
        invariant 0 <= n <= limit && n <= old(IterCount) && IterCount == old(IterCount) - n
            && RemCount == old(RemCount) - n
        invariant Moved == old(Moved) + n && TotalRemCount == Wrap(old(TotalRemCount) - n)
        invariant Steady() && (old(Sound()) ==> Sound())
      {
        MoveWord();
        WrapAdd(old(TotalRemCount) - n, -1);
        n := n + 1;
      }
    }

    /** The end of a block. */
    method Finish()
      requires Steady() && InProgress && RemCount == 0
      modifies `Cnt, `Interrupts, `Running, `InProgress
      ensures Steady() && Mode() == old(Mode()) && !InProgress && Running == 0 && (old(Sound()) ==> Sound())
      ensures Cnt == old(Cnt).(enabled := old(Cnt).enabled && StartMode % 0x20 != IMMEDIATE
          && (Cnt.repeating || TotalRemCount != 0))
      ensures Interrupts == old(Interrupts) + if Cnt.irq
          && (Cnt.repeating || StartMode % 0x20 == IMMEDIATE || TotalRemCount == 0) then 1 else 0
    {
      hide Looped, Stride.Valid, Wrap;
      EndBlock();
      Running := 0;
      InProgress := false;
    }

    method EndBlock()
      modifies `Cnt, `Interrupts
      ensures Cnt == old(Cnt).(enabled := old(Cnt).enabled && StartMode % 0x20 != IMMEDIATE
          && (Cnt.repeating || TotalRemCount != 0))
      ensures Interrupts == old(Interrupts) + if Cnt.irq
          && (Cnt.repeating || StartMode % 0x20 == IMMEDIATE || TotalRemCount == 0) then 1 else 0
    {
      if StartMode % 0x20 == IMMEDIATE || (!Cnt.repeating && TotalRemCount == 0) {
        Cnt := Cnt.(enabled := false);
        if Cnt.irq {
          Interrupts := Interrupts + 1;
        }
      } else if Cnt.repeating && Cnt.irq {
        Interrupts := Interrupts + 1;
      }
    }

    method MoveWord()
      requires Steady() && Running > 0 && IterCount > 0
      modifies `Log, `RemCount, `IterCount, `TotalRemCount, `CurSrcAddr, `CurDstAddr, `Moved
      ensures Steady() && IterCount == old(IterCount) - 1 && RemCount == old(RemCount) - 1 && Moved == old(Moved) + 1
      ensures TotalRemCount == Wrap(old(TotalRemCount) - 1) && (old(Sound()) ==> Sound())
    {
      hide Looped, Stride.Valid, Wrap;
      CopyWord();
      WrapAdd(Length - old(Moved), -1);
      OneLess(Length, old(Moved), TotalRemCount);
      IterCount := IterCount - 1;
      RemCount := RemCount - 1;
      TotalRemCount := Wrap(TotalRemCount - 1);
    }

    /** A counter that has not run out does not wrap. */
    lemma OneLess(length: Word, moved: nat, left: Word)
      requires left == Wrap(length - moved)
      ensures left > 0 ==> Wrap(left - 1) == left - 1
      ensures moved <= length ==> left == length - moved
    {
    }

    /** What the invariant says of a counted transfer without reloading. */
    lemma Standing()
      requires Sound() && Counted() && !Reloads()
      ensures Moved <= Length && TotalRemCount == Length - Moved
      ensures Log == Before + Units(FirstSrc, FirstDst, Mode(), Moved)
    {
      OneLess(Length, Moved, TotalRemCount);
    }

    method CopyWord()
      modifies `Log, `CurSrcAddr, `CurDstAddr, `Moved
      ensures Moved == old(Moved) + 1 && (old(Progress()) ==> Progress())
    {
      hide Looped, Wrap, Stride.SrcStep, Stride.DstStep;
      var stride := Mode();
      if Progress() {
        LoopGoesOn(Before, FirstSrc, FirstDst, Log, CurSrcAddr, CurDstAddr, stride, Moved);
      }
      Log := Log + [Unit(CurSrcAddr, CurDstAddr, stride.bytes, stride.fill)];
      CurSrcAddr := Wrap(CurSrcAddr + stride.SrcStep());
      CurDstAddr := Wrap(CurDstAddr + stride.DstStep());
      Moved := Moved + 1;
    }
  }

  /** Triggers and slices in any number: a counted transfer moves no word twice and none too many, and when
      the channel is disabled it has moved exactly its total length, in one loop's order. */
  method Serve(dma: NdmaChannel, slices: seq<(bool, nat)>)
    requires dma.Sound() && dma.Counted() && dma.Cnt.enabled && !dma.Reloads()
    modifies dma
    ensures dma.Sound() && dma.Length == old(dma.Length) && dma.Before == old(dma.Before)
    ensures dma.FirstSrc == old(dma.FirstSrc) && dma.FirstDst == old(dma.FirstDst) && dma.Mode() == old(dma.Mode())
    ensures dma.Moved <= dma.Length && dma.TotalRemCount == dma.Length - dma.Moved
    ensures dma.Log == dma.Before + Units(dma.FirstSrc, dma.FirstDst, dma.Mode(), dma.Moved)
    ensures !dma.Cnt.enabled ==> dma.Log == dma.Before + Units(dma.FirstSrc, dma.FirstDst, dma.Mode(), dma.Length)
  {
    hide Units, After, Stride.Valid, Wrap, Looped, NdmaChannel.Progress;
    for i := 0 to |slices|
      invariant dma.Sound() && dma.Counted() && !dma.Reloads() && dma.Length == old(dma.Length)
          && dma.Before == old(dma.Before)
      invariant dma.FirstSrc == old(dma.FirstSrc) && dma.FirstDst == old(dma.FirstDst) && dma.Mode() == old(dma.Mode())
      invariant !dma.Cnt.enabled ==> dma.Moved == dma.Length
    {
      if dma.Cnt.enabled {
        dma.Start(slices[i].0);
        dma.Run(slices[i].1);
      }
    }
    dma.Standing();
  }

  /** A new total while a run is under way: the channel is disabled, given the total and enabled again, and the run
      goes on for a slice. The remaining total wraps if and only if the slice does more words than it; if the block
      ends there the channel stays enabled, with as many words to go as are missing to 2^32. */
  method Shorten(dma: NdmaChannel, total: Word, limit: nat)
    requires dma.Steady() && dma.Running > 0 && dma.Cnt.srcMode < 4 && dma.Cnt.dstMode < 4 && dma.Cnt.mode < 0x20
    modifies dma
    ensures dma.Steady() && dma.Length == total && dma.Moved == if limit < old(dma.IterCount) then limit
        else old(dma.IterCount)
    ensures dma.TotalRemCount == if dma.Moved <= total then total - dma.Moved else 0x1_0000_0000 + total - dma.Moved
    ensures dma.Counted() && !dma.InProgress && dma.Moved > total ==> dma.Cnt.enabled
  {
    hide Wrap, NdmaChannel.Steady, NdmaChannel.Sound, NdmaChannel.Accounted, NdmaChannel.Mode;
    dma.WriteCnt(dma.Cnt.(enabled := false));
    dma.TotalLength := total;
    dma.WriteCnt(dma.Cnt.(enabled := true));
    dma.Run(limit);
    WrapBelow(total - dma.Moved);
  }

  lemma WrapBelow(a: int)
    requires -0x1_0000_0000 < a < 0x1_0000_0000
    ensures Wrap(a) == if a < 0 then 0x1_0000_0000 + a else a
  {
  }
}
