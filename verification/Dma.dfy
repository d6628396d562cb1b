/**
 The DMA controllers of the DS: a transfer is done in slices, as time and the bus allow, and in the geometry
 FIFO mode in runs of at most 112 units. Memory is the log of the units done.
 */
module Dma {
  import opened MachineWords
  import opened DmaUnits

  /** The fields of the control register. */
  datatype Control = Control(
    enabled: bool, irq: bool, mode: nat,    // bits 27 to 29 on the ARM9, 28 and 29 on the ARM7
    wide: bool, repeating: bool, srcMode: nat, dstMode: nat, count: nat)

  function IncOf(mode: nat): int {
    if mode == 1 then -1 else if mode == 2 then 0 else 1
  }

  /** Mode 0 counts the address of each unit up, 1 down, 2 leaves it; 3, reloading, counts up. */
  lemma UnitsStep(mode: nat, a: Word, bytes: nat, k: nat)
    requires mode < 4
    ensures After(a, IncOf(mode) * bytes, k) ==
        if mode == 2 then a else if mode == 1 then Wrap(a - k * bytes) else Wrap(a + k * bytes)
  {
    hide Wrap;
    AfterIs(a, IncOf(mode) * bytes, k);
    WrapSmall(a);
  }

  /** A timing table of 256 entries ends its burst pattern with a zero, which is not the first entry. */
  ghost predicate Terminated(table: seq<nat>) {
    |table| == 256 && exists t :: EndsAt(table, t)
  }

  ghost predicate EndsAt(table: seq<nat>, t: int) {
    0 < t < |table| && table[t] == 0
  }

  /** Nothing is to be read before a zero. */
  ghost predicate Bounded(table: seq<nat>, count: nat) {
    |table| == 256 && exists t :: count <= t < 256 && table[t] == 0
  }

  const DUMMY: seq<nat> := seq(256, _ => 0)

  lemma CountBounded(table: seq<nat>, count: nat)
    requires Bounded(table, count)
    ensures Bounded(DUMMY, count)
  {
    assert DUMMY[count] == 0;
  }

  class DmaChannel {
    const Cpu: nat
    const Num: nat
    var SrcAddr: Word
    var DstAddr: Word
    var Cnt: Control
    var StartMode: nat
    var CurSrcAddr: Word
    var CurDstAddr: Word
    var RemCount: nat
    var IterCount: nat
    var SrcAddrInc: int
    var DstAddrInc: int
    var Running: nat
    var InProgress: bool
    var MRAMBurstTable: seq<nat>
    var MRAMBurstCount: nat
    var Interrupts: nat
    var Log: seq<Unit>

    // The transfer in progress, or the last one: where it began, how long it is, and what went before.
    ghost var FirstSrc: Word
    ghost var FirstDst: Word
    ghost var Total: nat
    ghost var Before: seq<Unit>

    constructor (cpu: nat, num: nat)
      requires cpu < 2 && num < 4
      ensures Sound() && !InProgress && Log == [] && Cpu == cpu && Num == num
    {
      Cpu, Num := cpu, num;
      SrcAddr, DstAddr, Cnt, StartMode := 0, 0, Control(false, false, 0, false, false, 0, 0, 0), 0;
      CurSrcAddr, CurDstAddr, RemCount, IterCount, SrcAddrInc, DstAddrInc := 0, 0, 0, 0, 0, 0;
      Running, InProgress, Interrupts, Log := 0, false, 0, [];
      MRAMBurstTable, MRAMBurstCount := DUMMY, 0;
      assert DUMMY[0] == 0;
      FirstSrc, FirstDst, Total, Before := 0, 0, 0, [];
    }

    function Mode(): Stride
      reads `SrcAddrInc, `DstAddrInc, `Cnt
    {
      Stride(SrcAddrInc, DstAddrInc, if Cnt.wide then 4 else 2, false)
    }

    function CountMask(): nat
    {
      if Cpu == 0 then 0x1F_FFFF else if Num == 3 then 0xFFFF else 0x3FFF
    }

    /** A reload mode takes the start address again at every start, even in the middle of a transfer. */
    predicate Reloads()
      reads `Cnt
    {
      Cnt.srcMode == 3 || Cnt.dstMode == 3
    }

    /** The invariant: what the transfer has done so far is the beginning of one uninterrupted loop. */
    ghost predicate Sound()
      reads this
    {
      Steady() && Bounded(MRAMBurstTable, MRAMBurstCount)
    }

    ghost predicate Steady()
      reads `Log, `Before, `FirstSrc, `FirstDst, `CurSrcAddr, `CurDstAddr, `SrcAddrInc, `DstAddrInc, `Cnt
      reads `IterCount, `RemCount, `Running, `InProgress, `Total
    {
      && Mode().Valid() && IterCount <= RemCount && (Running > 0 ==> InProgress) && Running <= 2
      && (InProgress ==> 0 < RemCount <= Total && (Running > 0 <==> IterCount > 0) && Progress(Total - RemCount))
    }

    ghost predicate Progress(n: nat)
      reads `Log, `Before, `FirstSrc, `FirstDst, `CurSrcAddr, `CurDstAddr, `SrcAddrInc, `DstAddrInc, `Cnt
    {
      Looped(Before, FirstSrc, FirstDst, Log, CurSrcAddr, CurDstAddr, Mode(), n)
    }

    /** A rising enable bit latches addresses and steps, and in immediate mode starts. What is still to be done
        of a transfer in progress goes on from the addresses and with the steps there are then. */
    method WriteCnt(val: Control)
      requires Sound() && val.mode < 8 && val.srcMode < 4 && val.dstMode < 4
      modifies this
      ensures Sound() && Cnt == val && Log == old(Log)
      ensures if !old(Cnt).enabled && val.enabled then
                && CurSrcAddr == SrcAddr && CurDstAddr == DstAddr && SrcAddrInc == IncOf(val.srcMode)
                    && DstAddrInc == IncOf(val.dstMode)
                && StartMode == (if Cpu == 0 then val.mode else val.mode + 0x10)
                && (InProgress <==> old(InProgress) || StartMode % 8 == 0)
                    && (InProgress && StartMode % 8 == 0 ==> Running > 0)
              else unchanged(`CurSrcAddr, `CurDstAddr, `SrcAddrInc, `DstAddrInc, `StartMode, `InProgress, `Running,
                  `IterCount)
      ensures InProgress ==> Before == Log && FirstSrc == CurSrcAddr && FirstDst == CurDstAddr && Total == RemCount
      ensures InProgress ==> RemCount == if old(InProgress) then old(RemCount) else Length()
    {
      hide Bounded, Length, Progress, Mode, Reloads, IncOf;
      var rising := !Cnt.enabled && val.enabled;
      Latch(val);
      if rising && StartMode % 8 == 0 {
        Start();
      }
    }

    method Latch(val: Control)
      requires Sound() && val.mode < 8 && val.srcMode < 4 && val.dstMode < 4
      modifies `Cnt, `CurSrcAddr, `CurDstAddr, `SrcAddrInc, `DstAddrInc, `StartMode, `FirstSrc, `FirstDst, `Total,
          `Before
      ensures Sound() && Cnt == val
      ensures if !old(Cnt).enabled && val.enabled then
                && CurSrcAddr == SrcAddr && CurDstAddr == DstAddr && SrcAddrInc == IncOf(val.srcMode)
                    && DstAddrInc == IncOf(val.dstMode)
                && StartMode == (if Cpu == 0 then val.mode else val.mode + 0x10)
              else unchanged(`CurSrcAddr, `CurDstAddr, `SrcAddrInc, `DstAddrInc, `StartMode)
      ensures InProgress ==> Before == Log && FirstSrc == CurSrcAddr && FirstDst == CurDstAddr && Total == RemCount
    {
      hide Bounded, Progress;
      var rising := !Cnt.enabled && val.enabled;
      Cnt := val;
      if rising {
        CurSrcAddr, CurDstAddr := SrcAddr, DstAddr;
        DstAddrInc, SrcAddrInc := IncOf(Cnt.dstMode), IncOf(Cnt.srcMode);
        StartMode := if Cpu == 0 then Cnt.mode else Cnt.mode + 0x10;
      }
      if InProgress {
        Begin();
      }
    }

    /** How long a new transfer is. */
    function Length(): (n: nat)
      reads `Cnt
      ensures n > 0
    {
      var n := Cnt.count % (CountMask() + 1);
      if n == 0 then CountMask() + 1 else n
    }

    method Reload()
      modifies `CurSrcAddr, `CurDstAddr
      ensures CurSrcAddr == if Cnt.srcMode == 3 then SrcAddr else old(CurSrcAddr)
      ensures CurDstAddr == if Cnt.dstMode == 3 then DstAddr else old(CurDstAddr)
    {
      if Cnt.srcMode == 3 {
        CurSrcAddr := SrcAddr;
      }
      if Cnt.dstMode == 3 {
        CurDstAddr := DstAddr;
      }
    }

    /** Begins a transfer, or in FIFO mode the next run of the one in progress. With a reload mode that run
        goes back to the start address: the units left are then a loop of their own. */
    method Start()
      requires Sound()
      modifies `RemCount, `IterCount, `CurSrcAddr, `CurDstAddr, `Running, `InProgress, `MRAMBurstTable, `FirstSrc,
          `FirstDst, `Total, `Before
      ensures Sound() && InProgress
      ensures old(Running) > 0 ==>
          Running == old(Running) && IterCount == old(IterCount)
          && CurSrcAddr == old(CurSrcAddr) && CurDstAddr == old(CurDstAddr)
      ensures old(Running) == 0 ==>
                && Running == 2 && IterCount == (if StartMode == 7 && RemCount > 112 then 112 else RemCount)
                && CurSrcAddr == (if Cnt.srcMode == 3 then SrcAddr else old(CurSrcAddr))
                && CurDstAddr == (if Cnt.dstMode == 3 then DstAddr else old(CurDstAddr))
      ensures RemCount == if old(InProgress) then old(RemCount) else Length()
      ensures if old(Running) > 0 || (old(InProgress) && !Reloads())
          then unchanged(`Total, `Before, `FirstSrc, `FirstDst)
              else Before == Log && FirstSrc == CurSrcAddr && FirstDst == CurDstAddr && Total == RemCount
    {
      hide Progress, Mode, Bounded, Length;
      if Running > 0 {
        return;
      }
      StartRun();
      CountBounded(MRAMBurstTable, MRAMBurstCount);
      MRAMBurstTable := DUMMY;
    }

    method Count()
      modifies `RemCount, `IterCount
      ensures RemCount == if InProgress then old(RemCount) else Length()
      ensures IterCount == if StartMode == 7 && RemCount > 112 then 112 else RemCount
    {
      hide Length;
      RemCount := if InProgress then RemCount else Length();
      IterCount := if StartMode == 0x07 && RemCount > 112 then 112 else RemCount;
    }

    method StartRun()
      requires Steady() && Running == 0
      modifies `RemCount, `IterCount, `CurSrcAddr, `CurDstAddr, `Running, `InProgress, `FirstSrc, `FirstDst, `Total,
          `Before
      ensures Steady() && InProgress && Running == 2
          && IterCount == (if StartMode == 7 && RemCount > 112 then 112 else RemCount)
      ensures CurSrcAddr == (if Cnt.srcMode == 3 then SrcAddr else old(CurSrcAddr))
      ensures CurDstAddr == (if Cnt.dstMode == 3 then DstAddr else old(CurDstAddr))
      ensures RemCount == if old(InProgress) then old(RemCount) else Length()
      ensures if old(InProgress) && !Reloads() then unchanged(`Total, `Before, `FirstSrc, `FirstDst)
              else Before == Log && FirstSrc == CurSrcAddr && FirstDst == CurDstAddr && Total == RemCount
    {
      hide Progress, Mode, Bounded, Length;
      Count();
      Reload();
      if !InProgress || Reloads() {
        Begin();
      }
      Running, InProgress := 2, true;
    }

    /** Note where a transfer begins. */
    ghost method Begin()
      modifies `FirstSrc, `FirstDst, `Total, `Before
      ensures FirstSrc == CurSrcAddr && FirstDst == CurDstAddr && Total == RemCount && Before == Log && Progress(0)
    {
      FirstSrc, FirstDst, Total, Before := CurSrcAddr, CurDstAddr, RemCount, Log;
      LoopBegins(Log, CurSrcAddr, CurDstAddr, Mode());
    }

    /** One unit of the transfer. */
    method DoUnit(stride: Stride)
      requires 0 < IterCount <= RemCount <= Total && Progress(Total - RemCount) && stride == Mode()
      modifies `Log, `CurSrcAddr, `CurDstAddr, `IterCount, `RemCount
      ensures IterCount == old(IterCount) - 1 && RemCount == old(RemCount) - 1 && Progress(Total - RemCount)
    {
      hide Looped, Wrap, Stride.SrcStep, Stride.DstStep;
      LoopGoesOn(Before, FirstSrc, FirstDst, Log, CurSrcAddr, CurDstAddr, stride, Total - RemCount);
      Log := Log + [Unit(CurSrcAddr, CurDstAddr, stride.bytes, stride.fill)];
      CurSrcAddr := Wrap(CurSrcAddr + stride.SrcStep());
      CurDstAddr := Wrap(CurDstAddr + stride.DstStep());
      IterCount := IterCount - 1;
      RemCount := RemCount - 1;
    }

    /** The loop of a slice: at most `limit` units. */
    method DoUnits(limit: nat)
      requires IterCount <= RemCount <= Total && Progress(Total - RemCount)
      modifies `Log, `CurSrcAddr, `CurDstAddr, `IterCount, `RemCount
      ensures var n := if limit < old(IterCount) then limit else old(IterCount);
              RemCount == old(RemCount) - n && IterCount == old(IterCount) - n && Progress(Total - RemCount)
    {
      hide Progress, Stride.Valid;
      var n := 0;
      var stride := Stride(SrcAddrInc, DstAddrInc, if Cnt.wide then 4 else 2, false);
      while IterCount > 0 && n < limit
        invariant 0 <= n <= limit && n <= old(IterCount) && IterCount == old(IterCount) - n
            && RemCount == old(RemCount) - n
        invariant IterCount <= RemCount <= Total && Progress(Total - RemCount)
      {
        DoUnit(stride);
        n := n + 1;
      }
    }

    /** The end of a transfer. */
    method Finish()
      requires Mode().Valid() && IterCount == RemCount == 0 && Bounded(MRAMBurstTable, MRAMBurstCount)
      modifies `Running, `InProgress, `Cnt, `Interrupts
      ensures Sound() && Mode() == old(Mode()) && !InProgress
      ensures Cnt == if old(Cnt).repeating then old(Cnt) else old(Cnt).(enabled := false)
      ensures Interrupts == old(Interrupts) + if Cnt.irq then 1 else 0
    {
      hide Progress, Bounded, Stride.Valid;
      if !Cnt.repeating {
        Cnt := Cnt.(enabled := false);
      }
      if Cnt.irq {
        Interrupts := Interrupts + 1;
      }
      Running := 0;
      InProgress := false;
    }

    /** `Run9` or `Run7`: units are done until the run or the time slice ends or the bus stalls, which is
        after `limit` units. */
    method Run(limit: nat)
      requires Sound() && Running > 0
      modifies `Log, `RemCount, `IterCount, `CurSrcAddr, `CurDstAddr, `Running, `InProgress, `Cnt, `Interrupts
      ensures Sound() && Mode() == old(Mode())
      ensures var n := if limit < old(IterCount) then limit else old(IterCount);
              RemCount == old(RemCount) - n && IterCount == old(IterCount) - n
      ensures InProgress <==> limit < old(IterCount) || old(IterCount) < old(RemCount)
      ensures !InProgress ==> Log == Before + Units(FirstSrc, FirstDst, Mode(), Total)
      ensures Cnt == if InProgress || old(Cnt).repeating then old(Cnt) else old(Cnt).(enabled := false)
      ensures Interrupts == old(Interrupts) + if !InProgress && Cnt.irq then 1 else 0
    {
      hide Units, After, Wrap, Bounded, Stride.Valid;
      Running := 1;
      DoUnits(limit);
      assert Progress(Total - RemCount);
      if RemCount > 0 {
        if IterCount == 0 {
          Running := 0;
        }
        return;
      }
      Finish();
    }

    /** The burst path of the `UnitTimings` functions; `pattern` is the table for the regions at hand. */
    method NextBurstTiming(burststart: bool, pattern: seq<nat>) returns (ret: nat)
      requires Bounded(MRAMBurstTable, MRAMBurstCount) && Terminated(pattern)
      modifies `MRAMBurstTable, `MRAMBurstCount
      ensures Bounded(MRAMBurstTable, MRAMBurstCount)
      ensures ret == if burststart || old(MRAMBurstTable[MRAMBurstCount]) == 0 then pattern[0]
          else old(MRAMBurstTable[MRAMBurstCount])
    {
      if burststart || MRAMBurstTable[MRAMBurstCount] == 0 {
        MRAMBurstCount := 0;
        MRAMBurstTable := pattern;
        ghost var t :| EndsAt(pattern, t);
        assert 1 <= t < 256 && pattern[t] == 0;
      }
      ret := MRAMBurstTable[MRAMBurstCount];
      MRAMBurstCount := MRAMBurstCount + 1;
    }
  }

  /** A schedule: how many units each slice may do; a run that has ended is started again. */
  method Serve(dma: DmaChannel, slices: seq<nat>)
    requires dma.Sound() && dma.InProgress && !dma.Reloads()
    modifies dma
    ensures dma.Sound() && dma.Total == old(dma.Total) && dma.Before == old(dma.Before)
    ensures dma.FirstSrc == old(dma.FirstSrc) && dma.FirstDst == old(dma.FirstDst) && dma.Mode() == old(dma.Mode())
    ensures !dma.InProgress ==> dma.Log == dma.Before + Units(dma.FirstSrc, dma.FirstDst, dma.Mode(), dma.Total)
    ensures dma.InProgress ==>
        dma.Log == dma.Before
        + Units(dma.FirstSrc, dma.FirstDst, dma.Mode(), dma.Total - dma.RemCount)
  {
    hide Units, After, Wrap, Bounded, Stride.Valid, DmaChannel.Length;
    for i := 0 to |slices|
      invariant dma.Sound() && dma.Total == old(dma.Total) && dma.Before == old(dma.Before)
      invariant dma.FirstSrc == old(dma.FirstSrc) && dma.FirstDst == old(dma.FirstDst) && dma.Mode() == old(dma.Mode())
      invariant dma.InProgress ==> !dma.Reloads()
      invariant !dma.InProgress ==> dma.Log == dma.Before + Units(dma.FirstSrc, dma.FirstDst, dma.Mode(), dma.Total)
    {
      if dma.InProgress {
        dma.Start();
        dma.Run(slices[i]);
      }
    }
  }
}
