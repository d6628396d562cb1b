/**
 Restoring across CPUs. CompileBlock tests a candidate's start address, hashes, ranges and masks, but not
 the CPU it was made for: a concrete run shows what follows, and a condition on the guest rules it out.
 */
module CrossRestores {
  import opened MachineWords
  import opened LiteralLoads
  import opened BlockIndex
  import opened BlockSource
  import opened BlockSafety
  import opened SampleRuns
  import opened AddressTranslation

  // ---- A run that breaks ownership -----------------------------------------------------------

  const START: Word := 0x200_0200

  const SHARED := 0x2000_0200

  /** A branch to itself, in main memory, which both CPUs see at the same addresses. */
  const LOOP := Instr(false, OtherKind, 0xEAFF_FFFE, START)

  /** The ARM9 has neither ITCM nor DTCM there. */
  predicate MainRamAtStart(c: Config) {
    ClassifyAddress9(c, START).MainRAM? && ClassifyAddress9(c, START + 2).MainRAM?
  }

  function Ram(a: nat): nat { if a == SHARED then 0xFFFE else if a == SHARED + 2 then 0xEAFF else 0 }

  function Sample(c: Config, num: nat): BlockData { OneInstr(LOOP, num, MappingOf(c), 7, num + 1, {}, Ram) }

  /** CPU 0 compiles, the code is written (with what it was), CPU 1 compiles the same words, the code is
      written again. */
  ghost function SampleRun(c: Config, b: JitBlock, d: JitBlock, n: nat): State
    requires b.data == Sample(c, 0) && d.data == Sample(c, 1) && n <= 4
  {
    if n == 0 then EMPTY else Step(SampleRun(c, b, d, n - 1), SampleEvent(c, b, d, n - 1))
  }

  ghost function SampleEvent(c: Config, b: JitBlock, d: JitBlock, n: nat): (e: Event)
    requires b.data == Sample(c, 0) && d.data == Sample(c, 1)
    ensures e.Compiling? ==> e.block.data == e.req && |e.req.addressRanges| == |e.req.addressMasks|
  {
    if n == 0 then Compiling(Sample(c, 0), b, [], false)
    else if n == 2 then Compiling(Sample(c, 1), d, [], false)
    else Writing(SHARED)
  }

  /** Ownership fails for real: after four possible steps the block of CPU 0 is live for CPU 1 and a
      candidate at once. */
  lemma SharedCodeBreaksOwnership(c: Config, b: JitBlock, d: JitBlock)
    requires MainRamAtStart(c) && b != d && b.data == Sample(c, 0) && d.data == Sample(c, 1)
    ensures forall n | 0 <= n < 4 :: Enabled(SampleRun(c, b, d, n), SampleEvent(c, b, d, n), MappingOf(c))
    ensures forall n | 0 <= n < 4 :: CrossRestore(SampleRun(c, b, d, n), SampleEvent(c, b, d, n)) <==> n == 2
    ensures var s := SampleRun(c, b, d, 4); s.live7 == map[START := b] && s.candidates == map[7 := b]
  {
    hide Compile, CheckAndInvalidate, Gathered, OneInstr, MappingOf, Register, Allocate;
    Local(c);
    SampleGathered(c, 0);
    SampleGathered(c, 1);
    SampleIs(c, 0);
    SampleIs(c, 1);
    var s0, s1 := EMPTY, OneLive(EMPTY.(made := {b}), b, 0);
    assert SampleRun(c, b, d, 0) == s0;
    FirstCompile(s0, Sample(c, 0), b, false);
    Allocated(s0, b);
    OneRegistered(s0.(made := {b}), Sample(c, 0), b, SHARED);
    assert SampleRun(c, b, d, 1) == s1;
    var s2 := OneRetired(s1, b);
    OneInvalidated(s1, b, SHARED, SHARED);
    assert SampleRun(c, b, d, 2) == s2;
    var s3 := OneLive(s2.(candidates := map[]), b, 1);
    RestoreCompiles(s2, Sample(c, 1), d);
    assert s2.candidates - {7} == map[] && s2.ranges == map[Base(SHARED) := AddressRange([], {})];
    OneRegistered(s2.(candidates := map[]), Sample(c, 1), b, SHARED);
    assert SampleRun(c, b, d, 3) == s3;
    OneInvalidated(s3, b, SHARED, SHARED);
    assert SampleRun(c, b, d, 4) == OneRetired(s3, b);
  }

  lemma Allocated(s: State, b: JitBlock)
    requires s == EMPTY
    ensures Allocate(s, b, false) == s.(made := {b})
  {
  }

  lemma Local(c: Config)
    requires MainRamAtStart(c)
    ensures forall num | 0 <= num <= 1 ::
        MappingOf(c)(num, START) == SHARED
        && MappingOf(c)(num, START + 2) == SHARED + 2
  {
    hide MappingOf, ClassifyAddress9;
    MainRamLocal(c, 0, START);
    MainRamLocal(c, 0, START + 2);
    MainRamLocal(c, 1, START);
    MainRamLocal(c, 1, START + 2);
  }

  lemma SampleIs(c: Config, num: nat)
    requires num <= 1 && MappingOf(c)(num, START) == SHARED
    ensures var data := Sample(c, num);
            && data.num == num && data.startAddr == START && data.startAddrLocal == SHARED && data.instrHash == 7
                && data.literalHash == 0
            && data.literals == [] && data.addressRanges == [Base(SHARED)] && data.addressMasks == [{Granule(SHARED)}]
  {
  }

  lemma SampleGathered(c: Config, num: nat)
    requires num <= 1 && MappingOf(c)(num, START) == SHARED && MappingOf(c)(num, START + 2) == SHARED + 2
    ensures Gathered(Sample(c, num), MappingOf(c), {})
  {
    hide MappingOf;
    OneGathered(LOOP, num, MappingOf(c), 7, num + 1, {}, {}, Ram);
  }

  // ---- When it cannot happen -----------------------------------------------------------------

  /** A run without regard to which blocks are restored. */
  ghost predicate PossibleRun(states: seq<State>, events: seq<Event>, mapping: Mapping) {
    && |states| == |events| + 1 && states[0] == EMPTY
    && forall i | 0 <= i < |events| :: Enabled(states[i], events[i], mapping)
        && states[i + 1] == Step(states[i], events[i])
  }

  /** Each start address is only ever compiled for one CPU. */
  ghost predicate OneCpuPerAddress(events: seq<Event>, owner: nat -> nat) {
    forall i | 0 <= i < |events| && events[i].Compiling? :: events[i].req.num == owner(events[i].req.startAddr)
  }

  ghost predicate MadeForOwner(s: State, owner: nat -> nat) {
    forall b | b in s.made :: b.data.num == owner(b.data.startAddr)
  }

  lemma OwnerNeverCrosses(s: State, mapping: Mapping, e: Event, owner: nat -> nat)
    requires Consistent(s, mapping) && MadeForOwner(s, owner)
    requires e.Compiling? ==> e.req.num == owner(e.req.startAddr)
    ensures !CrossRestore(s, e)
  {
  }

  lemma {:induction false} OwnedPrefix(states: seq<State>, events: seq<Event>, mapping: Mapping, owner: nat -> nat,
      n: nat)
    requires PossibleRun(states, events, mapping) && OneCpuPerAddress(events, owner) && n < |states|
    ensures Consistent(states[n], mapping) && MadeForOwner(states[n], owner)
  {
    if n == 0 {
      EmptyConsistent(mapping);
    } else {
      hide Consistent, Step, CrossRestore;
      var s, e := states[n - 1], events[n - 1];
      OwnedPrefix(states, events, mapping, owner, n - 1);
      OwnerNeverCrosses(s, mapping, e, owner);
      StepConsistent(s, mapping, e);
      forall b | b in states[n].made
        ensures b.data.num == owner(b.data.startAddr)
      {
        StepGrows(s, mapping, e);
      }
    }
  }

  /** If the two CPUs never run code at the same address, every possible run is sound: the block cache
      stays consistent throughout, whatever is compiled, written and reset in whatever order. */
  lemma OneCpuRunsSound(states: seq<State>, events: seq<Event>, mapping: Mapping, owner: nat -> nat)
    requires PossibleRun(states, events, mapping) && OneCpuPerAddress(events, owner)
    ensures SoundRun(states, events, mapping)
  {
    hide Consistent, Step, CrossRestore;
    forall i | 0 <= i < |events|
      ensures !CrossRestore(states[i], events[i])
    {
      OwnedPrefix(states, events, mapping, owner, i);
      OwnerNeverCrosses(states[i], mapping, events[i], owner);
    }
  }
}
