/**
 Code in the ARM9's video memory: the same bank shows at several addresses with different local addresses, and a
 store through one of them leaves a block made from another as it was.
 */
module StaleVideo {
  import opened MachineWords
  import opened LiteralLoads
  import opened BlockIndex
  import opened BlockSource
  import opened BlockSafety
  import opened BlockCoherence
  import opened SampleRuns
  import opened AddressTranslation
  import opened GuestMemory
  import opened CodePlaces
  import opened GuestStores

  /** The start of video memory, half a megabyte on, and two megabytes on. */
  const START: Word := 0x600_0000
  const MIRROR: Word := 0x608_0000
  const ENGINE_B: Word := 0x620_0000

  /** The ARM9 has neither ITCM nor DTCM over its video memory. */
  predicate VideoThere(c: Config) {
    forall a: Word | 0x600_0000 <= a < 0x700_0000 :: Classify(c, 0, a).VRAM?
  }

  lemma Locals(c: Config)
    requires VideoThere(c)
    ensures forall a: Word | 0x600_0000 <= a < 0x700_0000 ::
        BusRegion(c, 0, a).VRAM? && Local(c, 0, a) == Checked(c, 0, a)
    ensures forall a: Word | 0x600_0000 <= a < 0x610_0000 :: Local(c, 0, a) == 0x3800_0000 + (a - START)
    ensures Local(c, 0, ENGINE_B) == Local(c, 0, START)
  {
    hide Classify, BusRegion, Local, Checked;
    forall a: Word | 0x600_0000 <= a < 0x700_0000
      ensures BusRegion(c, 0, a).VRAM? && Local(c, 0, a) == Checked(c, 0, a)
      ensures a < 0x610_0000 ==> Local(c, 0, a) == 0x3800_0000 + (a - START)
    {
      VideoInPlace(c, a);
      VideoLocal(c, 0, a);
    }
    VideoLocal(c, 0, START);
    VideoLocal(c, 0, ENGINE_B);
  }

  /** With bank A first in the background memory of engine A and bank C in that of engine B: the same cell under
      two local addresses, and two cells under one. */
  lemma MirrorsMislead(c: Config, v: VideoMap)
    requires VideoThere(c)
    requires v.space(0).EngineABg? && 0 in v.slots(0) && v.space(2).EngineBBg? && 0 in v.slots(2)
    requires forall k | 0 <= k < 9 && k !in {0, 2} :: v.space(k).Unmapped?
    ensures Cells(c, v, 0, START) == Cells(c, v, 0, MIRROR) == {Cell(Bank(0), 0)}
    ensures Local(c, 0, MIRROR) == Local(c, 0, START) + 0x8_0000
    ensures Cells(c, v, 0, ENGINE_B) == {Cell(Bank(2), 0)} && Local(c, 0, ENGINE_B) == Local(c, 0, START)
  {
    hide Classify, BusRegion, Local, BankSize, Banked;
    Locals(c);
    VideoOnly(c, v, 0, START);
    VideoOnly(c, v, 0, MIRROR);
    VideoOnly(c, v, 0, ENGINE_B);
    OneBank(v, EngineABg, START, 0);
    OneBank(v, EngineABg, MIRROR, 0);
    OneBank(v, EngineBBg, ENGINE_B, 2);
  }

  lemma OneBank(v: VideoMap, space: Space, a: Word, b: nat)
    requires b in {0, 2} && v.space(b) == space && 0 in v.slots(b) && a % 0x2_0000 == 0
    requires forall k | 0 <= k < 9 && k != b :: v.space(k) != space
    ensures Banked(v, space, 0, a) == {Cell(Bank(b), 0)}
  {
  }

  /** A branch to itself. */
  const LOOP := Instr(false, OtherKind, 0xEAFF_FFFE, START)

  function Shown(a: nat): nat { if a == 0x3800_0000 then 0xFFFE else if a == 0x3800_0002 then 0xEAFF else 0 }

  function LoopBlock(c: Config): BlockData { OneInstr(LOOP, 0, MappingOf(c), 7, 1, {}, Shown) }

  /** Nothing is asked of memory where all that is recorded is in video memory. */
  lemma LoopGathered(c: Config, mem: Memory)
    requires VideoThere(c)
    ensures var data, f := LoopBlock(c), Of(LoopBlock(c), MappingOf(c), {});
            && Gathered(data, MappingOf(c), {}) && Agrees(f, [], mem) && MadeFrom(data, MappingOf(c), {}, mem)
            && data.startAddrLocal == 0x3800_0000 && data.text.Keys == {0x3800_0000, 0x3800_0002}
            && data.text[0x3800_0000] == 0xFFFE
  {
    hide MappingOf, Collected;
    LoopLocals(c);
    OneGathered(LOOP, 0, MappingOf(c), 7, 1, {}, {}, Shown);
    var f := Of(LoopBlock(c), MappingOf(c), {});
    assert f.CodeHalves(0) == {0x3800_0000, 0x3800_0002} && f.FoldedHalves(0) == {};
    forall h, v | Recorded(f, [], h, v)
      ensures InVideo(h)
    {
      assert CodeShows(f, 0, h, v);
    }
  }

  lemma LoopLocals(c: Config)
    requires VideoThere(c)
    ensures MappingOf(c)(0, START) == 0x3800_0000 && MappingOf(c)(0, START + 2) == 0x3800_0002
    ensures MappingOf(c)(0, MIRROR) == 0x3808_0000
  {
    hide LocaliseCodeAddress;
    Locals(c);
    assert Local(c, 0, START) == 0x3800_0000 && Local(c, 0, START + 2) == 0x3800_0002;
    assert Local(c, 0, MIRROR) == 0x3808_0000;
  }

  /** Compiled in an empty cache, then stored to half a megabyte further on. */
  ghost function Compiled(c: Config, b: JitBlock): State
    requires b.data == LoopBlock(c)
  {
    Step(EMPTY, Compiling(LoopBlock(c), b, [], false))
  }

  /** The store is seen through the first address, as the same cell is, but the block stays, and is hit. */
  lemma VideoGoesStale(c: Config, v: VideoMap, union: Union, b: JitBlock, bytes: Contents, bytes': Contents,
      mem: Memory, mem': Memory)
    requires VideoThere(c) && c.Valid() && c.WordAligned() && AllInPlace(c) && v.Valid() && b.data == LoopBlock(c)
    requires Cells(c, v, 0, START) == Cells(c, v, 0, MIRROR)
    requires Stores(c, v, 0, MIRROR, bytes, bytes')
    requires Shows(c, v, union, bytes, mem) && Shows(c, v, union, bytes', mem')
    ensures var e, s := Compiling(LoopBlock(c), b, [], false), Compiled(c, b);
            var store := Writing(Checked(c, 0, MIRROR));
            && Enabled(EMPTY, e, MappingOf(c)) && !CrossRestore(EMPTY, e)
            && MemoryStep(EMPTY, e, MappingOf(c), mem, mem)
            && MemoryStep(s, store, MappingOf(c), mem, mem') && Step(s, store) == s
            && LookUpBlock(s, 0, MappingOf(c)(0, START), START) == Hit(1) && s.live9 == map[START := b]
    ensures Read(c, v, union, bytes', 0, START) == Read(c, v, union, bytes', 0, MIRROR)
    ensures b.data.text[Local(c, 0, START)] == 0xFFFE
  {
    hide MappingOf, OneInstr, Local, Checked, Cells, MadeFrom, Agrees, Gathered, Register, Allocate, Stores, Shows,
        SeenAt;
    Locals(c);
    LoopLocals(c);
    LoopGathered(c, mem);
    LoopFields(c);
    var e := Compiling(LoopBlock(c), b, [], false);
    FirstCompile(EMPTY, e.req, b, false);
    AllocatedHere(b);
    OneRegistered(EMPTY.(made := {b}), e.req, b, 0x3800_0000);
    var s := OneLive(EMPTY.(made := {b}), b, 0);
    assert Compiled(c, b) == s;
    GuestStore(s, c, v, union, 0, MIRROR, bytes, bytes', mem, mem');
  }

  lemma LoopFields(c: Config)
    requires VideoThere(c)
    ensures var data := LoopBlock(c);
            && data.num == 0 && data.startAddr == START && data.instrHash == 7 && data.literals == []
            && data.literalValues == [] && data.fetched == [LOOP] && data.entryPoint == 1
            && data.startAddrLocal == 0x3800_0000
            && data.addressRanges == [Base(0x3800_0000)] && data.addressMasks == [{Granule(0x3800_0000)}]
  {
    hide MappingOf;
    LoopLocals(c);
  }
}
