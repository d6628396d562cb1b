/**
 Code in windows of new WRAM the bus does not show, or in ones the JIT does not look for: it is registered at one local
 address, and stores to it are checked at another.
 */
module StaleWindows {
  import opened MachineWords
  import opened LiteralLoads
  import opened BlockIndex
  import opened BlockSource
  import opened BlockSafety
  import opened BlockCoherence
  import opened SampleRuns
  import opened AddressTranslation
  import opened GuestMemory
  import opened CodePlaces
  import opened GuestStores

  // ---- Two addresses, two ranges -------------------------------------------------------------

  /** The region the JIT takes it for is the upper part of the local address. */
  lemma WindowRegion(c: Config, v: VideoMap, num: nat, a: Word)
    requires c.Valid() && InOtherWindow(c, num, a) && Local(c, num, a) != 0
    ensures Local(c, num, a) / LOCAL == Classify(c, num, a).Index()
  {
    hide LocaliseAddress, BusRegion, Config.Swram;
    var region := Classify(c, num, a);
    WindowKinds(c, num, a);
    assert Local(c, num, a) == LocaliseAddress(c, region, num, a);
    var o := PlainCell(c, v, region, num, a);
    PackTells(o, region, o, region);
  }

  lemma WindowKinds(c: Config, num: nat, a: Word)
    requires InOtherWindow(c, num, a)
    ensures var region := Classify(c, num, a); region.WRAM7? || (region.NewSharedWRAM? && region.bank <= 2)
  {
  }

  /** So a store is checked in another range, or not at all. */
  lemma OtherRange(c: Config, v: VideoMap, num: nat, a: Word)
    requires c.Valid() && InOtherWindow(c, num, a) && Local(c, num, a) != 0
    ensures Base(Checked(c, num, a)) != Base(Local(c, num, a)) && !InVideo(Local(c, num, a))
  {
    hide Local, Checked, BusRegion, Classify;
    SameRegionIff(c, num, a);
    WindowRegion(c, v, num, a);
    WindowKinds(c, num, a);
    IndexTells(Classify(c, num, a), BusRegion(c, num, a));
    IndexTells(Classify(c, num, a), VRAM);
    SomeIndex(Classify(c, num, a));
    if Checked(c, num, a) != 0 {
      CheckedRegion(c, v, num, a);
    }
    BaseRegion(Checked(c, num, a));
    BaseRegion(Local(c, num, a));
  }

  lemma SomeIndex(region: Region)
    requires !region.Other?
    ensures region.Index() > 0
  {
  }

  lemma BaseRegion(h: nat)
    ensures Base(h) / LOCAL == h / LOCAL
  {
    assert h / LOCAL == h / 512 / 0x4_0000;
  }

  // ---- The run -------------------------------------------------------------------------------

  /** An instruction that neither loads a literal nor ends in one. */
  function Plainly(word: Word, a: Word): Instr { Instr(false, OtherKind, word, a) }

  function BlockAt(c: Config, num: nat, word: Word, a: Word, mem: Memory): BlockData {
    OneInstr(Plainly(word, a), num, MappingOf(c), 7, 1, {}, mem)
  }

  lemma BlockFields(c: Config, num: nat, word: Word, a: Word, mem: Memory)
    ensures var data, local := BlockAt(c, num, word, a, mem), Local(c, num, a);
            && data.num == num && data.startAddr == a && data.instrHash == 7 && data.literals == []
            && data.startAddrLocal == local && data.addressRanges == [Base(local)]
            && data.addressMasks == [{Granule(local)}] && data.entryPoint == 1 && data.fetched == [Plainly(word, a)]
            && local in data.text && data.text[local] == mem(local)
  {
    hide LocaliseCodeAddress;
    assert Of(BlockAt(c, num, word, a, mem), MappingOf(c), {}).instrs[0] == Plainly(word, a);
  }

  /** A store to where nothing is registered. */
  lemma StoreSpares(s: State, b: JitBlock, local: nat, at: nat)
    requires s.ranges == map[Base(local) := AddressRange([b], {Granule(local)})] && Base(at) != Base(local)
    ensures CheckAndInvalidate(s, at) == s
  {
    hide Base, Granule, InvalidateByAddr;
  }

  /** Whatever instruction stands in such a window, compiled in an empty cache: a store of the same CPU to the same
      address leaves the block as it is, and it is hit, made from what was there before. */
  lemma WindowGoesStale(c: Config, v: VideoMap, union: Union, num: nat, word: Word, a: Word, b: JitBlock,
      bytes: Contents, bytes': Contents, mem: Memory)
    requires c.Valid() && num <= 1 && a % 4 == 0 && Tag(a, num) != INVALID_TAG
    requires InOtherWindow(c, num, a) && Local(c, num, a) != 0 && !BusRegion(c, num, a).Other?
    requires InMemory(Plainly(word, a), num, MappingOf(c), mem)
    requires mem(Local(c, num, a)) == Read(c, v, union, bytes, num, a) != Read(c, v, union, bytes', num, a)
    requires b.data == BlockAt(c, num, word, a, mem)
    requires Stores(c, v, num, a, bytes, bytes')
    ensures var e := Compiling(b.data, b, [], false);
            && |b.data.addressRanges| == |b.data.addressMasks|
            && Enabled(EMPTY, e, MappingOf(c)) && !CrossRestore(EMPTY, e)
            && MemoryStep(EMPTY, e, MappingOf(c), mem, mem)
            && var s := Step(EMPTY, e);
            && Step(s, Writing(Checked(c, num, a))) == s
            && LookUpBlock(s, num, Local(c, num, a), a) == Hit(1) && a in s.Live(num) && s.Live(num)[a] == b
    ensures Local(c, num, a) in b.data.text && b.data.text[Local(c, num, a)] != Read(c, v, union, bytes', num, a)
  {
    hide MappingOf, OneInstr, Local, Checked, Cells, MadeFrom, Agrees, Gathered, Register, Allocate, Stores, InMemory,
        InOtherWindow, Read, Base, Granule, BlockAt;
    var local := Local(c, num, a);
    BlockFields(c, num, word, a, mem);
    BlockGathered(c, num, word, a, mem);
    OtherRange(c, v, num, a);
    FirstCompile(EMPTY, b.data, b, false);
    AllocatedHere(b);
    OneRegistered(EMPTY.(made := {b}), b.data, b, local);
    StoreSpares(OneLive(EMPTY.(made := {b}), b, num), b, local, Checked(c, num, a));
  }

  lemma BlockGathered(c: Config, num: nat, word: Word, a: Word, mem: Memory)
    requires num <= 1 && a % 4 == 0 && Tag(a, num) != INVALID_TAG
    requires InMemory(Plainly(word, a), num, MappingOf(c), mem)
    ensures var data := BlockAt(c, num, word, a, mem);
            && Gathered(data, MappingOf(c), {}) && Agrees(Of(data, MappingOf(c), {}), [], mem)
            && MadeFrom(data, MappingOf(c), {}, mem) && data.literalValues == []
  {
    hide MappingOf, InMemory, Gathered, Agrees, MadeFrom;
    OneGathered(Plainly(word, a), num, MappingOf(c), 7, 1, {}, {}, mem);
  }

  // ---- Such windows --------------------------------------------------------------------------

  /** A DSi with the shared memory given to the ARM9, whose windows of bank A take in the whole page and show the first
      part. */
  function Windows(allowed: bool): Config {
    Config(true, 0, a => false, k => false, num => allowed, 0, (num, bank) => 0x300_0000,
      (num, bank) => if bank == 0 then 0x400_0000 else 0x300_0000, (num, bank) => 0,
      (num, bank, k) => if bank == 0 then Slice.Part(0) else NoPart)
  }

  /** With it forbidden to the ARM9 its first address is such a one; and allowed to the ARM7 the one in the middle. */
  lemma WindowsExist()
    ensures InOtherWindow(Windows(false), 0, 0x300_0000) && Local(Windows(false), 0, 0x300_0000) != 0
    ensures InOtherWindow(Windows(true), 1, 0x380_0000) && Local(Windows(true), 1, 0x380_0000) != 0
    ensures BusRegion(Windows(false), 0, 0x300_0000).SharedWRAM?
    ensures BusRegion(Windows(true), 1, 0x380_0000) == NewSharedWRAM(0)
    ensures forall allowed :: Windows(allowed).Valid() && Windows(allowed).WordAligned()
  {
    forall allowed
      ensures Windows(allowed).Valid() && Windows(allowed).WordAligned()
    {
      WindowsValid(allowed);
    }
    hide InOtherWindow, Local, BusRegion;
    ForbiddenWindow();
    HighWindow();
  }

  lemma WindowsValid(allowed: bool)
    ensures Windows(allowed).Valid() && Windows(allowed).WordAligned()
  {
  }

  lemma ForbiddenWindow()
    ensures InOtherWindow(Windows(false), 0, 0x300_0000) && BusRegion(Windows(false), 0, 0x300_0000).SharedWRAM?
    ensures Local(Windows(false), 0, 0x300_0000) != 0
  {
    var c := Windows(false);
    assert Classify(c, 0, 0x300_0000) == NewSharedWRAM(0) && c.Slot(0, 0, 0x300_0000).Part?;
  }

  lemma HighWindow()
    ensures InOtherWindow(Windows(true), 1, 0x380_0000) && BusRegion(Windows(true), 1, 0x380_0000) == NewSharedWRAM(0)
    ensures Local(Windows(true), 1, 0x380_0000) != 0
  {
    assert Classify(Windows(true), 1, 0x380_0000) == WRAM7;
  }
}
