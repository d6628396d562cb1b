/**
 The two translations of a code address. CompileBlock and the store checks go through LocaliseAddress;
 the dispatcher goes through SetupExecutableRegion, which gives a window over one region's lookup table.
 They are written separately and must index the same slot. Addresses are 32-bit unsigned; `x & (n - 1)` and
 `x & ~(n - 1)` for a power of two `n` are `x % n` and `x - x % n`, and `offset | region << 27` is a sum.
 */
module AddressTranslation {
  import opened Arithmetic
  import opened MachineWords
  import opened LiteralLoads
  import opened BlockIndex
  import opened BlockSource
  import opened BlockSafety

  datatype Region =
    | Other | ITCM | DTCM | BIOS9 | MainRAM | SharedWRAM | IO9 | VRAM | BIOS7 | WRAM7 | IO7 | Wifi | VWRAM
    | BIOS9DSi | BIOS7DSi | NewSharedWRAM(bank: nat)
  {
    function Index(): nat {
      match this
      case Other => 0
      case ITCM => 1
      case DTCM => 2
      case BIOS9 => 3
      case MainRAM => 4
      case SharedWRAM => 5
      case IO9 => 6
      case VRAM => 7
      case BIOS7 => 8
      case WRAM7 => 9
      case IO7 => 10
      case Wifi => 11
      case VWRAM => 12
      case BIOS9DSi => 13
      case BIOS7DSi => 14
      case NewSharedWRAM(bank) => 15 + bank
    }

    /** `CodeMemRegions` and `FastBlockLookupRegions` have a table for it. */
    predicate HoldsCode() {
      !Other? && !DTCM? && !IO9? && !IO7? && !Wifi?
    }

    /** `CodeRegionSizes`. */
    function Size(): nat {
      match this
      case ITCM => 0x8000
      case BIOS9 => 0x1000
      case MainRAM => 0x100_0000
      case SharedWRAM => 0x8000
      case VRAM => 0x10_0000
      case BIOS7 => 0x4000
      case WRAM7 => 0x1_0000
      case VWRAM => 0x4_0000
      case BIOS9DSi => 0x1_0000
      case BIOS7DSi => 0x1_0000
      case NewSharedWRAM(_) => 0x4_0000
      case _ => 0
    }
  }

  datatype Shared = Unmapped | Shared(offset: nat, size: nat)

  datatype Slice = NoPart | Part(index: nat)

  /** The registers that decide the address map, held fixed. */
  datatype Config = Config(
    dsi: bool, itcmSize: nat, inDtcm: nat -> bool,
    scfgBios: nat -> bool,                    // bits of SCFG_BIOS
    nwramOn: nat -> bool,                     // bit 25 of SCFG_EXT, by CPU
    wramCnt: bv8,
    nwramStart: (nat, nat) -> nat, nwramEnd: (nat, nat) -> nat,   // by CPU and bank
    nwramMask: (nat, nat) -> nat, nwramMap: (nat, nat, nat) -> Slice)
  {
    function MainRamSize(): nat {
      if dsi then 0x100_0000 else 0x40_0000
    }

    /** `MapSharedWRAM`. */
    function Swram(num: nat): Shared {
      match wramCnt & 3
      case 0 => if num == 0 then Shared(0, 0x8000) else Unmapped
      case 1 => if num == 0 then Shared(0x4000, 0x4000) else Shared(0, 0x4000)
      case 2 => if num == 0 then Shared(0, 0x4000) else Shared(0x4000, 0x4000)
      case _ => if num == 0 then Unmapped else Shared(0, 0x8000)
    }

    /** The part of new WRAM bank `bank` that CPU `num` sees at `addr`. */
    function Slot(num: nat, bank: nat, addr: nat): Slice {
      nwramMap(num, bank, (addr / PartSize(bank)) % (nwramMask(num, bank) + 1))
    }

    ghost predicate Valid() {
      forall num, bank, k | nwramMap(num, bank, k).Part? ::
          (nwramMap(num, bank, k).index + 1) * PartSize(bank) <= 0x4_0000
    }

    /** The ITCM is a power of two from 512 bytes on, the DTCM's place is masked, and windows of new WRAM begin
        and end with a part. */
    ghost predicate WordAligned() {
      && itcmSize % 4 == 0 && (forall a: nat, b: nat | a / 4 == b / 4 :: inDtcm(a) == inDtcm(b))
      && forall num, bank :: nwramStart(num, bank) % 4 == 0 && nwramEnd(num, bank) % 4 == 0
    }
  }

  function PartSize(bank: nat): nat { if bank == 0 then 0x1_0000 else 0x8000 }

  ghost predicate Maps(s: Shared, i: nat) { s.Shared? && s.offset <= i < s.offset + s.size }

  /** Every byte of the shared memory is one CPU's, and only one's. */
  lemma SharedOnce(c: Config, i: nat)
    requires i < 0x8000
    ensures Maps(c.Swram(0), i) <==> !Maps(c.Swram(1), i)
  {
  }

  // ---- Classification ------------------------------------------------------------------------

  function NewWramAt(c: Config, num: nat, addr: Word): Region {
    if !c.dsi then Other
    else if c.nwramStart(num, 0) <= addr < c.nwramEnd(num, 0) then NewSharedWRAM(0)
    else if c.nwramStart(num, 1) <= addr < c.nwramEnd(num, 1) then NewSharedWRAM(1)
    else if c.nwramStart(num, 2) <= addr < c.nwramEnd(num, 2) then NewSharedWRAM(2)
    else Other
  }

  function ClassifyAddress9(c: Config, addr: Word): Region {
    if addr < c.itcmSize then ITCM
    else if c.inDtcm(addr) then DTCM
    else if c.dsi && addr >= 0xFFFF_0000 && !c.scfgBios(1) then
      if addr >= 0xFFFF_8000 && c.scfgBios(0) then Other else BIOS9DSi
    else if 0xFFFF_0000 <= addr < 0xFFFF_1000 then BIOS9
    else match addr / 0x100_0000
      case 0x02 => MainRAM
      case 0x03 =>
        if NewWramAt(c, 0, addr) != Other then NewWramAt(c, 0, addr)
        else if c.Swram(0).Shared? then SharedWRAM else Other
      case 0x04 => IO9
      case 0x06 => VRAM
      case 0x0C => if c.dsi then MainRAM else Other
      case _ => Other
  }

  function ClassifyAddress7(c: Config, addr: Word): Region {
    if c.dsi && addr < 0x1_0000 && !c.scfgBios(9) then
      if addr >= 0x8000 && c.scfgBios(8) then Other else BIOS7DSi
    else if addr < 0x4000 then BIOS7
    else match addr / 0x80_0000
      case 0x04 => MainRAM
      case 0x05 => MainRAM
      case 0x06 =>
        if NewWramAt(c, 1, addr) != Other then NewWramAt(c, 1, addr)
        else if c.Swram(1).Shared? then SharedWRAM else WRAM7
      case 0x07 => WRAM7
      case 0x08 => IO7
      case 0x09 => Wifi
      case 0x0C => VWRAM
      case 0x0D => VWRAM
      case 0x18 => if c.dsi then MainRAM else Other
      case 0x19 => if c.dsi then MainRAM else Other
      case _ => Other
  }

  function Classify(c: Config, num: nat, addr: Word): Region {
    if num == 0 then ClassifyAddress9(c, addr) else ClassifyAddress7(c, addr)
  }

  // ---- The two translations ------------------------------------------------------------------

  const LOCAL := 0x800_0000

  /** `offset | region << 27`. */
  function Pack(offset: nat, region: Region): nat { region.Index() * LOCAL + offset }

  function LocaliseAddress(c: Config, region: Region, num: nat, addr: Word): nat {
    match region
    case ITCM => Pack(addr % 0x8000, ITCM)
    case MainRAM => Pack(addr % c.MainRamSize(), MainRAM)
    case BIOS9 => Pack(addr % 0x1000, BIOS9)
    case BIOS7 => Pack(addr % 0x4000, BIOS7)
    case SharedWRAM =>
      if c.Swram(num).Shared? then Pack(addr % c.Swram(num).size + c.Swram(num).offset, SharedWRAM)
          else Pack(0, SharedWRAM)
    case WRAM7 => Pack(addr % 0x1_0000, WRAM7)
    case VRAM => Pack(addr % 0x10_0000, VRAM)
    case VWRAM => Pack(addr % 0x4_0000, VWRAM)
    case NewSharedWRAM(bank) =>
      var part := c.Slot(num, bank, addr);
      if part.Part? then Pack(part.index * PartSize(bank) + addr % PartSize(bank), region) else Pack(0, Other)
    case BIOS9DSi => Pack(addr % 0x1_0000, region)
    case BIOS7DSi => Pack(addr % 0x1_0000, region)
    case _ => Pack(0, Other)
  }

  function LocaliseCodeAddress(c: Config, num: nat, addr: Word): nat {
    var region := Classify(c, num, addr);
    if region.HoldsCode() then LocaliseAddress(c, region, num, addr) else 0
  }

  /** Where a region's memory shows up around an address: the window, and the offset of its start. */
  datatype Mirror = NoMirror | Mirror(offset: nat, start: nat, size: nat)

  function Aligned(addr: Word, size: nat, offset: nat): Mirror
    requires size > 0
  {
    Mirror(offset, addr - addr % size, size)
  }

  function GetMirrorLocation(c: Config, region: Region, num: nat, addr: Word): Mirror {
    match region
    case ITCM => if num == 0 then Aligned(addr, 0x8000, 0) else NoMirror
    case DTCM => if num == 0 then Aligned(addr, 0x4000, 0) else NoMirror
    case MainRAM => Aligned(addr, c.MainRamSize(), 0)
    case BIOS9 => if num == 0 then Aligned(addr, 0x1000, 0) else NoMirror
    case BIOS7 => if num == 1 then Mirror(0, 0, 0x4000) else NoMirror
    case SharedWRAM => if num <= 1 && c.Swram(num).Shared? then Aligned(addr, c.Swram(num).size, c.Swram(num).offset)
        else NoMirror
    case WRAM7 => if num == 1 then Aligned(addr, 0x1_0000, 0) else NoMirror
    case VRAM => if num == 0 then Aligned(addr, 0x10_0000, 0) else NoMirror
    case VWRAM => if num == 1 then Aligned(addr, 0x4_0000, 0) else NoMirror
    case NewSharedWRAM(bank) =>
      var part := c.Slot(num, bank, addr);
      if part.Part? then Aligned(addr, PartSize(bank), part.index * PartSize(bank)) else NoMirror
    case BIOS9DSi => if num == 0 then Mirror(0, addr - addr % 0x1_0000, if c.scfgBios(0) then 0x8000 else 0x1_0000)
        else NoMirror
    case BIOS7DSi => if num == 1 then Mirror(0, addr - addr % 0x1_0000, if c.scfgBios(8) then 0x8000 else 0x1_0000)
        else NoMirror
    case _ => NoMirror
  }

  /** The window set up for an address: a region's lookup table from entry `first` on. */
  datatype Window = NoWindow | Window(region: Region, first: nat, start: nat, size: nat)

  function SetupExecutableRegion(c: Config, num: nat, addr: Word): Window {
    var region := Classify(c, num, addr);
    if region.HoldsCode() then
      match GetMirrorLocation(c, region, num, addr)
      case NoMirror => NoWindow
      case Mirror(offset, start, size) => Window(region, offset / 2, start, size)
    else NoWindow
  }

  /** The dispatcher keeps a window as long as this test passes; the sum is 32-bit. */
  predicate KeepsWindow(w: Window, a: Word)
    requires w.Window?
  {
    w.start <= a < (w.start + w.size) % 0x1_0000_0000
  }

  predicate InWindow(w: Window, a: Word) {
    w.Window? && w.start <= a < w.start + w.size
  }

  /** The entry of the region's table that `LookUpBlock` reads through a window. */
  function EntryIndex(w: Window, a: Word): nat
    requires InWindow(w, a)
  {
    w.first + (a - w.start) / 2
  }

  // ---- They agree ----------------------------------------------------------------------------

  lemma MirrorBase(addr: nat, a: nat, size: nat)
    requires size > 0 && addr - addr % size <= a < addr - addr % size + size
    ensures a - a % size == addr - addr % size && a / size == addr / size
  {
    var q := addr / size;
    assert addr - addr % size == size * q;
    assert a == size * q + (a - size * q);
    Quotient(a, size, q);
  }

  /** The window is the same from wherever in it one asks. */
  lemma SameMirror(c: Config, region: Region, num: nat, addr: Word, a: Word)
    requires num <= 1 && GetMirrorLocation(c, region, num, addr).Mirror?
    requires var m := GetMirrorLocation(c, region, num, addr); m.start <= a < m.start + m.size
    ensures GetMirrorLocation(c, region, num, a) == GetMirrorLocation(c, region, num, addr)
  {
    var m := GetMirrorLocation(c, region, num, addr);
    if region.BIOS9DSi? || region.BIOS7DSi? {
      MirrorBase(addr, a, 0x1_0000);
    } else if !region.BIOS7? {
      MirrorBase(addr, a, m.size);
    }
  }

  lemma LocaliseByMirror(c: Config, region: Region, num: nat, a: Word)
    requires num <= 1 && region.HoldsCode() && GetMirrorLocation(c, region, num, a).Mirror?
    requires region.BIOS7? ==> a < 0x4000
    ensures var m := GetMirrorLocation(c, region, num, a);
            m.start <= a && LocaliseAddress(c, region, num, a) == Pack(m.offset + (a - m.start), region)
  {
    hide LocaliseAddress, GetMirrorLocation, Pack;
    if region.SharedWRAM? {
      SwramByMirror(c, num, a);
    } else if region.NewSharedWRAM? {
      PartByMirror(c, region.bank, num, a);
    } else {
      LocalisePlain(c, region, num, a);
      MirrorPlain(c, region, num, a);
    }
  }

  lemma SwramByMirror(c: Config, num: nat, a: Word)
    requires GetMirrorLocation(c, SharedWRAM, num, a).Mirror?
    ensures var m := GetMirrorLocation(c, SharedWRAM, num, a);
            m.start <= a && LocaliseAddress(c, SharedWRAM, num, a) == Pack(m.offset + (a - m.start), SharedWRAM)
  {
    hide Pack, Config.Swram;
    SwramSizes(c, num);
    AtMost(a, c.Swram(num).size);
  }

  lemma PartByMirror(c: Config, bank: nat, num: nat, a: Word)
    requires GetMirrorLocation(c, NewSharedWRAM(bank), num, a).Mirror?
    ensures var m := GetMirrorLocation(c, NewSharedWRAM(bank), num, a);
            m.start <= a && LocaliseAddress(c, NewSharedWRAM(bank), num, a)
                == Pack(m.offset + (a - m.start), NewSharedWRAM(bank))
  {
    hide Pack, Config.Slot, PartSize;
    PartWhole(0, bank);
    AtMost(a, PartSize(bank));
  }

  lemma AtMost(a: nat, n: nat)
    requires n > 0
    ensures 0 <= a % n <= a
  {
  }

  lemma MirrorPlain(c: Config, region: Region, num: nat, a: Word)
    requires region.HoldsCode() && !region.SharedWRAM? && !region.NewSharedWRAM?
    requires GetMirrorLocation(c, region, num, a).Mirror? && (region.BIOS7? ==> a < 0x4000)
    ensures PlainSize(c, region) > 0
    ensures var m := GetMirrorLocation(c, region, num, a);
            m.offset == 0 && m.start <= a && a - m.start == a % PlainSize(c, region)
  {
    AtMost(a, PlainSize(c, region));
  }

  /** The window's offset plus the distance into it is the offset LocaliseAddress gives. */
  lemma MirrorAgrees(c: Config, region: Region, num: nat, addr: Word, a: Word)
    requires num <= 1 && region.HoldsCode() && GetMirrorLocation(c, region, num, addr).Mirror?
    requires var m := GetMirrorLocation(c, region, num, addr); m.start <= a < m.start + m.size
    ensures var m := GetMirrorLocation(c, region, num, addr);
            LocaliseAddress(c, region, num, a) == Pack(m.offset + (a - m.start), region)
  {
    hide LocaliseAddress;
    SameMirror(c, region, num, addr, a);
    LocaliseByMirror(c, region, num, a);
  }

  lemma PartInBounds(index: nat, size: nat)
    requires size % 2 == 0 && (index + 1) * size <= 0x4_0000
    ensures index * size + size <= 0x4_0000 && index * size % 2 == 0
  {
    assert (index + 1) * size == index * size + size;
    assert index * size == 2 * (index * (size / 2));
  }

  /** What LocaliseAddress gives stays inside the region's tables and below bit 27. */
  lemma LocalInBounds(c: Config, num: nat, region: Region, addr: Word)
    requires c.Valid() && GetMirrorLocation(c, region, num, addr).Mirror? && region.HoldsCode()
        && (region.NewSharedWRAM? ==> region.bank <= 2)
    ensures var m := GetMirrorLocation(c, region, num, addr);
        m.offset + m.size <= region.Size() <= LOCAL
        && m.offset % 2 == 0
  {
    if region.NewSharedWRAM? {
      PartInBounds(c.Slot(num, region.bank, addr).index, PartSize(region.bank));
    }
  }

  lemma BiosClassified(c: Config, num: nat, addr: Word)
    ensures Classify(c, num, addr).BIOS9DSi? && c.scfgBios(0) ==> addr % 0x1_0000 < 0x8000
    ensures Classify(c, num, addr).BIOS7DSi? && c.scfgBios(8) ==> addr % 0x1_0000 < 0x8000
    ensures Classify(c, num, addr).BIOS7? ==> addr < 0x4000
  {
  }

  lemma ClassifiedInMirror(c: Config, num: nat, addr: Word)
    requires num <= 1 && SetupExecutableRegion(c, num, addr).Window?
    ensures InWindow(SetupExecutableRegion(c, num, addr), addr)
  {
    hide Classify;
    BiosClassified(c, num, addr);
  }

  /** The dispatcher can set up a window exactly for the addresses CompileBlock finds executable. */
  lemma ExecutableOrNot(c: Config, num: nat, addr: Word)
    requires num <= 1
    ensures SetupExecutableRegion(c, num, addr).Window? <==> LocaliseCodeAddress(c, num, addr) != 0
  {
    hide Classify, GetMirrorLocation, LocaliseAddress;
    ClassifiedFor(c, num, addr);
    if Classify(c, num, addr).HoldsCode() {
      ExecutableIn(c, Classify(c, num, addr), num, addr);
    }
  }

  lemma ExecutableIn(c: Config, region: Region, num: nat, addr: Word)
    requires num <= 1 && region.HoldsCode() && BelongsTo(c, region, num)
    ensures GetMirrorLocation(c, region, num, addr).Mirror? <==> LocaliseAddress(c, region, num, addr) != 0
  {
    if region.NewSharedWRAM? {
      hide Config.Swram;
      PartExecutable(c, region.bank, num, addr);
    } else if region.SharedWRAM? {
      hide Config.Slot;
    } else {
      hide Config.Swram, Config.Slot;
    }
  }

  lemma PartExecutable(c: Config, bank: nat, num: nat, addr: Word)
    ensures LocaliseAddress(c, NewSharedWRAM(bank), num, addr) != 0 <==> c.Slot(num, bank, addr).Part?
  {
    hide Config.Slot, PartSize;
    var part := c.Slot(num, bank, addr);
    if part.Part? {
      MulMono(PartSize(bank), 0, part.index);
      PartWhole(0, bank);
    }
  }

  /** Each region is one CPU's or both's. */
  lemma ClassifiedFor(c: Config, num: nat, addr: Word)
    requires num <= 1
    ensures BelongsTo(c, Classify(c, num, addr), num)
  {
    hide Config.Swram;
  }

  predicate BelongsTo(c: Config, region: Region, num: nat) {
    match region
    case ITCM => num == 0
    case BIOS9 => num == 0
    case VRAM => num == 0
    case BIOS9DSi => num == 0
    case BIOS7 => num == 1
    case WRAM7 => num == 1
    case VWRAM => num == 1
    case BIOS7DSi => num == 1
    case SharedWRAM => c.Swram(num).Shared?
    case _ => true
  }

  lemma KeptIsInWindow(w: Window, a: Word)
    requires w.Window? && w.start + w.size <= 0x1_0000_0000 && KeepsWindow(w, a)
    ensures InWindow(w, a)
  {
  }

  lemma ClassifiedBank(c: Config, num: nat, addr: Word)
    ensures Classify(c, num, addr).NewSharedWRAM? ==> Classify(c, num, addr).bank <= 2
  {
  }

  /** The two translations agree: for every executable address, and every address of the same region in
      its window, the entry the dispatcher reads is inside the region's table and is the slot of the local
      address CompileBlock writes to. */
  lemma TranslationsAgree(c: Config, num: nat, addr: Word, a: Word)
    requires c.Valid() && num <= 1
    requires InWindow(SetupExecutableRegion(c, num, addr), a) && Classify(c, num, a) == Classify(c, num, addr)
    ensures var w := SetupExecutableRegion(c, num, addr);
            && w.region == Classify(c, num, addr) && EntryIndex(w, a) < w.region.Size() / 2
            && Slot(LocaliseCodeAddress(c, num, a)) == w.region.Index() * (LOCAL / 2) + EntryIndex(w, a)
  {
    hide LocaliseAddress, GetMirrorLocation, Classify, Pack, Slot, Region.Size;
    var region := Classify(c, num, addr);
    var m := GetMirrorLocation(c, region, num, addr);
    ClassifiedBank(c, num, addr);
    MirrorAgrees(c, region, num, addr, a);
    LocalInBounds(c, num, region, addr);
    EvenSizes(region);
    HalfOffsets(m.offset, m.size, a - m.start, region.Size());
    SlotOfPacked(m.offset + (a - m.start), region);
  }

  lemma EvenSizes(region: Region)
    ensures region.Size() % 2 == 0
  {
  }

  lemma HalfOffsets(offset: nat, size: nat, d: nat, all: nat)
    requires offset % 2 == 0 && all % 2 == 0 && d < size && offset + size <= all
    ensures (offset + d) / 2 == offset / 2 + d / 2 < all / 2
  {
  }

  lemma SlotOfPacked(offset: nat, region: Region)
    ensures Slot(Pack(offset, region)) == region.Index() * (LOCAL / 2) + offset / 2
  {
    hide Region.Index;
  }

  // ---- With the block cache ------------------------------------------------------------------

  function MappingOf(c: Config): Mapping {
    (num: nat, addr: nat) => if addr < 0x1_0000_0000 then LocaliseCodeAddress(c, num, addr) else 0
  }

  /** Both CPUs see the first four megabytes of main memory at the same addresses, unless the ARM9 has a TCM
      over them. */
  lemma MainRamLocal(c: Config, num: nat, a: Word)
    requires num <= 1 && 0x200_0000 <= a < 0x240_0000 && (num == 0 ==> ClassifyAddress9(c, a).MainRAM?)
    ensures MappingOf(c)(num, a) == 0x2000_0000 + (a - 0x200_0000)
  {
    hide ClassifyAddress9;
    assert a / 0x80_0000 == 4;
    assert Classify(c, num, a).MainRAM?;
    assert a % c.MainRamSize() == a - 0x200_0000;
  }

  /** The mapping keeps the addresses of one word in one granule. */
  lemma MappingKeepsWords(c: Config)
    requires c.WordAligned()
    ensures KeepsWords(MappingOf(c))
  {
    hide LocaliseCodeAddress;
    forall num: nat, a: nat, b: nat | a / 4 == b / 4
      ensures MappingOf(c)(num, a) / 16 == MappingOf(c)(num, b) / 16
    {
      assert a < 0x1_0000_0000 <==> a / 4 < 0x4000_0000;
      assert b < 0x1_0000_0000 <==> b / 4 < 0x4000_0000;
      if a < 0x1_0000_0000 {
        SameWordLocal(c, num, a, b);
      }
    }
  }

  lemma SameWordLocal(c: Config, num: nat, a: Word, b: Word)
    requires c.WordAligned() && a / 4 == b / 4
    ensures LocaliseCodeAddress(c, num, a) / 16 == LocaliseCodeAddress(c, num, b) / 16
  {
    hide Classify, LocaliseAddress;
    SameWordRegion(c, num, a, b);
    if Classify(c, num, a).HoldsCode() {
      SameWordIn(c, Classify(c, num, a), num, a, b);
    }
  }

  lemma SameWordRegion(c: Config, num: nat, a: Word, b: Word)
    requires c.WordAligned() && a / 4 == b / 4
    ensures Classify(c, num, a) == Classify(c, num, b)
  {
    hide ClassifyAddress9, ClassifyAddress7;
    if num == 0 {
      SameWordRegion9(c, a, b);
    } else {
      SameWordRegion7(c, a, b);
    }
  }

  lemma SameWordRegion9(c: Config, a: Word, b: Word)
    requires c.WordAligned() && a / 4 == b / 4
    ensures ClassifyAddress9(c, a) == ClassifyAddress9(c, b)
  {
    hide Config.Swram, NewWramAt;
    SameSide(a, b, c.itcmSize);
    SameSide(a, b, 0xFFFF_0000);
    SameSide(a, b, 0xFFFF_8000);
    SameSide(a, b, 0xFFFF_1000);
    SameWordNwram(c, 0, a, b);
    SamePage(a, b);
  }

  lemma SameWordRegion7(c: Config, a: Word, b: Word)
    requires c.WordAligned() && a / 4 == b / 4
    ensures ClassifyAddress7(c, a) == ClassifyAddress7(c, b)
  {
    hide Config.Swram, NewWramAt;
    SameSide(a, b, 0x1_0000);
    SameSide(a, b, 0x8000);
    SameSide(a, b, 0x4000);
    SameWordNwram(c, 1, a, b);
    SamePage(a, b);
  }

  lemma SameWordNwram(c: Config, num: nat, a: Word, b: Word)
    requires c.WordAligned() && a / 4 == b / 4
    ensures NewWramAt(c, num, a) == NewWramAt(c, num, b)
  {
    forall bank: nat
      ensures a < c.nwramStart(num, bank) <==> b < c.nwramStart(num, bank)
      ensures a < c.nwramEnd(num, bank) <==> b < c.nwramEnd(num, bank)
    {
      SameSide(a, b, c.nwramStart(num, bank));
      SameSide(a, b, c.nwramEnd(num, bank));
    }
  }

  /** No multiple of four lies between the addresses of a word. */
  lemma SameSide(a: nat, b: nat, edge: nat)
    requires a / 4 == b / 4 && edge % 4 == 0
    ensures a < edge <==> b < edge
  {
  }

  lemma SamePage(a: nat, b: nat)
    requires a / 4 == b / 4
    ensures a / 0x100_0000 == b / 0x100_0000 && a / 0x80_0000 == b / 0x80_0000
  {
    assert a / 0x100_0000 == a / 4 / 0x40_0000 && b / 0x100_0000 == b / 4 / 0x40_0000;
    assert a / 0x80_0000 == a / 4 / 0x20_0000 && b / 0x80_0000 == b / 4 / 0x20_0000;
  }

  lemma SameWordIn(c: Config, region: Region, num: nat, a: Word, b: Word)
    requires a / 4 == b / 4 && region.HoldsCode()
    ensures LocaliseAddress(c, region, num, a) / 16 == LocaliseAddress(c, region, num, b) / 16
  {
    hide *;
    if region.SharedWRAM? {
      SameWordInSwram(c, num, a, b);
    } else if region.NewSharedWRAM? {
      SameWordInPart(c, region.bank, num, a, b);
    } else {
      SameWordInPlain(c, region, num, a, b);
    }
  }

  lemma SameWordInPlain(c: Config, region: Region, num: nat, a: Word, b: Word)
    requires a / 4 == b / 4 && region.HoldsCode() && !region.SharedWRAM? && !region.NewSharedWRAM?
    ensures LocaliseAddress(c, region, num, a) / 16 == LocaliseAddress(c, region, num, b) / 16
  {
    hide *;
    LocalisePlain(c, region, num, a);
    LocalisePlain(c, region, num, b);
    SamePacked(region, a, b, PlainSize(c, region), 0);
  }

  function PlainSize(c: Config, region: Region): nat {
    if region.MainRAM? then c.MainRamSize() else region.Size()
  }

  lemma LocalisePlain(c: Config, region: Region, num: nat, a: Word)
    requires region.HoldsCode() && !region.SharedWRAM? && !region.NewSharedWRAM?
    ensures PlainSize(c, region) > 0 && PlainSize(c, region) % 16 == 0
    ensures LocaliseAddress(c, region, num, a) == Pack(a % PlainSize(c, region), region)
  {
    hide Pack;
  }

  lemma SameWordInSwram(c: Config, num: nat, a: Word, b: Word)
    requires a / 4 == b / 4
    ensures LocaliseAddress(c, SharedWRAM, num, a) / 16 == LocaliseAddress(c, SharedWRAM, num, b) / 16
  {
    hide Pack, Config.Swram;
    if c.Swram(num).Shared? {
      SwramSizes(c, num);
      SamePacked(SharedWRAM, a, b, c.Swram(num).size, c.Swram(num).offset);
    }
  }

  lemma SameWordInPart(c: Config, bank: nat, num: nat, a: Word, b: Word)
    requires a / 4 == b / 4
    ensures LocaliseAddress(c, NewSharedWRAM(bank), num, a) / 16 == LocaliseAddress(c, NewSharedWRAM(bank), num, b) / 16
  {
    hide Pack, Config.Slot, PartSize;
    PartWhole(0, bank);
    SamePacked(NewSharedWRAM(bank), a, b, PartSize(bank), 0);
    SameSlot(c, num, bank, a, b);
    if c.Slot(num, bank, a).Part? {
      var index := c.Slot(num, bank, a).index;
      PartWhole(index, bank);
      SamePacked(NewSharedWRAM(bank), a, b, PartSize(bank), index * PartSize(bank));
    }
  }

  lemma PartWhole(index: nat, bank: nat)
    ensures PartSize(bank) > 0 && PartSize(bank) % 16 == 0 && index * PartSize(bank) % 16 == 0
  {
    if bank == 0 {
      assert index * 0x1_0000 == 16 * (index * 0x1000);
    } else {
      assert index * 0x8000 == 16 * (index * 0x800);
    }
  }

  lemma SwramSizes(c: Config, num: nat)
    requires c.Swram(num).Shared?
    ensures c.Swram(num).size in {0x4000, 0x8000} && c.Swram(num).offset in {0, 0x4000}
  {
  }

  lemma SameSlot(c: Config, num: nat, bank: nat, a: nat, b: nat)
    requires a / PartSize(bank) == b / PartSize(bank)
    ensures c.Slot(num, bank, a) == c.Slot(num, bank, b)
  {
  }

  lemma SamePacked(region: Region, a: nat, b: nat, size: nat, offset: nat)
    requires a / 4 == b / 4 && size > 0 && size % 16 == 0 && offset % 16 == 0
    ensures Pack(offset + a % size, region) / 16 == Pack(offset + b % size, region) / 16
    ensures Pack(a % size + offset, region) / 16 == Pack(b % size + offset, region) / 16
    ensures a / size == b / size && (offset == 0 ==> Pack(a % size, region) / 16 == Pack(b % size, region) / 16)
  {
    hide Pack;
    GranuleFour(a);
    GranuleFour(b);
    InGranule(a, size);
    InGranule(b, size);
    PackGranule(region, a % size, b % size, offset);
    assert offset + a % size == a % size + offset && offset + b % size == b % size + offset;
  }

  lemma GranuleFour(a: nat)
    ensures a / 16 == a / 4 / 4
  {
  }

  lemma PackGranule(region: Region, x: nat, y: nat, offset: nat)
    requires x / 16 == y / 16 && offset % 16 == 0
    ensures Pack(offset + x, region) / 16 == Pack(offset + y, region) / 16
  {
    var k := region.Index() * (LOCAL / 16) + offset / 16;
    assert Pack(offset + x, region) == 16 * k + x && Pack(offset + y, region) == 16 * k + y;
    Shifted(k, x);
    Shifted(k, y);
  }

  lemma Shifted(k: nat, x: nat)
    ensures (16 * k + x) / 16 == k + x / 16
  {
  }

  /** Whole granules fit into a size, so the quotient and the granule of the remainder depend on the granule only. */
  lemma InGranule(a: nat, size: nat)
    requires size > 0 && size % 16 == 0
    ensures a / size == a / 16 / (size / 16) && a % size / 16 == a / 16 % (size / 16)
  {
    var n, g := size / 16, a / 16;
    var q, r := g / n, g % n;
    Euclid(g, n);
    assert a == 16 * (n * q + r) + a % 16;
    assert size * q == 16 * (n * q) by {
      assert size == 16 * n;
    }
    Quotient(a, size, q);
    Shifted(r, a % 16);
  }

  /** The slot a window reads for an address, whatever region the address is in. */
  function WindowSlot(w: Window, a: Word): nat
    requires InWindow(w, a)
  {
    w.region.Index() * (LOCAL / 2) + EntryIndex(w, a)
  }

  predicate WindowHits(s: State, w: Window, num: nat, a: Word)
    requires InWindow(w, a)
  {
    s.EntryAt(WindowSlot(w, a)).tag == Tag(a, num)
  }

  /** What is entered at a slot with the tag of an address is the live block that starts there. */
  lemma TagFindsBlock(s: State, mapping: Mapping, slot: nat, num: nat, a: Word)
    requires LiveOk(s, mapping) && LookupSound(s) && num <= 1 && a % 2 == 0 && Tag(a, num) != INVALID_TAG
    requires s.EntryAt(slot).tag == Tag(a, num)
    ensures a in s.Live(num) && s.Live(num)[a].data.num == num
    ensures s.EntryAt(slot).entryPoint == s.Live(num)[a].data.entryPoint && slot == Slot(mapping(num, a))
  {
    var b :| IsLive(s, b) && EntryFor(s.lookup[slot], slot, b.data);
    LiveFacts(s, mapping, b);
    assert b.data.startAddr == a && b.data.num == num;
  }

  /** The tag check accepts only that address and CPU. In a window that was set up for another address,
      even one that now lies over a different region, a hit is the live block of exactly this CPU that
      starts at exactly this address. */
  lemma WindowHitsOwnBlock(s: State, c: Config, num: nat, addr: Word, a: Word)
    requires Consistent(s, MappingOf(c)) && num <= 1 && a % 2 == 0 && Tag(a, num) != INVALID_TAG
    requires InWindow(SetupExecutableRegion(c, num, addr), a)
    ensures var w := SetupExecutableRegion(c, num, addr);
            WindowHits(s, w, num, a) ==>
              && a in s.Live(num) && s.Live(num)[a].data.num == num
              && s.EntryAt(WindowSlot(w, a)).entryPoint == s.Live(num)[a].data.entryPoint
              && WindowSlot(w, a) == Slot(LocaliseCodeAddress(c, num, a))
  {
    hide SetupExecutableRegion, LocaliseCodeAddress, LiveOk, LookupSound, CandidatesOk, NothingLost, ListsSound,
        ListsComplete, WindowSlot;
    var w := SetupExecutableRegion(c, num, addr);
    if WindowHits(s, w, num, a) {
      TagFindsBlock(s, MappingOf(c), WindowSlot(w, a), num, a);
    }
  }

  /** And what CompileBlock has just entered is hit through every window over the region. */
  lemma CompiledHitsInWindow(s: State, c: Config, e: Event, addr: Word)
    requires Consistent(s, MappingOf(c)) && c.Valid() && Enabled(s, e, MappingOf(c)) && e.Compiling?
        && !CrossRestore(s, e)
    requires e.req.startAddr < 0x1_0000_0000
    requires InWindow(SetupExecutableRegion(c, e.req.num, addr), e.req.startAddr)
    requires Classify(c, e.req.num, e.req.startAddr) == Classify(c, e.req.num, addr)
    ensures WindowHits(Step(s, e), SetupExecutableRegion(c, e.req.num, addr), e.req.num, e.req.startAddr)
  {
    hide SetupExecutableRegion, LocaliseCodeAddress, Classify, Step, Consistent, CrossRestore;
    TranslationsAgree(c, e.req.num, addr, e.req.startAddr);
    CompiledIsFound(s, MappingOf(c), e);
    CompiledWhere(c, s, e);
  }

  /** So the dispatcher, which sets a window up for the address it is at, hits what was compiled for it. */
  lemma CompiledHitsAtOnce(s: State, c: Config, e: Event)
    requires Consistent(s, MappingOf(c)) && c.Valid() && Enabled(s, e, MappingOf(c)) && e.Compiling?
        && !CrossRestore(s, e)
    requires e.req.startAddr < 0x1_0000_0000 && SetupExecutableRegion(c, e.req.num, e.req.startAddr).Window?
    ensures var w := SetupExecutableRegion(c, e.req.num, e.req.startAddr);
            InWindow(w, e.req.startAddr) && WindowHits(Step(s, e), w, e.req.num, e.req.startAddr)
  {
    hide SetupExecutableRegion, Step, Consistent, CrossRestore, Gathered;
    CompiledWhere(c, s, e);
    ClassifiedInMirror(c, e.req.num, e.req.startAddr);
    CompiledHitsInWindow(s, c, e, e.req.startAddr);
  }

  lemma CompiledWhere(c: Config, s: State, e: Event)
    requires Enabled(s, e, MappingOf(c)) && e.Compiling? && e.req.startAddr < 0x1_0000_0000
    ensures e.req.num <= 1 && e.req.startAddrLocal == LocaliseCodeAddress(c, e.req.num, e.req.startAddr)
  {
    hide LocaliseCodeAddress;
  }
}
