/**
 Which cells of memory an address names, as the bus functions of the two CPUs decide it, and whether the local
 address the JIT uses in its place identifies them. It does for every region but the video memory of the ARM9.
 Cells are halfwords, told by the offset of their first byte.
 */
module GuestMemory {
  import opened MachineWords
  import opened AddressTranslation

  // ---- Video memory --------------------------------------------------------------------------

  /** What a bank of video memory is mapped to, as far as a CPU can get at it. */
  datatype Space = Unmapped | Lcdc | EngineABg | EngineBBg | EngineAObj | EngineBObj | ForArm7

  /** The nine banks, A to I: the space each is mapped to, and there the slots of 16K (of 128K for the ARM7). */
  datatype VideoMap = VideoMap(space: nat -> Space, slots: nat -> set<nat>)
  {
    /** Only C and D can be given to the ARM7, and each to one of its slots. */
    ghost predicate Valid() {
      && (forall b | space(b).ForArm7? :: b in {2, 3})
      && forall b, s, t | space(b).ForArm7? && s in slots(b) && t in slots(b) :: s == t
    }
  }

  function BankSize(b: nat): nat {
    if b < 4 then 0x2_0000 else if b == 4 then 0x1_0000 else if b == 7 then 0x8000 else 0x4000
  }

  /** Where a bank lies in the LCDC space. */
  function LcdcStart(b: nat): nat {
    if b <= 4 then b * 0x2_0000 else match b
      case 5 => 0x9_0000
      case 6 => 0x9_4000
      case 7 => 0x9_8000
      case _ => 0xA_0000
  }

  datatype Store = Bank(b: nat) | In(region: Region)

  datatype Cell = Cell(store: Store, offset: nat)

  /** The banks in a slot; all of them are written, and what is read is the union of their bits. */
  function Banked(v: VideoMap, space: Space, slot: nat, a: Word): set<Cell> {
    set b | 0 <= b < 9 && v.space(b) == space && slot in v.slots(b) :: Cell(Bank(b), a % BankSize(b))
  }

  function LcdcCells(v: VideoMap, a: Word): set<Cell> {
    set b | 0 <= b < 9 && v.space(b).Lcdc? && LcdcStart(b) <= a % 0x10_0000 < LcdcStart(b) + BankSize(b) ::
      Cell(Bank(b), a % BankSize(b))
  }

  /** `ReadVRAM_ABG` and the others, by bits 21 to 23. */
  function VideoCells(v: VideoMap, a: Word): set<Cell> {
    match a / 0x20_0000 % 8
    case 0 => Banked(v, EngineABg, a / 0x4000 % 0x20, a)
    case 1 => Banked(v, EngineBBg, a / 0x4000 % 8, a)
    case 2 => Banked(v, EngineAObj, a / 0x4000 % 0x10, a)
    case 3 => Banked(v, EngineBObj, a / 0x4000 % 8, a)
    case _ => LcdcCells(v, a)
  }

  // ---- What the bus does ---------------------------------------------------------------------

  /** The window of new WRAM an address is in, if the CPU is allowed to use it. */
  function WindowOnBus(c: Config, num: nat, a: Word): Region {
    if !c.nwramOn(num) then Other
    else if c.nwramStart(num, 0) <= a < c.nwramEnd(num, 0) then NewSharedWRAM(0)
    else if c.nwramStart(num, 1) <= a < c.nwramEnd(num, 1) then NewSharedWRAM(1)
    else if c.nwramStart(num, 2) <= a < c.nwramEnd(num, 2) then NewSharedWRAM(2)
    else Other
  }

  /** `NDS::ARM9Read32` and its like. */
  function DsBus9(c: Config, a: Word): Region {
    if 0xFFFF_0000 <= a < 0xFFFF_1000 then BIOS9
    else match a / 0x100_0000
      case 2 => MainRAM
      case 3 => if c.Swram(0).Shared? then SharedWRAM else Other
      case 4 => IO9
      case 6 => VRAM
      case _ => Other
  }

  /** `DSi::ARM9Read32`: what it does not take itself is left to the DS. */
  function DsiBus9(c: Config, a: Word): Region {
    if a >= 0xFFFF_0000 && !c.scfgBios(1) then if a >= 0xFFFF_8000 && c.scfgBios(0) then Other else BIOS9DSi
    else match a / 0x100_0000
      case 3 => if WindowOnBus(c, 0, a) != Other then WindowOnBus(c, 0, a) else DsBus9(c, a)
      case 4 => IO9
      case 0xC => MainRAM
      case _ => DsBus9(c, a)
  }

  /** `NDS::ARM7Read32` */
  function DsBus7(c: Config, a: Word): Region {
    if a < 0x4000 then BIOS7
    else match a / 0x80_0000
      case 4 => MainRAM
      case 5 => MainRAM
      case 6 => if c.Swram(1).Shared? then SharedWRAM else WRAM7
      case 7 => WRAM7
      case 8 => IO7
      case 9 => Wifi
      case 0xC => VWRAM
      case 0xD => VWRAM
      case _ => Other
  }

  /** `DSi::ARM7Read32` */
  function DsiBus7(c: Config, a: Word): Region {
    if a < 0x1_0000 && !c.scfgBios(9) then if a >= 0x8000 && c.scfgBios(8) then Other else BIOS7DSi
    else match a / 0x80_0000
      case 6 => if WindowOnBus(c, 1, a) != Other then WindowOnBus(c, 1, a) else DsBus7(c, a)
      case 7 => if WindowOnBus(c, 1, a) != Other then WindowOnBus(c, 1, a) else DsBus7(c, a)
      case 8 => IO7
      case 0x18 => MainRAM
      case 0x19 => MainRAM
      case _ => DsBus7(c, a)
  }

  /** Where a load or store goes: the ARM9's TCMs come before the bus. */
  function BusRegion(c: Config, num: nat, a: Word): Region {
    if num != 0 then if c.dsi then DsiBus7(c, a) else DsBus7(c, a)
    else if a < c.itcmSize then ITCM
    else if c.inDtcm(a) then DTCM
    else if c.dsi then DsiBus9(c, a)
    else DsBus9(c, a)
  }

  /** The cells behind an address of a region: none if nothing is mapped there, several only in video memory. */
  function CellsIn(c: Config, v: VideoMap, region: Region, num: nat, a: Word): set<Cell> {
    match region
    case ITCM => {Cell(In(region), a % 0x8000)}
    case MainRAM => {Cell(In(region), a % c.MainRamSize())}
    case BIOS9 => {Cell(In(region), a % 0x1000)}
    case BIOS7 => {Cell(In(region), a % 0x4000)}
    case BIOS9DSi => {Cell(In(region), a % 0x1_0000)}
    case BIOS7DSi => {Cell(In(region), a % 0x1_0000)}
    case WRAM7 => {Cell(In(region), a % 0x1_0000)}
    case SharedWRAM =>
      if c.Swram(num).Shared? then {Cell(In(region), c.Swram(num).offset + a % c.Swram(num).size)} else {}
    case NewSharedWRAM(bank) =>
      var part := c.Slot(num, bank, a);
      if part.Part? then {Cell(In(region), part.index * PartSize(bank) + a % PartSize(bank))} else {}
    case VRAM => VideoCells(v, a)
    case VWRAM => Banked(v, ForArm7, a / 0x2_0000 % 2, a)
    case _ => {Cell(In(region), a)}
  }

  function Cells(c: Config, v: VideoMap, num: nat, a: Word): set<Cell> {
    CellsIn(c, v, BusRegion(c, num, a), num, a)
  }

  /** The local address a store is checked at: the bus functions name the region, and 0 stands for no check. */
  function Checked(c: Config, num: nat, a: Word): nat {
    var region := BusRegion(c, num, a);
    if region.HoldsCode() then LocaliseAddress(c, region, num, a) else 0
  }

  // ---- Local addresses -----------------------------------------------------------------------

  /** Regions that are neither of the two with video memory. */
  predicate Plain(region: Region) { region.HoldsCode() && !region.VRAM? && !region.VWRAM? }

  lemma IndexTells(r: Region, s: Region)
    ensures r.Index() == s.Index() <==> r == s
  {
  }

  lemma PackTells(o: nat, r: Region, p: nat, s: Region)
    requires o < LOCAL && p < LOCAL
    ensures Pack(o, r) == Pack(p, s) <==> o == p && r == s
    ensures Pack(o, r) / LOCAL == r.Index()
  {
    IndexTells(r, s);
  }

  lemma SwramCell(c: Config, v: VideoMap, num: nat, a: Word) returns (o: nat)
    requires c.Swram(num).Shared?
    ensures o < LOCAL && CellsIn(c, v, SharedWRAM, num, a) == {Cell(In(SharedWRAM), o)}
    ensures LocaliseAddress(c, SharedWRAM, num, a) == Pack(o, SharedWRAM)
  {
    hide Config.Swram, Pack;
    SwramSizes(c, num);
    o := c.Swram(num).offset + a % c.Swram(num).size;
  }

  lemma PartCell(c: Config, v: VideoMap, bank: nat, num: nat, a: Word) returns (o: nat)
    requires c.Valid() && bank <= 2 && LocaliseAddress(c, NewSharedWRAM(bank), num, a) != 0
    ensures o < LOCAL && CellsIn(c, v, NewSharedWRAM(bank), num, a) == {Cell(In(NewSharedWRAM(bank)), o)}
    ensures LocaliseAddress(c, NewSharedWRAM(bank), num, a) == Pack(o, NewSharedWRAM(bank))
  {
    hide PartSize;
    var part := c.Slot(num, bank, a);
    PartSizes(bank);
    PartInBounds(part.index, PartSize(bank));
    o := part.index * PartSize(bank) + a % PartSize(bank);
  }

  lemma PartSizes(bank: nat)
    ensures 0 < PartSize(bank) <= 0x1_0000 && PartSize(bank) % 2 == 0
  {
  }

  lemma WholeCell(c: Config, v: VideoMap, region: Region, num: nat, a: Word)
    requires Plain(region) && !region.SharedWRAM? && !region.NewSharedWRAM?
    ensures PlainSize(c, region) > 0
    ensures CellsIn(c, v, region, num, a) == {Cell(In(region), a % PlainSize(c, region))}
    ensures a % PlainSize(c, region) < LOCAL
  {
    SmallerThan(a, PlainSize(c, region));
  }

  lemma SmallerThan(a: nat, n: nat)
    requires n > 0
    ensures a % n < n
  {
  }

  /** In a plain region the local address is region and offset of the one cell. */
  lemma PlainCell(c: Config, v: VideoMap, region: Region, num: nat, a: Word) returns (o: nat)
    requires c.Valid() && Plain(region) && (region.NewSharedWRAM? ==> region.bank <= 2)
    requires LocaliseAddress(c, region, num, a) != 0 && (region.SharedWRAM? ==> c.Swram(num).Shared?)
    ensures o < LOCAL && CellsIn(c, v, region, num, a) == {Cell(In(region), o)}
    ensures LocaliseAddress(c, region, num, a) == Pack(o, region)
  {
    hide LocaliseAddress, CellsIn, Pack, PlainSize;
    if region.SharedWRAM? {
      o := SwramCell(c, v, num, a);
    } else if region.NewSharedWRAM? {
      o := PartCell(c, v, region.bank, num, a);
    } else {
      LocalisePlain(c, region, num, a);
      WholeCell(c, v, region, num, a);
      o := a % PlainSize(c, region);
    }
  }

  lemma Executable(c: Config, num: nat, a: Word)
    requires Checked(c, num, a) != 0
    ensures var region := BusRegion(c, num, a);
            && region.HoldsCode() && Checked(c, num, a) == LocaliseAddress(c, region, num, a)
            && (region.NewSharedWRAM? ==> region.bank <= 2) && (region.SharedWRAM? ==> c.Swram(num).Shared?)
  {
    hide LocaliseAddress, Config.Swram;
    ClassifiedShared(c, num, a);
  }

  lemma ClassifiedShared(c: Config, num: nat, a: Word)
    ensures BusRegion(c, num, a).NewSharedWRAM? ==> BusRegion(c, num, a).bank <= 2
    ensures BusRegion(c, num, a).SharedWRAM? ==> c.Swram(if num == 0 then 0 else 1).Shared?
    ensures c.Swram(num) == c.Swram(if num == 0 then 0 else 1)
  {
  }

  /** The region is the upper part of the local address. */
  lemma CheckedRegion(c: Config, v: VideoMap, num: nat, a: Word)
    requires c.Valid() && Checked(c, num, a) != 0
    ensures Checked(c, num, a) / LOCAL == BusRegion(c, num, a).Index()
  {
    hide BusRegion, Checked, CellsIn;
    var region := BusRegion(c, num, a);
    Executable(c, num, a);
    if Plain(region) {
      var o := PlainCell(c, v, region, num, a);
      PackTells(o, region, o, region);
    } else {
      PackTells(a % PlainSize(c, region), region, 0, region);
    }
  }

  /** In the ARM7's video memory it is the slot and the offset in it. */
  lemma SlotSplit(a: Word)
    ensures a % 0x4_0000 == a / 0x2_0000 % 2 * 0x2_0000 + a % 0x2_0000
  {
    var q, r := a / 0x2_0000, a % 0x2_0000;
    assert a == 0x4_0000 * (q / 2) + (q % 2 * 0x2_0000 + r);
  }

  /** Addresses with one local address name the same cells, except in the ARM9's video memory. */
  lemma SameLocal(c: Config, v: VideoMap, num: nat, a: Word, m: nat, b: Word)
    requires c.Valid() && Checked(c, num, a) == Checked(c, m, b) != 0 && !BusRegion(c, num, a).VRAM?
    ensures BusRegion(c, num, a) == BusRegion(c, m, b) && Cells(c, v, num, a) == Cells(c, v, m, b)
  {
    hide BusRegion, Checked, Pack;
    var region := BusRegion(c, num, a);
    CheckedRegion(c, v, num, a);
    CheckedRegion(c, v, m, b);
    IndexTells(region, BusRegion(c, m, b));
    Executable(c, num, a);
    Executable(c, m, b);
    if region.VWRAM? {
      PackTells(a % 0x4_0000, region, b % 0x4_0000, region);
      SlotSplit(a);
      SlotSplit(b);
      BankedAlike(v, ForArm7, a / 0x2_0000 % 2, a, b);
    } else {
      hide CellsIn;
      var o := PlainCell(c, v, region, num, a);
      var p := PlainCell(c, v, region, m, b);
      PackTells(o, region, p, region);
    }
  }

  /** The size of every bank divides that of the largest. */
  lemma WithinBank(a: nat, b: nat, k: nat)
    requires a % 0x2_0000 == b % 0x2_0000
    ensures a % BankSize(k) == b % BankSize(k)
  {
    Within(a, k);
    Within(b, k);
  }

  lemma Within(a: nat, k: nat)
    ensures a % BankSize(k) == a % 0x2_0000 % BankSize(k)
  {
    Arithmetic.ModMod(a, BankSize(k), 0x2_0000 / BankSize(k));
  }

  /** The cells of other regions. */
  lemma OtherCells(c: Config, v: VideoMap, region: Region, num: nat, a: Word)
    ensures forall x | x in CellsIn(c, v, region, num, a) ::
      if x.store.In? then x.store.region == region && !region.VRAM? && !region.VWRAM?
      else (region.VRAM? && !v.space(x.store.b).ForArm7?) || (region.VWRAM? && v.space(x.store.b).ForArm7?)
  {
  }

  /** Addresses with different local addresses have no cell in common, if one of them can hold code and is not in the
      ARM9's video memory. */
  lemma OtherLocal(c: Config, v: VideoMap, num: nat, a: Word, m: nat, b: Word)
    requires c.Valid() && v.Valid() && Checked(c, m, b) != 0 && !BusRegion(c, m, b).VRAM?
    requires Checked(c, num, a) != Checked(c, m, b)
    ensures Cells(c, v, num, a) !! Cells(c, v, m, b)
  {
    hide BusRegion, Checked, Pack, CellsIn;
    var region := BusRegion(c, m, b);
    Executable(c, m, b);
    OtherCells(c, v, BusRegion(c, num, a), num, a);
    OtherCells(c, v, region, m, b);
    if BusRegion(c, num, a) == region {
      if region.VWRAM? {
        OtherSlot(c, v, num, a, m, b);
      } else {
        OtherOffset(c, v, region, num, a, m, b);
      }
    }
  }

  lemma OtherOffset(c: Config, v: VideoMap, region: Region, num: nat, a: Word, m: nat, b: Word)
    requires c.Valid() && Plain(region) && BusRegion(c, num, a) == BusRegion(c, m, b) == region
    requires Checked(c, num, a) != Checked(c, m, b) && Checked(c, m, b) != 0
    ensures CellsIn(c, v, region, num, a) !! CellsIn(c, v, region, m, b)
  {
    hide BusRegion, LocaliseAddress, Pack, CellsIn;
    Executable(c, m, b);
    var p := PlainCell(c, v, region, m, b);
    if Checked(c, num, a) != 0 {
      Executable(c, num, a);
      var o := PlainCell(c, v, region, num, a);
      PackTells(o, region, p, region);
    } else {
      NoCells(c, v, num, a);
    }
  }

  /** Where no code can be in a region that may hold code, there is no memory. */
  lemma NoCells(c: Config, v: VideoMap, num: nat, a: Word)
    requires Checked(c, num, a) == 0 && BusRegion(c, num, a).HoldsCode()
    ensures Cells(c, v, num, a) == {}
  {
    hide BusRegion, Config.Swram, Config.Slot;
  }

  lemma OtherSlot(c: Config, v: VideoMap, num: nat, a: Word, m: nat, b: Word)
    requires v.Valid() && BusRegion(c, num, a).VWRAM? && BusRegion(c, m, b).VWRAM?
    requires Checked(c, num, a) != Checked(c, m, b)
    ensures Cells(c, v, num, a) !! Cells(c, v, m, b)
  {
    hide BusRegion;
    assert Checked(c, num, a) == Pack(a % 0x4_0000, VWRAM) && Checked(c, m, b) == Pack(b % 0x4_0000, VWRAM);
    SlotSplit(a);
    SlotSplit(b);
    forall x | x in Cells(c, v, num, a)
      ensures x !in Cells(c, v, m, b)
    {
      assert x.store.b in {2, 3} && x.offset == a % 0x2_0000;
    }
  }

  // ---- Where the local address identifies cells -----------------------------------------------

  /** Two addresses of the region that can hold code have the same cells if they have one local address, and no cell
      in common otherwise. */
  ghost predicate Identifies(c: Config, v: VideoMap, region: Region) {
    forall num: nat, a: Word, m: nat, b: Word
      | BusRegion(c, num, a) == BusRegion(c, m, b) == region && Checked(c, num, a) != 0 && Checked(c, m, b) != 0 ::
      if Checked(c, num, a) == Checked(c, m, b) then Cells(c, v, num, a) == Cells(c, v, m, b)
      else Cells(c, v, num, a) !! Cells(c, v, m, b)
  }

  /** No bank is mapped for the ARM9 to see. */
  ghost predicate NothingShown(v: VideoMap) {
    forall a: Word | 0x600_0000 <= a < 0x700_0000 :: VideoCells(v, a) == {}
  }

  lemma VideoLocal(c: Config, num: nat, a: Word)
    requires BusRegion(c, num, a).VRAM?
    ensures num == 0 && 0x600_0000 <= a < 0x700_0000
    ensures Checked(c, num, a) == Pack(a % 0x10_0000, VRAM) != 0
  {
  }

  /** Where a mapped bank is seen, there is a second address: if a 2D engine uses it, another local address with the
      same cells; if it is in the LCDC space, an address of a 2D engine with the same local address and without
      this cell. */
  lemma SeenTwice(v: VideoMap, a: Word) returns (b: Word)
    requires 0x600_0000 <= a < 0x700_0000 && VideoCells(v, a) != {}
    ensures 0x600_0000 <= b < 0x700_0000
    ensures a % 0x10_0000 == b % 0x10_0000 <==> VideoCells(v, b) != VideoCells(v, a)
  {
    hide VideoCells;
    if a / 0x20_0000 % 8 < 4 {
      b := if a % 0x20_0000 < 0x10_0000 then a + 0x8_0000 else a - 0x8_0000;
      var low := if b < a then b else a;
      HalfMegabyte(low);
      EngineCells(v, low);
    } else {
      b := 0x600_0000 + a % 0x20_0000;
      LowMegabyte(a, b);
      LcdcDiffers(v, a, b);
    }
  }

  lemma LcdcDiffers(v: VideoMap, a: Word, b: Word)
    requires a / 0x20_0000 % 8 >= 4 && b / 0x20_0000 % 8 == 0 && VideoCells(v, a) != {}
    ensures VideoCells(v, b) != VideoCells(v, a)
  {
    assert VideoCells(v, a) == LcdcCells(v, a);
    assert VideoCells(v, b) == Banked(v, EngineABg, b / 0x4000 % 0x20, b);
    var x :| x in VideoCells(v, a);
  }

  /** The engines' memory repeats every half megabyte. */
  lemma EngineCells(v: VideoMap, a: Word)
    requires a + 0x8_0000 < 0x1_0000_0000 && a / 0x20_0000 == (a + 0x8_0000) / 0x20_0000 && a / 0x20_0000 % 8 < 4
    ensures VideoCells(v, a + 0x8_0000) == VideoCells(v, a)
  {
    hide Banked;
    var b := a + 0x8_0000;
    ShiftedSlots(a);
    forall space, slot
      ensures Banked(v, space, slot, a) == Banked(v, space, slot, b)
    {
      BankedAlike(v, space, slot, a, b);
    }
  }

  lemma ShiftedSlots(a: nat)
    ensures (a + 0x8_0000) % 0x2_0000 == a % 0x2_0000
    ensures var p, q := (a + 0x8_0000) / 0x4000, a / 0x4000;
            p % 0x20 == q % 0x20 && p % 0x10 == q % 0x10 && p % 8 == q % 8
  {
    ShiftedSlot(a);
    var q := a / 0x4000;
    Arithmetic.Shift(q, 0x20, 1);
    Arithmetic.Shift(q, 0x10, 2);
    Arithmetic.Shift(q, 8, 4);
  }

  lemma ShiftedSlot(a: nat)
    ensures (a + 0x8_0000) % 0x2_0000 == a % 0x2_0000 && (a + 0x8_0000) / 0x4000 == a / 0x4000 + 32
  {
    Arithmetic.Shift(a, 0x2_0000, 4);
    Arithmetic.Shift(a, 0x4000, 32);
  }

  lemma BankedAlike(v: VideoMap, space: Space, slot: nat, a: Word, b: Word)
    requires a % 0x2_0000 == b % 0x2_0000
    ensures Banked(v, space, slot, a) == Banked(v, space, slot, b)
  {
    forall k
      ensures b % BankSize(k) == a % BankSize(k)
    {
      WithinBank(a, b, k);
    }
  }

  lemma HalfMegabyte(a: nat)
    requires a % 0x20_0000 < 0x18_0000
    ensures a / 0x20_0000 == (a + 0x8_0000) / 0x20_0000 && a % 0x10_0000 != (a + 0x8_0000) % 0x10_0000
  {
    var q := a / 0x20_0000;
    Arithmetic.Euclid(a, 0x20_0000);
    Arithmetic.Quotient(a + 0x8_0000, 0x20_0000, q);
    Halves(a);
  }

  lemma Halves(a: nat)
    ensures a % 0x10_0000 != (a + 0x8_0000) % 0x10_0000
  {
    var q, r := a / 0x10_0000, a % 0x10_0000;
    Arithmetic.Euclid(a, 0x10_0000);
    if r < 0x8_0000 {
      Arithmetic.Quotient(a + 0x8_0000, 0x10_0000, q);
    } else {
      Arithmetic.Quotient(a + 0x8_0000, 0x10_0000, q + 1);
    }
  }

  lemma LowMegabyte(a: nat, b: nat)
    requires b == 0x600_0000 + a % 0x20_0000
    ensures a % 0x10_0000 == b % 0x10_0000 && b / 0x20_0000 % 8 == 0
  {
    var q, r := a / 0x20_0000, a % 0x20_0000;
    Arithmetic.Euclid(a, 0x20_0000);
    Arithmetic.Shift(r, 0x10_0000, 2 * q);
    Arithmetic.Shift(r, 0x10_0000, 0x60);
    Arithmetic.Quotient(b, 0x20_0000, 0x30);
  }

  /** The exact condition on a region: all but the ARM9's video memory, and that too if no bank is shown in it. */
  lemma IdentifiesIff(c: Config, v: VideoMap, region: Region)
    requires c.Valid() && v.Valid() && (forall a: Word | 0x600_0000 <= a < 0x700_0000 :: BusRegion(c, 0, a).VRAM?)
    ensures Identifies(c, v, region) <==> !region.VRAM? || NothingShown(v)
  {
    hide BusRegion, Checked, CellsIn, VideoCells;
    if !region.VRAM? {
      forall num: nat, a: Word, m: nat, b: Word
        | BusRegion(c, num, a) == BusRegion(c, m, b) == region && Checked(c, num, a) != 0 && Checked(c, m, b) != 0
        ensures if Checked(c, num, a) == Checked(c, m, b) then Cells(c, v, num, a) == Cells(c, v, m, b)
          else Cells(c, v, num, a) !! Cells(c, v, m, b)
      {
        if Checked(c, num, a) == Checked(c, m, b) {
          SameLocal(c, v, num, a, m, b);
        } else {
          OtherLocal(c, v, num, a, m, b);
        }
      }
    } else if NothingShown(v) {
      forall num: nat, a: Word | BusRegion(c, num, a).VRAM?
        ensures Cells(c, v, num, a) == {}
      {
        VideoLocal(c, num, a);
        VideoOnly(c, v, num, a);
      }
    } else {
      var a: Word :| 0x600_0000 <= a < 0x700_0000 && VideoCells(v, a) != {};
      var b := SeenTwice(v, a);
      VideoLocal(c, 0, a);
      VideoLocal(c, 0, b);
      VideoOnly(c, v, 0, a);
      VideoOnly(c, v, 0, b);
    }
  }

  lemma VideoOnly(c: Config, v: VideoMap, num: nat, a: Word)
    requires BusRegion(c, num, a).VRAM?
    ensures Cells(c, v, num, a) == VideoCells(v, a)
  {
    hide BusRegion, VideoCells;
  }
}
