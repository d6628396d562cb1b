/**
 Where the JIT takes code to be, and where the CPU fetches it: two decisions about the region of an address, in
 different files. They differ about new WRAM: the JIT looks for windows whether the CPU may use them or not, and for
 those of the ARM7 in half of the addresses the bus looks for them.
 */
module CodePlaces {
  import opened MachineWords
  import opened AddressTranslation
  import opened GuestMemory

  /** The local address of code, or 0 where no block is made. */
  function Local(c: Config, num: nat, a: Word): nat { LocaliseCodeAddress(c, num, a) }

  /** Code there is where the JIT takes it to be. */
  predicate InPlace(c: Config, num: nat, a: Word) {
    Local(c, num, a) != 0 ==> BusRegion(c, num, a) == Classify(c, num, a)
  }

  ghost predicate AllInPlace(c: Config) {
    forall num: nat, a: Word :: InPlace(c, num, a)
  }

  /** Then stores are checked where code is registered. */
  lemma CheckedIsLocal(c: Config, num: nat, a: Word)
    requires InPlace(c, num, a) && Local(c, num, a) != 0
    ensures Checked(c, num, a) == Local(c, num, a) && BusRegion(c, num, a) == Classify(c, num, a)
  {
    hide BusRegion, Classify, LocaliseAddress;
  }

  /** The address is in a window the CPU may not use, or in one the JIT does not look for. */
  predicate InOtherWindow(c: Config, num: nat, a: Word) {
    c.dsi && NewWramAt(c, if num == 0 then 0 else 1, a) != Other &&
    if num == 0 then a / 0x100_0000 == 3 && !c.nwramOn(0) && c.itcmSize <= a && !c.inDtcm(a)
    else (a / 0x80_0000 == 6 && !c.nwramOn(1)) || (a / 0x80_0000 == 7 && c.nwramOn(1))
  }

  /** Bus and JIT agree on the region of an address except there. */
  lemma SameRegionIff(c: Config, num: nat, a: Word)
    ensures BusRegion(c, num, a) == Classify(c, num, a) <==> !InOtherWindow(c, num, a)
  {
    hide Config.Swram;
    if num == 0 {
      SameRegion9(c, a);
    } else {
      SameRegion7(c, a);
    }
  }

  lemma SameWindow(c: Config, num: nat, a: Word)
    ensures c.dsi ==> WindowOnBus(c, num, a) == if c.nwramOn(num) then NewWramAt(c, num, a) else Other
    ensures !c.dsi ==> NewWramAt(c, num, a).Other?
  {
  }

  lemma SameRegion9(c: Config, a: Word)
    ensures BusRegion(c, 0, a) == ClassifyAddress9(c, a) <==> !InOtherWindow(c, 0, a)
  {
    hide Config.Swram, NewWramAt, WindowOnBus;
    SameWindow(c, 0, a);
    WindowNotShared(c, 0, a);
  }

  lemma SameRegion7(c: Config, a: Word)
    ensures BusRegion(c, 1, a) == ClassifyAddress7(c, a) <==> !InOtherWindow(c, 1, a)
  {
    hide Config.Swram, NewWramAt, WindowOnBus;
    SameWindow(c, 1, a);
    WindowNotShared(c, 1, a);
  }

  lemma WindowNotShared(c: Config, num: nat, a: Word)
    ensures NewWramAt(c, num, a) == Other || NewWramAt(c, num, a).NewSharedWRAM?
  {
  }

  /** Nothing is out of place on the DS, nor with both CPUs allowed to use new WRAM and the ARM7's windows in the lower
      half of its page. */
  lemma UsuallyInPlace(c: Config)
    requires c.dsi ==> c.nwramOn(0) && c.nwramOn(1) && forall bank | 0 <= bank < 3 :: c.nwramEnd(1, bank) <= 0x380_0000
    ensures AllInPlace(c)
  {
    hide BusRegion, Classify, LocaliseCodeAddress;
    forall num: nat, a: Word
      ensures InPlace(c, num, a)
    {
      SameRegionIff(c, num, a);
      if num != 0 && c.dsi && a / 0x80_0000 == 7 {
        LowerHalf(c, a);
      }
    }
  }

  lemma LowerHalf(c: Config, a: Word)
    requires a / 0x80_0000 == 7 && forall bank | 0 <= bank < 3 :: c.nwramEnd(1, bank) <= 0x380_0000
    ensures NewWramAt(c, 1, a) == Other
  {
    assert c.nwramEnd(1, 0) <= 0x380_0000 && c.nwramEnd(1, 1) <= 0x380_0000 && c.nwramEnd(1, 2) <= 0x380_0000;
  }

  /** Video memory is in place. */
  lemma VideoInPlace(c: Config, a: Word)
    requires Classify(c, 0, a).VRAM?
    ensures BusRegion(c, 0, a).VRAM? && Local(c, 0, a) == Checked(c, 0, a)
  {
    hide BusRegion, LocaliseAddress;
    VideoPage(c, a);
    SameRegionIff(c, 0, a);
  }

  lemma VideoPage(c: Config, a: Word)
    requires Classify(c, 0, a).VRAM?
    ensures a / 0x100_0000 == 6
  {
  }

  // ---- Words ---------------------------------------------------------------------------------

  lemma SameWordBus(c: Config, num: nat, a: Word, b: Word)
    requires c.WordAligned() && a / 4 == b / 4
    ensures BusRegion(c, num, a) == BusRegion(c, num, b)
  {
    hide Config.Swram, WindowOnBus, DsiBus9, DsiBus7, DsBus9, DsBus7;
    SameSide(a, b, c.itcmSize);
    SameWordWindow(c, 0, a, b);
    SameWordWindow(c, 1, a, b);
    SamePage(a, b);
    SameWordBus9(c, a, b);
    SameWordBus7(c, a, b);
  }

  lemma SameWordBus9(c: Config, a: Word, b: Word)
    requires c.WordAligned() && a / 4 == b / 4
    ensures DsBus9(c, a) == DsBus9(c, b) && DsiBus9(c, a) == DsiBus9(c, b)
  {
    hide Config.Swram, WindowOnBus;
    SameSide(a, b, 0xFFFF_0000);
    SameSide(a, b, 0xFFFF_8000);
    SameSide(a, b, 0xFFFF_1000);
    SameWordWindow(c, 0, a, b);
    SamePage(a, b);
  }

  lemma SameWordBus7(c: Config, a: Word, b: Word)
    requires c.WordAligned() && a / 4 == b / 4
    ensures DsBus7(c, a) == DsBus7(c, b) && DsiBus7(c, a) == DsiBus7(c, b)
  {
    hide Config.Swram, WindowOnBus;
    SameSide(a, b, 0x1_0000);
    SameSide(a, b, 0x8000);
    SameSide(a, b, 0x4000);
    SameWordWindow(c, 1, a, b);
    SamePage(a, b);
  }

  lemma SameWordWindow(c: Config, num: nat, a: Word, b: Word)
    requires c.WordAligned() && a / 4 == b / 4
    ensures WindowOnBus(c, num, a) == WindowOnBus(c, num, b)
  {
    forall bank: nat
      ensures a < c.nwramStart(num, bank) <==> b < c.nwramStart(num, bank)
      ensures a < c.nwramEnd(num, bank) <==> b < c.nwramEnd(num, bank)
    {
      SameSide(a, b, c.nwramStart(num, bank));
      SameSide(a, b, c.nwramEnd(num, bank));
    }
  }

  /** The addresses of one word are checked in one granule. */
  lemma SameWordChecked(c: Config, num: nat, a: Word, b: Word)
    requires c.WordAligned() && a / 4 == b / 4
    ensures Checked(c, num, a) / 16 == Checked(c, num, b) / 16
  {
    hide BusRegion, LocaliseAddress;
    SameWordBus(c, num, a, b);
    if BusRegion(c, num, a).HoldsCode() {
      SameWordIn(c, BusRegion(c, num, a), num, a, b);
    }
  }
}
