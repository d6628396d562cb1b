/**
 Stores as the guest makes them. A store changes the cells of a word; what is seen at any local address outside
 the granule it is checked for stays as it was, except in the ARM9's video memory, which shows its cells at several
 local addresses.
 */
module GuestStores {
  import opened MachineWords
  import opened LiteralLoads
  import opened BlockIndex
  import opened BlockSafety
  import opened BlockCoherence
  import opened AddressTranslation
  import opened GuestMemory
  import opened CodePlaces

  /** What the cells hold. */
  type Contents = Cell -> nat

  /** How the halfword at an address is made of its cells: the bits of all of them, or zero if there are none. */
  type Union = map<Cell, nat> -> nat

  function Held(cells: set<Cell>, bytes: Contents): map<Cell, nat> { map x | x in cells :: bytes(x) }

  /** What a CPU reads at an address. */
  function Read(c: Config, v: VideoMap, union: Union, bytes: Contents, num: nat, a: Word): nat {
    union(Held(Cells(c, v, num, a), bytes))
  }

  /** Address `a` of CPU `num` can hold code and has local address `h`. */
  predicate At(c: Config, num: nat, a: Word, h: nat) { num <= 1 && h != 0 && Local(c, num, a) == h }

  ghost function Somewhere(c: Config, h: nat): (p: (nat, Word))
    requires exists num: nat, a: Word :: At(c, num, a, h)
    ensures At(c, p.0, p.1, h)
  {
    var num: nat, a: Word :| At(c, num, a, h);
    (num, a)
  }

  /** Memory by local address. */
  ghost function SeenAt(c: Config, v: VideoMap, union: Union, bytes: Contents, h: nat): nat {
    if exists num: nat, a: Word :: At(c, num, a, h) then
      Read(c, v, union, bytes, Somewhere(c, h).0, Somewhere(c, h).1)
    else 0
  }

  ghost predicate Shows(c: Config, v: VideoMap, union: Union, bytes: Contents, mem: Memory) {
    forall h :: mem(h) == SeenAt(c, v, union, bytes, h)
  }

  lemma VideoIndex(c: Config, v: VideoMap, num: nat, a: Word)
    requires c.Valid() && Checked(c, num, a) != 0
    ensures InVideo(Checked(c, num, a)) <==> BusRegion(c, num, a).VRAM?
  {
    hide BusRegion, Checked;
    CheckedRegion(c, v, num, a);
    IndexTells(BusRegion(c, num, a), VRAM);
  }

  /** It is what either CPU reads at any address with that local address. */
  lemma SeenIs(c: Config, v: VideoMap, union: Union, bytes: Contents, num: nat, a: Word, h: nat)
    requires c.Valid() && AllInPlace(c) && At(c, num, a, h) && !InVideo(h)
    ensures SeenAt(c, v, union, bytes, h) == Read(c, v, union, bytes, num, a)
  {
    hide BusRegion, Checked, Local, Classify, CellsIn;
    var p := Somewhere(c, h);
    CheckedIsLocal(c, p.0, p.1);
    CheckedIsLocal(c, num, a);
    VideoIndex(c, v, p.0, p.1);
    SameLocal(c, v, p.0, p.1, num, a);
  }

  /** A store by CPU `num` to the word at `a`, or to part of it. */
  ghost predicate Stores(c: Config, v: VideoMap, num: nat, a: Word, bytes: Contents, bytes': Contents) {
    forall x: Cell | bytes'(x) != bytes(x) :: exists b: Word | b / 4 == a / 4 :: x in Cells(c, v, num, b)
  }

  lemma SameHeld(cells: set<Cell>, bytes: Contents, bytes': Contents)
    requires forall x | x in cells :: bytes'(x) == bytes(x)
    ensures Held(cells, bytes') == Held(cells, bytes)
  {
  }

  /** A store changes nothing that is seen outside the granule it is checked for, apart from video memory. */
  lemma StoreSeen(c: Config, v: VideoMap, union: Union, num: nat, a: Word, bytes: Contents, bytes': Contents, h: nat)
    requires c.Valid() && c.WordAligned() && v.Valid() && AllInPlace(c) && num <= 1
    requires Stores(c, v, num, a, bytes, bytes') && h / 16 != Checked(c, num, a) / 16 && !InVideo(h)
    ensures SeenAt(c, v, union, bytes', h) == SeenAt(c, v, union, bytes, h)
  {
    hide BusRegion, Checked, Local, Classify, CellsIn;
    if exists m: nat, b: Word :: At(c, m, b, h) {
      var p := Somewhere(c, h);
      CheckedIsLocal(c, p.0, p.1);
      VideoIndex(c, v, p.0, p.1);
      forall x | x in Cells(c, v, p.0, p.1)
        ensures bytes'(x) == bytes(x)
      {
        if bytes'(x) != bytes(x) {
          var b: Word :| b / 4 == a / 4 && x in Cells(c, v, num, b);
          SameWordChecked(c, num, a, b);
          OtherLocal(c, v, num, b, p.0, p.1);
        }
      }
      SameHeld(Cells(c, v, p.0, p.1), bytes, bytes');
    }
  }

  /** So a store is a step as the block cache sees it. */
  lemma GuestStore(s: State, c: Config, v: VideoMap, union: Union, num: nat, a: Word, bytes: Contents,
      bytes': Contents, mem: Memory, mem': Memory)
    requires c.Valid() && c.WordAligned() && v.Valid() && AllInPlace(c) && num <= 1
    requires Stores(c, v, num, a, bytes, bytes') && Shows(c, v, union, bytes, mem) && Shows(c, v, union, bytes', mem')
    ensures MemoryStep(s, Writing(Checked(c, num, a)), MappingOf(c), mem, mem')
  {
    hide Checked, SeenAt, Stores;
    forall h: nat | h / 16 != Checked(c, num, a) / 16 && !InVideo(h)
      ensures mem'(h) == mem(h)
    {
      StoreSeen(c, v, union, num, a, bytes, bytes', h);
    }
  }

  /** A store to where no code can be is not checked, and shows nowhere but in video memory. */
  lemma UncheckedStore(c: Config, v: VideoMap, union: Union, num: nat, a: Word, bytes: Contents, bytes': Contents,
      h: nat)
    requires c.Valid() && c.WordAligned() && v.Valid() && AllInPlace(c) && num <= 1
    requires Stores(c, v, num, a, bytes, bytes') && Checked(c, num, a) == 0 && !InVideo(h)
    ensures SeenAt(c, v, union, bytes', h) == SeenAt(c, v, union, bytes, h)
  {
    hide BusRegion, Checked, Local, Classify, CellsIn;
    if exists m: nat, b: Word :: At(c, m, b, h) {
      var p := Somewhere(c, h);
      CheckedIsLocal(c, p.0, p.1);
      CheckedRegion(c, v, p.0, p.1);
      Executable(c, p.0, p.1);
      CodeIndex(BusRegion(c, p.0, p.1));
      StoreSeen(c, v, union, num, a, bytes, bytes', h);
    }
  }

  lemma CodeIndex(region: Region)
    requires region.HoldsCode()
    ensures region.Index() > 0
  {
  }

  /** The JIT is coherent with the guest's memory: after any careful run, whatever code a lookup hits was made from
      what either CPU now reads at every address of what it was made from. */
  lemma HitIsCurrent(states: seq<State>, events: seq<Event>, mems: seq<Memory>, c: Config, v: VideoMap, union: Union,
      bytes: Contents, n: nat, num: nat, addr: Word, m: nat, a: Word)
    requires CarefulRun(states, events, mems, MappingOf(c)) && n < |states| && Shows(c, v, union, bytes, mems[n])
    requires c.Valid() && c.WordAligned() && AllInPlace(c)
    requires num <= 1 && addr % 2 == 0 && Tag(addr, num) != INVALID_TAG
    requires LookUpBlock(states[n], num, MappingOf(c)(num, addr), addr).Hit?
    requires Local(c, m, a) != 0 && m <= 1
    ensures addr in states[n].Live(num)
    ensures var text := states[n].Live(num)[addr].data.text;
            Local(c, m, a) in text ==> text[Local(c, m, a)] == Read(c, v, union, bytes, m, a)
  {
    hide CarefulRun, MappingOf, Local, LookUpBlock, SeenAt, Read, Watched;
    MappingKeepsWords(c);
    CarefulLength(states, events, mems, MappingOf(c));
    RunCoherent(states, events, mems, MappingOf(c), n);
    CarefulRunsConsistent(states, events, mems, MappingOf(c), n);
    LiveIsLive(states[n], MappingOf(c), num, addr);
    var data, h := states[n].Live(num)[addr].data, Local(c, m, a);
    if h in data.text {
      WatchedMeans(data, h);
      SeenIs(c, v, union, bytes, m, a, h);
    }
  }

  lemma CarefulLength(states: seq<State>, events: seq<Event>, mems: seq<Memory>, mapping: Mapping)
    requires CarefulRun(states, events, mems, mapping)
    ensures |mems| == |states| == |events| + 1
  {
  }

  lemma CarefulRunsConsistent(states: seq<State>, events: seq<Event>, mems: seq<Memory>, mapping: Mapping, n: nat)
    requires CarefulRun(states, events, mems, mapping) && n < |states|
    ensures Consistent(states[n], mapping)
  {
    hide Consistent, Step, Enabled, MemoryStep, Careful, CrossRestore;
    RunConsistent(states, events, mapping, n);
  }

  lemma WatchedMeans(data: BlockData, h: nat)
    requires Watched(data) && h in data.text
    ensures !InVideo(h)
  {
  }
}
