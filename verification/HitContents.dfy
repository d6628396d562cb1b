/**
 What a lookup hits, instruction by instruction: each is what the CPU fetches at its address now, and what was folded
 of a literal is what its load would read now.
 */
module HitContents {
  import opened MachineWords
  import opened LiteralLoads
  import opened BlockIndex
  import opened BlockSource
  import opened BlockSafety
  import opened BlockCoherence
  import opened AddressTranslation
  import opened GuestMemory
  import opened CodePlaces
  import opened GuestStores
  import opened LiteralAddresses

  // ---- What the text of a block holds --------------------------------------------------------

  /** Every halfword of every instruction is in the text ... */
  ghost predicate CodeInText(data: BlockData, mapping: Mapping) {
    forall i, h, v | 0 <= i < |data.fetched| && CodeShows(Of(data, mapping, {}), i, h, v) ::
      h in data.text && data.text[h] == v
  }

  /** ... and what is folded when these literals are invalid. */
  ghost predicate FoldedInText(data: BlockData, mapping: Mapping, after: set<nat>) {
    forall i, h | 0 <= i < |data.fetched| && h in Of(data, mapping, after).FoldedHalves(i) :: h in data.text
  }

  ghost predicate Contains(data: BlockData, mapping: Mapping) {
    CodeInText(data, mapping) && exists after: set<nat> :: FoldedInText(data, mapping, after)
  }

  lemma BuiltContains(data: BlockData, mapping: Mapping, before: set<nat>, after: set<nat>, mem: Memory)
    requires Agrees(Of(data, mapping, before), data.literalValues, mem) && MadeFrom(data, mapping, after, mem)
    requires forall h | h in data.text :: !InVideo(h)
    ensures Contains(data, mapping)
  {
    hide Folded, Noted, InVideo;
    var f, g := Of(data, mapping, before), Of(data, mapping, after);
    forall i, h, v | 0 <= i < |data.fetched| && CodeShows(Of(data, mapping, {}), i, h, v)
      ensures h in data.text && data.text[h] == v
    {
      assert CodeShows(f, i, h, v) && h in g.CodeHalves(i) && g.DependsOn(h);
      assert Recorded(f, data.literalValues, h, v);
    }
    forall i, h | 0 <= i < |data.fetched| && h in g.FoldedHalves(i)
      ensures h in data.text
    {
      assert g.DependsOn(h);
    }
    assert FoldedInText(data, mapping, after);
  }

  ghost predicate AllContain(s: State, mapping: Mapping) {
    forall x | x in s.made && x !in s.freed :: Contains(x.data, mapping)
  }

  lemma StepContains(s: State, mapping: Mapping, e: Event, mem: Memory, mem': Memory)
    requires Consistent(s, mapping) && Enabled(s, e, mapping) && AllContain(s, mapping)
    requires MemoryStep(s, e, mapping, mem, mem') && Careful(s, e, mapping)
    ensures AllContain(Step(s, e), mapping)
  {
    hide Consistent, Step, Contains, Closed, MadeFrom, Agrees, Collected, Tidy, Restores, Recorded;
    var r := Step(s, e);
    StepGrows(s, mapping, e);
    forall x | x in r.made && x !in r.freed
      ensures Contains(x.data, mapping)
    {
      if x !in s.made {
        BuiltContains(e.req, mapping, s.invalidLiterals, r.invalidLiterals, mem);
      }
    }
  }

  lemma {:induction false} RunContains(states: seq<State>, events: seq<Event>, mems: seq<Memory>, mapping: Mapping,
      n: nat)
    requires CarefulRun(states, events, mems, mapping) && n < |states|
    ensures AllContain(states[n], mapping)
  {
    hide Consistent, Step, Careful, Enabled, Contains, CrossRestore;
    if n > 0 {
      RunConsistent(states, events, mapping, n - 1);
      RunContains(states, events, mems, mapping, n - 1);
      StepContains(states[n - 1], mapping, events[n - 1], mems[n - 1], mems[n]);
    }
  }

  // ---- What is hit ---------------------------------------------------------------------------

  /** What is fetched at the instruction's address is the instruction. */
  ghost predicate FetchedNow(c: Config, v: VideoMap, union: Union, bytes: Contents, num: nat, i: Instr) {
    && (Local(c, num, i.addr) != 0 ==> Read(c, v, union, bytes, num, i.addr) == i.word % 0x1_0000)
    && (!i.thumb && i.addr + 2 < 0x1_0000_0000 && Local(c, num, i.addr + 2) != 0 ==>
          Read(c, v, union, bytes, num, i.addr + 2) == i.word / 0x1_0000)
  }

  /** The halfword at `a` was read when the block was made, and is what is read there now. */
  ghost predicate MadeOf(c: Config, v: VideoMap, union: Union, bytes: Contents, data: BlockData, num: nat, a: Word) {
    Local(c, num, a) != 0 ==>
      Local(c, num, a) in data.text && data.text[Local(c, num, a)] == Read(c, v, union, bytes, num, a)
  }

  /** An interpreted load with these registers reads from the halfword at `a`. */
  predicate HalfAccessed(i: Instr, x: Regs, a: Word) {
    && a % 2 == 0
    && if i.kind.LdrImm? || i.kind.LdrPcRel? then a / 4 == Accessed(i, x) / 4 else a / 2 == Accessed(i, x) / 2
  }

  ghost predicate TextIsNow(c: Config, v: VideoMap, union: Union, bytes: Contents, data: BlockData, num: nat) {
    forall a: Word | Local(c, num, a) != 0 && Local(c, num, a) in data.text ::
      data.text[Local(c, num, a)] == Read(c, v, union, bytes, num, a)
  }

  lemma CodeIsFetched(c: Config, v: VideoMap, union: Union, bytes: Contents, data: BlockData, k: nat)
    requires CodeInText(data, MappingOf(c)) && TextIsNow(c, v, union, bytes, data, data.num) && k < |data.fetched|
    ensures FetchedNow(c, v, union, bytes, data.num, data.fetched[k])
  {
    hide Local, Read;
    var i, f := data.fetched[k], Of(data, MappingOf(c), {});
    IsLocal(c, data.num, i.addr);
    assert CodeShows(f, k, f.Local(i.addr), i.word % 0x1_0000);
    if !i.thumb && i.addr + 2 < 0x1_0000_0000 {
      IsLocal(c, data.num, i.addr + 2);
      assert CodeShows(f, k, f.Local(i.addr + 2), i.word / 0x1_0000);
    }
  }

  lemma IsLocal(c: Config, num: nat, a: Word)
    ensures MappingOf(c)(num, a) == Local(c, num, a)
  {
  }

  lemma LiteralIsRead(c: Config, v: VideoMap, union: Union, bytes: Contents, data: BlockData, after: set<nat>, k: nat,
      x: Regs, a: Word)
    requires FoldedInText(data, MappingOf(c), after) && TextIsNow(c, v, union, bytes, data, data.num)
    requires k < |data.fetched| && FirstTry(data.fetched[k]).At? && x[15] == Wrap(data.fetched[k].R15())
    requires Folded(data.fetched[k], data.num, MappingOf(c), after) == FirstTry(data.fetched[k])
    requires HalfAccessed(data.fetched[k], x, a)
    ensures MadeOf(c, v, union, bytes, data, data.num, a)
  {
    hide Local, Read, Folded, Accessed, FirstTry, Wrap;
    var i, f := data.fetched[k], Of(data, MappingOf(c), after);
    FoldedIsAccessed(i, x);
    IsLocal(c, data.num, a);
    HalfIs(a, Accessed(i, x));
    assert f.FoldedAt(k) == At(Accessed(i, x));
    assert f.Local(a) in f.FoldedHalves(k);
  }

  lemma HalfIs(a: nat, b: nat)
    requires a % 2 == 0
    ensures a / 4 == b / 4 ==> a == b / 4 * 4 || a == b / 4 * 4 + 2
    ensures a / 2 == b / 2 ==> a == b / 2 * 2
  {
    EvenRest(a);
    if a / 4 == b / 4 {
      assert a == b / 4 * 4 + a % 4;
    }
    if a / 2 == b / 2 {
      assert a == b / 2 * 2 + a % 2;
    }
  }

  lemma EvenRest(a: nat)
    requires a % 2 == 0
    ensures a % 4 == 0 || a % 4 == 2
  {
  }

  /** After any careful run every instruction of a block that is hit is what the CPU fetches at its address, and every
      literal that was folded at the first try is made of the halfwords its load reads now. */
  lemma HitIsFetched(states: seq<State>, events: seq<Event>, mems: seq<Memory>, c: Config, v: VideoMap, union: Union,
      bytes: Contents, n: nat, num: nat, addr: Word) returns (after: set<nat>)
    requires CarefulRun(states, events, mems, MappingOf(c)) && n < |states| && Shows(c, v, union, bytes, mems[n])
    requires c.Valid() && c.WordAligned() && AllInPlace(c)
    requires num <= 1 && addr % 2 == 0 && Tag(addr, num) != INVALID_TAG
    requires LookUpBlock(states[n], num, MappingOf(c)(num, addr), addr).Hit?
    ensures addr in states[n].Live(num)
    ensures var data := states[n].Live(num)[addr].data;
            && data.num == num
            && (forall k | 0 <= k < |data.fetched| :: FetchedNow(c, v, union, bytes, num, data.fetched[k]))
            && forall k, x: Regs, a | 0 <= k < |data.fetched| && FirstTry(data.fetched[k]).At?
                  && Folded(data.fetched[k], num, MappingOf(c), after) == FirstTry(data.fetched[k])
                  && x[15] == Wrap(data.fetched[k].R15()) && HalfAccessed(data.fetched[k], x, a) ::
                MadeOf(c, v, union, bytes, data, num, a)
  {
    hide CarefulRun, Local, LookUpBlock, Read, Watched, FirstTry, Folded, Accessed, Shows, Consistent, Wrap, MappingOf,
        CodeInText, FoldedInText, FetchedNow, MadeOf, HalfAccessed, Current, Coherent;
    var data := HitContains(states, events, mems, c, n, num, addr);
    forall a: Word | Local(c, num, a) != 0 && Local(c, num, a) in data.text
      ensures data.text[Local(c, num, a)] == Read(c, v, union, bytes, num, a)
    {
      HitIsCurrent(states, events, mems, c, v, union, bytes, n, num, addr, num, a);
    }
    after :| FoldedInText(data, MappingOf(c), after);
    forall k | 0 <= k < |data.fetched|
      ensures FetchedNow(c, v, union, bytes, num, data.fetched[k])
    {
      CodeIsFetched(c, v, union, bytes, data, k);
    }
    forall k, x: Regs, a | 0 <= k < |data.fetched| && FirstTry(data.fetched[k]).At?
          && Folded(data.fetched[k], num, MappingOf(c), after) == FirstTry(data.fetched[k])
          && x[15] == Wrap(data.fetched[k].R15()) && HalfAccessed(data.fetched[k], x, a)
      ensures MadeOf(c, v, union, bytes, data, num, a)
    {
      LiteralIsRead(c, v, union, bytes, data, after, k, x, a);
    }
  }

  lemma HitContains(states: seq<State>, events: seq<Event>, mems: seq<Memory>, c: Config, n: nat, num: nat, addr: Word)
      returns (data: BlockData)
    requires CarefulRun(states, events, mems, MappingOf(c)) && n < |states| && c.Valid() && c.WordAligned()
    requires num <= 1 && addr % 2 == 0 && Tag(addr, num) != INVALID_TAG
    requires LookUpBlock(states[n], num, MappingOf(c)(num, addr), addr).Hit?
    ensures addr in states[n].Live(num) && data == states[n].Live(num)[addr].data && data.num == num
    ensures Contains(data, MappingOf(c))
  {
    hide CarefulRun, MappingOf, LookUpBlock, Contains, Current, Coherent, Consistent;
    MappingKeepsWords(c);
    CarefulLength(states, events, mems, MappingOf(c));
    CarefulRunsConsistent(states, events, mems, MappingOf(c), n);
    RunCoherent(states, events, mems, MappingOf(c), n);
    RunContains(states, events, mems, MappingOf(c), n);
    data := states[n].Live(num)[addr].data;
    LiveBlock(states[n], MappingOf(c), num, addr);
  }

  lemma LiveBlock(s: State, mapping: Mapping, num: nat, addr: nat)
    requires Consistent(s, mapping) && num <= 1 && addr in s.Live(num)
    ensures s.Live(num)[addr].data.num == num && s.Live(num)[addr] in s.made && s.Live(num)[addr] !in s.freed
  {
    hide CandidatesOk, NothingLost, ListsSound, ListsComplete, LookupSound, WellFormed;
    LiveIsLive(s, mapping, num, addr);
    LiveFacts(s, mapping, s.Live(num)[addr]);
  }
}
