/**
 What every run of the block cache keeps: its four indexes stay consistent with one another, every allocated block
 has exactly one owner, and after the check before a store no live block covers what is written.
 */
module BlockSafety {
  import opened LiteralLoads
  import opened Sequences
  import opened BlockIndex
  import opened BlockSource

  // ---- The invariant -------------------------------------------------------------------------

  ghost predicate IsLive(s: State, older b: JitBlock) {
    var live := s.Live(b.data.num);
    b.data.startAddr in live && live[b.data.startAddr] == b
  }

  ghost predicate IsCandidate(s: State, older b: JitBlock) {
    b.data.instrHash in s.candidates && s.candidates[b.data.instrHash] == b
  }

  /** Every block in the map of a CPU is under its own start address and made for that CPU. */
  ghost predicate LiveOk(s: State, mapping: Mapping) {
    forall num, a | 0 <= num <= 1 && a in s.Live(num) :: var b := s.Live(num)[a];
      b.data.num == num && b.data.startAddr == a && WellFormed(b.data, mapping) && b in s.made && b !in s.freed
  }

  ghost predicate CandidatesOk(s: State, mapping: Mapping) {
    forall h | h in s.candidates :: var b := s.candidates[h];
      b.data.instrHash == h && WellFormed(b.data, mapping) && b in s.made && b !in s.freed && !IsLive(s, b)
  }

  ghost predicate NothingLost(s: State) {
    && s.freed <= s.made
    && forall b | b in s.made :: IsLive(s, b) || IsCandidate(s, b) || b in s.freed
  }

  /** Range lists name live blocks only, each once, and only blocks that lie in the range. */
  ghost predicate ListsSound(s: State) {
    forall k :: ListSound(s, k)
  }

  ghost predicate ListSound(s: State, k: nat) {
    Distinct(s.At(k).blocks) && forall b | b in s.At(k).blocks :: IsLive(s, b) && k in b.data.addressRanges
  }

  /** Every live block is on the list of every range it covers, with its mask inside `Code`. */
  ghost predicate ListsComplete(s: State) {
    forall b, j | IsLive(s, b) && 0 <= j < |b.data.addressRanges| && j < |b.data.addressMasks| ::
      b in s.At(b.data.addressRanges[j]).blocks && b.data.addressMasks[j] <= s.At(b.data.addressRanges[j]).code
  }

  /** The same while `InvalidateByAddr` has cleared the `Code` of range `key`. */
  ghost predicate ListsCompleteBut(s: State, key: nat) {
    forall b, j | IsLive(s, b) && 0 <= j < |b.data.addressRanges| && j < |b.data.addressMasks| ::
      && b in s.At(b.data.addressRanges[j]).blocks
      && (b.data.addressRanges[j] == key || b.data.addressMasks[j] <= s.At(b.data.addressRanges[j]).code)
  }

  /** Every valid lookup entry names a live block with its start address and CPU, in its slot. */
  ghost predicate LookupSound(s: State) {
    forall slot | slot in s.lookup && s.lookup[slot].tag != INVALID_TAG ::
      exists b :: IsLive(s, b) && EntryFor(s.lookup[slot], slot, b.data)
  }

  ghost predicate EntryFor(entry: Entry, slot: nat, data: BlockData) {
    data.num <= 1 && slot == Slot(data.startAddrLocal) && entry == Entry(Tag(data.startAddr, data.num), data.entryPoint)
  }

  ghost predicate Consistent(s: State, mapping: Mapping) {
    LiveOk(s, mapping) && CandidatesOk(s, mapping) && NothingLost(s) && ListsSound(s) && ListsComplete(s)
        && LookupSound(s)
  }

  // ---- TinyVector ----------------------------------------------------------------------------

  lemma RemoveAtElements<T>(s: seq<T>, i: nat)
    requires i < |s| && Distinct(s)
    ensures Distinct(RemoveAt(s, i))
    ensures forall x :: x in RemoveAt(s, i) <==> x in s && x != s[i]
  {
    var r := RemoveAt(s, i);
    assert forall k | 0 <= k < |r| :: r[k] == if k == i then s[|s| - 1] else s[k];
    forall x | x in s && x != s[i]
      ensures x in r
    {
      var k :| 0 <= k < |s| && s[k] == x;
      assert r[if k == |s| - 1 then i else k] == x;
    }
  }

  lemma RemoveByValueElements<T>(s: seq<T>, x: T)
    requires Distinct(s)
    ensures Distinct(RemoveByValue(s, x))
    ensures forall y :: y in RemoveByValue(s, x) <==> y in s && y != x
  {
    var i := IndexOf(s, x);
    if i < |s| {
      RemoveAtElements(s, i);
    }
  }

  // ---- Dropping one block --------------------------------------------------------------------

  /** Which ranges `DropFromOthers` has visited after `n` steps. */
  ghost predicate Visited(data: BlockData, n: nat, key: nat)
    requires n <= |data.addressRanges|
  {
    exists j | 0 <= j < n :: data.addressRanges[j] == key
  }

  lemma {:induction false} DropFromOthersAt(ranges: map<nat, AddressRange>, block: JitBlock, local: nat, n: nat,
      mapping: Mapping, key: nat)
    requires WellFormed(block.data, mapping) && n <= |block.data.addressRanges|
    ensures var before, after := RangeAt(ranges, key), RangeAt(DropFromOthers(ranges, block, local, n), key);
            if key != Base(local) && Visited(block.data, n, key) then
              after == AddressRange(RemoveByValue(before.blocks, block), if |RemoveByValue(before.blocks, block)| == 0
                  then {} else before.code)
            else after == before
  {
    hide WellFormed, Base, RemoveByValue, Visited;
    VisitedNone(block.data, key);
    if n > 0 {
      DropFromOthersAt(ranges, block, local, n - 1, mapping, key);
      NthRange(block.data, mapping, n - 1, key);
    }
  }

  lemma VisitedNone(data: BlockData, key: nat)
    ensures !Visited(data, 0, key)
  {
  }

  /** Ranges are aligned, and no range comes twice. */
  lemma NthRange(data: BlockData, mapping: Mapping, n: nat, key: nat)
    requires WellFormed(data, mapping) && n < |data.addressRanges|
    ensures Base(data.addressRanges[n]) == data.addressRanges[n]
    ensures Visited(data, n + 1, key) <==> Visited(data, n, key) || data.addressRanges[n] == key
    ensures Visited(data, n, key) ==> data.addressRanges[n] != key
  {
    hide Base;
  }

  lemma DropFromOthersOff(ranges: map<nat, AddressRange>, block: JitBlock, local: nat, mapping: Mapping, key: nat)
    requires WellFormed(block.data, mapping) && Distinct(RangeAt(ranges, key).blocks)
    requires block in RangeAt(ranges, key).blocks ==> key in block.data.addressRanges && key != Base(local)
    ensures var before, after := RangeAt(ranges, key),
        RangeAt(DropFromOthers(ranges, block, local, |block.data.addressRanges|), key);
            && Distinct(after.blocks)
            && (forall b :: b in after.blocks <==> b in before.blocks && b != block)
            && (after.blocks != [] ==> after.code == before.code)
            && (after.blocks == [] ==> after.code == {} || after.code == before.code)
  {
    DropFromOthersAt(ranges, block, local, |block.data.addressRanges|, mapping, key);
    RemoveByValueElements(RangeAt(ranges, key).blocks, block);
    if block in RangeAt(ranges, key).blocks {
      assert Visited(block.data, |block.data.addressRanges|, key);
    }
  }

  // ---- The sweep -----------------------------------------------------------------------------

  ghost predicate Sweeping(s: State, mapping: Mapping, key: nat) {
    LiveOk(s, mapping) && CandidatesOk(s, mapping) && NothingLost(s) && ListsSound(s) && ListsCompleteBut(s, key)
        && LookupSound(s)
  }

  lemma FirstOfList(s: State, mapping: Mapping, key: nat, i: nat)
    requires Sweeping(s, mapping, key) && i < |s.At(key).blocks|
    ensures var b := s.At(key).blocks[i];
            IsLive(s, b) && key in b.data.addressRanges && WellFormed(b.data, mapping) && b in s.made && b !in s.freed
                && MaskFor(b.data, key) != {}
  {
    var b := s.At(key).blocks[i];
    assert ListSound(s, key) && b in s.At(key).blocks;
    assert WellFormed(b.data, mapping) && b in s.made by {
      assert s.Live(b.data.num)[b.data.startAddr] == b;
      if b.data.num != 0 {
        assert b.data.startAddr in s.Live(1) && s.Live(1)[b.data.startAddr] == b;
      }
    }
  }

  /** Exactly the dropped block leaves the live maps. */
  lemma DropBlockLive(s: State, mapping: Mapping, local: nat, i: nat, x: JitBlock)
    requires Sweeping(s, mapping, Base(local)) && i < |s.At(Base(local)).blocks|
    ensures IsLive(DropBlock(s, local, i), x) <==> IsLive(s, x) && x != s.At(Base(local)).blocks[i]
  {
    FirstOfList(s, mapping, Base(local), i);
  }

  lemma DropBlockFields(s: State, local: nat, i: nat)
    requires i < |s.At(Base(local)).blocks|
    ensures var d, b := DropBlock(s, local, i), s.At(Base(local)).blocks[i];
            var h := b.data.instrHash;
            && d.made == s.made
            && (forall num :: 0 <= num <= 1 ==> d.Live(num) == if num == (if b.data.num == 0 then 0 else 1)
                then s.Live(num) - {b.data.startAddr} else s.Live(num))
            && (if local in b.data.literals then d.candidates == s.candidates && d.freed == s.freed + {b}
                else d.candidates == s.candidates[h := b] && d.freed == s.freed + if h in s.candidates
                    then {s.candidates[h]} else {})
  {
  }

  lemma DropBlockKeepsLive(s: State, mapping: Mapping, local: nat, i: nat)
    requires Sweeping(s, mapping, Base(local)) && i < |s.At(Base(local)).blocks|
    ensures LiveOk(DropBlock(s, local, i), mapping)
  {
    hide DropBlock, ListsSound, ListsCompleteBut, LookupSound, WellFormed, CandidatesOk, NothingLost, Base;
    var d, b := DropBlock(s, local, i), s.At(Base(local)).blocks[i];
    FirstOfList(s, mapping, Base(local), i);
    DropBlockFields(s, local, i);
    forall num, a | 0 <= num <= 1 && a in d.Live(num)
      ensures a in s.Live(num) && d.Live(num)[a] == s.Live(num)[a] && d.Live(num)[a] !in d.freed
    {
      DropFreesNoOther(s, mapping, local, i, s.Live(num)[a]);
    }
  }

  lemma DropFreesNoOther(s: State, mapping: Mapping, local: nat, i: nat, x: JitBlock)
    requires Sweeping(s, mapping, Base(local)) && i < |s.At(Base(local)).blocks|
    requires IsLive(s, x) && x != s.At(Base(local)).blocks[i]
    ensures x !in DropBlock(s, local, i).freed
  {
    hide DropBlock, ListsSound, ListsCompleteBut, LookupSound, WellFormed, NothingLost, Base;
    DropBlockFields(s, local, i);
    LiveFacts(s, mapping, x);
  }

  lemma DropBlockCandidates(s: State, mapping: Mapping, local: nat, i: nat)
    requires Sweeping(s, mapping, Base(local)) && i < |s.At(Base(local)).blocks|
    ensures CandidatesOk(DropBlock(s, local, i), mapping)
  {
    var d, b := DropBlock(s, local, i), s.At(Base(local)).blocks[i];
    FirstOfList(s, mapping, Base(local), i);
    DropBlockFields(s, local, i);
    forall h | h in d.candidates
      ensures !IsLive(d, d.candidates[h]) && d.candidates[h] !in d.freed
    {
      DropBlockLive(s, mapping, local, i, d.candidates[h]);
    }
    hide DropBlock, ListsSound, ListsCompleteBut, LookupSound, WellFormed;
  }

  /** It becomes a candidate, unless it is a literal that was overwritten: then it is freed. */
  lemma DropBlockOwners(s: State, mapping: Mapping, local: nat, i: nat)
    requires Sweeping(s, mapping, Base(local)) && i < |s.At(Base(local)).blocks|
    ensures var d, b := DropBlock(s, local, i), s.At(Base(local)).blocks[i];
            NothingLost(d) && (if local in b.data.literals then b in d.freed else IsCandidate(d, b))
  {
    var d, b := DropBlock(s, local, i), s.At(Base(local)).blocks[i];
    FirstOfList(s, mapping, Base(local), i);
    DropBlockFields(s, local, i);
    forall x | x in s.made
      ensures IsLive(d, x) || IsCandidate(d, x) || x in d.freed
    {
      DropBlockLive(s, mapping, local, i, x);
    }
  }

  /** Its name goes from every list; the other names and their masks stay. */
  lemma DropBlockListAt(s: State, mapping: Mapping, local: nat, i: nat, k: nat)
    requires Sweeping(s, mapping, Base(local)) && i < |s.At(Base(local)).blocks|
    ensures var d, b := DropBlock(s, local, i), s.At(Base(local)).blocks[i];
            && Distinct(d.At(k).blocks) && (forall x :: x in d.At(k).blocks <==> x in s.At(k).blocks && x != b)
            && (k != Base(local) && d.At(k).blocks != [] ==> d.At(k).code == s.At(k).code)
  {
    hide DropBlock, RemoveAt, DropFromOthers, LiveOk, CandidatesOk, NothingLost, LookupSound, ListsCompleteBut,
        WellFormed, IsLive;
    var key := Base(local);
    var range := s.At(key);
    var b := range.blocks[i];
    FirstOfList(s, mapping, key, i);
    assert ListSound(s, key) && ListSound(s, k);
    RemoveAtElements(range.blocks, i);
    var ranges := s.ranges[key := AddressRange(RemoveAt(range.blocks, i), range.code)];
    DropBlockRanges(s, local, i);
    assert k != key ==> RangeAt(ranges, k) == s.At(k);
    DropFromOthersOff(ranges, b, local, mapping, k);
  }

  lemma DropBlockRanges(s: State, local: nat, i: nat)
    requires i < |s.At(Base(local)).blocks|
    ensures var range := s.At(Base(local));
            var b := range.blocks[i];
            DropBlock(s, local, i).ranges ==
              DropFromOthers(s.ranges[Base(local) := AddressRange(RemoveAt(range.blocks, i), range.code)], b, local,
                  |b.data.addressRanges|)
  {
    hide RemoveAt, DropFromOthers;
  }

  lemma DropBlockLists(s: State, mapping: Mapping, local: nat, i: nat)
    requires Sweeping(s, mapping, Base(local)) && i < |s.At(Base(local)).blocks|
    ensures ListsSound(DropBlock(s, local, i)) && ListsCompleteBut(DropBlock(s, local, i), Base(local))
  {
    hide DropBlock, LiveOk, CandidatesOk, NothingLost, LookupSound;
    var d := DropBlock(s, local, i);
    forall k
      ensures ListSound(d, k)
    {
      assert ListSound(s, k);
      DropBlockListAt(s, mapping, local, i, k);
      forall x | x in d.At(k).blocks
        ensures IsLive(d, x) && k in x.data.addressRanges
      {
        assert x in s.At(k).blocks;
        DropBlockLive(s, mapping, local, i, x);
      }
      assert Distinct(d.At(k).blocks);
    }
    forall x, j | IsLive(d, x) && 0 <= j < |x.data.addressRanges| && j < |x.data.addressMasks|
      ensures x in d.At(x.data.addressRanges[j]).blocks
      ensures x.data.addressRanges[j] == Base(local) || x.data.addressMasks[j] <= d.At(x.data.addressRanges[j]).code
    {
      DropBlockLive(s, mapping, local, i, x);
      DropBlockListAt(s, mapping, local, i, x.data.addressRanges[j]);
    }
  }

  lemma DropBlockLookup(s: State, mapping: Mapping, local: nat, i: nat)
    requires Sweeping(s, mapping, Base(local)) && i < |s.At(Base(local)).blocks|
    ensures LookupSound(DropBlock(s, local, i))
  {
    var d, b := DropBlock(s, local, i), s.At(Base(local)).blocks[i];
    FirstOfList(s, mapping, Base(local), i);
    forall slot | slot in d.lookup && d.lookup[slot].tag != INVALID_TAG
      ensures exists x :: IsLive(d, x) && EntryFor(d.lookup[slot], slot, x.data)
    {
      assert slot != Slot(b.data.startAddrLocal) && d.lookup[slot] == s.lookup[slot];
      var x :| IsLive(s, x) && EntryFor(s.lookup[slot], slot, x.data);
      DropBlockLive(s, mapping, local, i, x);
    }
  }

  lemma DropBlockSafe(s: State, mapping: Mapping, local: nat, i: nat)
    requires Sweeping(s, mapping, Base(local)) && i < |s.At(Base(local)).blocks|
    ensures Sweeping(DropBlock(s, local, i), mapping, Base(local))
  {
    DropBlockKeepsLive(s, mapping, local, i);
    DropBlockCandidates(s, mapping, local, i);
    DropBlockOwners(s, mapping, local, i);
    DropBlockLists(s, mapping, local, i);
    DropBlockLookup(s, mapping, local, i);
  }

  /** The sweep empties the list: exactly the blocks on it leave the live maps, and lookup entries
      change only in their slots. */
  lemma {:induction false} SweepSafe(s: State, mapping: Mapping, local: nat)
    requires Sweeping(s, mapping, Base(local))
    ensures var r := Sweep(s, local, 0);
            && Sweeping(r, mapping, Base(local)) && r.At(Base(local)).blocks == []
            && (forall x :: IsLive(r, x) <==> IsLive(s, x) && x !in s.At(Base(local)).blocks)
            && (forall slot :: r.EntryAt(slot) == s.EntryAt(slot) || exists x ::
                x in s.At(Base(local)).blocks
                && slot == Slot(x.data.startAddrLocal))
    decreases |s.At(Base(local)).blocks|
  {
    var key := Base(local);
    if s.At(key).blocks != [] {
      hide DropBlock, Sweeping, IsLive;
      var d, b := DropBlock(s, local, 0), s.At(key).blocks[0];
      assert MaskFor(b.data, key) != {} by { FirstOfList(s, mapping, key, 0); }
      assert MaskFor(b.data, key) * MaskFor(b.data, key) == MaskFor(b.data, key);
      assert Sweep(s, local, 0) == Sweep(d, local, 0);
      DropBlockSafe(s, mapping, local, 0);
      DropBlockListAt(s, mapping, local, 0, key);
      SweepSafe(d, mapping, local);
      forall x: JitBlock {
        DropBlockLive(s, mapping, local, 0, x);
      }
      forall slot
        ensures Sweep(s, local, 0).EntryAt(slot) == s.EntryAt(slot) || exists x ::
            x in s.At(key).blocks
            && slot == Slot(x.data.startAddrLocal)
      {
        DropBlockEntries(s, local, 0, slot);
      }
    }
  }

  lemma DropBlockEntries(s: State, local: nat, i: nat, slot: nat)
    requires i < |s.At(Base(local)).blocks|
    ensures DropBlock(s, local, i).EntryAt(slot) == s.EntryAt(slot)
        || slot == Slot(s.At(Base(local)).blocks[i].data.startAddrLocal)
  {
  }

  // ---- Invalidation --------------------------------------------------------------------------

  /** The list predicates depend on the live maps and the ranges only ... */
  lemma SameLists(s: State, r: State)
    requires r.live9 == s.live9 && r.live7 == s.live7 && r.ranges == s.ranges
    ensures forall num :: r.Live(num) == s.Live(num)
    ensures forall x: JitBlock :: IsLive(r, x) == IsLive(s, x)
    ensures (ListsSound(s) ==> ListsSound(r)) && (ListsComplete(s) ==> ListsComplete(r))
  {
    assert forall k :: r.At(k) == s.At(k);
    if ListsSound(s) {
      forall k
        ensures ListSound(r, k)
      {
        assert ListSound(s, k);
      }
    }
  }

  lemma SameLookup(s: State, r: State)
    requires r.live9 == s.live9 && r.live7 == s.live7 && r.lookup == s.lookup && LookupSound(s)
    ensures LookupSound(r)
  {
    forall slot | slot in r.lookup && r.lookup[slot].tag != INVALID_TAG
      ensures exists x :: IsLive(r, x) && EntryFor(r.lookup[slot], slot, x.data)
    {
      var x :| IsLive(s, x) && EntryFor(s.lookup[slot], slot, x.data);
      assert IsLive(r, x);
    }
  }

  /** ... and with the lookup table unchanged too, all indexes stay sound. */
  lemma SameIndexes(s: State, r: State)
    requires r.live9 == s.live9 && r.live7 == s.live7 && r.ranges == s.ranges && r.lookup == s.lookup
    ensures forall num :: r.Live(num) == s.Live(num)
    ensures forall x: JitBlock :: IsLive(r, x) == IsLive(s, x)
    ensures (ListsSound(s) ==> ListsSound(r)) && (ListsComplete(s) ==> ListsComplete(r))
        && (LookupSound(s) ==> LookupSound(r))
  {
    SameLists(s, r);
    if LookupSound(s) {
      SameLookup(s, r);
    }
  }

  lemma ClearSafe(s: State, mapping: Mapping, key: nat)
    requires Consistent(s, mapping)
    ensures var r := s.(ranges := s.ranges[key := s.At(key).(code := {})]);
            Sweeping(r, mapping, key) && r.At(key).blocks == s.At(key).blocks
  {
    var r := s.(ranges := s.ranges[key := s.At(key).(code := {})]);
    assert forall k :: r.At(k).blocks == s.At(k).blocks && (k != key ==> r.At(k) == s.At(k));
    assert forall x: JitBlock :: IsLive(r, x) == IsLive(s, x);
    assert forall num :: r.Live(num) == s.Live(num);
    assert ListsSound(r) by {
      forall k
        ensures ListSound(r, k)
      {
        assert ListSound(s, k);
      }
    }
    SameLookup(s, r);
  }

  lemma LiveFacts(s: State, mapping: Mapping, x: JitBlock)
    requires LiveOk(s, mapping) && IsLive(s, x)
    ensures WellFormed(x.data, mapping) && x in s.made && x !in s.freed
  {
    if x.data.num != 0 {
      assert x.data.startAddr in s.Live(1);
    }
  }

  /** `InvalidateByAddr` drops exactly the blocks with code in the 512-byte range of `local`. */
  lemma InvalidateSafe(s: State, mapping: Mapping, local: nat)
    requires Consistent(s, mapping)
    ensures var r := InvalidateByAddr(s, local);
            Consistent(r, mapping) && forall x :: IsLive(r, x) <==> IsLive(s, x) && Base(local) !in x.data.addressRanges
  {
    hide Sweep;
    var key := Base(local);
    var cleared := s.(ranges := s.ranges[key := s.At(key).(code := {})]);
    ClearSafe(s, mapping, key);
    SweepSafe(cleared, mapping, local);
    var r := Sweep(cleared, local, 0);
    assert ListSound(r, key) && ListSound(s, key);
    forall x: JitBlock
      ensures IsLive(r, x) <==> IsLive(s, x) && key !in x.data.addressRanges
    {
      assert IsLive(cleared, x) == IsLive(s, x);
      if IsLive(s, x) {
        LiveFacts(s, mapping, x);
      }
    }
    forall x, j | IsLive(r, x) && 0 <= j < |x.data.addressRanges| && j < |x.data.addressMasks|
      ensures x.data.addressRanges[j] != key
    {
      assert x.data.addressRanges[j] in x.data.addressRanges;
    }
  }

  lemma {:induction false} SweepNotes(s: State, mapping: Mapping, local: nat)
    requires Sweeping(s, mapping, Base(local))
    ensures var r := Sweep(s, local, 0);
            && r.At(Base(local)).code == s.At(Base(local)).code && s.invalidLiterals <= r.invalidLiterals
            && forall x | x in s.At(Base(local)).blocks && local in x.data.literals :: local in r.invalidLiterals
    decreases |s.At(Base(local)).blocks|
  {
    var key := Base(local);
    if s.At(key).blocks != [] {
      hide DropBlock, Sweeping, IsLive;
      var d, b := DropBlock(s, local, 0), s.At(key).blocks[0];
      assert MaskFor(b.data, key) != {} by { FirstOfList(s, mapping, key, 0); }
      assert MaskFor(b.data, key) * MaskFor(b.data, key) == MaskFor(b.data, key);
      assert Sweep(s, local, 0) == Sweep(d, local, 0);
      DropBlockSafe(s, mapping, local, 0);
      DropBlockListAt(s, mapping, local, 0, key);
      DropBlockNotes(s, local, 0);
      SweepNotes(d, mapping, local);
    }
  }

  lemma DropBlockNotes(s: State, local: nat, i: nat)
    requires i < |s.At(Base(local)).blocks|
    ensures var d := DropBlock(s, local, i);
            && d.At(Base(local)).code == s.At(Base(local)).code && s.invalidLiterals <= d.invalidLiterals
            && (local in s.At(Base(local)).blocks[i].data.literals ==> local in d.invalidLiterals)
  {
  }

  /** A store to a literal of a live block that covers it makes the literal invalid, and leaves no code known in
      its range. */
  lemma StoreNotesLiteral(s: State, mapping: Mapping, local: nat, x: JitBlock)
    requires Consistent(s, mapping) && IsLive(s, x) && WellFormed(x.data, mapping) && Covers(x.data, local)
        && local in x.data.literals
    ensures var r := CheckAndInvalidate(s, local); local in r.invalidLiterals && r.At(Base(local)).code == {}
  {
    hide Sweep;
    var key := Base(local);
    var j :| 0 <= j < |x.data.addressRanges| && x.data.addressRanges[j] == key
        && Granule(local) in x.data.addressMasks[j];
    assert x in s.At(key).blocks && x.data.addressMasks[j] <= s.At(key).code;
    var cleared := s.(ranges := s.ranges[key := s.At(key).(code := {})]);
    ClearSafe(s, mapping, key);
    SweepNotes(cleared, mapping, local);
  }

  // ---- Reset ---------------------------------------------------------------------------------

  lemma ResetSafe(s: State, mapping: Mapping)
    requires Consistent(s, mapping)
    ensures Consistent(Reset(s), mapping) && forall k :: Reset(s).At(k).blocks == []
    ensures Reset(s).freed == s.made && Reset(s).live9 == Reset(s).live7 == map[] && forall x :: !IsLive(Reset(s), x)
  {
    var r := Reset(s);
    forall k
      ensures r.At(k).blocks == []
    {
      assert ListSound(s, k);
      if s.At(k).blocks != [] {
        var b := s.At(k).blocks[0];
        assert b in s.At(k).blocks && IsLive(s, b) && k in b.data.addressRanges;
        LiveFacts(s, mapping, b);
        var j :| 0 <= j < |b.data.addressRanges| && b.data.addressRanges[j] == k;
        assert Base(s.Live(b.data.num)[b.data.startAddr].data.addressRanges[j]) == k;
        assert Touches(s.Live(b.data.num), k);
      }
    }
    forall b | b in s.made
      ensures b in r.freed
    {
      if IsLive(s, b) {
        assert b in s.Live(b.data.num).Values;
      } else if IsCandidate(s, b) {
        assert b in s.candidates.Values;
      }
    }
    forall b | b in r.freed
      ensures b in s.made
    {
      if b in s.live9.Values {
        var a :| a in s.Live(0) && s.Live(0)[a] == b;
      } else if b in s.live7.Values {
        var a :| a in s.Live(1) && s.Live(1)[a] == b;
      }
    }
    assert forall k :: ListSound(r, k);
  }

  // ---- Registration --------------------------------------------------------------------------

  lemma SameNumber(data: BlockData, mapping: Mapping)
    requires WellFormed(data, mapping)
    ensures |data.addressRanges| == |data.addressMasks|
  {
  }

  lemma {:induction false} AddToRangesAt(ranges: map<nat, AddressRange>, block: JitBlock, n: nat, mapping: Mapping,
      key: nat)
    requires WellFormed(block.data, mapping) && n <= |block.data.addressRanges|
    ensures var before, after := RangeAt(ranges, key), RangeAt(AddToRanges(ranges, block, n), key);
            && (if Visited(block.data, n, key) then after.blocks == before.blocks + [block] else after == before)
            && before.code <= after.code
            && forall j | 0 <= j < n && block.data.addressRanges[j] == key :: block.data.addressMasks[j] <= after.code
  {
    hide WellFormed, Base, Visited;
    VisitedNone(block.data, key);
    SameNumber(block.data, mapping);
    if n > 0 {
      AddToRangesAt(ranges, block, n - 1, mapping, key);
      NthRange(block.data, mapping, n - 1, key);
    }
  }

  /** Everything but the block about to be registered is in order. */
  ghost predicate Registrable(s: State, mapping: Mapping, block: JitBlock) {
    && LiveOk(s, mapping) && CandidatesOk(s, mapping) && ListsSound(s) && ListsComplete(s) && LookupSound(s)
    && s.freed <= s.made && (forall b | b in s.made && b != block :: IsLive(s, b) || IsCandidate(s, b) || b in s.freed)
    && WellFormed(block.data, mapping) && block in s.made && block !in s.freed && !IsLive(s, block)
        && !IsCandidate(s, block)
  }

  lemma RegisterLive(s: State, mapping: Mapping, req: BlockData, block: JitBlock, x: JitBlock)
    requires Registrable(s, mapping, block) && req.num <= 1 && req.startAddr !in s.Live(req.num)
    requires block.data.num == req.num && block.data.startAddr == req.startAddr
    ensures IsLive(Register(s, req, block), x) <==> IsLive(s, x) || x == block
  {
    hide CandidatesOk, ListsSound, ListsComplete, LookupSound, WellFormed, AddToRanges;
  }

  lemma RegisterLists(s: State, mapping: Mapping, req: BlockData, block: JitBlock)
    requires Registrable(s, mapping, block) && req.num <= 1 && req.startAddr !in s.Live(req.num)
    requires block.data.num == req.num && block.data.startAddr == req.startAddr
    ensures ListsSound(Register(s, req, block)) && ListsComplete(Register(s, req, block))
  {
    hide Register, LiveOk, CandidatesOk, LookupSound;
    var r, n := Register(s, req, block), |block.data.addressRanges|;
    forall k
      ensures r.At(k) == RangeAt(AddToRanges(s.ranges, block, n), k)
    {
      RegisterRanges(s, req, block, k);
    }
    forall k
      ensures ListSound(r, k)
    {
      assert ListSound(s, k);
      AddToRangesAt(s.ranges, block, n, mapping, k);
      forall x | x in r.At(k).blocks
        ensures IsLive(r, x) && k in x.data.addressRanges
      {
        RegisterLive(s, mapping, req, block, x);
      }
      assert block !in s.At(k).blocks;
    }
    forall x, j | IsLive(r, x) && 0 <= j < |x.data.addressRanges| && j < |x.data.addressMasks|
      ensures x in r.At(x.data.addressRanges[j]).blocks && x.data.addressMasks[j] <= r.At(x.data.addressRanges[j]).code
    {
      RegisterLive(s, mapping, req, block, x);
      var key := x.data.addressRanges[j];
      AddToRangesAt(s.ranges, block, n, mapping, key);
      if x == block {
        assert Visited(block.data, n, key);
      }
    }
  }

  lemma RegisterRanges(s: State, req: BlockData, block: JitBlock, k: nat)
    requires |block.data.addressRanges| == |block.data.addressMasks|
    ensures Register(s, req, block).At(k) == RangeAt(AddToRanges(s.ranges, block, |block.data.addressRanges|), k)
  {
  }

  lemma RegisterLookup(s: State, mapping: Mapping, req: BlockData, block: JitBlock)
    requires Registrable(s, mapping, block) && req.num <= 1 && req.startAddr !in s.Live(req.num)
    requires block.data.num == req.num && block.data.startAddr == req.startAddr
        && block.data.startAddrLocal == req.startAddrLocal
    ensures LookupSound(Register(s, req, block))
  {
    var r := Register(s, req, block);
    RegisterLive(s, mapping, req, block, block);
    forall slot | slot in r.lookup && r.lookup[slot].tag != INVALID_TAG
      ensures exists x :: IsLive(r, x) && EntryFor(r.lookup[slot], slot, x.data)
    {
      if slot == Slot(req.startAddrLocal) {
        assert EntryFor(r.lookup[slot], slot, block.data);
      } else {
        var x :| IsLive(s, x) && EntryFor(s.lookup[slot], slot, x.data);
        RegisterLive(s, mapping, req, block, x);
      }
    }
  }

  lemma RegisterFields(s: State, req: BlockData, block: JitBlock, num: nat)
    requires |block.data.addressRanges| == |block.data.addressMasks| && req.num <= 1 && num <= 1
    ensures var r := Register(s, req, block);
            && r.Live(num) == (if num == req.num then s.Live(num)[req.startAddr := block] else s.Live(num))
            && r.candidates == s.candidates && r.freed == s.freed && r.made == s.made
                && r.invalidLiterals == s.invalidLiterals
  {
  }

  lemma RegisterOwners(s: State, mapping: Mapping, req: BlockData, block: JitBlock)
    requires Registrable(s, mapping, block) && req.num <= 1 && req.startAddr !in s.Live(req.num)
    requires block.data.num == req.num && block.data.startAddr == req.startAddr
    ensures var r := Register(s, req, block); LiveOk(r, mapping) && CandidatesOk(r, mapping) && NothingLost(r)
  {
    hide Register, ListsSound, ListsComplete, LookupSound;
    var r := Register(s, req, block);
    RegisterFields(s, req, block, 0);
    forall x: JitBlock {
      RegisterLive(s, mapping, req, block, x);
    }
    forall num, a | 0 <= num <= 1 && a in r.Live(num)
      ensures r.Live(num)[a] == if num == req.num && a == req.startAddr then block else if a in s.Live(num)
          then s.Live(num)[a] else block
    {
      RegisterFields(s, req, block, num);
    }
    forall num, a | 0 <= num <= 1 && a in r.Live(num)
      ensures (num == req.num && a == req.startAddr) || a in s.Live(num)
    {
      RegisterFields(s, req, block, num);
    }
    forall h | h in r.candidates
      ensures !IsLive(r, r.candidates[h])
    {
      RegisterLive(s, mapping, req, block, s.candidates[h]);
    }
    forall x | x in r.made
      ensures IsLive(r, x) || IsCandidate(r, x) || x in r.freed
    {
      RegisterLive(s, mapping, req, block, x);
    }
  }

  lemma RegisterSafe(s: State, mapping: Mapping, req: BlockData, block: JitBlock)
    requires Registrable(s, mapping, block) && req.num <= 1 && req.startAddr !in s.Live(req.num)
    requires block.data.num == req.num && block.data.startAddr == req.startAddr
        && block.data.startAddrLocal == req.startAddrLocal
    ensures Consistent(Register(s, req, block), mapping)
  {
    RegisterOwners(s, mapping, req, block);
    RegisterLists(s, mapping, req, block);
    RegisterLookup(s, mapping, req, block);
  }

  // ---- Steps and runs ------------------------------------------------------------------------

  datatype Event =
    | Compiling(req: BlockData, block: JitBlock, writes: seq<nat>, full: bool)  // CompileBlock
    | Writing(local: nat)                                                       // CheckAndInvalidate before a store
    | Resetting                                                                 // ResetBlockCache

  ghost predicate Enabled(s: State, e: Event, mapping: Mapping) {
    e.Compiling? ==> Gathered(e.req, mapping, s.invalidLiterals) && e.block.data == e.req && e.block !in s.made
  }

  ghost function Step(s: State, e: Event): State
    requires e.Compiling? ==> e.block.data == e.req && |e.req.addressRanges| == |e.req.addressMasks|
  {
    match e
    case Compiling(req, block, writes, full) => Compile(s, req, block, writes, full)
    case Writing(local) => CheckAndInvalidate(s, local)
    case Resetting => Reset(s)
  }

  /** A block made for one CPU is about to be restored for the other. */
  predicate CrossRestore(s: State, e: Event) {
    e.Compiling? && Crosses(s, e.req)
  }

  predicate Crosses(s: State, req: BlockData) {
    req.startAddr !in s.Live(req.num) && Restores(s, req) && s.candidates[req.instrHash].data.num != req.num
  }

  /** With a fixed mapping a live block never has another local address than the one asked for. */
  lemma NeverRemapped(s: State, mapping: Mapping, req: BlockData)
    requires Consistent(s, mapping) && WellFormed(req, mapping) && req.startAddr in s.Live(req.num)
    ensures s.Live(req.num)[req.startAddr].data.startAddrLocal == req.startAddrLocal
  {
  }

  lemma SwitchOutSafe(s: State, mapping: Mapping, req: BlockData)
    requires Consistent(s, mapping) && WellFormed(req, mapping) && req.startAddr in s.Live(req.num)
    ensures Consistent(s.(lookup := s.lookup[Slot(req.startAddrLocal) :=
        Entry(Tag(req.startAddr, req.num), s.Live(req.num)[req.startAddr].data.entryPoint)]), mapping)
  {
    var b := s.Live(req.num)[req.startAddr];
    var r := s.(lookup := s.lookup[Slot(req.startAddrLocal) := Entry(Tag(req.startAddr, req.num), b.data.entryPoint)]);
    assert b.data.num == req.num && IsLive(r, b);
    SameLists(s, r);
    forall slot | slot in r.lookup && r.lookup[slot].tag != INVALID_TAG
      ensures exists x :: IsLive(r, x) && EntryFor(r.lookup[slot], slot, x.data)
    {
      if slot == Slot(req.startAddrLocal) {
        assert EntryFor(r.lookup[slot], slot, b.data);
      } else {
        var x :| IsLive(s, x) && EntryFor(s.lookup[slot], slot, x.data);
        assert IsLive(r, x);
      }
    }
  }

  /** Taking a candidate out leaves it without an owner, and only it. */
  lemma CandidateTaken(s: State, mapping: Mapping, h: nat)
    requires Consistent(s, mapping) && h in s.candidates
    ensures Registrable(s.(candidates := s.candidates - {h}), mapping, s.candidates[h])
  {
    SameIndexes(s, s.(candidates := s.candidates - {h}));
  }

  lemma CandidateFreed(s: State, mapping: Mapping, h: nat)
    requires Consistent(s, mapping) && h in s.candidates
    ensures Consistent(s.(candidates := s.candidates - {h}, freed := s.freed + {s.candidates[h]}), mapping)
  {
    var t, b := s.(candidates := s.candidates - {h}), s.candidates[h];
    var r := t.(freed := s.freed + {b});
    CandidateTaken(s, mapping, h);
    SameIndexes(t, r);
    forall num, a | 0 <= num <= 1 && a in r.Live(num)
      ensures r.Live(num)[a] == t.Live(num)[a] && r.Live(num)[a] !in r.freed
    {
      assert IsLive(t, t.Live(num)[a]);
    }
    assert CandidatesOk(r, mapping);
    assert NothingLost(r);
  }

  lemma AllocateSafe(s: State, mapping: Mapping, block: JitBlock, full: bool)
    requires Consistent(s, mapping) && WellFormed(block.data, mapping) && block !in s.made
    ensures Registrable(Allocate(s, block, full), mapping, block)
    ensures forall num :: Allocate(s, block, full).Live(num) == if full then map[] else s.Live(num)
  {
    var t := if full then Reset(s) else s;
    if full {
      ResetSafe(s, mapping);
    }
    var r := t.(made := t.made + {block});
    assert !IsLive(t, block) by {
      if IsLive(t, block) {
        LiveFacts(t, mapping, block);
      }
    }
    SameIndexes(t, r);
  }

  /** The literals found to be written while compiling are noted. */
  ghost function WithNotes(s: State, req: BlockData, writes: seq<nat>): State {
    s.(invalidLiterals := s.invalidLiterals + set w | w in writes && w in req.literals)
  }

  /** What CompileBlock comes down to with a fixed mapping. */
  lemma CompileCases(s: State, mapping: Mapping, e: Event)
    requires Consistent(s, mapping) && Enabled(s, e, mapping) && e.Compiling?
    ensures Restores(s, e.req) ==> WellFormed(s.candidates[e.req.instrHash].data, mapping)
    ensures var req, t := e.req, WithNotes(s, e.req, e.writes);
            if req.startAddr in s.Live(req.num) then InPlace(s, req) && Step(s, e) == Reentered(s, req)
            else if Restores(s, req) then Restores(t, req) && Step(s, e) == Restored(t, req)
            else Step(s, e) == Rebuilt(t, req, e.block, e.full)
  {
    hide Register, Reset, Allocate, GivenUp;
    if e.req.startAddr in s.Live(e.req.num) {
      NeverRemapped(s, mapping, e.req);
    }
  }

  lemma CompileSafe(s: State, mapping: Mapping, e: Event)
    requires Consistent(s, mapping) && Enabled(s, e, mapping) && e.Compiling? && !CrossRestore(s, e)
    ensures Consistent(Step(s, e), mapping)
  {
    hide Register, Reset, Consistent, Registrable, Step, Compile, Allocate, Collected;
    CompileCases(s, mapping, e);
    if e.req.startAddr in s.Live(e.req.num) {
      SwitchOutSafe(s, mapping, e.req);
    } else if Restores(s, e.req) {
      RestoredSafe(s, mapping, e.req, e.writes);
    } else {
      RebuiltSafe(s, mapping, e.req, e.block, e.writes, e.full);
    }
  }

  lemma RestoredSafe(s: State, mapping: Mapping, req: BlockData, writes: seq<nat>)
    requires Consistent(s, mapping) && WellFormed(req, mapping) && req.startAddr !in s.Live(req.num)
    requires Restores(s, req) && !Crosses(s, req)
    ensures Restores(WithNotes(s, req, writes), req) && Consistent(Restored(WithNotes(s, req, writes), req), mapping)
  {
    hide Register, Consistent, Registrable;
    var t := WithNotes(s, req, writes);
    CandidateWellFormed(s, mapping, req.instrHash);
    NotesSafe(s, t, mapping);
    CandidateTaken(t, mapping, req.instrHash);
    RegisterSafe(t.(candidates := t.candidates - {req.instrHash}), mapping, req, t.candidates[req.instrHash]);
  }

  lemma CandidateWellFormed(s: State, mapping: Mapping, h: nat)
    requires Consistent(s, mapping) && h in s.candidates
    ensures WellFormed(s.candidates[h].data, mapping)
  {
  }

  lemma RebuiltSafe(s: State, mapping: Mapping, req: BlockData, block: JitBlock, writes: seq<nat>, full: bool)
    requires Consistent(s, mapping) && WellFormed(req, mapping) && req.startAddr !in s.Live(req.num)
    requires block.data == req && block !in s.made
    ensures Consistent(Rebuilt(WithNotes(s, req, writes), req, block, full), mapping)
  {
    hide Register, Reset, Consistent, Allocate;
    var t := WithNotes(s, req, writes);
    NotesSafe(s, t, mapping);
    if req.instrHash in t.candidates {
      CandidateFreed(t, mapping, req.instrHash);
    }
    CompileFresh(GivenUp(t, req.instrHash), mapping, req, block, full);
  }

  /** With a fixed mapping nothing is cleared but that literals are noted. */
  lemma ClearedNotes(s: State, mapping: Mapping, req: BlockData, writes: seq<nat>)
    requires Consistent(s, mapping) && WellFormed(req, mapping)
    ensures InPlace(s, req) <==> req.startAddr in s.Live(req.num)
    ensures !InPlace(s, req) ==> Cleared(s, req, writes) == WithNotes(s, req, writes)
  {
    if req.startAddr in s.Live(req.num) {
      NeverRemapped(s, mapping, req);
    }
  }

  lemma NotesSafe(s: State, t: State, mapping: Mapping)
    requires Consistent(s, mapping) && t == s.(invalidLiterals := t.invalidLiterals)
    ensures Consistent(t, mapping)
  {
    SameIndexes(s, t);
    assert LiveOk(t, mapping);
    assert CandidatesOk(t, mapping);
    assert NothingLost(t);
  }

  lemma CompileFresh(s: State, mapping: Mapping, req: BlockData, block: JitBlock, full: bool)
    requires Consistent(s, mapping) && WellFormed(req, mapping) && block.data == req && block !in s.made
        && req.startAddr !in s.Live(req.num)
    ensures Consistent(Register(Allocate(s, block, full), req, block), mapping)
  {
    hide Register, Reset, Consistent, Registrable;
    AllocateSafe(s, mapping, block, full);
    RegisterSafe(Allocate(s, block, full), mapping, req, block);
  }

  /** Restoring a block for the wrong CPU puts it into a map it will not be erased from. */
  lemma CrossRestoreBreaks(s: State, mapping: Mapping, e: Event)
    requires Consistent(s, mapping) && Enabled(s, e, mapping) && CrossRestore(s, e)
    ensures !LiveOk(Step(s, e), mapping)
  {
    hide Step, Compile;
    CompileCases(s, mapping, e);
    var t := Step(s, e);
    assert e.req.startAddr in t.Live(e.req.num);
    assert t.Live(e.req.num)[e.req.startAddr].data.num != e.req.num;
  }

  lemma WriteSafe(s: State, mapping: Mapping, local: nat)
    requires Consistent(s, mapping)
    ensures Consistent(CheckAndInvalidate(s, local), mapping)
  {
    InvalidateSafe(s, mapping, local);
  }

  /** The exact condition: a step keeps the block cache consistent if and only if it does not restore
      for one CPU a block that was compiled for the other. */
  lemma StepConsistent(s: State, mapping: Mapping, e: Event)
    requires Consistent(s, mapping) && Enabled(s, e, mapping)
    ensures Consistent(Step(s, e), mapping) <==> !CrossRestore(s, e)
  {
    match e
    case Compiling(_, _, _, _) =>
      if CrossRestore(s, e) {
        CrossRestoreBreaks(s, mapping, e);
      } else {
        CompileSafe(s, mapping, e);
      }
    case Writing(local) =>
      WriteSafe(s, mapping, local);
    case Resetting =>
      ResetSafe(s, mapping);
  }

  const EMPTY := State(map[], map[], map[], map[], map[], {}, {}, {})

  lemma EmptyConsistent(mapping: Mapping)
    ensures Consistent(EMPTY, mapping)
  {
    assert forall k :: EMPTY.At(k).blocks == [] && ListSound(EMPTY, k);
    assert forall x: JitBlock :: !IsLive(EMPTY, x);
  }

  /** A run: every step is possible, and none is a cross restore. */
  ghost predicate SoundRun(states: seq<State>, events: seq<Event>, mapping: Mapping) {
    && |states| == |events| + 1 && states[0] == EMPTY
    && forall i | 0 <= i < |events| ::
         Enabled(states[i], events[i], mapping) && !CrossRestore(states[i], events[i])
             && states[i + 1] == Step(states[i], events[i])
  }

  lemma {:induction false} RunConsistent(states: seq<State>, events: seq<Event>, mapping: Mapping, n: nat)
    requires SoundRun(states, events, mapping) && n < |states|
    ensures Consistent(states[n], mapping)
  {
    if n == 0 {
      EmptyConsistent(mapping);
    } else {
      RunConsistent(states, events, mapping, n - 1);
      StepConsistent(states[n - 1], mapping, events[n - 1]);
    }
  }

  // ---- Consequences --------------------------------------------------------------------------

  /** Every allocated block has exactly one owner: a live map, the candidates, or nobody (it is freed). */
  lemma OneOwner(s: State, mapping: Mapping, b: JitBlock)
    requires Consistent(s, mapping) && b in s.made
    ensures IsLive(s, b) || IsCandidate(s, b) || b in s.freed
    ensures !(IsLive(s, b) && IsCandidate(s, b)) && !(IsLive(s, b) && b in s.freed)
        && !(IsCandidate(s, b) && b in s.freed)
    ensures IsCandidate(s, b) || b in s.freed ==> forall k :: b !in s.At(k).blocks
  {
    if IsLive(s, b) {
      LiveFacts(s, mapping, b);
    }
    if exists k :: b in s.At(k).blocks {
      var k :| b in s.At(k).blocks;
      assert ListSound(s, k);
    }
  }

  /** A lookup hits only the entry point of the live block with that start address and CPU. */
  lemma LookupHitsLive(s: State, mapping: Mapping, num: nat, addr: nat)
    requires Consistent(s, mapping) && num <= 1 && addr % 2 == 0 && Tag(addr, num) != INVALID_TAG
    ensures var hit := LookUpBlock(s, num, mapping(num, addr), addr);
            hit.Hit? ==>
                addr in s.Live(num) && s.Live(num)[addr].data.num == num
                && s.Live(num)[addr].data.entryPoint == hit.entryPoint
  {
    var slot := Slot(mapping(num, addr));
    if LookUpBlock(s, num, mapping(num, addr), addr).Hit? {
      var b :| IsLive(s, b) && EntryFor(s.lookup[slot], slot, b.data);
      LiveFacts(s, mapping, b);
      assert b.data.startAddr == addr && b.data.num == num;
    }
  }

  /** After CompileBlock the very next lookup hits. */
  lemma CompiledIsFound(s: State, mapping: Mapping, e: Event)
    requires Consistent(s, mapping) && Enabled(s, e, mapping) && e.Compiling? && !CrossRestore(s, e)
    ensures LookUpBlock(Step(s, e), e.req.num, e.req.startAddrLocal, e.req.startAddr).Hit?
  {
    if e.req.startAddr in s.Live(e.req.num) {
      NeverRemapped(s, mapping, e.req);
    }
  }

  lemma StoreDropsBlock(s: State, mapping: Mapping, local: nat, x: JitBlock)
    requires Consistent(s, mapping)
    ensures IsLive(CheckAndInvalidate(s, local), x) ==>
        IsLive(s, x) && WellFormed(x.data, mapping)
        && !Covers(x.data, local)
    ensures IsLive(s, x) && Base(local) !in x.data.addressRanges ==> IsLive(CheckAndInvalidate(s, local), x)
  {
    InvalidateSafe(s, mapping, local);
    if IsLive(s, x) {
      LiveFacts(s, mapping, x);
      if Covers(x.data, local) {
        var j :| 0 <= j < |x.data.addressRanges| && x.data.addressRanges[j] == Base(local)
            && Granule(local) in x.data.addressMasks[j];
        assert x.data.addressMasks[j] <= s.At(x.data.addressRanges[j]).code;
        assert x.data.addressRanges[j] in x.data.addressRanges;
      }
    }
  }

  /** After the check before a store no live block covers the stored granule; blocks outside the
      512-byte range are untouched, and blocks inside go all together or not at all. */
  lemma StoreDropsCode(s: State, mapping: Mapping, local: nat)
    requires Consistent(s, mapping)
    ensures var r := CheckAndInvalidate(s, local);
            && (forall x | IsLive(r, x) :: IsLive(s, x) && WellFormed(x.data, mapping) && !Covers(x.data, local))
            && (forall x | IsLive(s, x) && Base(local) !in x.data.addressRanges :: IsLive(r, x))
            && (r == s || forall x | IsLive(r, x) :: Base(local) !in x.data.addressRanges)
  {
    forall x: JitBlock {
      StoreDropsBlock(s, mapping, local, x);
    }
    InvalidateSafe(s, mapping, local);
  }

  // ---- What a step adds ----------------------------------------------------------------------

  /** CompileBlock makes a block: none is live or restored. */
  predicate Builds(s: State, e: Event) {
    e.Compiling? && e.req.startAddr !in s.Live(e.req.num) && !Restores(s, e.req)
  }

  /** The cache is reset, at the guest's wish or in the middle of CompileBlock. */
  predicate Clears(s: State, e: Event) {
    e.Resetting? || (Builds(s, e) && e.full)
  }

  /** CompileBlock brings at most the block it was asked for to life. */
  lemma CompileLive(s: State, mapping: Mapping, e: Event, x: JitBlock)
    requires Consistent(s, mapping) && Enabled(s, e, mapping) && e.Compiling? && !CrossRestore(s, e)
    requires IsLive(Step(s, e), x)
    ensures IsLive(s, x) || (Builds(s, e) && x == e.block)
        || (!Builds(s, e) && e.req.startAddr !in s.Live(e.req.num) && x == s.candidates[e.req.instrHash])
  {
    hide Register, Allocate, Step, Compile, Consistent, Reset;
    var req, t := e.req, WithNotes(s, e.req, e.writes);
    CompileCases(s, mapping, e);
    if req.startAddr !in s.Live(req.num) {
      if Restores(s, req) {
        RegisterAdds(t.(candidates := t.candidates - {req.instrHash}), req, s.candidates[req.instrHash], x);
      } else {
        RegisterAdds(Allocate(GivenUp(t, req.instrHash), e.block, e.full), req, e.block, x);
        AllocateLive(GivenUp(t, req.instrHash), e.block, e.full, x);
      }
    }
  }

  lemma RegisterAdds(s: State, req: BlockData, block: JitBlock, x: JitBlock)
    requires |block.data.addressRanges| == |block.data.addressMasks| && IsLive(Register(s, req, block), x)
    ensures IsLive(s, x) || x == block
  {
  }

  lemma AllocateLive(s: State, block: JitBlock, full: bool, x: JitBlock)
    ensures IsLive(Allocate(s, block, full), x) ==> IsLive(s, x)
  {
  }

  lemma LiveIsLive(s: State, mapping: Mapping, num: nat, addr: nat)
    requires Consistent(s, mapping) && num <= 1 && addr in s.Live(num)
    ensures IsLive(s, s.Live(num)[addr])
  {
  }

  lemma {:induction false} SweepGrows(s: State, local: nat, i: nat)
    ensures var r := Sweep(s, local, i);
        r.made == s.made && s.freed <= r.freed
        && s.invalidLiterals <= r.invalidLiterals
    decreases |s.At(Base(local)).blocks| - i
  {
    var range := s.At(Base(local));
    if i < |range.blocks| {
      hide DropFromOthers;
      var mask := MaskFor(range.blocks[i].data, Base(local));
      if mask * mask == {} {
        SweepGrows(s.(ranges := s.ranges[Base(local) := range.(code := range.code + mask)]), local, i + 1);
      } else {
        SweepGrows(DropBlock(s, local, i), local, i);
      }
    }
  }

  lemma CompileGrows(s: State, mapping: Mapping, e: Event)
    requires Consistent(s, mapping) && Enabled(s, e, mapping) && e.Compiling?
    ensures var r := Step(s, e);
            && r.made <= s.made + (if Builds(s, e) then {e.block} else {}) && s.freed <= r.freed
            && if Clears(s, e) then r.invalidLiterals == {} && s.made <= r.freed
                else s.invalidLiterals <= r.invalidLiterals
  {
    hide Step, Compile, Register, Reset, Consistent;
    CompileCases(s, mapping, e);
    var req, t := e.req, WithNotes(s, e.req, e.writes);
    if req.startAddr in s.Live(req.num) {
      assert Step(s, e).made == s.made && Step(s, e).freed == s.freed
          && Step(s, e).invalidLiterals == s.invalidLiterals;
    } else if Restores(s, req) {
      RegisterFields(t.(candidates := t.candidates - {req.instrHash}), req, t.candidates[req.instrHash], 0);
    } else {
      var g := GivenUp(t, req.instrHash);
      RegisterFields(Allocate(g, e.block, e.full), req, e.block, 0);
      if e.full {
        NotesSafe(s, t, mapping);
        if req.instrHash in t.candidates {
          CandidateFreed(t, mapping, req.instrHash);
        }
        ResetSafe(g, mapping);
        ResetNotes(g);
      }
    }
  }

  lemma ResetNotes(s: State)
    ensures Reset(s).invalidLiterals == {} && Reset(s).made == s.made && s.freed <= Reset(s).freed
  {
  }

  /** No step makes a block but the one CompileBlock builds, or takes back one that was freed; only a reset
      forgets which literals are invalid, and it frees every block there was. */
  lemma StepGrows(s: State, mapping: Mapping, e: Event)
    requires Consistent(s, mapping) && Enabled(s, e, mapping)
    ensures var r := Step(s, e);
            && r.made <= s.made + (if Builds(s, e) then {e.block} else {}) && s.freed <= r.freed
            && if Clears(s, e) then r.invalidLiterals == {} && s.made <= r.freed
                else s.invalidLiterals <= r.invalidLiterals
  {
    hide Consistent, Compile, Sweep, Reset, Restores;
    match e
    case Writing(local) =>
      SweepGrows(s.(ranges := s.ranges[Base(local) := s.At(Base(local)).(code := {})]), local, 0);
    case Resetting =>
      ResetSafe(s, mapping);
      ResetNotes(s);
    case Compiling(_, _, _, _) =>
      CompileGrows(s, mapping, e);
  }
}
