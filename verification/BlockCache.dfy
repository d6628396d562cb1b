/**
 The JIT's block cache as it is run: the maps, range lists, lookup table and restore candidates that
 CompileBlock, InvalidateByAddr and ResetBlockCache update in place, each operation proved equal to its
 transition of `BlockIndex` in every state.
 */
module BlockCache {
  import opened LiteralLoads
  import opened BlockIndex
  import opened BlockSource
  import BlockSafety

  lemma {:induction false} IndexOfFirst<T>(s: seq<T>, x: T, i: nat)
    requires i <= |s| && x !in s[..i] && (i < |s| ==> s[i] == x)
    ensures IndexOf(s, x) == i
  {
    if i > 0 {
      assert s[0] in s[..i];
      assert s[1..][..i - 1] == s[..i][1..];
      IndexOfFirst(s[1..], x, i - 1);
    }
  }

  class Cache {
    const mapping: Mapping
    var JitBlocks9: map<nat, JitBlock>
    var JitBlocks7: map<nat, JitBlock>
    var RestoreCandidates: map<nat, JitBlock>
    var Ranges: map<nat, AddressRange>
    var FastBlockLookup: map<nat, Entry>
    var InvalidLiterals: seq<nat>
    ghost var Made: set<JitBlock>
    ghost var Freed: set<JitBlock>

    ghost function Contents(): State
      reads this
    {
      State(JitBlocks9, JitBlocks7, RestoreCandidates, Ranges, FastBlockLookup, (set l | l in InvalidLiterals), Made,
          Freed)
    }

    /** The four indexes agree with one another, under the guest's address mapping. */
    ghost predicate Consistent()
      reads this
    {
      BlockSafety.Consistent(Contents(), mapping)
    }

    constructor (mapping: Mapping)
      ensures Contents() == BlockSafety.EMPTY && this.mapping == mapping && Consistent()
    {
      BlockSafety.EmptyConsistent(mapping);
      this.mapping := mapping;
      JitBlocks9, JitBlocks7, RestoreCandidates, Ranges, FastBlockLookup := map[], map[], map[], map[], map[];
      InvalidLiterals, Made, Freed := [], {}, {};
    }

    method RetireJitBlock(block: JitBlock)
      modifies `RestoreCandidates, `Freed
      ensures Contents() == Retire(old(Contents()), block)
    {
      var hash := block.data.instrHash;
      if hash in RestoreCandidates {
        Freed := Freed + {RestoreCandidates[hash]};
      }
      RestoreCandidates := RestoreCandidates[hash := block];
    }

    /** The mask of a block in the range at `key`. */
    method FindMask(data: BlockData, key: nat) returns (mask: set<nat>)
      ensures mask == MaskFor(data, key)
    {
      mask := {};
      var j := 0;
      while j < |data.addressRanges| && data.addressRanges[j] != key
        invariant j <= |data.addressRanges| && key !in data.addressRanges[..j]
      {
        j := j + 1;
      }
      IndexOfFirst(data.addressRanges, key, j);
      if j < |data.addressRanges| && j < |data.addressMasks| {
        mask := data.addressMasks[j];
      }
    }

    method NoteInvalidLiteral(local: nat)
      modifies `InvalidLiterals
      ensures Contents() == old(Contents()).(invalidLiterals := old(Contents()).invalidLiterals + {local})
    {
      if local !in InvalidLiterals {
        InvalidLiterals := InvalidLiterals + [local];
      }
    }

    /** Take a block off every list but the one of `local`'s range. */
    method RemoveFromOthers(block: JitBlock, local: nat)
      modifies `Ranges
      ensures Ranges == DropFromOthers(old(Ranges), block, local, |block.data.addressRanges|)
    {
      for j := 0 to |block.data.addressRanges|
        invariant Ranges == DropFromOthers(old(Ranges), block, local, j)
      {
        var key := Base(block.data.addressRanges[j]);
        if key != Base(local) {
          var blocks := RemoveByValue(RangeAt(Ranges, key).blocks, block);
          if |blocks| == 0 {
            Ranges := Ranges[key := AddressRange(blocks, {})];
          } else {
            Ranges := Ranges[key := AddressRange(blocks, RangeAt(Ranges, key).code)];
          }
        }
      }
    }

    method Erase(num: nat, addr: nat)
      modifies `JitBlocks9, `JitBlocks7
      ensures Contents() == old(Contents()).WithLive(num, old(Contents()).Live(num) - {addr})
    {
      if num == 0 {
        JitBlocks9 := JitBlocks9 - {addr};
      } else {
        JitBlocks7 := JitBlocks7 - {addr};
      }
    }

    /** One round of the loop of `InvalidateByAddr` that drops a block. */
    method Drop(local: nat, i: nat)
      requires i < |RangeAt(Ranges, Base(local)).blocks|
      modifies this
      ensures Contents() == DropBlock(old(Contents()), local, i)
    {
      var range := RangeAt(Ranges, Base(local));
      var block := range.blocks[i];
      Ranges := Ranges[Base(local) := AddressRange(RemoveAt(range.blocks, i), range.code)];
      var literalInvalidation := local in block.data.literals;
      if literalInvalidation {
        NoteInvalidLiteral(local);
      }
      RemoveFromOthers(block, local);
      FastBlockLookup := FastBlockLookup[Slot(block.data.startAddrLocal) := Entry(INVALID_TAG, 0)];
      Erase(block.data.num, block.data.startAddr);
      if !literalInvalidation {
        RetireJitBlock(block);
      } else {
        Freed := Freed + {block};
      }
    }

    method InvalidateByAddr(local: nat)
      modifies this
      ensures Contents() == BlockIndex.InvalidateByAddr(old(Contents()), local)
      ensures old(Consistent()) ==> Consistent()
    {
      if Consistent() {
        BlockSafety.InvalidateSafe(Contents(), mapping, local);
      }
      var key := Base(local);
      Ranges := Ranges[key := RangeAt(Ranges, key).(code := {})];
      ghost var start := Contents();
      var i := 0;
      while i < |RangeAt(Ranges, key).blocks|
        invariant Sweep(Contents(), local, i) == Sweep(start, local, 0)
        decreases |RangeAt(Ranges, key).blocks| - i
      {
        var range := RangeAt(Ranges, key);
        var mask := FindMask(range.blocks[i].data, key);
        var invalidated := mask * mask != {};
        if !invalidated {
          Ranges := Ranges[key := range.(code := range.code + mask)];
          i := i + 1;
        } else {
          Drop(local, i);
        }
      }
    }

    method CheckAndInvalidate(local: nat)
      modifies this
      ensures Contents() == BlockIndex.CheckAndInvalidate(old(Contents()), local)
      ensures old(Consistent()) ==> Consistent()
    {
      if Granule(local) in RangeAt(Ranges, Base(local)).code {
        InvalidateByAddr(local);
      }
    }

    method LookUpBlock(num: nat, local: nat, addr: nat) returns (hit: Hit)
      ensures hit == BlockIndex.LookUpBlock(Contents(), num, local, addr)
    {
      hit := Miss;
      var slot := Slot(local);
      if slot in FastBlockLookup && FastBlockLookup[slot].tag == Tag(addr, num) {
        hit := Hit(FastBlockLookup[slot].entryPoint);
      } else if slot !in FastBlockLookup && INVALID_TAG == Tag(addr, num) {
        hit := Hit(INVALID_TAG);
      }
    }

    /** Empty the ranges of a block. A range that was never used is empty already. */
    method ClearRanges(block: JitBlock)
      modifies `Ranges
      ensures Ranges == Emptied(old(Ranges), block.data, |block.data.addressRanges|)
    {
      for j := 0 to |block.data.addressRanges|
        invariant Ranges == Emptied(old(Ranges), block.data, j)
      {
        var key := Base(block.data.addressRanges[j]);
        ListedMore(block.data, j);
        if key in Ranges {
          Ranges := Ranges[key := AddressRange([], {})];
        }
      }
    }

    /** Empty the ranges of every block of one map and free the blocks. */
    method FreeAll(blocks: map<nat, JitBlock>)
      modifies `Ranges, `Freed
      ensures Ranges == Vacated(old(Ranges), blocks)
      ensures Freed == old(Freed) + blocks.Values
    {
      hide *;
      var todo := blocks.Keys;
      ghost var done: map<nat, JitBlock> := map[];
      NoneTouched(Ranges);
      DoneEnds(blocks);
      while todo != {}
        invariant todo <= blocks.Keys && done == But(blocks, todo)
        invariant Ranges == Vacated(old(Ranges), done)
        invariant Freed == old(Freed) + done.Values
        decreases |todo|
      {
        var a :| a in todo;
        var block := blocks[a];
        ClearRanges(block);
        Freed := Freed + {block};
        DoneMore(blocks, todo, a);
        TouchesMore(old(Ranges), done, a, block);
        ValuesMore(done, a, block);
        todo, done := todo - {a}, done[a := block];
      }
    }

    method ResetBlockCache()
      modifies this
      ensures Contents() == Reset(old(Contents()))
      ensures old(Consistent()) ==> Consistent()
    {
      hide Touches, Vacated, BlockSafety.Consistent, Reset;
      if Consistent() {
        BlockSafety.ResetSafe(Contents(), mapping);
      }
      ghost var before := Contents();
      InvalidLiterals := [];
      FastBlockLookup := map[];
      Freed := Freed + RestoreCandidates.Values;
      RestoreCandidates := map[];
      FreeAll(JitBlocks9);
      FreeAll(JitBlocks7);
      JitBlocks9, JitBlocks7 := map[], map[];
      ResetIs(before, Ranges, Freed);
    }

    /** List the block, and enter it into its map and the lookup table. */
    method Enter(req: BlockData, block: JitBlock)
      requires |block.data.addressRanges| == |block.data.addressMasks|
      modifies this
      ensures Contents() == Register(old(Contents()), req, block)
    {
      for j := 0 to |block.data.addressRanges|
        invariant unchanged(`JitBlocks9, `JitBlocks7, `RestoreCandidates, `FastBlockLookup, `InvalidLiterals, `Made,
            `Freed)
        invariant Ranges == AddToRanges(old(Ranges), block, j)
      {
        var key := Base(block.data.addressRanges[j]);
        var range := RangeAt(Ranges, key);
        Ranges := Ranges[key := AddressRange(range.blocks + [block], range.code + block.data.addressMasks[j])];
      }
      if req.num == 0 {
        JitBlocks9 := JitBlocks9[req.startAddr := block];
      } else {
        JitBlocks7 := JitBlocks7[req.startAddr := block];
      }
      FastBlockLookup := FastBlockLookup[Slot(req.startAddrLocal) :=
          Entry(Tag(req.startAddr, req.num), block.data.entryPoint)];
    }

    /** The literals among the addresses stored to. */
    method NoteWrittenLiterals(writes: seq<nat>, literals: seq<nat>)
      modifies `InvalidLiterals
      ensures Contents() == old(Contents()).(invalidLiterals := old(Contents()).invalidLiterals + set w | w in writes
          && w in literals)
    {
      for j := 0 to |writes|
        invariant Contents() == old(Contents()).(invalidLiterals :=
            old(Contents()).invalidLiterals + set w | w in writes[..j] && w in literals)
      {
        if writes[j] in literals {
          NoteInvalidLiteral(writes[j]);
        }
        assert writes[..j + 1] == writes[..j] + [writes[j]];
      }
    }

    /** A live block at another local address is retired: some memory has been remapped. */
    method RetireRemapped(num: nat, startAddr: nat)
      requires startAddr in Contents().Live(num)
      modifies this
      ensures Contents() == Retire(old(Contents()), old(Contents()).Live(num)[startAddr]).WithLive(num,
          old(Contents()).Live(num) - {startAddr})
      ensures InvalidLiterals == old(InvalidLiterals)
    {
      var block := if num == 0 then JitBlocks9[startAddr] else JitBlocks7[startAddr];
      RetireJitBlock(block);
      Erase(num, startAddr);
    }

    /** The end of CompileBlock: the candidate with the hash is restored, or given up for a new block. */
    method RestoreOrBuild(req: BlockData, full: bool) returns (block: JitBlock)
      requires |req.addressRanges| == |req.addressMasks|
      modifies this
      ensures var t := old(Contents());
              if Restores(t, req) then block == t.candidates[req.instrHash] && Contents() == Restored(t, req)
              else fresh(block) && block.data == req && Contents() == Rebuilt(t, req, block, full)
    {
      hide Register, Reset;
      var mayRestore := false;
      if req.instrHash in RestoreCandidates {
        block := RestoreCandidates[req.instrHash];
        RestoreCandidates := RestoreCandidates - {req.instrHash};
        mayRestore := MayRestore(block.data, req);
        if !mayRestore {
          Freed := Freed + {block};
        }
      }
      if !mayRestore {
        assert Contents() == GivenUp(old(Contents()), req.instrHash);
        block := new JitBlock(req);
        if full {
          BlockSafety.ResetNotes(Contents());
          ResetBlockCache();
        }
        Made := Made + {block};
        assert Contents() == Allocate(GivenUp(old(Contents()), req.instrHash), block, full);
      }
      Enter(req, block);
    }

    /** CompileBlock for data already gathered. */
    method Install(req: BlockData, writes: seq<nat>, full: bool) returns (block: JitBlock)
      requires |req.addressRanges| == |req.addressMasks|
      modifies this
      ensures InPlace(old(Contents()), req) ==> Contents() == Reentered(old(Contents()), req)
      ensures !InPlace(old(Contents()), req) ==>
                var t := Cleared(old(Contents()), req, writes);
                if Restores(t, req) then block == t.candidates[req.instrHash] && Contents() == Restored(t, req)
                else fresh(block) && block.data == req && Contents() == Rebuilt(t, req, block, full)
    {
      hide Register, Reset, Rebuilt, Restored, Restores;
      var blocks := if req.num == 0 then JitBlocks9 else JitBlocks7;
      if req.startAddr in blocks {
        block := blocks[req.startAddr];
        if block.data.startAddrLocal == req.startAddrLocal {
          FastBlockLookup := FastBlockLookup[Slot(req.startAddrLocal) :=
              Entry(Tag(req.startAddr, req.num), block.data.entryPoint)];
          return;
        }
        RetireRemapped(req.num, req.startAddr);
      }
      NoteWrittenLiterals(writes, req.literals);
      assert Contents() == Cleared(old(Contents()), req, writes);
      block := RestoreOrBuild(req, full);
    }

    /** `req` is the data of the block that is built or looked for. */
    method CompileBlock(src: Source, writes: seq<nat>, full: bool) returns (ghost req: BlockData, block: JitBlock)
      requires src.Valid()
      modifies this
      ensures Gathered(req, mapping, old(Contents().invalidLiterals))
      ensures req.num == src.num && req.startAddr == src.startAddr && req.fetched == src.fetched
      ensures InPlace(old(Contents()), req) ==> Contents() == Reentered(old(Contents()), req)
      ensures !InPlace(old(Contents()), req) ==>
                var t := Cleared(old(Contents()), req, writes);
                if Restores(t, req) then block == t.candidates[req.instrHash] && Contents() == Restored(t, req)
                else fresh(block) && block.data == req && Contents() == Rebuilt(t, req, block, full)
      ensures old(Consistent()) && !BlockSafety.Crosses(old(Contents()), req) ==> Consistent()
    {
      hide Gathered, InPlace, Cleared, Reentered, BlockSafety.Consistent, BlockSafety.Crosses, Rebuilt, Restored,
          Restores;
      var data := GatherBlock(src, mapping, InvalidLiterals);
      req := data;
      ghost var before := Contents();
      GatheredMeans(data, mapping, before.invalidLiterals);
      block := Install(data, writes, full);
      if BlockSafety.Consistent(before, mapping) && !BlockSafety.Crosses(before, data) {
        SafelyCompiled(before, data, block, writes, full);
      }
    }

    lemma SafelyCompiled(s: State, req: BlockData, block: JitBlock, writes: seq<nat>, full: bool)
      requires BlockSafety.Consistent(s, mapping) && WellFormed(req, mapping) && !BlockSafety.Crosses(s, req)
      requires !InPlace(s, req) && !Restores(Cleared(s, req, writes), req) ==> block.data == req && block !in s.made
      ensures var t := Cleared(s, req, writes);
              BlockSafety.Consistent(if InPlace(s, req) then Reentered(s, req) else if Restores(t, req)
                  then Restored(t, req) else Rebuilt(t, req, block, full), mapping)
    {
      hide Register, Reset, BlockSafety.Consistent, Rebuilt, Restored, Cleared;
      BlockSafety.ClearedNotes(s, mapping, req, writes);
      if InPlace(s, req) {
        BlockSafety.SwitchOutSafe(s, mapping, req);
      } else if Restores(Cleared(s, req, writes), req) {
        BlockSafety.RestoredSafe(s, mapping, req, writes);
      } else {
        BlockSafety.RebuiltSafe(s, mapping, req, block, writes, full);
      }
    }
  }

  lemma GatheredMeans(data: BlockData, mapping: Mapping, invalid: set<nat>)
    requires Gathered(data, mapping, invalid)
    ensures WellFormed(data, mapping) && |data.addressRanges| == |data.addressMasks|
    ensures data.num <= 1 && data.startAddrLocal == mapping(data.num, data.startAddr)
  {
  }

  ghost predicate Listed(data: BlockData, n: nat, key: nat)
    requires n <= |data.addressRanges|
  {
    exists j | 0 <= j < n :: Base(data.addressRanges[j]) == key
  }

  ghost function Emptied(ranges: map<nat, AddressRange>, data: BlockData, n: nat): map<nat, AddressRange>
    requires n <= |data.addressRanges|
  {
    map k | k in ranges :: if Listed(data, n, k) then AddressRange([], {}) else ranges[k]
  }

  ghost function Vacated(ranges: map<nat, AddressRange>, blocks: map<nat, JitBlock>): map<nat, AddressRange> {
    map k | k in ranges :: if Touches(blocks, k) then AddressRange([], {}) else ranges[k]
  }

  lemma ListedMore(data: BlockData, n: nat)
    requires n < |data.addressRanges|
    ensures forall k :: Listed(data, n + 1, k) <==> Listed(data, n, k) || k == Base(data.addressRanges[n])
  {
    forall k | Listed(data, n, k)
      ensures Listed(data, n + 1, k)
    {
      var j :| 0 <= j < n && Base(data.addressRanges[j]) == k;
    }
  }

  ghost function But(blocks: map<nat, JitBlock>, todo: set<nat>): map<nat, JitBlock> {
    map a | a in blocks && a !in todo :: blocks[a]
  }

  lemma DoneEnds(blocks: map<nat, JitBlock>)
    ensures But(blocks, blocks.Keys) == map[] && But(blocks, {}) == blocks
  {
  }

  lemma DoneMore(blocks: map<nat, JitBlock>, todo: set<nat>, a: nat)
    requires a in todo && todo <= blocks.Keys
    ensures a in blocks && a !in But(blocks, todo) && But(blocks, todo)[a := blocks[a]] == But(blocks, todo - {a})
  {
  }

  lemma NoneTouched(ranges: map<nat, AddressRange>)
    ensures Vacated(ranges, map[]) == ranges
  {
  }

  lemma BothTouched(ranges: map<nat, AddressRange>, m: map<nat, JitBlock>, n: map<nat, JitBlock>)
    ensures Vacated(Vacated(ranges, m), n) ==
            map k | k in ranges :: if Touches(m, k) || Touches(n, k) then AddressRange([], {}) else ranges[k]
  {
    hide Touches;
  }

  lemma ResetIs(s: State, ranges: map<nat, AddressRange>, freed: set<JitBlock>)
    requires ranges == Vacated(Vacated(s.ranges, s.live9), s.live7)
    requires freed == s.freed + s.candidates.Values + s.live9.Values + s.live7.Values
    ensures State(map[], map[], map[], ranges, map[], {}, s.made, freed) == Reset(s)
  {
    hide Touches, Vacated;
    BothTouched(s.ranges, s.live9, s.live7);
  }

  lemma TouchesMore(ranges: map<nat, AddressRange>, m: map<nat, JitBlock>, a: nat, block: JitBlock)
    requires a !in m
    ensures Vacated(ranges, m[a := block]) == Emptied(Vacated(ranges, m), block.data, |block.data.addressRanges|)
  {
    var grown := m[a := block];
    forall k
      ensures Touches(grown, k) <==> Touches(m, k) || Listed(block.data, |block.data.addressRanges|, k)
    {
      if Touches(m, k) {
        var c, j :| c in m && 0 <= j < |m[c].data.addressRanges| && Base(m[c].data.addressRanges[j]) == k;
        assert c in grown && Base(grown[c].data.addressRanges[j]) == k;
      }
      if Listed(block.data, |block.data.addressRanges|, k) {
        var j :| 0 <= j < |block.data.addressRanges| && Base(block.data.addressRanges[j]) == k;
        assert a in grown && Base(grown[a].data.addressRanges[j]) == k;
      }
    }
  }

  lemma ValuesMore<K, V>(m: map<K, V>, k: K, v: V)
    requires k !in m
    ensures m[k := v].Values == m.Values + {v}
  {
    assert m[k := v][k] == v;
    forall x | x in m.Values
      ensures x in m[k := v].Values
    {
      var c :| c in m && m[c] == x;
      assert m[k := v][c] == x;
    }
  }
}
