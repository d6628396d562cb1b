/**
 Why blocks have to be closed: one whose code depends on anything that was not hashed can be made stale, by a store
 alone or by a store that drops it and a compile that restores it.
 */
module StaleBuilds {
  import opened LiteralLoads
  import opened BlockIndex
  import opened BlockSource
  import opened BlockSafety
  import opened BlockCoherence
  import opened StaleLiterals

  // ---- A block that is dropped becomes a candidate -------------------------------------------

  lemma {:induction false} SweepRetires(s: State, mapping: Mapping, local: nat, b: JitBlock)
    requires Sweeping(s, mapping, Base(local)) && local !in b.data.literals
    requires b in s.At(Base(local)).blocks || IsCandidate(s, b)
    requires forall x | x in s.At(Base(local)).blocks && x != b :: x.data.instrHash != b.data.instrHash
    ensures IsCandidate(Sweep(s, local, 0), b)
    decreases |s.At(Base(local)).blocks|
  {
    var key := Base(local);
    if s.At(key).blocks != [] {
      hide DropBlock, Sweeping, IsLive, IsCandidate;
      var d, x := DropBlock(s, local, 0), s.At(key).blocks[0];
      assert MaskFor(x.data, key) != {} by { FirstOfList(s, mapping, key, 0); }
      assert MaskFor(x.data, key) * MaskFor(x.data, key) == MaskFor(x.data, key);
      assert Sweep(s, local, 0) == Sweep(d, local, 0);
      DropBlockSafe(s, mapping, local, 0);
      DropBlockListAt(s, mapping, local, 0, key);
      DropRetires(s, local, 0, b);
      SweepRetires(d, mapping, local, b);
    }
  }

  lemma DropRetires(s: State, local: nat, i: nat, b: JitBlock)
    requires i < |s.At(Base(local)).blocks| && local !in b.data.literals
    requires var x := s.At(Base(local)).blocks[i]; x != b ==> x.data.instrHash != b.data.instrHash
    ensures s.At(Base(local)).blocks[i] == b ==> IsCandidate(DropBlock(s, local, i), b)
    ensures IsCandidate(s, b) && s.At(Base(local)).blocks[i] != b ==> IsCandidate(DropBlock(s, local, i), b)
  {
    hide DropBlock;
    DropBlockFields(s, local, i);
  }

  /** Of the literals none but the one stored to becomes invalid. */
  lemma {:induction false} SweepAdds(s: State, local: nat, i: nat)
    ensures Sweep(s, local, i).invalidLiterals <= s.invalidLiterals + {local}
    decreases |s.At(Base(local)).blocks| - i
  {
    var range := s.At(Base(local));
    if i < |range.blocks| {
      hide DropFromOthers;
      var mask := MaskFor(range.blocks[i].data, Base(local));
      if mask * mask == {} {
        SweepAdds(s.(ranges := s.ranges[Base(local) := range.(code := range.code + mask)]), local, i + 1);
      } else {
        SweepAdds(DropBlock(s, local, i), local, i);
      }
    }
  }

  /** A store to what a live block covers drops it; if no other has its instruction hash it can be restored. */
  lemma StoreRetires(s: State, mapping: Mapping, h: nat, b: JitBlock)
    requires Consistent(s, mapping) && IsLive(s, b) && !IsLive(CheckAndInvalidate(s, h), b) && h !in b.data.literals
    requires forall x | IsLive(s, x) && x != b :: x.data.instrHash != b.data.instrHash
    ensures var t := CheckAndInvalidate(s, h);
            IsCandidate(t, b) && t.invalidLiterals <= s.invalidLiterals + {h}
  {
    hide Sweep, WellFormed, IsCandidate, IsLive;
    var key := Base(h);
    SurvivesIff(s, mapping, b, h);
    var cleared := s.(ranges := s.ranges[key := s.At(key).(code := {})]);
    ClearSafe(s, mapping, key);
    OnItsList(s, mapping, key, b);
    assert ListSound(s, key);
    SweepRetires(cleared, mapping, h, b);
    SweepAdds(cleared, h, 0);
  }

  lemma OnItsList(s: State, mapping: Mapping, key: nat, b: JitBlock)
    requires Consistent(s, mapping) && IsLive(s, b) && key in b.data.addressRanges
    ensures b in s.At(key).blocks
  {
    LiveFacts(s, mapping, b);
    var j :| 0 <= j < |b.data.addressRanges| && b.data.addressRanges[j] == key;
    assert j < |b.data.addressMasks|;
  }

  // ---- The same literals are noted again -----------------------------------------------------

  /** A literal becoming invalid that is none of the block's changes nothing about it. */
  lemma NotedStill(data: BlockData, mapping: Mapping, before: set<nat>, after: set<nat>, h: nat, i: nat)
    requires before <= after <= before + {h} && i < |data.fetched|
    requires data.literals == Of(data, mapping, before).LiteralLocals(|data.fetched|) && h !in data.literals
    ensures Of(data, mapping, after).NotedAt(i) == Of(data, mapping, before).NotedAt(i)
  {
    hide LoadsLiteral, DecodeLiteral;
    var f := Of(data, mapping, before);
    if f.NotedAt(i).At? {
      var k := LiteralListed(f, i, |data.fetched|);
      assert f.LiteralLocals(|data.fetched|)[k] == f.Local(f.NotedAt(i).addr);
    }
  }

  lemma {:induction false} LiteralsStill(data: BlockData, mapping: Mapping, before: set<nat>, after: set<nat>, h: nat,
      n: nat)
    requires before <= after <= before + {h} && n <= |data.fetched|
    requires data.literals == Of(data, mapping, before).LiteralLocals(|data.fetched|) && h !in data.literals
    ensures Of(data, mapping, after).Literals(n) == Of(data, mapping, before).Literals(n)
  {
    hide Noted, Fetched.LiteralLocals;
    if n > 0 {
      LiteralsStill(data, mapping, before, after, h, n - 1);
      NotedStill(data, mapping, before, after, h, n - 1);
    }
  }

  lemma GatheredStill(data: BlockData, mapping: Mapping, before: set<nat>, after: set<nat>, h: nat)
    requires Gathered(data, mapping, before) && before <= after <= before + {h} && h !in data.literals
    ensures Gathered(data, mapping, after)
    ensures Of(data, mapping, after).Literals(|data.fetched|) == Of(data, mapping, before).Literals(|data.fetched|)
  {
    hide Noted, Tidy, Masked, WellFormed;
    var f, g := Of(data, mapping, before), Of(data, mapping, after);
    LiteralsStill(data, mapping, before, after, h, |data.fetched|);
    forall i | 0 <= i < |data.fetched|
      ensures g.NotedAt(i) == f.NotedAt(i)
    {
      NotedStill(data, mapping, before, after, h, i);
    }
    forall i, local | 0 <= i < |data.fetched|
      ensures g.Reads(i, local) == f.Reads(i, local)
    {
    }
    forall key, k
      ensures g.ReadIn(|data.fetched|, key, k) == f.ReadIn(|data.fetched|, key, k)
    {
    }
  }

  /** What is recorded was hashed. */
  lemma RecordedHashed(f: Fetched, values: seq<nat>, h: nat, v: nat)
    requires Recorded(f, values, h, v)
    ensures f.Hashes(h)
  {
    hide Noted;
    if i :| 0 <= i < |f.instrs| && CodeShows(f, i, h, v) {
      assert h in f.CodeHalves(i);
    } else {
      var k :| 0 <= k < |values| && k < |f.Literals(|f.instrs|)|
          && WordShows(f, f.Literals(|f.instrs|)[k].addr / 4 * 4, values[k], h, v);
      var i := ListedLiteral(f, |f.instrs|, k);
      assert h in f.NotedHalves(i);
    }
  }

  lemma {:induction false} ListedLiteral(f: Fetched, n: nat, k: nat) returns (i: nat)
    requires n <= |f.instrs| && k < |f.Literals(n)|
    ensures i < n && f.NotedAt(i) == f.Literals(n)[k]
  {
    if k < |f.Literals(n - 1)| {
      i := ListedLiteral(f, n - 1, k);
    } else {
      i := n - 1;
    }
  }

  // ---- A build that is not closed ------------------------------------------------------------

  ghost predicate LiveStale(s: State, b: JitBlock, mem: Memory) { IsLive(s, b) && !Current(b.data, mem) }

  /** Compiling the same code again is possible after the store, and restores the block. */
  lemma CompiledAgain(t: State, mapping: Mapping, req: BlockData, b: JitBlock, again: JitBlock, before: set<nat>,
      mem: Memory, h: nat)
    requires Consistent(t, mapping) && IsCandidate(t, b) && b.data == req && again.data == req && again !in t.made
    requires req.startAddr !in t.Live(req.num) && Gathered(req, mapping, before)
    requires before <= t.invalidLiterals <= before + {h} && h !in req.literals
    requires Agrees(Of(req, mapping, before), req.literalValues, mem) && !Of(req, mapping, before).Hashes(h)
    ensures var e, m := Compiling(req, again, [], false), Changed(mem, h);
            && Enabled(t, e, mapping) && MemoryStep(t, e, mapping, m, m) && !CrossRestore(t, e)
            && IsLive(Step(t, e), b)
  {
    hide Consistent, Collected, Tidy, Step, Compile, Recorded, AddToRanges;
    GatheredStill(req, mapping, before, t.invalidLiterals, h);
    var e, m := Compiling(req, again, [], false), Changed(mem, h);
    var f, g := Of(req, mapping, before), Of(req, mapping, t.invalidLiterals);
    forall x, v | Recorded(g, req.literalValues, x, v) && !InVideo(x)
      ensures m(x) == v
    {
      RecordedSame(g, f, req.literalValues, x, v);
      RecordedHashed(f, req.literalValues, x, v);
    }
    assert Restores(t, req);
    CompileCases(t, mapping, e);
    RegisteredLive(t, req, b);
  }

  lemma RegisteredLive(t: State, req: BlockData, b: JitBlock)
    requires Restores(t, req) && t.candidates[req.instrHash] == b && b.data == req
        && |req.addressRanges| == |req.addressMasks|
    ensures IsLive(Restored(WithNotes(t, req, []), req), b)
  {
    hide AddToRanges;
  }

  /** A build whose code depends on a halfword that was not hashed. After a store to it either the block is live still,
      or compiling the same code again brings it back; and then it is live with what was there before. The cache is
      not reset meanwhile nor one of the block's literals written to, and no other live block has its instructions. */
  lemma UnclosedGoesStale(s: State, mapping: Mapping, e: Event, again: JitBlock, mem: Memory, h: nat)
    requires Consistent(s, mapping) && Enabled(s, e, mapping) && Builds(s, e) && MemoryStep(s, e, mapping, mem, mem)
    requires h in e.req.text && !InVideo(h) && h !in e.req.literals
    requires !Of(e.req, mapping, s.invalidLiterals).Hashes(h)
    requires Step(s, e).invalidLiterals == s.invalidLiterals && again.data == e.req && again !in Step(s, e).made
    requires forall x | IsLive(Step(s, e), x) && x != e.block :: x.data.instrHash != e.req.instrHash
    ensures !Closed(e.req, mapping, s.invalidLiterals, s.invalidLiterals)
    ensures var r, m := Step(s, e), Changed(mem, h);
            var t, e' := Step(r, Writing(h)), Compiling(e.req, again, [], false);
            && MemoryStep(r, Writing(h), mapping, mem, m)
            && (LiveStale(t, e.block, m)
              || (Enabled(t, e', mapping) && !CrossRestore(t, e') && MemoryStep(t, e', mapping, m, m)
                && LiveStale(Step(t, e'), e.block, m)))
  {
    hide Consistent, Compile, Collected, Tidy, CheckAndInvalidate, Agrees, Recorded, Fetched.DependsOn, Fetched.Hashes;
    var r := Step(s, e);
    StepConsistent(s, mapping, e);
    BuiltIsHit(s, mapping, e);
    assert Changed(mem, h)(h) != e.req.text[h];
    var t := CheckAndInvalidate(r, h);
    if !IsLive(t, e.block) {
      StoreRetires(r, mapping, h, e.block);
      StepGrows(r, mapping, Writing(h));
      WriteSafe(r, mapping, h);
      NothingThere(r, mapping, h, e.block);
      CompiledAgain(t, mapping, e.req, e.block, again, s.invalidLiterals, mem, h);
    }
  }

  /** A dropped block leaves nothing live at its address. */
  lemma NothingThere(s: State, mapping: Mapping, h: nat, b: JitBlock)
    requires Consistent(s, mapping) && IsLive(s, b) && b.data.num <= 1 && !IsLive(CheckAndInvalidate(s, h), b)
    ensures b.data.startAddr !in CheckAndInvalidate(s, h).Live(b.data.num)
  {
    hide Consistent, CheckAndInvalidate;
    var t := CheckAndInvalidate(s, h);
    WriteSafe(s, mapping, h);
    if b.data.startAddr in t.Live(b.data.num) {
      LiveIsLive(t, mapping, b.data.num, b.data.startAddr);
      StoreDropsBlock(s, mapping, h, t.Live(b.data.num)[b.data.startAddr]);
      LiveNumber(t, mapping, b.data.num, b.data.startAddr);
    }
  }

  lemma LiveNumber(s: State, mapping: Mapping, num: nat, addr: nat)
    requires Consistent(s, mapping) && num <= 1 && addr in s.Live(num)
    ensures s.Live(num)[addr].data.num == num && s.Live(num)[addr].data.startAddr == addr
  {
  }
}
