/** Blocks of one instruction, and what the first steps of a run make of them. */
module SampleRuns {
  import opened LiteralLoads
  import opened BlockIndex
  import opened BlockSource
  import opened BlockSafety
  import opened BlockCoherence

  /** The block CompileBlock makes of one instruction whose literal, if any, is not noted. `after` are the
      literals known to be written to when it is compiled. */
  function OneInstr(i: Instr, num: nat, mapping: Mapping, hash: nat, entryPoint: nat, after: set<nat>,
      mem: Memory): BlockData {
    var local, f := mapping(num, i.addr), Fetched([i], num, mapping, after);
    BlockData(num, i.addr, local, hash, 0, [Base(local)], [{Granule(local)}], [], entryPoint, [i], [],
              map h | h in f.CodeHalves(0) + f.FoldedHalves(0) :: mem(h))
  }

  /** Its words are in memory. */
  predicate InMemory(i: Instr, num: nat, mapping: Mapping, mem: Memory) {
    && mem(mapping(num, i.addr)) == i.word % 0x1_0000
    && (!i.thumb ==> mem(mapping(num, i.addr + 2)) == i.word / 0x1_0000)
  }

  lemma OneGathered(i: Instr, num: nat, mapping: Mapping, hash: nat, entryPoint: nat, before: set<nat>,
      after: set<nat>, mem: Memory)
    requires num <= 1 && i.addr % 2 == 0 && (i.thumb || i.addr % 4 == 0) && Tag(i.addr, num) != INVALID_TAG
    requires Noted(i, num, mapping, before).Nowhere? && InMemory(i, num, mapping, mem)
    ensures var data := OneInstr(i, num, mapping, hash, entryPoint, after, mem);
            && Gathered(data, mapping, before) && Agrees(Of(data, mapping, before), [], mem)
            && MadeFrom(data, mapping, after, mem)
  {
    hide Noted, Folded;
    var data := OneInstr(i, num, mapping, hash, entryPoint, after, mem);
    var f, local := Of(data, mapping, before), mapping(num, i.addr);
    OneCollected(f, i, local);
    assert Base(Base(local)) == Base(local);
    assert f.Literals(1) == [] by {
      assert f.Literals(0) == [];
    }
    var g := Of(data, mapping, after);
    forall h
      ensures h in data.text <==> g.DependsOn(h)
    {
      if h in g.CodeHalves(0) || h in g.FoldedHalves(0) {
        assert g.DependsOn(h);
      }
    }
    forall h, v | Recorded(f, [], h, v)
      ensures mem(h) == v
    {
      assert CodeShows(f, 0, h, v);
    }
  }

  lemma OneCollected(f: Fetched, i: Instr, local: nat)
    requires f.instrs == [i] && f.NotedAt(0).Nowhere? && local == f.Local(i.addr)
    ensures Collected(f, 1, [Base(local)], [{Granule(local)}])
  {
    hide Noted;
    assert Base(Base(local)) == Base(local);
    assert [{Granule(local)}][0] == {Granule(local)};
    forall key, g
      ensures Masked([Base(local)], [{Granule(local)}], key, g) <==> f.ReadIn(1, key, g)
    {
      if key == Base(local) && g == Granule(local) {
        assert f.Reads(0, local);
      }
      if Masked([Base(local)], [{Granule(local)}], key, g) {
        assert key == Base(local) && g == Granule(local);
      }
      if f.ReadIn(1, key, g) {
        assert [Base(local)][0] == key;
      }
    }
  }

  // ---- A block of one granule in an otherwise empty cache ------------------------------------

  predicate Single(b: JitBlock, local: nat) {
    && b.data.startAddrLocal == local && b.data.literals == []
    && b.data.addressRanges == [Base(local)] && b.data.addressMasks == [{Granule(local)}]
  }

  /** After the block was registered for CPU `num`. */
  function OneLive(s: State, b: JitBlock, num: nat): State {
    var local := b.data.startAddrLocal;
    s.(ranges := map[Base(local) := AddressRange([b], {Granule(local)})],
       lookup := s.lookup[Slot(local) := Entry(Tag(b.data.startAddr, num), b.data.entryPoint)],
       live9 := if num == 0 then map[b.data.startAddr := b] else map[],
       live7 := if num == 0 then map[] else map[b.data.startAddr := b])
  }

  /** After it was dropped. It was made for CPU 0. */
  function OneRetired(s: State, b: JitBlock): State {
    var local := b.data.startAddrLocal;
    Retire(s.(ranges := map[Base(local) := AddressRange([], {})], lookup :=
        s.lookup[Slot(local) := Entry(INVALID_TAG, 0)],
              live9 := s.live9 - {b.data.startAddr}), b)
  }

  lemma OneRegistered(s: State, req: BlockData, b: JitBlock, local: nat)
    requires Single(b, local) && req.num <= 1 && req.startAddr == b.data.startAddr && req.startAddrLocal == local
    requires s.live9 == s.live7 == map[] && (s.ranges == map[] || s.ranges == map[Base(local) := AddressRange([], {})])
    ensures Register(s, req, b) == OneLive(s, b, req.num)
  {
    hide Granule;
    var key := Base(local);
    assert Base(key) == key;
    assert AddToRanges(s.ranges, b, 1) == map[key := AddressRange([b], {Granule(local)})] by {
      hide Base;
      assert AddToRanges(s.ranges, b, 0) == s.ranges && b.data.addressRanges[0] == key
          && b.data.addressMasks[0] == {Granule(local)};
      assert RangeAt(s.ranges, key) == AddressRange([], {});
      assert AddToRanges(s.ranges, b, 1) == s.ranges[key := AddressRange([] + [b], {} + {Granule(local)})];
      assert [] + [b] == [b] && {} + {Granule(local)} == {Granule(local)};
    }
  }

  /** A store to its granule drops it. */
  lemma OneInvalidated(s: State, b: JitBlock, local: nat, at: nat)
    requires Single(b, local) && b.data.num == 0 && at / 16 == local / 16
        && s.ranges == map[Base(local) := AddressRange([b], {Granule(local)})]
    ensures CheckAndInvalidate(s, at) == OneRetired(s, b)
  {
    hide DropBlock, Base, Granule;
    GranuleOf(at, local);
    var t := s.(ranges := map[Base(local) := AddressRange([b], {})]);
    assert s.ranges[Base(local) := s.At(Base(local)).(code := {})] == t.ranges;
    OneDropped(t, b, local, at);
    var d := DropBlock(t, at, 0);
    assert MaskFor(b.data, Base(local)) * MaskFor(b.data, Base(local)) == {Granule(local)};
    assert Sweep(t, at, 0) == Sweep(d, at, 0) == d;
  }

  lemma OneDropped(s: State, b: JitBlock, local: nat, at: nat)
    requires Single(b, local) && b.data.num == 0 && Base(at) == Base(local)
    requires s.ranges == map[Base(local) := AddressRange([b], {})]
    ensures s.At(Base(local)).blocks == [b] && DropBlock(s, at, 0) == OneRetired(s, b)
  {
    var key := Base(local);
    assert Base(key) == key;
    hide Base;
    assert RemoveAt([b], 0) == [];
    var u := s.ranges[key := AddressRange([], {})];
    assert DropFromOthers(u, b, at, 1) == u == map[key := AddressRange([], {})];
  }

  /** CompileBlock for a block of which there is no trace. */
  lemma FirstCompile(s: State, req: BlockData, b: JitBlock, full: bool)
    requires b.data == req && |req.addressRanges| == |req.addressMasks|
    requires req.startAddr !in s.Live(req.num) && req.instrHash !in s.candidates
    ensures Compile(s, req, b, [], full) == Register(Allocate(s, b, full), req, b)
  {
    hide Register, Allocate;
    assert s.(invalidLiterals := s.invalidLiterals + set w | w in [] && w in req.literals) == s;
  }

  lemma AllocatedHere(b: JitBlock)
    ensures Allocate(EMPTY, b, false) == EMPTY.(made := {b})
  {
  }

  /** CompileBlock for a block that is restored. */
  lemma RestoreCompiles(s: State, req: BlockData, block: JitBlock)
    requires block.data == req && |req.addressRanges| == |req.addressMasks|
    requires req.startAddr !in s.Live(req.num) && Restores(s, req)
    ensures Compile(s, req, block, [], false) == Register(s.(candidates := s.candidates - {req.instrHash}), req,
        s.candidates[req.instrHash])
  {
    hide Register;
    assert s.(invalidLiterals := s.invalidLiterals + set w | w in [] && w in req.literals) == s;
  }
}
