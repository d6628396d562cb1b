/**
 Literals that are folded without having been noted. A condition a guest program can meet keeps every
 block closed; four inputs show what happens without it.
 */
module StaleLiterals {
  import opened MachineWords
  import opened LiteralLoads
  import opened BlockIndex
  import opened BlockSource
  import opened BlockSafety
  import opened BlockCoherence
  import opened SampleRuns
  import opened AddressTranslation

  // ---- When every literal is noted -----------------------------------------------------------

  /** No literal slips: no signed load of one; and where the cache is reset while compiling, or a Thumb load
      stands at an address that is 2 modulo 4, the literal has not been found to be written to. */
  predicate Plain(instrs: seq<Instr>, num: nat, mapping: Mapping, invalid: set<nat>, full: bool) {
    forall i | 0 <= i < |instrs| && LoadsLiteral(instrs[i]) ::
      if DecodeLiteral(instrs[i]).Nowhere? then !Foldable(instrs[i])
      else full || (instrs[i].thumb && instrs[i].addr % 4 == 2) ==>
          mapping(num, DecodeLiteral(instrs[i]).addr) !in invalid
  }

  lemma PlainNeverSlips(i: Instr, num: nat, mapping: Mapping, before: set<nat>, after: set<nat>, full: bool)
    requires i.addr % 2 == 0 && Plain([i], num, mapping, before, full) && (full || before <= after)
    ensures !Slips(i, num, mapping, before, after)
  {
    hide Field, Bit, FirstTry, SecondTry, Slips;
    SlipsWhen(i, num, mapping, before, after);
    TriesDecoded(i);
    TriesKinds(i);
    assert [i][0] == i;
  }

  lemma TriesKinds(i: Instr)
    ensures Foldable(i) ==> LoadsLiteral(i) && FirstTry(i).At?
    ensures LoadsLiteral(i) ==> (DecodeLiteral(i).Nowhere? <==> !i.thumb && (i.kind.LdrsbImm? || i.kind.LdrshImm?))
  {
  }

  /** So a block of such instructions is built with care. */
  lemma PlainIsCareful(s: State, mapping: Mapping, e: Event)
    requires Consistent(s, mapping) && Enabled(s, e, mapping)
    requires e.Compiling? ==> Plain(e.req.fetched, e.req.num, mapping, s.invalidLiterals, e.full)
    requires e.Compiling? ==> forall h | h in e.req.text :: !InVideo(h)
    ensures Careful(s, e, mapping)
  {
    hide Consistent, Step, Plain, Slips, Collected, Tidy, Restores;
    if Builds(s, e) {
      var data, after := e.req, Step(s, e).invalidLiterals;
      StepGrows(s, mapping, e);
      forall i | 0 <= i < |data.fetched|
        ensures !SlipsAt(data, mapping, s.invalidLiterals, after, i)
      {
        PlainAt(data.fetched, data.num, mapping, s.invalidLiterals, e.full, i);
        PlainNeverSlips(data.fetched[i], data.num, mapping, s.invalidLiterals, after, e.full);
      }
      ClosedIff(data, mapping, s.invalidLiterals, after);
      if e.full {
        PlainUnspoilt(data, mapping, s.invalidLiterals, |data.fetched|);
      }
    }
  }

  lemma PlainAt(instrs: seq<Instr>, num: nat, mapping: Mapping, invalid: set<nat>, full: bool, i: nat)
    requires Plain(instrs, num, mapping, invalid, full) && i < |instrs|
    ensures Plain([instrs[i]], num, mapping, invalid, full)
  {
    hide LoadsLiteral, DecodeLiteral, Foldable;
  }

  lemma {:induction false} PlainUnspoilt(data: BlockData, mapping: Mapping, invalid: set<nat>, n: nat)
    requires Plain(data.fetched, data.num, mapping, invalid, true) && n <= |data.fetched|
    ensures Of(data, mapping, invalid).Literals(n) == Of(data, mapping, {}).Literals(n)
  {
    hide LoadsLiteral, DecodeLiteral, Foldable;
    if n > 0 {
      PlainUnspoilt(data, mapping, invalid, n - 1);
    }
  }

  // ---- What happens otherwise ----------------------------------------------------------------

  /** A store spares a live block if and only if no code is known in its granule, or none of the block's in its
      512-byte range. */
  lemma SurvivesIff(s: State, mapping: Mapping, x: JitBlock, h: nat)
    requires Consistent(s, mapping) && IsLive(s, x)
    ensures IsLive(CheckAndInvalidate(s, h), x) <==>
        Granule(h) !in s.At(Base(h)).code
        || Base(h) !in x.data.addressRanges
  {
    hide Consistent, InvalidateByAddr;
    InvalidateSafe(s, mapping, h);
  }

  function Changed(mem: Memory, h: nat): Memory { (a: nat) => if a == h then mem(a) + 1 else mem(a) }

  /** After a compile that builds a block, a store to halfword `h` that no code is known to be near of, but the
      block depends on: the block is still hit, with what was there before. */
  ghost predicate HitStale(s: State, e: Event, mapping: Mapping, mem: Memory, h: nat)
    requires Enabled(s, e, mapping) && e.Compiling?
  {
    var r := Step(s, e);
    var t := Step(r, Writing(h));
    && MemoryStep(s, e, mapping, mem, mem) && MemoryStep(r, Writing(h), mapping, mem, Changed(mem, h))
    && LookUpBlock(t, e.req.num, e.req.startAddrLocal, e.req.startAddr) == Hit(e.req.entryPoint)
    && e.req.startAddr in t.Live(e.req.num) && t.Live(e.req.num)[e.req.startAddr] == e.block
        && !Current(e.req, Changed(mem, h))
  }

  /** Such a store is all it takes when a block depends on a halfword whose granule has no code. */
  lemma StoreMisses(s: State, mapping: Mapping, e: Event, mem: Memory, h: nat)
    requires Consistent(s, mapping) && Enabled(s, e, mapping) && Builds(s, e) && MemoryStep(s, e, mapping, mem, mem)
    requires h in e.req.text && !InVideo(h) && Granule(h) !in Step(s, e).At(Base(h)).code
    ensures HitStale(s, e, mapping, mem, h)
  {
    hide Consistent, Compile, Collected, Tidy, Agrees, Fetched.DependsOn;
    var r := Step(s, e);
    assert Step(r, Writing(h)) == r;
    BuiltIsHit(s, mapping, e);
    assert Changed(mem, h)(h) != e.req.text[h];
  }

  lemma BuiltIsHit(s: State, mapping: Mapping, e: Event)
    requires Consistent(s, mapping) && Enabled(s, e, mapping) && Builds(s, e)
    ensures LookUpBlock(Step(s, e), e.req.num, e.req.startAddrLocal, e.req.startAddr) == Hit(e.req.entryPoint)
    ensures e.req.startAddr in Step(s, e).Live(e.req.num) && Step(s, e).Live(e.req.num)[e.req.startAddr] == e.block
  {
    hide Step, Compile, Allocate, GivenUp, AddToRanges, Consistent, Collected, Tidy;
    CompileCases(s, mapping, e);
  }

  // ---- One instruction -----------------------------------------------------------------------

  /** The block of a single load whose literal slips, compiled from `s`. */
  ghost predicate SlippingCompile(s: State, e: Event, mapping: Mapping, i: Instr, hash: nat, entryPoint: nat,
      mem: Memory) {
    && e.Compiling? && e.writes == [] && e.block.data == e.req && e.block !in s.made
    && i.addr % 2 == 0 && (i.thumb || i.addr % 4 == 0) && InMemory(i, 0, mapping, mem)
    && i.addr !in s.live9 && hash !in s.candidates
    && Slips(i, 0, mapping, s.invalidLiterals, if e.full then {} else s.invalidLiterals)
    && e.req == OneInstr(i, 0, mapping, hash, entryPoint, if e.full then {} else s.invalidLiterals, mem)
  }

  /** It is a possible step, and if the literal lies where there is no code, a store to it leaves the block
      stale. */
  lemma SlippedGoesStale(s: State, mapping: Mapping, e: Event, i: Instr, hash: nat, entryPoint: nat, mem: Memory,
      h: nat)
    requires Consistent(s, mapping) && SlippingCompile(s, e, mapping, i, hash, entryPoint, mem)
    requires h in e.req.text && !InVideo(h) && Base(h) != Base(mapping(0, i.addr)) && s.At(Base(h)).code == {}
    ensures Enabled(s, e, mapping) && HitStale(s, e, mapping, mem, h)
  {
    hide Consistent, Slips, OneInstr, InMemory, Gathered, Agrees, MadeFrom, HitStale, Compile, Register, Allocate,
        Reset;
    var after := if e.full then {} else s.invalidLiterals;
    SlipsUnnoted(i, 0, mapping, s.invalidLiterals, after);
    OneGathered(i, 0, mapping, hash, entryPoint, s.invalidLiterals, after, mem);
    OneFields(i, 0, mapping, hash, entryPoint, after, mem);
    FirstCompile(s, e.req, e.block, e.full);
    assert Step(s, e) == Register(Allocate(s, e.block, e.full), e.req, e.block);
    FirstNotes(s, e.req, e.block, e.full, Base(h));
    StoreMisses(s, mapping, e, mem, h);
  }

  lemma SlipsUnnoted(i: Instr, num: nat, mapping: Mapping, before: set<nat>, after: set<nat>)
    requires Slips(i, num, mapping, before, after)
    ensures Noted(i, num, mapping, before).Nowhere?
  {
  }

  lemma OneFields(i: Instr, num: nat, mapping: Mapping, hash: nat, entryPoint: nat, after: set<nat>, mem: Memory)
    ensures var data, local := OneInstr(i, num, mapping, hash, entryPoint, after, mem), mapping(num, i.addr);
            && data.num == num && data.startAddr == i.addr && data.startAddrLocal == local && data.instrHash == hash
                && data.literalHash == 0
            && data.addressRanges == [Base(local)] && data.addressMasks == [{Granule(local)}] && data.literals == []
                && data.literalValues == []
            && data.fetched == [i] && data.entryPoint == entryPoint
  {
  }

  lemma FirstNotes(s: State, req: BlockData, b: JitBlock, full: bool, key: nat)
    requires b.data == req && |req.addressRanges| == |req.addressMasks| == 1 && Base(req.addressRanges[0]) != key
        && s.At(key).code == {}
    ensures var r := Register(Allocate(s, b, full), req, b);
            r.invalidLiterals == (if full then {} else s.invalidLiterals) && r.At(key).code == {}
  {
    hide Base;
    var t := Allocate(s, b, full);
    assert t.At(key).code == {};
    assert AddToRanges(t.ranges, b, 0) == t.ranges;
  }

  // ---- Four inputs ---------------------------------------------------------------------------

  const LITERAL := 0x2000_0400

  /** `LDRSH r0, [pc, #8]` and `LDR r0, [pc, #8]` at 0x20003F0, Thumb `LDR r0, [pc, #12]` at 0x20003F2: all for the
      word at 0x2000400. `LDRSH r0, [pc]` at 0x2000200. */
  const LDRSH := Instr(false, LdrshImm, 0xE1DF_00F8, 0x200_03F0)
  const LDR := Instr(false, LdrImm, 0xE59F_0008, 0x200_03F0)
  const THUMB_LDR := Instr(true, LdrPcRel, 0x4803, 0x200_03F2)
  const LDRSH_HERE := Instr(false, LdrshImm, 0xE1DF_00F0, 0x200_0200)

  predicate MainRam(c: Config) {
    forall a | 0x200_0000 <= a < 0x200_1000 :: ClassifyAddress9(c, a).MainRAM?
  }

  lemma Locals(c: Config)
    requires MainRam(c)
    ensures forall a | 0x200_0000 <= a < 0x200_1000 :: MappingOf(c)(0, a) == 0x2000_0000 + (a - 0x200_0000)
  {
    hide MappingOf, ClassifyAddress9;
    forall a | 0x200_0000 <= a < 0x200_1000 {
      MainRamLocal(c, 0, a);
    }
  }

  lemma Decoded()
    ensures FirstTry(LDRSH) == FirstTry(LDR) == FirstTry(THUMB_LDR) == At(0x200_0400)
        && FirstTry(LDRSH_HERE) == At(0x200_0208)
    ensures SecondTry(THUMB_LDR) == At(0x200_0402) && SecondTry(LDR).Nowhere?
    ensures DecodeLiteral(LDRSH).Nowhere? && DecodeLiteral(LDRSH_HERE).Nowhere?
        && DecodeLiteral(LDR) == DecodeLiteral(THUMB_LDR) == At(0x200_0400)
  {
    hide *;
    DecodedSigned();
    DecodedLdr();
    DecodedThumb();
  }

  lemma DecodedSigned()
    ensures FirstTry(LDRSH) == At(0x200_0400) && FirstTry(LDRSH_HERE) == At(0x200_0208)
    ensures DecodeLiteral(LDRSH).Nowhere? && DecodeLiteral(LDRSH_HERE).Nowhere?
  {
    hide Field, Bit, Wrap;
    LiteralFields();
    WrapSmall(0x200_0400);
    WrapSmall(0x200_0208);
  }

  lemma DecodedLdr()
    ensures FirstTry(LDR) == DecodeLiteral(LDR) == At(0x200_0400) && SecondTry(LDR).Nowhere?
  {
    hide Field, Bit, Wrap;
    LiteralFields();
    WrapSmall(0x200_0400);
  }

  lemma LiteralFields()
    ensures forall i | i in [LDR, LDRSH, LDRSH_HERE] ::
      Field(i.word, 12) == 0 && Field(i.word, 16) == 15 && Bit(i.word, 23) && Bit(i.word, 24) && !Bit(i.word, 21)
    ensures LDR.word % 0x1000 == 8 && LDRSH.word % 0x10 == 8 && LDRSH.word / 0x100 % 0x10 == 0
    ensures LDRSH_HERE.word % 0x10 == 0 && LDRSH_HERE.word / 0x100 % 0x10 == 0
  {
    hide Field, Bit;
    FieldsOf(LDR.word);
    FieldsOf(LDRSH.word);
    FieldsOf(LDRSH_HERE.word);
  }

  lemma FieldsOf(w: nat)
    requires w / 0x1000 == 0xE59F0 || w / 0x1000 == 0xE1DF0
    ensures Field(w, 12) == 0 && Field(w, 16) == 15 && Bit(w, 23) && Bit(w, 24) && !Bit(w, 21)
  {
    hide Field, Bit;
    Fields(w);
    var high := w / 0x1000;
    assert w / 0x1_0000 == high / 0x10 && w / 0x20_0000 == high / 0x200;
    assert w / 0x80_0000 == high / 0x800 && w / 0x100_0000 == high / 0x1000;
  }

  lemma DecodedThumb()
    ensures FirstTry(THUMB_LDR) == DecodeLiteral(THUMB_LDR) == At(0x200_0400) && SecondTry(THUMB_LDR) == At(0x200_0402)
  {
    hide Field, Bit;
  }

  /** The fields these instructions are told by. */
  lemma Fields(w: nat)
    ensures Field(w, 12) == w / 0x1000 % 16 && Field(w, 16) == w / 0x1_0000 % 16
    ensures Bit(w, 21) == (w / 0x20_0000 % 2 == 1) && Bit(w, 23) == (w / 0x80_0000 % 2 == 1)
        && Bit(w, 24) == (w / 0x100_0000 % 2 == 1)
  {
    assert Pow2(12) == 0x1000;
    assert Pow2(16) == 0x10 * Pow2(12);
    assert Pow2(21) == 0x20 * Pow2(16);
    assert Pow2(24) == 2 * Pow2(23) == 8 * Pow2(21);
  }

  /** A halfword loaded with sign is folded and never noted: the first store to it goes unnoticed. */
  lemma LdrshGoesStale(c: Config, e: Event, hash: nat, entryPoint: nat, mem: Memory)
    requires MainRam(c) && e.Compiling? && !e.full && e.writes == [] && e.block.data == e.req
    requires InMemory(LDRSH, 0, MappingOf(c), mem)
        && e.req == OneInstr(LDRSH, 0, MappingOf(c), hash, entryPoint, {}, mem)
    ensures Enabled(EMPTY, e, MappingOf(c)) && HitStale(EMPTY, e, MappingOf(c), mem, LITERAL)
  {
    hide MappingOf, OneInstr, FirstTry, SecondTry, DecodeLiteral, InMemory, Consistent, HitStale;
    Locals(c);
    Decoded();
    EmptyConsistent(MappingOf(c));
    OneText(LDRSH, MappingOf(c), hash, entryPoint, {}, mem, LITERAL);
    SlippedGoesStale(EMPTY, MappingOf(c), e, LDRSH, hash, entryPoint, mem, LITERAL);
  }

  /** A literal that had been found to be written to is not noted, but folded if the cache is reset meanwhile. */
  lemma ResetGoesStale(c: Config, s: State, e: Event, hash: nat, entryPoint: nat, mem: Memory)
    requires MainRam(c) && Consistent(s, MappingOf(c)) && LITERAL in s.invalidLiterals && s.At(Base(LITERAL)).code == {}
    requires e.Compiling? && e.full && e.writes == [] && e.block.data == e.req && e.block !in s.made
    requires LDR.addr !in s.live9 && hash !in s.candidates
    requires InMemory(LDR, 0, MappingOf(c), mem) && e.req == OneInstr(LDR, 0, MappingOf(c), hash, entryPoint, {}, mem)
    ensures Enabled(s, e, MappingOf(c)) && HitStale(s, e, MappingOf(c), mem, LITERAL)
  {
    hide MappingOf, OneInstr, FirstTry, SecondTry, DecodeLiteral, InMemory, Consistent, HitStale;
    Locals(c);
    Decoded();
    OneText(LDR, MappingOf(c), hash, entryPoint, {}, mem, LITERAL);
    SlippedGoesStale(s, MappingOf(c), e, LDR, hash, entryPoint, mem, LITERAL);
  }

  /** And without a reset, by a Thumb load at an address that is 2 modulo 4, on its second try. */
  lemma ThumbGoesStale(c: Config, s: State, e: Event, hash: nat, entryPoint: nat, mem: Memory)
    requires MainRam(c) && Consistent(s, MappingOf(c)) && LITERAL in s.invalidLiterals && s.At(Base(LITERAL)).code == {}
    requires LITERAL + 2 !in s.invalidLiterals
    requires e.Compiling? && !e.full && e.writes == [] && e.block.data == e.req && e.block !in s.made
    requires THUMB_LDR.addr !in s.live9 && hash !in s.candidates
    requires InMemory(THUMB_LDR, 0, MappingOf(c), mem)
    requires e.req == OneInstr(THUMB_LDR, 0, MappingOf(c), hash, entryPoint, s.invalidLiterals, mem)
    ensures Enabled(s, e, MappingOf(c)) && HitStale(s, e, MappingOf(c), mem, LITERAL)
  {
    hide MappingOf, OneInstr, FirstTry, SecondTry, DecodeLiteral, InMemory, Consistent, HitStale;
    Locals(c);
    Decoded();
    OneText(THUMB_LDR, MappingOf(c), hash, entryPoint, s.invalidLiterals, mem, LITERAL);
    SlippedGoesStale(s, MappingOf(c), e, THUMB_LDR, hash, entryPoint, mem, LITERAL);
  }

  lemma OneText(i: Instr, mapping: Mapping, hash: nat, entryPoint: nat, after: set<nat>, mem: Memory, h: nat)
    requires h in Fetched([i], 0, mapping, after).FoldedHalves(0)
    ensures h in OneInstr(i, 0, mapping, hash, entryPoint, after, mem).text
  {
    hide Folded;
  }

  // ---- Covering is not enough ----------------------------------------------------------------

  const HERE := 0x2000_0200

  ghost function Rerun(b: JitBlock, d: JitBlock, n: nat): State
    requires n <= 3 && forall x | x in {b, d} :: |x.data.addressRanges| == |x.data.addressMasks|
  {
    if n == 0 then EMPTY else Step(Rerun(b, d, n - 1), RerunEvent(b, d, n - 1))
  }

  /** Compile, store to the literal in the granule of the code, compile again. */
  ghost function RerunEvent(b: JitBlock, d: JitBlock, n: nat): Event {
    if n == 0 then Compiling(b.data, b, [], false) else if n == 1 then Writing(HERE + 8)
        else Compiling(d.data, d, [], false)
  }

  /** A signed load of a literal beside the code. The block covers the literal, so a store to it drops the block; but
      the literal was not hashed, so compiling again brings the block back, with the old value. */
  lemma RestoredGoesStale(c: Config, b: JitBlock, d: JitBlock, hash: nat, entryPoint: nat, mem: Memory)
    requires MainRam(c) && b != d && InMemory(LDRSH_HERE, 0, MappingOf(c), mem)
    requires b.data == OneInstr(LDRSH_HERE, 0, MappingOf(c), hash, entryPoint, {}, mem)
    requires d.data == OneInstr(LDRSH_HERE, 0, MappingOf(c), hash, entryPoint, {}, Changed(mem, HERE + 8))
    ensures |b.data.addressRanges| == |b.data.addressMasks| && |d.data.addressRanges| == |d.data.addressMasks|
        && Watched(b.data)
    ensures forall n | 0 <= n < 3 :: Enabled(Rerun(b, d, n), RerunEvent(b, d, n), MappingOf(c))
    ensures forall n | 0 <= n < 3 ::
              MemoryStep(Rerun(b, d, n), RerunEvent(b, d, n), MappingOf(c), if n <= 1 then mem
                  else Changed(mem, HERE + 8), if n == 0 then mem else Changed(mem, HERE + 8))
    ensures var s := Rerun(b, d, 3);
            s.live9 == map[LDRSH_HERE.addr := b] && LookUpBlock(s, 0, HERE, LDRSH_HERE.addr) == Hit(entryPoint)
                && !Current(b.data, Changed(mem, HERE + 8))
  {
    hide Step, Gathered, OneInstr, MappingOf, Agrees, MadeFrom, InMemory, FirstTry, SecondTry, DecodeLiteral, Covers;
    var m, changed := MappingOf(c), Changed(mem, HERE + 8);
    Locals(c);
    HereInMemory(c, mem);
    OneFields(LDRSH_HERE, 0, m, hash, entryPoint, {}, mem);
    OneFields(LDRSH_HERE, 0, m, hash, entryPoint, {}, changed);
    OneGathered(LDRSH_HERE, 0, m, hash, entryPoint, {}, {}, mem);
    OneGathered(LDRSH_HERE, 0, m, hash, entryPoint, {}, {}, changed);
    RerunStates(b, d, hash);
    HereCovered(c, b, hash, entryPoint, mem);
  }

  /** The blocks of both compiles differ in nothing that CompileBlock compares. */
  predicate Alike(b: BlockData, hash: nat) {
    && b.num == 0 && b.startAddr == LDRSH_HERE.addr && b.startAddrLocal == HERE && b.instrHash == hash
        && b.literalHash == 0
    && b.addressRanges == [Base(HERE)] && b.addressMasks == [{Granule(HERE)}] && b.literals == []
  }

  lemma RerunStates(b: JitBlock, d: JitBlock, hash: nat)
    requires b != d && Alike(b.data, hash) && Alike(d.data, hash)
    ensures var s1 := OneLive(EMPTY.(made := {b}), b, 0);
            var s2 := OneRetired(s1, b);
            && Rerun(b, d, 1) == s1 && Rerun(b, d, 2) == s2 && Rerun(b, d, 3) == OneLive(s2.(candidates := map[]), b, 0)
            && Builds(EMPTY, RerunEvent(b, d, 0)) && Step(EMPTY, RerunEvent(b, d, 0)).invalidLiterals == {}
            && !Builds(s2, RerunEvent(b, d, 2)) && s2.candidates == map[hash := b] && s2.invalidLiterals == {}
                && d !in s2.made
  {
    hide Compile, CheckAndInvalidate, Register, Allocate;
    var s0, s1 := EMPTY, OneLive(EMPTY.(made := {b}), b, 0);
    FirstCompile(s0, b.data, b, false);
    AllocatedFirst(b);
    OneRegistered(s0.(made := {b}), b.data, b, HERE);
    assert Rerun(b, d, 1) == s1;
    var s2 := OneRetired(s1, b);
    OneInvalidated(s1, b, HERE, HERE + 8);
    assert Rerun(b, d, 2) == s2;
    assert s2.candidates == map[hash := b] && MayRestore(b.data, d.data);
    RestoreCompiles(s2, d.data, d);
    assert s2.candidates - {hash} == map[] && s2.ranges == map[Base(HERE) := AddressRange([], {})];
    OneRegistered(s2.(candidates := map[]), d.data, b, HERE);
    assert Rerun(b, d, 3) == OneLive(s2.(candidates := map[]), b, 0);
  }

  lemma AllocatedFirst(b: JitBlock)
    ensures Allocate(EMPTY, b, false) == EMPTY.(made := {b})
  {
  }

  lemma HereInMemory(c: Config, mem: Memory)
    requires MainRam(c) && InMemory(LDRSH_HERE, 0, MappingOf(c), mem)
    ensures InMemory(LDRSH_HERE, 0, MappingOf(c), Changed(mem, HERE + 8))
    ensures Noted(LDRSH_HERE, 0, MappingOf(c), {}).Nowhere?
  {
    hide MappingOf, FirstTry, DecodeLiteral;
    Locals(c);
    Decoded();
  }

  lemma HereCovered(c: Config, b: JitBlock, hash: nat, entryPoint: nat, mem: Memory)
    requires MainRam(c) && b.data == OneInstr(LDRSH_HERE, 0, MappingOf(c), hash, entryPoint, {}, mem)
    ensures b.data.text.Keys == {HERE, HERE + 2, HERE + 8} && b.data.text[HERE + 8] == mem(HERE + 8)
    ensures |b.data.addressRanges| == |b.data.addressMasks| && Watched(b.data)
  {
    hide MappingOf, FirstTry, SecondTry, DecodeLiteral;
    Locals(c);
    Decoded();
    var f := Fetched([LDRSH_HERE], 0, MappingOf(c), {});
    assert f.FoldedHalves(0) == {HERE + 8};
    assert f.CodeHalves(0) == {HERE, HERE + 2};
    assert b.data.addressRanges[0] == Base(HERE) && b.data.addressMasks[0] == {Granule(HERE)};
    forall h | h in {HERE, HERE + 2, HERE + 8}
      ensures Covers(b.data, h)
    {
      GranuleOf(h, HERE);
    }
  }
}
