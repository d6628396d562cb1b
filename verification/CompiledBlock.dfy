/**
 A whole JIT block: the loop that prepares, compiles or interprets each instruction, and the theorem
 that the result leaves the guest registers exactly as direct execution does.
 */
module CompiledBlock {
  import opened MachineWords
  import opened Sequences
  import opened EmittedCode
  import opened RegisterCache
  import opened KnownConstants

  /** One instruction's code: the copies before it, then either the compiled instruction on `mapping`
      (with the constants known to it and the copies of its side exit) or a call of the interpreter. */
  datatype Segment =
    | Compiled(ops: seq<Op>, mapping: map<Reg, Native>, literals: map<Reg, Word>, exit: seq<Op>)
    | Interpreted(ops: seq<Op>)

  /** A well-formed block: everything the compiler demands of its input. */
  ghost predicate Compilable(order: seq<Native>, pcAllocatableAsSrc: bool, instrs: seq<Instr>, thumb: bool,
      plans: seq<Plan>) {
    && Distinct(order) && |instrs| < 1000 && Planned(instrs, thumb, plans)
    && forall k | 0 <= k < |instrs| :: Allocatable(|order|, pcAllocatableAsSrc, instrs[k])
  }

  /** What an instruction cannot run without fits into `available` natives. */
  ghost predicate Allocatable(available: nat, pcAllocatableAsSrc: bool, instr: Instr) {
    && instr.info.notStrictlyNeeded <= instr.info.src + instr.info.dst
    && |Necessary(instr, pcAllocatableAsSrc)| <= available
  }

  /** Layout `mid` is fit for running `instr` compiled. */
  ghost predicate Ready(mid: Alloc, instr: Instr, thumb: bool) {
    && Injective(mid.mapping) && mid.dirty <= mid.mapping.Keys
    && mid.stale <= instr.info.dst - instr.info.src && mid.stale <= mid.mapping.Keys
    && (mid.stale != {} ==> Always(thumb, instr))
    && mid.mapping.Keys * instr.info.dst - {15} <= mid.dirty
  }

  /** `seg` takes layout `a` through `mid` to `b`. */
  ghost predicate Fits(a: Alloc, seg: Segment, mid: Alloc, b: Alloc, instr: Instr, thumb: bool, plan: Plan) {
    && Simulates(a, seg.ops, mid, instr.pc) && b == AfterInstr(mid, plan.constant) && b.dirty <= b.mapping.Keys
    && match seg
       case Compiled(_, mapping, literals, exit) =>
         && plan.canCompile && mid.mapping == mapping && mid.literals == literals == a.literals - instr.info.dst
         && exit == Saves(b, 16) && Ready(mid, instr, thumb)
       case Interpreted(_) =>
         !plan.canCompile && mid == NOTHING_LOADED
  }

  /** The layouts between the instructions of a compiled block. */
  datatype Layouts = Layouts(mid: seq<Alloc>, at: seq<Alloc>)

  ghost predicate WellAllocated(block: seq<Segment>, n: nat, layouts: Layouts, instrs: seq<Instr>, thumb: bool,
      plans: seq<Plan>) {
    && n <= |block| <= |instrs| == |plans| && |layouts.mid| == |block| && |layouts.at| == |block| + 1
    && layouts.at[0] == NOTHING_LOADED
    && forall k | 0 <= k < n ::
         Fits(layouts.at[k], block[k], layouts.mid[k], layouts.at[k + 1], instrs[k], thumb, plans[k])
  }

  lemma FitsCompiled(a: Alloc, seg: Segment, mid: Alloc, b: Alloc, instr: Instr, thumb: bool, plan: Plan)
    requires seg.Compiled? && plan.canCompile
    requires Simulates(a, seg.ops, mid, instr.pc) && b == AfterInstr(mid, plan.constant)
    requires mid.mapping == seg.mapping && mid.literals == seg.literals == a.literals - instr.info.dst
    requires Ready(mid, instr, thumb) && b.dirty <= b.mapping.Keys && seg.exit == Saves(b, 16)
    ensures Fits(a, seg, mid, b, instr, thumb, plan)
  {
  }

  lemma FitsInterpreted(a: Alloc, seg: Segment, mid: Alloc, b: Alloc, instr: Instr, thumb: bool, plan: Plan)
    requires seg.Interpreted? && !plan.canCompile
    requires Simulates(a, seg.ops, mid, instr.pc) && b == AfterInstr(mid, plan.constant)
    requires mid == NOTHING_LOADED
    ensures Fits(a, seg, mid, b, instr, thumb, plan)
  {
  }

  lemma PreparedMeans(thumb: bool, instrs: seq<Instr>, i: nat, pcAllocatableAsSrc: bool, available: nat,
      before: set<Reg>, after: set<Reg>, stale: set<Reg>)
    requires i < |instrs|
    requires Prepared(instrs[i], Always(thumb, instrs[i]), Necessary(instrs[i], pcAllocatableAsSrc), instrs[i..],
        available, before, after, stale)
    ensures stale <= instrs[i].info.dst - instrs[i].info.src && (stale != {} ==> Always(thumb, instrs[i]))
  {
  }

  /** The constants in the layouts are those known. */
  lemma {:induction false} LayoutKnows(block: seq<Segment>, n: nat, layouts: Layouts, instrs: seq<Instr>, thumb: bool,
      plans: seq<Plan>, k: nat)
    requires WellAllocated(block, n, layouts, instrs, thumb, plans) && k <= n
    ensures layouts.at[k].literals == KnownBefore(instrs, plans, k)
  {
    hide Simulates, Ready;
    if k > 0 {
      LayoutKnows(block, n, layouts, instrs, thumb, plans, k - 1);
      assert Fits(layouts.at[k - 1], block[k - 1], layouts.mid[k - 1], layouts.at[k], instrs[k - 1], thumb,
          plans[k - 1]);
    }
  }

  lemma SegmentKnows(block: seq<Segment>, n: nat, layouts: Layouts, instrs: seq<Instr>, thumb: bool,
      plans: seq<Plan>, k: nat)
    requires WellAllocated(block, n, layouts, instrs, thumb, plans) && k < n
    ensures block[k].Compiled? <==> plans[k].canCompile
    ensures block[k].Compiled? ==> block[k].literals == KnownAt(instrs, plans, k)
  {
    hide Simulates, Ready, KnownBefore;
    LayoutKnows(block, n, layouts, instrs, thumb, plans, k);
    assert Fits(layouts.at[k], block[k], layouts.mid[k], layouts.at[k + 1], instrs[k], thumb, plans[k]);
  }

  // ---- Meaning -------------------------------------------------------------------------------

  ghost function RunSegment<W>(seg: Segment, code: Code<W>, instr: Instr, f: File, w: W): (File, W) {
    var f := Exec(seg.ops, f);
    match seg
    case Compiled(_, mapping, literals, _) => RunCompiled(code(literals), instr, mapping, f, w)
    case Interpreted(_) =>
      var e := code(map[])(f.mem[15 := instr.pc], w);
      (f.(mem := e.regs), e.world)
  }

  /** Execution of the first `k` segments of a block. */
  ghost function BlockRun<W>(block: seq<Segment>, codes: seq<Code<W>>, instrs: seq<Instr>, k: nat, f: File,
      w: W): (File, W)
    requires k <= |block| && k <= |codes| <= |instrs|
  {
    if k == 0 then (f, w) else
      var s := BlockRun(block, codes, instrs, k - 1, f, w);
      RunSegment(block[k - 1], codes[k - 1], instrs[k - 1], s.0, s.1)
  }

  ghost predicate AllObey<W(!new)>(codes: seq<Code<W>>, instrs: seq<Instr>, thumb: bool, plans: seq<Plan>) {
    && |codes| == |instrs| == |plans|
    && forall k | 0 <= k < |codes| && plans[k].canCompile :: CodeObeys(codes[k], instrs[k], thumb)
  }

  lemma FaithfulObey<W(!new)>(codes: seq<Code<W>>, instrs: seq<Instr>, thumb: bool, plans: seq<Plan>, ok: W -> bool)
    requires AllFaithful(codes, instrs, thumb, plans, ok)
    ensures AllObey(codes, instrs, thumb, plans)
  {
    hide CodeObeys, Specialised, Leaves;
    forall k | 0 <= k < |codes| && plans[k].canCompile
      ensures CodeObeys(codes[k], instrs[k], thumb)
    {
      assert Faithful(codes[k], instrs[k], thumb, plans[k], ok);
    }
  }

  lemma AfterConstant(a: Alloc, f: File, g: Regs, constant: Constant)
    requires Represents(Executed(a), f, g)
    ensures Represents(AfterInstr(a, constant), f, g)
  {
  }

  /** Wherever the allocator has put the registers, a segment does what its code does to all of them. */
  lemma SegmentMatches<W(!new)>(a: Alloc, seg: Segment, mid: Alloc, b: Alloc, code: Code<W>, instr: Instr, thumb: bool,
      plan: Plan, f: File, g: Regs, w: W, nextPc: Word)
    requires Fits(a, seg, mid, b, instr, thumb, plan) && (plan.canCompile ==> CodeObeys(code, instr, thumb))
    requires g[15] == instr.pc && Represents(a, f, g)
    ensures var e := Direct(code(if seg.Compiled? then seg.literals else map[]), instr, g, w);
            var s := RunSegment(seg, code, instr, f, w);
            s.1 == e.world && Represents(b, s.0, e.regs[15 := nextPc])
  {
    hide Exec, Obeys;
    var f1 := Exec(seg.ops, f);
    assert Represents(mid, f1, g);
    assert g[15 := instr.pc] == g;
    if seg.Compiled? {
      assert Obeys(code(seg.literals), instr, thumb);
      CompiledMatchesDirect(code(seg.literals), instr, thumb, mid, f1, g, w, nextPc);
      AfterConstant(mid, RunSegment(seg, code, instr, f, w).0,
          Direct(code(seg.literals), instr, g, w).regs[15 := nextPc], plan.constant);
    } else {
      assert f1.mem[15 := instr.pc] == g;
    }
  }

  lemma NothingRepresents(f: File, pc: Word)
    ensures Represents(NOTHING_LOADED, f, f.mem[15 := pc])
  {
  }

  /** The refinement relation holds between any two instructions. */
  lemma {:induction false} RunsMatch<W(!new)>(block: seq<Segment>, n: nat, layouts: Layouts, codes: seq<Code<W>>,
      instrs: seq<Instr>, thumb: bool, plans: seq<Plan>, k: nat, f: File, w: W, pc: Word)
    requires WellAllocated(block, n, layouts, instrs, thumb, plans) && AllObey(codes, instrs, thumb, plans) && k <= n
    ensures var c, d := BlockRun(block, codes, instrs, k, f, w), KnowingRun(codes, instrs, plans, k, f.mem, w);
            c.1 == d.1 && Represents(layouts.at[k], c.0, d.0[15 := pc])
  {
    hide Exec, Represents, Simulates, Fits, CodeObeys, RunSegment, Direct, KnownAt;
    if k == 0 {
      NothingRepresents(f, pc);
    } else {
      var j := k - 1;
      RunsMatch(block, n, layouts, codes, instrs, thumb, plans, j, f, w, instrs[j].pc);
      var c, d := BlockRun(block, codes, instrs, j, f, w), KnowingRun(codes, instrs, plans, j, f.mem, w);
      SegmentKnows(block, n, layouts, instrs, thumb, plans, j);
      DirectIgnoresR15(codes[j](if block[j].Compiled? then block[j].literals else map[]), instrs[j], d.0, d.1);
      SegmentMatches(layouts.at[j], block[j], layouts.mid[j], layouts.at[k], codes[j], instrs[j], thumb, plans[j],
          c.0, d.0[15 := instrs[j].pc], d.1, pc);
    }
  }

  lemma DirectIgnoresR15<W>(step: (Regs, W) -> Effect<W>, instr: Instr, g: Regs, w: W)
    ensures Direct(step, instr, g[15 := instr.pc], w) == Direct(step, instr, g, w)
  {
    assert g[15 := instr.pc][15 := instr.pc] == g[15 := instr.pc];
  }

  /** The allocator is correct on every block: after the whole block and its final flush, r0-r14 in memory and
      everything else are what the instructions' codes make of them one after the other. */
  lemma AllocationRefines<W(!new)>(block: seq<Segment>, tail: seq<Op>, layouts: Layouts, codes: seq<Code<W>>,
      instrs: seq<Instr>, thumb: bool, plans: seq<Plan>, f: File, w: W, pc: Word)
    requires WellAllocated(block, |block|, layouts, instrs, thumb, plans) && AllObey(codes, instrs, thumb, plans)
    requires Simulates(layouts.at[|block|], tail, NOTHING_LOADED, pc)
    ensures var c := BlockRun(block, codes, instrs, |block|, f, w);
            var d := KnowingRun(codes, instrs, plans, |block|, f.mem, w);
            c.1 == d.1 && Exec(tail, c.0).mem[..15] == d.0[..15]
  {
    hide Exec, Fits, CodeObeys;
    RunsMatch(block, |block|, layouts, codes, instrs, thumb, plans, |block|, f, w, pc);
    var c := BlockRun(block, codes, instrs, |block|, f, w);
    var d := KnowingRun(codes, instrs, plans, |block|, f.mem, w);
    assert Represents(NOTHING_LOADED, Exec(tail, c.0), d.0[15 := pc]);
  }

  /** The register cache refines direct execution, if no instruction uses a constant exchanged since it became
      known. */
  lemma BlockRefines<W(!new)>(block: seq<Segment>, tail: seq<Op>, layouts: Layouts, codes: seq<Code<W>>,
      instrs: seq<Instr>, thumb: bool, plans: seq<Plan>, ok: W -> bool, f: File, w: W, pc: Word)
    requires WellAllocated(block, |block|, layouts, instrs, thumb, plans) && ok(w)
    requires AllFaithful(codes, instrs, thumb, plans, ok)
    requires forall k | 0 <= k < |block| :: UsesKept(instrs, plans, k)
    requires Simulates(layouts.at[|block|], tail, NOTHING_LOADED, pc)
    ensures var c, d := BlockRun(block, codes, instrs, |block|, f, w), DirectRun(codes, instrs, |block|, f.mem, w);
            c.1 == d.1 && Exec(tail, c.0).mem[..15] == d.0[..15]
  {
    hide *;
    AllocatedLengths(block, |block|, layouts, instrs, thumb, plans);
    FaithfulObey(codes, instrs, thumb, plans, ok);
    KnowingChangesNothing(codes, instrs, thumb, plans, ok, |block|, f.mem, w);
    AllocationRefines(block, tail, layouts, codes, instrs, thumb, plans, f, w, pc);
  }

  lemma AllocatedLengths(block: seq<Segment>, n: nat, layouts: Layouts, instrs: seq<Instr>, thumb: bool,
      plans: seq<Plan>)
    requires WellAllocated(block, n, layouts, instrs, thumb, plans)
    ensures n <= |block| <= |instrs| == |plans| && |layouts.mid| == |block| && |layouts.at| == |block| + 1
  {
  }

  /** The same at every side exit: its saves leave r0-r14 in memory as direct execution does. */
  lemma SideExitRefines<W(!new)>(block: seq<Segment>, n: nat, layouts: Layouts, codes: seq<Code<W>>,
      instrs: seq<Instr>, thumb: bool, plans: seq<Plan>, ok: W -> bool, k: nat, f: File, w: W)
    requires WellAllocated(block, n, layouts, instrs, thumb, plans) && k < n && block[k].Compiled? && ok(w)
    requires AllFaithful(codes, instrs, thumb, plans, ok)
    requires forall j | 0 <= j <= k :: UsesKept(instrs, plans, j)
    ensures var c, d := BlockRun(block, codes, instrs, k + 1, f, w), DirectRun(codes, instrs, k + 1, f.mem, w);
            c.1 == d.1 && Exec(block[k].exit, c.0).mem[..15] == d.0[..15]
  {
    hide Exec, Faithful, CodeObeys, UsesKept, Simulates, BlockRun, DirectRun, KnowingRun, Represents;
    FaithfulObey(codes, instrs, thumb, plans, ok);
    KnowingChangesNothing(codes, instrs, thumb, plans, ok, k + 1, f.mem, w);
    RunsMatch(block, n, layouts, codes, instrs, thumb, plans, k + 1, f, w, 0);
    var c, d := BlockRun(block, codes, instrs, k + 1, f, w), DirectRun(codes, instrs, k + 1, f.mem, w);
    assert Fits(layouts.at[k], block[k], layouts.mid[k], layouts.at[k + 1], instrs[k], thumb, plans[k]);
    SavesRestoreMemory(layouts.at[k + 1], c.0, d.0[15 := 0]);
    assert d.0[15 := 0][..15] == d.0[..15];
  }

  /** In every run of every faithful code the compiled block does what direct execution does. */
  ghost predicate RefinesAlways(block: seq<Segment>, tail: seq<Op>, instrs: seq<Instr>, thumb: bool,
      plans: seq<Plan>)
    requires |block| == |instrs|
  {
    forall codes: seq<Code<nat>>, f: File, w: nat | AllFaithful(codes, instrs, thumb, plans, Anywhere) ::
      var c, d := BlockRun(block, codes, instrs, |block|, f, w), DirectRun(codes, instrs, |block|, f.mem, w);
      c.1 == d.1 && Exec(tail, c.0).mem[..15] == d.0[..15]
  }

  /** The exact condition on a block: no instruction uses a constant that has been exchanged since it became
      known. */
  lemma RefinesIff(block: seq<Segment>, tail: seq<Op>, layouts: Layouts, instrs: seq<Instr>, thumb: bool,
      plans: seq<Plan>, pc: Word)
    requires WellAllocated(block, |block|, layouts, instrs, thumb, plans) && |block| == |instrs|
    requires Planned(instrs, thumb, plans) && Simulates(layouts.at[|block|], tail, NOTHING_LOADED, pc)
    ensures RefinesAlways(block, tail, instrs, thumb, plans)
        <==> forall k | 0 <= k < |instrs| :: UsesKept(instrs, plans, k)
  {
    hide Exec, Fits, PlanFits, Faithful, UsesKept, Simulates, BlockRun, DirectRun, KnowingRun;
    if forall k | 0 <= k < |instrs| :: UsesKept(instrs, plans, k) {
      forall codes: seq<Code<nat>>, f: File, w: nat | AllFaithful(codes, instrs, thumb, plans, Anywhere)
        ensures var c, d := BlockRun(block, codes, instrs, |block|, f, w), DirectRun(codes, instrs, |block|, f.mem, w);
                c.1 == d.1 && Exec(tail, c.0).mem[..15] == d.0[..15]
      {
        BlockRefines(block, tail, layouts, codes, instrs, thumb, plans, Anywhere, f, w, pc);
      }
    } else {
      var k := FirstUnkept(instrs, plans, |instrs|);
      var codes := UnkeptMisleads(instrs, thumb, plans, k);
      var g: Regs, n: Natives := seq(16, _ => 0), seq(32, _ => 0);
      FaithfulObey(codes, instrs, thumb, plans, Anywhere);
      AllocationRefines(block, tail, layouts, codes, instrs, thumb, plans, File(g, n), 0, pc);
      assert KnowingRun(codes, instrs, plans, |instrs|, g, 0).1 > 0;
    }
  }

  /** A register the compiler takes for a constant has that value when the instruction starts, in all runs, if and
      only if it has not been exchanged since the instruction that left the value. */
  lemma LiteralsAreTrue<W(!new)>(block: seq<Segment>, n: nat, layouts: Layouts, instrs: seq<Instr>, thumb: bool,
      plans: seq<Plan>, ok: W -> bool, world: W, k: nat, r: Reg) returns (j: nat)
    requires WellAllocated(block, n, layouts, instrs, thumb, plans) && Planned(instrs, thumb, plans) && ok(world)
    requires k < n && block[k].Compiled? && r in block[k].literals
    ensures j < k && StillKnown(instrs, plans, r, j, k)
    ensures HoldsAlways(instrs, thumb, plans, ok, r, block[k].literals[r], k) <==> !Exchanged(instrs, r, j, k)
  {
    hide Fits, PlanFits, HoldsAlways, Exchanged, StillKnown;
    SegmentKnows(block, n, layouts, instrs, thumb, plans, k);
    j := KnownSince(instrs, plans, r, k);
    KnownIsTrueIff(instrs, thumb, plans, ok, world, r, j, k);
  }

  // ---- The compiler's loop -------------------------------------------------------------------

  /** One turn of the compiler's loop. The instruction's own code unloads registers as well. */
  method CompileInstr(cache: Cache, thumb: bool, i: nat, plan: Plan) returns (seg: Segment, ghost mid: Alloc)
    requires cache.Valid() && cache.code == [] && cache.start == cache.layout && cache.layout.stale <= {15}
    requires i < |cache.instrs| < 1000 && PlanFits(cache.instrs[i], thumb, plan, i == |cache.instrs| - 1)
    requires Allocatable(|cache.nativeRegAllocOrder|, cache.pcAllocatableAsSrc, cache.instrs[i])
    requires 15 !in cache.literalsLoaded
    modifies cache, cache.mapping, cache.literalValues
    ensures cache.Valid() && cache.code == [] && cache.start == cache.layout && cache.layout.stale <= {15}
    ensures cache.r15 == cache.instrs[i].pc && seg.Compiled? == plan.canCompile
    ensures 15 in cache.literalsLoaded ==> i == |cache.instrs| - 1
    ensures Fits(old(cache.layout), seg, mid, cache.layout, cache.instrs[i], thumb, plan)
  {
    hide *;
    PlanMeans(cache.instrs[i], thumb, plan, i == |cache.instrs| - 1);
    cache.Begin(cache.instrs[i].pc);
    if plan.canCompile {
      mid := PrepareInstr(cache, thumb, i, plan);
      var ops, mapping, literals := cache.code, cache.CurrentMapping(), cache.CurrentLiterals();
      cache.Finish(plan.constant);
      var exit := cache.PrepareExit();
      seg := Compiled(ops, mapping, literals, exit);
      cache.LayoutFacts();
      FitsCompiled(old(cache.layout), seg, mid, cache.layout, cache.instrs[i], thumb, plan);
    } else {
      cache.Flush();
      cache.LayoutFacts();
      mid := cache.layout;
      seg := Interpreted(cache.code);
      cache.Finish(plan.constant);
      FitsInterpreted(old(cache.layout), seg, mid, cache.layout, cache.instrs[i], thumb, plan);
    }
  }

  lemma PlanMeans(instr: Instr, thumb: bool, plan: Plan, last: bool)
    requires PlanFits(instr, thumb, plan, last)
    ensures plan.unloads !! instr.info.dst - instr.info.src
    ensures plan.constant.Constant? && plan.constant.reg == 15 ==> last
  {
  }

  /** The layout on which the compiled instruction runs. */
  method PrepareInstr(cache: Cache, thumb: bool, i: nat, plan: Plan) returns (ghost mid: Alloc)
    requires cache.Valid() && cache.start == cache.layout && cache.layout.stale <= {15}
    requires i < |cache.instrs| < 1000 && cache.r15 == cache.instrs[i].pc
    requires Allocatable(|cache.nativeRegAllocOrder|, cache.pcAllocatableAsSrc, cache.instrs[i])
    requires PlanFits(cache.instrs[i], thumb, plan, i == |cache.instrs| - 1) && 15 !in cache.literalsLoaded
    modifies cache`dirtyRegs, cache`loadedRegs, cache`nativeRegsUsed, cache`layout, cache`code, cache`literalsLoaded,
        cache.mapping
    ensures cache.Valid() && mid == cache.layout && cache.start == old(cache.layout)
    ensures mid.literals == old(cache.layout).literals - cache.instrs[i].info.dst && 15 !in cache.literalsLoaded
    ensures Simulates(cache.start, cache.code, mid, cache.r15) && Ready(mid, cache.instrs[i], thumb)
  {
    hide *;
    var instr := cache.instrs[i];
    AllocatableMeans(|cache.nativeRegAllocOrder|, cache.pcAllocatableAsSrc, instr);
    cache.LayoutFacts();
    cache.Prepare(thumb, i);
    PreparedMeans(thumb, cache.instrs, i, cache.pcAllocatableAsSrc, |cache.nativeRegAllocOrder|,
        old(cache.loadedRegs), cache.loadedRegs, cache.layout.stale);
    PlanMeans(instr, thumb, plan, i == |cache.instrs| - 1);
    cache.UnloadAll(plan.unloads * cache.loadedRegs);
    cache.LayoutFacts();
    mid := cache.layout;
    LiteralsLess(old(cache.literalsLoaded), instr.info.dst, cache.literalValues[..]);
    ReadyIs(mid, instr, thumb);
  }

  lemma AllocatableMeans(available: nat, pcAllocatableAsSrc: bool, instr: Instr)
    requires Allocatable(available, pcAllocatableAsSrc, instr)
    ensures instr.info.notStrictlyNeeded <= instr.info.src + instr.info.dst
    ensures |Necessary(instr, pcAllocatableAsSrc)| <= available
  {
  }

  lemma LiteralsLess(loaded: set<Reg>, gone: set<Reg>, values: seq<Word>)
    requires |values| == 16
    ensures NativeMapping.Literals(loaded - gone - {15}, values) == NativeMapping.Literals(loaded - {15}, values) - gone
  {
  }

  lemma ReadyIs(mid: Alloc, instr: Instr, thumb: bool)
    requires Injective(mid.mapping) && mid.dirty <= mid.mapping.Keys
    requires mid.stale <= instr.info.dst - instr.info.src && mid.stale <= mid.mapping.Keys
        && (mid.stale != {} ==> Always(thumb, instr))
    requires mid.mapping.Keys * instr.info.dst - {15} <= mid.dirty
    ensures Ready(mid, instr, thumb)
  {
  }

  method CompileBlock(order: seq<Native>, pcAllocatableAsSrc: bool, thumb: bool, instrs: seq<Instr>, plans: seq<Plan>)
      returns (block: seq<Segment>, tail: seq<Op>, ghost layouts: Layouts)
    requires Compilable(order, pcAllocatableAsSrc, instrs, thumb, plans)
    ensures |block| == |instrs| && forall k | 0 <= k < |block| :: block[k].Compiled? <==> plans[k].canCompile
    ensures WellAllocated(block, |block|, layouts, instrs, thumb, plans)
    ensures Simulates(layouts.at[|block|], tail, NOTHING_LOADED, if instrs == [] then 0 else instrs[|instrs| - 1].pc)
  {
    hide Fits, Cache.Valid, Simulates, Necessary, PlanFits, Allocatable;
    var cache := new Cache(order, instrs, pcAllocatableAsSrc);
    block, layouts := [], Layouts([], [NOTHING_LOADED]);
    for i := 0 to |instrs|
      invariant cache.Valid() && fresh(cache) && fresh(cache.mapping) && fresh(cache.literalValues)
      invariant cache.nativeRegAllocOrder == order && cache.instrs == instrs
          && cache.pcAllocatableAsSrc == pcAllocatableAsSrc
      invariant |block| == i && forall k | 0 <= k < i :: block[k].Compiled? <==> plans[k].canCompile
      invariant WellAllocated(block, i, layouts, instrs, thumb, plans)
      invariant layouts.at[i] == cache.layout == cache.start && cache.code == [] && cache.layout.stale <= {15}
      invariant 15 in cache.literalsLoaded ==> i == |instrs|
      invariant cache.r15 == if i == 0 then 0 else instrs[i - 1].pc
    {
      var seg, mid := CompileInstr(cache, thumb, i, plans[i]);
      block := block + [seg];
      layouts := Layouts(layouts.mid + [mid], layouts.at + [cache.layout]);
    }
    cache.Flush();
    cache.LayoutFacts();
    tail := cache.code;
  }
}
