/**
 The JIT's register allocator: sixteen guest registers on a handful of native ones, with dirty
 bits, look-ahead ranking, eviction, and no load of a value that is about to be overwritten.
 Every method returns the copies it emits.
 */
module RegisterCache {
  import opened MachineWords
  import opened Sequences
  import opened EmittedCode
  import opened NativeMapping

  // ---- What the look-ahead computes ---------------------------------------------------------

  function Needed(instr: Instr): set<Reg> {
    (instr.info.src - {15}) + instr.info.dst
  }

  /** Registers some instruction of `s` mentions. */
  function Future(s: seq<Instr>): set<Reg> {
    if s == [] then {} else Future(s[..|s| - 1]) + Needed(s[|s| - 1])
  }

  /** In how many instructions of `s` register `r` is strictly needed. */
  function Rank(s: seq<Instr>, r: Reg): (n: nat)
    ensures n <= |s|
  {
    if s == [] then 0 else
      var last := s[|s| - 1];
      Rank(s[..|s| - 1], r) + if r in Needed(last) - last.info.notStrictlyNeeded then 1 else 0
  }

  /** The registers instruction `instr` cannot run without. */
  function Necessary(instr: Instr, pcAllocatableAsSrc: bool): set<Reg> {
    ((if pcAllocatableAsSrc then instr.info.src else instr.info.src - {15})
        + instr.info.dst) - instr.info.notStrictlyNeeded
  }

  predicate Bounded(ranking: seq<nat>) {
    |ranking| == 16 && forall r: Reg :: ranking[r] < 1000
  }

  ghost predicate IsRanking(ranking: seq<nat>, rest: seq<Instr>) {
    |ranking| == 16 && forall r: Reg :: ranking[r] == Rank(rest, r)
  }

  method RankRegisters(instrs: seq<Instr>, i: nat) returns (futureNeeded: set<Reg>, ranking: seq<nat>)
    requires i < |instrs|
    ensures futureNeeded == Future(instrs[i..])
    ensures IsRanking(ranking, instrs[i..])
  {
    futureNeeded, ranking := {}, seq(16, _ => 0);
    for j := i to |instrs|
      invariant futureNeeded == Future(instrs[i..j])
      invariant |ranking| == 16 && forall r: Reg :: ranking[r] == Rank(instrs[i..j], r)
    {
      ghost var done, more := instrs[i..j], instrs[i..j + 1];
      assert more[..|more| - 1] == done && more[|more| - 1] == instrs[j];
      var regsNeeded := (instrs[j].info.src - {15}) + instrs[j].info.dst;
      futureNeeded := futureNeeded + regsNeeded;
      regsNeeded := regsNeeded - instrs[j].info.notStrictlyNeeded;
      ghost var before := ranking;
      for reg := 0 to 16
        invariant |ranking| == 16
        invariant forall r: Reg :: ranking[r] == before[r] + if r < reg && r in regsNeeded then 1 else 0
      {
        if reg in regsNeeded {
          ranking := ranking[reg := ranking[reg] + 1];
        }
      }
    }
    assert instrs[i..|instrs|] == instrs[i..];
  }

  /** `PutLiteral`: what the compiler may know about the result of an instruction. */
  datatype Constant = NoConstant | Constant(reg: Reg, val: Word)

  /** A constant for r15 ends the block, and is not looked up again. */
  function WithConstant(known: map<Reg, Word>, constant: Constant): map<Reg, Word> {
    if constant.NoConstant? || constant.reg == 15 then known else known[constant.reg := constant.val]
  }

  ghost function AfterInstr(a: Alloc, constant: Constant): Alloc {
    Executed(a).(literals := WithConstant(a.literals, constant))
  }

  lemma AfterLiteral(loaded: set<Reg>, values: seq<Word>, constant: Constant)
    requires |values| == 16 && constant.Constant?
    ensures var v := values[constant.reg := constant.val];
            Literals(loaded + {constant.reg} - {15}, v) == WithConstant(Literals(loaded - {15}, values), constant)
  {
  }

  // ---- The allocator -------------------------------------------------------------------------

  class Cache {
    const nativeRegAllocOrder: seq<Native>
    const pcAllocatableAsSrc: bool
    const instrs: seq<Instr>

    const mapping: array<int>
    const literalValues: array<Word>
    var literalsLoaded: set<Reg>
    var nativeRegsUsed: set<int>
    var loadedRegs: set<Reg>
    var dirtyRegs: set<Reg>

    var r15: Word            // the compiler's R15: the value r15 shows to the current instruction
    var code: seq<Op>        // the compiler's output since the previous instruction
    ghost var start: Alloc   // where registers lived when `code` was empty
    ghost var layout: Alloc  // where they live now; its `stale` registers are loaded without a value,
                             // to be written by the current instruction

    ghost predicate Valid()
      reads this, mapping, literalValues
    {
      && mapping.Length == 16 && literalValues.Length == 16 && mapping as object != literalValues as object
      && Consistent(mapping[..], loadedRegs, nativeRegsUsed, nativeRegAllocOrder)
      && dirtyRegs <= loadedRegs - {15}
      && layout.mapping == Mapped(mapping[..], loadedRegs, nativeRegsUsed, nativeRegAllocOrder)
      && layout.dirty == dirtyRegs
      && layout.stale <= loadedRegs
      && layout.literals == Literals(literalsLoaded - {15}, literalValues[..])
      && Simulates(start, code, layout, r15)
    }

    constructor (order: seq<Native>, instrs: seq<Instr>, pcAllocatableAsSrc: bool)
      requires Distinct(order)
      ensures Valid() && fresh(mapping) && fresh(literalValues)
      ensures nativeRegAllocOrder == order && this.instrs == instrs && this.pcAllocatableAsSrc == pcAllocatableAsSrc
      ensures layout == start == NOTHING_LOADED && code == [] && r15 == 0 && literalsLoaded == {}
    {
      nativeRegAllocOrder := order;
      this.instrs := instrs;
      this.pcAllocatableAsSrc := pcAllocatableAsSrc;
      mapping := new int[16](_ => -1);
      literalValues := new Word[16];
      literalsLoaded, nativeRegsUsed, loadedRegs, dirtyRegs := {}, {}, {}, {};
      r15, code := 0, [];
      layout, start := NOTHING_LOADED, NOTHING_LOADED;
      WeakenSimulates(NOTHING_LOADED, NOTHING_LOADED, 0);
    }

    /** The compiler appends copies to its output. */
    method Emit(ops: seq<Op>, ghost next: Alloc)
      requires Simulates(start, code, layout, r15) && Simulates(layout, ops, next, r15)
      modifies this`code, this`layout
      ensures code == old(code) + ops && layout == next && Simulates(start, code, layout, r15)
    {
      SimulatesCompose(start, code, layout, ops, next, r15);
      code := code + ops;
      layout := next;
    }

    lemma LayoutFacts()
      requires Valid()
      ensures layout.mapping.Keys == loadedRegs && Injective(layout.mapping) && layout.dirty == dirtyRegs
          && layout.stale <= loadedRegs
      ensures layout.literals == Literals(literalsLoaded - {15}, literalValues[..]) && literalValues.Length == 16
      ensures layout.literals.Keys == literalsLoaded - {15} && dirtyRegs <= loadedRegs
      ensures Simulates(start, code, layout, r15)
    {
    }

    /** What the compiler reads off `Mapping` while it emits an instruction. */
    function CurrentMapping(): (m: map<Reg, Native>)
      requires Valid()
      reads this, mapping, literalValues
      ensures m == layout.mapping
    {
      map r | r in loadedRegs :: mapping[r]
    }

    /** What `IsLiteral` and `LiteralValues` tell it. A constant for r15 ends a block. */
    function CurrentLiterals(): (m: map<Reg, Word>)
      requires Valid() && 15 !in literalsLoaded
      reads this, mapping, literalValues
      ensures m == layout.literals
    {
      map r | r in literalsLoaded :: literalValues[r]
    }

    lemma FreeNative()
      requires Valid()
      ensures |loadedRegs| < |nativeRegAllocOrder| ==>
                exists i | 0 <= i < |nativeRegAllocOrder| :: nativeRegAllocOrder[i] !in nativeRegsUsed
    {
      if |loadedRegs| < |nativeRegAllocOrder| {
        SomeNativeFree(mapping[..], loadedRegs, nativeRegsUsed, nativeRegAllocOrder);
      }
    }

    lemma CountLoaded()
      requires Valid()
      ensures |loadedRegs| <= |nativeRegAllocOrder| && layout.stale <= loadedRegs
    {
      LoadedFits(mapping[..], loadedRegs, nativeRegsUsed, nativeRegAllocOrder);
    }

    method UnloadRegister(reg: Reg)
      requires Valid() && reg in loadedRegs
      requires reg !in layout.stale || reg == 15
      modifies this`dirtyRegs, this`loadedRegs, this`nativeRegsUsed, this`layout, this`code, mapping
      ensures Valid() && layout == Unloaded(old(layout), reg) && code == old(code) + UnloadOps(old(layout), reg)
      ensures loadedRegs == old(loadedRegs) - {reg} && dirtyRegs == old(dirtyRegs) - {reg}
          && layout.stale == old(layout.stale) - {reg}
    {
      hide Simulates, Consistent, Mapped, Literals;
      UnloadSimulates(layout, reg, r15);
      ConsistentUnload(mapping[..], loadedRegs, nativeRegsUsed, nativeRegAllocOrder, reg);
      MappedAt(mapping[..], loadedRegs, nativeRegsUsed, nativeRegAllocOrder, reg);
      var ops := [];
      if reg in dirtyRegs {
        ops := [Save(reg, mapping[reg])];
      }
      Emit(ops, Unloaded(layout, reg));
      dirtyRegs := dirtyRegs - {reg};
      loadedRegs := loadedRegs - {reg};
      nativeRegsUsed := nativeRegsUsed - {mapping[reg]};
      mapping[reg] := -1;
      assert mapping[..] == old(mapping[..])[reg := -1];
    }

    /** The tail of `LoadRegister`: put `reg` into a native register that is free. */
    method Assign(reg: Reg, nativeReg: Native, loadValue: bool)
      requires Valid() && reg !in loadedRegs && nativeReg in nativeRegAllocOrder && nativeReg !in nativeRegsUsed
      modifies this`loadedRegs, this`nativeRegsUsed, this`layout, this`code, mapping
      ensures Valid() && mapping[reg] == nativeReg
      ensures layout == Loaded(old(layout), reg, nativeReg, loadValue)
      ensures code == old(code) + LoadOps(reg, nativeReg, loadValue, r15)
      ensures loadedRegs == old(loadedRegs) + {reg} && layout.stale == old(layout.stale) + if loadValue then {}
          else {reg}
    {
      hide Simulates, Consistent, Mapped, Literals;
      LoadSimulates(layout, reg, nativeReg, loadValue, r15);
      ConsistentLoad(mapping[..], loadedRegs, nativeRegsUsed, nativeRegAllocOrder, reg, nativeReg);
      mapping[reg] := nativeReg;
      nativeRegsUsed := nativeRegsUsed + {nativeReg};
      loadedRegs := loadedRegs + {reg};
      var ops := [];
      if loadValue {
        ops := if reg == 15 then [LoadImm(nativeReg, r15)] else [Load(reg, nativeReg)];
      }
      Emit(ops, Loaded(layout, reg, nativeReg, loadValue));
      assert mapping[..] == old(mapping[..])[reg := nativeReg];
    }

    /** The source aborts when no native register is free; its callers must see to it that one is. */
    method LoadRegister(reg: Reg, loadValue: bool)
      requires Valid() && reg !in loadedRegs && |loadedRegs| < |nativeRegAllocOrder|
      modifies this`loadedRegs, this`nativeRegsUsed, this`layout, this`code, mapping
      ensures Valid() && FirstFree(nativeRegAllocOrder, old(nativeRegsUsed), mapping[reg])
      ensures layout == Loaded(old(layout), reg, mapping[reg], loadValue)
      ensures code == old(code) + LoadOps(reg, mapping[reg], loadValue, r15)
      ensures loadedRegs == old(loadedRegs) + {reg} && layout.stale == old(layout.stale) + if loadValue then {}
          else {reg}
    {
      hide *;
      FreeNative();
      for i := 0 to |nativeRegAllocOrder|
        invariant unchanged(this) && unchanged(mapping)
        invariant forall j | 0 <= j < i :: nativeRegAllocOrder[j] in nativeRegsUsed
      {
        var nativeReg := nativeRegAllocOrder[i];
        if nativeReg !in nativeRegsUsed {
          FirstFreeAt(nativeRegAllocOrder, nativeRegsUsed, i);
          Assign(reg, nativeReg, loadValue);
          return;
        }
      }
      assert false;
    }

    /** Copies emitted on a side exit: the allocator itself is left alone. */
    method PrepareExit() returns (ops: seq<Op>)
      requires Valid()
      ensures ops == Saves(layout, 16)
      ensures forall f: File, g: Regs | Represents(layout, f, g) && layout.stale <= {15} ::
          Exec(ops, f).mem[..15] == g[..15]
    {
      ops := [];
      for reg := 0 to 16
        invariant ops == Saves(layout, reg)
      {
        if reg in dirtyRegs {
          ops := ops + [Save(reg, mapping[reg])];
        }
      }
      forall f: File, g: Regs | Represents(layout, f, g) && layout.stale <= {15}
        ensures Exec(ops, f).mem[..15] == g[..15]
      {
        SavesRestoreMemory(layout, f, g);
      }
    }

    /** The loop `for (int reg : regs) UnloadRegister(reg)`, used in three places. */
    method UnloadAll(regs: set<Reg>)
      requires Valid() && regs <= loadedRegs && regs * layout.stale <= {15}
      modifies this`dirtyRegs, this`loadedRegs, this`nativeRegsUsed, this`layout, this`code, mapping
      ensures Valid() && loadedRegs == old(loadedRegs) - regs && dirtyRegs == old(dirtyRegs) - regs
          && layout.stale == old(layout.stale) - regs
    {
      hide *;
      ghost var stale0 := layout.stale;
      RemoveStep(loadedRegs, loadedRegs, regs, 0);
      RemoveStep(dirtyRegs, dirtyRegs, regs, 0);
      RemoveStep(stale0, stale0, regs, 0);
      for reg := 0 to 16
        invariant Valid()
        invariant Removed(old(loadedRegs), loadedRegs, regs, reg) && Removed(old(dirtyRegs), dirtyRegs, regs, reg)
        invariant Removed(stale0, layout.stale, regs, reg) && layout.stale <= stale0 && regs * stale0 <= {15}
      {
        RemoveStep(old(loadedRegs), loadedRegs, regs, reg);
        RemoveStep(old(dirtyRegs), dirtyRegs, regs, reg);
        RemoveStep(stale0, layout.stale, regs, reg);
        if reg in regs {
          assert reg in layout.stale ==> reg in regs * stale0;
          UnloadRegister(reg);
        }
      }
      RemoveStep(old(loadedRegs), loadedRegs, regs, 0);
      RemoveStep(old(dirtyRegs), dirtyRegs, regs, 0);
      RemoveStep(stale0, layout.stale, regs, 0);
    }

    method Flush()
      requires Valid() && layout.stale <= {15}
      modifies this`dirtyRegs, this`loadedRegs, this`nativeRegsUsed, this`layout, this`code, this`literalsLoaded,
          mapping
      ensures Valid() && layout == NOTHING_LOADED && literalsLoaded == {}
    {
      UnloadAll(loadedRegs);
      WeakenSimulates(layout, NOTHING_LOADED, r15);
      literalsLoaded := {};
      Emit([], NOTHING_LOADED);
    }

    /** The loaded register that is not necessary and ranks lowest, or -1. */
    method LeastRanked(necessaryRegs: set<Reg>, ranking: seq<nat>) returns (leastReg: int)
      requires Bounded(ranking)
      ensures loadedRegs <= necessaryRegs ==> leastReg == -1
      ensures !(loadedRegs <= necessaryRegs) ==>
                && leastReg in loadedRegs && leastReg !in necessaryRegs
                && forall r | r in loadedRegs && r !in necessaryRegs :: ranking[leastReg] <= ranking[r]
    {
      leastReg := -1;
      var rank := 1000;
      for reg := 0 to 16
        invariant leastReg == -1 ==> rank == 1000 && forall r | r in loadedRegs :: r in necessaryRegs || reg <= r
        invariant leastReg != -1 ==> leastReg in loadedRegs && leastReg !in necessaryRegs && rank == ranking[leastReg]
        invariant forall r | r in loadedRegs && r !in necessaryRegs :: reg <= r || rank <= ranking[r]
      {
        if reg in loadedRegs && reg !in necessaryRegs && ranking[reg] < rank {
          leastReg := reg;
          rank := ranking[reg];
        }
      }
    }

    /** The eviction loop. Its assertion that a victim exists never fails. */
    method MakeRoom(necessaryRegs: set<Reg>, needToBeLoaded: set<Reg>, ranking: seq<nat>)
      requires Valid() && layout.stale == {} && Bounded(ranking)
      requires needToBeLoaded == necessaryRegs - loadedRegs && |necessaryRegs| <= |nativeRegAllocOrder|
      modifies this`dirtyRegs, this`loadedRegs, this`nativeRegsUsed, this`layout, this`code, mapping
      ensures Valid() && layout.stale == {} && dirtyRegs <= old(dirtyRegs)
      ensures FairEviction(old(loadedRegs), loadedRegs, necessaryRegs, ranking)
      ensures needToBeLoaded !! loadedRegs && |loadedRegs| + |needToBeLoaded| <= |nativeRegAllocOrder|
      ensures loadedRegs == old(loadedRegs) || |loadedRegs| + |needToBeLoaded| == |nativeRegAllocOrder|
    {
      hide *;
      EvictNone(loadedRegs, necessaryRegs, ranking);
      var neededCount := |needToBeLoaded|;
      while |loadedRegs| + neededCount > |nativeRegAllocOrder|
        invariant Valid() && layout.stale == {}
        invariant FairEviction(old(loadedRegs), loadedRegs, necessaryRegs, ranking)
        invariant needToBeLoaded == necessaryRegs - loadedRegs && dirtyRegs <= old(dirtyRegs)
        invariant loadedRegs == old(loadedRegs) || |loadedRegs| + neededCount >= |nativeRegAllocOrder|
        decreases |loadedRegs|
      {
        var leastReg := LeastRanked(necessaryRegs, ranking);
        VictimExists(loadedRegs, necessaryRegs, |nativeRegAllocOrder|);
        assert leastReg != -1;
        EvictOne(old(loadedRegs), loadedRegs, necessaryRegs, ranking, leastReg);
        UnloadRegister(leastReg);
      }
    }

    /** The loop `for (int reg : regs) LoadRegister(reg, withValue[reg])`. */
    method LoadAll(regs: set<Reg>, withValue: set<Reg>)
      requires Valid() && regs !! loadedRegs && |loadedRegs| + |regs| <= |nativeRegAllocOrder|
      modifies this`loadedRegs, this`nativeRegsUsed, this`layout, this`code, mapping
      ensures Valid() && loadedRegs == old(loadedRegs) + regs && layout.stale == old(layout.stale) + (regs - withValue)
    {
      hide *;
      ghost var loaded0, stale0 := loadedRegs, layout.stale;
      AddBegins(loaded0, stale0, regs, withValue);
      for reg := 0 to 16
        invariant Valid() && Added(loaded0, stale0, loadedRegs, layout.stale, regs, withValue, reg)
      {
        AddStep(loaded0, stale0, loadedRegs, layout.stale, regs, withValue, reg);
        if reg in regs {
          LoadRegister(reg, reg in withValue);
        }
      }
      AddEnds(loaded0, stale0, loadedRegs, layout.stale, regs, withValue, 16);
    }

    /** The loop that spends what natives are left on registers that are merely useful. */
    method LoadSome(regs: set<Reg>, withValue: set<Reg>)
      requires Valid() && regs !! loadedRegs && |loadedRegs| < |nativeRegAllocOrder|
      modifies this`loadedRegs, this`nativeRegsUsed, this`layout, this`code, mapping
      ensures Valid() && old(loadedRegs) <= loadedRegs <= old(loadedRegs) + regs
      ensures loadedRegs == old(loadedRegs) + regs || |loadedRegs| == |nativeRegAllocOrder|
      ensures layout.stale == old(layout.stale) + (loadedRegs - old(loadedRegs) - withValue)
    {
      hide *;
      var left := |nativeRegAllocOrder| - |loadedRegs|;
      ghost var loaded0, stale0 := loadedRegs, layout.stale;
      AddBegins(loaded0, stale0, regs, withValue);
      for reg := 0 to 16
        invariant Valid() && Added(loaded0, stale0, loadedRegs, layout.stale, regs, withValue, reg)
        invariant left == |nativeRegAllocOrder| - |loadedRegs| >= 0
      {
        AddStep(loaded0, stale0, loadedRegs, layout.stale, regs, withValue, reg);
        if reg in regs {
          if left == 0 {
            AddEnds(loaded0, stale0, loadedRegs, layout.stale, regs, withValue, reg);
            return;
          }
          left := left - 1;
          LoadRegister(reg, reg in withValue);
        }
      }
      AddEnds(loaded0, stale0, loadedRegs, layout.stale, regs, withValue, 16);
    }

    /** `UnloadLiteral` for every register of `regs` that is known to be a constant. */
    method UnloadLiterals(regs: set<Reg>)
      requires Valid()
      modifies this`literalsLoaded, this`layout, this`code
      ensures Valid() && literalsLoaded == old(literalsLoaded) - regs
      ensures layout == old(layout).(literals := layout.literals) && layout.literals.Keys == literalsLoaded - {15}
    {
      literalsLoaded := literalsLoaded - regs;
      ghost var next := layout.(literals := Literals(literalsLoaded - {15}, literalValues[..]));
      WeakenSimulates(layout, next, r15);
      Emit([], next);
    }

    /** The compiler turns to an instruction that sees `pc` in r15. */
    method Begin(pc: Word)
      requires Valid() && code == [] && start == layout
      modifies this`r15
      ensures Valid() && r15 == pc
    {
      WeakenSimulates(layout, layout, pc);
      r15 := pc;
    }

    /** The instruction has been emitted and left `constant` behind. */
    method Finish(constant: Constant)
      requires Valid()
      modifies this`literalsLoaded, this`layout, this`start, this`code, literalValues
      ensures Valid() && code == [] && start == layout == AfterInstr(old(layout), constant) && layout.stale <= {15}
      ensures literalsLoaded == old(literalsLoaded) + if constant.Constant? then {constant.reg} else {}
    {
      ghost var next := AfterInstr(layout, constant);
      if constant.Constant? {
        AfterLiteral(literalsLoaded, literalValues[..], constant);
        literalsLoaded := literalsLoaded + {constant.reg};
        literalValues[constant.reg] := constant.val;
        assert literalValues[..] == old(literalValues[..])[constant.reg := constant.val];
      }
      code := [];
      WeakenSimulates(next, next, r15);
      layout, start := next, next;
    }

    method MarkDirty(regs: set<Reg>)
      requires Valid() && regs <= loadedRegs - {15}
      modifies this`dirtyRegs, this`layout, this`code
      ensures Valid() && dirtyRegs == old(dirtyRegs) + regs && layout == old(layout).(dirty := dirtyRegs)
    {
      dirtyRegs := dirtyRegs + regs;
      ghost var next := layout.(dirty := dirtyRegs);
      WeakenSimulates(layout, next, r15);
      Emit([], next);
    }

    /** First part of `Prepare`: r15, constants about to be overwritten, registers never used again. */
    method DropUnneeded(i: nat, dst: set<Reg>) returns (futureNeeded: set<Reg>, ranking: seq<nat>)
      requires Valid() && layout.stale <= {15} && i < |instrs|
      modifies this`dirtyRegs, this`loadedRegs, this`nativeRegsUsed, this`layout, this`code, this`literalsLoaded,
          mapping
      ensures futureNeeded == Future(instrs[i..])
      ensures IsRanking(ranking, instrs[i..])
      ensures Valid() && layout.stale == {} && loadedRegs == old(loadedRegs) * futureNeeded - {15}
      ensures literalsLoaded == old(literalsLoaded) - dst && dirtyRegs <= old(dirtyRegs)
    {
      hide *;
      ghost var loaded0, stale0 := loadedRegs, layout.stale;
      CountLoaded();
      if 15 in loadedRegs {
        UnloadRegister(15);
      }
      UnloadLiterals(dst);
      futureNeeded, ranking := RankRegisters(instrs, i);
      OnlyNeeded(loaded0, loadedRegs, stale0, layout.stale, futureNeeded);
      UnloadAll(loadedRegs - futureNeeded);
    }

    /** Second part: what the instruction cannot run without, but no value that is always overwritten. */
    method LoadNecessary(thumb: bool, instr: Instr, necessaryRegs: set<Reg>, ranking: seq<nat>)
      requires Valid() && layout.stale == {}
      requires Bounded(ranking)
      requires |necessaryRegs| <= |nativeRegAllocOrder|
      modifies this`dirtyRegs, this`loadedRegs, this`nativeRegsUsed, this`layout, this`code, mapping
      ensures Valid() && dirtyRegs <= old(dirtyRegs)
      ensures NecessaryIn(old(loadedRegs), loadedRegs, layout.stale, instr, Always(thumb, instr), necessaryRegs,
          ranking, |nativeRegAllocOrder|)
    {
      hide *;
      NothingToLoad(loadedRegs, instr, Always(thumb, instr), necessaryRegs, ranking, |nativeRegAllocOrder|);
      AlwaysMeans(thumb, instr);
      var needToBeLoaded := necessaryRegs - loadedRegs;
      ghost var before := loadedRegs;
      if needToBeLoaded != {} {
        MakeRoom(necessaryRegs, needToBeLoaded, ranking);
        var needValueLoaded := if thumb || instr.cond >= 0xE then instr.info.src else needToBeLoaded;
        ghost var kept := loadedRegs;
        LoadAll(needToBeLoaded, needValueLoaded);
        NecessaryNowLoaded(before, kept, loadedRegs, layout.stale, instr, Always(thumb, instr), necessaryRegs,
            needToBeLoaded, ranking, |nativeRegAllocOrder|);
      }
    }

    /** Third part: what natives are left go to registers it is merely useful to have loaded. */
    method LoadUseful(thumb: bool, instr: Instr, loadRegs: set<Reg>)
      requires Valid() && loadRegs !! loadedRegs
      modifies this`loadedRegs, this`nativeRegsUsed, this`layout, this`code, mapping
      ensures Valid() && |old(loadedRegs)| <= |nativeRegAllocOrder|
      ensures UsefulIn(old(loadedRegs), old(layout.stale), loadedRegs, layout.stale, instr, Always(thumb, instr),
          loadRegs, |nativeRegAllocOrder|)
    {
      hide *;
      AlwaysMeans(thumb, instr);
      ghost var loaded0, stale0, always := loadedRegs, layout.stale, Always(thumb, instr);
      UsefulLoaded(loaded0, stale0, loaded0, stale0, instr, always, loadRegs, |nativeRegAllocOrder|);
      CountLoaded();
      if loadRegs != {} && |loadedRegs| < |nativeRegAllocOrder| {
        LoadSome(loadRegs, if thumb || instr.cond >= 0xE then instr.info.src else loadRegs);
        UsefulLoaded(loaded0, stale0, loadedRegs, layout.stale, instr, always, loadRegs, |nativeRegAllocOrder|);
      }
    }

    /** Bring every register instruction `i` cannot run without into a native register. */
    method Prepare(thumb: bool, i: nat)
      requires Valid() && layout.stale <= {15}
      requires i < |instrs| < i + 1000 && r15 == instrs[i].pc
      requires instrs[i].info.notStrictlyNeeded <= instrs[i].info.src + instrs[i].info.dst
      requires |Necessary(instrs[i], pcAllocatableAsSrc)| <= |nativeRegAllocOrder|
      modifies this`dirtyRegs, this`loadedRegs, this`nativeRegsUsed, this`layout, this`code, this`literalsLoaded,
          mapping
      ensures Valid() && literalsLoaded == old(literalsLoaded) - instrs[i].info.dst
      ensures loadedRegs * instrs[i].info.dst - {15} <= dirtyRegs <= old(dirtyRegs) + instrs[i].info.dst
      ensures Prepared(instrs[i], Always(thumb, instrs[i]), Necessary(instrs[i], pcAllocatableAsSrc), instrs[i..],
          |nativeRegAllocOrder|,
                       old(loadedRegs), loadedRegs, layout.stale)
    {
      hide *;
      var instr := instrs[i];
      var necessaryRegs := ((if pcAllocatableAsSrc then instr.info.src else instr.info.src - {15})
          + instr.info.dst) - instr.info.notStrictlyNeeded;
      NecessaryMeans(instr, pcAllocatableAsSrc);
      var futureNeeded, ranking := DropUnneeded(i, instr.info.dst);
      ghost var survivors := loadedRegs;
      RankingBounded(ranking, instrs[i..]);
      LoadNecessary(thumb, instr, necessaryRegs, ranking);
      ghost var loaded1, stale1 := loadedRegs, layout.stale;
      LoadUseful(thumb, instr, instr.info.notStrictlyNeeded * futureNeeded - loadedRegs);
      assert instrs[i..][0] == instr;
      PrepareSummary(old(loadedRegs), survivors, loaded1, loadedRegs, stale1, layout.stale, instr, Always(thumb, instr),
                     pcAllocatableAsSrc, instrs[i..], ranking, |nativeRegAllocOrder|);
      MarkDirty(loadedRegs * instr.info.dst - {15});
    }
  }

  // ---- What `Prepare` achieves ---------------------------------------------------------------

  /** `before` and `after` are the loaded registers, `rest` the instructions from this one on. */
  ghost predicate Prepared(instr: Instr, always: bool, necessary: set<Reg>, rest: seq<Instr>, available: nat,
      before: set<Reg>, after: set<Reg>, stale: set<Reg>) {
    && necessary <= after
    // only what the instruction is certain to overwrite goes without its value, and all of that does
    && stale <= instr.info.dst - instr.info.src && (stale != {} ==> always)
    && (always ==> after - before - instr.info.src <= stale)
    // nothing stays loaded that is not mentioned again; what is, stays, unless natives run out
    && after <= Future(rest) + {15}
    && (before * Future(rest) - {15} <= after || |after| == available)
    // and then the least used registers go
    && forall victim, kept | victim in before * Future(rest) - {15} && victim !in after && kept in after
        && kept in before && kept != 15 && kept !in necessary ::
         Rank(rest, victim) <= Rank(rest, kept)
  }

  ghost predicate NecessaryIn(before: set<Reg>, after: set<Reg>, stale: set<Reg>, instr: Instr, always: bool,
      necessary: set<Reg>, ranking: seq<nat>, available: nat)
  {
    && |ranking| == 16 && necessary <= after && after - before == necessary - before
    && stale == (if always then necessary - before - instr.info.src else {})
    && FairEviction(before, after * before, necessary, ranking)
    && (before <= after || |after| == available)
  }

  ghost predicate UsefulIn(before: set<Reg>, stale0: set<Reg>, after: set<Reg>, stale: set<Reg>, instr: Instr,
      always: bool, useful: set<Reg>, available: nat) {
    && before <= after <= before + useful
    && (|before| >= available ==> after == before)
    && stale == stale0 + if always then after - before - instr.info.src else {}
  }

  lemma OnlyNeeded(before: set<Reg>, loaded: set<Reg>, stale0: set<Reg>, stale: set<Reg>, future: set<Reg>)
    requires stale0 <= before && stale0 <= {15}
    requires loaded == before - {15} || (15 !in before && loaded == before)
    requires stale == stale0 - {15} || (15 !in before && stale == stale0)
    ensures stale == {} && loaded - (loaded - future) == before * future - {15}
  {
  }

  lemma AlwaysMeans(thumb: bool, instr: Instr)
    ensures Always(thumb, instr) <==> thumb || instr.cond >= 0xE
  {
  }

  lemma NecessaryMeans(instr: Instr, pcAllocatableAsSrc: bool)
    ensures Necessary(instr, pcAllocatableAsSrc) ==
            ((if pcAllocatableAsSrc then instr.info.src else instr.info.src - {15})
                + instr.info.dst) - instr.info.notStrictlyNeeded
  {
  }

  lemma EvictNone(loaded: set<Reg>, necessary: set<Reg>, ranking: seq<nat>)
    requires Bounded(ranking)
    ensures FairEviction(loaded, loaded, necessary, ranking)
  {
  }

  lemma RankingBounded(ranking: seq<nat>, rest: seq<Instr>)
    requires IsRanking(ranking, rest) && |rest| < 1000
    ensures Bounded(ranking)
  {
    assert forall r: Reg :: ranking[r] == Rank(rest, r);
  }

  lemma NothingToLoad(loaded: set<Reg>, instr: Instr, always: bool, necessary: set<Reg>, ranking: seq<nat>,
      available: nat)
    requires Bounded(ranking)
    ensures necessary - loaded == {} ==> NecessaryIn(loaded, loaded, {}, instr, always, necessary, ranking, available)
  {
    assert forall r | r in necessary && r !in loaded :: r in necessary - loaded;
    assert loaded * loaded == loaded;
  }

  lemma NecessaryNowLoaded(before: set<Reg>, kept: set<Reg>, after: set<Reg>, stale: set<Reg>, instr: Instr,
      always: bool, necessary: set<Reg>, need: set<Reg>,
      ranking: seq<nat>, available: nat)
    requires FairEviction(before, kept, necessary, ranking)
    requires need == necessary - before && need !! kept && after == kept + need
    requires stale == need - if always then instr.info.src else need
    requires kept == before || |kept| + |need| == available
    ensures NecessaryIn(before, after, stale, instr, always, necessary, ranking, available)
  {
    assert after * before == kept;
  }

  lemma UsefulLoaded(before: set<Reg>, stale0: set<Reg>, after: set<Reg>, stale: set<Reg>, instr: Instr, always: bool,
      useful: set<Reg>, available: nat)
    requires before <= after <= before + useful
    requires stale == stale0 + (after - before - if always then instr.info.src else useful)
    ensures |before| < available || after == before ==>
        UsefulIn(before, stale0, after, stale, instr, always, useful, available)
  {
  }

  lemma FutureMentions(rest: seq<Instr>)
    requires rest != []
    ensures Needed(rest[0]) <= Future(rest)
  {
    if |rest| > 1 {
      FutureMentions(rest[..|rest| - 1]);
    }
  }

  lemma PreparedValues(before: set<Reg>, survivors: set<Reg>, loaded: set<Reg>, after: set<Reg>, stale1: set<Reg>,
      stale: set<Reg>,
      src: set<Reg>, dst: set<Reg>, notStrictlyNeeded: set<Reg>, always: bool, necessary: set<Reg>)
    requires survivors <= before && notStrictlyNeeded <= src + dst && necessary <= src + dst
    requires loaded - survivors == necessary - survivors && loaded <= after <= loaded + notStrictlyNeeded
    requires stale1 == (if always then necessary - survivors - src else {})
    requires stale == stale1 + (if always then after - loaded - src else {})
    ensures stale <= dst - src && (stale != {} ==> always)
    ensures always ==> after - before - src <= stale
  {
    forall r | always && r in after && r !in before && r !in src
      ensures r in stale
    {
      if r in loaded {
        assert r in necessary - survivors;
      }
    }
  }

  lemma PreparedLoads(survivors: set<Reg>, loaded: set<Reg>, after: set<Reg>, necessary: set<Reg>, useful: set<Reg>,
      future: set<Reg>)
    requires survivors <= future && necessary <= future + {15} && useful <= future
    requires loaded - survivors == necessary - survivors && after <= loaded + useful
    ensures after <= future + {15}
  {
    forall r | r in after
      ensures r in future + {15}
    {
      if r in loaded && r !in survivors {
        assert r in necessary - survivors;
      }
    }
  }

  lemma PreparedSpills(survivors: set<Reg>, loaded: set<Reg>, after: set<Reg>, necessary: set<Reg>, ranking: seq<nat>)
    requires |ranking| == 16 && FairEviction(survivors, loaded * survivors, necessary, ranking)
    requires loaded <= after && (survivors <= loaded || after == loaded)
    ensures forall victim, kept | victim in survivors && victim !in after && kept in after && kept in survivors
        && kept !in necessary :: ranking[victim] <= ranking[kept]
  {
    forall victim, kept | victim in survivors && victim !in after && kept in after && kept in survivors
        && kept !in necessary
      ensures ranking[victim] <= ranking[kept]
    {
      assert victim !in loaded * survivors && kept in loaded * survivors;
    }
  }

  lemma PrepareSummary(before: set<Reg>, survivors: set<Reg>, loaded: set<Reg>, after: set<Reg>, stale1: set<Reg>,
      stale: set<Reg>, instr: Instr, always: bool,
      pcAllocatableAsSrc: bool, rest: seq<Instr>, ranking: seq<nat>, available: nat)
    requires rest != [] && rest[0] == instr && instr.info.notStrictlyNeeded <= instr.info.src + instr.info.dst
    requires IsRanking(ranking, rest)
    requires survivors == before * Future(rest) - {15} && |loaded| <= available
    requires NecessaryIn(survivors, loaded, stale1, instr, always, Necessary(instr, pcAllocatableAsSrc), ranking,
        available)
    requires UsefulIn(loaded, stale1, after, stale, instr, always,
        instr.info.notStrictlyNeeded * Future(rest) - loaded, available)
    ensures Prepared(instr, always, Necessary(instr, pcAllocatableAsSrc), rest, available, before, after, stale)
  {
    hide Future, Rank, FairEviction;
    var necessary := Necessary(instr, pcAllocatableAsSrc);
    FutureMentions(rest);
    PreparedValues(before, survivors, loaded, after, stale1, stale, instr.info.src, instr.info.dst,
        instr.info.notStrictlyNeeded, always, necessary);
    PreparedLoads(survivors, loaded, after, necessary, instr.info.notStrictlyNeeded * Future(rest) - loaded,
        Future(rest));
    PreparedSpills(survivors, loaded, after, necessary, ranking);
  }
}
