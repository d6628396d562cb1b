/**
 The straight-line code a JIT block consists of, as far as the guest registers are concerned:
 plain copies between the sixteen memory slots of the guest register file and the host's native
 registers, and guest instructions that run on whatever mixture of the two the allocator chose.
 Guest register masks (u16 in the source) are sets of register numbers.
 */
module EmittedCode {
  import opened MachineWords

  type Reg = r: nat | r < 16
  type Native = n: nat | n < 32
  type Regs = s: seq<Word> | |s| == 16 witness seq(16, i => 0)
  type Natives = s: seq<Word> | |s| == 32 witness seq(32, i => 0)

  /** The register part of an instruction's decoded information, and the registers it exchanges with another bank:
      r8 to r14 if it can change the mode, a thing decoding does not record. */
  datatype Info = Info(dst: set<Reg>, src: set<Reg>, notStrictlyNeeded: set<Reg>, banked: set<Reg>)
  {
    function Reads(): set<Reg> { src + (banked - dst) }

    function Writes(): set<Reg> { dst + banked }
  }

  /** A fetched instruction; `pc` is the value r15 shows to it. */
  datatype Instr = Instr(cond: nat, pc: Word, info: Info)

  /** What an instruction does to a full register file and to everything else (flags, memory). */
  datatype Effect<W> = Effect(executed: bool, regs: Regs, world: W)

  /** Every register slot of guest and host. */
  datatype File = File(mem: Regs, native: Natives)

  /** `Save` and `Load` copy a guest slot; `LoadImm` is the load of r15, whose value is a constant. */
  datatype Op = Save(reg: Reg, native: Native) | Load(reg: Reg, native: Native) | LoadImm(native: Native, value: Word)

  function Apply(op: Op, f: File): File {
    match op
    case Save(r, n) => f.(mem := f.mem[r := f.native[n]])
    case Load(r, n) => f.(native := f.native[n := f.mem[r]])
    case LoadImm(n, v) => f.(native := f.native[n := v])
  }

  function Exec(ops: seq<Op>, f: File): File {
    if ops == [] then f else Apply(ops[|ops| - 1], Exec(ops[..|ops| - 1], f))
  }

  lemma ExecNone(f: File)
    ensures Exec([], f) == f
  {
  }

  lemma ExecOne(ops: seq<Op>, op: Op, f: File)
    ensures Exec(ops + [op], f) == Apply(op, Exec(ops, f))
  {
    assert (ops + [op])[..|ops|] == ops;
  }

  lemma {:induction false} ExecAppend(a: seq<Op>, b: seq<Op>, f: File)
    ensures Exec(a + b, f) == Exec(b, Exec(a, f))
    decreases |b|
  {
    if b == [] {
      assert a + b == a;
    } else {
      assert (a + b)[..|a + b| - 1] == a + b[..|b| - 1];
      ExecAppend(a, b[..|b| - 1], f);
    }
  }

  /** The allocator's knowledge: where registers live, which slots are out of date, which loaded
      registers hold no value yet, and which registers are known constants. */
  datatype Alloc = Alloc(mapping: map<Reg, Native>, dirty: set<Reg>, stale: set<Reg>, literals: map<Reg, Word>)

  ghost predicate Injective(mapping: map<Reg, Native>) {
    forall r, s | r in mapping && s in mapping && mapping[r] == mapping[s] :: r == s
  }

  /** The refinement relation: storage `f` under allocation `a` holds the guest registers `g`. It does not say that
      what is known of constants is true. */
  ghost predicate Represents(a: Alloc, f: File, g: Regs) {
    && (forall r | r in a.mapping && r !in a.stale :: f.native[a.mapping[r]] == g[r])
    && (forall r: Reg | r < 15 && r !in a.stale && (r !in a.mapping || r !in a.dirty) :: f.mem[r] == g[r])
  }

  /** Executing `ops` turns storage laid out as `a` into storage laid out as `b`, for every guest state. */
  ghost predicate Simulates(a: Alloc, ops: seq<Op>, b: Alloc, pc: Word) {
    forall f: File, g: Regs | g[15] == pc && Represents(a, f, g) :: Represents(b, Exec(ops, f), g)
  }

  lemma SimulatesCompose(a: Alloc, ops: seq<Op>, b: Alloc, more: seq<Op>, c: Alloc, pc: Word)
    requires Simulates(a, ops, b, pc) && Simulates(b, more, c, pc)
    ensures Simulates(a, ops + more, c, pc)
  {
    forall f: File, g: Regs | g[15] == pc && Represents(a, f, g)
      ensures Represents(c, Exec(ops + more, f), g)
    {
      ExecAppend(ops, more, f);
      assert Represents(b, Exec(ops, f), g);
    }
  }

  /** Marking more slots out of date and noting or forgetting constants needs no code. */
  lemma WeakenSimulates(a: Alloc, b: Alloc, pc: Word)
    requires a.mapping == b.mapping && a.stale == b.stale && a.dirty <= b.dirty
    ensures Simulates(a, [], b, pc)
  {
  }

  /** The saves of the dirty registers below `k`, in ascending order. */
  function Saves(a: Alloc, k: nat): seq<Op>
    requires k <= 16 && a.dirty <= a.mapping.Keys
  {
    if k == 0 then []
    else if k - 1 in a.dirty then Saves(a, k - 1) + [Save(k - 1, a.mapping[k - 1])]
    else Saves(a, k - 1)
  }

  lemma {:induction false} SavesEffect(a: Alloc, k: nat, f: File, r: Reg)
    requires k <= 16 && a.dirty <= a.mapping.Keys
    ensures var f' := Exec(Saves(a, k), f);
            f'.native == f.native && f'.mem[r] == if r < k && r in a.dirty then f.native[a.mapping[r]] else f.mem[r]
  {
    hide Exec;
    if k == 0 {
      ExecNone(f);
    } else {
      SavesEffect(a, k - 1, f, r);
      if k - 1 in a.dirty {
        ExecOne(Saves(a, k - 1), Save(k - 1, a.mapping[k - 1]), f);
      }
    }
  }

  /** Saving the dirty registers leaves every guest register r0-r14 in its memory slot. */
  lemma SavesRestoreMemory(a: Alloc, f: File, g: Regs)
    requires a.dirty <= a.mapping.Keys && Represents(a, f, g) && a.stale <= {15}
    ensures Exec(Saves(a, 16), f).mem[..15] == g[..15]
  {
    forall r: Reg | r < 15
      ensures Exec(Saves(a, 16), f).mem[r] == g[r]
    {
      SavesEffect(a, 16, f, r);
    }
  }

  const NOTHING_LOADED := Alloc(map[], {}, {}, map[])

  function Unloaded(a: Alloc, r: Reg): Alloc {
    a.(mapping := a.mapping - {r}, dirty := a.dirty - {r}, stale := a.stale - {r})
  }

  function UnloadOps(a: Alloc, r: Reg): seq<Op>
    requires r in a.mapping
  {
    if r in a.dirty then [Save(r, a.mapping[r])] else []
  }

  lemma UnloadSimulates(a: Alloc, r: Reg, pc: Word)
    requires r in a.mapping && Injective(a.mapping) && 15 !in a.dirty
    requires r !in a.stale || r == 15
    ensures Simulates(a, UnloadOps(a, r), Unloaded(a, r), pc)
  {
    forall f: File, g: Regs | g[15] == pc && Represents(a, f, g)
      ensures Represents(Unloaded(a, r), Exec(UnloadOps(a, r), f), g)
    {
      if r in a.dirty {
        assert UnloadOps(a, r)[..0] == [];
        assert Exec(UnloadOps(a, r), f) == Apply(Save(r, a.mapping[r]), f);
      }
    }
  }

  function Loaded(a: Alloc, r: Reg, n: Native, loadValue: bool): Alloc {
    a.(mapping := a.mapping[r := n], stale := if loadValue then a.stale else a.stale + {r})
  }

  function LoadOps(r: Reg, n: Native, loadValue: bool, pc: Word): seq<Op> {
    if !loadValue then [] else if r == 15 then [LoadImm(n, pc)] else [Load(r, n)]
  }

  lemma LoadSimulates(a: Alloc, r: Reg, n: Native, loadValue: bool, pc: Word)
    requires r !in a.mapping && r !in a.stale && n !in a.mapping.Values
    ensures Simulates(a, LoadOps(r, n, loadValue, pc), Loaded(a, r, n, loadValue), pc)
  {
    forall f: File, g: Regs | g[15] == pc && Represents(a, f, g)
      ensures Represents(Loaded(a, r, n, loadValue), Exec(LoadOps(r, n, loadValue, pc), f), g)
    {
      var ops := LoadOps(r, n, loadValue, pc);
      if loadValue {
        assert ops[..0] == [];
        assert Exec(ops, f) == Apply(ops[0], f);
      }
    }
  }

  // ---- Guest instructions -------------------------------------------------------------------

  /** The instruction is certain to execute: Thumb code, or a condition field of 0xE or above. */
  predicate Always(thumb: bool, instr: Instr) {
    thumb || instr.cond >= 0xE
  }

  /** Two register files agree on the registers of a mask. */
  ghost predicate Agree(x: Regs, y: Regs, rs: set<Reg>) {
    forall r | r in rs :: x[r] == y[r]
  }

  /** Only the registers of a mask may differ. */
  ghost predicate Untouched(x: Regs, y: Regs, rs: set<Reg>) {
    forall r: Reg | r !in rs :: y[r] == x[r]
  }

  /** The contract decoding promises of a compiled instruction: it reads nothing but its source
      registers and the world, writes all of its destination registers or (only if conditional)
      none, and touches no other register; except that a change of mode exchanges the banked ones. */
  ghost predicate Obeys<W(!new)>(step: (Regs, W) -> Effect<W>, instr: Instr, thumb: bool) {
    && (forall x: Regs, y: Regs, w: W | Agree(x, y, instr.info.Reads()) ::
          && step(x, w).executed == step(y, w).executed
          && step(x, w).world == step(y, w).world
          && (step(x, w).executed ==> Agree(step(x, w).regs, step(y, w).regs, instr.info.Writes())))
    && (forall x: Regs, w: W :: Untouched(x, step(x, w).regs, if step(x, w).executed then instr.info.Writes() else {}))
    && (Always(thumb, instr) ==> forall x: Regs, w: W :: step(x, w).executed)
  }

  /** Direct execution of one instruction on the guest registers. */
  function Direct<W>(step: (Regs, W) -> Effect<W>, instr: Instr, g: Regs, w: W): Effect<W> {
    step(g[15 := instr.pc], w)
  }

  /** The register file a compiled instruction sees: native registers where loaded, slots elsewhere. */
  function View(mapping: map<Reg, Native>, f: File, pc: Word): Regs {
    seq(16, (r: nat) requires r < 16 =>
      if r in mapping then f.native[mapping[r]] else if r == 15 then pc else f.mem[r])
  }

  /** Write back results for destination registers below `k`. */
  function WriteBack(mapping: map<Reg, Native>, dst: set<Reg>, vals: Regs, f: File, k: nat): File
    requires k <= 16
  {
    if k == 0 then f else
      var rest := WriteBack(mapping, dst, vals, f, k - 1);
      if k - 1 !in dst then rest
      else if k - 1 in mapping then rest.(native := rest.native[mapping[k - 1] := vals[k - 1]])
      else rest.(mem := rest.mem[k - 1 := vals[k - 1]])
  }

  /** A change of mode exchanges memory slots. Registers that are loaded were saved before it and are loaded
      again after it. */
  function Exchange(mapping: map<Reg, Native>, banked: set<Reg>, vals: Regs, f: File, k: nat): File
    requires k <= 16
  {
    if k == 0 then f else
      var rest := Exchange(mapping, banked, vals, f, k - 1);
      if k - 1 !in banked then rest
      else
        var rest := rest.(mem := rest.mem[k - 1 := vals[k - 1]]);
        if k - 1 in mapping then rest.(native := rest.native[mapping[k - 1] := vals[k - 1]]) else rest
  }

  /** A compiled instruction: read through the view, write results back where the registers live. */
  function RunCompiled<W>(step: (Regs, W) -> Effect<W>, instr: Instr, mapping: map<Reg, Native>, f: File,
      w: W): (File, W) {
    var e := step(View(mapping, f, instr.pc), w);
    (if e.executed then Exchange(mapping, instr.info.banked, e.regs,
        WriteBack(mapping, instr.info.dst, e.regs, f, 16), 16) else f, e.world)
  }

  lemma {:induction false} ExchangeAt(mapping: map<Reg, Native>, banked: set<Reg>, vals: Regs, f: File, k: nat, r: Reg)
    requires k <= 16 && Injective(mapping)
    ensures var f' := Exchange(mapping, banked, vals, f, k);
            && (r in mapping ==> f'.native[mapping[r]] == if r < k && r in banked then vals[r]
                else f.native[mapping[r]])
            && (f'.mem[r] == if r < k && r in banked then vals[r] else f.mem[r])
  {
    if k > 0 {
      ExchangeAt(mapping, banked, vals, f, k - 1, r);
    }
  }

  lemma {:induction false} WriteBackAt(mapping: map<Reg, Native>, dst: set<Reg>, vals: Regs, f: File, k: nat, r: Reg)
    requires k <= 16 && Injective(mapping)
    ensures var f' := WriteBack(mapping, dst, vals, f, k);
            && (r in mapping ==> f'.native[mapping[r]] == if r < k && r in dst then vals[r] else f.native[mapping[r]])
            && (f'.mem[r] == if r < k && r in dst && r !in mapping then vals[r] else f.mem[r])
  {
    if k > 0 {
      WriteBackAt(mapping, dst, vals, f, k - 1, r);
    }
  }

  /** The layout once an instruction has run: every register that had no value has received one.
      Only a loaded r15 is worthless from here on, because the next instruction sees another value. */
  function Executed(a: Alloc): Alloc {
    a.(stale := a.mapping.Keys * {15})
  }

  /** Writing results `vals` back, where `d` is what direct execution makes of `g`. */
  lemma AfterWriteBack(a: Alloc, f: File, g: Regs, dst: set<Reg>, banked: set<Reg>, vals: Regs, d: Regs, nextPc: Word)
    requires Injective(a.mapping) && Represents(a, f, g)
    requires Agree(vals, d, dst + banked) && Untouched(g, d, dst + banked)
    requires a.stale <= dst && a.mapping.Keys * dst - {15} <= a.dirty
    ensures Represents(Executed(a), Exchange(a.mapping, banked, vals, WriteBack(a.mapping, dst, vals, f, 16), 16),
        d[15 := nextPc])
  {
    hide WriteBack, Exchange;
    var f1 := WriteBack(a.mapping, dst, vals, f, 16);
    var f2 := Exchange(a.mapping, banked, vals, f1, 16);
    forall r: Reg
      ensures r in a.mapping ==> f2.native[a.mapping[r]] == if r in dst + banked then vals[r]
          else f.native[a.mapping[r]]
      ensures f2.mem[r] == if r in banked || (r in dst && r !in a.mapping) then vals[r] else f.mem[r]
    {
      WriteBackAt(a.mapping, dst, vals, f, 16, r);
      ExchangeAt(a.mapping, banked, vals, f1, 16, r);
    }
  }

  lemma ViewAgrees(a: Alloc, f: File, g: Regs, pc: Word, rs: set<Reg>)
    requires Represents(a, f, g) && g[15] == pc && a.stale !! rs && a.stale <= a.mapping.Keys
    ensures Agree(View(a.mapping, f, pc), g, rs)
  {
  }

  /** One compiled instruction keeps storage and guest registers in step. */
  lemma CompiledMatchesDirect<W(!new)>(step: (Regs, W) -> Effect<W>, instr: Instr, thumb: bool, a: Alloc, f: File,
      g: Regs, w: W, nextPc: Word)
    requires Obeys(step, instr, thumb) && Injective(a.mapping)
    requires g[15] == instr.pc && Represents(a, f, g)
    requires a.stale <= instr.info.dst - instr.info.src && a.stale <= a.mapping.Keys
    requires a.stale != {} ==> Always(thumb, instr)
    requires a.mapping.Keys * instr.info.dst - {15} <= a.dirty
    ensures var e, c := Direct(step, instr, g, w), RunCompiled(step, instr, a.mapping, f, w);
            c.1 == e.world && Represents(Executed(a), c.0, e.regs[15 := nextPc])
  {
    hide WriteBack, Exchange, View, Represents, Executed;
    var info, v := instr.info, View(a.mapping, f, instr.pc);
    assert g[15 := instr.pc] == g;
    ViewAgrees(a, f, g, instr.pc, info.Reads());
    var e, d := step(v, w), step(g, w);
    assert e.executed == d.executed && e.world == d.world;
    assert Untouched(g, d.regs, if d.executed then info.Writes() else {});
    if e.executed {
      AfterWriteBack(a, f, g, info.dst, info.banked, e.regs, d.regs, nextPc);
    } else {
      assert d.regs == g;
      NotExecuted(a, f, g, nextPc);
    }
  }

  lemma NotExecuted(a: Alloc, f: File, g: Regs, nextPc: Word)
    requires Represents(a, f, g) && a.stale == {}
    ensures Represents(Executed(a), f, g[15 := nextPc])
  {
  }
}
