/**
 What the compiler knows of constants: `PutLiteral` notes what an instruction leaves in a register, Prepare forgets
 the destinations of the next one, Flush forgets everything. A change of mode exchanges registers that are no
 destinations, so what is known is not always true; this module says exactly when it is.
 */
module KnownConstants {
  import opened MachineWords
  import opened EmittedCode
  import opened RegisterCache

  /** An instruction on its way through the compiler: can it be compiled, which constant does it leave, of which
      registers does its code take the value from what is known (the base of a load or store), and which registers
      does its own code unload before it calls a function of the host (`PushRegs`). */
  datatype Plan = Plan(canCompile: bool, constant: Constant, uses: set<Reg>, unloads: set<Reg>)

  /** Only registers that are not about to be overwritten are unloaded. A constant is left in a destination, by an
      instruction that is certain to execute; one for r15 ends the block. */
  predicate PlanFits(instr: Instr, thumb: bool, plan: Plan, last: bool) {
    && plan.unloads !! instr.info.dst - instr.info.src && plan.uses <= instr.info.src
    && (plan.constant.Constant? ==>
          && plan.canCompile && Always(thumb, instr) && plan.constant.reg in instr.info.dst
          && (plan.constant.reg == 15 ==> last))
  }

  ghost predicate Planned(instrs: seq<Instr>, thumb: bool, plans: seq<Plan>) {
    |plans| == |instrs| && forall k | 0 <= k < |instrs| :: PlanFits(instrs[k], thumb, plans[k], k == |instrs| - 1)
  }

  // ---- What is known -------------------------------------------------------------------------

  /** The constants known before instruction `n`. */
  ghost function KnownBefore(instrs: seq<Instr>, plans: seq<Plan>, n: nat): map<Reg, Word>
    requires n <= |instrs| == |plans|
    decreases n, 0
  {
    if n == 0 then map[] else
      WithConstant(if plans[n - 1].canCompile then KnownAt(instrs, plans, n - 1) else map[], plans[n - 1].constant)
  }

  /** The constants known while instruction `n` is compiled. */
  ghost function KnownAt(instrs: seq<Instr>, plans: seq<Plan>, n: nat): map<Reg, Word>
    requires n < |instrs| == |plans|
    decreases n, 1
  {
    KnownBefore(instrs, plans, n) - instrs[n].info.dst
  }

  /** What instruction `j` left in register `r` has not been forgotten before instruction `n`. */
  ghost predicate StillKnown(instrs: seq<Instr>, plans: seq<Plan>, r: Reg, j: nat, n: nat)
    requires j < n <= |instrs| == |plans|
  {
    && plans[j].constant.Constant? && plans[j].constant.reg == r != 15
    && forall m | j < m < n :: plans[m].canCompile && r !in instrs[m].info.dst
  }

  /** Exactly what has not been forgotten is known. */
  lemma {:induction false} KnownSince(instrs: seq<Instr>, plans: seq<Plan>, r: Reg, n: nat) returns (j: nat)
    requires n <= |instrs| == |plans| && r in KnownBefore(instrs, plans, n)
    ensures j < n && StillKnown(instrs, plans, r, j, n)
        && KnownBefore(instrs, plans, n)[r] == plans[j].constant.val
  {
    var k := n - 1;
    if plans[k].constant.Constant? && plans[k].constant.reg == r != 15 {
      j := k;
    } else {
      j := KnownSince(instrs, plans, r, k);
    }
  }

  lemma {:induction false} KnownStill(instrs: seq<Instr>, thumb: bool, plans: seq<Plan>, r: Reg, j: nat, n: nat)
    requires Planned(instrs, thumb, plans) && j < n <= |instrs| && StillKnown(instrs, plans, r, j, n)
    ensures r in KnownBefore(instrs, plans, n) && KnownBefore(instrs, plans, n)[r] == plans[j].constant.val
  {
    if n > j + 1 {
      KnownStill(instrs, thumb, plans, r, j, n - 1);
      assert PlanFits(instrs[n - 1], thumb, plans[n - 1], n - 1 == |instrs| - 1);
    }
  }

  /** An instruction after `j` and before `n` exchanges register `r` with another bank. */
  ghost predicate Exchanged(instrs: seq<Instr>, r: Reg, j: nat, n: nat)
    requires n <= |instrs|
  {
    exists m | j < m < n :: r in instrs[m].info.banked - instrs[m].info.dst
  }

  // ---- What instructions do ------------------------------------------------------------------

  /** What the code of an instruction does if these constants are known. With none it is what the instruction
      does. */
  type Code<!W> = map<Reg, Word> -> ((Regs, W) -> Effect<W>)

  ghost predicate TrueOf(known: map<Reg, Word>, rs: set<Reg>, g: Regs) {
    forall r | r in known && r in rs :: g[r] == known[r]
  }

  /** Whatever is known, compiled code obeys the decoded information ... */
  ghost predicate CodeObeys<W(!new)>(code: Code<W>, instr: Instr, thumb: bool) {
    forall known :: Obeys(code(known), instr, thumb)
  }

  /** ... and if what it uses is true, it does what the instruction does. */
  ghost predicate Specialised<W(!new)>(code: Code<W>, uses: set<Reg>) {
    forall known, x: Regs, w: W | TrueOf(known, uses, x) :: code(known)(x, w) == code(map[])(x, w)
  }

  /** The constant an instruction leaves is what it leaves in every world that is `ok`, as all are in which the
      literals have the values that were folded. */
  ghost predicate Leaves<W(!new)>(code: Code<W>, instr: Instr, constant: Constant, ok: W -> bool) {
    && (forall x: Regs, w: W | ok(w) :: ok(code(map[])(x, w).world))
    && (constant.Constant? && constant.reg != 15 ==>
          forall x: Regs, w: W | x[15] == instr.pc && ok(w) :: code(map[])(x, w).regs[constant.reg] == constant.val)
  }

  ghost predicate Faithful<W(!new)>(code: Code<W>, instr: Instr, thumb: bool, plan: Plan, ok: W -> bool) {
    && (plan.canCompile ==> CodeObeys(code, instr, thumb) && Specialised(code, plan.uses))
    && Leaves(code, instr, plan.constant, ok)
  }

  ghost predicate AllFaithful<W(!new)>(codes: seq<Code<W>>, instrs: seq<Instr>, thumb: bool, plans: seq<Plan>,
      ok: W -> bool) {
    && |codes| == |instrs| == |plans|
    && forall k | 0 <= k < |codes| :: Faithful(codes[k], instrs[k], thumb, plans[k], ok)
  }

  /** Direct execution of the first `n` instructions. */
  ghost function DirectRun<W>(codes: seq<Code<W>>, instrs: seq<Instr>, n: nat, g: Regs, w: W): (Regs, W)
    requires n <= |codes| <= |instrs|
  {
    if n == 0 then (g, w) else
      var s := DirectRun(codes, instrs, n - 1, g, w);
      var e := Direct(codes[n - 1](map[]), instrs[n - 1], s.0, s.1);
      (e.regs, e.world)
  }

  /** The same with what is known taken for true. */
  ghost function KnowingRun<W>(codes: seq<Code<W>>, instrs: seq<Instr>, plans: seq<Plan>, n: nat, g: Regs,
      w: W): (Regs, W)
    requires n <= |codes| <= |instrs| == |plans|
  {
    if n == 0 then (g, w) else
      var s := KnowingRun(codes, instrs, plans, n - 1, g, w);
      var known := if plans[n - 1].canCompile then KnownAt(instrs, plans, n - 1) else map[];
      var e := Direct(codes[n - 1](known), instrs[n - 1], s.0, s.1);
      (e.regs, e.world)
  }

  // ---- When what is known is true ------------------------------------------------------------

  lemma {:induction false} WorldOk<W(!new)>(codes: seq<Code<W>>, instrs: seq<Instr>, thumb: bool, plans: seq<Plan>,
      ok: W -> bool, n: nat, g: Regs, w: W)
    requires AllFaithful(codes, instrs, thumb, plans, ok) && n <= |instrs| && ok(w)
    ensures ok(DirectRun(codes, instrs, n, g, w).1)
  {
    hide CodeObeys, Specialised;
    if n > 0 {
      WorldOk(codes, instrs, thumb, plans, ok, n - 1, g, w);
      assert Faithful(codes[n - 1], instrs[n - 1], thumb, plans[n - 1], ok);
    }
  }

  /** A constant stays true as long as its register is not exchanged. */
  lemma {:induction false} KnownIsTrue<W(!new)>(codes: seq<Code<W>>, instrs: seq<Instr>, thumb: bool,
      plans: seq<Plan>, ok: W -> bool, r: Reg, j: nat, n: nat, g: Regs, w: W)
    requires AllFaithful(codes, instrs, thumb, plans, ok) && ok(w)
    requires j < n <= |instrs| && StillKnown(instrs, plans, r, j, n) && !Exchanged(instrs, r, j, n)
    ensures DirectRun(codes, instrs, n, g, w).0[r] == plans[j].constant.val
  {
    hide Specialised;
    var k := n - 1;
    var d := DirectRun(codes, instrs, k, g, w);
    assert Faithful(codes[k], instrs[k], thumb, plans[k], ok);
    if k == j {
      WorldOk(codes, instrs, thumb, plans, ok, k, g, w);
    } else {
      KnownIsTrue(codes, instrs, thumb, plans, ok, r, j, k, g, w);
      assert Obeys(codes[k](map[]), instrs[k], thumb);
      assert r !in instrs[k].info.Writes();
    }
  }

  /** The constants instruction `k` uses have not been exchanged since they became known. */
  ghost predicate UsesKept(instrs: seq<Instr>, plans: seq<Plan>, k: nat)
    requires k < |instrs| == |plans|
  {
    plans[k].canCompile ==>
      forall r, j | r in plans[k].uses - instrs[k].info.dst && 0 <= j < k && StillKnown(instrs, plans, r, j, k) ::
        !Exchanged(instrs, r, j, k)
  }

  lemma UsesAreTrue<W(!new)>(codes: seq<Code<W>>, instrs: seq<Instr>, thumb: bool, plans: seq<Plan>, ok: W -> bool,
      k: nat, g: Regs, w: W)
    requires AllFaithful(codes, instrs, thumb, plans, ok) && ok(w) && k < |instrs| && UsesKept(instrs, plans, k)
    requires plans[k].canCompile
    ensures TrueOf(KnownAt(instrs, plans, k), plans[k].uses, DirectRun(codes, instrs, k, g, w).0)
  {
    hide Faithful, DirectRun;
    forall r | r in KnownAt(instrs, plans, k) && r in plans[k].uses
      ensures DirectRun(codes, instrs, k, g, w).0[r] == KnownAt(instrs, plans, k)[r]
    {
      var j := KnownSince(instrs, plans, r, k);
      KnownIsTrue(codes, instrs, thumb, plans, ok, r, j, k, g, w);
    }
  }

  /** So if the constants an instruction uses have never been exchanged, knowing them changes nothing. */
  lemma {:induction false} KnowingChangesNothing<W(!new)>(codes: seq<Code<W>>, instrs: seq<Instr>, thumb: bool,
      plans: seq<Plan>, ok: W -> bool, n: nat, g: Regs, w: W)
    requires AllFaithful(codes, instrs, thumb, plans, ok) && ok(w) && n <= |instrs|
    requires forall k | 0 <= k < n :: UsesKept(instrs, plans, k)
    ensures KnowingRun(codes, instrs, plans, n, g, w) == DirectRun(codes, instrs, n, g, w)
  {
    hide UsesKept, CodeObeys, KnownAt;
    if n > 0 {
      var k := n - 1;
      KnowingChangesNothing(codes, instrs, thumb, plans, ok, k, g, w);
      assert Faithful(codes[k], instrs[k], thumb, plans[k], ok);
      if plans[k].canCompile {
        var d := DirectRun(codes, instrs, k, g, w);
        UsesAreTrue(codes, instrs, thumb, plans, ok, k, g, w);
        KnownNot15(instrs, plans, k);
        assert TrueOf(KnownAt(instrs, plans, k), plans[k].uses, d.0[15 := instrs[k].pc]);
      }
    }
  }

  lemma KnownNot15(instrs: seq<Instr>, plans: seq<Plan>, k: nat)
    requires k < |instrs| == |plans|
    ensures 15 !in KnownAt(instrs, plans, k)
  {
    if 15 in KnownBefore(instrs, plans, k) {
      var j := KnownSince(instrs, plans, 15, k);
    }
  }

  // ---- When it is not ------------------------------------------------------------------------

  /** Code that writes `other` to register `r` wherever it is free to, and shows in the world when it is misled. */
  ghost function Misled<W>(instr: Instr, plan: Plan, r: Reg, other: Word, mark: W -> W): Code<W> {
    (known: map<Reg, Word>) => (x: Regs, w: W) =>
        Effect(true, Overwritten(instr, plan.constant, r, other, x), if TrueOf(known, plan.uses, x) then w else mark(w))
  }

  function Overwritten(instr: Instr, constant: Constant, r: Reg, other: Word, x: Regs): Regs {
    seq(16, (q: nat) requires q < 16 =>
      if constant.Constant? && q == constant.reg then constant.val
      else if q !in instr.info.Writes() then x[q]
      else if q == r then other else 0)
  }

  lemma MisledObeys<W(!new)>(instr: Instr, thumb: bool, plan: Plan, last: bool, r: Reg, other: Word, mark: W -> W,
      known: map<Reg, Word>)
    requires PlanFits(instr, thumb, plan, last)
    ensures Obeys(Misled(instr, plan, r, other, mark)(known), instr, thumb)
  {
    forall x: Regs, y: Regs | Agree(x, y, instr.info.Reads())
      ensures TrueOf(known, plan.uses, x) <==> TrueOf(known, plan.uses, y)
    {
    }
  }

  lemma MisledFaithful<W(!new)>(instr: Instr, thumb: bool, plan: Plan, last: bool, r: Reg, other: Word, mark: W -> W,
      ok: W -> bool)
    requires PlanFits(instr, thumb, plan, last)
    ensures Faithful(Misled(instr, plan, r, other, mark), instr, thumb, plan, ok)
  {
    hide Obeys;
    var code: Code<W> := Misled(instr, plan, r, other, mark);
    forall known: map<Reg, Word>
      ensures Obeys(code(known), instr, thumb)
    {
      MisledObeys(instr, thumb, plan, last, r, other, mark, known);
    }
    assert forall x: Regs :: TrueOf(map[], plan.uses, x);
    assert Leaves(code, instr, plan.constant, ok) by {
      forall x: Regs, w: W
        ensures code(map[])(x, w) == Effect(true, Overwritten(instr, plan.constant, r, other, x), w)
      {
      }
    }
  }

  ghost function AllMisled<W>(instrs: seq<Instr>, plans: seq<Plan>, r: Reg, other: Word, mark: W -> W): seq<Code<W>>
    requires |plans| == |instrs|
  {
    seq<Code<W>>(|instrs|, k requires 0 <= k < |instrs| => Misled(instrs[k], plans[k], r, other, mark))
  }

  lemma MisledDirect<W>(instrs: seq<Instr>, plans: seq<Plan>, r: Reg, other: Word, mark: W -> W, k: nat,
      known: map<Reg, Word>, g: Regs, w: W)
    requires k < |instrs| == |plans|
    ensures Direct(AllMisled(instrs, plans, r, other, mark)[k](known), instrs[k], g, w) ==
              var x := g[15 := instrs[k].pc];
              Effect(true, Overwritten(instrs[k], plans[k].constant, r, other, x),
                  if TrueOf(known, plans[k].uses, x) then w else mark(w))
  {
  }

  lemma AllMisledFaithful<W(!new)>(instrs: seq<Instr>, thumb: bool, plans: seq<Plan>, r: Reg, other: Word,
      mark: W -> W, ok: W -> bool)
    requires Planned(instrs, thumb, plans)
    ensures AllFaithful(AllMisled(instrs, plans, r, other, mark), instrs, thumb, plans, ok)
  {
    hide Faithful, PlanFits;
    var codes: seq<Code<W>> := AllMisled(instrs, plans, r, other, mark);
    forall k | 0 <= k < |instrs|
      ensures Faithful(codes[k], instrs[k], thumb, plans[k], ok)
    {
      MisledFaithful(instrs[k], thumb, plans[k], k == |instrs| - 1, r, other, mark, ok);
    }
  }

  /** Their direct runs leave the world alone, and `other` in a register that has been exchanged. */
  lemma {:induction false} MisledRun<W(!new)>(instrs: seq<Instr>, thumb: bool, plans: seq<Plan>, r: Reg, other: Word,
      mark: W -> W, n: nat, g: Regs, w: W)
    requires Planned(instrs, thumb, plans) && n <= |instrs|
    ensures var d := DirectRun(AllMisled(instrs, plans, r, other, mark), instrs, n, g, w);
            && d.1 == w
            && forall j | 0 <= j < n && StillKnown(instrs, plans, r, j, n) && Exchanged(instrs, r, j, n) ::
                 d.0[r] == other
  {
    hide PlanFits;
    if n > 0 {
      var k := n - 1;
      MisledRun(instrs, thumb, plans, r, other, mark, k, g, w);
      var codes := AllMisled(instrs, plans, r, other, mark);
      var d := DirectRun(codes, instrs, k, g, w);
      MisledDirect(instrs, plans, r, other, mark, k, map[], d.0, d.1);
      forall j | 0 <= j < n && StillKnown(instrs, plans, r, j, n) && Exchanged(instrs, r, j, n)
        ensures DirectRun(codes, instrs, n, g, w).0[r] == other
      {
        ConstantsElsewhere(instrs, thumb, plans, r, j, n);
        assert j < k && r !in instrs[k].info.dst;
        if r !in instrs[k].info.banked {
          assert StillKnown(instrs, plans, r, j, k) && Exchanged(instrs, r, j, k);
          assert r !in instrs[k].info.Writes();
        } else {
          assert r in instrs[k].info.Writes();
        }
      }
    }
  }

  /** While a constant is known no other instruction leaves one in its register. */
  lemma ConstantsElsewhere(instrs: seq<Instr>, thumb: bool, plans: seq<Plan>, r: Reg, j: nat, n: nat)
    requires Planned(instrs, thumb, plans) && j < n <= |instrs| && StillKnown(instrs, plans, r, j, n)
    ensures forall m | j < m < n :: !(plans[m].constant.Constant? && plans[m].constant.reg == r)
  {
    forall m | j < m < n
      ensures !(plans[m].constant.Constant? && plans[m].constant.reg == r)
    {
      assert PlanFits(instrs[m], thumb, plans[m], m == |instrs| - 1);
    }
  }

  /** Register `r` holds `val` before instruction `n` in every run of every faithful code. */
  ghost predicate HoldsAlways<W(!new)>(instrs: seq<Instr>, thumb: bool, plans: seq<Plan>, ok: W -> bool, r: Reg,
      val: Word, n: nat)
    requires n <= |instrs|
  {
    forall codes: seq<Code<W>>, g: Regs, w: W | AllFaithful(codes, instrs, thumb, plans, ok) && ok(w) ::
      DirectRun(codes, instrs, n, g, w).0[r] == val
  }

  /** What is known of a register is true in all runs if and only if the register has not been exchanged since. */
  lemma KnownIsTrueIff<W(!new)>(instrs: seq<Instr>, thumb: bool, plans: seq<Plan>, ok: W -> bool, world: W, r: Reg,
      j: nat, n: nat)
    requires Planned(instrs, thumb, plans) && j < n <= |instrs| && StillKnown(instrs, plans, r, j, n) && ok(world)
    ensures r in KnownBefore(instrs, plans, n) && KnownBefore(instrs, plans, n)[r] == plans[j].constant.val
    ensures HoldsAlways(instrs, thumb, plans, ok, r, KnownBefore(instrs, plans, n)[r], n)
        <==> !Exchanged(instrs, r, j, n)
  {
    hide PlanFits, Faithful, KnownBefore;
    KnownStill(instrs, thumb, plans, r, j, n);
    var val := plans[j].constant.val;
    if Exchanged(instrs, r, j, n) {
      var other: Word := if val == 0 then 1 else 0;
      var mark := (w: W) => w;
      var g: Regs := seq(16, _ => 0);
      AllMisledFaithful(instrs, thumb, plans, r, other, mark, ok);
      MisledRun(instrs, thumb, plans, r, other, mark, n, g, world);
    } else {
      forall codes: seq<Code<W>>, g: Regs, w: W | AllFaithful(codes, instrs, thumb, plans, ok) && ok(w)
        ensures DirectRun(codes, instrs, n, g, w).0[r] == val
      {
        KnownIsTrue(codes, instrs, thumb, plans, ok, r, j, n, g, w);
      }
    }
  }

  // ---- When it matters -----------------------------------------------------------------------

  lemma {:induction false} FirstUnkept(instrs: seq<Instr>, plans: seq<Plan>, n: nat) returns (k: nat)
    requires n <= |instrs| == |plans| && exists i | 0 <= i < n :: !UsesKept(instrs, plans, i)
    ensures k < n && !UsesKept(instrs, plans, k) && forall i | 0 <= i < k :: UsesKept(instrs, plans, i)
  {
    hide UsesKept;
    if forall i | 0 <= i < n - 1 :: UsesKept(instrs, plans, i) {
      k := n - 1;
    } else {
      k := FirstUnkept(instrs, plans, n - 1);
    }
  }

  /** An instruction that uses a constant exchanged in the meantime is misled. */
  lemma UnkeptMisleads(instrs: seq<Instr>, thumb: bool, plans: seq<Plan>, k: nat)
      returns (codes: seq<Code<nat>>)
    requires Planned(instrs, thumb, plans) && k < |instrs| && !UsesKept(instrs, plans, k)
    requires forall i | 0 <= i < k :: UsesKept(instrs, plans, i)
    ensures AllFaithful(codes, instrs, thumb, plans, Anywhere)
    ensures forall n: nat, g: Regs, w: nat | k < n <= |instrs| :: KnowingRun(codes, instrs, plans, n, g, w).1 > w
    ensures forall n: nat, g: Regs, w: nat | n <= |instrs| :: DirectRun(codes, instrs, n, g, w).1 == w
  {
    hide PlanFits, Faithful, Exchanged, AllMisled, DirectRun, KnowingRun;
    var r, j :| r in plans[k].uses - instrs[k].info.dst && 0 <= j < k && StillKnown(instrs, plans, r, j, k)
        && Exchanged(instrs, r, j, k);
    var other: Word := if plans[j].constant.val == 0 then 1 else 0;
    codes := AllMisled<nat>(instrs, plans, r, other, Next);
    AllMisledFaithful<nat>(instrs, thumb, plans, r, other, Next, Anywhere);
    forall n: nat, g: Regs, w: nat | n <= |instrs|
      ensures DirectRun(codes, instrs, n, g, w).1 == w
      ensures k < n ==> KnowingRun(codes, instrs, plans, n, g, w).1 > w
    {
      MisledFrom(instrs, thumb, plans, r, j, other, k, n, g, w);
    }
  }

  lemma MisledFrom(instrs: seq<Instr>, thumb: bool, plans: seq<Plan>, r: Reg, j: nat, other: Word, k: nat, n: nat,
      g: Regs, w: nat)
    requires Planned(instrs, thumb, plans) && k < |instrs| && plans[k].canCompile && n <= |instrs|
    requires forall i | 0 <= i < k :: UsesKept(instrs, plans, i)
    requires r in plans[k].uses - instrs[k].info.dst && j < k && StillKnown(instrs, plans, r, j, k)
        && Exchanged(instrs, r, j, k) && other != plans[j].constant.val
    ensures DirectRun(AllMisled<nat>(instrs, plans, r, other, Next), instrs, n, g, w).1 == w
    ensures k < n ==> KnowingRun(AllMisled<nat>(instrs, plans, r, other, Next), instrs, plans, n, g, w).1 > w
  {
    hide PlanFits, UsesKept, StillKnown, Exchanged, AllMisled, DirectRun, KnowingRun;
    MisledRun<nat>(instrs, thumb, plans, r, other, Next, n, g, w);
    if k < n {
      MisledAt(instrs, thumb, plans, r, j, other, k, g, w);
      WorldGrows(instrs, plans, r, other, k + 1, n, g, w);
    }
  }

  predicate Anywhere(w: nat) { true }

  function Next(w: nat): nat { w + 1 }

  lemma MisledAt(instrs: seq<Instr>, thumb: bool, plans: seq<Plan>, r: Reg, j: nat, other: Word, k: nat, g: Regs,
      w: nat)
    requires Planned(instrs, thumb, plans) && k < |instrs| && plans[k].canCompile
    requires forall i | 0 <= i < k :: UsesKept(instrs, plans, i)
    requires r in plans[k].uses - instrs[k].info.dst && j < k && StillKnown(instrs, plans, r, j, k)
        && Exchanged(instrs, r, j, k) && other != plans[j].constant.val
    ensures KnowingRun(AllMisled<nat>(instrs, plans, r, other, Next), instrs, plans, k + 1, g, w).1 == w + 1
  {
    hide PlanFits, Faithful, UsesKept, KnownBefore, Exchanged;
    var codes := AllMisled<nat>(instrs, plans, r, other, Next);
    AllMisledFaithful<nat>(instrs, thumb, plans, r, other, Next, Anywhere);
    KnowingChangesNothing(codes, instrs, thumb, plans, Anywhere, k, g, w);
    MisledRun<nat>(instrs, thumb, plans, r, other, Next, k, g, w);
    KnownStill(instrs, thumb, plans, r, j, k);
    var known, d := KnownAt(instrs, plans, k), DirectRun(codes, instrs, k, g, w);
    MisledDirect<nat>(instrs, plans, r, other, Next, k, known, d.0, d.1);
    assert d.0[15 := instrs[k].pc][r] == other != known[r];
  }

  lemma {:induction false} WorldGrows(instrs: seq<Instr>, plans: seq<Plan>, r: Reg, other: Word, m: nat, n: nat,
      g: Regs, w: nat)
    requires m <= n <= |instrs| == |plans|
    ensures var codes := AllMisled<nat>(instrs, plans, r, other, Next);
            KnowingRun(codes, instrs, plans, m, g, w).1 <= KnowingRun(codes, instrs, plans, n, g, w).1
  {
    hide KnownAt;
    if m < n {
      WorldGrows(instrs, plans, r, other, m, n - 1, g, w);
      var codes := AllMisled<nat>(instrs, plans, r, other, Next);
      var s := KnowingRun(codes, instrs, plans, n - 1, g, w);
      MisledDirect<nat>(instrs, plans, r, other, Next, n - 1,
          if plans[n - 1].canCompile then KnownAt(instrs, plans, n - 1) else map[], s.0, s.1);
    }
  }

  /** In all runs of all faithful codes the result is that of direct execution. */
  ghost predicate KnowingIsHarmless(instrs: seq<Instr>, thumb: bool, plans: seq<Plan>)
    requires |plans| == |instrs|
  {
    forall codes: seq<Code<nat>>, g: Regs, w: nat | AllFaithful(codes, instrs, thumb, plans, Anywhere) ::
      KnowingRun(codes, instrs, plans, |instrs|, g, w) == DirectRun(codes, instrs, |instrs|, g, w)
  }

  /** Taking what is known for true is harmless if and only if no instruction uses a constant that has been
      exchanged since it became known. */
  lemma HarmlessIff(instrs: seq<Instr>, thumb: bool, plans: seq<Plan>)
    requires Planned(instrs, thumb, plans)
    ensures KnowingIsHarmless(instrs, thumb, plans) <==>
        forall k | 0 <= k < |instrs| :: UsesKept(instrs, plans, k)
  {
    hide PlanFits, Faithful, UsesKept, DirectRun, KnowingRun;
    if forall k | 0 <= k < |instrs| :: UsesKept(instrs, plans, k) {
      forall codes: seq<Code<nat>>, g: Regs, w: nat | AllFaithful(codes, instrs, thumb, plans, Anywhere)
        ensures KnowingRun(codes, instrs, plans, |instrs|, g, w) == DirectRun(codes, instrs, |instrs|, g, w)
      {
        KnowingChangesNothing(codes, instrs, thumb, plans, Anywhere, |instrs|, g, w);
      }
    } else {
      var k := FirstUnkept(instrs, plans, |instrs|);
      var codes := UnkeptMisleads(instrs, thumb, plans, k);
      var g: Regs := seq(16, _ => 0);
      assert KnowingRun(codes, instrs, plans, |instrs|, g, 0).1 > 0;
    }
  }
}
