/**
 The backward pass that finds out which flag writes of a block can be dropped, and why dropping the
 others changes nothing any instruction, side exit or the end of the block can see.
 Flag masks are sets of flags.
 */
module FlagLiveness {
  datatype Flag = N | Z | C | V

  const ALL_FLAGS: set<Flag> := {N, Z, C, V}

  /** Flag information of a fetched instruction: `always` is the low nibble of WriteFlags, `maybe`
      the high one; `follows` says that the block continues past a conditional branch here. */
  datatype Instr = Instr(readFlags: set<Flag>, always: set<Flag>, maybe: set<Flag>, canCompile: bool, follows: bool)

  function Writes(instr: Instr): set<Flag> {
    instr.always + instr.maybe
  }

  /** The flags instruction `instr` or an exit beside it looks at. */
  function Demanded(instr: Instr): set<Flag> {
    if !instr.canCompile || instr.follows then ALL_FLAGS else instr.readFlags
  }

  // ---- The pass ------------------------------------------------------------------------------

  /** Those of `flags`, demanded after `start`, that no instruction in (j, start] is certain to write. */
  ghost function Pending(instrs: seq<Instr>, j: int, start: int, flags: set<Flag>): set<Flag>
    requires -1 <= j <= start < |instrs|
    decreases start - j
  {
    if j == start then flags else Pending(instrs, j + 1, start, flags) - instrs[j + 1].always
  }

  lemma {:induction false} PendingEmpty(instrs: seq<Instr>, j: int, i: int, start: int, flags: set<Flag>)
    requires -1 <= j <= i <= start < |instrs| && Pending(instrs, i, start, flags) == {}
    ensures Pending(instrs, j, start, flags) == {}
    decreases i - j
  {
    if j < i {
      PendingEmpty(instrs, j + 1, i, start, flags);
    }
  }

  /** `now` differs from `before` by what instructions j..start must set for a demand of `flags` after `start`. */
  ghost predicate Filled(before: seq<set<Flag>>, now: seq<set<Flag>>, instrs: seq<Instr>, j: nat, start: int,
      flags: set<Flag>)
    requires -1 <= start < |instrs| == |before| == |now|
  {
    && (forall i | j <= i <= start :: now[i] == before[i] + Writes(instrs[i]) * Pending(instrs, i, start, flags))
    && (forall i | 0 <= i < |instrs| && (i < j || start < i) :: now[i] == before[i])
  }

  lemma FillBegins(before: seq<set<Flag>>, instrs: seq<Instr>, start: int, flags: set<Flag>)
    requires -1 <= start < |instrs| == |before|
    ensures Filled(before, before, instrs, start + 1, start, flags) && Pending(instrs, start, start, flags) == flags
  {
  }

  lemma FillStep(before: seq<set<Flag>>, now: seq<set<Flag>>, instrs: seq<Instr>, j: nat, start: int, flags: set<Flag>)
    requires j <= start < |instrs| == |before| == |now| && Filled(before, now, instrs, j + 1, start, flags)
    ensures var f, instr := Pending(instrs, j, start, flags), instrs[j];
            && Pending(instrs, j - 1, start, flags) == f - instr.always * f
            && Filled(before, now[j := now[j] + instr.maybe * f + instr.always * f], instrs, j, start, flags)
            && (instr.always * f == {} ==>
                  Filled(before, now[j := now[j] + instr.maybe * f], instrs, j, start, flags)
                      && Pending(instrs, j - 1, start, flags) == f)
  {
    var f, instr := Pending(instrs, j, start, flags), instrs[j];
    assert now[j] + instr.maybe * f + instr.always * f == now[j] + Writes(instr) * f;
    if instr.always * f == {} {
      assert now[j] + instr.maybe * f == now[j] + Writes(instr) * f;
    }
  }

  /** With no demand left, the instructions above need not be visited. */
  lemma FillEarly(before: seq<set<Flag>>, now: seq<set<Flag>>, instrs: seq<Instr>, j: nat, start: int, flags: set<Flag>)
    requires j <= start < |instrs| == |before| == |now| && Filled(before, now, instrs, j, start, flags)
    requires Pending(instrs, j - 1, start, flags) == {}
    ensures Filled(before, now, instrs, 0, start, flags)
  {
    hide Pending, Writes;
    forall i | 0 <= i < j
      ensures now[i] == before[i] + Writes(instrs[i]) * Pending(instrs, i, start, flags)
    {
      PendingEmpty(instrs, i, j - 1, start, flags);
    }
  }

  method FloodFillSetFlags(instrs: seq<Instr>, setFlags: array<set<Flag>>, start: int, flags: set<Flag>)
    requires |instrs| == setFlags.Length && -1 <= start < |instrs|
    modifies setFlags
    ensures Filled(old(setFlags[..]), setFlags[..], instrs, 0, start, flags)
  {
    hide *;
    var flags := flags;
    ghost var demanded := flags;
    FillBegins(setFlags[..], instrs, start, demanded);
    for j := start + 1 downto 0
      invariant flags == Pending(instrs, j - 1, start, demanded)
      invariant Filled(old(setFlags[..]), setFlags[..], instrs, j, start, demanded)
    {
      ghost var now := setFlags[..];
      FillStep(old(setFlags[..]), now, instrs, j, start, demanded);
      var match_ := instrs[j].always * flags;
      var matchMaybe := instrs[j].maybe * flags;
      setFlags[j] := setFlags[j] + matchMaybe;
      assert setFlags[..] == now[j := now[j] + matchMaybe];
      if match_ != {} {
        setFlags[j] := setFlags[j] + match_;
        assert setFlags[..] == now[j := now[j] + matchMaybe + match_];
        flags := flags - match_;
        if flags == {} {
          FillEarly(old(setFlags[..]), setFlags[..], instrs, j, start, demanded);
          return;
        }
      }
    }
  }

  /** Some reader from `k` on, or the end of the block, sees the value `x` has before instruction `k`. */
  ghost predicate Live(instrs: seq<Instr>, k: nat, x: Flag)
    requires k <= |instrs|
  {
    exists r | k <= r <= |instrs| :: Sees(instrs, k, r, x)
  }

  /** Reader `r` (the end of the block if r == |instrs|) looks at `x`, which nothing from `k` to it is certain
      to write. */
  ghost predicate Sees(instrs: seq<Instr>, k: nat, r: nat, x: Flag)
    requires k <= r <= |instrs|
  {
    && (r < |instrs| ==> x in Demanded(instrs[r]))
    && forall m | k <= m < r :: x !in instrs[m].always
  }

  lemma {:induction false} PendingMeans(instrs: seq<Instr>, j: int, start: int, flags: set<Flag>, x: Flag)
    requires -1 <= j <= start < |instrs|
    ensures x in Pending(instrs, j, start, flags) <==> x in flags && forall m | j < m <= start :: x !in instrs[m].always
    decreases start - j
  {
    if j < start {
      PendingMeans(instrs, j + 1, start, flags, x);
    }
  }

  /** Instruction `j` may be the last to write the `x` that reader `r` looks at. */
  ghost predicate SetFor(instrs: seq<Instr>, j: nat, r: nat, x: Flag)
    requires j < r <= |instrs|
  {
    x in Writes(instrs[j]) && Sees(instrs, j + 1, r, x)
  }

  /** The calls CompileBlock makes: one per reader as instructions are fetched, one for the end of the block. */
  method SetFlagsOfBlock(instrs: seq<Instr>) returns (setFlags: array<set<Flag>>)
    ensures fresh(setFlags) && setFlags.Length == |instrs|
    ensures forall j, x | 0 <= j < |instrs| :: x in setFlags[j] <==> x in Writes(instrs[j]) && Live(instrs, j + 1, x)
  {
    hide Writes, Sees, Live, SetFor, Pending;
    setFlags := new set<Flag>[|instrs|](_ => {});
    for i := 0 to |instrs|
      invariant fresh(setFlags) && setFlags.Length == |instrs|
      invariant forall j, x | 0 <= j < |instrs| :: x in setFlags[j] <==> exists r | j < r < i :: SetFor(instrs, j, r, x)
    {
      var instr := instrs[i];
      ghost var before := setFlags[..];
      var secondaryFlagReadCond := !instr.canCompile || instr.follows;
      if instr.readFlags != {} || secondaryFlagReadCond {
        FloodFillSetFlags(instrs, setFlags, i - 1, if !secondaryFlagReadCond then instr.readFlags else ALL_FLAGS);
      }
      forall j, x | 0 <= j < |instrs|
        ensures x in setFlags[j] <==> x in before[j] || (j < i && SetFor(instrs, j, i, x))
      {
        if j < i {
          DemandReaches(instrs, j, i, x);
        }
      }
    }
    ghost var before := setFlags[..];
    FloodFillSetFlags(instrs, setFlags, |instrs| - 1, ALL_FLAGS);
    forall j, x | 0 <= j < |instrs|
      ensures x in setFlags[j] <==> x in Writes(instrs[j]) && Live(instrs, j + 1, x)
    {
      DemandReaches(instrs, j, |instrs|, x);
      assert x in setFlags[j] <==> x in before[j] || SetFor(instrs, j, |instrs|, x);
      assert x in before[j] <==> exists r | j < r < |instrs| :: SetFor(instrs, j, r, x);
      LiveMeans(instrs, j, x);
    }
  }

  lemma DemandReaches(instrs: seq<Instr>, j: nat, r: nat, x: Flag)
    requires j < r <= |instrs|
    ensures var demand := if r < |instrs| then Demanded(instrs[r]) else ALL_FLAGS;
            x in Writes(instrs[j]) * Pending(instrs, j, r - 1, demand) <==> SetFor(instrs, j, r, x)
    ensures r < |instrs| && Demanded(instrs[r]) == {} ==> !SetFor(instrs, j, r, x)
  {
    AllFlags(x);
    PendingMeans(instrs, j, r - 1, if r < |instrs| then Demanded(instrs[r]) else ALL_FLAGS, x);
  }

  lemma LiveMeans(instrs: seq<Instr>, j: nat, x: Flag)
    requires j < |instrs|
    ensures (exists r | j < r < |instrs| :: SetFor(instrs, j, r, x)) || SetFor(instrs, j, |instrs|, x) <==>
            x in Writes(instrs[j]) && Live(instrs, j + 1, x)
  {
    if x in Writes(instrs[j]) && Live(instrs, j + 1, x) {
      var r :| j + 1 <= r <= |instrs| && Sees(instrs, j + 1, r, x);
      assert SetFor(instrs, j, r, x);
    }
  }

  lemma AllFlags(x: Flag)
    ensures x in ALL_FLAGS
  {
    match x case N => case Z => case C => case V =>
  }

  // ---- What it preserves ---------------------------------------------------------------------

  /** What an instruction computes: which flags it writes this time, with which values, and the rest. */
  datatype Effect<W> = Effect(written: set<Flag>, values: set<Flag>, world: W)

  type Step<!W> = (set<Flag>, W) -> Effect<W>

  /** Does an instruction leave the block before it is carried out? */
  type Exit<!W> = (set<Flag>, W) -> bool

  /** A compiled instruction looks at no flag but those it is said to read, the interpreter at any; both write what
      the instruction always writes and nothing but what it may write. Flag states are the sets of flags that are
      up. */
  ghost predicate Obeys<W(!new)>(step: Step<W>, instr: Instr) {
    && (instr.canCompile ==>
          forall f, g, w | f * instr.readFlags == g * instr.readFlags :: step(f, w) == step(g, w))
    && (forall f, w :: instr.always <= step(f, w).written <= Writes(instr))
  }

  /** The block is left only at a branch it continues past, or where the interpreter is called. */
  predicate MayLeave(instr: Instr) { instr.follows || !instr.canCompile }

  ghost predicate AllObey<W(!new)>(steps: seq<Step<W>>, exits: seq<Exit<W>>, instrs: seq<Instr>) {
    && |steps| == |exits| == |instrs|
    && forall j | 0 <= j < |instrs| ::
         Obeys(steps[j], instrs[j]) && (MayLeave(instrs[j]) || forall f, w :: !exits[j](f, w))
  }

  /** Carried out, storing only the flags in `update`. */
  ghost function After<W>(step: Step<W>, update: set<Flag>, f: set<Flag>, w: W): (set<Flag>, W) {
    var e := step(f, w);
    var stored := e.written * update;
    ((f - stored) + e.values * stored, e.world)
  }

  /** Run the first `k` instructions, instruction j storing only flags in updates[j]. */
  ghost function Run<W>(steps: seq<Step<W>>, updates: seq<set<Flag>>, k: nat, f: set<Flag>, w: W): (set<Flag>, W)
    requires k <= |steps| == |updates|
  {
    if k == 0 then (f, w) else
      var s := Run(steps, updates, k - 1, f, w);
      After(steps[k - 1], updates[k - 1], s.0, s.1)
  }

  /** With its exits: still inside the block, or left at an instruction; and the flags and the rest then. */
  datatype Outcome<W> = Inside(flags: set<Flag>, world: W) | Left(at: nat, flags: set<Flag>, world: W)

  ghost function Out<W>(steps: seq<Step<W>>, exits: seq<Exit<W>>, updates: seq<set<Flag>>, k: nat, f: set<Flag>,
      w: W): Outcome<W>
    requires k <= |steps| == |exits| == |updates|
  {
    if k == 0 then Inside(f, w) else
      match Out(steps, exits, updates, k - 1, f, w)
      case Left(at, g, v) => Left(at, g, v)
      case Inside(g, v) =>
        if exits[k - 1](g, v) then Left(k - 1, g, v)
        else Inside(After(steps[k - 1], updates[k - 1], g, v).0, After(steps[k - 1], updates[k - 1], g, v).1)
  }

  /** Every written flag is stored. */
  function Full(n: nat): (r: seq<set<Flag>>)
    ensures |r| == n
  {
    seq(n, _ => ALL_FLAGS)
  }

  /** A write is dropped only if the pass did not ask for it. */
  ghost predicate Keeps(pruned: seq<set<Flag>>, instrs: seq<Instr>) {
    && |pruned| == |instrs|
    && forall j, x | 0 <= j < |instrs| && x in Writes(instrs[j]) && Live(instrs, j + 1, x) :: x in pruned[j]
  }

  lemma LiveBefore(instrs: seq<Instr>, k: nat, x: Flag)
    requires k < |instrs|
    ensures x in Demanded(instrs[k]) ==> Live(instrs, k, x)
    ensures x !in instrs[k].always && Live(instrs, k + 1, x) ==> Live(instrs, k, x)
  {
    if x in Demanded(instrs[k]) {
      assert Sees(instrs, k, k, x);
    }
    if x !in instrs[k].always && Live(instrs, k + 1, x) {
      var r :| k + 1 <= r <= |instrs| && Sees(instrs, k + 1, r, x);
      assert Sees(instrs, k, r, x);
    }
  }

  /** The two runs agree on everything but flags nobody will look at. */
  lemma {:induction false} LiveFlagsAgree<W(!new)>(instrs: seq<Instr>, steps: seq<Step<W>>, pruned: seq<set<Flag>>,
      k: nat, f: set<Flag>, w: W)
    requires k <= |steps| == |instrs| && Keeps(pruned, instrs)
    requires forall j | 0 <= j < |instrs| :: Obeys(steps[j], instrs[j])
    ensures var a, b := Run(steps, Full(|instrs|), k, f, w), Run(steps, pruned, k, f, w);
            a.1 == b.1 && forall x | Live(instrs, k, x) :: x in a.0 <==> x in b.0
  {
    if k > 0 {
      var j := k - 1;
      LiveFlagsAgree(instrs, steps, pruned, j, f, w);
      var a, b := Run(steps, Full(|instrs|), j, f, w), Run(steps, pruned, j, f, w);
      forall x
        ensures x in Demanded(instrs[j]) ==> Live(instrs, j, x)
        ensures x !in instrs[j].always && Live(instrs, k, x) ==> Live(instrs, j, x)
      {
        LiveBefore(instrs, j, x);
      }
      DemandedSame(instrs[j], steps[j], a.0, b.0, a.1);
      forall x | Live(instrs, k, x)
        ensures x in Run(steps, Full(|instrs|), k, f, w).0 <==> x in Run(steps, pruned, k, f, w).0
      {
        AllFlags(x);
      }
    }
  }

  lemma DemandedSame<W(!new)>(instr: Instr, step: Step<W>, f: set<Flag>, g: set<Flag>, w: W)
    requires Obeys(step, instr) && forall x | x in Demanded(instr) :: x in f <==> x in g
    ensures step(f, w) == step(g, w)
  {
    forall x
      ensures x in ALL_FLAGS
    {
      AllFlags(x);
    }
    if instr.canCompile {
      assert f * instr.readFlags == g * instr.readFlags;
    } else {
      assert f == g;
    }
  }

  /** Dropping the writes the pass found dead is invisible: every instruction sees the flags it reads unchanged, and
      where the block can be left, where the interpreter is called and at the end all flags are unchanged. */
  lemma DeadWritesInvisible<W(!new)>(instrs: seq<Instr>, steps: seq<Step<W>>, pruned: seq<set<Flag>>, k: nat,
      f: set<Flag>, w: W)
    requires k <= |steps| == |instrs| && Keeps(pruned, instrs)
    requires forall j | 0 <= j < |instrs| :: Obeys(steps[j], instrs[j])
    ensures var a, b := Run(steps, Full(|instrs|), k, f, w), Run(steps, pruned, k, f, w);
            && a.1 == b.1
            && (k == |instrs| || MayLeave(instrs[k]) ==> a.0 == b.0)
            && (k < |instrs| ==> a.0 * instrs[k].readFlags == b.0 * instrs[k].readFlags)
  {
    LiveFlagsAgree(instrs, steps, pruned, k, f, w);
    var a, b := Run(steps, Full(|instrs|), k, f, w), Run(steps, pruned, k, f, w);
    forall x
      ensures k == |instrs| || x in Demanded(instrs[k]) ==> (x in a.0 <==> x in b.0)
    {
      if k == |instrs| {
        assert Sees(instrs, k, k, x);
      } else {
        LiveBefore(instrs, k, x);
      }
    }
    forall x
      ensures x in ALL_FLAGS
    {
      AllFlags(x);
    }
  }

  lemma {:induction false} OutIsRun<W>(steps: seq<Step<W>>, exits: seq<Exit<W>>, updates: seq<set<Flag>>, k: nat,
      f: set<Flag>, w: W)
    requires k <= |steps| == |exits| == |updates| && Out(steps, exits, updates, k, f, w).Inside?
    ensures Out(steps, exits, updates, k, f, w)
        == Inside(Run(steps, updates, k, f, w).0, Run(steps, updates, k, f, w).1)
  {
    hide After;
    if k > 0 {
      OutIsRun(steps, exits, updates, k - 1, f, w);
    }
  }

  /** So the block is left at the same place, with the same flags and the same in everything else, or not at all. */
  lemma {:induction false} LeftAlike<W(!new)>(instrs: seq<Instr>, steps: seq<Step<W>>, exits: seq<Exit<W>>,
      pruned: seq<set<Flag>>, k: nat, f: set<Flag>, w: W)
    requires k <= |steps| == |exits| == |instrs| == |pruned|
    requires AllObey(steps, exits, instrs) && Keeps(pruned, instrs)
    ensures var a, b := Out(steps, exits, Full(|instrs|), k, f, w), Out(steps, exits, pruned, k, f, w);
            (a.Left? <==> b.Left?) && (a.Left? || k == |instrs| ==> a == b)
  {
    hide After, Obeys, Keeps, MayLeave, Full;
    var a, b := Out(steps, exits, Full(|instrs|), k, f, w), Out(steps, exits, pruned, k, f, w);
    if k > 0 {
      LeftAlike(instrs, steps, exits, pruned, k - 1, f, w);
      var c, d := Out(steps, exits, Full(|instrs|), k - 1, f, w), Out(steps, exits, pruned, k - 1, f, w);
      if c.Inside? {
        OutIsRun(steps, exits, Full(|instrs|), k - 1, f, w);
        OutIsRun(steps, exits, pruned, k - 1, f, w);
        DeadWritesInvisible(instrs, steps, pruned, k - 1, f, w);
        assert MayLeave(instrs[k - 1]) ==> c == d;
      }
    }
    if k == |instrs| && a.Inside? {
      OutIsRun(steps, exits, Full(|instrs|), k, f, w);
      OutIsRun(steps, exits, pruned, k, f, w);
      DeadWritesInvisible(instrs, steps, pruned, k, f, w);
    }
  }

  // ---- And that it keeps no more -------------------------------------------------------------

  /** Instruction `j` raises `x`, all others lower what they write, and reader `r` shows what it sees of `x`: in the
      world, or by leaving. */
  ghost function Telling(instrs: seq<Instr>, j: nat, r: nat, x: Flag): seq<Step<bool>> {
    seq<Step<bool>>(|instrs|, i requires 0 <= i < |instrs| => TellingStep(instrs[i], i == j, i == r, x))
  }

  ghost function TellingStep(instr: Instr, raises: bool, shows: bool, x: Flag): Step<bool> {
    (f: set<Flag>, w: bool) =>
      Effect(if raises then instr.always + {x} else instr.always, if raises then {x} else {},
          if shows && x in instr.readFlags then x in f else w)
  }

  ghost function TellingExits(instrs: seq<Instr>, r: nat): seq<Exit<bool>> {
    seq<Exit<bool>>(|instrs|, i requires 0 <= i < |instrs| => (f: set<Flag>, w: bool) => i == r && MayLeave(instrs[i]))
  }

  lemma TellingObeys(instrs: seq<Instr>, j: nat, r: nat, x: Flag)
    requires j < |instrs| && x in Writes(instrs[j])
    ensures AllObey(Telling(instrs, j, r, x), TellingExits(instrs, r), instrs)
  {
    forall i | 0 <= i < |instrs|
      ensures Obeys(Telling(instrs, j, r, x)[i], instrs[i])
    {
      var step := TellingStep(instrs[i], i == j, i == r, x);
      forall f: set<Flag>, g: set<Flag>, w | f * instrs[i].readFlags == g * instrs[i].readFlags
        ensures step(f, w) == step(g, w)
      {
        if x in instrs[i].readFlags {
          assert x in f * instrs[i].readFlags <==> x in g * instrs[i].readFlags;
        }
      }
    }
  }

  /** Up to the reader `x` is up exactly if instruction `j` has stored it. */
  lemma {:induction false} ToldSoFar(instrs: seq<Instr>, updates: seq<set<Flag>>, j: nat, r: nat, x: Flag, k: nat)
    requires j < r <= |instrs| == |updates| && k <= r && x in Writes(instrs[j]) && Sees(instrs, j + 1, r, x)
    ensures var o := Out(Telling(instrs, j, r, x), TellingExits(instrs, r), updates, k, {}, false);
            o.Inside? && !o.world && (x in o.flags <==> k > j && x in updates[j])
  {
    hide Writes, MayLeave;
    if k > 0 {
      ToldSoFar(instrs, updates, j, r, x, k - 1);
    }
  }

  lemma {:induction false} ToldAfter(instrs: seq<Instr>, updates: seq<set<Flag>>, j: nat, r: nat, x: Flag, k: nat)
    requires j < r < k <= |instrs| == |updates| && x in Writes(instrs[j]) && Sees(instrs, j + 1, r, x)
    ensures var o := Out(Telling(instrs, j, r, x), TellingExits(instrs, r), updates, k, {}, false);
            if MayLeave(instrs[r]) then o.Left? && (x in o.flags <==> x in updates[j])
            else o.Inside? && (o.world <==> x in updates[j])
  {
    hide Writes, After;
    if k == r + 1 {
      ToldSoFar(instrs, updates, j, r, x, r);
      ShownBy(instrs, updates, j, r, x);
    } else {
      ToldAfter(instrs, updates, j, r, x, k - 1);
      StaysShown(instrs, updates, j, r, x, k - 1);
    }
  }

  lemma ShownBy(instrs: seq<Instr>, updates: seq<set<Flag>>, j: nat, r: nat, x: Flag)
    requires j < r < |instrs| == |updates| && x in Demanded(instrs[r])
    ensures !MayLeave(instrs[r]) ==> forall f, w ::
        After(Telling(instrs, j, r, x)[r], updates[r], f, w).1 == (x in f)
  {
  }

  lemma StaysShown(instrs: seq<Instr>, updates: seq<set<Flag>>, j: nat, r: nat, x: Flag, k: nat)
    requires j < r < k < |instrs| == |updates|
    ensures forall f, w :: After(Telling(instrs, j, r, x)[k], updates[k], f, w).1 == w
  {
  }

  ghost predicate Invisible(instrs: seq<Instr>, pruned: seq<set<Flag>>)
    requires |pruned| == |instrs|
  {
    forall steps: seq<Step<bool>>, exits: seq<Exit<bool>>, f: set<Flag>, w: bool |
        |steps| == |exits| == |instrs| && AllObey(steps, exits, instrs) ::
      Out(steps, exits, Full(|instrs|), |instrs|, f, w) == Out(steps, exits, pruned, |instrs|, f, w)
  }

  /** Storing only some flags is invisible, whatever the instructions do, if and only if those the pass asks for are
      among them: it asks for no flag too many. */
  lemma InvisibleIff(instrs: seq<Instr>, pruned: seq<set<Flag>>)
    requires |pruned| == |instrs|
    ensures Invisible(instrs, pruned) <==> Keeps(pruned, instrs)
  {
    hide Writes, Sees, MayLeave, AllObey, Out;
    if Keeps(pruned, instrs) {
      forall steps: seq<Step<bool>>, exits: seq<Exit<bool>>, f: set<Flag>, w: bool
          | |steps| == |exits| == |instrs| && AllObey(steps, exits, instrs)
        ensures Out(steps, exits, Full(|instrs|), |instrs|, f, w) == Out(steps, exits, pruned, |instrs|, f, w)
      {
        LeftAlike(instrs, steps, exits, pruned, |instrs|, f, w);
      }
    } else {
      var j, x :| 0 <= j < |instrs| && x in Writes(instrs[j]) && Live(instrs, j + 1, x) && x !in pruned[j];
      var r :| j + 1 <= r <= |instrs| && Sees(instrs, j + 1, r, x);
      TellingObeys(instrs, j, r, x);
      AllFlags(x);
      if r == |instrs| {
        ToldSoFar(instrs, Full(|instrs|), j, r, x, r);
        ToldSoFar(instrs, pruned, j, r, x, r);
      } else {
        ToldAfter(instrs, Full(|instrs|), j, r, x, |instrs|);
        ToldAfter(instrs, pruned, j, r, x, |instrs|);
      }
    }
  }
}
