/**
 The test for idle loops: no iteration of the loop body may depend on the one before. What an iteration depends on
 and what it leaves are registers, flags, memory and the rest of the processor's status.
 */
module IdleLoop {
  import EmittedCode
  import opened FlagLiveness

  type Reg = EmittedCode.Reg

  /** What is decoded of an instruction. `loads` and `stores` are A_LoadMem and A_WriteMem of its entry. `certain`:
      it is always carried out. `system`: Kind lies between ak_MSR_IMM and ak_MRC. */
  datatype Instr = Instr(dst: set<Reg>, src: set<Reg>, readFlags: set<Flag>, always: set<Flag>, maybe: set<Flag>,
    loads: bool, stores: bool, certain: bool, system: bool)
  {
    /** SpecialKind is special_WriteMem: an instruction that also loads counts as a load. */
    predicate WritesMem() { stores && !loads }
  }

  predicate Branches(instr: Instr) {
    15 in instr.dst
  }

  // ---- The test ------------------------------------------------------------------------------

  /** Register `r` is written by one of the first `i` instructions. */
  ghost predicate WrittenBefore(instrs: seq<Instr>, i: nat, r: Reg)
    requires i <= |instrs|
  {
    exists k | 0 <= k < i :: r in instrs[k].dst
  }

  /** One of the first `n` instructions reads the value `r` had when the iteration began. */
  ghost predicate Carried(instrs: seq<Instr>, n: nat, r: Reg)
    requires n <= |instrs|
  {
    r != 15 && exists i | 0 <= i < n :: r in instrs[i].src && !WrittenBefore(instrs, i, r)
  }

  ghost predicate NoStores(instrs: seq<Instr>) {
    forall i | 0 <= i < |instrs| :: !instrs[i].WritesMem()
  }

  /** The program status and the coprocessors are left alone. */
  ghost predicate NoSystem(thumb: bool, instrs: seq<Instr>) {
    forall i | 0 <= i < |instrs| :: thumb || !instrs[i].system
  }

  ghost predicate BranchesLast(instrs: seq<Instr>) {
    forall i | 0 <= i < |instrs| - 1 :: !Branches(instrs[i])
  }

  /** No register read from the previous iteration is written. */
  ghost predicate NothingCarried(instrs: seq<Instr>) {
    forall r | Carried(instrs, |instrs|, r) :: !WrittenBefore(instrs, |instrs|, r)
  }

  /** What the test establishes. */
  ghost predicate Independent(thumb: bool, instrs: seq<Instr>) {
    NoStores(instrs) && NoSystem(thumb, instrs) && BranchesLast(instrs) && NothingCarried(instrs)
  }

  lemma PrefixSteps(instrs: seq<Instr>, n: nat, r: Reg)
    requires n < |instrs|
    ensures WrittenBefore(instrs, n + 1, r) <==> WrittenBefore(instrs, n, r) || r in instrs[n].dst
    ensures Carried(instrs, n + 1, r) <==>
        Carried(instrs, n, r)
        || (r != 15 && r in instrs[n].src && !WrittenBefore(instrs, n, r))
  {
  }

  lemma {:induction false} PrefixesGrow(instrs: seq<Instr>, n: nat, r: Reg)
    requires n <= |instrs|
    ensures WrittenBefore(instrs, n, r) ==> WrittenBefore(instrs, |instrs|, r)
    ensures Carried(instrs, n, r) ==> Carried(instrs, |instrs|, r)
  {
  }

  method IsIdleLoop(thumb: bool, instrs: seq<Instr>) returns (idle: bool)
    ensures idle <==> Independent(thumb, instrs)
  {
    var regsWrittenTo: set<Reg>, regsDisallowedToWrite: set<Reg> := {}, {};
    for i := 0 to |instrs|
      invariant forall k | 0 <= k < i :: !instrs[k].WritesMem() && (thumb || !instrs[k].system)
      invariant forall k | 0 <= k < i && k < |instrs| - 1 :: !Branches(instrs[k])
      invariant forall r: Reg :: r in regsWrittenTo <==> r != 15 && WrittenBefore(instrs, i, r)
      invariant forall r: Reg :: r in regsDisallowedToWrite <==> Carried(instrs, i, r)
      invariant regsDisallowedToWrite !! regsWrittenTo
    {
      if instrs[i].WritesMem() {
        return false;
      }
      if !thumb && instrs[i].system {
        return false;
      }
      if i < |instrs| - 1 && Branches(instrs[i]) {
        return false;
      }
      var srcRegs: set<Reg> := instrs[i].src - {15};
      var dstRegs: set<Reg> := instrs[i].dst - {15};
      forall r {
        PrefixSteps(instrs, i, r);
      }
      regsDisallowedToWrite := regsDisallowedToWrite + (srcRegs - regsWrittenTo);
      if dstRegs * regsDisallowedToWrite != {} {
        var r: Reg :| r in dstRegs * regsDisallowedToWrite;
        PrefixesGrow(instrs, i + 1, r);
        return false;
      }
      regsWrittenTo := regsWrittenTo + dstRegs;
    }
    return true;
  }

  // ---- What instructions do ------------------------------------------------------------------

  /** What an instruction can read and write. Writing r15 is branching. */
  datatype Cell = Register(r: Reg) | Condition(x: Flag) | Memory | Status

  type State<!T> = Cell -> T

  /** The cells an instruction writes this time, with their values. */
  type Step<!T> = State<T> -> map<Cell, T>

  /** r15 is a constant to every instruction and not read. */
  ghost predicate Reads(thumb: bool, instr: Instr, c: Cell) {
    match c
    case Register(r) => r != 15 && r in instr.src
    case Condition(x) => x in instr.readFlags
    case Memory => instr.loads
    case Status => !thumb && instr.system
  }

  ghost predicate Writes(thumb: bool, instr: Instr, c: Cell) {
    match c
    case Register(r) => r in instr.dst
    case Condition(x) => x in instr.always + instr.maybe
    case Memory => instr.stores
    case Status => !thumb && instr.system
  }

  /** Written whenever the instruction is met. */
  ghost predicate SurelyWrites(instr: Instr, c: Cell) {
    match c
    case Register(r) => instr.certain && r in instr.dst
    case Condition(x) => x in instr.always
    case _ => false
  }

  /** What it writes depends on what it reads only. */
  ghost predicate Obeys<T(!new)>(step: Step<T>, thumb: bool, instr: Instr) {
    && (forall x: State<T>, y: State<T> | forall c | Reads(thumb, instr, c) :: x(c) == y(c) :: step(x) == step(y))
    && (forall x: State<T>, c | c in step(x) :: Writes(thumb, instr, c))
    && (forall x: State<T>, c | SurelyWrites(instr, c) :: c in step(x))
  }

  ghost predicate BodyObeys<T(!new)>(steps: seq<Step<T>>, thumb: bool, instrs: seq<Instr>) {
    |steps| == |instrs| && forall i | 0 <= i < |instrs| :: Obeys(steps[i], thumb, instrs[i])
  }

  ghost function After<T>(x: State<T>, written: map<Cell, T>): State<T> {
    (c: Cell) => if c in written then written[c] else x(c)
  }

  /** The first `n` instructions of the body, one after the other. */
  ghost function Run<T>(steps: seq<Step<T>>, n: nat, x: State<T>): State<T>
    requires n <= |steps|
  {
    if n == 0 then x else
      var y := Run(steps, n - 1, x);
      After(y, steps[n - 1](y))
  }

  /** What instruction `n` does in an iteration that begins in state `x`. */
  ghost function Does<T>(steps: seq<Step<T>>, n: nat, x: State<T>): map<Cell, T>
    requires n < |steps|
  {
    steps[n](Run(steps, n, x))
  }

  /** The iteration is carried through to its last instruction. */
  ghost predicate Through<T>(steps: seq<Step<T>>, x: State<T>) {
    forall n | 0 <= n < |steps| - 1 :: Register(15) !in Does(steps, n, x)
  }

  /** Every instruction does the same in an iteration begun in state `y` as in one begun in state `x`. */
  ghost predicate Repeats<T>(steps: seq<Step<T>>, x: State<T>, y: State<T>) {
    forall n | 0 <= n < |steps| :: Does(steps, n, y) == Does(steps, n, x)
  }

  /** Whatever the instructions do, an iteration is carried through and the next one does the same. */
  ghost predicate Idle(thumb: bool, instrs: seq<Instr>) {
    forall steps: seq<Step<nat>>, x: State<nat> | BodyObeys(steps, thumb, instrs) ::
      Through(steps, x) && Repeats(steps, x, Run(steps, |steps|, x))
  }

  // ---- When loops are idle -------------------------------------------------------------------

  ghost predicate SurelyBefore(instrs: seq<Instr>, i: nat, c: Cell)
    requires i <= |instrs|
  {
    exists k | 0 <= k < i :: SurelyWrites(instrs[k], c)
  }

  ghost predicate WritesAny(thumb: bool, instr: Instr) { exists c :: Writes(thumb, instr, c) }

  /** Instruction `i` reads what may still be there from the previous iteration, and `j` may write it afterwards. */
  ghost predicate Passes(thumb: bool, instrs: seq<Instr>, i: nat, j: nat, c: Cell)
    requires i < |instrs| && j < |instrs|
  {
    && i <= j && Reads(thumb, instrs[i], c) && WritesAny(thumb, instrs[i])
    && !SurelyBefore(instrs, i, c) && Writes(thumb, instrs[j], c)
  }

  ghost predicate NothingPassed(thumb: bool, instrs: seq<Instr>) {
    forall i, j, c | 0 <= i < |instrs| && 0 <= j < |instrs| :: !Passes(thumb, instrs, i, j, c)
  }

  lemma NothingWritten<T(!new)>(step: Step<T>, thumb: bool, instr: Instr, x: State<T>)
    requires Obeys(step, thumb, instr) && !WritesAny(thumb, instr)
    ensures step(x) == map[]
  {
    forall c
      ensures c !in step(x)
    {
      assert !Writes(thumb, instr, c);
    }
  }

  lemma NotPassed(thumb: bool, instrs: seq<Instr>, i: nat, j: nat, c: Cell)
    requires NothingPassed(thumb, instrs) && i <= j < |instrs|
    requires Reads(thumb, instrs[i], c) && WritesAny(thumb, instrs[i]) && !SurelyBefore(instrs, i, c)
    ensures !Writes(thumb, instrs[j], c)
  {
    hide Reads, Writes, WritesAny, SurelyBefore;
    assert !Passes(thumb, instrs, i, j, c);
  }

  lemma {:induction false} Unwritten<T>(steps: seq<Step<T>>, x: State<T>, n: nat, c: Cell)
    requires n <= |steps| && forall m | 0 <= m < n :: c !in Does(steps, m, x)
    ensures Run(steps, n, x)(c) == x(c)
  {
    if n > 0 {
      Unwritten(steps, x, n - 1, c);
      assert c !in Does(steps, n - 1, x);
    }
  }

  lemma SureIsDone<T(!new)>(steps: seq<Step<T>>, thumb: bool, instrs: seq<Instr>, x: State<T>, n: nat, c: Cell)
    requires BodyObeys(steps, thumb, instrs) && n <= |instrs| && SurelyBefore(instrs, n, c)
    ensures exists m | 0 <= m < n :: c in Does(steps, m, x)
  {
    hide Run;
    var k :| 0 <= k < n && SurelyWrites(instrs[k], c);
    assert Obeys(steps[k], thumb, instrs[k]);
    assert c in Does(steps, k, x);
  }

  /** What an instruction reads is the same in the second iteration, given that so far everything was. */
  lemma ReadsSame<T(!new)>(steps: seq<Step<T>>, thumb: bool, instrs: seq<Instr>, x: State<T>, n: nat, c: Cell)
    requires BodyObeys(steps, thumb, instrs) && NothingPassed(thumb, instrs) && n < |instrs|
    requires Reads(thumb, instrs[n], c) && WritesAny(thumb, instrs[n])
    requires forall m | 0 <= m < n :: c !in Does(steps, m, x)
    ensures Run(steps, |steps|, x)(c) == x(c)
  {
    hide Run, Does, Reads, WritesAny, Writes, SurelyBefore, NothingPassed;
    if Run(steps, |steps|, x)(c) != x(c) {
      if forall m | 0 <= m < |steps| :: c !in Does(steps, m, x) {
        Unwritten(steps, x, |steps|, c);
      } else {
        var m :| 0 <= m < |steps| && c in Does(steps, m, x);
        if SurelyBefore(instrs, n, c) {
          SureIsDone(steps, thumb, instrs, x, n, c);
        } else {
          NotPassed(thumb, instrs, n, m, c);
          DoneIsWritten(steps, thumb, instrs, x, m, c);
        }
      }
    }
  }

  lemma DoneIsWritten<T(!new)>(steps: seq<Step<T>>, thumb: bool, instrs: seq<Instr>, x: State<T>, m: nat, c: Cell)
    requires BodyObeys(steps, thumb, instrs) && m < |instrs| && c in Does(steps, m, x)
    ensures Writes(thumb, instrs[m], c)
  {
    hide Run, Writes;
    assert Obeys(steps[m], thumb, instrs[m]);
  }

  /** In an iteration from `y` every instruction has done what it did in the one from `x`, and the states differ only
      in cells not written so far. */
  ghost predicate SoFar<T>(steps: seq<Step<T>>, x: State<T>, y: State<T>, n: nat)
    requires n <= |steps|
  {
    && (forall m | 0 <= m < n :: Does(steps, m, y) == Does(steps, m, x))
    && forall c | Run(steps, n, y)(c) != Run(steps, n, x)(c) ::
         y(c) != x(c) && forall m | 0 <= m < n :: c !in Does(steps, m, x)
  }

  lemma SoFarMore<T>(steps: seq<Step<T>>, x: State<T>, y: State<T>, k: nat)
    requires k < |steps| && SoFar(steps, x, y, k) && Does(steps, k, y) == Does(steps, k, x)
    ensures SoFar(steps, x, y, k + 1)
  {
    forall c | Run(steps, k + 1, y)(c) != Run(steps, k + 1, x)(c)
      ensures y(c) != x(c) && forall m | 0 <= m < k + 1 :: c !in Does(steps, m, x)
    {
      assert c !in Does(steps, k, x);
      assert Run(steps, k, y)(c) != Run(steps, k, x)(c);
    }
  }

  lemma {:induction false} SameSoFar<T(!new)>(steps: seq<Step<T>>, thumb: bool, instrs: seq<Instr>, x: State<T>,
      n: nat)
    requires BodyObeys(steps, thumb, instrs) && NothingPassed(thumb, instrs) && n <= |instrs|
    ensures SoFar(steps, x, Run(steps, |steps|, x), n)
  {
    hide NothingPassed, Obeys;
    var y := Run(steps, |steps|, x);
    if n > 0 {
      SameSoFar(steps, thumb, instrs, x, n - 1);
      NextSame(steps, thumb, instrs, x, n - 1);
      SoFarMore(steps, x, y, n - 1);
    }
  }

  lemma NextSame<T(!new)>(steps: seq<Step<T>>, thumb: bool, instrs: seq<Instr>, x: State<T>, k: nat)
    requires BodyObeys(steps, thumb, instrs) && NothingPassed(thumb, instrs) && k < |instrs|
    requires SoFar(steps, x, Run(steps, |steps|, x), k)
    ensures Does(steps, k, Run(steps, |steps|, x)) == Does(steps, k, x)
  {
    hide NothingPassed, Reads, Writes, SurelyWrites, WritesAny, Run;
    var y := Run(steps, |steps|, x);
    var a, b := Run(steps, k, x), Run(steps, k, y);
    assert Obeys(steps[k], thumb, instrs[k]);
    if WritesAny(thumb, instrs[k]) {
      forall c | Reads(thumb, instrs[k], c)
        ensures a(c) == b(c)
      {
        if a(c) != b(c) {
          ReadsSame(steps, thumb, instrs, x, k, c);
        }
      }
    } else {
      NothingWritten(steps[k], thumb, instrs[k], a);
      NothingWritten(steps[k], thumb, instrs[k], b);
    }
  }

  /** Nothing is different after the second iteration. */
  lemma SecondIterationIdle<T(!new)>(steps: seq<Step<T>>, thumb: bool, instrs: seq<Instr>, x: State<T>)
    requires BodyObeys(steps, thumb, instrs) && NothingPassed(thumb, instrs)
    ensures var once := Run(steps, |steps|, x);
            Repeats(steps, x, once) && forall c :: Run(steps, |steps|, once)(c) == once(c)
  {
    hide Run, Does, NothingPassed;
    var once := Run(steps, |steps|, x);
    SameSoFar(steps, thumb, instrs, x, |steps|);
    forall c
      ensures Run(steps, |steps|, once)(c) == once(c)
    {
      if Run(steps, |steps|, once)(c) != once(c) {
        Unwritten(steps, x, |steps|, c);
      }
    }
  }

  lemma CarriedThrough<T(!new)>(steps: seq<Step<T>>, thumb: bool, instrs: seq<Instr>, x: State<T>)
    requires BodyObeys(steps, thumb, instrs) && BranchesLast(instrs)
    ensures Through(steps, x)
  {
    hide Run, Does;
    forall n | 0 <= n < |steps| - 1
      ensures Register(15) !in Does(steps, n, x)
    {
      if Register(15) in Does(steps, n, x) {
        DoneIsWritten(steps, thumb, instrs, x, n, Register(15));
      }
    }
  }

  ghost function Iterate<T>(steps: seq<Step<T>>, times: nat, x: State<T>): State<T> {
    if times == 0 then x else Run(steps, |steps|, Iterate(steps, times - 1, x))
  }

  /** So however often the loop spins, it leaves what a single iteration leaves: it can only be waiting. */
  lemma {:induction false} SpinningIsIdle<T(!new)>(steps: seq<Step<T>>, thumb: bool, instrs: seq<Instr>, times: nat,
      x: State<T>)
    requires BodyObeys(steps, thumb, instrs) && NothingPassed(thumb, instrs) && times > 0
    ensures forall c :: Iterate(steps, times, x)(c) == Run(steps, |steps|, x)(c)
  {
    hide Run, NothingPassed;
    if times == 1 {
      assert Iterate(steps, 0, x) == x;
    } else {
      SpinningIsIdle(steps, thumb, instrs, times - 1, x);
      SecondIterationIdle(steps, thumb, instrs, Iterate(steps, times - 2, x));
    }
  }

  // ---- When they are not ---------------------------------------------------------------------

  const CELLS: set<Cell> := (set r: Reg :: Register(r)) + {Condition(N), Condition(Z), Condition(C), Condition(V),
    Memory, Status}

  lemma AllCells(c: Cell)
    ensures c in CELLS
  {
    match c
    case Register(_) =>
    case Condition(x) =>
      match x {
        case N => case Z => case C => case V =>
      }
    case Memory =>
    case Status =>
  }

  /** Instruction `k` writes what it must, and `extra`; `shows` says that the values show cell `c`. */
  ghost function TellingStep(instr: Instr, extra: set<Cell>, shows: bool, c: Cell): Step<nat> {
    (x: State<nat>) => map d | d in CELLS && (SurelyWrites(instr, d) || d in extra) :: if shows then x(c) + 1 else 1
  }

  lemma TellingStepObeys(thumb: bool, instr: Instr, extra: set<Cell>, shows: bool, c: Cell)
    requires (forall e | e in extra :: Writes(thumb, instr, e)) && (shows ==> Reads(thumb, instr, c))
    ensures Obeys(TellingStep(instr, extra, shows, c), thumb, instr)
  {
    hide Reads, Writes, SurelyWrites;
    forall e | SurelyWrites(instr, e)
      ensures e in CELLS && Writes(thumb, instr, e)
    {
      AllCells(e);
      SureIsWritten(thumb, instr, e);
    }
  }

  lemma SureIsWritten(thumb: bool, instr: Instr, e: Cell)
    ensures SurelyWrites(instr, e) ==> Writes(thumb, instr, e)
  {
  }

  /** Instruction `i` writes `d` and shows `c`, and `j` writes `c`. */
  ghost function Telling(instrs: seq<Instr>, i: nat, j: nat, c: Cell, d: Cell): seq<Step<nat>> {
    seq<Step<nat>>(|instrs|, k requires 0 <= k < |instrs| =>
      TellingStep(instrs[k], (if k == i then {d} else {}) + (if k == j then {c} else {}), k == i, c))
  }

  lemma TellingObeys(thumb: bool, instrs: seq<Instr>, i: nat, j: nat, c: Cell, d: Cell)
    requires i < |instrs| && j < |instrs| && Writes(thumb, instrs[i], d) && Writes(thumb, instrs[j], c)
    requires Reads(thumb, instrs[i], c)
    ensures BodyObeys(Telling(instrs, i, j, c, d), thumb, instrs)
  {
    hide Reads, Writes, Obeys, TellingStep;
    forall k | 0 <= k < |instrs|
      ensures Obeys(Telling(instrs, i, j, c, d)[k], thumb, instrs[k])
    {
      TellingStepObeys(thumb, instrs[k], (if k == i then {d} else {}) + (if k == j then {c} else {}), k == i, c);
    }
  }

  /** Until instruction `i` shows it the cell has the value it had, and from `j` on it has another one. */
  lemma {:induction false} ToldSoFar(instrs: seq<Instr>, i: nat, j: nat, c: Cell, d: Cell, x: State<nat>, n: nat)
    requires i <= j < |instrs| && !SurelyBefore(instrs, i, c) && n <= |instrs|
    ensures var v := Run(Telling(instrs, i, j, c, d), n, x)(c);
            (n <= i ==> v == x(c)) && (x(c) == 0 && i < n ==> v <= 1) && (x(c) == 0 && j < n ==> v == 1)
  {
    hide SurelyWrites;
    if n > 0 {
      var k := n - 1;
      ToldSoFar(instrs, i, j, c, d, x, k);
      AllCells(c);
      if n <= i {
        assert !SurelyWrites(instrs[k], c);
      }
    }
  }

  /** What is passed on makes the second iteration another one. */
  lemma PassedMatters(thumb: bool, instrs: seq<Instr>, i: nat, j: nat, c: Cell)
    requires i < |instrs| && j < |instrs| && Passes(thumb, instrs, i, j, c)
    ensures !Idle(thumb, instrs)
  {
    hide Run, SurelyBefore, Reads, Writes;
    var d :| Writes(thumb, instrs[i], d);
    var steps := Telling(instrs, i, j, c, d);
    var x: State<nat> := (e: Cell) => 0;
    var y := Run(steps, |steps|, x);
    TellingObeys(thumb, instrs, i, j, c, d);
    ToldSoFar(instrs, i, j, c, d, x, i);
    ToldSoFar(instrs, i, j, c, d, x, |instrs|);
    ToldSoFar(instrs, i, j, c, d, y, i);
    AllCells(d);
    assert Does(steps, i, x)[d] == 1 && Does(steps, i, y)[d] == 2;
  }

  lemma BranchLeaves(thumb: bool, instrs: seq<Instr>, n: nat)
    requires n < |instrs| - 1 && Branches(instrs[n])
    ensures !Idle(thumb, instrs)
  {
    hide Run, Obeys;
    var steps := seq<Step<nat>>(|instrs|, k requires 0 <= k < |instrs| =>
      TellingStep(instrs[k], if k == n then {Register(15)} else {}, false, Memory));
    forall k | 0 <= k < |instrs|
      ensures Obeys(steps[k], thumb, instrs[k])
    {
      TellingStepObeys(thumb, instrs[k], if k == n then {Register(15)} else {}, false, Memory);
    }
    var x: State<nat> := (e: Cell) => 0;
    AllCells(Register(15));
    assert BodyObeys(steps, thumb, instrs);
    assert Register(15) in Does(steps, n, x);
    assert !Through(steps, x);
  }

  /** A loop is idle, whatever its instructions do, if and only if only the last one branches and nothing is passed from
      one iteration to the next. */
  lemma IdleIff(thumb: bool, instrs: seq<Instr>)
    ensures Idle(thumb, instrs) <==> BranchesLast(instrs) && NothingPassed(thumb, instrs)
  {
    hide Run, Passes, Obeys, BodyObeys, Through, Repeats, Branches;
    if BranchesLast(instrs) && NothingPassed(thumb, instrs) {
      forall steps: seq<Step<nat>>, x: State<nat> | BodyObeys(steps, thumb, instrs)
        ensures Through(steps, x) && Repeats(steps, x, Run(steps, |steps|, x))
      {
        CarriedThrough(steps, thumb, instrs, x);
        SecondIterationIdle(steps, thumb, instrs, x);
      }
    } else if BranchesLast(instrs) {
      var i, j, c :| 0 <= i < |instrs| && 0 <= j < |instrs| && Passes(thumb, instrs, i, j, c);
      PassedMatters(thumb, instrs, i, j, c);
    } else {
      var n :| 0 <= n < |instrs| - 1 && Branches(instrs[n]);
      BranchLeaves(thumb, instrs, n);
    }
  }

  // ---- What the test decides of it -----------------------------------------------------------

  /** What the test does not look at: flags; registers that may or may not have been written before they are read; and
      stores of instructions that also load. */
  ghost predicate Overlooked(thumb: bool, instrs: seq<Instr>, i: nat, j: nat, c: Cell)
    requires i < |instrs| && j < |instrs|
  {
    && Passes(thumb, instrs, i, j, c)
    && match c
       case Register(r) => WrittenBefore(instrs, i, r)
       case Condition(_) => true
       case Memory => instrs[j].loads
       case Status => false
  }

  /** A loop that passes the test is idle if and only if nothing is passed on that the test does not look at. */
  lemma AcceptedIff(thumb: bool, instrs: seq<Instr>)
    requires Independent(thumb, instrs)
    ensures Idle(thumb, instrs) <==>
        forall i, j, c | 0 <= i < |instrs| && 0 <= j < |instrs| :: !Overlooked(thumb, instrs, i, j, c)
  {
    hide Idle, SurelyBefore, WritesAny;
    IdleIff(thumb, instrs);
    forall i, j, c | 0 <= i < |instrs| && 0 <= j < |instrs| && Passes(thumb, instrs, i, j, c)
      ensures Overlooked(thumb, instrs, i, j, c)
    {
      if c.Register? {
        NotCarried(instrs, i, j, c.r);
      }
    }
  }

  lemma NotCarried(instrs: seq<Instr>, i: nat, j: nat, r: Reg)
    requires NothingCarried(instrs) && i < |instrs| && j < |instrs|
    requires r != 15 && r in instrs[i].src && r in instrs[j].dst
    ensures WrittenBefore(instrs, i, r)
  {
    assert WrittenBefore(instrs, |instrs|, r);
    assert !Carried(instrs, |instrs|, r);
  }

  /** And an idle loop that stores nothing and leaves the status alone passes it, if none of its instructions reads
      registers for nothing. */
  lemma IdleAccepted(thumb: bool, instrs: seq<Instr>)
    requires Idle(thumb, instrs) && NoStores(instrs) && NoSystem(thumb, instrs)
    requires forall i | 0 <= i < |instrs| && instrs[i].src - {15} != {} :: WritesAny(thumb, instrs[i])
    ensures Independent(thumb, instrs)
  {
    hide Idle, WritesAny;
    IdleIff(thumb, instrs);
    forall r | Carried(instrs, |instrs|, r)
      ensures !WrittenBefore(instrs, |instrs|, r)
    {
      var i :| 0 <= i < |instrs| && r in instrs[i].src && !WrittenBefore(instrs, i, r);
      assert r in instrs[i].src - {15};
      forall j | 0 <= j < |instrs|
        ensures r !in instrs[j].dst
      {
        if i <= j {
          NotPassed(thumb, instrs, i, j, Register(r));
        }
      }
    }
  }
}
