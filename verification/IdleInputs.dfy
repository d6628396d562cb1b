/**
 Loop bodies for the test of idle loops: for each of its four conditions one that fails this condition only, and is not
 idle; one that passes; and three that pass and are not idle all the same.
 */
module IdleInputs {
  import opened FlagLiveness
  import opened IdleLoop

  const MOV := IdleLoop.Instr({}, {}, {}, {}, {}, false, false, true, false)

  /** `BNE` back to the start. */
  const BNE := MOV.(dst := {15}, readFlags := {Z}, certain := false)

  /** `LDR r0, [r1]` */
  const LDR := MOV.(dst := {0}, src := {1}, loads := true)

  /** `CMP r0, #0` */
  const CMP := MOV.(src := {0}, always := ALL_FLAGS)

  // ---- Each condition is needed --------------------------------------------------------------

  /** `LDR r0, [r1]`, `ADD r2, r0, #1`, `STR r2, [r1]`: counts in memory. */
  const COUNTS := [LDR, MOV.(dst := {2}, src := {0}), MOV.(src := {1, 2}, stores := true), BNE]

  lemma StoresMatter(thumb: bool)
    ensures NoSystem(thumb, COUNTS) && BranchesLast(COUNTS) && NothingCarried(COUNTS)
    ensures !NoStores(COUNTS) && !Idle(thumb, COUNTS)
  {
    hide Idle;
    assert COUNTS[2].WritesMem();
    assert 2 in COUNTS[1].dst && 0 in COUNTS[0].dst;
    assert IdleLoop.Writes(thumb, COUNTS[0], Register(0));
    PassedMatters(thumb, COUNTS, 0, 2, Memory);
  }

  /** `MRS r0, CPSR`, `ADD r2, r0, #1`, `MSR CPSR_c, r2` */
  const STATUS := [MOV.(dst := {0}, system := true), MOV.(dst := {2}, src := {0}), MOV.(src := {2}, system := true),
    BNE]

  lemma SystemMatters()
    ensures NoStores(STATUS) && BranchesLast(STATUS) && NothingCarried(STATUS)
    ensures !NoSystem(false, STATUS) && !Idle(false, STATUS)
  {
    hide Idle;
    assert STATUS[0].system;
    assert 2 in STATUS[1].dst && 0 in STATUS[0].dst;
    assert IdleLoop.Writes(false, STATUS[0], Register(0));
    PassedMatters(false, STATUS, 0, 2, Status);
  }

  /** A branch out of the loop in the middle of it. */
  const LEAVES := [LDR, CMP, BNE, BNE]

  lemma BranchesMatter(thumb: bool)
    ensures NoStores(LEAVES) && NoSystem(thumb, LEAVES) && NothingCarried(LEAVES)
    ensures !BranchesLast(LEAVES) && !Idle(thumb, LEAVES)
  {
    hide Idle;
    assert 0 in LEAVES[0].dst;
    assert Branches(LEAVES[2]);
    BranchLeaves(thumb, LEAVES, 2);
  }

  /** `SUBS r0, r0, #1`: counts down. */
  const DELAY := [MOV.(dst := {0}, src := {0}, always := ALL_FLAGS), BNE]

  lemma RegistersMatter(thumb: bool)
    ensures NoStores(DELAY) && NoSystem(thumb, DELAY) && BranchesLast(DELAY)
    ensures !NothingCarried(DELAY) && !Idle(thumb, DELAY)
  {
    hide Idle;
    assert 0 in DELAY[0].src && 0 in DELAY[0].dst;
    assert Carried(DELAY, 2, 0) && WrittenBefore(DELAY, 2, 0);
    assert IdleLoop.Writes(thumb, DELAY[0], Register(0));
    PassedMatters(thumb, DELAY, 0, 0, Register(0));
  }

  // ---- An idle loop --------------------------------------------------------------------------

  const WAITS := [LDR, CMP, BNE]

  /** Waiting for a word of memory to become zero. */
  lemma WaitingIsIdle(thumb: bool)
    ensures Independent(thumb, WAITS) && Idle(thumb, WAITS)
  {
    hide Idle;
    assert 0 in WAITS[0].dst;
    forall i, j, c | 0 <= i < 3 && 0 <= j < 3
      ensures !Passes(thumb, WAITS, i, j, c)
    {
      if i == 2 && c == Condition(Z) {
        AllFlags(Z);
        assert SurelyWrites(WAITS[1], c);
      }
    }
    IdleIff(thumb, WAITS);
  }

  // ---- What the test overlooks ---------------------------------------------------------------

  /** `SWP r0, r2, [r1]`, `CMP r0, #0`: trying to take a lock. */
  const LOCKS := [MOV.(dst := {0}, src := {1, 2}, loads := true, stores := true), CMP, BNE]

  lemma SwapOverlooked()
    ensures Independent(false, LOCKS) && !Idle(false, LOCKS)
  {
    hide Idle;
    assert 0 in LOCKS[0].dst;
    assert IdleLoop.Writes(false, LOCKS[0], Register(0));
    PassedMatters(false, LOCKS, 0, 0, Memory);
  }

  /** `ADC r0, r1, r2`, `CMP r3, r4`: the carry of the comparison is that of the next addition. */
  const ADDS := [MOV.(dst := {0}, src := {1, 2}, readFlags := {C}), MOV.(src := {3, 4}, always := ALL_FLAGS), BNE]

  lemma FlagsOverlooked()
    ensures Independent(false, ADDS) && !Idle(false, ADDS)
  {
    hide Idle;
    assert IdleLoop.Writes(false, ADDS[0], Register(0));
    AllFlags(C);
    PassedMatters(false, ADDS, 0, 1, Condition(C));
  }

  /** `MOVEQ r3, r5`, `ADD r6, r3, r3`, `MOV r3, r7`: unless Z is set, the addition is of what the last move left. */
  const MOVES := [MOV.(dst := {3}, src := {5}, readFlags := {Z}, certain := false), MOV.(dst := {6}, src := {3}),
    MOV.(dst := {3}, src := {7}), BNE]

  lemma ConditionOverlooked()
    ensures Independent(false, MOVES) && !Idle(false, MOVES)
  {
    hide Idle;
    assert 3 in MOVES[0].dst;
    assert IdleLoop.Writes(false, MOVES[1], Register(6));
    PassedMatters(false, MOVES, 1, 2, Register(3));
  }
}
