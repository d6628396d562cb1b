/**
 The allocator's bookkeeping as values: the `Mapping` array, the loaded registers and the natives in
 use, and why a free native register exists whenever fewer registers are loaded than can be.
 */
module NativeMapping {
  import opened MachineWords
  import opened Sequences
  import opened EmittedCode

  // ---- Counting ------------------------------------------------------------------------------

  ghost function Elements(s: seq<Native>): set<Native> {
    set n | n in s
  }

  lemma {:induction false} DistinctCount(s: seq<Native>)
    requires Distinct(s)
    ensures |Elements(s)| == |s|
  {
    if s == [] {
      assert Elements(s) == {};
    } else {
      var init := s[..|s| - 1];
      DistinctCount(init);
      assert Elements(s) == Elements(init) + {s[|s| - 1]};
    }
  }

  lemma {:induction false} SubsetCount<T>(a: set<T>, b: set<T>)
    requires a <= b
    ensures |a| <= |b|
  {
    if a != {} {
      var x :| x in a;
      SubsetCount(a - {x}, b - {x});
    }
  }

  ghost predicate FirstFree(order: seq<Native>, used: set<int>, n: int) {
    exists i | 0 <= i < |order| :: order[i] == n && n !in used && forall j | 0 <= j < i :: order[j] in used
  }

  // ---- Sweeps over a register mask, lowest register first ------------------------------------

  ghost function Below(regs: set<Reg>, k: nat): set<Reg> {
    set r | r in regs && r < k
  }

  lemma BelowStep(regs: set<Reg>, k: Reg)
    ensures Below(regs, k + 1) == if k in regs then Below(regs, k) + {k} else Below(regs, k)
    ensures k in regs ==> k !in Below(regs, k) && |Below(regs, k)| < |regs|
    ensures Below(regs, 0) == {} && Below(regs, 16) == regs && Below(regs, k) <= regs
  {
    if k in regs {
      SubsetCount(Below(regs, k) + {k}, regs);
    }
  }

  /** A sweep that removes: registers of `regs` below `k` are gone from `before`. */
  ghost predicate Removed(before: set<Reg>, now: set<Reg>, regs: set<Reg>, k: nat) {
    now == before - Below(regs, k)
  }

  lemma RemoveStep(before: set<Reg>, now: set<Reg>, regs: set<Reg>, k: Reg)
    ensures Removed(before, before, regs, 0)
    ensures Removed(before, now, regs, 16) ==> now == before - regs
    ensures Removed(before, now, regs, k) ==> Removed(before, if k in regs then now - {k} else now, regs, k + 1)
    ensures Removed(before, now, regs, k) && k in before ==> k in now
  {
    BelowStep(regs, k);
  }

  /** A sweep that loads: registers of `regs` below `k` are in, those not in `withValue` without a value. */
  ghost predicate Added(loaded0: set<Reg>, stale0: set<Reg>, loaded: set<Reg>, stale: set<Reg>, regs: set<Reg>,
      withValue: set<Reg>, k: nat) {
    loaded == loaded0 + Below(regs, k) && stale == stale0 + (Below(regs, k) - withValue)
  }

  lemma AddBegins(loaded0: set<Reg>, stale0: set<Reg>, regs: set<Reg>, withValue: set<Reg>)
    ensures Added(loaded0, stale0, loaded0, stale0, regs, withValue, 0)
  {
    BelowStep(regs, 0);
  }

  lemma AddStep(loaded0: set<Reg>, stale0: set<Reg>, loaded: set<Reg>, stale: set<Reg>, regs: set<Reg>,
      withValue: set<Reg>, k: Reg)
    requires Added(loaded0, stale0, loaded, stale, regs, withValue, k) && regs !! loaded0
    ensures k !in regs ==> Added(loaded0, stale0, loaded, stale, regs, withValue, k + 1)
    ensures k in regs ==> k !in loaded && |loaded| < |loaded0| + |regs| && |loaded + {k}| == |loaded| + 1
    ensures k in regs ==>
              Added(loaded0, stale0, loaded + {k}, stale + if k in withValue then {} else {k}, regs, withValue, k + 1)
  {
    BelowStep(regs, k);
  }

  lemma AddEnds(loaded0: set<Reg>, stale0: set<Reg>, loaded: set<Reg>, stale: set<Reg>, regs: set<Reg>,
      withValue: set<Reg>, k: nat)
    requires Added(loaded0, stale0, loaded, stale, regs, withValue, k) && regs !! loaded0
    ensures loaded0 <= loaded <= loaded0 + regs && stale == stale0 + (loaded - loaded0 - withValue)
    ensures k == 16 ==> loaded == loaded0 + regs && stale == stale0 + (regs - withValue)
  {
    assert loaded - loaded0 == Below(regs, k);
    BelowStep(regs, 0);
  }

  // ---- Eviction ------------------------------------------------------------------------------

  /** `after` keeps what is necessary of `before`, and no victim outranks a survivor that could have gone instead. */
  ghost predicate FairEviction(before: set<Reg>, after: set<Reg>, necessary: set<Reg>, ranking: seq<nat>) {
    && |ranking| == 16 && before * necessary <= after <= before
    && forall victim, kept | victim in before && victim !in after && kept in after && kept !in necessary ::
        ranking[victim] <= ranking[kept]
  }

  lemma EvictOne(before: set<Reg>, now: set<Reg>, necessary: set<Reg>, ranking: seq<nat>, least: Reg)
    requires |ranking| == 16 && FairEviction(before, now, necessary, ranking)
    requires least in now && least !in necessary
    requires forall r | r in now && r !in necessary :: ranking[least] <= ranking[r]
    ensures FairEviction(before, now - {least}, necessary, ranking)
    ensures |now - {least}| == |now| - 1 && necessary - (now - {least}) == necessary - now
  {
  }

  /** Too many registers for the natives: some loaded one is not necessary. */
  lemma VictimExists(now: set<Reg>, necessary: set<Reg>, available: nat)
    requires |now| + |necessary - now| > available >= |necessary|
    ensures !(now <= necessary)
  {
    assert necessary == (necessary * now) + (necessary - now);
    assert now <= necessary ==> necessary * now == now;
  }

  // ---- Bookkeeping ---------------------------------------------------------------------------

  /** `used` is exactly the image of the loaded registers, which have distinct natives from `order`. */
  ghost predicate Consistent(mapping: seq<int>, loaded: set<Reg>, used: set<int>, order: seq<Native>) {
    && |mapping| == 16 && Distinct(order)
    && (forall r: Reg :: if r in loaded then mapping[r] in order else mapping[r] == -1)
    && (forall r, s | r in loaded && s in loaded && mapping[r] == mapping[s] :: r == s)
    && used == set r | r in loaded :: mapping[r]
  }

  ghost function Mapped(mapping: seq<int>, loaded: set<Reg>, used: set<int>, order: seq<Native>): (m: map<Reg, Native>)
    requires Consistent(mapping, loaded, used, order)
    ensures Injective(m) && m.Keys == loaded
    ensures forall n | n !in used :: n !in m.Values
  {
    map r | r in loaded :: mapping[r]
  }

  lemma MappedAt(mapping: seq<int>, loaded: set<Reg>, used: set<int>, order: seq<Native>, reg: Reg)
    requires Consistent(mapping, loaded, used, order) && reg in loaded
    ensures 0 <= mapping[reg] < 32 && Mapped(mapping, loaded, used, order)[reg] == mapping[reg]
  {
  }

  ghost function Literals(loaded: set<Reg>, values: seq<Word>): map<Reg, Word>
    requires |values| == 16
  {
    map r | r in loaded :: values[r]
  }

  lemma ConsistentUnload(mapping: seq<int>, loaded: set<Reg>, used: set<int>, order: seq<Native>, reg: Reg)
    requires Consistent(mapping, loaded, used, order) && reg in loaded
    ensures Consistent(mapping[reg := -1], loaded - {reg}, used - {mapping[reg]}, order)
    ensures Mapped(mapping[reg := -1], loaded - {reg}, used - {mapping[reg]}, order)
        == Mapped(mapping, loaded, used, order) - {reg}
  {
    var after := mapping[reg := -1];
    assert forall r | r in loaded - {reg} :: after[r] == mapping[r];
  }

  lemma ConsistentLoad(mapping: seq<int>, loaded: set<Reg>, used: set<int>, order: seq<Native>, reg: Reg, n: Native)
    requires Consistent(mapping, loaded, used, order) && reg !in loaded && n in order && n !in used
    ensures Consistent(mapping[reg := n], loaded + {reg}, used + {n}, order)
    ensures Mapped(mapping[reg := n], loaded + {reg}, used + {n}, order)
        == Mapped(mapping, loaded, used, order)[reg := n]
  {
    var after := mapping[reg := n];
    assert forall r | r in loaded :: after[r] == mapping[r] && mapping[r] in used;
  }

  lemma {:induction false} ImageCount(mapping: seq<int>, loaded: set<Reg>)
    requires |mapping| == 16
    requires forall r, s | r in loaded && s in loaded && mapping[r] == mapping[s] :: r == s
    ensures |set r | r in loaded :: mapping[r]| == |loaded|
  {
    var image := set r | r in loaded :: mapping[r];
    if loaded != {} {
      var r :| r in loaded;
      ImageCount(mapping, loaded - {r});
      var rest := set s | s in loaded - {r} :: mapping[s];
      assert image == rest + {mapping[r]};
    }
  }

  /** With fewer registers loaded than natives to choose from, some native is free. */
  lemma SomeNativeFree(mapping: seq<int>, loaded: set<Reg>, used: set<int>, order: seq<Native>)
    requires Consistent(mapping, loaded, used, order) && |loaded| < |order|
    ensures exists i | 0 <= i < |order| :: order[i] !in used
  {
    ImageCount(mapping, loaded);
    DistinctCount(order);
    if forall i | 0 <= i < |order| :: order[i] in used {
      assert forall n | n in Elements(order) :: n in used;
      SubsetCount<int>(Elements(order), used);
      assert false;
    }
  }

  lemma FirstFreeAt(order: seq<Native>, used: set<int>, i: nat)
    requires i < |order| && order[i] !in used && forall j | 0 <= j < i :: order[j] in used
    ensures order[i] in order && FirstFree(order, used, order[i])
  {
  }

  lemma LoadedFits(mapping: seq<int>, loaded: set<Reg>, used: set<int>, order: seq<Native>)
    requires Consistent(mapping, loaded, used, order)
    ensures |loaded| <= |order|
  {
    ImageCount(mapping, loaded);
    DistinctCount(order);
    assert forall n | n in used :: n in Elements(order);
    SubsetCount<int>(used, Elements(order));
  }
}
