/**
 Coherence of compiled code with memory: when no block depends on a literal that was not hashed, whatever a
 lookup hits was compiled from what is in memory now.
 */
module BlockCoherence {
  import opened LiteralLoads
  import opened BlockIndex
  import opened BlockSource
  import opened BlockSafety

  /** Memory as the guest sees it: the halfword at a local address. */
  type Memory = nat -> nat

  // ---- What was hashed -----------------------------------------------------------------------

  ghost predicate WordShows(f: Fetched, a: nat, word: nat, h: nat, v: nat) {
    (h == f.Local(a) && v == word % 0x1_0000) || (h == f.Local(a + 2) && v == word / 0x1_0000)
  }

  ghost predicate CodeShows(f: Fetched, i: nat, h: nat, v: nat)
    requires i < |f.instrs|
  {
    var instr := f.instrs[i];
    if instr.thumb then h == f.Local(instr.addr) && v == instr.word % 0x1_0000
        else WordShows(f, instr.addr, instr.word, h, v)
  }

  /** The hashed instructions, or the words hashed for the literals noted, have `v` in halfword `h`. */
  ghost predicate Recorded(f: Fetched, values: seq<nat>, h: nat, v: nat) {
    || (exists i | 0 <= i < |f.instrs| :: CodeShows(f, i, h, v))
    || (exists k | 0 <= k < |values| && k < |f.Literals(|f.instrs|)| ::
          WordShows(f, f.Literals(|f.instrs|)[k].addr / 4 * 4, values[k], h, v))
  }

  /** All of it is in memory; nothing is said of video memory, where local addresses do not identify what is read. */
  ghost predicate Agrees(f: Fetched, values: seq<nat>, mem: Memory) {
    forall h, v | Recorded(f, values, h, v) && !InVideo(h) :: mem(h) == v
  }

  /** `text` is what the code was made from. */
  ghost predicate MadeFrom(data: BlockData, mapping: Mapping, after: set<nat>, mem: Memory) {
    && (forall h :: h in data.text <==> Of(data, mapping, after).DependsOn(h))
    && (forall h | h in data.text && !InVideo(h) :: data.text[h] == mem(h))
  }

  lemma {:induction false} LiteralListed(f: Fetched, i: nat, n: nat) returns (k: nat)
    requires i < n <= |f.instrs| && f.NotedAt(i).At?
    ensures k < |f.Literals(n)| && f.Literals(n)[k] == f.NotedAt(i)
  {
    if i == n - 1 {
      k := |f.Literals(n - 1)|;
    } else {
      k := LiteralListed(f, i, n - 1);
    }
  }

  /** Every halfword that was hashed is recorded with some value. */
  lemma HashedRecorded(f: Fetched, values: seq<nat>, h: nat) returns (v: nat)
    requires f.Hashes(h) && |values| == |f.Literals(|f.instrs|)|
    ensures Recorded(f, values, h, v)
  {
    hide Noted;
    var i :| 0 <= i < |f.instrs| && (h in f.CodeHalves(i) || h in f.NotedHalves(i));
    if h in f.CodeHalves(i) {
      var word := f.instrs[i].word;
      v := if h == f.Local(f.instrs[i].addr) then word % 0x1_0000 else word / 0x1_0000;
      assert CodeShows(f, i, h, v);
    } else {
      var k := LiteralListed(f, i, |f.instrs|);
      var a := f.NotedAt(i).addr / 4 * 4;
      v := if h == f.Local(a) then values[k] % 0x1_0000 else values[k] / 0x1_0000;
      assert WordShows(f, a, values[k], h, v);
    }
  }

  // ---- Coherence -----------------------------------------------------------------------------

  /** Every live block was compiled from what is in memory now, and is dropped when any of it changes. */
  ghost predicate Coherent(s: State, mem: Memory) {
    forall x | IsLive(s, x) :: Current(x.data, mem) && Watched(x.data)
  }

  ghost predicate Current(data: BlockData, mem: Memory) {
    forall h | h in data.text :: mem(h) == data.text[h]
  }

  /** All the code depends on is covered, and none of it is in video memory. */
  ghost predicate Watched(data: BlockData) {
    |data.addressRanges| == |data.addressMasks| && forall h | h in data.text :: Covers(data, h) && !InVideo(h)
  }

  /** How memory changes along with an event. CompileBlock has just read what it hashes, and the compiler reads
      what it folds after it, knowing the literals that are invalid then; equal hashes mean equal instructions
      and equal words of literals. A store changes nothing outside the 16-byte granule it was checked for, unless in
      video memory. */
  ghost predicate MemoryStep(s: State, e: Event, mapping: Mapping, mem: Memory, mem': Memory)
    requires Enabled(s, e, mapping)
  {
    match e
    case Compiling(req, _, _, _) =>
      && mem' == mem && Agrees(Of(req, mapping, s.invalidLiterals), req.literalValues, mem)
      && (Builds(s, e) ==> MadeFrom(req, mapping, Step(s, e).invalidLiterals, mem))
      && (Restores(s, req) ==> SameSource(s.candidates[req.instrHash].data, req))
    case Writing(local) => forall a: nat | a / 16 != local / 16 && !InVideo(a) :: mem'(a) == mem(a)
    case Resetting => mem' == mem
  }

  ghost predicate SameSource(a: BlockData, b: BlockData) {
    a.fetched == b.fetched && a.literalValues == b.literalValues
  }

  /** A block that is built depends on nothing that was not hashed or is in video memory, and if the cache is reset
      while it is compiled, none of its literals was invalid. */
  ghost predicate Careful(s: State, e: Event, mapping: Mapping)
    requires Enabled(s, e, mapping)
  {
    Builds(s, e) ==>
      && Closed(e.req, mapping, s.invalidLiterals, Step(s, e).invalidLiterals)
      && (forall h | h in e.req.text :: !InVideo(h))
      && (e.full ==> NothingSpoilt(e.req, mapping, s.invalidLiterals))
  }

  ghost predicate NothingSpoilt(data: BlockData, mapping: Mapping, invalid: set<nat>) {
    Of(data, mapping, invalid).Literals(|data.fetched|) == Of(data, mapping, {}).Literals(|data.fetched|)
  }

  // ---- What blocks remember ------------------------------------------------------------------

  /** All a block depends on is covered and was hashed, and its literals are those noted when `invalid` were. */
  ghost predicate Remembers(data: BlockData, mapping: Mapping, invalid: set<nat>) {
    var f := Of(data, mapping, invalid);
    && data.literals == f.LiteralLocals(|data.fetched|) && |data.literalValues| == |data.literals|
    && Watched(data) && forall h | h in data.text :: Recorded(f, data.literalValues, h, data.text[h])
  }

  ghost predicate Remembering(data: BlockData, mapping: Mapping, invalid: set<nat>) {
    exists b: set<nat> :: b <= invalid && Remembers(data, mapping, b)
  }

  ghost predicate AllRemember(s: State, mapping: Mapping) {
    forall x | x in s.made && x !in s.freed :: Remembering(x.data, mapping, s.invalidLiterals)
  }

  lemma BuiltRemembers(data: BlockData, mapping: Mapping, before: set<nat>, after: set<nat>, mem: Memory)
    requires Gathered(data, mapping, before) && KeepsWords(mapping) && Closed(data, mapping, before, after)
    requires forall h | h in data.text :: !InVideo(h)
    requires Agrees(Of(data, mapping, before), data.literalValues, mem) && MadeFrom(data, mapping, after, mem)
    ensures Remembers(data, mapping, before) && Current(data, mem)
  {
    hide Collected, Noted, Folded, Covers, Recorded, Fetched.LiteralLocals, Tidy, Fetched.DependsOn, Fetched.Hashes;
    assert |Of(data, mapping, before).LiteralLocals(|data.fetched|)|
        == |Of(data, mapping, before).Literals(|data.fetched|)| by {
      LocalsCounted(Of(data, mapping, before));
    }
    forall h | h in data.text
      ensures Covers(data, h) && Recorded(Of(data, mapping, before), data.literalValues, h, data.text[h])
    {
      ClosedCovers(data, mapping, before, after, h);
      var v := HashedRecorded(Of(data, mapping, before), data.literalValues, h);
    }
  }

  lemma LocalsCounted(f: Fetched)
    ensures |f.LiteralLocals(|f.instrs|)| == |f.Literals(|f.instrs|)|
  {
  }

  /** With nothing spoilt the literals are those of an empty list of invalid ones. */
  lemma ForgetInvalid(data: BlockData, mapping: Mapping, invalid: set<nat>)
    requires Remembers(data, mapping, invalid) && NothingSpoilt(data, mapping, invalid)
    ensures Remembers(data, mapping, {})
  {
    hide Noted;
    var f, g := Of(data, mapping, invalid), Of(data, mapping, {});
    forall h, v | Recorded(f, data.literalValues, h, v)
      ensures Recorded(g, data.literalValues, h, v)
    {
      RecordedSame(f, g, data.literalValues, h, v);
    }
  }

  lemma RecordedSame(f: Fetched, g: Fetched, values: seq<nat>, h: nat, v: nat)
    requires f == g.(invalid := f.invalid) && f.Literals(|f.instrs|) == g.Literals(|g.instrs|)
    ensures Recorded(f, values, h, v) ==> Recorded(g, values, h, v)
  {
    hide Noted, Fetched.Literals;
    if Recorded(f, values, h, v) {
      if i :| 0 <= i < |f.instrs| && CodeShows(f, i, h, v) {
        assert CodeShows(g, i, h, v);
      } else {
        var k :| 0 <= k < |values| && k < |f.Literals(|f.instrs|)|
            && WordShows(f, f.Literals(|f.instrs|)[k].addr / 4 * 4, values[k], h, v);
        assert WordShows(g, g.Literals(|g.instrs|)[k].addr / 4 * 4, values[k], h, v);
      }
    }
  }

  /** A candidate with the hashes of what has just been read is made from what is in memory. */
  lemma RestoredCurrent(data: BlockData, req: BlockData, mapping: Mapping, invalid: set<nat>, mem: Memory)
    requires Remembering(data, mapping, invalid) && Gathered(req, mapping, invalid)
    requires SameSource(data, req) && data.num == req.num
    requires Agrees(Of(req, mapping, invalid), req.literalValues, mem)
    ensures Current(data, mem) && Watched(data)
  {
    hide Noted, Covers, Collected, Recorded, Fetched.LiteralLocals;
    var b: set<nat> :| b <= invalid && Remembers(data, mapping, b);
    var f, g := Of(data, mapping, b), Of(req, mapping, invalid);
    FewerNoted(data, mapping, b, invalid, |data.fetched|);
    LocalsCounted(f);
    LocalsCounted(g);
    assert Of(data, mapping, invalid) == g;
    forall h | h in data.text
      ensures mem(h) == data.text[h]
    {
      RecordedSame(f, g, data.literalValues, h, data.text[h]);
    }
  }

  lemma StepRemembers(s: State, mapping: Mapping, e: Event, mem: Memory, mem': Memory)
    requires Consistent(s, mapping) && Enabled(s, e, mapping) && AllRemember(s, mapping) && KeepsWords(mapping)
    requires MemoryStep(s, e, mapping, mem, mem') && Careful(s, e, mapping)
    ensures AllRemember(Step(s, e), mapping)
  {
    hide Consistent, Step, Remembers, Closed, MadeFrom, Agrees, Collected, Tidy, Restores;
    var r := Step(s, e);
    StepGrows(s, mapping, e);
    forall x | x in r.made && x !in r.freed
      ensures Remembering(x.data, mapping, r.invalidLiterals)
    {
      if x in s.made {
        var b: set<nat> :| b <= s.invalidLiterals && Remembers(x.data, mapping, b);
        assert b <= r.invalidLiterals;
      } else {
        BuiltRemembers(e.req, mapping, s.invalidLiterals, r.invalidLiterals, mem);
        if e.full {
          ForgetInvalid(e.req, mapping, s.invalidLiterals);
        }
        assert (if e.full then {} else s.invalidLiterals) <= r.invalidLiterals;
      }
    }
  }

  // ---- Steps and runs ------------------------------------------------------------------------

  lemma StoreCoherent(s: State, mapping: Mapping, local: nat, mem: Memory, mem': Memory)
    requires Consistent(s, mapping) && Coherent(s, mem)
    requires forall a: nat | a / 16 != local / 16 && !InVideo(a) :: mem'(a) == mem(a)
    ensures Coherent(CheckAndInvalidate(s, local), mem')
  {
    hide Consistent, CheckAndInvalidate, Masked, WellFormed;
    StoreDropsCode(s, mapping, local);
    forall x | IsLive(CheckAndInvalidate(s, local), x)
      ensures Current(x.data, mem') && Watched(x.data)
    {
      forall h | h in x.data.text
        ensures mem'(h) == x.data.text[h]
      {
        assert Covers(x.data, h) && !Covers(x.data, local);
        if h / 16 == local / 16 {
          GranuleOf(h, local);
        }
      }
    }
  }

  lemma CompileCoherent(s: State, mapping: Mapping, e: Event, mem: Memory)
    requires Consistent(s, mapping) && Coherent(s, mem) && Enabled(s, e, mapping) && e.Compiling? && !CrossRestore(s, e)
    requires AllRemember(s, mapping) && KeepsWords(mapping) && MemoryStep(s, e, mapping, mem, mem)
        && Careful(s, e, mapping)
    ensures Coherent(Step(s, e), mem)
  {
    hide Step, Remembers, Closed, MadeFrom, Agrees, Collected, Tidy, Watched, Current, LiveOk, ListsSound,
        ListsComplete, LookupSound, MayRestore;
    var r, req := Step(s, e), e.req;
    forall x | IsLive(r, x)
      ensures Current(x.data, mem) && Watched(x.data)
    {
      CompileLive(s, mapping, e, x);
      if !IsLive(s, x) {
        if Builds(s, e) {
          CompiledRemembers(s, mapping, e, mem);
        } else {
          RestoredCurrent(x.data, req, mapping, s.invalidLiterals, mem);
        }
      }
    }
  }

  lemma CompiledRemembers(s: State, mapping: Mapping, e: Event, mem: Memory)
    requires Enabled(s, e, mapping) && Builds(s, e) && KeepsWords(mapping)
    requires MemoryStep(s, e, mapping, mem, mem) && Careful(s, e, mapping)
    ensures Current(e.req, mem) && Watched(e.req)
  {
    hide Step, Collected, Tidy, Closed, Agrees, MadeFrom, Recorded;
    BuiltRemembers(e.req, mapping, s.invalidLiterals, Step(s, e).invalidLiterals, mem);
  }

  lemma StepCoherent(s: State, mapping: Mapping, e: Event, mem: Memory, mem': Memory)
    requires Consistent(s, mapping) && Coherent(s, mem) && Enabled(s, e, mapping) && !CrossRestore(s, e)
    requires AllRemember(s, mapping) && KeepsWords(mapping) && MemoryStep(s, e, mapping, mem, mem')
        && Careful(s, e, mapping)
    ensures Coherent(Step(s, e), mem')
  {
    hide Consistent, Compile, CheckAndInvalidate, AllRemember, KeepsWords, Careful;
    match e
    case Compiling(_, _, _, _) => CompileCoherent(s, mapping, e, mem);
    case Writing(local) => StoreCoherent(s, mapping, local, mem, mem');
    case Resetting => ResetSafe(s, mapping);
  }

  /** A run in which every block built is closed. */
  ghost predicate CarefulRun(states: seq<State>, events: seq<Event>, mems: seq<Memory>, mapping: Mapping) {
    && SoundRun(states, events, mapping) && |mems| == |states|
    && forall i | 0 <= i < |events| ::
         MemoryStep(states[i], events[i], mapping, mems[i], mems[i + 1]) && Careful(states[i], events[i], mapping)
  }

  lemma {:induction false} RunRemembers(states: seq<State>, events: seq<Event>, mems: seq<Memory>, mapping: Mapping,
      n: nat)
    requires CarefulRun(states, events, mems, mapping) && KeepsWords(mapping) && n < |states|
    ensures AllRemember(states[n], mapping) && Coherent(states[n], mems[n])
  {
    hide Consistent, Step, KeepsWords, Careful, Enabled, Remembering, Current, Watched, CrossRestore;
    if n == 0 {
      assert forall x: JitBlock :: !IsLive(EMPTY, x);
    } else {
      var i := n - 1;
      RunConsistent(states, events, mapping, i);
      RunRemembers(states, events, mems, mapping, i);
      StepRemembers(states[i], mapping, events[i], mems[i], mems[n]);
      StepCoherent(states[i], mapping, events[i], mems[i], mems[n]);
    }
  }

  /** The JIT is coherent: in every such run, whatever code a lookup hits was compiled from what is in memory
      at that moment. */
  lemma RunCoherent(states: seq<State>, events: seq<Event>, mems: seq<Memory>, mapping: Mapping, n: nat)
    requires CarefulRun(states, events, mems, mapping) && KeepsWords(mapping) && n < |states|
    ensures Coherent(states[n], mems[n])
    ensures forall num, addr | 0 <= num <= 1 && 0 <= addr && addr % 2 == 0 && Tag(addr, num) != INVALID_TAG
                && LookUpBlock(states[n], num, mapping(num, addr), addr).Hit? ::
              addr in states[n].Live(num) && Current(states[n].Live(num)[addr].data, mems[n])
  {
    hide Consistent, Step, KeepsWords, Careful, Enabled, Current, Watched, CrossRestore, LookUpBlock, MemoryStep;
    RunConsistent(states, events, mapping, n);
    RunRemembers(states, events, mems, mapping, n);
    forall num, addr | 0 <= num <= 1 && 0 <= addr && addr % 2 == 0 && Tag(addr, num) != INVALID_TAG
                && LookUpBlock(states[n], num, mapping(num, addr), addr).Hit?
      ensures addr in states[n].Live(num) && Current(states[n].Live(num)[addr].data, mems[n])
    {
      LookupHitsLive(states[n], mapping, num, addr);
      LiveIsLive(states[n], mapping, num, addr);
    }
  }
}
