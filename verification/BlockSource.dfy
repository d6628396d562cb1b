/**
 The loop of CompileBlock that fetches a block: the 512-byte ranges and 16-byte granules it collects, what
 they cover, and what the finished code depends on.
 */
module BlockSource {
  import opened MachineWords
  import opened LiteralLoads
  import opened Sequences
  import opened BlockIndex

  /** What CompileBlock guarantees of the data it builds a block from. */
  ghost predicate WellFormed(data: BlockData, mapping: Mapping) {
    && data.num <= 1 && data.startAddr % 2 == 0 && Tag(data.startAddr, data.num) != INVALID_TAG
    && data.startAddrLocal == mapping(data.num, data.startAddr)
    && |data.addressRanges| == |data.addressMasks| && Tidy(data.addressRanges, data.addressMasks)
  }

  /** Block `data` covers the granule of `local`. */
  ghost predicate Covers(data: BlockData, local: nat)
    requires |data.addressRanges| == |data.addressMasks|
  {
    Masked(data.addressRanges, data.addressMasks, Base(local), Granule(local))
  }

  // ---- Ranges and masks ----------------------------------------------------------------------

  ghost predicate Masked(ranges: seq<nat>, masks: seq<set<nat>>, key: nat, g: nat)
    requires |ranges| == |masks|
  {
    exists j | 0 <= j < |ranges| :: ranges[j] == key && g in masks[j]
  }

  ghost predicate Tidy(ranges: seq<nat>, masks: seq<set<nat>>) {
    TidyBut(ranges, masks, |ranges|)
  }

  /** Tidy, but the mask at `open` may still be empty. */
  ghost predicate TidyBut(ranges: seq<nat>, masks: seq<set<nat>>, open: nat) {
    && |ranges| == |masks| && Distinct(ranges)
    && forall j | 0 <= j < |ranges| :: Base(ranges[j]) == ranges[j] && (j != open ==> masks[j] != {})
  }

  ghost predicate AddsGranule(ranges: seq<nat>, masks: seq<set<nat>>, local: nat, ranges': seq<nat>,
      masks': seq<set<nat>>)
    requires |ranges| == |masks| && |ranges'| == |masks'|
  {
    forall key, g :: Masked(ranges', masks', key, g) <==>
        Masked(ranges, masks, key, g)
        || (key == Base(local) && g == Granule(local))
  }

  ghost predicate SameGranules(ranges: seq<nat>, masks: seq<set<nat>>, ranges': seq<nat>, masks': seq<set<nat>>)
    requires |ranges| == |masks| && |ranges'| == |masks'|
  {
    forall key, g :: Masked(ranges', masks', key, g) <==> Masked(ranges, masks, key, g)
  }

  lemma GranuleSet(ranges: seq<nat>, masks: seq<set<nat>>, j: nat, local: nat)
    requires TidyBut(ranges, masks, j) && j < |ranges| && ranges[j] == Base(local)
    ensures Tidy(ranges, masks[j := masks[j] + {Granule(local)}])
    ensures AddsGranule(ranges, masks, local, ranges, masks[j := masks[j] + {Granule(local)}])
  {
    var r := masks[j := masks[j] + {Granule(local)}];
    assert Granule(local) in r[j];
    forall key, g
      ensures Masked(ranges, r, key, g) <==>
          Masked(ranges, masks, key, g)
          || (key == Base(local) && g == Granule(local))
    {
      if Masked(ranges, masks, key, g) {
        var k :| 0 <= k < |ranges| && ranges[k] == key && g in masks[k];
        assert g in r[k];
      }
    }
  }

  lemma Swapped(ranges: seq<nat>, masks: seq<set<nat>>, j: nat, last: nat)
    requires Tidy(ranges, masks) && j < |ranges| && last < |ranges|
    ensures var r, m := ranges[j := ranges[last]][last := ranges[j]], masks[j := masks[last]][last := masks[j]];
            TidyBut(r, m, last) && SameGranules(ranges, masks, r, m)
  {
    var r, m := ranges[j := ranges[last]][last := ranges[j]], masks[j := masks[last]][last := masks[j]];
    forall key, g
      ensures Masked(r, m, key, g) <==> Masked(ranges, masks, key, g)
    {
      if Masked(ranges, masks, key, g) {
        var k :| 0 <= k < |ranges| && ranges[k] == key && g in masks[k];
        assert g in m[if k == j then last else if k == last then j else k];
      }
      if Masked(r, m, key, g) {
        var k :| 0 <= k < |ranges| && r[k] == key && g in m[k];
        assert g in masks[if k == j then last else if k == last then j else k];
      }
    }
  }

  lemma Appended(ranges: seq<nat>, masks: seq<set<nat>>, rounded: nat)
    requires Tidy(ranges, masks) && rounded !in ranges && Base(rounded) == rounded
    ensures TidyBut(ranges + [rounded], masks + [{}], |ranges|)
        && SameGranules(ranges, masks, ranges + [rounded], masks + [{}])
  {
    var r, m := ranges + [rounded], masks + [{}];
    forall key, g
      ensures Masked(r, m, key, g) <==> Masked(ranges, masks, key, g)
    {
      if Masked(ranges, masks, key, g) {
        var k :| 0 <= k < |ranges| && ranges[k] == key && g in masks[k];
        assert g in m[k];
      }
    }
  }

  lemma BaseOfBase(local: nat)
    ensures Base(Base(local)) == Base(local)
  {
  }

  lemma TidyOpen(ranges: seq<nat>, masks: seq<set<nat>>, j: nat)
    requires Tidy(ranges, masks)
    ensures TidyBut(ranges, masks, j) && SameGranules(ranges, masks, ranges, masks)
  {
  }

  lemma GranuleAdded(ranges: seq<nat>, masks: seq<set<nat>>, ranges': seq<nat>, masks': seq<set<nat>>, j: nat,
      local: nat)
    requires |ranges| == |masks| && TidyBut(ranges', masks', j) && SameGranules(ranges, masks, ranges', masks')
        && j < |ranges'| && ranges'[j] == Base(local)
    ensures var m := masks'[j := masks'[j] + {Granule(local)}];
            Tidy(ranges', m) && AddsGranule(ranges, masks, local, ranges', m)
  {
    hide TidyBut, Masked;
    GranuleSet(ranges', masks', j, local);
  }

  /** Where a range is in the list; its length if it is not. */
  method FindRange(ranges: seq<nat>, key: nat) returns (j: nat)
    ensures j <= |ranges| && (j < |ranges| ==> ranges[j] == key) && (j == |ranges| ==> key !in ranges)
  {
    j := 0;
    while j < |ranges| && ranges[j] != key
      invariant j <= |ranges| && key !in ranges[..j]
    {
      j := j + 1;
    }
  }

  /** The address of an instruction: its range becomes the last one, by swap or by appending. */
  method AddCode(ranges: seq<nat>, masks: seq<set<nat>>, local: nat, first: bool)
      returns (ranges': seq<nat>, masks': seq<set<nat>>)
    requires Tidy(ranges, masks) && |ranges| == |masks| && (first <==> ranges == [])
    ensures |ranges| <= |ranges'| == |masks'| && ranges' != []
    ensures Tidy(ranges', masks') && AddsGranule(ranges, masks, local, ranges', masks')
  {
    hide Tidy, TidyBut, SameGranules, AddsGranule, Base;
    ranges', masks' := ranges, masks;
    var rounded := Base(local);
    BaseOfBase(local);
    TidyOpen(ranges, masks, |ranges| - if first then 0 else 1);
    if first || rounded != ranges[|ranges| - 1] {
      var j := FindRange(ranges, rounded);
      var last := |ranges| - 1;
      if j < |ranges| {
        Swapped(ranges, masks, j, last);
        ranges', masks' := ranges[j := ranges[last]][last := ranges[j]], masks[j := masks[last]][last := masks[j]];
      } else {
        Appended(ranges, masks, rounded);
        ranges', masks' := ranges + [rounded], masks + [{}];
      }
    }
    var last := |ranges'| - 1;
    GranuleAdded(ranges, masks, ranges', masks', last, local);
    masks' := masks'[last := masks'[last] + {Granule(local)}];
  }

  /** The address of a literal: its range is appended if it is new. */
  method AddLiteral(ranges: seq<nat>, masks: seq<set<nat>>, local: nat)
      returns (ranges': seq<nat>, masks': seq<set<nat>>)
    requires Tidy(ranges, masks) && |ranges| == |masks|
    ensures |ranges| <= |ranges'| == |masks'| && ranges' != []
    ensures Tidy(ranges', masks') && AddsGranule(ranges, masks, local, ranges', masks')
  {
    hide Tidy, TidyBut, SameGranules, AddsGranule, Base;
    ranges', masks' := ranges, masks;
    BaseOfBase(local);
    var j := FindRange(ranges, Base(local));
    TidyOpen(ranges, masks, j);
    if j == |ranges| {
      Appended(ranges, masks, Base(local));
      ranges', masks' := ranges + [Base(local)], masks + [{}];
    }
    GranuleAdded(ranges, masks, ranges', masks', j, local);
    masks' := masks'[j := masks'[j] + {Granule(local)}];
  }

  // ---- The loop ------------------------------------------------------------------------------

  /** Instructions fetched for a CPU, and the literals known to be written to. */
  datatype Fetched = Fetched(instrs: seq<Instr>, num: nat, mapping: Mapping, invalid: set<nat>)
  {
    function Local(a: nat): nat { mapping(num, a) }

    function NotedAt(i: nat): Address
      requires i < |instrs|
    {
      Noted(instrs[i], num, mapping, invalid)
    }

    function FoldedAt(i: nat): Address
      requires i < |instrs|
    {
      Folded(instrs[i], num, mapping, invalid)
    }

    /** The local addresses that go into the masks for one instruction. */
    ghost predicate Reads(i: nat, local: nat)
      requires i < |instrs|
    {
      local == Local(instrs[i].addr) || (NotedAt(i).At? && local == Local(NotedAt(i).addr))
    }

    /** Some read of the first `n` instructions lies in granule `g` of range `key`. */
    ghost predicate ReadIn(n: nat, key: nat, g: nat)
      requires n <= |instrs|
    {
      exists i, local | 0 <= i < n && Reads(i, local) :: Base(local) == key && Granule(local) == g
    }

    /** The same with the code, but not yet the literal, of the next instruction. */
    ghost predicate CodeReadIn(n: nat, key: nat, g: nat)
      requires n < |instrs|
    {
      ReadIn(n, key, g) || (Base(Local(instrs[n].addr)) == key && Granule(Local(instrs[n].addr)) == g)
    }

    /** The literals noted for the first `n` instructions. */
    function Literals(n: nat): (addrs: seq<Address>)
      requires n <= |instrs|
      ensures forall k | 0 <= k < |addrs| :: addrs[k].At?
    {
      if n == 0 then [] else Literals(n - 1) + if NotedAt(n - 1).At? then [NotedAt(n - 1)] else []
    }

    function LiteralLocals(n: nat): seq<nat>
      requires n <= |instrs|
    {
      seq(|Literals(n)|, k requires 0 <= k < |Literals(n)| => Local(Literals(n)[k].addr))
    }

    function LiteralValues(read: Word -> nat, n: nat): seq<nat>
      requires n <= |instrs|
    {
      seq(|Literals(n)|, k requires 0 <= k < |Literals(n)| => read(Literals(n)[k].addr))
    }

    // ---- Halfwords of memory, by local address ----

    function CodeHalves(i: nat): set<nat>
      requires i < |instrs|
    {
      {Local(instrs[i].addr)} + if instrs[i].thumb then {} else {Local(instrs[i].addr + 2)}
    }

    function WordHalves(a: nat): set<nat> {
      {Local(a / 4 * 4), Local(a / 4 * 4 + 2)}
    }

    /** What is hashed of a noted literal: the aligned word, whatever is loaded of it. */
    function NotedHalves(i: nat): set<nat>
      requires i < |instrs|
    {
      if NotedAt(i).At? then WordHalves(NotedAt(i).addr) else {}
    }

    /** What is folded: a word, or the halfword that holds the halfword or byte. */
    function FoldedHalves(i: nat): set<nat>
      requires i < |instrs|
    {
      if FoldedAt(i).Nowhere? then {}
      else if instrs[i].kind.LdrImm? || instrs[i].kind.LdrPcRel? then WordHalves(FoldedAt(i).addr)
      else {Local(FoldedAt(i).addr / 2 * 2)}
    }

    /** Halfword `h` is hashed: part of an instruction or of a noted literal. */
    ghost predicate Hashes(h: nat) {
      exists i | 0 <= i < |instrs| :: h in CodeHalves(i) || h in NotedHalves(i)
    }

    /** The code made with these literals invalid depends on halfword `h`. */
    ghost predicate DependsOn(h: nat) {
      exists i | 0 <= i < |instrs| :: h in CodeHalves(i) || h in FoldedHalves(i)
    }
  }

  /** The addresses of one word are in one granule. */
  ghost predicate KeepsWords(mapping: Mapping) {
    forall num: nat, a: nat, b: nat | a / 4 == b / 4 :: mapping(num, a) / 16 == mapping(num, b) / 16
  }

  function Of(data: BlockData, mapping: Mapping, invalid: set<nat>): Fetched {
    Fetched(data.fetched, data.num, mapping, invalid)
  }

  ghost predicate Aligned(instrs: seq<Instr>) {
    forall i | 0 <= i < |instrs| :: instrs[i].addr % 2 == 0 && (instrs[i].thumb || instrs[i].addr % 4 == 0)
  }

  /** What the loop leaves for the rest of CompileBlock. */
  ghost predicate Gathered(data: BlockData, mapping: Mapping, invalid: set<nat>) {
    var f := Of(data, mapping, invalid);
    && WellFormed(data, mapping) && Aligned(data.fetched)
    && data.literals == f.LiteralLocals(|data.fetched|) && |data.literalValues| == |data.literals|
    && Collected(f, |data.fetched|, data.addressRanges, data.addressMasks)
  }

  lemma ReadNext(f: Fetched, n: nat)
    requires n < |f.instrs|
    ensures forall key, g :: f.ReadIn(n + 1, key, g) <==>
              f.CodeReadIn(n, key, g)
              || (f.NotedAt(n).At? && Base(f.Local(f.NotedAt(n).addr)) == key
                  && Granule(f.Local(f.NotedAt(n).addr)) == g)
  {
    hide Base, Granule, Noted;
    forall key, g
      ensures f.CodeReadIn(n, key, g) ==> f.ReadIn(n + 1, key, g)
      ensures f.NotedAt(n).At? && Base(f.Local(f.NotedAt(n).addr)) == key && Granule(f.Local(f.NotedAt(n).addr)) == g
          ==> f.ReadIn(n + 1, key, g)
    {
      if f.ReadIn(n, key, g) {
        var i, local :| 0 <= i < n && f.Reads(i, local) && Base(local) == key && Granule(local) == g;
      }
      assert f.Reads(n, f.Local(f.instrs[n].addr));
      if f.NotedAt(n).At? {
        assert f.Reads(n, f.Local(f.NotedAt(n).addr));
      }
    }
    forall key, g | f.ReadIn(n + 1, key, g)
      ensures f.CodeReadIn(n, key, g)
              || (f.NotedAt(n).At? && Base(f.Local(f.NotedAt(n).addr)) == key
                  && Granule(f.Local(f.NotedAt(n).addr)) == g)
    {
      var i, local :| 0 <= i < n + 1 && f.Reads(i, local) && Base(local) == key && Granule(local) == g;
    }
  }

  /** Ranges and masks that name exactly the granules read by the first `n` instructions ... */
  ghost predicate Collected(f: Fetched, n: nat, ranges: seq<nat>, masks: seq<set<nat>>)
    requires n <= |f.instrs|
  {
    Tidy(ranges, masks) && forall key, g :: Masked(ranges, masks, key, g) <==> f.ReadIn(n, key, g)
  }

  /** ... and by the code of the next one. */
  ghost predicate CodeCollected(f: Fetched, n: nat, ranges: seq<nat>, masks: seq<set<nat>>)
    requires n < |f.instrs|
  {
    Tidy(ranges, masks) && forall key, g :: Masked(ranges, masks, key, g) <==> f.CodeReadIn(n, key, g)
  }

  lemma CollectedStart(f: Fetched)
    ensures Collected(f, 0, [], [])
  {
  }

  lemma CodeAdded(f: Fetched, n: nat, ranges: seq<nat>, masks: seq<set<nat>>, ranges': seq<nat>, masks': seq<set<nat>>)
    requires n < |f.instrs| && Collected(f, n, ranges, masks) && |ranges'| == |masks'| && Tidy(ranges', masks')
    requires AddsGranule(ranges, masks, f.Local(f.instrs[n].addr), ranges', masks')
    ensures CodeCollected(f, n, ranges', masks')
    ensures f.NotedAt(n).Nowhere? ==> Collected(f, n + 1, ranges', masks')
  {
    hide Base, Granule, Noted, Masked, Fetched.ReadIn;
    ReadNext(f, n);
    forall key, g
      ensures Masked(ranges', masks', key, g) <==> f.CodeReadIn(n, key, g)
    {
      assert Masked(ranges, masks, key, g) <==> f.ReadIn(n, key, g);
    }
  }

  lemma LiteralAdded(f: Fetched, n: nat, ranges: seq<nat>, masks: seq<set<nat>>, ranges': seq<nat>,
      masks': seq<set<nat>>)
    requires n < |f.instrs| && CodeCollected(f, n, ranges, masks) && |ranges'| == |masks'| && Tidy(ranges', masks')
    requires f.NotedAt(n).At? && AddsGranule(ranges, masks, f.Local(f.NotedAt(n).addr), ranges', masks')
    ensures Collected(f, n + 1, ranges', masks')
  {
    hide Base, Granule, Noted, Masked, Fetched.ReadIn, Fetched.CodeReadIn;
    ReadNext(f, n);
    forall key, g
      ensures Masked(ranges', masks', key, g) <==> f.ReadIn(n + 1, key, g)
    {
      assert Masked(ranges, masks, key, g) <==> f.CodeReadIn(n, key, g);
    }
  }

  /** One round: the code of instruction `n`, and its literal if it is noted. */
  method FetchOne(ghost f: Fetched, instr: Instr, num: nat, mapping: Mapping, invalidLiterals: seq<nat>, first: bool,
      ghost n: nat, ranges: seq<nat>, masks: seq<set<nat>>)
      returns (ranges': seq<nat>, masks': seq<set<nat>>, literal: Address)
    requires n < |f.instrs| && f == Fetched(f.instrs, num, mapping, set l | l in invalidLiterals)
        && instr == f.instrs[n]
    requires Collected(f, n, ranges, masks) && (first <==> ranges == [])
    ensures Collected(f, n + 1, ranges', masks') && ranges' != [] && literal == f.NotedAt(n)
  {
    hide Base, Granule, Masked, TidyBut, AddsGranule, LoadsLiteral, DecodeLiteral, Collected, CodeCollected;
    CollectedTidy(f, n, ranges, masks);
    ranges', masks' := AddCode(ranges, masks, mapping(num, instr.addr), first);
    literal := Nowhere;
    CodeAdded(f, n, ranges, masks, ranges', masks');
    if LoadsLiteral(instr) && DecodeLiteral(instr).At? {
      var translated := mapping(num, DecodeLiteral(instr).addr);
      if translated !in invalidLiterals {
        var ranges1, masks1 := ranges', masks';
        ranges', masks' := AddLiteral(ranges', masks', translated);
        LiteralAdded(f, n, ranges1, masks1, ranges', masks');
        literal := DecodeLiteral(instr);
      }
    }
  }

  lemma CollectedTidy(f: Fetched, n: nat, ranges: seq<nat>, masks: seq<set<nat>>)
    requires n <= |f.instrs| && Collected(f, n, ranges, masks)
    ensures Tidy(ranges, masks) && |ranges| == |masks|
  {
  }

  lemma LiteralNext(f: Fetched, read: Word -> nat, n: nat)
    requires n < |f.instrs|
    ensures var literal := f.NotedAt(n);
            && f.LiteralLocals(n + 1) == f.LiteralLocals(n) + (if literal.At? then [f.Local(literal.addr)] else [])
            && f.LiteralValues(read, n + 1) == f.LiteralValues(read, n) + if literal.At? then [read(literal.addr)]
                else []
  {
    hide Noted;
  }

  /** The ranges, masks and literals of a block: each 512-byte range once, and exactly the 16-byte granules its
      instructions and noted literals were read from. `read` gives the word at an address. */
  method CollectRanges(instrs: seq<Instr>, num: nat, mapping: Mapping, invalidLiterals: seq<nat>, read: Word -> nat)
      returns (ranges: seq<nat>, masks: seq<set<nat>>, literals: seq<nat>, values: seq<nat>)
    ensures var f := Fetched(instrs, num, mapping, set l | l in invalidLiterals);
            && Collected(f, |instrs|, ranges, masks)
            && literals == f.LiteralLocals(|instrs|) && values == f.LiteralValues(read, |instrs|)
  {
    hide Collected, Fetched.LiteralLocals, Fetched.LiteralValues;
    ghost var f := Fetched(instrs, num, mapping, set l | l in invalidLiterals);
    CollectedStart(f);
    ranges, masks, literals, values := [], [], [], [];
    NoLiterals(f, read);
    for i := 0 to |instrs|
      invariant Collected(f, i, ranges, masks) && (i == 0 <==> ranges == [])
      invariant literals == f.LiteralLocals(i) && values == f.LiteralValues(read, i)
    {
      var literal;
      ranges, masks, literal := FetchOne(f, instrs[i], num, mapping, invalidLiterals, i == 0, i, ranges, masks);
      LiteralNext(f, read, i);
      if literal.At? {
        literals, values := literals + [mapping(num, literal.addr)], values + [read(literal.addr)];
      }
    }
  }

  lemma NoLiterals(f: Fetched, read: Word -> nat)
    ensures f.LiteralLocals(0) == f.LiteralValues(read, 0) == []
  {
  }

  /** What a block is compiled from: the instructions as they are fetched, `read` for the words of literals,
      `hash` for the hash function, and what the compiler makes of it. */
  datatype Source = Source(
    num: nat, startAddr: nat, fetched: seq<Instr>, read: Word -> nat, hash: seq<nat> -> nat, entryPoint: nat,
        text: map<nat, nat>)
  {
    ghost predicate Valid() {
      num <= 1 && startAddr % 2 == 0 && Tag(startAddr, num) != INVALID_TAG && Aligned(fetched)
    }

    function InstrValues(): seq<nat> { seq(|fetched|, i requires 0 <= i < |fetched| => fetched[i].word) }
  }

  /** The part of CompileBlock that fetches and hashes. */
  method GatherBlock(src: Source, mapping: Mapping, invalidLiterals: seq<nat>) returns (data: BlockData)
    requires src.Valid()
    ensures Gathered(data, mapping, set l | l in invalidLiterals)
    ensures data.num == src.num && data.startAddr == src.startAddr && data.fetched == src.fetched
    ensures data.instrHash == src.hash(src.InstrValues()) && data.literalHash == src.hash(data.literalValues)
    ensures data.literalValues == Of(data, mapping, set l | l in invalidLiterals).LiteralValues(src.read, |src.fetched|)
    ensures data.entryPoint == src.entryPoint && data.text == src.text
  {
    hide Collected;
    var ranges, masks, literals, values := CollectRanges(src.fetched, src.num, mapping, invalidLiterals, src.read);
    data := BlockData(src.num, src.startAddr, mapping(src.num, src.startAddr), src.hash(src.InstrValues()),
        src.hash(values),
      ranges, masks, literals, src.entryPoint, src.fetched, values, src.text);
    CollectedTidy(Of(data, mapping, set l | l in invalidLiterals), |src.fetched|, ranges, masks);
  }

  // ---- What the code depends on, and what is hashed and covered ------------------------------

  /** Whatever the code depends on is hashed. */
  ghost predicate Closed(data: BlockData, mapping: Mapping, before: set<nat>, after: set<nat>) {
    forall h | Of(data, mapping, after).DependsOn(h) :: Of(data, mapping, before).Hashes(h)
  }

  predicate SlipsAt(data: BlockData, mapping: Mapping, before: set<nat>, after: set<nat>, i: nat)
    requires i < |data.fetched|
  {
    Slips(data.fetched[i], data.num, mapping, before, after)
  }

  /** A literal that does not slip is hashed. */
  lemma NotedIfFolded(data: BlockData, mapping: Mapping, before: set<nat>, after: set<nat>, i: nat)
    requires i < |data.fetched| && Aligned(data.fetched) && !SlipsAt(data, mapping, before, after, i)
    ensures Of(data, mapping, after).FoldedHalves(i) <= Of(data, mapping, before).NotedHalves(i)
  {
    hide FirstTry, SecondTry, DecodeLiteral, LoadsLiteral;
    var instr := data.fetched[i];
    var b, a := Of(data, mapping, before), Of(data, mapping, after);
    if a.FoldedAt(i).At? {
      TriesDecoded(instr);
      if SecondTry(instr).At? {
        SecondTryNear(instr);
      }
      SameWord(a.FoldedAt(i).addr, b.NotedAt(i).addr);
    }
  }

  lemma SameWord(a: nat, b: nat)
    requires a / 4 == b / 4
    ensures a / 2 * 2 == b / 4 * 4 || a / 2 * 2 == b / 4 * 4 + 2
  {
    HalfOf(a, a / 4, a % 4);
  }

  lemma HalfOf(a: nat, q: nat, r: nat)
    requires a == 4 * q + r && r < 4
    ensures a / 2 * 2 == 4 * q || a / 2 * 2 == 4 * q + 2
  {
    assert a / 2 == 2 * q + r / 2;
  }

  /** Everything the code depends on is hashed if and only if what slips is hashed for another reason. */
  lemma ClosedIff(data: BlockData, mapping: Mapping, before: set<nat>, after: set<nat>)
    requires Aligned(data.fetched)
    ensures Closed(data, mapping, before, after) <==>
              forall i, h | 0 <= i < |data.fetched| && SlipsAt(data, mapping, before, after, i)
                  && h in Of(data, mapping, after).FoldedHalves(i) ::
                Of(data, mapping, before).Hashes(h)
  {
    hide Slips, Folded, Noted, Aligned;
    var b, a := Of(data, mapping, before), Of(data, mapping, after);
    forall i, h | 0 <= i < |data.fetched| && h in a.FoldedHalves(i)
      ensures a.DependsOn(h) && (!SlipsAt(data, mapping, before, after, i) ==> b.Hashes(h))
    {
      if !SlipsAt(data, mapping, before, after, i) {
        NotedIfFolded(data, mapping, before, after, i);
      }
    }
    forall i, h | 0 <= i < |data.fetched| && h in a.CodeHalves(i)
      ensures b.Hashes(h)
    {
      assert h in b.CodeHalves(i);
    }
  }

  /** Some instruction or noted literal was read from the granule of `h`. */
  ghost predicate GranuleRead(f: Fetched, h: nat) {
    f.ReadIn(|f.instrs|, Base(h), Granule(h))
  }

  lemma GranuleOf(a: nat, b: nat)
    requires a / 16 == b / 16
    ensures Base(a) == Base(b) && Granule(a) == Granule(b)
  {
    assert a / 512 == (a / 16) / 32 && b / 512 == (b / 16) / 32;
    assert a % 512 / 16 == (a / 16) % 32 && b % 512 / 16 == (b / 16) % 32;
  }

  lemma WordOf(a: nat)
    ensures (a / 4 * 4) / 4 == a / 4 && (a / 4 * 4 + 2) / 4 == a / 4
    ensures a % 4 == 0 ==> (a + 2) / 4 == a / 4
  {
  }

  lemma HalvesNear(f: Fetched, a: nat, h: nat)
    requires KeepsWords(f.mapping) && h in f.WordHalves(a)
    ensures h / 16 == f.Local(a) / 16
  {
    WordOf(a);
  }

  /** What is hashed was read. */
  lemma HashedRead(f: Fetched, h: nat)
    requires KeepsWords(f.mapping) && Aligned(f.instrs) && f.Hashes(h)
    ensures GranuleRead(f, h)
  {
    hide Noted, Base, Granule;
    var i :| 0 <= i < |f.instrs| && (h in f.CodeHalves(i) || h in f.NotedHalves(i));
    var local := if h in f.CodeHalves(i) then f.Local(f.instrs[i].addr) else f.Local(f.NotedAt(i).addr);
    if h in f.CodeHalves(i) {
      WordOf(f.instrs[i].addr);
    } else {
      HalvesNear(f, f.NotedAt(i).addr, h);
    }
    GranuleOf(local, h);
    assert f.Reads(i, local);
  }

  /** A block covers exactly the granules that were read. */
  lemma CoversWhatWasRead(data: BlockData, mapping: Mapping, before: set<nat>, h: nat)
    requires Gathered(data, mapping, before)
    ensures Covers(data, h) <==> GranuleRead(Of(data, mapping, before), h)
  {
    hide Masked, Noted;
  }

  /** A block covers everything its code depends on if and only if every literal that slips lies in a granule
      that was read anyway. */
  lemma CoversAllIff(data: BlockData, mapping: Mapping, before: set<nat>, after: set<nat>)
    requires Gathered(data, mapping, before) && KeepsWords(mapping)
    ensures (forall h | Of(data, mapping, after).DependsOn(h) :: Covers(data, h)) <==>
              forall i, h | 0 <= i < |data.fetched| && SlipsAt(data, mapping, before, after, i)
                  && h in Of(data, mapping, after).FoldedHalves(i) ::
                GranuleRead(Of(data, mapping, before), h)
  {
    hide Slips, Folded, Noted, Aligned, Masked, Covers, GranuleRead, Collected;
    var b, a := Of(data, mapping, before), Of(data, mapping, after);
    forall h
      ensures Covers(data, h) <==> GranuleRead(b, h)
    {
      CoversWhatWasRead(data, mapping, before, h);
    }
    forall i, h | 0 <= i < |data.fetched| && h in a.FoldedHalves(i)
      ensures a.DependsOn(h) && (!SlipsAt(data, mapping, before, after, i) ==> GranuleRead(b, h))
    {
      if !SlipsAt(data, mapping, before, after, i) {
        NotedIfFolded(data, mapping, before, after, i);
        HashedRead(b, h);
      }
    }
    forall i, h | 0 <= i < |data.fetched| && h in a.CodeHalves(i)
      ensures GranuleRead(b, h)
    {
      assert h in b.CodeHalves(i);
      HashedRead(b, h);
    }
  }

  /** So a closed block covers everything its code depends on. */
  lemma ClosedCovers(data: BlockData, mapping: Mapping, before: set<nat>, after: set<nat>, h: nat)
    requires Gathered(data, mapping, before) && KeepsWords(mapping) && Closed(data, mapping, before, after)
    requires Of(data, mapping, after).DependsOn(h)
    ensures Covers(data, h)
  {
    hide Covers, GranuleRead, Noted, Collected, WellFormed;
    HashedRead(Of(data, mapping, before), h);
    CoversWhatWasRead(data, mapping, before, h);
  }

  // ---- Literals noted at different times -----------------------------------------------------

  /** The more is invalid, the fewer literals are noted. */
  lemma {:induction false} FewerNoted(data: BlockData, mapping: Mapping, b: set<nat>, c: set<nat>, n: nat)
    requires b <= c && n <= |data.fetched|
    ensures var f, g := Of(data, mapping, b), Of(data, mapping, c);
            && |g.Literals(n)| <= |f.Literals(n)|
            && (|g.Literals(n)| == |f.Literals(n)| ==> g.Literals(n) == f.Literals(n))
  {
    if n > 0 {
      FewerNoted(data, mapping, b, c, n - 1);
    }
  }
}
