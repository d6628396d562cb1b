/**
 The JIT's block cache as a state machine over values: the maps of live blocks by start address, the
 per-512-byte range lists with their 16-byte granule masks, the fast lookup table and the blocks kept
 for restoring. A local address is a region number above bit 27 and an offset below it.
 */
module BlockIndex {
  import LiteralLoads

  /** What a block is made of. `fetched` are its instructions and `literalValues` the words of the literals
      noted, of which the source keeps only the hashes; `text` gives every halfword of memory, by local
      address, that its code was made from, the folded literals among them. */
  datatype BlockData = BlockData(
    num: nat, startAddr: nat, startAddrLocal: nat, instrHash: nat, literalHash: nat,
    addressRanges: seq<nat>, addressMasks: seq<set<nat>>, literals: seq<nat>, entryPoint: nat,
    fetched: seq<LiteralLoads.Instr>, literalValues: seq<nat>, text: map<nat, nat>)

  /** An allocated block; its identity is its address. */
  class JitBlock {
    const data: BlockData

    constructor (data: BlockData)
      ensures this.data == data
    {
      this.data := data;
    }
  }

  function Base(local: nat): nat { local / 512 * 512 }

  function Granule(local: nat): nat { local % 512 / 16 }

  function Slot(local: nat): nat { local / 2 }

  /** The ARM9's video memory is region 7. */
  predicate InVideo(local: nat) { local / 0x800_0000 == 7 }

  /** `blockAddr | num` for an even address. */
  function Tag(addr: nat, num: nat): nat { addr + num }

  const INVALID_TAG := 0xFFFF_FFFF

  datatype AddressRange = AddressRange(blocks: seq<JitBlock>, code: set<nat>)

  datatype Entry = Entry(tag: nat, entryPoint: nat)

  function RangeAt(ranges: map<nat, AddressRange>, key: nat): AddressRange {
    if key in ranges then ranges[key] else AddressRange([], {})
  }

  /** Table slots that were never written are absent: empty ranges, invalid lookup entries. */
  datatype State = State(
    live9: map<nat, JitBlock>, live7: map<nat, JitBlock>, candidates: map<nat, JitBlock>,
    ranges: map<nat, AddressRange>, lookup: map<nat, Entry>, invalidLiterals: set<nat>,
    made: set<JitBlock>, freed: set<JitBlock>)
  {
    function Live(num: nat): map<nat, JitBlock> {
      if num == 0 then live9 else live7
    }

    function WithLive(num: nat, m: map<nat, JitBlock>): State {
      if num == 0 then this.(live9 := m) else this.(live7 := m)
    }

    function At(key: nat): AddressRange {
      RangeAt(ranges, key)
    }

    function EntryAt(slot: nat): Entry {
      if slot in lookup then lookup[slot] else Entry(INVALID_TAG, INVALID_TAG)
    }
  }

  // ---- TinyVector ----------------------------------------------------------------------------

  /** `Remove`: the last element takes the place of the removed one. */
  function RemoveAt<T>(s: seq<T>, i: nat): seq<T>
    requires i < |s|
  {
    s[i := s[|s| - 1]][..|s| - 1]
  }

  /** `Find`, with the length for "not found". */
  function IndexOf<T(==)>(s: seq<T>, x: T): (i: nat)
    ensures i <= |s| && (i < |s| ==> s[i] == x) && (i == |s| ==> x !in s)
  {
    if s == [] then 0 else if s[0] == x then 0 else 1 + IndexOf(s[1..], x)
  }

  function RemoveByValue<T(==)>(s: seq<T>, x: T): seq<T> {
    var i := IndexOf(s, x);
    if i == |s| then s else RemoveAt(s, i)
  }

  // ---- Transitions ---------------------------------------------------------------------------

  function Retire(s: State, block: JitBlock): State {
    var h := block.data.instrHash;
    s.(candidates := s.candidates[h := block],
       freed := if h in s.candidates then s.freed + {s.candidates[h]} else s.freed)
  }

  /** Take a block off the lists of its first `n` ranges, except the one `local` lies in. */
  function DropFromOthers(ranges: map<nat, AddressRange>, block: JitBlock, local: nat,
      n: nat): (r: map<nat, AddressRange>)
    requires n <= |block.data.addressRanges|
    ensures RangeAt(r, Base(local)) == RangeAt(ranges, Base(local))
  {
    if n == 0 then ranges else
      var r := DropFromOthers(ranges, block, local, n - 1);
      var key := Base(block.data.addressRanges[n - 1]);
      if key == Base(local) then r else
        var range := RangeAt(r, key);
        var blocks := RemoveByValue(range.blocks, block);
        r[key := AddressRange(blocks, if |blocks| == 0 then {} else range.code)]
  }

  /** The mask of a block in range `key`, empty if it has none. */
  function MaskFor(data: BlockData, key: nat): set<nat> {
    var j := IndexOf(data.addressRanges, key);
    if j < |data.addressRanges| && j < |data.addressMasks| then data.addressMasks[j] else {}
  }

  /** Drop the block at index `i` of the list of `local`'s range. */
  function DropBlock(s: State, local: nat, i: nat): (r: State)
    requires i < |s.At(Base(local)).blocks|
    ensures |r.At(Base(local)).blocks| == |s.At(Base(local)).blocks| - 1
  {
    var range := s.At(Base(local));
    var block := range.blocks[i];
    var data := block.data;
    var ranges := s.ranges[Base(local) := AddressRange(RemoveAt(range.blocks, i), range.code)];
    var s := s.(ranges := DropFromOthers(ranges, block, local, |data.addressRanges|),
                lookup := s.lookup[Slot(data.startAddrLocal) := Entry(INVALID_TAG, 0)]);
    var s := s.WithLive(data.num, s.Live(data.num) - {data.startAddr});
    if local in data.literals then
      s.(invalidLiterals := s.invalidLiterals + {local}, freed := s.freed + {block})
    else
      Retire(s, block)
  }

  /** The loop of `InvalidateByAddr`. Its inner `mask` hides the outer one, so a block is spared only
      if its mask in the range is empty. */
  function Sweep(s: State, local: nat, i: nat): State
    decreases |s.At(Base(local)).blocks| - i
  {
    var range := s.At(Base(local));
    if i >= |range.blocks| then s else
      var mask := MaskFor(range.blocks[i].data, Base(local));
      if mask * mask == {} then
        Sweep(s.(ranges := s.ranges[Base(local) := range.(code := range.code + mask)]), local, i + 1)
      else
        Sweep(DropBlock(s, local, i), local, i)
  }

  function InvalidateByAddr(s: State, local: nat): State {
    Sweep(s.(ranges := s.ranges[Base(local) := s.At(Base(local)).(code := {})]), local, 0)
  }

  function CheckAndInvalidate(s: State, local: nat): State {
    if Granule(local) in s.At(Base(local)).code then InvalidateByAddr(s, local) else s
  }

  /** Put a block on the lists of its first `n` ranges. */
  function AddToRanges(ranges: map<nat, AddressRange>, block: JitBlock, n: nat): map<nat, AddressRange>
    requires n <= |block.data.addressRanges| == |block.data.addressMasks|
  {
    if n == 0 then ranges else
      var r := AddToRanges(ranges, block, n - 1);
      var key := Base(block.data.addressRanges[n - 1]);
      var range := RangeAt(r, key);
      r[key := AddressRange(range.blocks + [block], range.code + block.data.addressMasks[n - 1])]
  }

  ghost predicate Touches(m: map<nat, JitBlock>, key: nat) {
    exists a, j | a in m && 0 <= j < |m[a].data.addressRanges| :: Base(m[a].data.addressRanges[j]) == key
  }

  /** `ResetBlockCache`. */
  ghost function Reset(s: State): State {
    s.(live9 := map[], live7 := map[], candidates := map[], lookup := map[], invalidLiterals := {},
       ranges := map k | k in s.ranges :: if Touches(s.live9, k) || Touches(s.live7, k) then AddressRange([], {})
           else s.ranges[k],
       freed := s.freed + s.candidates.Values + s.live9.Values + s.live7.Values)
  }

  /** The test on a candidate that lets CompileBlock reuse it. It does not look at `num`. */
  predicate MayRestore(candidate: BlockData, req: BlockData) {
    && candidate.startAddr == req.startAddr && candidate.literalHash == req.literalHash
    && candidate.addressRanges == req.addressRanges && candidate.addressMasks == req.addressMasks
  }

  predicate Restores(s: State, req: BlockData) {
    req.instrHash in s.candidates && MayRestore(s.candidates[req.instrHash].data, req)
  }

  /** List the block, enter it into the map of CPU `num` and into the lookup table. */
  function Register(s: State, req: BlockData, block: JitBlock): State
    requires |block.data.addressRanges| == |block.data.addressMasks|
  {
    var s := s.(ranges := AddToRanges(s.ranges, block, |block.data.addressRanges|));
    var s := s.WithLive(req.num, s.Live(req.num)[req.startAddr := block]);
    s.(lookup := s.lookup[Slot(req.startAddrLocal) := Entry(Tag(req.startAddr, req.num), block.data.entryPoint)])
  }

  /** There is a live block with that start and local address; it only fell out of the lookup table. */
  predicate InPlace(s: State, req: BlockData) {
    req.startAddr in s.Live(req.num) && s.Live(req.num)[req.startAddr].data.startAddrLocal == req.startAddrLocal
  }

  function Reentered(s: State, req: BlockData): State
    requires InPlace(s, req)
  {
    s.(lookup := s.lookup[Slot(req.startAddrLocal) :=
        Entry(Tag(req.startAddr, req.num), s.Live(req.num)[req.startAddr].data.entryPoint)])
  }

  /** A live block at another local address is retired (some memory has been remapped); the literals among
      the addresses stored to are noted. */
  function Cleared(s: State, req: BlockData, writes: seq<nat>): State {
    var live := s.Live(req.num);
    var s := if req.startAddr in live then Retire(s, live[req.startAddr]).WithLive(req.num, live - {req.startAddr})
        else s;
    s.(invalidLiterals := s.invalidLiterals + set w | w in writes && w in req.literals)
  }

  function Restored(s: State, req: BlockData): State
    requires Restores(s, req) && |req.addressRanges| == |req.addressMasks|
  {
    Register(s.(candidates := s.candidates - {req.instrHash}), req, s.candidates[req.instrHash])
  }

  /** Whatever candidate has the hash is given up. */
  function GivenUp(s: State, h: nat): State {
    if h in s.candidates then s.(candidates := s.candidates - {h}, freed := s.freed + {s.candidates[h]}) else s
  }

  ghost function Rebuilt(s: State, req: BlockData, block: JitBlock, full: bool): State
    requires block.data == req && |req.addressRanges| == |req.addressMasks|
  {
    Register(Allocate(GivenUp(s, req.instrHash), block, full), req, block)
  }

  /** `CompileBlock` for a block that would be made of `req`. `block` is the object allocated for it if
      no candidate is restored; `writes` are the local addresses its instructions stored to while they were
      interpreted; `full` says that the code buffer overflows and the cache is reset first. */
  ghost function Compile(s: State, req: BlockData, block: JitBlock, writes: seq<nat>, full: bool): State
    requires block.data == req && |req.addressRanges| == |req.addressMasks|
  {
    if InPlace(s, req) then Reentered(s, req) else
      var t := Cleared(s, req, writes);
      if Restores(t, req) then Restored(t, req) else Rebuilt(t, req, block, full)
  }

  ghost function Allocate(s: State, block: JitBlock, full: bool): State {
    (if full then Reset(s) else s).(made := s.made + {block})
  }

  datatype Hit = Miss | Hit(entryPoint: nat)

  /** `LookUpBlock` on the slot of `local`. */
  function LookUpBlock(s: State, num: nat, local: nat, addr: nat): Hit {
    var entry := s.EntryAt(Slot(local));
    if entry.tag == Tag(addr, num) then Hit(entry.entryPoint) else Miss
  }
}
