/**
 The DSi's new WRAM: three banks cut into parts, each part put by its MBK register into a slot of one CPU's
 map; reads go to the lowest-numbered part of a slot, writes to all of them.
 */
module NewWram {
  import opened Arithmetic
  import opened MachineWords
  import opened WordBits

  type Byte = b: nat | b < 256

  datatype Bank = A | B | C
  {
    function Parts(): nat { if A? then 4 else 8 }

    function PartSize(): nat { if A? then 0x1_0000 else 0x8000 }

    /** Maps: one for each ARM, and for banks B and C one for the DSP. */
    function Maps(): nat { if A? then 2 else 3 }
  }

  /** An MBK byte with the bits that cannot be set left out. */
  datatype Setting = Setting(enabled: bool, slot: nat, owner: nat)

  function SettingOf(bank: Bank, val: Byte): Setting {
    Setting(val / 0x80 == 1, val / 4 % bank.Parts(), if bank.A? then val % 2 else val % 4)
  }

  /** The bits of an MBK byte: 7 enables; the slot is two bits from bit 2 on for bank A and three for the others;
      bits 0 and 1 say whose it is, ARM9, ARM7 or (with bit 1, which bank A does not have) the DSP. */
  lemma SettingBits(bank: Bank, val: Byte)
    ensures var s := SettingOf(bank, val);
            && (s.enabled <==> Bit(val, 7))
            && (forall k: nat :: Bit(s.slot, k) <==> k < (if bank.A? then 2 else 3) && Bit(val, k + 2))
            && (MapOf(s.owner) == 2 <==> !bank.A? && Bit(val, 1))
            && (MapOf(s.owner) == 1 <==> (bank.A? || !Bit(val, 1)) && Bit(val, 0))
            && (MapOf(s.owner) == 0 <==> (bank.A? || !Bit(val, 1)) && !Bit(val, 0))
  {
    hide Bit, Pow2;
    var s := SettingOf(bank, val);
    Powers();
    forall k: nat ensures Bit(s.slot, k) <==> k < (if bank.A? then 2 else 3) && Bit(val, k + 2) {
      FieldBits(val, 2, if bank.A? then 2 else 3, val / 4, s.slot, k);
    }
    SingleBits(val);
  }

  lemma SingleBits(val: Byte)
    ensures Bit(val, 7) <==> val / 0x80 == 1
    ensures Bit(val, 0) <==> val % 2 == 1
    ensures Bit(val, 1) <==> val % 4 >= 2
  {
    Powers();
  }

  datatype Part = Null | Part(number: nat)

  /** Owners 2 and 3 are both the DSP. */
  function MapOf(owner: nat): nat { if owner >= 2 then 2 else owner }

  predicate Assigned(s: Setting, cpu: nat, slot: nat) {
    s.enabled && MapOf(s.owner) == cpu && s.slot == slot
  }

  /** The lowest of the parts from `from` on that is assigned to a slot. */
  function Lowest(settings: seq<Setting>, cpu: nat, slot: nat, from: nat): (p: Part)
    requires from <= |settings|
    ensures p.Part? ==> from <= p.number < |settings| && Assigned(settings[p.number], cpu, slot)
    ensures p.Part? ==> forall k | from <= k < p.number :: !Assigned(settings[k], cpu, slot)
    ensures p.Null? ==> forall k | from <= k < |settings| :: !Assigned(settings[k], cpu, slot)
    decreases |settings| - from
  {
    if from == |settings| then Null
    else if Assigned(settings[from], cpu, slot) then Part(from)
    else Lowest(settings, cpu, slot, from + 1)
  }

  // ---- What a CPU sees -----------------------------------------------------------------------

  /** The slot of an address: the bits above the part, under the window's mask. */
  function SlotOf(kind: Bank, mask: nat, addr: nat): nat {
    addr / kind.PartSize() % (mask + 1)
  }

  /** The slot has the address's bits above the part, as many as the window shows slots. */
  lemma SlotBits(kind: Bank, val: nat, addr: nat, k: nat)
    ensures Bit(SlotOf(kind, WindowOf(kind, val).mask, addr), k) <==>
        k < SlotBitsOf(kind, val) && Bit(addr, k + if kind.A? then 16 else 15)
  {
    hide Bit, Pow2;
    Powers();
    var n, mask := SlotBitsOf(kind, val), WindowOf(kind, val).mask;
    SizeField(val);
    assert Pow2(n) == mask + 1 by { PowZero(); }
    FieldBits(addr, if kind.A? then 16 else 15, n, addr / kind.PartSize(), SlotOf(kind, mask, addr), k);
  }

  lemma SizeField(val: nat)
    ensures val / 0x1000 % 4 == (if Bit(val, 12) then 1 else 0) + if Bit(val, 13) then 2 else 0
  {
    hide Bit, Pow2;
    var high := val / 0x1000;
    Powers();
    ShiftedBits(val, 12, 0, high);
    ShiftedBits(val, 12, 1, high);
    BitUp(high, 0);
    BitUp(high / 2, 0);
    LowTwo(high);
  }

  lemma LowTwo(n: nat)
    ensures n % 4 == n % 2 + 2 * (n / 2 % 2)
  {
    HalfDiv(n, 2);
  }

  lemma PowZero()
    ensures Pow2(0) == 1
  {
  }

  /** How many bits of an address choose the slot: bits 12 and 13 of the range register, less one for bank A. */
  ghost function SlotBitsOf(kind: Bank, val: nat): nat {
    var size := (if Bit(val, 12) then 1 else 0) + if Bit(val, 13) then 2 else 0;
    if kind.A? && size > 0 then size - 1 else size
  }

  /** The bytes at an address: of the lowest part in its slot, or zeros. */
  function Seen(kind: Bank, settings: seq<Setting>, memory: seq<Byte>, cpu: nat, mask: nat, addr: nat,
      width: nat): (v: seq<Byte>)
    requires |settings| == kind.Parts() && |memory| == 0x4_0000 && width in {1, 2, 4} && addr % width == 0
    ensures |v| == width
  {
    match Lowest(settings, cpu, SlotOf(kind, mask, addr), 0)
    case Null => seq(width, _ => 0)
    case Part(p) =>
      PartFits(p, addr, width, kind);
      memory[p * kind.PartSize() + addr % kind.PartSize()..p * kind.PartSize() + addr % kind.PartSize() + width]
  }

  /** The part an index of a bank's memory lies in, and where in it. */
  function PartOf(kind: Bank, i: nat): (p: nat)
    ensures i < 0x4_0000 ==> p < kind.Parts()
  {
    i / kind.PartSize()
  }

  function OffsetOf(kind: Bank, i: nat): nat { i % kind.PartSize() }

  /** The memory after a write: changed in every part of the slot, at the same offset. */
  function Broadcast(kind: Bank, settings: seq<Setting>, memory: seq<Byte>, cpu: nat, mask: nat, addr: nat,
      val: seq<Byte>): (m: seq<Byte>)
    requires |settings| == kind.Parts() && |memory| == 0x4_0000
    ensures |m| == |memory|
  {
    var offset := OffsetOf(kind, addr);
    seq(|memory|, i requires 0 <= i < |memory| =>
      if Assigned(settings[PartOf(kind, i)], cpu, SlotOf(kind, mask, addr))
          && offset <= OffsetOf(kind, i) < offset + |val|
      then val[OffsetOf(kind, i) - offset] else memory[i])
  }

  lemma PartFits(p: nat, addr: nat, width: nat, kind: Bank)
    requires p < kind.Parts() && width in {1, 2, 4} && addr % width == 0
    ensures addr % kind.PartSize() + width <= kind.PartSize() && (p + 1) * kind.PartSize() <= 0x4_0000
  {
  }

  lemma OffsetFits(addr: nat, width: nat, kind: Bank)
    requires width in {1, 2, 4} && addr % width == 0
    ensures OffsetOf(kind, addr) + width <= kind.PartSize()
  {
    PartFits(0, addr, width, kind);
  }

  lemma PartOfIndex(page: nat, offset: nat, n: nat, i: nat, kind: Bank)
    requires offset + n <= kind.PartSize()
    ensures var at := page * kind.PartSize() + offset;
            && (at <= i < at + n <==> i / kind.PartSize() == page && offset <= i % kind.PartSize() < offset + n)
            && (at <= i < at + n ==> i % kind.PartSize() - offset == i - at)
  {
  }

  lemma InPart(p: nat, o: nat, kind: Bank)
    requires o < kind.PartSize()
    ensures (p * kind.PartSize() + o) / kind.PartSize() == p && (p * kind.PartSize() + o) % kind.PartSize() == o
  {
  }

  lemma BroadcastAt(kind: Bank, settings: seq<Setting>, memory: seq<Byte>, cpu: nat, mask: nat, addr: nat,
      val: seq<Byte>, p: nat, o: nat)
    requires |settings| == kind.Parts() && |memory| == 0x4_0000 && p < kind.Parts() && o < kind.PartSize()
    ensures p * kind.PartSize() + o < 0x4_0000
    ensures var offset, i := addr % kind.PartSize(), p * kind.PartSize() + o;
            Broadcast(kind, settings, memory, cpu, mask, addr, val)[i] ==
              if Assigned(settings[p], cpu, SlotOf(kind, mask, addr)) && offset <= o < offset + |val|
                  then val[o - offset] else memory[i]
  {
    InPart(p, o, kind);
  }

  /** What was written is read: the value if the slot has a part, and zero if not. */
  lemma ReadBack(kind: Bank, settings: seq<Setting>, memory: seq<Byte>, cpu: nat, mask: nat, addr: nat, val: seq<Byte>)
    requires |settings| == kind.Parts() && |memory| == 0x4_0000 && |val| in {1, 2, 4} && addr % |val| == 0
    ensures Seen(kind, settings, Broadcast(kind, settings, memory, cpu, mask, addr, val), cpu, mask, addr, |val|)
            == if Lowest(settings, cpu, SlotOf(kind, mask, addr), 0).Part? then val else seq(|val|, _ => 0)
  {
    hide Broadcast, SlotOf;
    match Lowest(settings, cpu, SlotOf(kind, mask, addr), 0)
    case Null =>
    case Part(p) =>
      PartFits(p, addr, |val|, kind);
      var m, o := Broadcast(kind, settings, memory, cpu, mask, addr, val), addr % kind.PartSize();
      var seen := Seen(kind, settings, m, cpu, mask, addr, |val|);
      forall k | 0 <= k < |val|
        ensures seen[k] == val[k]
      {
        BroadcastAt(kind, settings, memory, cpu, mask, addr, val, p, o + k);
        assert p * kind.PartSize() + (o + k) == p * kind.PartSize() + o + k;
      }
  }

  /** And nothing else changes: any other slot, of this CPU or another, reads as before. */
  lemma OtherSlotsKept(kind: Bank, settings: seq<Setting>, memory: seq<Byte>, cpu: nat, mask: nat, addr: nat,
      val: seq<Byte>,
      cpu': nat, mask': nat, addr': nat, width: nat)
    requires |settings| == kind.Parts() && |memory| == 0x4_0000 && width in {1, 2, 4} && addr' % width == 0
    requires cpu' != cpu || SlotOf(kind, mask', addr') != SlotOf(kind, mask, addr)
    ensures Seen(kind, settings, Broadcast(kind, settings, memory, cpu, mask, addr, val), cpu', mask', addr', width)
            == Seen(kind, settings, memory, cpu', mask', addr', width)
  {
    hide Broadcast, SlotOf;
    match Lowest(settings, cpu', SlotOf(kind, mask', addr'), 0)
    case Null =>
    case Part(p) =>
      PartFits(p, addr', width, kind);
      var m, o := Broadcast(kind, settings, memory, cpu, mask, addr, val), addr' % kind.PartSize();
      var now, was := Seen(kind, settings, m, cpu', mask', addr', width),
          Seen(kind, settings, memory, cpu', mask', addr', width);
      forall k | 0 <= k < width
        ensures now[k] == was[k]
      {
        BroadcastAt(kind, settings, memory, cpu, mask, addr, val, p, o + k);
        assert p * kind.PartSize() + (o + k) == p * kind.PartSize() + o + k;
      }
  }

  // ---- The banks -----------------------------------------------------------------------------

  class NwramBank {
    const Kind: Bank
    const MBK: array<Setting>
    const Map: array2<Part>
    const Memory: array<Byte>
    var Protected: nat -> bool    // the write-protect bits of MBK9

    /** The map is an index of the registers: each slot holds the lowest-numbered part assigned to it. */
    ghost predicate Valid()
      reads MBK, Map, Memory
    {
      && MBK.Length == Kind.Parts() && Map.Length0 == Kind.Maps() && Map.Length1 == Kind.Parts()
      && Memory.Length == 0x4_0000
      && (forall p | 0 <= p < Kind.Parts() :: MBK[p].slot < Kind.Parts() && MapOf(MBK[p].owner) < Kind.Maps())
      && forall cpu, slot | 0 <= cpu < Kind.Maps() && 0 <= slot < Kind.Parts() ::
          Map[cpu, slot] == Lowest(MBK[..], cpu, slot, 0)
    }

    constructor (kind: Bank)
      ensures Valid() && Kind == kind && fresh(MBK) && fresh(Map) && fresh(Memory)
    {
      Kind := kind;
      MBK := new Setting[kind.Parts()](_ => Setting(false, 0, 0));
      Map := new Part[kind.Maps(), kind.Parts()]((_, _) => Null);
      Memory := new Byte[0x4_0000](_ => 0);
      Protected := _ => false;
    }

    /** `MapNWRAM_A`, `MapNWRAM_B` or `MapNWRAM_C`: the map is rebuilt from all registers, in a fixed order. */
    method MapNWRAM(num: nat, val: Byte)
      requires Valid() && num < Kind.Parts()
      modifies MBK, Map
      ensures Valid()
      ensures MBK[..] == if Protected(num) then old(MBK[..]) else old(MBK[..])[num := SettingOf(Kind, val)]
    {
      var setting := SettingOf(Kind, val);
      if Protected(num) || MBK[num] == setting {
        return;
      }
      MBK[num] := setting;
      forall cpu, slot | 0 <= cpu < Kind.Maps() && 0 <= slot < Kind.Parts() {
        Map[cpu, slot] := Null;
      }
      var part := Kind.Parts();
      while part > 0
        invariant 0 <= part <= Kind.Parts()
        invariant MBK[..] == old(MBK[..])[num := setting]
        invariant forall cpu, slot | 0 <= cpu < Kind.Maps() && 0 <= slot < Kind.Parts() ::
            Map[cpu, slot] == Lowest(MBK[..], cpu, slot, part)
      {
        part := part - 1;
        var m := MBK[part];
        assert m == MBK[..][part];
        if m.enabled {
          var owner := if m.owner >= 2 then 2 else m.owner;
          Map[owner, m.slot] := Part(part);
        }
      }
    }

    /** The 0x03000000 path of the reads, once the bank's window is found. */
    method Read(cpu: nat, mask: nat, addr: nat, width: nat) returns (val: seq<Byte>)
      requires Valid() && cpu < 2 && mask < Kind.Parts() && width in {1, 2, 4} && addr % width == 0
      ensures val == Seen(Kind, MBK[..], Memory[..], cpu, mask, addr, width)
    {
      match Map[cpu, SlotOf(Kind, mask, addr)]
      case Null => val := seq(width, _ => 0);
      case Part(p) =>
        PartFits(p, addr, width, Kind);
        val := Memory[p * Kind.PartSize() + addr % Kind.PartSize()..p * Kind.PartSize() + addr % Kind.PartSize()
            + width];
    }

    /** The 0x03000000 path of the writes: every part whose register names the slot. */
    method Write(cpu: nat, mask: nat, addr: nat, val: seq<Byte>)
      requires Valid() && cpu < 2 && mask < Kind.Parts() && |val| in {1, 2, 4} && addr % |val| == 0
      modifies Memory
      ensures Valid() && Memory[..] == Broadcast(Kind, MBK[..], old(Memory[..]), cpu, mask, addr, val)
    {
      hide SlotOf, Lowest, PartOf, OffsetOf, Bank.PartSize;
      var dest := Setting(true, SlotOf(Kind, mask, addr), cpu);
      var offset := OffsetOf(Kind, addr);
      for page := 0 to Kind.Parts()
        invariant Valid()
        invariant forall i | 0 <= i < 0x4_0000 ::
                    Memory[i] == if PartOf(Kind, i) < page && Assigned(MBK[PartOf(Kind, i)], cpu, dest.slot)
                        && offset <= OffsetOf(Kind, i) < offset + |val|
                                 then val[OffsetOf(Kind, i) - offset] else old(Memory[i])
      {
        if MBK[page] == dest {
          OffsetFits(addr, |val|, Kind);
          WritePart(page, offset, val);
        }
      }
    }

    method WriteAt(at: nat, val: seq<Byte>)
      requires at + |val| <= Memory.Length
      modifies Memory
      ensures forall i | 0 <= i < Memory.Length :: Memory[i] == if at <= i < at + |val| then val[i - at]
          else old(Memory[i])
    {
      forall k | 0 <= k < |val| {
        Memory[at + k] := val[k];
      }
    }

    method WritePart(page: nat, offset: nat, val: seq<Byte>)
      requires Valid() && page < Kind.Parts() && offset + |val| <= Kind.PartSize()
      modifies Memory
      ensures Valid()
      ensures forall i | 0 <= i < 0x4_0000 ::
                Memory[i] == if PartOf(Kind, i) == page && offset <= OffsetOf(Kind, i) < offset + |val|
                             then val[OffsetOf(Kind, i) - offset] else old(Memory[i])
    {
      PartFits(page, 0, 1, Kind);
      var at := page * Kind.PartSize() + offset;
      WriteAt(at, val);
      forall i | 0 <= i < 0x4_0000
        ensures at <= i < at + |val| <==> PartOf(Kind, i) == page && offset <= OffsetOf(Kind, i) < offset + |val|
        ensures at <= i < at + |val| ==> OffsetOf(Kind, i) - offset == i - at
      {
        PartOfIndex(page, offset, |val|, i, Kind);
      }
    }
  }

  /** The map does not depend on the order in which the registers were written. */
  lemma OrderDoesNotMatter(x: NwramBank, y: NwramBank)
    requires x.Valid() && y.Valid() && x.Kind == y.Kind && x.MBK[..] == y.MBK[..]
    ensures forall cpu, slot | 0 <= cpu < x.Kind.Maps() && 0 <= slot < x.Kind.Parts() ::
        x.Map[cpu, slot] == y.Map[cpu, slot]
  {
  }

  // ---- The windows ---------------------------------------------------------------------------

  datatype Window = Window(start: nat, end: nat, mask: nat)

  /** `MapNWRAMRange`: the window a range register sets. */
  function WindowOf(kind: Bank, val: nat): (w: Window) {
    var size := val / 0x1000 % 4;
    if kind.A? then
      Window(0x300_0000 + val / 0x10 % 0x100 * 0x1_0000, 0x300_0000 + val / 0x10_0000 % 0x200 * 0x1_0000,
             if size <= 1 then 0 else if size == 2 then 1 else 3)
    else
      Window(0x300_0000 + val / 8 % 0x200 * 0x8000, 0x300_0000 + val / 0x8_0000 % 0x400 * 0x8000,
             if size == 0 then 0 else if size == 1 then 1 else if size == 2 then 3 else 7)
  }

  /** Where a window begins and ends, in parts from 0x03000000 on, by the bits of the range register. */
  lemma WindowBits(kind: Bank, val: nat, start: nat, end: nat, k: nat)
    requires WindowOf(kind, val).start == 0x300_0000 + start * kind.PartSize()
    requires WindowOf(kind, val).end == 0x300_0000 + end * kind.PartSize()
    ensures kind.A? ==> (Bit(start, k) <==> k < 8 && Bit(val, k + 4)) && (Bit(end, k) <==> k < 9 && Bit(val, k + 20))
    ensures !kind.A? ==> (Bit(start, k) <==> k < 9 && Bit(val, k + 3)) && (Bit(end, k) <==> k < 10 && Bit(val, k + 19))
  {
    hide Bit, Pow2;
    Powers();
    if kind.A? {
      FieldBits(val, 4, 8, val / 0x10, start, k);
      FieldBits(val, 20, 9, val / 0x10_0000, end, k);
    } else {
      FieldBits(val, 3, 9, val / 8, start, k);
      FieldBits(val, 19, 10, val / 0x8_0000, end, k);
    }
  }

  lemma Aligned(n: nat)
    ensures (0x300_0000 + n * 0x1_0000) % 0x1_0000 == 0 && (0x300_0000 + n * 0x8000) % 0x8000 == 0
  {
  }

  /** A window begins and ends with a part, and its mask names no slot the bank does not have. */
  lemma WindowAligned(kind: Bank, val: nat)
    ensures var w := WindowOf(kind, val);
            w.start % kind.PartSize() == 0 && w.end % kind.PartSize() == 0 && w.mask < kind.Parts()
  {
    Aligned(val / 0x10 % 0x100);
    Aligned(val / 0x10_0000 % 0x200);
    Aligned(val / 8 % 0x200);
    Aligned(val / 0x8_0000 % 0x400);
  }

  /** The windows of one CPU, bank A before B before C. */
  datatype Windows = Windows(a: Window, b: Window, c: Window)
  {
    function BankAt(addr: nat): Found {
      if a.start <= addr < a.end then Some(A, a.mask)
      else if b.start <= addr < b.end then Some(B, b.mask)
      else if c.start <= addr < c.end then Some(C, c.mask)
      else None
    }
  }

  datatype Found = None | Some(kind: Bank, mask: nat)

  lemma TogetherInWindow(kind: Bank, start: nat, end: nat, addr: nat, width: nat, k: nat)
    requires start % kind.PartSize() == 0 && end % kind.PartSize() == 0 && width in {1, 2, 4} && addr % width == 0
        && k < width
    ensures start <= addr < end <==> start <= addr + k < end
    ensures (addr + k) / kind.PartSize() == addr / kind.PartSize()
  {
    PartFits(0, addr, width, kind);
    if kind.A? {
      SamePart(addr, k, 0x1_0000, start, end);
    } else {
      SamePart(addr, k, 0x8000, start, end);
    }
  }

  lemma SamePart(addr: nat, k: nat, size: nat, start: nat, end: nat)
    requires size > 0 && addr % size + k < size && start % size == 0 && end % size == 0
    ensures (addr + k) / size == addr / size
    ensures start <= addr < end <==> start <= addr + k < end
  {
    var q := addr / size;
    assert addr == size * q + addr % size;
    Quotient(addr + k, size, q);
    Boundary(addr, k, size, start);
    Boundary(addr, k, size, end);
  }

  lemma Boundary(addr: nat, k: nat, size: nat, edge: nat)
    requires size > 0 && addr % size + k < size && edge % size == 0
    ensures edge <= addr <==> edge <= addr + k
  {
    var q, e := addr / size, edge / size;
    assert addr == size * q + addr % size && edge == size * e;
    if e <= q {
      MulMono(size, e, q);
    } else {
      MulMono(size, q + 1, e);
    }
  }

  /** Every byte of an access lies in the same part of the same window. */
  lemma AccessInOneWindow(vals: (nat, nat, nat), addr: nat, width: nat, k: nat)
    requires width in {1, 2, 4} && addr % width == 0 && k < width
    ensures var w := Windows(WindowOf(A, vals.0), WindowOf(B, vals.1), WindowOf(C, vals.2));
            && w.BankAt(addr + k) == w.BankAt(addr)
            && (w.BankAt(addr).Some? ==>
                  SlotOf(w.BankAt(addr).kind, w.BankAt(addr).mask, addr + k)
                      == SlotOf(w.BankAt(addr).kind, w.BankAt(addr).mask, addr))
  {
    hide WindowOf;
    var a, b, c := WindowOf(A, vals.0), WindowOf(B, vals.1), WindowOf(C, vals.2);
    WindowAligned(A, vals.0);
    WindowAligned(B, vals.1);
    WindowAligned(C, vals.2);
    TogetherInWindow(A, a.start, a.end, addr, width, k);
    TogetherInWindow(B, b.start, b.end, addr, width, k);
    TogetherInWindow(C, c.start, c.end, addr, width, k);
  }
}
