/** The block transfers LDM and STM of the ARM instruction set, on plain memory. */
module BlockTransfer {
  import opened MachineWords
  import opened RegisterBanks

  /** The fields of an instruction. `list[i]` says that register `i` is transferred. */
  datatype Instr = Instr(base: nat, list: seq<bool>, pre: bool, up: bool, s: bool, writeback: bool)
  {
    predicate Valid() { base < 16 && |list| == 16 }

    /** The other instruction of a pair: from DB to IA, IA to DB, IB to DA, DA to IB. */
    function Opposite(): Instr { this.(pre := !pre, up := !up) }
  }

  /** Words of memory by word number; a word that was never written is zero. */
  type Memory = map<nat, Word>

  function Key(addr: int): nat { addr / 4 % 0x4000_0000 }

  function Load(m: Memory, addr: int): Word { if Key(addr) in m then m[Key(addr)] else 0 }

  /** The number of registers listed below `n`. */
  function Count(list: seq<bool>, n: nat): nat
    requires n <= |list|
  {
    if n == 0 then 0 else Count(list, n - 1) + if list[n - 1] then 1 else 0
  }

  /** The address before the first increment. */
  function Start(i: Instr, base: int): int
    requires i.Valid()
  {
    if i.up then base else base - 4 * Count(i.list, 16)
  }

  /** Where the `k`-th register goes: incremented before if up and pre agree. */
  function Slot(i: Instr, base: int, k: nat): int
    requires i.Valid()
  {
    Start(i, base) + 4 * k + if i.pre == i.up then 4 else 0
  }

  function Written(i: Instr, base: int): Word
    requires i.Valid()
  {
    if i.up then Wrap(base + 4 * Count(i.list, 16)) else Wrap(base - 4 * Count(i.list, 16))
  }

  // ---- The transfers -------------------------------------------------------------------------

  /** The listed ones of `vals`, up to register `n`, stored. */
  function StoreAll(m: Memory, vals: seq<Word>, i: Instr, base: int, n: nat): Memory
    requires i.Valid() && |vals| == 16 && n <= 16
  {
    if n == 0 then m else
      var m := StoreAll(m, vals, i, base, n - 1);
      if i.list[n - 1] then m[Key(Slot(i, base, Count(i.list, n - 1))) := vals[n - 1]] else m
  }

  function LoadAll(m: Memory, r: seq<Word>, i: Instr, base: int, n: nat): (t: seq<Word>)
    requires i.Valid() && |r| == 16 && n <= 16
    ensures |t| == 16
  {
    if n == 0 then r else
      var r := LoadAll(m, r, i, base, n - 1);
      if i.list[n - 1] then r[n - 1 := Load(m, Slot(i, base, Count(i.list, n - 1)))] else r
  }

  lemma {:induction false} CountMono(list: seq<bool>, m: nat, n: nat)
    requires m <= n <= |list|
    ensures Count(list, m) <= Count(list, n) <= Count(list, m) + (n - m)
  {
    if m < n {
      CountMono(list, m, n - 1);
    }
  }

  /** Different registers have different words, wherever the base is. */
  lemma SlotsApart(i: Instr, base: int, j: nat, k: nat)
    requires i.Valid() && j < k <= 16 && k - j < 0x1000
    ensures Key(Slot(i, base, j)) != Key(Slot(i, base, k))
  {
    var a, d := Slot(i, base, j), k - j;
    assert Slot(i, base, k) == a + 4 * d;
    assert (a + 4 * d) / 4 == a / 4 + d;
    KeysApart(a / 4, d);
  }

  lemma KeysApart(x: int, d: nat)
    requires 0 < d < 0x1000
    ensures x % 0x4000_0000 != (x + d) % 0x4000_0000
  {
  }

  /** What is stored for a register is found in its slot. */
  lemma {:induction false} StoredAt(m: Memory, vals: seq<Word>, i: Instr, base: int, n: nat, k: nat)
    requires i.Valid() && |vals| == 16 && k < n <= 16 && i.list[k]
    ensures Load(StoreAll(m, vals, i, base, n), Slot(i, base, Count(i.list, k))) == vals[k]
  {
    hide Slot, Key;
    if k < n - 1 {
      StoredAt(m, vals, i, base, n - 1, k);
      if i.list[n - 1] {
        CountMono(i.list, k + 1, n - 1);
        CountMono(i.list, 0, n - 1);
        SlotsApart(i, base, Count(i.list, k), Count(i.list, n - 1));
      }
    }
  }

  lemma {:induction false} LoadedAt(m: Memory, r: seq<Word>, i: Instr, base: int, n: nat, k: nat)
    requires i.Valid() && |r| == 16 && k < 16 && n <= 16
    ensures LoadAll(m, r, i, base, n)[k] == if k < n && i.list[k] then Load(m, Slot(i, base, Count(i.list, k)))
        else r[k]
  {
    hide Slot, Load;
    if n > 0 {
      LoadedAt(m, r, i, base, n - 1, k);
    }
  }

  // ---- The instructions ----------------------------------------------------------------------

  datatype Machine = Machine(regs: Registers, cpsr: Word, mem: Memory)

  /** Mode number 0x10 with the rest of the status. */
  const USER := 0x10

  /** STM stores the old base for a base register in the list: always on the ARM9 (`num` 0), on the ARM7 only
      if it is the first. Otherwise the ARM7 stores the address itself. */
  function StoredValues(c: Machine, i: Instr, regs: Registers, num: nat): (v: seq<Word>)
    requires i.Valid() && c.regs.Valid() && regs.Valid()
    ensures |v| == 16
  {
    var base := c.regs.r[i.base];
    if i.s && Banked(Mode(c.cpsr), i.base) then regs.r
    else if num == 0 || Count(i.list, i.base) == 0 then regs.r[i.base := base]
    else regs.r[i.base := Wrap(Slot(i, base, Count(i.list, i.base)))]
  }

  predicate Banked(mode: nat, reg: nat) {
    if mode == FIQ then 8 <= reg < 15 else mode != 0x10 && mode != 0x1F && 13 <= reg < 15
  }

  function WriteBack(r: Registers, i: Instr, base: Word): (t: Registers)
    requires i.Valid() && r.Valid()
    ensures t.Valid()
  {
    if i.writeback then r.(r := r.r[i.base := Written(i, base)]) else r
  }

  /** `A_STM`: with S the user registers are switched in for the transfer. */
  function Stm(c: Machine, i: Instr, num: nat): (d: Machine)
    requires i.Valid() && c.regs.Valid()
    ensures d.regs.Valid()
  {
    var base, mode := c.regs.r[i.base], Mode(c.cpsr);
    var regs := if i.up then c.regs else WriteBack(c.regs, i, base);
    var during := if i.s then Switched(regs, mode, USER) else regs;
    var mem := StoreAll(c.mem, StoredValues(c, i, during, num), i, base, 16);
    var regs := if i.s then Switched(during, USER, mode) else during;
    Machine(if i.up then WriteBack(regs, i, base) else regs, c.cpsr, mem)
  }

  /** Whether LDM writes the base back: if it is in the list, only the ARM9 does, and only if it is alone in
      the list or not the last. */
  predicate BaseWrittenBack(i: Instr, num: nat)
    requires i.Valid()
  {
    i.writeback && (i.list[i.base] ==>
        num == 0 && (Count(i.list, 16) == 1
        || Count(i.list, i.base + 1) < Count(i.list, 16)))
  }

  /** `A_LDM`. */
  function Ldm(c: Machine, i: Instr, num: nat): (d: Machine)
    requires i.Valid() && c.regs.Valid()
    ensures d.regs.Valid()
  {
    var base, mode := c.regs.r[i.base], Mode(c.cpsr);
    var userBank := i.s && !i.list[15];
    var during := if userBank then Switched(c.regs, mode, USER) else c.regs;
    var loaded := LoadAll(c.mem, during.r, i, base, 15);
    var loaded := if BaseWrittenBack(i, num) then loaded[i.base := Written(i, base)] else loaded;
    var during := during.(r := loaded);
    var regs := if userBank then Switched(during, USER, mode) else during;
    if !i.list[15] then Machine(regs, c.cpsr, c.mem) else
      var pc := Load(c.mem, Slot(i, base, Count(i.list, 15)));
      var pc := if num == 1 then pc - pc % 2 else pc;
      var d := JumpTo(Cpu(regs, c.cpsr), pc, i.s);
      Machine(d.regs, d.cpsr, c.mem)
  }

  // ---- Round trips ---------------------------------------------------------------------------

  /** The opposite instruction, from the base the first one wrote back, visits the same slots and comes back. */
  lemma OppositeSlots(i: Instr, base: Word, k: nat)
    requires i.Valid()
    ensures Key(Slot(i.Opposite(), Written(i, base), k)) == Key(Slot(i, base, k))
    ensures Written(i.Opposite(), Written(i, base)) == base
  {
    var n := Count(i.list, 16);
    var w := Written(i, base);
    var moved := if i.up then base + 4 * n else base - 4 * n;
    assert w == Wrap(moved);
    KeyWraps(moved, Slot(i.Opposite(), w, k) - w);
    WrapAdd(moved, base - moved);
    WrapSmall(base);
  }

  lemma KeyWraps(a: int, d: int)
    ensures Key(Wrap(a) + d) == Key(a + d)
  {
    var q := a / 0x1_0000_0000;
    assert a + d == 4 * (0x4000_0000 * q) + (Wrap(a) + d);
    Quarter(0x4000_0000 * q, Wrap(a) + d);
    Period((Wrap(a) + d) / 4, q);
  }

  lemma Quarter(k: int, x: int)
    ensures (4 * k + x) / 4 == k + x / 4
  {
  }

  lemma Period(x: int, q: int)
    ensures (0x4000_0000 * q + x) % 0x4000_0000 == x % 0x4000_0000
  {
  }

  /** Each of the four pairs restores what it stored: for every list without the base and the program counter,
      whatever happened to the listed registers in between, and wherever the base points. */
  lemma PairRestores(c: Machine, d: Machine, i: Instr, num: nat)
    requires c.regs.Valid() && d.regs.Valid() && i.Valid() && !i.list[i.base] && !i.list[15] && i.base < 15
        && i.writeback && !i.s
    requires d.mem == Stm(c, i, num).mem && d.regs.r[i.base] == Stm(c, i, num).regs.r[i.base]
    ensures var e := Ldm(d, i.Opposite(), num);
            && e.regs.r[i.base] == c.regs.r[i.base]
            && (forall k | 0 <= k < 15 && i.list[k] :: e.regs.r[k] == c.regs.r[k])
            && (forall k | 0 <= k < 16 && !i.list[k] && k != i.base :: e.regs.r[k] == d.regs.r[k])
            && e.cpsr == d.cpsr && e.mem == d.mem
  {
    hide Slot, Key, StoreAll, LoadAll, Switched, Load;
    var base, o := c.regs.r[i.base], i.Opposite();
    OppositeSlots(i, base, 0);
    var regs := if i.up then c.regs else WriteBack(c.regs, i, base);
    var vals := StoredValues(c, i, regs, num);
    assert d.mem == StoreAll(c.mem, vals, i, base, 16);
    forall k | 0 <= k < 16
      ensures Ldm(d, o, num).regs.r[k] == if k == i.base then base else if k < 15 && i.list[k] then c.regs.r[k]
          else d.regs.r[k]
    {
      LoadedAt(d.mem, d.regs.r, o, Written(i, base), 15, k);
      if k < 15 && i.list[k] {
        StoredAt(c.mem, vals, i, base, 16, k);
        SameWord(d.mem, i, base, Count(i.list, k));
      }
    }
  }

  lemma SameWord(m: Memory, i: Instr, base: Word, k: nat)
    requires i.Valid()
    ensures Load(m, Slot(i.Opposite(), Written(i, base), k)) == Load(m, Slot(i, base, k))
  {
    OppositeSlots(i, base, k);
  }

  /** With the S bit and no writeback STM stores the user registers, in whatever mode, and changes no register.
      The one exception is the ARM7's: a listed base that is not the first register is stored as its own slot's
      address, unless the mode banks it. */
  lemma UserStore(c: Machine, i: Instr, num: nat, k: nat)
    requires c.regs.Valid() && i.Valid() && i.s && !i.writeback && k < 15 && i.list[k]
    ensures var slot := Slot(i, c.regs.r[i.base], Count(i.list, k));
            Load(Stm(c, i, num).mem, slot) ==
              if k == i.base && !Banked(Mode(c.cpsr), k) && num != 0 && Count(i.list, k) > 0 then Wrap(slot)
              else UserReg(c.regs, Mode(c.cpsr), k)
    ensures Stm(c, i, num).regs == c.regs
  {
    hide Slot, Key, StoreAll, Load, SwapBank;
    var mode := Mode(c.cpsr);
    var during := Switched(c.regs, mode, USER);
    UpdateModeKeepsFile(c.regs, mode, USER);
    PairedUpdateMode(c.regs, mode, USER);
    StoredAt(c.mem, StoredValues(c, i, during, num), i, c.regs.r[i.base], 16, k);
    assert UserReg(during, USER, k) == UserReg(c.regs, mode, k);
  }

  /** With the S bit, no writeback and no program counter LDM loads the user registers, in whatever mode, and
      changes no other register of the file. */
  lemma UserLoad(c: Machine, i: Instr, num: nat)
    requires c.regs.Valid() && i.Valid() && i.s && !i.writeback && !i.list[15]
    ensures var d, mode := Ldm(c, i, num), Mode(c.cpsr);
            && (forall k | 0 <= k < 15 :: UserReg(d.regs, mode, k) ==
                  if i.list[k] then Load(c.mem, Slot(i, c.regs.r[i.base], Count(i.list, k)))
                      else UserReg(c.regs, mode, k))
            && d.cpsr == c.cpsr && d.mem == c.mem && d.regs.r[15] == c.regs.r[15]
  {
    hide Slot, Key, LoadAll, Load, SwapBank;
    var mode, base := Mode(c.cpsr), c.regs.r[i.base];
    var during := Switched(c.regs, mode, USER);
    UpdateModeKeepsFile(c.regs, mode, USER);
    var loaded := during.(r := LoadAll(c.mem, during.r, i, base, 15));
    UpdateModeKeepsFile(loaded, USER, mode);
    LoadedAt(c.mem, during.r, i, base, 15, 15);
    forall k | 0 <= k < 15
      ensures UserReg(Ldm(c, i, num).regs, mode, k) == if i.list[k] then Load(c.mem, Slot(i, base, Count(i.list, k)))
          else UserReg(c.regs, mode, k)
    {
      LoadedAt(c.mem, during.r, i, base, 15, k);
      assert UserReg(during, USER, k) == UserReg(c.regs, mode, k);
      assert UserReg(loaded, USER, k) == loaded.r[k];
    }
  }

  // ---- As they are run -----------------------------------------------------------------------

  class Arm {
    const Num: nat
    var Regs: Registers
    var Cpsr: Word
    var Mem: Memory

    constructor (num: nat, regs: Registers, cpsr: Word, mem: Memory)
      requires regs.Valid()
      ensures Num == num && State() == Machine(regs, cpsr, mem)
    {
      Num, Regs, Cpsr, Mem := num, regs, cpsr, mem;
    }

    ghost function State(): Machine
      reads this
    {
      Machine(Regs, Cpsr, Mem)
    }

    method UpdateMode(oldmode: nat, newmode: nat)
      requires Regs.Valid()
      modifies `Regs
      ensures Regs.Valid() && Regs == Switched(old(Regs), oldmode, newmode)
    {
      if oldmode == newmode {
        return;
      }
      Swap(oldmode);
      Swap(newmode);
    }

    /** One bank, register by register for FIQ; the others have two. */
    method Swap(mode: nat)
      requires Regs.Valid()
      modifies `Regs
      ensures Regs.Valid() && Regs == SwapBank(old(Regs), mode)
    {
      hide Swapping;
      if mode == FIQ {
        SwapEnds(Regs);
        for i := 0 to 7
          invariant Regs == Swapping(old(Regs), i)
        {
          SwapStep(old(Regs), i);
          Regs := Regs.(r := Regs.r[8 + i := Regs.fiq[i]], fiq := Regs.fiq[i := Regs.r[8 + i]]);
        }
      } else if mode == IRQ {
        Regs := Regs.(r := WithHigh(Regs.r, Regs.irq), irq := Put(Regs.r, Regs.irq));
      } else if mode == SVC {
        Regs := Regs.(r := WithHigh(Regs.r, Regs.svc), svc := Put(Regs.r, Regs.svc));
      } else if mode == ABT {
        Regs := Regs.(r := WithHigh(Regs.r, Regs.abt), abt := Put(Regs.r, Regs.abt));
      } else if mode == UND {
        Regs := Regs.(r := WithHigh(Regs.r, Regs.und), und := Put(Regs.r, Regs.und));
      }
    }

    method SetReg(k: nat, val: Word)
      requires Regs.Valid() && k < 16
      modifies `Regs
      ensures Regs.Valid() && Regs == old(Regs).(r := old(Regs).r[k := val])
    {
      Regs := Regs.(r := Regs.r[k := val]);
    }

    method A_STM(i: Instr)
      requires Regs.Valid() && i.Valid()
      modifies `Regs, `Mem
      ensures Regs.Valid() && State() == Stm(old(State()), i, Num)
    {
      hide Switched, Key, StoreAll, Banked;
      var base: int := Regs.r[i.base];
      var oldbase, preinc := Regs.r[i.base], i.pre;
      if !i.up {
        base := base - 4 * Count(i.list, 16);
        if i.writeback {
          SetReg(i.base, Wrap(base));
        }
        preinc := !preinc;
      }
      var isbanked := false;
      if i.s {
        isbanked := Banked(Mode(Cpsr), i.base);
        UpdateMode(Mode(Cpsr), USER);
      }
      ghost var during, vals := Regs, StoredValues(old(State()), i, Regs, Num);
      StoreNothing(Mem, vals, i, oldbase);
      for k := 0 to 16
        invariant base == Start(i, oldbase) + 4 * Count(i.list, k)
        invariant Mem == StoreAll(old(Mem), vals, i, oldbase, k)
        invariant Regs == during
      {
        if i.list[k] {
          if preinc {
            base := base + 4;
          }
          var val := Regs.r[k];
          if k == i.base && !isbanked {
            val := if Num == 0 || Count(i.list, k) == 0 then oldbase else Wrap(base);
          }
          Mem := Mem[Key(base) := val];
          if !preinc {
            base := base + 4;
          }
        }
        StoreOne(old(Mem), vals, i, oldbase, k);
      }
      if i.s {
        UpdateMode(USER, Mode(Cpsr));
      }
      if i.up && i.writeback {
        SetReg(i.base, Wrap(base));
      }
    }

    /** The end of LDM's writeback. */
    method PostWriteBack(i: Instr, wbbase: Word)
      requires Regs.Valid() && i.Valid()
      modifies `Regs
      ensures Regs.Valid() && Regs == if BaseWrittenBack(i, Num) then old(Regs).(r := old(Regs).r[i.base := wbbase])
          else old(Regs)
    {
      if i.writeback {
        if i.list[i.base] {
          if Num == 0 && (Count(i.list, 16) == 1 || Count(i.list, i.base + 1) < Count(i.list, 16)) {
            SetReg(i.base, wbbase);
          }
        } else {
          SetReg(i.base, wbbase);
        }
      }
    }

    /** The registers of the list but r15. */
    method LoadListed(i: Instr, ghost oldbase: Word, first: int, preinc: bool) returns (base: int)
      requires Regs.Valid() && i.Valid() && first == Start(i, oldbase) && preinc == (i.pre == i.up)
      modifies `Regs
      ensures Regs.Valid() && Regs == old(Regs).(r := LoadAll(Mem, old(Regs).r, i, oldbase, 15))
      ensures base == first + 4 * Count(i.list, 15)
    {
      hide Key, Load, LoadAll;
      base := first;
      LoadNothing(Mem, Regs.r, i, oldbase);
      for k := 0 to 15
        invariant base == first + 4 * Count(i.list, k)
        invariant Regs.Valid() && Regs == old(Regs).(r := LoadAll(Mem, old(Regs).r, i, oldbase, k))
      {
        if i.list[k] {
          if preinc {
            base := base + 4;
          }
          SetReg(k, Load(Mem, base));
          if !preinc {
            base := base + 4;
          }
        }
        LoadOne(Mem, old(Regs).r, i, oldbase, k);
      }
    }

    method A_LDM(i: Instr)
      requires Regs.Valid() && i.Valid()
      modifies `Regs, `Cpsr
      ensures Regs.Valid() && State() == Ldm(old(State()), i, Num)
    {
      hide Switched, Key, Load, LoadAll, JumpTo;
      var oldbase := Regs.r[i.base];
      var base: int := oldbase;
      var wbbase: Word, preinc := 0, i.pre;
      if !i.up {
        base := base - 4 * Count(i.list, 16);
        if i.writeback {
          wbbase := Wrap(base);
        }
        preinc := !preinc;
      }
      if i.s && !i.list[15] {
        UpdateMode(Mode(Cpsr), USER);
      }
      base := LoadListed(i, oldbase, base, preinc);
      var pc: Word := 0;
      if i.list[15] {
        if preinc {
          base := base + 4;
        }
        pc := Load(Mem, base);
        if !preinc {
          base := base + 4;
        }
        if Num == 1 {
          pc := pc - pc % 2;
        }
      }
      assert Count(i.list, 16) == Count(i.list, 15) + if i.list[15] then 1 else 0;
      if i.writeback && i.up {
        wbbase := Wrap(base);
      }
      PostWriteBack(i, wbbase);
      if i.s && !i.list[15] {
        UpdateMode(USER, Mode(Cpsr));
      }
      if i.list[15] {
        var next := JumpTo(Cpu(Regs, Cpsr), pc, i.s);
        Regs, Cpsr := next.regs, next.cpsr;
      }
    }
  }

  /** The first `i` of the seven FIQ registers exchanged. */
  ghost function Swapping(s: Registers, i: nat): (t: Registers)
    requires s.Valid() && i <= 7
    ensures t.Valid()
  {
    s.(r := s.r[..8] + s.fiq[..i] + s.r[8 + i..], fiq := s.r[8..8 + i] + s.fiq[i..])
  }

  lemma SwapEnds(s: Registers)
    requires s.Valid()
    ensures Swapping(s, 0) == s && Swapping(s, 7) == SwapBank(s, FIQ)
  {
    assert Swapping(s, 0).r == s.r && Swapping(s, 0).fiq == s.fiq;
  }

  lemma SwapStep(s: Registers, i: nat)
    requires s.Valid() && i < 7
    ensures var t := Swapping(s, i);
        Swapping(s, i + 1)
        == t.(r := t.r[8 + i := t.fiq[i]], fiq := t.fiq[i := t.r[8 + i]])
  {
    var t, u := Swapping(s, i), Swapping(s, i + 1);
    assert u.r == t.r[8 + i := t.fiq[i]];
    assert u.fiq == t.fiq[i := t.r[8 + i]];
  }

  lemma StoreNothing(m: Memory, vals: seq<Word>, i: Instr, base: int)
    requires i.Valid() && |vals| == 16
    ensures StoreAll(m, vals, i, base, 0) == m
  {
  }

  lemma StoreOne(m: Memory, vals: seq<Word>, i: Instr, base: int, k: nat)
    requires i.Valid() && |vals| == 16 && k < 16
    ensures var before := StoreAll(m, vals, i, base, k);
            StoreAll(m, vals, i, base, k + 1) == if i.list[k]
                then before[Key(Slot(i, base, Count(i.list, k))) := vals[k]] else before
    ensures Count(i.list, k + 1) == Count(i.list, k) + if i.list[k] then 1 else 0
  {
  }

  lemma LoadNothing(m: Memory, r: seq<Word>, i: Instr, base: int)
    requires i.Valid() && |r| == 16
    ensures LoadAll(m, r, i, base, 0) == r
  {
  }

  lemma LoadOne(m: Memory, r: seq<Word>, i: Instr, base: int, k: nat)
    requires i.Valid() && |r| == 16 && k < 16
    ensures var before := LoadAll(m, r, i, base, k);
            LoadAll(m, r, i, base, k + 1) == if i.list[k] then before[k := Load(m, Slot(i, base, Count(i.list, k)))]
                else before
    ensures Count(i.list, k + 1) == Count(i.list, k) + if i.list[k] then 1 else 0
  {
  }
}
