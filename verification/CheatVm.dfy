/**
 The Action Replay engine: an interpreter of 64-bit cheat instructions, with conditions, one loop, and
 block copies whose parameters follow the instruction. The bus may answer reads in any way.
 */
module CheatVm {
  import opened MachineWords

  /** Bitwise and; or and exclusive or follow from it. */
  function And(x: nat, y: nat): (r: nat)
    ensures r <= x && r <= y
  {
    if x == 0 || y == 0 then 0 else (if x % 2 == 1 && y % 2 == 1 then 1 else 0) + 2 * And(x / 2, y / 2)
  }

  datatype Access = Read(addr: Word, width: nat, value: Word) | Write(addr: Word, width: nat, value: Word)

  /** What the bus answers: it may depend on everything that went before. */
  type Bus = (seq<Access>, Word, nat) -> Word

  /** The interpreter's variables. */
  datatype Vm = Vm(
    pc: nat, offset: Word, datareg: Word, cond: bool, condstack: Word,
    loopstart: nat, loopcount: nat, loopcond: bool, loopcondstack: Word, c5count: Word, log: seq<Access>)
  {
    function Out(addr: Word, width: nat, value: Word): Vm {
      this.(log := log + [Write(addr, width, value)])
    }

    function In(bus: Bus, addr: Word, width: nat): (Vm, Word) {
      var v := bus(log, addr, width);
      (this.(log := log + [Read(addr, width, v)]), v)
    }

    /** Push the condition and set a new one. */
    function Test(c: bool): Vm {
      this.(condstack := Wrap(condstack * 2 + if cond then 1 else 0), cond := c)
    }
  }

  datatype Outcome = Running(vm: Vm) | Halted(vm: Vm)

  function Op(a: Word): nat { a / 0x100_0000 }

  function AddressField(a: Word): Word { a % 0x1000_0000 }

  // ---- Instruction boundaries ----------------------------------------------------------------

  /** The words of parameters behind an E instruction: eight bytes to a pair. */
  function Payload(a: Word, b: Word): nat {
    if Op(a) / 16 == 0xE then (b + 7) / 8 * 2 else 0
  }

  /** Where the instruction after the one at `pc` begins. It does not depend on any condition. */
  function Next(code: seq<Word>, pc: nat): nat
    requires pc + 2 <= |code|
  {
    pc + 2 + Payload(code[pc], code[pc + 1])
  }

  /** From `pc` on the code divides into instructions with their parameters, up to its very end. */
  predicate WellFormed(code: seq<Word>, pc: nat)
    decreases |code| - pc
  {
    pc == |code| || (pc + 2 <= |code| && WellFormed(code, Next(code, pc)))
  }

  // ---- Copies --------------------------------------------------------------------------------

  /** E: the parameters of an instruction, to memory. */
  function CopyParams(log: seq<Access>, code: seq<Word>, pc: nat, dst: nat, b: nat): seq<Access>
    requires pc + (b + 7) / 8 * 2 <= |code|
    decreases b
  {
    if b >= 8 then
      CopyParams(log + PairWritten(code, pc, dst), code, pc + 2, dst + 8, b - 8)
    else if b >= 4 then
      log + [Write(Wrap(dst), 4, code[pc])] + CopyBytes(code[pc + 1], dst + 4, b - 4)
    else if b > 0 then
      log + CopyBytes(code[pc], dst, b)
    else log
  }

  function PairWritten(code: seq<Word>, pc: nat, dst: nat): seq<Access>
    requires pc + 2 <= |code|
  {
    [Write(Wrap(dst), 4, code[pc]), Write(Wrap(dst + 4), 4, code[pc + 1])]
  }

  /** The low `n` bytes of a word, one by one. */
  function CopyBytes(w: Word, dst: nat, n: nat): seq<Access>
    requires n <= 4
    decreases n
  {
    if n == 0 then [] else [Write(Wrap(dst), 1, w % 0x100)] + CopyBytes(w / 0x100, dst + 1, n - 1)
  }

  /** F: memory to memory. */
  function CopyMemory(vm: Vm, bus: Bus, src: nat, dst: nat, b: nat): (r: Vm)
    ensures r == vm.(log := r.log)
    decreases b
  {
    if b >= 4 then
      var (vm, v) := vm.In(bus, Wrap(src), 4);
      CopyMemory(vm.Out(Wrap(dst), 4, v), bus, src + 4, dst + 4, b - 4)
    else if b > 0 then
      var (vm, v) := vm.In(bus, Wrap(src), 1);
      CopyMemory(vm.Out(Wrap(dst), 1, v), bus, src + 1, dst + 1, b - 1)
    else vm
  }

  // ---- One instruction -----------------------------------------------------------------------

  // Shifts and rotations, a bit at a time.
  function Shl(d: Word, n: nat): Word
    decreases n
  {
    if n == 0 then d else Shl(Wrap(d * 2), n - 1)
  }

  function Shr(d: Word, n: nat): Word
    decreases n
  {
    if n == 0 then d else Shr(d / 2, n - 1)
  }

  function Asr(d: Word, n: nat): Word
    decreases n
  {
    if n == 0 then d else Asr(d / 2 + if d >= 0x8000_0000 then 0x8000_0000 else 0, n - 1)
  }

  function Ror(d: Word, n: nat): Word
    decreases n
  {
    if n == 0 then d else Ror(RorOne(d), n - 1)
  }

  function RorOne(d: Word): Word { d / 2 + if d % 2 == 1 then 0x8000_0000 else 0 }

  /** D4: operations on the data register. */
  function DataOp(sub: nat, d: Word, b: Word): Word {
    var n := b % 0x100;
    match sub
    case 0 => Wrap(d + b)
    case 1 => Wrap(d + b - And(d, b))
    case 2 => And(d, b)
    case 3 => Wrap(d - And(d, b) + (b - And(d, b)))
    case 4 => if n > 31 then 0 else Shl(d, n)
    case 5 => if n > 31 then 0 else Shr(d, n)
    case 6 => Ror(d, b % 0x20)
    case 7 => Asr(d, if n > 31 then 31 else n)
    case 8 => Wrap(d * b)
    case _ => d
  }

  /** 3 to A: compare memory with `b`, a word, or a halfword under a mask. */
  function Holds(op: nat, b: Word, v: Word): bool {
    var half := v % 0x1_0000;
    var masked := half - And(b / 0x1_0000, half);
    match op / 16
    case 0x3 => b > v
    case 0x4 => b < v
    case 0x5 => b == v
    case 0x6 => b != v
    case 0x7 => b % 0x1_0000 > masked
    case 0x8 => b % 0x1_0000 < masked
    case 0x9 => b % 0x1_0000 == masked
    case _ => b % 0x1_0000 != masked
  }

  /** These are executed even while the condition fails. */
  predicate Unconditional(op: nat) { 0xD0 <= op <= 0xD2 || op == 0xC5 }

  /** One turn of the loop of `RunCheat`. */
  function Step(code: seq<Word>, bus: Bus, s: Vm): Outcome
    requires s.pc + 2 <= |code| && Next(code, s.pc) <= |code|
  {
    var a, b := code[s.pc], code[s.pc + 1];
    var op := Op(a);
    var vm := s.(pc := s.pc + 2);
    if !Unconditional(op) && !s.cond then Running(s.(pc := Next(code, s.pc)))
    else match op / 16
      case 0xC => StepC(op, b, vm)
      case 0xD => StepD(bus, op, a, b, vm)
      case 0xE => Running(vm.(pc := Next(code, s.pc), log :=
          CopyParams(vm.log, code, vm.pc, AddressField(a) + vm.offset, b)))
      case 0xF => Running(CopyMemory(vm, bus, vm.offset, AddressField(a), b))
      case _ => Running(StepMemory(bus, op, a, b, vm))
  }

  /** Writes, comparisons, and loading the offset. */
  function StepMemory(bus: Bus, op: nat, a: Word, b: Word, vm: Vm): (r: Vm)
    ensures r == vm.(log := r.log, offset := r.offset, cond := r.cond, condstack := r.condstack)
  {
    match op / 16
    case 0x0 => vm.Out(Wrap(AddressField(a) + vm.offset), 4, b)
    case 0x1 => vm.Out(Wrap(AddressField(a) + vm.offset), 2, b % 0x1_0000)
    case 0x2 => vm.Out(Wrap(AddressField(a) + vm.offset), 1, b % 0x100)
    case 0xB => var (vm, v) := vm.In(bus, Wrap(AddressField(a) + vm.offset), 4); vm.(offset := v)
    case _ =>
      var (vm, v) := vm.In(bus, if AddressField(a) == 0 then vm.offset else AddressField(a), if op / 16 <= 6 then 4
          else 2);
      vm.Test(Holds(op, b, v))
  }

  function StepC(op: nat, b: Word, vm: Vm): Outcome {
    match op
    case 0xC0 => Running(vm.(loopstart := vm.pc, loopcount := b, loopcond := vm.cond, loopcondstack := vm.condstack))
    case 0xC5 =>
      var vm := vm.(c5count := Wrap(vm.c5count + 1));
      Running(if !vm.cond then vm else vm.Test(And(vm.c5count, b % 0x1_0000) == b / 0x1_0000))
    case 0xC6 => Running(vm.Out(b, 4, vm.offset))
    case _ => Halted(vm)
  }

  function StepD(bus: Bus, op: nat, a: Word, b: Word, vm: Vm): Outcome {
    match op
    case 0xD0 => Running(vm.(cond := vm.condstack % 2 == 1, condstack := vm.condstack / 2))
    case 0xD1 =>
      Running(if vm.loopcount > 0 then vm.(loopcount := vm.loopcount - 1, pc := vm.loopstart)
              else vm.(cond := vm.loopcond, condstack := vm.loopcondstack))
    case 0xD2 =>
      Running(if vm.loopcount > 0 then vm.(loopcount := vm.loopcount - 1, pc := vm.loopstart)
              else vm.(offset := 0, datareg := 0, condstack := 0, cond := true))
    case _ => if op <= 0xDC then Running(StepData(bus, op, a, b, vm)) else Halted(vm)
  }

  /** The instructions on the data register and the offset. */
  function StepData(bus: Bus, op: nat, a: Word, b: Word, vm: Vm): (r: Vm)
    ensures r == vm.(log := r.log, offset := r.offset, datareg := r.datareg)
  {
    match op
    case 0xD3 => vm.(offset := b)
    case 0xD4 => vm.(datareg := DataOp(a % 0x100, vm.datareg, b))
    case 0xD5 => vm.(datareg := b)
    case 0xD6 => vm.Out(Wrap(b + vm.offset), 4, vm.datareg).(offset := Wrap(vm.offset + 4))
    case 0xD7 => vm.Out(Wrap(b + vm.offset), 2, vm.datareg % 0x1_0000).(offset := Wrap(vm.offset + 2))
    case 0xD8 => vm.Out(Wrap(b + vm.offset), 1, vm.datareg % 0x100).(offset := Wrap(vm.offset + 1))
    case 0xD9 => var (vm, v) := vm.In(bus, Wrap(b + vm.offset), 4); vm.(datareg := v)
    case 0xDA => var (vm, v) := vm.In(bus, Wrap(b + vm.offset), 2); vm.(datareg := v)
    case 0xDB => var (vm, v) := vm.In(bus, Wrap(b + vm.offset), 1); vm.(datareg := v)
    case _ => vm.(offset := Wrap(vm.offset + b))
  }

  // ---- Termination ---------------------------------------------------------------------------

  /** Everything still to be run divides into instructions, and the loop begins behind the program counter. */
  ghost predicate Sound(code: seq<Word>, s: Vm) {
    s.loopstart <= s.pc <= |code| && WellFormed(code, s.pc) && WellFormed(code, s.loopstart)
  }

  ghost predicate Smaller(code: seq<Word>, t: Vm, s: Vm) {
    || t.loopstart > s.loopstart
    || (t.loopstart == s.loopstart && t.loopcount < s.loopcount)
    || (t.loopstart == s.loopstart && t.loopcount == s.loopcount && t.pc > s.pc)
  }

  /** Where an instruction goes: to the next boundary, whatever the condition, or back to the loop. */
  ghost predicate Goes(next: nat, s: Vm, t: Vm) {
    || (t.pc == next && t.loopstart == s.loopstart && t.loopcount == s.loopcount)
    || (t.pc == next && t.loopstart == t.pc)
    || (t.pc == s.loopstart == t.loopstart && t.loopcount < s.loopcount)
  }

  lemma StepCGoes(op: nat, b: Word, vm: Vm)
    ensures StepC(op, b, vm).Running? ==> Goes(vm.pc, vm, StepC(op, b, vm).vm)
  {
    hide Goes;
    PlainGoes(vm, StepC(op, b, vm).vm);
    if op == 0xC0 {
      LoopGoes(vm, StepC(op, b, vm).vm);
    }
  }

  lemma PlainGoes(s: Vm, t: Vm)
    ensures t.pc == s.pc && t.loopstart == s.loopstart && t.loopcount == s.loopcount ==> Goes(s.pc, s, t)
  {
  }

  lemma LoopGoes(s: Vm, t: Vm)
    ensures t.pc == s.pc == t.loopstart ==> Goes(s.pc, s, t)
    ensures t.pc == s.loopstart == t.loopstart && t.loopcount < s.loopcount ==> Goes(s.pc, s, t)
  {
  }

  lemma StepDGoes(bus: Bus, op: nat, a: Word, b: Word, vm: Vm)
    ensures StepD(bus, op, a, b, vm).Running? ==> Goes(vm.pc, vm, StepD(bus, op, a, b, vm).vm)
  {
    hide Goes, StepData;
    PlainGoes(vm, StepD(bus, op, a, b, vm).vm);
    LoopGoes(vm, StepD(bus, op, a, b, vm).vm);
  }

  lemma NoPayload(a: Word, b: Word)
    ensures Op(a) / 16 != 0xE ==> Payload(a, b) == 0
  {
    hide Op;
  }

  lemma StepGoes(code: seq<Word>, bus: Bus, s: Vm)
    requires s.pc + 2 <= |code| && Next(code, s.pc) <= |code|
    ensures Step(code, bus, s).Running? ==> Goes(Next(code, s.pc), s, Step(code, bus, s).vm)
  {
    hide CopyMemory, CopyParams, DataOp, Holds, StepC, StepD, StepMemory, Field, Op, Payload, Goes;
    var a, b := code[s.pc], code[s.pc + 1];
    var vm, next := s.(pc := s.pc + 2), s.(pc := Next(code, s.pc));
    StepCGoes(Op(a), b, vm);
    StepDGoes(bus, Op(a), a, b, vm);
    NoPayload(a, b);
    GoesBehind(s, Step(code, bus, s).vm);
    PlainGoes(next, Step(code, bus, s).vm);
    GoesFrom(next, s, Step(code, bus, s).vm);
  }

  /** `Goes` looks at the loop of its second argument only. */
  lemma GoesBehind(s: Vm, t: Vm)
    ensures Goes(s.pc + 2, s.(pc := s.pc + 2), t) ==> Goes(s.pc + 2, s, t)
  {
  }

  lemma GoesFrom(next: Vm, s: Vm, t: Vm)
    requires next == s.(pc := next.pc)
    ensures Goes(next.pc, next, t) ==> Goes(next.pc, s, t)
  {
  }

  lemma WellFormedEnds(code: seq<Word>, pc: nat)
    requires WellFormed(code, pc)
    ensures pc <= |code|
  {
  }

  /** Every instruction makes the measure smaller and keeps the invariant: no code loops forever. */
  lemma StepDescends(code: seq<Word>, bus: Bus, s: Vm)
    requires Sound(code, s) && s.pc < |code|
    ensures s.pc + 2 <= |code| && Next(code, s.pc) <= |code|
    ensures Step(code, bus, s).Running? ==>
        Sound(code, Step(code, bus, s).vm)
        && Smaller(code, Step(code, bus, s).vm, s)
  {
    hide Step;
    WellFormedEnds(code, Next(code, s.pc));
    StepGoes(code, bus, s);
  }

  /** The whole run. */
  ghost function Run(code: seq<Word>, bus: Bus, s: Vm): Vm
    requires Sound(code, s)
    decreases |code| - s.loopstart, s.loopcount, |code| - s.pc
  {
    if s.pc == |code| then s else
      StepDescends(code, bus, s);
      match Step(code, bus, s)
      case Halted(vm) => vm
      case Running(vm) => Run(code, bus, vm)
  }

  const START := Vm(0, 0, 0, true, 0, 0, 0, true, 0, 0, [])

  // ---- The parameters of an E instruction ----------------------------------------------------

  /** The bytes a log writes, by address. */
  function BytesOf(log: seq<Access>): seq<(Word, nat)> {
    if log == [] then [] else BytesOf(log[..|log| - 1]) + BytesWritten(log[|log| - 1])
  }

  function BytesWritten(a: Access): seq<(Word, nat)> {
    match a
    case Write(addr, width, v) => Spread(addr, v, width)
    case Read(_, _, _) => []
  }

  /** The low `n` bytes of a value, lowest first, at consecutive addresses. */
  function Spread(addr: nat, v: nat, n: nat): seq<(Word, nat)>
    decreases n
  {
    if n == 0 then [] else [(Wrap(addr), v % 0x100)] + Spread(addr + 1, v / 0x100, n - 1)
  }

  /** The first `n` bytes of the words at `pc`, at consecutive addresses. */
  function Flat(code: seq<Word>, pc: nat, addr: nat, n: nat): seq<(Word, nat)>
    requires pc + (n + 3) / 4 <= |code|
    decreases n
  {
    if n <= 4 then (if n == 0 then [] else Spread(addr, code[pc], n))
    else Spread(addr, code[pc], 4) + Flat(code, pc + 1, addr + 4, n - 4)
  }

  lemma {:induction false} BytesAppend(a: seq<Access>, b: seq<Access>)
    ensures BytesOf(a + b) == BytesOf(a) + BytesOf(b)
  {
    hide BytesWritten;
    if b == [] {
      assert a + b == a;
    } else {
      BytesAppend(a, b[..|b| - 1]);
      assert (a + b)[..|a + b| - 1] == a + b[..|b| - 1];
    }
  }

  lemma BytesOne(a: Access)
    ensures BytesOf([a]) == BytesWritten(a)
  {
    assert [a][..0] == [];
  }

  lemma WrapOnce(addr: nat)
    ensures Wrap(Wrap(addr)) == Wrap(addr) && Wrap(Wrap(addr) + 1) == Wrap(addr + 1)
  {
  }

  /** An address counted past the end of memory comes round. */
  lemma {:induction false} SpreadWraps(addr: nat, v: nat, n: nat)
    ensures Spread(Wrap(addr), v, n) == Spread(addr, v, n)
    decreases n
  {
    hide Wrap;
    WrapOnce(addr);
    if n > 0 {
      SpreadWraps(Wrap(addr) + 1, v / 0x100, n - 1);
      SpreadWraps(addr + 1, v / 0x100, n - 1);
    }
  }

  lemma {:induction false} CopyBytesSpread(w: Word, dst: nat, n: nat)
    requires n <= 4
    ensures BytesOf(CopyBytes(w, dst, n)) == Spread(dst, w, n)
    decreases n
  {
    if n > 0 {
      var first := Write(Wrap(dst), 1, w % 0x100);
      CopyBytesSpread(w / 0x100, dst + 1, n - 1);
      BytesAppend([first], CopyBytes(w / 0x100, dst + 1, n - 1));
      BytesOne(first);
      SpreadOne(Wrap(dst), w % 0x100);
    }
  }

  lemma SpreadOne(addr: Word, v: nat)
    requires v < 0x100
    ensures Spread(addr, v, 1) == [(addr, v)]
  {
    assert Spread(addr + 1, v / 0x100, 0) == [];
  }

  /** An E instruction with `b` bytes of parameters writes exactly those bytes, each once and in order, to
      the addresses from the destination on; it reads no word beyond its parameters. */
  lemma {:induction false} ParamsCopied(log: seq<Access>, code: seq<Word>, pc: nat, dst: nat, b: nat)
    requires pc + (b + 7) / 8 * 2 <= |code|
    ensures BytesOf(CopyParams(log, code, pc, dst, b)) == BytesOf(log) + Flat(code, pc, dst, b)
    decreases b
  {
    hide BytesOf, Spread, CopyParams, PairWritten, Flat;
    if b >= 8 {
      CopyParamsPair(log, code, pc, dst, b);
      ParamsCopied(log + PairWritten(code, pc, dst), code, pc + 2, dst + 8, b - 8);
      PairCopied(log, code, pc, dst);
      FlatTwo(code, pc, dst, b);
    } else {
      TailCopied(log, code, pc, dst, b);
    }
  }

  lemma CopyParamsPair(log: seq<Access>, code: seq<Word>, pc: nat, dst: nat, b: nat)
    requires b >= 8 && pc + (b + 7) / 8 * 2 <= |code|
    ensures CopyParams(log, code, pc, dst, b) == CopyParams(log + PairWritten(code, pc, dst), code, pc + 2, dst + 8,
        b - 8)
  {
    hide PairWritten;
  }

  lemma TailCopied(log: seq<Access>, code: seq<Word>, pc: nat, dst: nat, b: nat)
    requires b < 8 && pc + (b + 7) / 8 * 2 <= |code|
    ensures BytesOf(CopyParams(log, code, pc, dst, b)) == BytesOf(log) + Flat(code, pc, dst, b)
  {
    hide BytesOf, Spread, CopyBytes, PairWritten;
    if b >= 4 {
      BytesAppend(log + [Write(Wrap(dst), 4, code[pc])], CopyBytes(code[pc + 1], dst + 4, b - 4));
      WordWritten(log, dst, code[pc]);
      CopyBytesSpread(code[pc + 1], dst + 4, b - 4);
      NothingSpread(dst + 4, code[pc + 1]);
    } else if b > 0 {
      BytesAppend(log, CopyBytes(code[pc], dst, b));
      CopyBytesSpread(code[pc], dst, b);
    }
  }

  lemma PairCopied(log: seq<Access>, code: seq<Word>, pc: nat, dst: nat)
    requires pc + 2 <= |code|
    ensures BytesOf(log + PairWritten(code, pc, dst)) == BytesOf(log) + Spread(dst, code[pc], 4)
        + Spread(dst + 4, code[pc + 1], 4)
  {
    hide BytesOf, Spread;
    var w0, w1 := Write(Wrap(dst), 4, code[pc]), Write(Wrap(dst + 4), 4, code[pc + 1]);
    assert log + [w0, w1] == log + [w0] + [w1];
    WordWritten(log, dst, code[pc]);
    WordWritten(log + [w0], dst + 4, code[pc + 1]);
  }

  lemma WordWritten(log: seq<Access>, dst: nat, w: Word)
    ensures BytesOf(log + [Write(Wrap(dst), 4, w)]) == BytesOf(log) + Spread(dst, w, 4)
  {
    hide BytesOf, Spread;
    BytesAppend(log, [Write(Wrap(dst), 4, w)]);
    BytesOne(Write(Wrap(dst), 4, w));
    SpreadWraps(dst, w, 4);
  }

  lemma NothingSpread(addr: nat, v: nat)
    ensures Spread(addr, v, 0) == []
  {
  }

  lemma FlatTwo(code: seq<Word>, pc: nat, addr: nat, n: nat)
    requires n >= 8 && pc + (n + 7) / 8 * 2 <= |code|
    ensures Flat(code, pc, addr, n) == Spread(addr, code[pc], 4) + Spread(addr + 4, code[pc + 1], 4)
        + Flat(code, pc + 2, addr + 8, n - 8)
  {
    hide Spread;
    if n == 8 {
      assert Flat(code, pc + 1, addr + 4, 4) == Spread(addr + 4, code[pc + 1], 4);
    }
  }

  // ---- The interpreter -----------------------------------------------------------------------

  /** `RunCheat`. It ends for every well-formed code and whatever the bus answers. */
  method RunCheat(code: seq<Word>, bus: Bus) returns (vm: Vm)
    requires WellFormed(code, 0)
    ensures vm == Run(code, bus, START)
  {
    hide Step, WellFormed;
    vm := START;
    while vm.pc < |code|
      invariant Sound(code, vm) && Run(code, bus, vm) == Run(code, bus, START)
      decreases |code| - vm.loopstart, vm.loopcount, |code| - vm.pc
    {
      StepDescends(code, bus, vm);
      match Step(code, bus, vm)
      case Halted(last) =>
        return last;
      case Running(next) =>
        vm := next;
    }
  }
}
