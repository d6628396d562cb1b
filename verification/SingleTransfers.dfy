/**
 Loads and stores of a word, halfword or byte with an immediate offset, as the interpreter executes them: which
 address they access and what they leave in the registers. The bus is a parameter, with whatever effects an access
 has.
 */
module SingleTransfers {
  import opened MachineWords
  import EmittedCode
  import opened FlagLiveness

  type Regs = EmittedCode.Regs

  datatype Op = Str | Strb | Strh | Ldr | Ldrb | Ldrh | Ldrsb | Ldrsh
  {
    predicate Loads() { Ldr? || Ldrb? || Ldrh? || Ldrsb? || Ldrsh? }

    /** The offset has twelve bits, and not two fields of four. */
    predicate Wide() { Str? || Strb? || Ldr? || Ldrb? }

    /** In bytes. */
    function Size(): nat { if Str? || Ldr? then 4 else if Strh? || Ldrh? || Ldrsh? then 2 else 1 }
  }

  /** Reads and stores of some bytes at an address; what a jump leaves in r15; and the flags. */
  datatype Bus<!W> = Bus(
    read: (nat, Word, W) -> (Word, W), write: (nat, Word, Word, W) -> W, jump: (Word, W) -> (Word, W),
    flags: W -> set<Flag>)

  // ---- Addresses -----------------------------------------------------------------------------

  /** `A_WB_CALC_OFFSET_IMM` and `A_HD_CALC_OFFSET_IMM`: negated, modulo 2^32, if bit 23 is clear. */
  function Offset(op: Op, word: Word): Word {
    var imm := if op.Wide() then word % 0x1000 else word % 0x10 + word / 0x100 % 0x10 * 0x10;
    if Bit(word, 23) then imm else Wrap(-imm)
  }

  /** The base register with the offset added. */
  function Moved(op: Op, word: Word, x: Regs): Word {
    Wrap(Offset(op, word) + x[Field(word, 16)])
  }

  /** `T_LDR_PCREL`: bit 1 of r15 is dropped. */
  function PcRelative(word: Word, x: Regs): Word {
    Wrap(x[15] - x[15] / 2 % 2 * 2 + word % 0x100 * 4)
  }

  // ---- Transfers -----------------------------------------------------------------------------

  /** Sign extension from `half` times two. */
  function Extended(val: Word, half: nat): Word
    requires half > 0
  {
    var low := val % (2 * half);
    if low < half then Wrap(low) else Wrap(low - 2 * half)
  }

  function Loaded(op: Op, addr: Word, val: Word): Word {
    match op
    case Ldr => Rotated(val, addr)
    case Ldrsb => Extended(val, 0x80)
    case Ldrsh => Extended(val, 0x8000)
    case _ => val
  }

  /** What a store writes: of r15, four bytes further on. */
  function Outgoing(op: Op, rd: nat, x: Regs): Word
    requires rd < 16
  {
    var val: int := x[rd];
    if op.Str? && rd == 15 then Wrap(val + 4) else x[rd]
  }

  /** A post-indexed transfer accesses the base itself and always writes it back; the other does so with bit 21. */
  function Transfer<W>(bus: Bus<W>, op: Op, post: bool, word: Word, x: Regs, w: W): (Regs, W) {
    var base, rd := Field(word, 16), Field(word, 12);
    var addr := if post then x[base] else Moved(op, word, x);
    var y := if post || Bit(word, 21) then x[base := Moved(op, word, x)] else x;
    if !op.Loads() then
      (y, bus.write(op.Size(), addr, Outgoing(op, rd, x), w))
    else
      var read := bus.read(op.Size(), addr, w);
      var val := Loaded(op, addr, read.0);
      if op.Ldr? && rd == 15 then
        var jump := bus.jump(val, read.1);
        (y[15 := jump.0], jump.1)
      else (y[rd := val], read.1)
  }
}
