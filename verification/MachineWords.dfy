/** Machine words as numbers, and their bits. */
module MachineWords {
  type Word = w: nat | w < 0x1_0000_0000

  function Wrap(a: int): Word { a % 0x1_0000_0000 }

  lemma WrapSmall(a: Word)
    ensures Wrap(a) == a
  {
  }

  lemma WrapAdd(a: int, b: int)
    ensures Wrap(Wrap(a) + b) == Wrap(a + b)
  {
  }

  function Pow2(n: nat): (p: nat)
    ensures p > 0
  {
    if n == 0 then 1 else 2 * Pow2(n - 1)
  }

  predicate Bit(w: nat, k: nat) { w / Pow2(k) % 2 == 1 }

  /** The four bits from `k` on, as in a register number. */
  function Field(w: nat, k: nat): (r: nat)
    ensures r < 16
  {
    w / Pow2(k) % 16
  }

  /** A word read at an address, rotated to the right by eight bits for each byte of misalignment. */
  function Rotated(word: Word, addr: nat): Word {
    match addr % 4
    case 0 => word
    case 1 => word / 0x100 + word % 0x100 * 0x100_0000
    case 2 => word / 0x1_0000 + word % 0x1_0000 * 0x1_0000
    case _ => word / 0x100_0000 + word % 0x100_0000 * 0x100
  }

  /** The bits of a hexadecimal digit, the lowest first. */
  function Digit(d: nat): (r: seq<bool>)
    ensures |r| == 4
  {
    [d % 2 == 1, d / 2 % 2 == 1, d / 4 % 2 == 1, d / 8 % 2 == 1]
  }
}
