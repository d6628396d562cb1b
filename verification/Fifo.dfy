/** The fixed-size queue of the emulated hardware: a ring buffer that ignores writes when it is full. */
module Fifo {
  class Fifo<T> {
    const Entries: array<T>
    var NumOccupied: nat
    var ReadPos: nat
    var WritePos: nat

    ghost predicate Valid()
      reads this, Entries
    {
      && 0 < Entries.Length && NumOccupied <= Entries.Length && ReadPos < Entries.Length && WritePos < Entries.Length
      && WritePos == At(NumOccupied)
    }

    /** The position `i` places after the next one to be read. */
    ghost function At(i: nat): nat
      reads this
      requires ReadPos < Entries.Length && i <= Entries.Length
    {
      if ReadPos + i < Entries.Length then ReadPos + i else ReadPos + i - Entries.Length
    }

    ghost function Contents(): (s: seq<T>)
      reads this, Entries
      requires Valid()
      ensures |s| == NumOccupied
    {
      seq(NumOccupied, i requires 0 <= i < NumOccupied reads this, Entries requires Valid() => Entries[At(i)])
    }

    constructor (numEntries: nat, zero: T)
      requires numEntries > 0
      ensures Valid() && Contents() == [] && Entries.Length == numEntries && fresh(Entries)
    {
      Entries := new T[numEntries](_ => zero);
      NumOccupied, ReadPos, WritePos := 0, 0, 0;
    }

    method Clear(zero: T)
      requires Valid()
      modifies this, Entries
      ensures Valid() && Contents() == []
    {
      NumOccupied, ReadPos, WritePos := 0, 0, 0;
      Entries[ReadPos] := zero;
    }

    method Write(val: T)
      requires Valid()
      modifies this, Entries
      ensures Valid()
      ensures Contents() == if |old(Contents())| < Entries.Length then old(Contents()) + [val] else old(Contents())
    {
      if NumOccupied >= Entries.Length {
        return;
      }
      Entries[WritePos] := val;
      WritePos := WritePos + 1;
      if WritePos >= Entries.Length {
        WritePos := 0;
      }
      NumOccupied := NumOccupied + 1;
    }

    /** An empty queue returns the entry before the read position, and stays as it is. */
    method Read() returns (ret: T)
      requires Valid()
      modifies this
      ensures Valid()
      ensures old(Contents()) != [] ==> ret == old(Contents())[0] && Contents() == old(Contents())[1..]
      ensures old(Contents()) == [] ==>
          Contents() == []
          && ret == old(Entries[if ReadPos == 0 then Entries.Length - 1 else ReadPos - 1])
    {
      if NumOccupied == 0 {
        return Entries[(if ReadPos == 0 then Entries.Length else ReadPos) - 1];
      }
      ret := Entries[ReadPos];
      ReadPos := ReadPos + 1;
      if ReadPos >= Entries.Length {
        ReadPos := 0;
      }
      NumOccupied := NumOccupied - 1;
    }

    method Level() returns (n: nat)
      requires Valid()
      ensures n == |Contents()|
    {
      n := NumOccupied;
    }
  }
}
