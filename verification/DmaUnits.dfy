/** The accesses of a DMA transfer: `n` units from a source and a destination, done in one loop. */
module DmaUnits {
  import opened MachineWords

  /** One unit: read from `src`, write to `dst`. `fill` says that the source is the fill register. */
  datatype Unit = Unit(src: Word, dst: Word, bytes: nat, fill: bool)

  /** How a transfer steps. */
  datatype Stride = Stride(srcInc: int, dstInc: int, bytes: nat, fill: bool)
  {
    predicate Valid() { -1 <= srcInc <= 1 && -1 <= dstInc <= 1 && bytes <= 4 }

    function SrcStep(): int { srcInc * bytes }

    function DstStep(): int { dstInc * bytes }
  }

  /** The address after `k` units, modulo 2^32. */
  function After(a: Word, step: int, k: nat): Word {
    if k == 0 then a else Wrap(After(a, step, k - 1) + step)
  }

  function Units(src: Word, dst: Word, s: Stride, n: nat): (u: seq<Unit>)
    ensures |u| == n
  {
    if n == 0 then []
    else Units(src, dst, s, n - 1) +
         [Unit(After(src, s.SrcStep(), n - 1), After(dst, s.DstStep(), n - 1), s.bytes, s.fill)]
  }

  lemma {:induction false} AfterAdd(a: Word, step: int, j: nat, k: nat)
    ensures After(After(a, step, j), step, k) == After(a, step, j + k)
  {
    if k > 0 {
      AfterAdd(a, step, j, k - 1);
    }
  }

  /** One more unit. */
  lemma UnitDone(src: Word, dst: Word, s: Stride, n: nat)
    ensures Units(src, dst, s, n + 1) == Units(src, dst, s, n)
        + [Unit(After(src, s.SrcStep(), n), After(dst, s.DstStep(), n), s.bytes, s.fill)]
    ensures After(src, s.SrcStep(), n + 1) == Wrap(After(src, s.SrcStep(), n) + s.SrcStep())
    ensures After(dst, s.DstStep(), n + 1) == Wrap(After(dst, s.DstStep(), n) + s.DstStep())
  {
    hide Wrap, After, Stride.SrcStep, Stride.DstStep;
    AfterOne(src, s.SrcStep(), n);
    AfterOne(dst, s.DstStep(), n);
  }

  lemma AfterOne(a: Word, step: int, k: nat)
    ensures After(a, step, k + 1) == Wrap(After(a, step, k) + step)
  {
    hide Wrap;
  }

  lemma NoUnits(src: Word, dst: Word, s: Stride)
    ensures Units(src, dst, s, 0) == [] && After(src, s.SrcStep(), 0) == src && After(dst, s.DstStep(), 0) == dst
  {
  }

  /** `n` units of a loop have been done: it began at `src0` and `dst0` with `before`, and stands at `src` and
      `dst` with `log`. */
  ghost predicate Looped(before: seq<Unit>, src0: Word, dst0: Word, log: seq<Unit>, src: Word, dst: Word, s: Stride,
      n: nat) {
    && log == before + Units(src0, dst0, s, n)
    && src == After(src0, s.SrcStep(), n) && dst == After(dst0, s.DstStep(), n)
  }

  lemma LoopBegins(log: seq<Unit>, src: Word, dst: Word, s: Stride)
    ensures Looped(log, src, dst, log, src, dst, s, 0)
  {
    NoUnits(src, dst, s);
  }

  lemma LoopGoesOn(before: seq<Unit>, src0: Word, dst0: Word, log: seq<Unit>, src: Word, dst: Word, s: Stride, n: nat)
    requires Looped(before, src0, dst0, log, src, dst, s, n)
    ensures Looped(before, src0, dst0, log + [Unit(src, dst, s.bytes, s.fill)], Wrap(src + s.SrcStep()),
        Wrap(dst + s.DstStep()), s, n + 1)
  {
    hide Units, After, Wrap, Stride.SrcStep, Stride.DstStep;
    UnitDone(src0, dst0, s, n);
  }

  /** The `k`-th unit of a transfer is that far from the first. */
  lemma {:induction false} AfterIs(a: Word, step: int, k: nat)
    ensures After(a, step, k) == Wrap(a + k * step)
  {
    hide Wrap;
    if k == 0 {
      WrapSmall(a);
    } else {
      AfterIs(a, step, k - 1);
      WrapAdd(a + (k - 1) * step, step);
      assert (k - 1) * step + step == k * step;
    }
  }

  lemma {:induction false} UnitAt(src: Word, dst: Word, s: Stride, n: nat, k: nat)
    requires k < n
    ensures Units(src, dst, s, n)[k] ==
        Unit(Wrap(src + k * s.SrcStep()), Wrap(dst + k * s.DstStep()), s.bytes, s.fill)
  {
    hide Wrap, After, Stride.SrcStep, Stride.DstStep;
    if k == n - 1 {
      AfterIs(src, s.SrcStep(), k);
      AfterIs(dst, s.DstStep(), k);
    } else {
      UnitAt(src, dst, s, n - 1, k);
    }
  }

  /** Two transfers, the second from where the first stopped, are one. */
  lemma {:induction false} UnitsAppend(src: Word, dst: Word, s: Stride, m: nat, n: nat)
    ensures Units(src, dst, s, m) + Units(After(src, s.SrcStep(), m), After(dst, s.DstStep(), m), s, n)
        == Units(src, dst, s, m + n)
  {
    if n > 0 {
      UnitsAppend(src, dst, s, m, n - 1);
      AfterAdd(src, s.SrcStep(), m, n - 1);
      AfterAdd(dst, s.DstStep(), m, n - 1);
    }
  }
}
