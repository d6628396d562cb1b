/**
 The ARM9's protection unit: eight prioritised regions, turned into two maps with the permissions of every
 4-kilobyte page.
 */
module ProtectionMap {
  import opened Arithmetic
  import opened MachineWords

  const PAGES: nat := 0x10_0000

  datatype Masks = Masks(user: bv8, priv: bv8)

  /** The registers. */
  datatype Setup = Setup(
    enabled: bool, dataCache: bool, codeCache: bool,       // bits 0, 2 and 12 of the control register
    codeRW: seq<nat>, dataRW: seq<nat>,                    // four bits a region
    codeCacheable: seq<bool>, dataCacheable: seq<bool>, dataCacheWrite: seq<bool>,
    region: seq<nat>)
  {
    ghost predicate Valid() {
      && |codeRW| == |dataRW| == |codeCacheable| == |dataCacheable| == |dataCacheWrite| == |region| == 8
      && forall n | 0 <= n < 8 :: region[n] < 0x1_0000_0000
    }

    predicate RegionEnabled(n: nat)
      requires Valid() && n < 8
    {
      region[n] % 2 == 1
    }

    /** log2 of the size of a region in pages: at least one page. */
    function SizeOf(n: nat): nat
      requires Valid() && n < 8
    {
      var field := region[n] / 2 % 0x20;
      if field < 11 then 0 else field - 11
    }

    /** The first page of a region: shifted down and up again, to force the alignment. */
    function StartOf(n: nat): nat
      requires Valid() && n < 8
    {
      Rounded(region[n] / 0x1000, Pow2(SizeOf(n)))
    }

    function EndOf(n: nat): nat
      requires Valid() && n < 8
    {
      StartOf(n) + Pow2(SizeOf(n))
    }

    /** A region is the aligned block of its size around its base. */
    ghost predicate Contains(n: nat, page: nat)
      requires Valid() && n < 8
    {
      RegionEnabled(n) && page / Pow2(SizeOf(n)) == region[n] / 0x1000 / Pow2(SizeOf(n))
    }

    /** Bit 0 allows data reads and bit 1 writes. */
    function DataMasks(n: nat): Masks
      requires Valid() && n < 8
    {
      match dataRW[n]
      case 1 => Masks(0, 3)
      case 2 => Masks(1, 3)
      case 3 => Masks(3, 3)
      case 5 => Masks(0, 1)
      case 6 => Masks(1, 1)
      case _ => Masks(0, 0)
    }

    /** Bit 2 allows execution. */
    function CodeMasks(n: nat): Masks
      requires Valid() && n < 8
    {
      match codeRW[n]
      case 1 => Masks(0, 4)
      case 2 => Masks(4, 4)
      case 3 => Masks(4, 4)
      case 5 => Masks(0, 4)
      case 6 => Masks(4, 4)
      case _ => Masks(0, 0)
    }

    /** Bit 4 is for the data cache, 5 for the write buffer and 6 for the code cache. */
    function CacheMask(n: nat): bv8
      requires Valid() && n < 8
    {
      (if dataCache && dataCacheable[n] then if dataCacheWrite[n] then 0x30 else 0x10 else 0)
      | if codeCache && codeCacheable[n] then 0x40 else 0
    }

    /** What a region allows. */
    function MasksOf(n: nat): Masks
      requires Valid() && n < 8
    {
      var data, code, cache := DataMasks(n), CodeMasks(n), CacheMask(n);
      Masks(data.user | code.user | cache, data.priv | code.priv | cache)
    }

    /** The highest-numbered of the first `n` regions that contains a page decides; failing any, `otherwise`. */
    ghost function Decides(page: nat, n: nat, otherwise: Masks): Masks
      requires Valid() && n <= 8
    {
      if n == 0 then otherwise
      else if Contains(n - 1, page) then MasksOf(n - 1)
      else Decides(page, n - 1, otherwise)
    }

    /** The masks of every page while the unit is off. */
    function OffMask(): bv8 {
      7 | (if dataCache then 0x30 else 0) | if codeCache then 0x40 else 0
    }
  }

  lemma {:induction false} Pow2Split(a: nat, b: nat)
    ensures Pow2(a + b) == Pow2(a) * Pow2(b)
  {
    if a > 0 {
      Pow2Split(a - 1, b);
    }
  }

  lemma Pow20()
    ensures Pow2(20) == PAGES
  {
    Pow2Split(10, 10);
    assert Pow2(5) == 32;
    Pow2Split(5, 5);
  }

  lemma BlockFits(base: nat, p: nat, q: nat)
    requires p > 0 && base < p * q
    ensures base / p * p + p <= p * q
  {
    var k := base / p;
    assert base == p * k + base % p;
    if k >= q {
      MulMono(p, q, k);
      assert false;
    }
    MulMono(p, k + 1, q);
    assert p * (k + 1) == k * p + p;
  }

  /** The forced alignment alone keeps a region within the 2^20 pages. */
  lemma RegionFits(base: nat, size: nat)
    requires base < PAGES && size <= 20
    ensures base / Pow2(size) * Pow2(size) + Pow2(size) <= PAGES
  {
    hide Pow2;
    Pow20();
    Pow2Split(size, 20 - size);
    BlockFits(base, Pow2(size), Pow2(20 - size));
  }

  /** Being in the block that starts at the aligned base is having the same high bits. */
  lemma InBlock(base: nat, p: nat, page: nat)
    requires p > 0
    ensures base / p * p <= page < base / p * p + p <==> page / p == base / p
  {
    var k := base / p;
    assert page == p * (page / p) + page % p && p * k == k * p;
    if k * p <= page < k * p + p {
      Quotient(page, p, k);
    }
  }

  lemma RegionPages(s: Setup, n: nat)
    requires s.Valid() && n < 8
    ensures s.StartOf(n) <= s.EndOf(n) <= PAGES
    ensures forall page | 0 <= page < PAGES :: s.Contains(n, page) <==>
        s.RegionEnabled(n)
        && s.StartOf(n) <= page < s.EndOf(n)
  {
    hide Pow2;
    RegionFits(s.region[n] / 0x1000, s.SizeOf(n));
    forall page | 0 <= page < PAGES
      ensures s.Contains(n, page) <==> s.RegionEnabled(n) && s.StartOf(n) <= page < s.EndOf(n)
    {
      InBlock(s.region[n] / 0x1000, Pow2(s.SizeOf(n)), page);
    }
  }

  /** Nobody is granted anything in user mode that is not granted in privileged modes. */
  lemma UserWithinPrivileged(s: Setup, n: nat)
    requires s.Valid() && n < 8
    ensures s.MasksOf(n).user & s.MasksOf(n).priv == s.MasksOf(n).user
  {
  }

  /** Who may read, write and execute, and what is cached, by the fields of a region: 1 is for privileged code only, 2
      keeps users from writing, 3 keeps them from nothing, 5 and 6 are read-only, for privileged code and for all. */
  lemma RegionPermits(s: Setup, n: nat)
    requires s.Valid() && n < 8
    ensures var m, data, code := s.MasksOf(n), s.dataRW[n], s.codeRW[n];
            && (m.priv & 0x01 != 0 <==> data in {1, 2, 3, 5, 6}) && (m.user & 0x01 != 0 <==> data in {2, 3, 6})
            && (m.priv & 0x02 != 0 <==> data in {1, 2, 3}) && (m.user & 0x02 != 0 <==> data == 3)
            && (m.priv & 0x04 != 0 <==> code in {1, 2, 3, 5, 6}) && (m.user & 0x04 != 0 <==> code in {2, 3, 6})
    ensures var m := s.MasksOf(n);
            && (m.priv & 0x10 != 0 <==> s.dataCache && s.dataCacheable[n])
            && (m.priv & 0x20 != 0 <==> s.dataCache && s.dataCacheable[n] && s.dataCacheWrite[n])
            && (m.priv & 0x40 != 0 <==> s.codeCache && s.codeCacheable[n])
            && m.priv & 0x70 == m.user & 0x70 && m.priv & 0x88 == 0 == m.user & 0x88
  {
    hide Setup.DataMasks, Setup.CodeMasks, Setup.CacheMask;
    DataPermits(s, n);
    CodePermits(s, n);
    CachePermits(s, n);
    Apart(s.DataMasks(n).priv, s.CodeMasks(n).priv, s.CacheMask(n));
    Apart(s.DataMasks(n).user, s.CodeMasks(n).user, s.CacheMask(n));
  }

  lemma DataPermits(s: Setup, n: nat)
    requires s.Valid() && n < 8
    ensures var m, data := s.DataMasks(n), s.dataRW[n];
            && (m.priv & 0x01 != 0 <==> data in {1, 2, 3, 5, 6}) && (m.user & 0x01 != 0 <==> data in {2, 3, 6})
            && (m.priv & 0x02 != 0 <==> data in {1, 2, 3}) && (m.user & 0x02 != 0 <==> data == 3)
            && m.priv & 0xFC == m.user & 0xFC == 0
  {
  }

  lemma CodePermits(s: Setup, n: nat)
    requires s.Valid() && n < 8
    ensures var m, code := s.CodeMasks(n), s.codeRW[n];
            && (m.priv & 0x04 != 0 <==> code in {1, 2, 3, 5, 6}) && (m.user & 0x04 != 0 <==> code in {2, 3, 6})
            && m.priv & 0xFB == m.user & 0xFB == 0
  {
  }

  lemma CachePermits(s: Setup, n: nat)
    requires s.Valid() && n < 8
    ensures var m := s.CacheMask(n);
            && (m & 0x10 != 0 <==> s.dataCache && s.dataCacheable[n])
            && (m & 0x20 != 0 <==> s.dataCache && s.dataCacheable[n] && s.dataCacheWrite[n])
            && (m & 0x40 != 0 <==> s.codeCache && s.codeCacheable[n]) && m & 0x8F == 0
  {
  }

  /** Each bit comes from one of the three. */
  lemma Apart(data: bv8, code: bv8, cache: bv8)
    requires data & 0xFC == 0 && code & 0xFB == 0 && cache & 0x8F == 0
    ensures var m := data | code | cache;
            && m & 0x01 == data & 0x01 && m & 0x02 == data & 0x02 && m & 0x04 == code & 0x04
            && m & 0x10 == cache & 0x10 && m & 0x20 == cache & 0x20 && m & 0x40 == cache & 0x40
            && m & 0x70 == cache && m & 0x88 == 0
  {
  }

  class ProtectionUnit {
    var Regs: Setup
    const PU_UserMap: array<bv8>
    const PU_PrivMap: array<bv8>

    constructor (regs: Setup)
      requires regs.Valid()
      ensures Valid() && Regs == regs && fresh(PU_UserMap) && fresh(PU_PrivMap)
    {
      Regs := regs;
      PU_UserMap := new bv8[PAGES](_ => 0);
      PU_PrivMap := new bv8[PAGES](_ => 0);
    }

    ghost predicate Valid()
      reads this
    {
      Regs.Valid() && PU_UserMap.Length == PU_PrivMap.Length == PAGES && PU_UserMap != PU_PrivMap
    }

    ghost function At(page: nat): Masks
      reads this, PU_UserMap, PU_PrivMap
      requires Valid() && page < PAGES
    {
      Masks(PU_UserMap[page], PU_PrivMap[page])
    }

    /** `memset` of both maps. */
    method Fill(mask: bv8)
      requires Valid()
      modifies PU_UserMap, PU_PrivMap
      ensures forall page | 0 <= page < PAGES :: At(page) == Masks(mask, mask)
    {
      forall i | 0 <= i < PAGES {
        PU_UserMap[i] := mask;
      }
      forall i | 0 <= i < PAGES {
        PU_PrivMap[i] := mask;
      }
    }

    /** Enter one region over whatever was there. */
    method UpdatePURegion(n: nat)
      requires Valid() && n < 8
      modifies PU_UserMap, PU_PrivMap
      ensures forall page | 0 <= page < PAGES ::
                At(page) == if Regs.enabled && Regs.Contains(n, page) then Regs.MasksOf(n) else old(At(page))
    {
      hide Pow2, Setup.MasksOf, Setup.StartOf, Setup.EndOf, Setup.Contains;
      if !Regs.enabled {
        return;
      }
      RegionPages(Regs, n);
      if Regs.region[n] % 2 == 0 {
        return;
      }
      var usermask, privmask := ComputeMasks(n);
      FillPages(Regs.StartOf(n), Regs.EndOf(n), usermask, privmask);
    }

    method FillPages(start: nat, end: nat, usermask: bv8, privmask: bv8)
      requires Valid() && start <= end <= PAGES
      modifies PU_UserMap, PU_PrivMap
      ensures forall page | 0 <= page < PAGES ::
                At(page) == if start <= page < end then Masks(usermask, privmask) else old(At(page))
    {
      for i := start to end
        invariant forall page | start <= page < i :: PU_UserMap[page] == usermask && PU_PrivMap[page] == privmask
        invariant forall page | 0 <= page < PAGES && !(start <= page < i) ::
            PU_UserMap[page] == old(PU_UserMap[page]) && PU_PrivMap[page] == old(PU_PrivMap[page])
      {
        PU_UserMap[i] := usermask;
        PU_PrivMap[i] := privmask;
      }
    }

    method ComputeMasks(n: nat) returns (usermask: bv8, privmask: bv8)
      requires Valid() && n < 8
      ensures Masks(usermask, privmask) == Regs.MasksOf(n)
    {
      usermask, privmask := 0, 0;
      match Regs.dataRW[n] {
        case 1 => privmask := privmask | 0x03;
        case 2 => privmask, usermask := privmask | 0x03, usermask | 0x01;
        case 3 => privmask, usermask := privmask | 0x03, usermask | 0x03;
        case 5 => privmask := privmask | 0x01;
        case 6 => privmask, usermask := privmask | 0x01, usermask | 0x01;
        case _ =>
      }
      match Regs.codeRW[n] {
        case 1 => privmask := privmask | 0x04;
        case 2 => privmask, usermask := privmask | 0x04, usermask | 0x04;
        case 3 => privmask, usermask := privmask | 0x04, usermask | 0x04;
        case 5 => privmask := privmask | 0x04;
        case 6 => privmask, usermask := privmask | 0x04, usermask | 0x04;
        case _ =>
      }
      if Regs.dataCache && Regs.dataCacheable[n] {
        privmask, usermask := privmask | 0x10, usermask | 0x10;
        if Regs.dataCacheWrite[n] {
          privmask, usermask := privmask | 0x20, usermask | 0x20;
        }
      }
      if Regs.codeCache && Regs.codeCacheable[n] {
        privmask, usermask := privmask | 0x40, usermask | 0x40;
      }
    }

    /** The whole map. With the unit on and everything updated, each page holds the masks of the
        highest-numbered enabled region around it, or none. */
    method UpdatePURegions(updateAll: bool)
      requires Valid()
      modifies PU_UserMap, PU_PrivMap
      ensures !Regs.enabled ==> forall page | 0 <= page < PAGES :: At(page) == Masks(Regs.OffMask(), Regs.OffMask())
      ensures Regs.enabled ==> forall page | 0 <= page < PAGES ::
                At(page) == Regs.Decides(page, 8, if updateAll then Masks(0, 0) else old(At(page)))
    {
      if !Regs.enabled {
        var mask: bv8 := 0x07;
        if Regs.dataCache {
          mask := mask | 0x30;
        }
        if Regs.codeCache {
          mask := mask | 0x40;
        }
        Fill(mask);
        return;
      }
      if updateAll {
        Fill(0);
      }
      for n := 0 to 8
        invariant forall page | 0 <= page < PAGES ::
                    At(page) == Regs.Decides(page, n, if updateAll then Masks(0, 0) else old(At(page)))
      {
        UpdatePURegion(n);
      }
    }
  }

  /** Which region decides: the one that contains the page and has no higher one containing it. */
  lemma {:induction false} DecidesTop(s: Setup, page: nat, n: nat, top: nat, otherwise: Masks)
    requires s.Valid() && top < n <= 8 && s.Contains(top, page)
    requires forall m | top < m < n :: !s.Contains(m, page)
    ensures s.Decides(page, n, otherwise) == s.MasksOf(top)
  {
    if top < n - 1 {
      assert !s.Contains(n - 1, page);
      DecidesTop(s, page, n - 1, top, otherwise);
    }
  }

  lemma {:induction false} DecidesNone(s: Setup, page: nat, n: nat, otherwise: Masks)
    requires s.Valid() && n <= 8 && forall m | 0 <= m < n :: !s.Contains(m, page)
    ensures s.Decides(page, n, otherwise) == otherwise
  {
    if n > 0 {
      DecidesNone(s, page, n - 1, otherwise);
    }
  }
}
