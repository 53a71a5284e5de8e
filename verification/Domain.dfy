/**
 Memory regions of a domain, lib/sbi/sbi_domain.c: the region made for a range, the check of an address
 against a region list, and the sorting that the check relies on. XLEN is 64.
 */
module Domain {
  import opened Arith
  import opened Blocks

  /** The access bits of a region's flags; `other` stands for the bits without a meaning here. */
  datatype Flags = Flags(readable: bool, writeable: bool, executable: bool, mmode: bool, mmio: bool, other: nat)

  /** `struct sbi_domain_memregion`. */
  datatype Region = Region(base: nat, order: nat, flags: Flags)

  datatype Mode = U | S | M

  /** `access_flags`. */
  datatype Access = Access(read: bool, write: bool, execute: bool, mmio: bool)

  // ---- The region for a range ----

  /** The block of order `n` around `addr` holds all of the range. */
  predicate Fits(addr: nat, size: nat, n: nat) { addr + size <= Floor(addr, n) + Pow2(n) }

  /** That block ends at the end of the address space. */
  predicate AtTop(addr: nat, n: nat) { Floor(addr, n) + Pow2(n) == SPACE }

  lemma SmallDoesNotFit(addr: nat, size: nat, n: nat)
    requires Pow2(n) < size
    ensures !Fits(addr, size, n)
  {
    FloorBounds(addr, n);
  }

  /** `sbi_domain_memregion_init` on a range that is not empty and does not wrap: the least block that holds
      it, except that the whole space is taken when the least block ends at the top of the space. */
  method MemregionInit(addr: nat, size: nat, flags: Flags) returns (reg: Region)
    requires 1 <= size < SPACE && addr + size <= SPACE
    ensures reg.flags == flags && reg.order <= XLEN && Aligned(reg.base, reg.order)
    ensures reg.base <= addr && addr + size <= reg.base + Pow2(reg.order)
    ensures reg.order < XLEN ==>
              reg.base == Floor(addr, reg.order) && !AtTop(addr, reg.order) && forall n :: 0 <= n < reg.order ==> !Fits(addr, size, n)
    ensures reg.order == XLEN ==> reg.base == 0 && forall n :: 0 <= n < XLEN && Fits(addr, size, n) ==> AtTop(addr, n)
  {
    SpaceIsPow2();
    var base := 0;
    var order := Log2Roundup(size);
    forall n | 0 <= n < order ensures !Fits(addr, size, n) {
      SmallDoesNotFit(addr, size, n);
    }
    while order < XLEN
      invariant order <= XLEN
      invariant forall n :: 0 <= n < order && Fits(addr, size, n) ==> AtTop(addr, n)
    {
      base := Floor(addr, order);
      var end, last := (base + Pow2(order)) % SPACE, (addr + size - 1) % SPACE;
      RangeTest(addr, size, order);
      if base <= addr && addr < end && base <= last && last < end {
        break;
      }
      order := order + 1;
    }
    if order == XLEN {
      base := 0;
      WholeSpace(0, XLEN);
    } else {
      forall n | 0 <= n < order ensures !Fits(addr, size, n) {
        if AtTop(addr, n) {
          TopStays(addr, n, order);
        }
      }
      FloorAligned(addr, order, order);
    }
    reg := Region(base, order, flags);
  }

  lemma TopStays(addr: nat, n: nat, m: nat)
    requires addr < SPACE && AtTop(addr, n) && n <= m <= XLEN
    ensures AtTop(addr, m)
  {
    SpaceIsPow2();
    FloorAligned(addr, n, n);
    NestedEnd(Floor(addr, n), n, m);
    FloorFloor(addr, n, m);
    BlockInside(addr, m, XLEN);
  }

  /** The test of the source, with its sums modulo 2^64. */
  lemma RangeTest(addr: nat, size: nat, n: nat)
    requires 1 <= size < SPACE && addr + size <= SPACE && n < XLEN
    ensures var base := Floor(addr, n);
            var end, last := (base + Pow2(n)) % SPACE, (addr + size - 1) % SPACE;
            (base <= addr && addr < end && base <= last && last < end) <==> Fits(addr, size, n) && !AtTop(addr, n)
  {
    FloorBounds(addr, n);
    SpaceIsPow2();
    BlockInside(addr, n, XLEN);
    RangeSums(Floor(addr, n), Pow2(n), addr, size);
  }

  lemma RangeSums(base: nat, p: nat, addr: nat, size: nat)
    requires 1 <= size && addr + size <= SPACE && base <= addr < base + p <= SPACE
    ensures (addr + size - 1) % SPACE == addr + size - 1
    ensures (base + p) % SPACE == if base + p == SPACE then 0 else base + p
  {
  }

  // ---- The check of an address ----

  predicate Visible(r: Region, mode: Mode) { mode == M ==> r.flags.mmode }

  /** `rstart <= addr && addr <= rend`. */
  predicate Contains(r: Region, addr: nat) {
    r.base <= addr && (r.order < XLEN ==> addr < r.base + Pow2(r.order))
  }

  predicate Matches(r: Region, addr: nat, mode: Mode) { Visible(r, mode) && Contains(r, addr) }

  /** What a matching region says about an access. */
  predicate Grants(f: Flags, a: Access) {
    && a.mmio == f.mmio
    && (a.read ==> f.readable) && (a.write ==> f.writeable) && (a.execute ==> f.executable)
  }

  /** `sbi_domain_check_addr` from region number `i` on: the first match decides. */
  predicate CheckFrom(rs: seq<Region>, i: nat, addr: nat, mode: Mode, a: Access)
    requires i <= |rs|
    decreases |rs| - i
  {
    if i == |rs| then mode == M
    else if Matches(rs[i], addr, mode) then Grants(rs[i].flags, a)
    else CheckFrom(rs, i + 1, addr, mode, a)
  }

  /** `sbi_domain_check_addr`; the regions end with one of order 0. */
  method CheckAddr(regions: array<Region>, count: nat, addr: nat, mode: Mode, a: Access) returns (ok: bool)
    requires count < regions.Length && regions[count].order == 0
    requires forall k :: 0 <= k < count ==> 0 < regions[k].order <= XLEN && regions[k].base < SPACE
    requires forall k :: 0 <= k < count && regions[k].order < XLEN ==> regions[k].base + Pow2(regions[k].order) <= SPACE
    requires addr < SPACE
    ensures ok == CheckFrom(regions[..count], 0, addr, mode, a)
  {
    var i := 0;
    while regions[i].order != 0
      invariant 0 <= i <= count
      invariant CheckFrom(regions[..count], i, addr, mode, a) == CheckFrom(regions[..count], 0, addr, mode, a)
      decreases count - i
    {
      var f := regions[i].flags;
      if mode != M || f.mmode {
        var start := regions[i].base;
        var end := if regions[i].order < XLEN then start + (Pow2(regions[i].order) - 1) else SPACE - 1;
        if start <= addr && addr <= end {
          if (a.mmio && !f.mmio) || (!a.mmio && f.mmio) {
            return false;
          }
          return (a.read ==> f.readable) && (a.write ==> f.writeable) && (a.execute ==> f.executable);
        }
      }
      i := i + 1;
    }
    ok := mode == M;
  }

  // ---- What the check means ----

  /** A region as `sbi_domain_memregion_init` makes them: `is_region_valid`, and order XLEN from address 0. */
  predicate Valid(r: Region) {
    3 <= r.order <= XLEN && Aligned(r.base, r.order) && r.base < SPACE
  }

  predicate SameKey(a: Region, b: Region) { a.order == b.order && a.base == b.base }

  /** `is_region_before`. */
  predicate IsBefore(a: Region, b: Region) { a.order < b.order || (a.order == b.order && a.base < b.base) }

  predicate Sorted(rs: seq<Region>) {
    forall i, j :: 0 <= i < j < |rs| ==> !IsBefore(rs[j], rs[i])
  }

  predicate Distinct(rs: seq<Region>) {
    forall i, j :: 0 <= i < j < |rs| ==> !SameKey(rs[i], rs[j])
  }

  predicate AllValid(rs: seq<Region>) { forall i :: 0 <= i < |rs| ==> Valid(rs[i]) }

  function SetOf(rs: seq<Region>): set<Region> { set r | r in rs }

  /** The smallest of the regions that are visible and hold the address. */
  ghost predicate Smallest(s: set<Region>, r: Region, addr: nat, mode: Mode) {
    && r in s && Matches(r, addr, mode)
    && forall q :: q in s && q != r && Matches(q, addr, mode) ==> r.order < q.order
  }

  /** The decision, independent of the order of the list: that of the smallest visible region around the
      address; without one, machine mode may and the others may not. */
  ghost predicate Decides(s: set<Region>, addr: nat, mode: Mode, a: Access, ok: bool) {
    || (exists r :: Smallest(s, r, addr, mode) && ok == Grants(r.flags, a))
    || ((forall r :: r in s ==> !Matches(r, addr, mode)) && ok == (mode == M))
  }

  lemma {:induction false} CheckFirst(rs: seq<Region>, i: nat, k: nat, addr: nat, mode: Mode, a: Access)
    requires i <= k <= |rs| && forall j :: i <= j < k ==> !Matches(rs[j], addr, mode)
    requires k < |rs| ==> Matches(rs[k], addr, mode)
    ensures CheckFrom(rs, i, addr, mode, a) == if k < |rs| then Grants(rs[k].flags, a) else mode == M
    decreases k - i
  {
    if i < k {
      CheckFirst(rs, i + 1, k, addr, mode, a);
    }
  }

  function FirstMatch(rs: seq<Region>, i: nat, addr: nat, mode: Mode): (k: nat)
    requires i <= |rs|
    ensures i <= k <= |rs| && (k < |rs| ==> Matches(rs[k], addr, mode))
    ensures forall j :: i <= j < k ==> !Matches(rs[j], addr, mode)
    decreases |rs| - i
  {
    if i == |rs| || Matches(rs[i], addr, mode) then i else FirstMatch(rs, i + 1, addr, mode)
  }

  /** Two blocks of one size around one address are the same block. */
  lemma SameSizeSameBlock(r: Region, q: Region, addr: nat)
    requires Valid(r) && Valid(q) && r.order == q.order && Contains(r, addr) && Contains(q, addr) && addr < SPACE
    ensures r.base == q.base
  {
    ContainsIsBlock(r, addr);
    ContainsIsBlock(q, addr);
  }

  lemma ContainsIsBlock(r: Region, addr: nat)
    requires Valid(r) && addr < SPACE
    ensures Contains(r, addr) <==> Floor(addr, r.order) == r.base
    ensures Contains(r, addr) <==> r.base <= addr < r.base + Pow2(r.order)
  {
    SpaceIsPow2();
    SameBlock(r.base, addr, r.order);
    if r.order == XLEN {
      WholeSpace(r.base, XLEN);
      WholeSpace(addr, XLEN);
    }
  }

  /** On a sorted list without two equal blocks the first match is the smallest visible region around the
      address. */
  lemma SortedDecides(rs: seq<Region>, addr: nat, mode: Mode, a: Access)
    requires Sorted(rs) && Distinct(rs) && AllValid(rs) && addr < SPACE
    ensures Decides(SetOf(rs), addr, mode, a, CheckFrom(rs, 0, addr, mode, a))
  {
    var k := FirstMatch(rs, 0, addr, mode);
    CheckFirst(rs, 0, k, addr, mode, a);
    if k < |rs| {
      forall q | q in SetOf(rs) && q != rs[k] && Matches(q, addr, mode) ensures rs[k].order < q.order {
        var j :| 0 <= j < |rs| && rs[j] == q;
        if rs[j].order == rs[k].order {
          SameSizeSameBlock(rs[j], rs[k], addr);
        }
      }
      assert Smallest(SetOf(rs), rs[k], addr, mode);
    }
  }

  /** There is one decision. */
  lemma DecisionUnique(s: set<Region>, addr: nat, mode: Mode, a: Access, x: bool, y: bool)
    requires Decides(s, addr, mode, a, x) && Decides(s, addr, mode, a, y)
    ensures x == y
  {
    if exists r :: r in s && Matches(r, addr, mode) {
      var r :| Smallest(s, r, addr, mode) && x == Grants(r.flags, a);
      var q :| Smallest(s, q, addr, mode) && y == Grants(q.flags, a);
      assert q == r;
    }
  }

  // ---- Conflicts ----

  /** `BIT(order)`: the shift uses the low six bits of its count. */
  function Mask(order: nat): nat { Pow2(order % XLEN) }

  /** `is_region_subset`, which takes the end of `b` from the order of `a`. */
  predicate IsSubset(a: Region, b: Region) {
    var aEnd := (a.base + (Mask(a.order) - 1)) % SPACE;
    var bEnd := (b.base + (Mask(a.order) - 1)) % SPACE;
    b.base <= a.base && a.base < bEnd && b.base < aEnd && aEnd <= bEnd
  }

  /** `is_region_conflict`. */
  predicate IsConflict(a: Region, b: Region) {
    (IsSubset(a, b) || IsSubset(b, a)) && a.flags == b.flags
  }

  lemma SubsetMeans(a: Region, b: Region)
    requires Valid(a) && Valid(b)
    ensures IsSubset(a, b) <==> a.base == b.base && a.order < XLEN
  {
    hide Pow2, Floor, Mask;
    SpaceIsPow2();
    BlockInside(a.base, a.order, XLEN);
    if a.order == XLEN {
      WholeSpace(a.base, XLEN);
      WholeNoSubset(a, b);
    } else {
      AtLeastTwo(a.order);
      MaskIs(a.order);
      SubsetSums(a.base, b.base, Pow2(a.order));
    }
  }

  lemma AtLeastTwo(n: nat)
    requires n >= 1
    ensures Pow2(n) >= 2
  {
    Pow2Monotone(1, n);
  }

  lemma MaskIs(order: nat)
    ensures order < XLEN ==> Mask(order) == Pow2(order)
    ensures order == XLEN ==> Mask(order) == 1
  {
    SmallShift(order);
  }

  lemma SmallShift(order: nat)
    ensures order < 64 ==> order % 64 == order
    ensures order == 64 ==> order % 64 == 0
  {
  }

  lemma WholeNoSubset(a: Region, b: Region)
    requires a.order == XLEN && a.base == 0
    ensures !IsSubset(a, b)
  {
    MaskIs(a.order);
  }

  lemma SubsetSums(a: nat, b: nat, p: nat)
    requires 2 <= p && a + p <= SPACE && b < SPACE
    ensures var aEnd, bEnd := (a + (p - 1)) % SPACE, (b + (p - 1)) % SPACE;
            (b <= a && a < bEnd && b < aEnd && aEnd <= bEnd) <==> a == b
  {
    assert (a + (p - 1)) % SPACE == a + (p - 1);
    if b + (p - 1) >= SPACE {
      assert (b + (p - 1)) % SPACE == b + (p - 1) - SPACE;
    } else {
      assert (b + (p - 1)) % SPACE == b + (p - 1);
    }
  }

  /** As coded, two valid regions conflict exactly when they have equal flags and start at one address, unless
      both are the whole space: nesting as such is not noticed. */
  lemma ConflictMeans(a: Region, b: Region)
    requires Valid(a) && Valid(b)
    ensures IsConflict(a, b) <==> a.flags == b.flags && a.base == b.base && !(a.order == XLEN && b.order == XLEN)
  {
    SubsetMeans(a, b);
    SubsetMeans(b, a);
  }
}
