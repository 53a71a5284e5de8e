/**
 When `sbi_domain_root_add_memregion` of lib/sbi/sbi_domain.c optimizes a list well: exactly when no listed region is
 put together from smaller ones. Otherwise some part of the list ends with two equal blocks.
 */
module DomainExact {
  import opened Options
  import opened Arith
  import opened Blocks
  import opened Domain
  import opened DomainSort
  import opened DomainConflict
  import opened DomainMerge
  import Seqs

  /** Some of the regions of the list, in any order. */
  ghost predicate Part(us: seq<Region>, rs: seq<Region>) {
    Distinct(us) && forall r :: r in us ==> r in rs
  }

  /** Optimizing succeeds, leaves no two equal blocks, and changes no decision. */
  ghost predicate OptimizedWell(us: seq<Region>) {
    && Optimized(us).0 && Distinct(Optimized(us).1)
    && forall addr: nat, mode: Mode, acc: Access :: addr < SPACE ==>
         Decides(SetOf(us), addr, mode, acc, CheckFrom(Optimized(us).1, 0, addr, mode, acc))
  }

  /** On a list of valid, distinct regions without conflicts: every part of it is optimized well exactly when no region
      of it is put together from smaller ones. */
  lemma OptimizedExactly(rs: seq<Region>)
    requires AllValid(rs) && Distinct(rs) && Peaceful(rs)
    ensures Unambiguous(SetOf(rs)) <==> forall us :: Part(us, rs) ==> OptimizedWell(us)
  {
    if Unambiguous(SetOf(rs)) {
      forall us | Part(us, rs) ensures OptimizedWell(us) {
        PartGood(us, rs);
        OptimizedGood(us);
      }
    } else {
      var r, f :| r in SetOf(rs) && Halved(SetOf(rs), r.base, r.order, f);
      var us := Stack(rs, r, f);
      PartStacked(rs, r, f);
      assert Part(us, rs) && !OptimizedWell(us);
    }
  }

  // ---- Parts of a good list ----

  lemma PartGood(us: seq<Region>, rs: seq<Region>)
    requires AllValid(rs) && Distinct(rs) && Peaceful(rs) && Unambiguous(SetOf(rs)) && Part(us, rs)
    ensures Good(SetOf(us)) && Peaceful(us)
  {
    hide IsConflict, Halved;
    var s, u := SetOf(rs), SetOf(us);
    forall r | r in u ensures Valid(r) {
      var k :| 0 <= k < |rs| && rs[k] == r;
    }
    forall r, q | r in u && q in u && SameKey(r, q) ensures r == q {
      var k :| 0 <= k < |rs| && rs[k] == r;
      var m :| 0 <= m < |rs| && rs[m] == q;
    }
    forall r, f | r in u ensures !Halved(u, r.base, r.order, f) {
      assert r in s && !Halved(s, r.base, r.order, f);
      MoreHalved(u, s, r.base, r.order, f);
    }
    PartPeaceful(us, rs);
  }

  lemma PartPeaceful(us: seq<Region>, rs: seq<Region>)
    requires Peaceful(rs) && Part(us, rs)
    ensures Peaceful(us)
  {
    hide IsConflict;
    forall a, b | 0 <= a < b < |us| ensures !IsConflict(us[b], us[a]) {
      assert us[a] in rs && us[b] in rs && !SameKey(us[a], us[b]);
      var c :| 0 <= c < |rs| && rs[c] == us[a];
      var d :| 0 <= d < |rs| && rs[d] == us[b];
      ConflictSymmetric(rs[c], rs[d]);
    }
  }

  /** What is tiled by some regions is tiled by more. */
  lemma {:induction false} MoreTiled(u: set<Region>, s: set<Region>, base: nat, order: nat, f: Flags)
    requires u <= s && Tiled(u, base, order, f)
    ensures Tiled(s, base, order, f)
    decreases order, 1
  {
    if Region(base, order, f) !in u {
      MoreHalved(u, s, base, order, f);
    }
  }

  lemma {:induction false} MoreHalved(u: set<Region>, s: set<Region>, base: nat, order: nat, f: Flags)
    requires u <= s
    ensures Halved(u, base, order, f) ==> Halved(s, base, order, f)
    decreases order, 0
  {
    if Halved(u, base, order, f) {
      MoreTiled(u, s, base, order - 1, f);
      MoreTiled(u, s, base + Pow2(order - 1), order - 1, f);
    }
  }

  // ---- A region on top of those that make it up ----

  /** The region lies in the block of `r` and has the flags `f`. */
  predicate Under(q: Region, r: Region, f: Flags) {
    q.flags == f && q.order <= r.order && r.base <= q.base < r.base + Pow2(r.order)
  }

  /** `r` and the regions of the list under it. */
  function Stack(rs: seq<Region>, r: Region, f: Flags): seq<Region> {
    if rs == [] then []
    else (if Under(rs[0], r, f) || rs[0] == r then [rs[0]] else []) + Stack(rs[1..], r, f)
  }

  lemma {:induction false} StackIs(rs: seq<Region>, r: Region, f: Flags)
    requires Distinct(rs)
    ensures forall q :: q in Stack(rs, r, f) <==> q in rs && (Under(q, r, f) || q == r)
    ensures Distinct(Stack(rs, r, f))
  {
    hide Under;
    if rs != [] {
      var t := Stack(rs[1..], r, f);
      StackIs(rs[1..], r, f);
      Seqs.HeadTail(rs);
      forall i | 0 <= i < |t| ensures !SameKey(rs[0], t[i]) {
        assert t[i] in t;
        assert t[i] in rs[1..];
        var k :| 0 <= k < |rs[1..]| && rs[1..][k] == t[i];
        assert rs[k + 1] == t[i];
      }
    }
  }

  /** While the list is optimized, `r` stays, all others lie under it, and its block stays tiled by them. */
  ghost predicate Stacked(rs: seq<Region>, r: Region, f: Flags) {
    && AllValid(rs) && r in rs && r.flags != f && (forall q :: q in rs ==> q == r || Under(q, r, f))
    && Tiled(SetOf(rs), r.base, r.order, f)
  }

  lemma PartStacked(rs: seq<Region>, r: Region, f: Flags)
    requires AllValid(rs) && Distinct(rs) && Peaceful(rs) && r in rs && Halved(SetOf(rs), r.base, r.order, f)
    ensures Part(Stack(rs, r, f), rs) && !OptimizedWell(Stack(rs, r, f))
  {
    hide IsConflict, Under;
    var us := Stack(rs, r, f);
    StackIs(rs, r, f);
    OtherFlags(rs, r, f);
    forall i | 0 <= i < |us| ensures Valid(us[i]) {
      assert us[i] in us;
      var k :| 0 <= k < |rs| && rs[k] == us[i];
    }
    TilesUnder(SetOf(rs), SetOf(us), r, r.base, r.order, f);
    StackedOptimized(us, r, f);
  }

  /** Without conflicts, what makes up a listed block has other flags. */
  lemma OtherFlags(rs: seq<Region>, r: Region, f: Flags)
    requires AllValid(rs) && Peaceful(rs) && r in rs && Halved(SetOf(rs), r.base, r.order, f)
    ensures r.flags != f
  {
    hide IsConflict;
    var q := FirstTile(SetOf(rs), r.base, r.order - 1, f);
    var i :| 0 <= i < |rs| && rs[i] == r;
    var j :| 0 <= j < |rs| && rs[j] == q;
    ConflictMeans(q, r);
    ConflictSymmetric(q, r);
  }

  lemma {:induction false} FirstTile(s: set<Region>, base: nat, order: nat, f: Flags) returns (q: Region)
    requires Tiled(s, base, order, f)
    ensures q in s && q.base == base && q.order <= order && q.flags == f
    decreases order
  {
    q := Region(base, order, f);
    if q !in s {
      q := FirstTile(s, base, order - 1, f);
    }
  }

  /** Only the regions under it matter for a tiling. */
  lemma {:induction false} TilesUnder(s: set<Region>, u: set<Region>, r: Region, base: nat, order: nat, f: Flags)
    requires forall q :: q in s && Under(q, r, f) ==> q in u
    requires order <= r.order && r.base <= base && base + Pow2(order) <= r.base + Pow2(r.order)
    ensures Tiled(s, base, order, f) ==> Tiled(u, base, order, f)
    decreases order
  {
    if order > 0 {
      TilesUnder(s, u, r, base, order - 1, f);
      TilesUnder(s, u, r, base + Pow2(order - 1), order - 1, f);
    }
    assert Halved(s, base, order, f) ==> Halved(u, base, order, f);
    assert Region(base, order, f) in s ==> Under(Region(base, order, f), r, f);
  }

  // ---- What becomes of it ----

  lemma {:induction false} StackedOptimized(rs: seq<Region>, r: Region, f: Flags)
    requires Stacked(rs, r, f)
    ensures Optimized(rs).0 ==> !Distinct(Optimized(rs).1)
    decreases |rs|
  {
    hide IsConflict, SortFrom, MergeScan, Tiled, Under;
    if Sanitized(rs).Some? {
      var s := Sanitized(rs).value;
      SortSorts(rs, 0);
      StackedSorted(rs, s, r, f);
      StackedScan(s, 0, r, f);
      var t := MergeScan(s, 0);
      if |t| < |s| {
        StackedOptimized(t, r, f);
      } else if Distinct(t) {
        assert r in t && Valid(r);
        AllMerged(t, r.base, r.order, f);
        TwoBlocks(t, r, f);
      }
    }
  }

  lemma StackedSorted(rs: seq<Region>, s: seq<Region>, r: Region, f: Flags)
    requires Stacked(rs, r, f) && multiset(rs) == multiset(s)
    ensures Stacked(s, r, f)
  {
    hide Tiled, Under;
    SameElements(rs, s);
    forall q ensures q in s <==> q in rs {
      assert q in s <==> q in SetOf(s);
      assert q in rs <==> q in SetOf(rs);
    }
    forall i | 0 <= i < |s| ensures Valid(s[i]) {
      assert s[i] in s;
      var k :| 0 <= k < |rs| && rs[k] == s[i];
    }
  }

  lemma TwoBlocks(t: seq<Region>, r: Region, f: Flags)
    requires r in t && r.flags != f && Tiled(SetOf(t), r.base, r.order, f) && !Halved(SetOf(t), r.base, r.order, f)
    ensures !Distinct(t)
  {
    hide Halved;
    var q := Region(r.base, r.order, f);
    assert q in t;
    var i :| 0 <= i < |t| && t[i] == r;
    var j :| 0 <= j < |t| && t[j] == q;
    assert SameKey(t[i], t[j]) && SameKey(t[j], t[i]);
  }

  lemma {:induction false} StackedScan(rs: seq<Region>, k: nat, r: Region, f: Flags)
    requires Stacked(rs, r, f) && SortedBehind(rs, k)
    ensures var t := MergeScan(rs, k);
            && Stacked(t, r, f)
            && (|t| == |rs| ==> forall i :: k <= i && i + 1 < |rs| ==> !Mergeable(rs[i], rs[i + 1]))
    decreases |rs| - k
  {
    hide Stacked, Mergeable;
    if k + 1 < |rs| {
      if Mergeable(rs[k], rs[k + 1]) {
        StackedMerge(rs, k, r, f);
        StackedScan(MergeAt(rs, k), k + 1, r, f);
      } else {
        StackedScan(rs, k + 1, r, f);
      }
    }
  }

  /** Buddies that merge lie under `r`, and so does what they become; `r` itself has no buddy in the list. */
  lemma StackedMerge(rs: seq<Region>, k: nat, r: Region, f: Flags)
    requires k + 1 < |rs| && Stacked(rs, r, f) && SortedBehind(rs, k) && Mergeable(rs[k], rs[k + 1])
    ensures Stacked(MergeAt(rs, k), r, f) && SortedBehind(MergeAt(rs, k), k + 1)
  {
    hide Tiled, Under, Mergeable;
    var a, b, ms := rs[k], rs[k + 1], MergeAt(rs, k);
    assert a in rs && b in rs && !IsBefore(b, a);
    BuddyApart(a, b);
    MergedIsUnion(a, b);
    assert Valid(r) by { var i :| 0 <= i < |rs| && rs[i] == r; }
    BuddiesUnder(a, b, r, f);
    forall q | q in rs && q != a && q != b ensures q in ms {
      var i :| 0 <= i < |rs| && rs[i] == q;
      assert ms[if i < k then i else i - 1] == q;
    }
    assert ms[k] == Merged(a);
    forall i | 0 <= i < |ms| ensures Valid(ms[i]) && (ms[i] == Merged(a) || ms[i] in rs) {
      assert i != k ==> ms[i] == rs[if i < k then i else i + 1];
    }
    TiledAfter(SetOf(rs), SetOf(ms), a, b, r.base, r.order, f);
  }

  lemma BuddyApart(a: Region, b: Region)
    requires Valid(a) && Valid(b) && Mergeable(a, b) && !IsBefore(b, a)
    ensures a.base < b.base && a.flags == b.flags && a.order == b.order && Aligned(a.base, (a.order + 1) % XLEN)
  {
    MaskSmall(a.order);
    if a.base == b.base {
      NoTurn(a.base, Mask(a.order));
    }
  }

  lemma MaskSmall(order: nat)
    requires order <= XLEN
    ensures 0 < Mask(order) < SPACE
  {
    MaskIs(order);
    SpaceIsPow2();
    if order < XLEN {
      Pow2Monotone(order, XLEN - 1);
      assert Pow2(XLEN) == 2 * Pow2(XLEN - 1);
    }
  }

  lemma NoTurn(x: nat, p: nat)
    requires x < SPACE && 0 < p < SPACE
    ensures (x + p) % SPACE != x
  {
    if x + p < SPACE {
      assert (x + p) % SPACE == x + p;
    } else {
      assert (x + p) % SPACE == x + p - SPACE;
    }
  }

  lemma BuddiesUnder(a: Region, b: Region, r: Region, f: Flags)
    requires Valid(a) && Valid(b) && Valid(r) && Valid(Merged(a)) && b == a.(base := a.base + Pow2(a.order))
    requires (a == r || Under(a, r, f)) && (b == r || Under(b, r, f)) && r.flags != f
    ensures Under(a, r, f) && Under(b, r, f) && a.order < r.order && Under(Merged(a), r, f)
  {
    assert a.base != b.base;
    if a.order == r.order {
      SameBlock(r.base, a.base, r.order);
      SameBlock(r.base, b.base, r.order);
      assert false;
    }
  }

  /** A block that is tiled stays so when two buddies merge, unless it is one of them. */
  lemma {:induction false} TiledAfter(s: set<Region>, u: set<Region>, a: Region, b: Region, base: nat, order: nat, f: Flags)
    requires b == a.(base := a.base + Pow2(a.order)) && a.flags == f && Aligned(a.base, a.order + 1)
    requires Merged(a) in u && forall q :: q in s && q != a && q != b ==> q in u
    requires Aligned(base, order) && Tiled(s, base, order, f)
    requires !(order == a.order && (base == a.base || base == b.base))
    ensures Tiled(u, base, order, f)
    decreases order
  {
    if Region(base, order, f) !in s && Region(base, order, f) != Merged(a) {
      var h := Pow2(order - 1);
      HalvesAligned(base, order);
      HalvesAligned(a.base, a.order + 1);
      TiledAfter(s, u, a, b, base, order - 1, f);
      TiledAfter(s, u, a, b, base + h, order - 1, f);
    }
  }

  lemma HalvesAligned(base: nat, n: nat)
    requires n > 0 && Aligned(base, n)
    ensures Aligned(base, n - 1) && Aligned(base + Pow2(n - 1), n - 1) && !Aligned(base + Pow2(n - 1), n)
  {
    AlignedDown(base, n - 1, n);
    UpperHalf(base, n);
    SameBlock(base, base + Pow2(n - 1), n);
  }

  lemma {:induction false} UpperHalf(base: nat, n: nat)
    requires n > 0 && Aligned(base, n)
    ensures Aligned(base + Pow2(n - 1), n - 1)
  {
    if n > 1 {
      assert base / 2 * 2 == base && Aligned(base / 2, n - 1);
      UpperHalf(base / 2, n - 1);
      assert (base + Pow2(n - 1)) / 2 == base / 2 + Pow2(n - 2);
    }
  }

  // ---- What is left in the end ----

  /** In a sorted list of distinct blocks two buddies are neighbours. So without neighbours that merge, no block is put
      together from others. */
  lemma {:induction false} AllMerged(t: seq<Region>, base: nat, order: nat, f: Flags)
    requires AllValid(t) && Sorted(t) && Distinct(t) && NoneMergeable(t, |t|) && Aligned(base, order) && order <= XLEN
    ensures !Halved(SetOf(t), base, order, f)
    decreases order
  {
    hide Mergeable;
    if order > 0 {
      HalvesAligned(base, order);
      AllMerged(t, base, order - 1, f);
      AllMerged(t, base + Pow2(order - 1), order - 1, f);
      if Halved(SetOf(t), base, order, f) {
        var a, b := Region(base, order - 1, f), Region(base + Pow2(order - 1), order - 1, f);
        assert Tiled(SetOf(t), base, order - 1, f) && Tiled(SetOf(t), b.base, order - 1, f);
        assert a in SetOf(t) && b in SetOf(t);
        var i :| 0 <= i < |t| && t[i] == a;
        var j :| 0 <= j < |t| && t[j] == b;
        Buddies(t, i, j);
      }
    }
  }

  lemma Buddies(t: seq<Region>, i: nat, j: nat)
    requires AllValid(t) && Sorted(t) && Distinct(t) && i < |t| && j < |t|
    requires t[j] == t[i].(base := t[i].base + Pow2(t[i].order)) && Aligned(t[i].base, t[i].order + 1) && t[i].order < XLEN
    ensures !NoneMergeable(t, |t|)
  {
    var a, b := t[i], t[j];
    assert IsBefore(a, b);
    assert i < j;
    if j == i + 1 {
      BuddiesMerge(a, b);
      assert Mergeable(t[i], t[i + 1]);
    } else {
      var c := t[i + 1];
      assert !IsBefore(c, a) && !IsBefore(b, c) && !SameKey(a, c) && !SameKey(c, b);
      SameBlock(a.base, c.base, a.order);
    }
  }

  lemma BuddiesMerge(a: Region, b: Region)
    requires Valid(a) && Valid(b) && b == a.(base := a.base + Pow2(a.order)) && Aligned(a.base, a.order + 1) && a.order < XLEN
    ensures Mergeable(a, b)
  {
    MaskIs(a.order);
    SmallShift(a.order + 1);
    assert Aligned(a.base, 0);
    assert b.base % SPACE == b.base;
  }
}
