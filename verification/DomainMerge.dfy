/**
 The merging of buddies in `sbi_domain_root_add_memregion`, lib/sbi/sbi_domain.c.
 */
module DomainMerge {
  import opened Options
  import opened Arith
  import opened Blocks
  import opened Domain
  import opened DomainSort
  import opened DomainConflict

  // ---- Merging buddies ----

  /** The merge test of `sbi_domain_root_add_memregion`: the mask test, and equal orders and flags of
      neighbours. */
  predicate Mergeable(a: Region, b: Region) {
    && Aligned(a.base, (a.order + 1) % XLEN)
    && (a.base + Mask(a.order)) % SPACE == b.base && a.order == b.order && a.flags == b.flags
  }

  function Merged(a: Region): Region { a.(order := a.order + 1) }

  lemma MergedIsUnion(a: Region, b: Region)
    requires Valid(a) && Valid(b) && Mergeable(a, b) && a.base < b.base
    ensures Valid(Merged(a)) && b.base == a.base + Pow2(a.order) && a.order < XLEN
    ensures forall x :: 0 <= x < SPACE ==> (Contains(Merged(a), x) <==> Contains(a, x) || Contains(b, x))
  {
    BuddyBehind(a, b);
    MergedIsValid(a);
    forall x | 0 <= x < SPACE ensures Contains(Merged(a), x) <==> Contains(a, x) || Contains(b, x) {
      hide Aligned, Mask;
      ContainsIsBlock(a, x);
      ContainsIsBlock(b, x);
      ContainsIsBlock(Merged(a), x);
      assert Pow2(a.order + 1) == 2 * Pow2(a.order);
    }
  }

  lemma BuddyBehind(a: Region, b: Region)
    requires Valid(a) && Valid(b) && Mergeable(a, b) && a.base < b.base
    ensures b.base == a.base + Pow2(a.order) && a.order < XLEN
  {
    SpaceIsPow2();
    if a.order == XLEN {
      WholeSpace(a.base, XLEN);
      WholeSpace(b.base, XLEN);
    } else {
      BlockInside(a.base, a.order, XLEN);
      hide Pow2;
      MaskIs(a.order);
      BuddySum(a.base, Pow2(a.order), b.base);
    }
  }

  lemma BuddySum(a: nat, p: nat, b: nat)
    requires a + p <= SPACE && (a + p) % SPACE == b && a < b
    ensures b == a + p
  {
    assert SPACE % SPACE == 0;
  }

  lemma MergedIsValid(a: Region)
    requires Valid(a) && Aligned(a.base, (a.order + 1) % XLEN) && a.order < XLEN && a.base + Pow2(a.order) < SPACE
    ensures Valid(Merged(a))
  {
    if a.order == XLEN - 1 {
      SpaceIsPow2();
      BelowHalf(a.base, a.order);
    }
  }

  lemma BelowHalf(x: nat, n: nat)
    requires Aligned(x, n) && x + Pow2(n) < Pow2(n + 1)
    ensures x == 0
  {
    WholeSpace(x, n);
  }

  /** Merging two buddies changes no decision, if the merged block was not in the list. */
  lemma MergeDecides(s: set<Region>, a: Region, b: Region, addr: nat, mode: Mode, acc: Access, ok: bool)
    requires a in s && b in s && Mergeable(a, b) && a.base < b.base && addr < SPACE
    requires forall r :: r in s ==> Valid(r) && !SameKey(r, Merged(a))
    requires Decides(s, addr, mode, acc, ok)
    ensures Decides(s - {a, b} + {Merged(a)}, addr, mode, acc, ok)
  {
    var t := s - {a, b} + {Merged(a)};
    MergedMatches(a, b, addr, mode);
    if exists r :: Smallest(s, r, addr, mode) && ok == Grants(r.flags, acc) {
      var r :| Smallest(s, r, addr, mode) && ok == Grants(r.flags, acc);
      if r == a || r == b {
        MergedSmallest(s, a, b, r, addr, mode);
        assert Grants(Merged(a).flags, acc) == ok;
      } else {
        OtherSmallest(s, a, b, r, addr, mode);
      }
    }
  }

  lemma MergedMatches(a: Region, b: Region, addr: nat, mode: Mode)
    requires Valid(a) && Valid(b) && Mergeable(a, b) && a.base < b.base && addr < SPACE
    ensures Matches(Merged(a), addr, mode) <==> Matches(a, addr, mode) || Matches(b, addr, mode)
    ensures Valid(Merged(a))
  {
    MergedIsUnion(a, b);
  }

  lemma MergedSmallest(s: set<Region>, a: Region, b: Region, r: Region, addr: nat, mode: Mode)
    requires a in s && b in s && a.order == b.order && (r == a || r == b) && Smallest(s, r, addr, mode) && addr < SPACE
    requires Valid(Merged(a)) && Matches(Merged(a), addr, mode)
    requires forall q :: q in s ==> Valid(q) && !SameKey(q, Merged(a))
    ensures Smallest(s - {a, b} + {Merged(a)}, Merged(a), addr, mode)
  {
    forall q | q in s - {a, b} && Matches(q, addr, mode) ensures Merged(a).order < q.order {
      if q.order == Merged(a).order {
        SameSizeSameBlock(q, Merged(a), addr);
      }
    }
  }

  lemma OtherSmallest(s: set<Region>, a: Region, b: Region, r: Region, addr: nat, mode: Mode)
    requires a in s && b in s && a.order == b.order && r != a && r != b && Smallest(s, r, addr, mode)
    requires Matches(Merged(a), addr, mode) ==> Matches(a, addr, mode) || Matches(b, addr, mode)
    ensures Smallest(s - {a, b} + {Merged(a)}, r, addr, mode)
  {
  }

  // ---- Lists in which merging is safe ----

  /** The block is a region of the set with these flags, or two buddies that are. */
  predicate Tiled(s: set<Region>, base: nat, order: nat, f: Flags)
    decreases order
  {
    Region(base, order, f) in s || Halved(s, base, order, f)
  }

  predicate Halved(s: set<Region>, base: nat, order: nat, f: Flags)
    decreases order, 0
  {
    order > 0 && Tiled(s, base, order - 1, f) && Tiled(s, base + Pow2(order - 1), order - 1, f)
  }

  /** No block that is put together from smaller regions is listed itself. */
  ghost predicate Unambiguous(s: set<Region>) {
    forall r, f :: r in s ==> !Halved(s, r.base, r.order, f)
  }

  ghost predicate OneEach(s: set<Region>) {
    forall r, q :: r in s && q in s && SameKey(r, q) ==> r == q
  }

  ghost predicate Good(s: set<Region>) {
    (forall r :: r in s ==> Valid(r)) && OneEach(s) && Unambiguous(s)
  }

  /** So none is put together in two ways. */
  lemma {:induction false} TiledOnce(s: set<Region>, base: nat, order: nat, f: Flags, g: Flags)
    requires OneEach(s) && Unambiguous(s) && Tiled(s, base, order, f) && Tiled(s, base, order, g)
    ensures f == g
    decreases order
  {
    var x, y := Region(base, order, f), Region(base, order, g);
    assert x in s ==> !Halved(s, x.base, x.order, g);
    assert y in s ==> !Halved(s, y.base, y.order, f);
    if x !in s && y !in s {
      TiledOnce(s, base, order - 1, f, g);
    }
  }

  /** What is tiled after a merge was tiled before. */
  lemma {:induction false} TiledBefore(s: set<Region>, a: Region, b: Region, base: nat, order: nat, f: Flags)
    requires a in s && b in s && b == a.(base := a.base + Pow2(a.order))
    ensures Tiled(s - {a, b} + {Merged(a)}, base, order, f) ==> Tiled(s, base, order, f)
    ensures Halved(s - {a, b} + {Merged(a)}, base, order, f) ==> Halved(s, base, order, f)
    decreases order
  {
    var u := s - {a, b} + {Merged(a)};
    if order > 0 {
      TiledBefore(s, a, b, base, order - 1, f);
      TiledBefore(s, a, b, base + Pow2(order - 1), order - 1, f);
    }
    assert Halved(u, base, order, f) ==> Halved(s, base, order, f);
    if Region(base, order, f) == Merged(a) {
      BuddiesHalve(s, a, b);
      assert base == a.base && order == a.order + 1 && f == a.flags;
    } else if Tiled(u, base, order, f) {
      assert Region(base, order, f) in u || Halved(u, base, order, f);
    }
  }

  /** The merged block was not in the set. */
  lemma MergedIsNew(s: set<Region>, a: Region, b: Region)
    requires Unambiguous(s) && a in s && b in s && b == a.(base := a.base + Pow2(a.order))
    ensures forall r :: r in s ==> !SameKey(r, Merged(a))
  {
    BuddiesHalve(s, a, b);
  }

  lemma BuddiesHalve(s: set<Region>, a: Region, b: Region)
    requires a in s && b in s && b == a.(base := a.base + Pow2(a.order))
    ensures Halved(s, a.base, a.order + 1, a.flags)
  {
    assert a == Region(a.base, a.order, a.flags) && b == Region(a.base + Pow2(a.order), a.order, a.flags);
    assert Tiled(s, a.base, a.order, a.flags) && Tiled(s, a.base + Pow2(a.order), a.order, a.flags);
  }

  /** ... and is not tiled by anything else afterwards. */
  lemma MergedNotHalved(s: set<Region>, a: Region, b: Region, f: Flags)
    requires Good(s) && a in s && b in s && b == a.(base := a.base + Pow2(a.order))
    ensures !Halved(s - {a, b} + {Merged(a)}, a.base, a.order + 1, f)
  {
    var t := s - {a, b} + {Merged(a)};
    TiledBefore(s, a, b, a.base, a.order, f);
    assert !Halved(s, a.base, a.order, f);
    assert Region(a.base, a.order, f) in s ==> Region(a.base, a.order, f) == a;
  }

  lemma MergeGood(s: set<Region>, a: Region, b: Region)
    requires Good(s) && a in s && b in s && b == a.(base := a.base + Pow2(a.order)) && Valid(Merged(a))
    ensures Good(s - {a, b} + {Merged(a)})
  {
    var t := s - {a, b} + {Merged(a)};
    MergedIsNew(s, a, b);
    forall r, f | r in t ensures !Halved(t, r.base, r.order, f) {
      TiledBefore(s, a, b, r.base, r.order, f);
      if r == Merged(a) {
        MergedNotHalved(s, a, b, f);
      }
    }
  }

  /** Whatever one set decides, the other does. */
  ghost predicate SameDecisions(s: set<Region>, t: set<Region>) {
    forall addr: nat, mode: Mode, acc: Access, ok: bool ::
      addr < SPACE && Decides(s, addr, mode, acc, ok) ==> Decides(t, addr, mode, acc, ok)
  }

  // ---- The merge loop ----

  /** The list with the merged region in place of its two halves. */
  function MergeAt(rs: seq<Region>, k: nat): (r: seq<Region>)
    requires k + 1 < |rs|
    ensures |r| == |rs| - 1
  {
    rs[..k] + [Merged(rs[k])] + rs[k + 2..]
  }

  /** The rest of the list is in order. */
  predicate SortedBehind(rs: seq<Region>, k: nat) {
    forall i, j :: k <= i < j < |rs| ==> !IsBefore(rs[j], rs[i])
  }

  lemma SetOfMergeAt(rs: seq<Region>, k: nat)
    requires k + 1 < |rs| && Distinct(rs)
    ensures SetOf(MergeAt(rs, k)) == SetOf(rs) - {rs[k], rs[k + 1]} + {Merged(rs[k])}
  {
    var ms := MergeAt(rs, k);
    forall r | r in SetOf(ms) ensures r in SetOf(rs) - {rs[k], rs[k + 1]} + {Merged(rs[k])} {
      var i :| 0 <= i < |ms| && ms[i] == r;
      if i != k {
        assert r == rs[if i < k then i else i + 1];
      }
    }
    forall r | r in SetOf(rs) - {rs[k], rs[k + 1]} ensures r in SetOf(ms) {
      var i :| 0 <= i < |rs| && rs[i] == r;
      assert ms[if i < k then i else i - 1] == r;
    }
    assert ms[k] == Merged(rs[k]);
  }

  lemma DistinctMergeAt(rs: seq<Region>, k: nat)
    requires k + 1 < |rs| && Distinct(rs) && forall r :: r in rs ==> !SameKey(r, Merged(rs[k]))
    ensures Distinct(MergeAt(rs, k))
  {
    var ms := MergeAt(rs, k);
    forall i, j | 0 <= i < j < |ms| ensures !SameKey(ms[i], ms[j]) {
      if i != k {
        assert ms[i] == rs[if i < k then i else i + 1] && ms[i] in rs;
      }
      if j != k {
        assert ms[j] == rs[if j < k then j else j + 1] && ms[j] in rs;
      }
    }
  }

  /** One merge: the list stays good, and no decision changes. */
  lemma OneMerge(rs: seq<Region>, k: nat)
    requires k + 1 < |rs| && Distinct(rs) && Good(SetOf(rs)) && SortedBehind(rs, k) && Mergeable(rs[k], rs[k + 1])
    ensures Distinct(MergeAt(rs, k)) && Good(SetOf(MergeAt(rs, k))) && SortedBehind(MergeAt(rs, k), k + 1)
    ensures SameDecisions(SetOf(rs), SetOf(MergeAt(rs, k)))
  {
    var s, a, b := SetOf(rs), rs[k], rs[k + 1];
    assert a in s && b in s && !SameKey(a, b) && !IsBefore(b, a);
    MergedIsUnion(a, b);
    MergedIsNew(s, a, b);
    MergeGood(s, a, b);
    SetOfMergeAt(rs, k);
    forall r | r in rs ensures !SameKey(r, Merged(a)) {
      assert r in s;
    }
    DistinctMergeAt(rs, k);
    forall addr: nat, mode: Mode, acc: Access, ok: bool | addr < SPACE && Decides(s, addr, mode, acc, ok)
      ensures Decides(SetOf(MergeAt(rs, k)), addr, mode, acc, ok)
    {
      MergeDecides(s, a, b, addr, mode, acc, ok);
    }
  }

  /** A merge brings no conflict: the merged region has the base and the flags of its first half. */
  lemma PeacefulMergeAt(rs: seq<Region>, k: nat)
    requires k + 1 < |rs| && Peaceful(rs) && AllValid(rs) && Valid(Merged(rs[k])) && rs[k].order < XLEN
    ensures Peaceful(MergeAt(rs, k))
  {
    hide IsConflict;
    var ms := MergeAt(rs, k);
    forall i, j | 0 <= i < j < |ms| ensures !IsConflict(ms[j], ms[i]) {
      var p, q := if i <= k then i else i + 1, if j <= k then j else j + 1;
      assert (i != k ==> ms[i] == rs[p]) && (j != k ==> ms[j] == rs[q]);
      assert !IsConflict(rs[q], rs[p]);
      ConflictMeans(rs[q], rs[p]);
      ConflictMeans(ms[j], ms[i]);
    }
  }

  lemma MergeableOrder(rs: seq<Region>, k: nat)
    requires k + 1 < |rs| && Distinct(rs) && AllValid(rs) && SortedBehind(rs, k) && Mergeable(rs[k], rs[k + 1])
    ensures Valid(Merged(rs[k])) && rs[k].order < XLEN
  {
    assert !SameKey(rs[k], rs[k + 1]) && !IsBefore(rs[k + 1], rs[k]);
    MergedIsUnion(rs[k], rs[k + 1]);
  }

  /** None of the first `k` regions merges with its successor. */
  predicate NoneMergeable(rs: seq<Region>, k: nat) {
    forall i :: 0 <= i < k && i + 1 < |rs| ==> !Mergeable(rs[i], rs[i + 1])
  }

  /** What the loop of `sbi_domain_root_add_memregion` over the sorted regions leaves of a list, from region `k` on. */
  function MergeScan(rs: seq<Region>, k: nat): (r: seq<Region>)
    ensures |r| <= |rs| && (rs != [] ==> r != []) && (|r| == |rs| ==> r == rs)
    decreases |rs| - k
  {
    if k + 1 >= |rs| then rs
    else MergeScan(if Mergeable(rs[k], rs[k + 1]) then MergeAt(rs, k) else rs, k + 1)
  }

  /** On a good list, the pass keeps the list good, changes no decision, brings no conflict, and stops only when nothing
      is left to merge. */
  lemma {:induction false} ScanGood(rs: seq<Region>, k: nat)
    requires Distinct(rs) && Good(SetOf(rs)) && SortedBehind(rs, k)
    ensures var t := MergeScan(rs, k);
            && Distinct(t) && Good(SetOf(t)) && SameDecisions(SetOf(rs), SetOf(t)) && (Peaceful(rs) ==> Peaceful(t))
            && (|t| == |rs| ==> forall i :: k <= i && i + 1 < |rs| ==> !Mergeable(rs[i], rs[i + 1]))
    decreases |rs| - k
  {
    hide IsConflict, Peaceful, Good;
    if k + 1 < |rs| {
      if Mergeable(rs[k], rs[k + 1]) {
        GoodIsValid(rs);
        OneMerge(rs, k);
        if Peaceful(rs) {
          MergeableOrder(rs, k);
          PeacefulMergeAt(rs, k);
        }
        ScanGood(MergeAt(rs, k), k + 1);
      } else {
        ScanGood(rs, k + 1);
      }
    }
  }

  /** No region is the end of the list. */
  predicate Filled(rs: seq<Region>) {
    forall i :: 0 <= i < |rs| ==> rs[i].order != 0
  }

  /** `while (nreg1->order)`: the regions behind number `j`, and the end of the list, move down by one. */
  method CloseGap(regions: array<Region>, j: nat, count: nat)
    requires j < count < regions.Length && regions[count].order == 0
    requires forall i :: 0 <= i < count ==> regions[i].order != 0
    modifies regions
    ensures regions[..count] == old(regions[..j]) + old(regions[j + 1..count + 1])
  {
    var i := j;
    while regions[i].order != 0
      invariant j <= i <= count
      invariant regions[..i] == old(regions[..j]) + old(regions[j + 1..i + 1])
      invariant forall m :: i <= m <= count ==> regions[m] == old(regions[m])
      decreases count - i
    {
      regions[i] := regions[i + 1];
      i := i + 1;
    }
  }

  /** One merge in place. */
  method MergeNext(regions: array<Region>, k: nat, count: nat) returns (n: nat)
    requires k + 1 < count < regions.Length && regions[count].order == 0 && Filled(regions[..count])
    modifies regions
    ensures n == count - 1 && regions[n].order == 0
    ensures regions[..n] == MergeAt(old(regions[..count]), k) && Filled(regions[..n])
  {
    ghost var rs := regions[..count];
    forall i | 0 <= i < count ensures regions[i].order != 0 {
      assert regions[i] == rs[i];
    }
    regions[k] := Merged(regions[k]);
    CloseGap(regions, k + 1, count);
    n := count - 1;
    assert regions[..n] == MergeAt(rs, k);
  }

  /** The loop of `sbi_domain_root_add_memregion` over the sorted regions, which merges neighbours in place. */
  method MergePass(regions: array<Region>, count: nat) returns (merged: bool, n: nat)
    requires count < regions.Length && regions[count].order == 0 && Filled(regions[..count])
    modifies regions
    ensures n <= count && regions[..n] == MergeScan(old(regions[..count]), 0)
    ensures regions[n].order == 0 && Filled(regions[..n]) && (merged <==> n < count)
  {
    merged, n := false, count;
    var k := 0;
    while regions[k].order != 0
      invariant 0 <= k <= n <= count && regions[n].order == 0 && Filled(regions[..n]) && (merged <==> n < count)
      invariant MergeScan(regions[..n], k) == MergeScan(old(regions[..count]), 0)
      decreases n - k
    {
      assert k < n;
      assert k + 1 < n ==> regions[k + 1] == regions[..n][k + 1];
      if regions[k + 1].order != 0 && Mergeable(regions[k], regions[k + 1]) {
        n := MergeNext(regions, k, n);
        merged := true;
      }
      k := k + 1;
    }
  }

  lemma SameElements(rs: seq<Region>, s: seq<Region>)
    requires multiset(rs) == multiset(s)
    ensures SetOf(rs) == SetOf(s) && |rs| == |s|
    ensures Distinct(rs) && OneEach(SetOf(rs)) ==> Distinct(s)
  {
    assert |multiset(rs)| == |rs| && |multiset(s)| == |s|;
    forall r ensures r in rs <==> r in s {
      assert r in multiset(rs) <==> r in multiset(s);
    }
    if Distinct(rs) && OneEach(SetOf(rs)) {
      forall i, j | 0 <= i < j < |s| ensures !SameKey(s[i], s[j]) {
        assert s[i] in SetOf(rs) && s[j] in SetOf(rs);
        if s[i] == s[j] {
          NoTwice(rs, s[i]);
          TwiceInMultiset(s, i, j);
        }
      }
    }
  }

  /** Two sorted lists, the second made from the first without changing a decision: what the check answers on the
      second is what the first decides. */
  lemma FinalDecides(first: seq<Region>, last: seq<Region>, addr: nat, mode: Mode, acc: Access)
    requires Sorted(first) && Distinct(first) && AllValid(first) && Sorted(last) && Distinct(last) && AllValid(last)
    requires SameDecisions(SetOf(first), SetOf(last)) && addr < SPACE
    ensures Decides(SetOf(first), addr, mode, acc, CheckFrom(last, 0, addr, mode, acc))
  {
    SortedDecides(first, addr, mode, acc);
    SortedDecides(last, addr, mode, acc);
    DecisionUnique(SetOf(last), addr, mode, acc, CheckFrom(first, 0, addr, mode, acc), CheckFrom(last, 0, addr, mode, acc));
  }

  lemma GoodIsValid(rs: seq<Region>)
    requires Good(SetOf(rs))
    ensures AllValid(rs)
  {
    forall i | 0 <= i < |rs| ensures Valid(rs[i]) {
      assert rs[i] in SetOf(rs);
    }
  }

  // ---- Sorting and merging ----

  /** What `sanitize_domain` makes of the regions of a domain; None if one is not valid or a conflict is met. */
  function Sanitized(rs: seq<Region>): (r: Option<seq<Region>>)
    ensures r.Some? ==> |r.value| == |rs|
  {
    if AllValid(rs) then SortFrom(rs, 0) else None
  }

  /** `sbi_domain_root_add_memregion` from the appended region on: sorting and merging until nothing merges. The list
      is the one that it fails on, if it fails. */
  function Optimized(rs: seq<Region>): (r: (bool, seq<Region>))
    ensures |r.1| <= |rs| && (rs != [] ==> r.1 != [])
    decreases |rs|
  {
    match Sanitized(rs)
    case None => (false, rs)
    case Some(s) =>
      var t := MergeScan(s, 0);
      if |t| < |s| then Optimized(t) else (true, t)
  }

  /** `sanitize_domain` in place. */
  method Sanitize(regions: array<Region>, count: nat) returns (ok: bool)
    requires 1 <= count < regions.Length
    modifies regions
    ensures ok <==> Sanitized(old(regions[..count])).Some?
    ensures ok ==> regions[..count] == Sanitized(old(regions[..count])).value
    ensures multiset(regions[..count]) == multiset(old(regions[..count])) && regions[count..] == old(regions[count..])
  {
    hide IsConflict, SortFrom;
    ghost var rs := regions[..count];
    var i := 0;
    while i < count
      invariant 0 <= i <= count && forall k :: 0 <= k < i ==> Valid(rs[k])
    {
      if !Valid(regions[i]) {
        assert !Valid(rs[i]);
        return false;
      }
      i := i + 1;
    }
    ok := Sort(regions, count);
  }

  lemma SameFilled(rs: seq<Region>, s: seq<Region>)
    requires multiset(rs) == multiset(s) && Filled(rs)
    ensures Filled(s)
  {
    forall i | 0 <= i < |s| ensures s[i].order != 0 {
      assert s[i] in multiset(s);
      assert s[i] in rs;
    }
  }

  /** `sbi_domain_root_add_memregion` in place, whatever the list. */
  method Optimize(regions: array<Region>, count: nat) returns (ok: bool, n: nat)
    requires 1 <= count < regions.Length && regions[count].order == 0 && Filled(regions[..count])
    modifies regions
    ensures 1 <= n <= count && regions[n].order == 0
    ensures ok == Optimized(old(regions[..count])).0 && multiset(regions[..n]) == multiset(Optimized(old(regions[..count])).1)
    ensures ok ==> regions[..n] == Optimized(old(regions[..count])).1
  {
    hide Sanitized, MergeScan, AllValid;
    n := count;
    ghost var rs := regions[..n];
    var merged := true;
    while merged
      invariant 1 <= n <= count && regions[n].order == 0 && Filled(regions[..n])
      invariant merged ==> Optimized(regions[..n]) == Optimized(rs)
      invariant !merged ==> Optimized(rs) == (true, regions[..n])
      decreases n, merged
    {
      ghost var was := regions[..n];
      ok := Sanitize(regions, n);
      assert regions[n] == regions[n..][0];
      if !ok {
        return;
      }
      SameFilled(was, regions[..n]);
      ghost var s := regions[..n];
      merged, n := MergePass(regions, n);
    }
    ok := true;
  }

  /** On a good list: it succeeds when no two regions conflict; when it does, what the check then answers for every
      address, mode and access is what the list as given decides, and nothing is left to merge. When it fails, the
      regions that are left decide the same, though not in order. */
  lemma {:induction false} OptimizedGood(rs: seq<Region>)
    requires Distinct(rs) && Good(SetOf(rs))
    ensures var (ok, t) := Optimized(rs);
            && Distinct(t) && SameDecisions(SetOf(rs), SetOf(t)) && (Peaceful(rs) ==> ok)
            && (ok ==> Sorted(t) && AllValid(t) && NoneMergeable(t, |t|))
            && (ok ==> forall addr: nat, mode: Mode, acc: Access :: addr < SPACE ==>
                  Decides(SetOf(rs), addr, mode, acc, CheckFrom(t, 0, addr, mode, acc)))
    decreases |rs|
  {
    hide IsConflict, Peaceful, Good, SortFrom, MergeScan, Decides, CheckFrom;
    GoodIsValid(rs);
    if Peaceful(rs) {
      PeacefulSorts(rs, 0);
    }
    if SortFrom(rs, 0).Some? {
      var s := SortFrom(rs, 0).value;
      SortSorts(rs, 0);
      GoodSort(rs, s);
      ScanGood(s, 0);
      var t := MergeScan(s, 0);
      if |t| < |s| {
        OptimizedGood(t);
      }
      var last := Optimized(rs);
      GoodIsValid(s);
      if last.0 {
        GoodIsValid(t);
        forall addr: nat, mode: Mode, acc: Access | addr < SPACE
          ensures Decides(SetOf(rs), addr, mode, acc, CheckFrom(last.1, 0, addr, mode, acc))
        {
          FinalDecides(s, last.1, addr, mode, acc);
        }
      }
    }
  }

  lemma GoodSort(rs: seq<Region>, s: seq<Region>)
    requires Distinct(rs) && Good(SetOf(rs)) && multiset(rs) == multiset(s)
    ensures SetOf(s) == SetOf(rs) && Distinct(s) && SameDecisions(SetOf(rs), SetOf(s))
  {
    SameElements(rs, s);
  }

  // ---- A list that is not good ----

  /** Two blocks of order 3 make up one of order 4, which is listed itself with other flags and has a buddy that is
      listed with theirs. */
  function Stacked(f: Flags, g: Flags): seq<Region> {
    [Region(16, 3, f), Region(24, 3, f), Region(0, 4, f), Region(16, 4, g)]
  }

  /** Merging them twice brings a block of order 5 that the one with the other flags comes in front of. */
  lemma StackedOptimized(f: Flags, g: Flags)
    requires f != g
    ensures Distinct(Stacked(f, g)) && AllValid(Stacked(f, g)) && Peaceful(Stacked(f, g))
    ensures Optimized(Stacked(f, g)) == (true, [Region(16, 4, g), Region(0, 5, f)])
  {
    SmallBlocks();
    FirstMerge(f, g);
    SecondMerge(f, g);
    LastSort(f, g);
    var b, x, q, n := Region(16, 4, f), Region(0, 4, f), Region(16, 4, g), Region(0, 5, f);
    hide Sanitized, MergeScan;
    assert Optimized([n, q]) == (true, [q, n]);
    assert Optimized([b, x, q]) == Optimized([n, q]);
    assert Optimized(Stacked(f, g)) == Optimized([b, x, q]);
  }

  /** The blocks that occur, and where the powers of two are. */
  lemma SmallBlocks()
    ensures Mask(3) == Pow2(3) == 8 && Mask(4) == Pow2(4) == 16 && Mask(5) == Pow2(5) == 32
    ensures Aligned(0, 4) && Aligned(0, 5) && Aligned(16, 3) && Aligned(24, 3) && Aligned(16, 4) && !Aligned(24, 4) && !Aligned(16, 5)
  {
    MaskIs(3);
    MaskIs(4);
    MaskIs(5);
    assert Pow2(3) == 8 by { assert Pow2(2) == 4 by { assert Pow2(1) == 2; } }
    assert Floor(8, 3) == 8 by { assert Floor(2, 1) == 2; }
  }

  lemma FirstMerge(f: Flags, g: Flags)
    requires f != g
    ensures Distinct(Stacked(f, g)) && AllValid(Stacked(f, g)) && Peaceful(Stacked(f, g))
    ensures Sanitized(Stacked(f, g)) == Some(Stacked(f, g))
    ensures MergeScan(Stacked(f, g), 0) == [Region(16, 4, f), Region(0, 4, f), Region(16, 4, g)]
  {
    var rs, b, x, q := Stacked(f, g), Region(16, 4, f), Region(0, 4, f), Region(16, 4, g);
    SmallBlocks();
    forall i, j | 0 <= i < j < 4 ensures !IsConflict(rs[j], rs[i]) {
      ConflictMeans(rs[j], rs[i]);
    }
    SortedExact(rs, 0);
    assert MergeAt(rs, 0) == [b, x, q];
    assert MergeScan(rs, 0) == MergeScan([b, x, q], 1) == MergeScan([b, x, q], 2) == [b, x, q];
  }

  lemma SecondMerge(f: Flags, g: Flags)
    requires f != g
    ensures var b, x, q := Region(16, 4, f), Region(0, 4, f), Region(16, 4, g);
            Sanitized([b, x, q]) == Some([x, b, q]) && MergeScan([x, b, q], 0) == [Region(0, 5, f), q]
  {
    var b, x, q, n := Region(16, 4, f), Region(0, 4, f), Region(16, 4, g), Region(0, 5, f);
    SmallBlocks();
    ConflictMeans(x, b);
    ConflictMeans(q, x);
    ConflictMeans(q, b);
    assert Swapped([b, x, q], 0, 1) == [x, b, q];
    assert Inner([b, x, q], 0, 1) == Inner([x, b, q], 0, 2) == Inner([x, b, q], 0, 3) == Some([x, b, q]);
    assert Inner([x, b, q], 1, 2) == Inner([x, b, q], 1, 3) == Some([x, b, q]);
    assert SortFrom([b, x, q], 0) == SortFrom([x, b, q], 1) == SortFrom([x, b, q], 2) == Some([x, b, q]);
    assert MergeAt([x, b, q], 0) == [n, q];
    assert MergeScan([x, b, q], 0) == MergeScan([n, q], 1) == [n, q];
  }

  lemma LastSort(f: Flags, g: Flags)
    requires f != g
    ensures var q, n := Region(16, 4, g), Region(0, 5, f);
            Sanitized([n, q]) == Some([q, n]) && MergeScan([q, n], 0) == [q, n]
  {
    var q, n := Region(16, 4, g), Region(0, 5, f);
    SmallBlocks();
    ConflictMeans(q, n);
    assert Swapped([n, q], 0, 1) == [q, n];
    assert Inner([n, q], 0, 1) == Inner([q, n], 0, 2) == Some([q, n]);
    assert SortFrom([n, q], 0) == SortFrom([q, n], 1) == Some([q, n]);
    assert MergeScan([q, n], 0) == MergeScan([q, n], 1) == [q, n];
  }

  /** So a list that is not good can be optimized into one that decides otherwise: here a byte may be read before and
      not after. */
  lemma ListedBlockChanges()
    ensures var f, g := Flags(true, false, false, false, false, 0), Flags(false, false, false, false, false, 0);
            var a := Access(true, false, false, false);
            && Distinct(Stacked(f, g)) && AllValid(Stacked(f, g)) && Peaceful(Stacked(f, g)) && Optimized(Stacked(f, g)).0
            && Decides(SetOf(Stacked(f, g)), 20, S, a, true) && !CheckFrom(Optimized(Stacked(f, g)).1, 0, 20, S, a)
  {
    var f, g := Flags(true, false, false, false, false, 0), Flags(false, false, false, false, false, 0);
    var a := Access(true, false, false, false);
    var rs, q := Stacked(f, g), Region(16, 4, g);
    StackedOptimized(f, g);
    SmallBlocks();
    ContainsIsBlock(rs[0], 20);
    ContainsIsBlock(q, 20);
    assert Sorted(rs);
    SortedDecides(rs, 20, S, a);
    assert CheckFrom(rs, 0, 20, S, a);
  }
}
