/**
 When the exchange sort of `sanitize_domain` meets a conflict: on a sorted list exactly when two regions conflict,
 on lists in any order certainly when two neighbours in the sorted order do, and in the descending order only then.
 */
module DomainConflict {
  import opened Options
  import opened Domain
  import opened DomainSort

  /** No two regions of the list conflict. */
  ghost predicate Peaceful(rs: seq<Region>) {
    forall a, b :: 0 <= a < b < |rs| ==> !IsConflict(rs[b], rs[a])
  }

  lemma ConflictSymmetric(a: Region, b: Region)
    ensures IsConflict(a, b) == IsConflict(b, a)
  {
    hide IsSubset;
  }

  // ---- Sorted lists ----

  lemma {:induction false} SortedInner(rs: seq<Region>, i: nat, j: nat)
    requires Sorted(rs) && i < j <= |rs|
    ensures Inner(rs, i, j).None? <==> exists k :: j <= k < |rs| && IsConflict(rs[k], rs[i])
    ensures Inner(rs, i, j).Some? ==> Inner(rs, i, j).value == rs
    decreases |rs| - j
  {
    hide IsConflict;
    if j < |rs| {
      SortedInner(rs, i, j + 1);
    }
  }

  /** On a sorted list every conflict is found. */
  lemma {:induction false} SortedExact(rs: seq<Region>, i: nat)
    requires Sorted(rs)
    ensures SortFrom(rs, i).None? <==> exists a, b :: i <= a < b < |rs| && IsConflict(rs[b], rs[a])
    ensures SortFrom(rs, i).Some? ==> SortFrom(rs, i).value == rs
    decreases |rs| - i
  {
    hide IsConflict;
    if i + 1 < |rs| {
      SortedInner(rs, i, i + 1);
      SortedExact(rs, i + 1);
    }
  }

  // ---- Lists without conflicts ----

  lemma SwapPeaceful(rs: seq<Region>, i: nat, j: nat)
    requires i < j < |rs| && Peaceful(rs)
    ensures Peaceful(Swapped(rs, i, j))
  {
    hide IsConflict;
    var s := Swapped(rs, i, j);
    forall a, b | 0 <= a < b < |s| ensures !IsConflict(s[b], s[a]) {
      var p, q := if a == i then j else if a == j then i else a, if b == i then j else if b == j then i else b;
      assert s[a] == rs[p] && s[b] == rs[q];
      ConflictSymmetric(rs[p], rs[q]);
    }
  }

  lemma {:induction false} InnerPeaceful(rs: seq<Region>, i: nat, j: nat)
    requires i < j <= |rs| && Peaceful(rs)
    ensures Inner(rs, i, j).Some? && Peaceful(Inner(rs, i, j).value)
    decreases |rs| - j
  {
    hide IsConflict;
    if j < |rs| {
      if IsBefore(rs[j], rs[i]) {
        SwapPeaceful(rs, i, j);
        InnerPeaceful(Swapped(rs, i, j), i, j + 1);
      } else {
        InnerPeaceful(rs, i, j + 1);
      }
    }
  }

  /** A list without conflicts is sorted. */
  lemma {:induction false} PeacefulSorts(rs: seq<Region>, i: nat)
    requires Peaceful(rs)
    ensures SortFrom(rs, i).Some? && Peaceful(SortFrom(rs, i).value)
    decreases |rs| - i
  {
    hide IsConflict, Peaceful;
    if i + 1 < |rs| {
      InnerPeaceful(rs, i, i + 1);
      PeacefulSorts(Inner(rs, i, i + 1).value, i + 1);
    }
  }

  // ---- Lists in any order ----

  /** `x` and `y` conflict, and no region of the list from `i` on stands between them in the order. */
  ghost predicate Neighbours(rs: seq<Region>, i: nat, x: Region, y: Region)
    requires i <= |rs|
  {
    && x in rs[i..] && y in rs[i..] && IsBefore(x, y) && IsConflict(y, x)
    && forall k :: i <= k < |rs| ==> !(IsBefore(x, rs[k]) && IsBefore(rs[k], y))
  }

  /** `x` comes first of all, and `y` next. */
  ghost predicate FirstTwo(rs: seq<Region>, i: nat, x: Region, y: Region) {
    && IsBefore(x, y)
    && forall k :: i <= k < |rs| ==> rs[k] == x || rs[k] == y || IsBefore(y, rs[k])
  }

  /** The pass in which `x` comes to its place compares it with `y`: whichever of them is met first is the least
      region met until then. */
  lemma {:induction false} InnerFinds(rs: seq<Region>, i: nat, j: nat, x: Region, y: Region)
    requires i < j <= |rs| && FirstTwo(rs, i, x, y) && IsConflict(y, x)
    requires rs[i] == x || x in rs[j..]
    requires rs[i] == y || y in rs[j..]
    ensures Inner(rs, i, j) == None
    decreases |rs| - j
  {
    hide IsConflict;
    ConflictSymmetric(x, y);
    if j == |rs| {
      assert false;
    } else {
      var e := rs[j];
      assert rs[j..] == [e] + rs[j + 1..];
      if !IsConflict(e, rs[i]) {
        if IsBefore(e, rs[i]) {
          var s := Swapped(rs, i, j);
          assert s[j + 1..] == rs[j + 1..];
          InnerFinds(s, i, j + 1, x, y);
        } else {
          InnerFinds(rs, i, j + 1, x, y);
        }
      }
    }
  }

  /** A pass leaves the regions in front of it, and behind it the same regions. */
  lemma {:induction false} InnerKeeps(rs: seq<Region>, i: nat, j: nat)
    requires i < j <= |rs| && Inner(rs, i, j).Some?
    ensures var s := Inner(rs, i, j).value; s[..i] == rs[..i] && multiset(s[i..]) == multiset(rs[i..])
    decreases |rs| - j
  {
    hide IsConflict;
    if j < |rs| {
      if IsBefore(rs[j], rs[i]) {
        SwapBehind(rs, i, j);
        InnerKeeps(Swapped(rs, i, j), i, j + 1);
      } else {
        InnerKeeps(rs, i, j + 1);
      }
    }
  }

  lemma SwapBehind(rs: seq<Region>, i: nat, j: nat)
    requires i < j < |rs|
    ensures Swapped(rs, i, j)[..i] == rs[..i] && multiset(Swapped(rs, i, j)[i..]) == multiset(rs[i..])
  {
    assert Swapped(rs, i, j)[i..] == Swapped(rs[i..], 0, j - i);
    SwapMultiset(rs[i..], 0, j - i);
  }

  lemma SameMembers(s: seq<Region>, t: seq<Region>, x: Region)
    requires multiset(s) == multiset(t)
    ensures x in s <==> x in t
  {
    assert x in s <==> x in multiset(s);
    assert x in t <==> x in multiset(t);
  }

  /** No two regions of the list from `i` on have the same order and base. */
  ghost predicate DistinctFrom(rs: seq<Region>, i: nat) {
    forall a, b :: i <= a < b < |rs| ==> !SameKey(rs[a], rs[b])
  }

  lemma {:induction false} InnerDistinct(rs: seq<Region>, i: nat, j: nat)
    requires i < j <= |rs| && DistinctFrom(rs, i) && Inner(rs, i, j).Some?
    ensures DistinctFrom(Inner(rs, i, j).value, i)
    decreases |rs| - j
  {
    hide IsConflict;
    if j < |rs| {
      if IsBefore(rs[j], rs[i]) {
        InnerDistinct(Swapped(rs, i, j), i, j + 1);
      } else {
        InnerDistinct(rs, i, j + 1);
      }
    }
  }

  lemma {:induction false} InnerLeast(rs: seq<Region>, i: nat, j: nat)
    requires i < j <= |rs| && LeastTo(rs, i, j) && Inner(rs, i, j).Some?
    ensures LeastTo(Inner(rs, i, j).value, i, |rs|)
    decreases |rs| - j
  {
    hide IsConflict;
    if j < |rs| {
      if IsBefore(rs[j], rs[i]) {
        InnerLeast(Swapped(rs, i, j), i, j + 1);
      } else {
        InnerLeast(rs, i, j + 1);
      }
    }
  }

  /** A conflict between neighbours is found whatever the order of the list. */
  lemma {:induction false} NeighboursFound(rs: seq<Region>, i: nat, x: Region, y: Region)
    requires i <= |rs| && DistinctFrom(rs, i) && Neighbours(rs, i, x, y)
    ensures SortFrom(rs, i) == None
    decreases |rs| - i
  {
    hide IsConflict;
    var a :| i <= a < |rs| && rs[a] == x;
    var b :| i <= b < |rs| && rs[b] == y;
    assert i + 1 < |rs|;
    if forall k :: i <= k < |rs| ==> !IsBefore(rs[k], x) {
      forall k | i <= k < |rs| ensures rs[k] == x || rs[k] == y || IsBefore(y, rs[k]) {
        if k != a && k != b {
          assert !SameKey(rs[k], rs[a]) && !SameKey(rs[k], rs[b]);
        }
      }
      InPlace(rs, i, x);
      InPlace(rs, i, y);
      InnerFinds(rs, i, i + 1, x, y);
    } else if Inner(rs, i, i + 1).Some? {
      var s := Inner(rs, i, i + 1).value;
      InnerKeeps(rs, i, i + 1);
      InnerDistinct(rs, i, i + 1);
      InnerLeast(rs, i, i + 1);
      StillNeighbours(rs, s, i, x, y);
      NeighboursFound(s, i + 1, x, y);
    }
  }

  lemma InPlace(rs: seq<Region>, i: nat, x: Region)
    requires i < |rs| && x in rs[i..]
    ensures rs[i] == x || x in rs[i + 1..]
  {
    assert rs[i..] == [rs[i]] + rs[i + 1..];
  }

  lemma StillNeighbours(rs: seq<Region>, s: seq<Region>, i: nat, x: Region, y: Region)
    requires i < |rs| == |s| && Neighbours(rs, i, x, y) && multiset(s[i..]) == multiset(rs[i..]) && LeastTo(s, i, |s|)
    requires exists k :: i <= k < |rs| && IsBefore(rs[k], x)
    ensures Neighbours(s, i + 1, x, y)
  {
    hide IsConflict;
    var k :| i <= k < |rs| && IsBefore(rs[k], x);
    SameMembers(rs[i..], s[i..], x);
    SameMembers(rs[i..], s[i..], y);
    assert rs[k] == rs[i..][k - i];
    SameMembers(rs[i..], s[i..], rs[k]);
    var l :| 0 <= l < |s[i..]| && s[i..][l] == rs[k];
    assert s[i + l] == rs[k];
    assert !IsBefore(s[i + l], s[i]) || l == 0;
    InPlace(s, i, x);
    InPlace(s, i, y);
    forall m | i + 1 <= m < |s| ensures !(IsBefore(x, s[m]) && IsBefore(s[m], y)) {
      assert s[m] == s[i..][m - i];
      SameMembers(rs[i..], s[i..], s[m]);
      var n :| 0 <= n < |rs[i..]| && rs[i..][n] == s[m];
      assert rs[i + n] == s[m];
    }
  }

  // ---- The order in which only neighbours are compared ----

  ghost predicate Descending(rs: seq<Region>, i: nat) {
    forall a, b :: i <= a < b < |rs| ==> IsBefore(rs[b], rs[a])
  }

  /** `s` is `rs` after a pass over a descending list from `j` on: the last region comes in front, the others
      move up. */
  ghost predicate Rotated(s: seq<Region>, rs: seq<Region>, i: nat, j: nat) {
    && i < j <= |rs| == |s|
    && s[i] == (if j == |rs| then rs[i] else rs[|rs| - 1])
    && (j < |rs| ==> s[j] == rs[i])
    && (forall k :: i < k < j ==> s[k] == rs[k])
    && (forall k :: j < k < |rs| ==> s[k] == rs[k - 1])
  }

  lemma RotatedStep(s: seq<Region>, rs: seq<Region>, i: nat, j: nat)
    requires i < j < |rs| && Rotated(s, Swapped(rs, i, j), i, j + 1)
    ensures Rotated(s, rs, i, j)
  {
  }

  /** Two regions next to each other from `j` on conflict. */
  ghost predicate Touching(rs: seq<Region>, j: nat) {
    exists k :: j < k < |rs| && IsConflict(rs[k], rs[k - 1])
  }

  lemma {:induction false} DescendingInner(rs: seq<Region>, i: nat, j: nat)
    requires i < j <= |rs| && Descending(rs, j) && forall k :: j <= k < |rs| ==> IsBefore(rs[k], rs[i])
    ensures Inner(rs, i, j).None? <==> (j < |rs| && IsConflict(rs[j], rs[i])) || Touching(rs, j)
    ensures Inner(rs, i, j).Some? ==> Rotated(Inner(rs, i, j).value, rs, i, j)
    decreases |rs| - j
  {
    hide IsConflict;
    if j < |rs| && !IsConflict(rs[j], rs[i]) {
      var s := Swapped(rs, i, j);
      assert s[i] == rs[j] && forall k :: j < k < |rs| ==> s[k] == rs[k];
      DescendingInner(s, i, j + 1);
      SwappedTouching(rs, i, j);
      hide Rotated, Touching;
      if Inner(rs, i, j).Some? {
        RotatedStep(Inner(rs, i, j).value, rs, i, j);
      }
    }
  }

  lemma SwappedTouching(rs: seq<Region>, i: nat, j: nat)
    requires i < j < |rs|
    ensures var s := Swapped(rs, i, j);
            Touching(rs, j) <==> (j + 1 < |s| && IsConflict(s[j + 1], s[i])) || Touching(s, j + 1)
  {
    hide IsConflict;
    var s := Swapped(rs, i, j);
    assert s[i] == rs[j] && forall k :: j < k < |rs| ==> s[k] == rs[k];
    if k :| j < k < |rs| && IsConflict(rs[k], rs[k - 1]) {
      if k > j + 1 {
        assert IsConflict(s[k], s[k - 1]);
      }
    }
    if j + 1 < |s| && IsConflict(s[j + 1], s[i]) {
      assert IsConflict(rs[j + 1], rs[j + 1 - 1]);
    }
    if k :| j + 1 < k < |s| && IsConflict(s[k], s[k - 1]) {
      assert IsConflict(rs[k], rs[k - 1]);
    }
  }

  /** On a descending list exactly the conflicts of neighbours are found. */
  lemma {:induction false} DescendingExact(rs: seq<Region>, i: nat)
    requires Descending(rs, i)
    ensures SortFrom(rs, i).None? <==> Touching(rs, i)
    decreases |rs| - i
  {
    hide IsConflict;
    if i + 1 < |rs| {
      DescendingInner(rs, i, i + 1);
      if Inner(rs, i, i + 1).Some? {
        var s := Inner(rs, i, i + 1).value;
        assert forall k :: i < k < |rs| ==> s[k] == rs[k - 1];
        DescendingExact(s, i + 1);
        forall k | i + 1 < k < |s| ensures !IsConflict(s[k], s[k - 1]) {
          assert s[k] == rs[k - 1] && s[k - 1] == rs[k - 2];
          assert !IsConflict(rs[k - 1], rs[k - 1 - 1]);
        }
      } else if IsConflict(rs[i + 1], rs[i]) {
        assert IsConflict(rs[i + 1], rs[i + 1 - 1]);
      }
    }
  }

  // ---- All orders of a list ----

  ghost predicate Permutes(ps: seq<Region>, rs: seq<Region>) { multiset(ps) == multiset(rs) }

  /** Every list of distinct blocks has a descending order. */
  lemma {:induction false} DescendingOrder(rs: seq<Region>) returns (ps: seq<Region>)
    requires Distinct(rs)
    ensures Permutes(ps, rs) && Descending(ps, 0)
    decreases |rs|
  {
    if rs == [] {
      ps := [];
    } else {
      var m := Last(rs);
      var others := rs[..m] + rs[m + 1..];
      assert rs == rs[..m] + [rs[m]] + rs[m + 1..];
      var qs := DescendingOrder(others);
      ps := [rs[m]] + qs;
      forall b | 0 < b < |ps| ensures IsBefore(ps[b], ps[0]) {
        SameMembers(qs, others, qs[b - 1]);
        assert ps[b] in others;
        var k :| 0 <= k < |others| && others[k] == ps[b];
        assert others[k] == rs[if k < m then k else k + 1];
      }
    }
  }

  /** The place of the region that comes last in the order. */
  lemma {:induction false} Last(rs: seq<Region>) returns (m: nat)
    requires Distinct(rs) && rs != []
    ensures m < |rs| && forall k :: 0 <= k < |rs| && k != m ==> IsBefore(rs[k], rs[m])
    decreases |rs|
  {
    var n := |rs| - 1;
    m := n;
    if n > 0 {
      m := Last(rs[..n]);
      assert !SameKey(rs[m], rs[n]);
      if IsBefore(rs[m], rs[n]) {
        m := n;
      }
    }
  }

  /** A list of distinct blocks is refused in every order exactly when two neighbours in the sorted order
      conflict. */
  lemma RefusedInEveryOrder(rs: seq<Region>)
    requires Distinct(rs)
    ensures (forall ps :: Permutes(ps, rs) ==> SortFrom(ps, 0).None?) <==> exists x, y :: Neighbours(rs, 0, x, y)
  {
    hide IsConflict;
    if x, y :| Neighbours(rs, 0, x, y) {
      forall ps | Permutes(ps, rs) ensures SortFrom(ps, 0).None? {
        PermutedDistinct(ps, rs);
        PermutedNeighbours(ps, rs, x, y);
        NeighboursFound(ps, 0, x, y);
      }
    }
    var ds := DescendingOrder(rs);
    DescendingExact(ds, 0);
    if k :| 0 < k < |ds| && IsConflict(ds[k], ds[k - 1]) {
      ConflictSymmetric(ds[k], ds[k - 1]);
      assert ds[0..] == ds;
      assert Neighbours(ds, 0, ds[k], ds[k - 1]);
      PermutedNeighbours(rs, ds, ds[k], ds[k - 1]);
    }
  }

  /** It is refused in some order exactly when two of its regions conflict. */
  lemma RefusedInSomeOrder(rs: seq<Region>)
    requires Distinct(rs)
    ensures (exists ps :: Permutes(ps, rs) && SortFrom(ps, 0).None?) <==> !Peaceful(rs)
  {
    if ps :| Permutes(ps, rs) && SortFrom(ps, 0).None? {
      if Peaceful(rs) {
        PermutedPeaceful(ps, rs);
        PeacefulSorts(ps, 0);
      }
    }
    if !Peaceful(rs) {
      var ds := DescendingOrder(rs);
      var ps := Backwards(ds);
      if Peaceful(ps) {
        PermutedPeaceful(rs, ps);
      }
      SortedExact(ps, 0);
      assert Permutes(ps, rs);
    }
  }

  lemma PermutedDistinct(ps: seq<Region>, rs: seq<Region>)
    requires Permutes(ps, rs) && Distinct(rs)
    ensures DistinctFrom(ps, 0)
  {
    forall a, b | 0 <= a < b < |ps| ensures !SameKey(ps[a], ps[b]) {
      SameMembers(ps, rs, ps[a]);
      SameMembers(ps, rs, ps[b]);
      var c :| 0 <= c < |rs| && rs[c] == ps[a];
      var d :| 0 <= d < |rs| && rs[d] == ps[b];
      if c == d {
        TwiceInMultiset(ps, a, b);
        NoTwice(rs, ps[a]);
      }
    }
  }

  lemma PermutedNeighbours(ps: seq<Region>, rs: seq<Region>, x: Region, y: Region)
    requires Permutes(ps, rs) && Neighbours(rs, 0, x, y)
    ensures Neighbours(ps, 0, x, y)
  {
    assert ps[0..] == ps && rs[0..] == rs;
    SameMembers(ps, rs, x);
    SameMembers(ps, rs, y);
    forall k | 0 <= k < |ps| ensures !(IsBefore(x, ps[k]) && IsBefore(ps[k], y)) {
      SameMembers(ps, rs, ps[k]);
      var m :| 0 <= m < |rs| && rs[m] == ps[k];
    }
  }

  lemma PermutedPeaceful(ps: seq<Region>, rs: seq<Region>)
    requires Permutes(ps, rs) && Peaceful(rs) && Distinct(rs)
    ensures Peaceful(ps)
  {
    hide IsConflict;
    PermutedDistinct(ps, rs);
    forall a, b | 0 <= a < b < |ps| ensures !IsConflict(ps[b], ps[a]) {
      SameMembers(ps, rs, ps[a]);
      SameMembers(ps, rs, ps[b]);
      var c :| 0 <= c < |rs| && rs[c] == ps[a];
      var d :| 0 <= d < |rs| && rs[d] == ps[b];
      ConflictSymmetric(rs[c], rs[d]);
      assert c != d by { assert !SameKey(ps[a], ps[b]); }
    }
  }

  lemma {:induction false} Backwards(ds: seq<Region>) returns (ps: seq<Region>)
    requires Descending(ds, 0)
    ensures Permutes(ps, ds) && Sorted(ps) && Distinct(ps)
    decreases |ds|
  {
    if ds == [] {
      ps := [];
    } else {
      var qs := Backwards(ds[1..]);
      ps := qs + [ds[0]];
      assert ds == [ds[0]] + ds[1..];
      forall a | 0 <= a < |qs| ensures IsBefore(qs[a], ds[0]) {
        SameMembers(qs, ds[1..], qs[a]);
        var c :| 0 <= c < |ds[1..]| && ds[1..][c] == qs[a];
        assert ds[c + 1] == qs[a];
      }
    }
  }
}
