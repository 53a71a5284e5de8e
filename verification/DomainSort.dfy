/**
 The sorting of a domain's regions in `sanitize_domain`, lib/sbi/sbi_domain.c.
 */
module DomainSort {
  import opened Options
  import opened Blocks
  import opened Domain

  // ---- The exchange sort ----

  function Swapped(rs: seq<Region>, i: nat, j: nat): seq<Region>
    requires i < |rs| && j < |rs|
  {
    rs[i := rs[j]][j := rs[i]]
  }

  /** The inner loop from `j` on; None when it meets a conflict. */
  function Inner(rs: seq<Region>, i: nat, j: nat): (r: Option<seq<Region>>)
    requires i < j <= |rs|
    ensures r.Some? ==> |r.value| == |rs|
    decreases |rs| - j
  {
    if j == |rs| then Some(rs)
    else if IsConflict(rs[j], rs[i]) then None
    else if IsBefore(rs[j], rs[i]) then Inner(Swapped(rs, i, j), i, j + 1)
    else Inner(rs, i, j + 1)
  }

  /** The outer loop from `i` on. */
  function SortFrom(rs: seq<Region>, i: nat): (r: Option<seq<Region>>)
    ensures r.Some? ==> |r.value| == |rs|
    decreases |rs| - i
  {
    if i + 1 >= |rs| then Some(rs)
    else match Inner(rs, i, i + 1)
      case None => None
      case Some(s) => SortFrom(s, i + 1)
  }

  lemma InnerStep(rs: seq<Region>, i: nat, j: nat)
    requires i < j < |rs|
    ensures Inner(rs, i, j) == if IsConflict(rs[j], rs[i]) then None
                               else Inner(if IsBefore(rs[j], rs[i]) then Swapped(rs, i, j) else rs, i, j + 1)
  {
  }

  lemma InnerEnd(rs: seq<Region>, i: nat)
    requires i < |rs|
    ensures Inner(rs, i, |rs|) == Some(rs)
  {
  }

  lemma SortStep(rs: seq<Region>, i: nat)
    requires i + 1 < |rs|
    ensures SortFrom(rs, i) == match Inner(rs, i, i + 1) case None => None case Some(s) => SortFrom(s, i + 1)
  {
  }

  lemma SortEnd(rs: seq<Region>, i: nat)
    requires i + 1 >= |rs|
    ensures SortFrom(rs, i) == Some(rs)
  {
  }

  lemma SwapMultiset(rs: seq<Region>, i: nat, j: nat)
    requires i < |rs| && j < |rs|
    ensures multiset(Swapped(rs, i, j)) == multiset(rs)
  {
  }

  /** The exchange sort in place, as `sanitize_domain` performs it; false for a conflict. */
  method Sort(regions: array<Region>, count: nat) returns (ok: bool)
    requires 1 <= count <= regions.Length
    modifies regions
    ensures ok <==> SortFrom(old(regions[..count]), 0).Some?
    ensures ok ==> regions[..count] == SortFrom(old(regions[..count]), 0).value
    ensures multiset(regions[..count]) == multiset(old(regions[..count]))
    ensures regions[count..] == old(regions[count..])
  {
    hide *;
    ghost var all := multiset(regions[..count]);
    var i := 0;
    while i < count - 1
      invariant 0 <= i <= count - 1 && regions[count..] == old(regions[count..])
      invariant SortFrom(regions[..count], i) == SortFrom(old(regions[..count]), 0)
      invariant multiset(regions[..count]) == all
    {
      var j := i + 1;
      ghost var was := regions[..count];
      SortStep(was, i);
      while j < count
        invariant i < j <= count && regions[count..] == old(regions[count..])
        invariant Inner(regions[..count], i, j) == Inner(was, i, i + 1)
        invariant multiset(regions[..count]) == all
      {
        InnerStep(regions[..count], i, j);
        if IsConflict(regions[j], regions[i]) {
          return false;
        }
        if IsBefore(regions[j], regions[i]) {
          Swap(regions, count, i, j);
        }
        j := j + 1;
      }
      InnerEnd(regions[..count], i);
      i := i + 1;
    }
    SortEnd(regions[..count], i);
    ok := true;
  }

  /** The exchange of two regions. */
  method Swap(regions: array<Region>, count: nat, i: nat, j: nat)
    requires i < j < count <= regions.Length
    modifies regions
    ensures regions[..count] == Swapped(old(regions[..count]), i, j) && regions[count..] == old(regions[count..])
    ensures multiset(regions[..count]) == multiset(old(regions[..count]))
  {
    SwapMultiset(regions[..count], i, j);
    var treg := regions[j];
    regions[j] := regions[i];
    regions[i] := treg;
  }

  /** The first `i` regions are in order, and none behind them belongs in front of one of them. */
  predicate OrderedTo(rs: seq<Region>, i: nat) {
    forall a, b :: 0 <= a < b < |rs| && a < i ==> !IsBefore(rs[b], rs[a])
  }

  predicate LeastTo(rs: seq<Region>, i: nat, j: nat)
    requires i < |rs| && j <= |rs|
  {
    forall k :: i < k < j ==> !IsBefore(rs[k], rs[i])
  }

  lemma SwapKeeps(rs: seq<Region>, i: nat, j: nat)
    requires i < j < |rs| && OrderedTo(rs, i) && LeastTo(rs, i, j) && IsBefore(rs[j], rs[i])
    ensures OrderedTo(Swapped(rs, i, j), i) && LeastTo(Swapped(rs, i, j), i, j + 1)
  {
  }

  lemma {:induction false} InnerSorts(rs: seq<Region>, i: nat, j: nat)
    requires i < j <= |rs| && OrderedTo(rs, i) && LeastTo(rs, i, j) && Inner(rs, i, j).Some?
    ensures var s := Inner(rs, i, j).value; OrderedTo(s, i + 1) && multiset(s) == multiset(rs)
    decreases |rs| - j
  {
    if j < |rs| {
      if IsBefore(rs[j], rs[i]) {
        SwapKeeps(rs, i, j);
        SwapMultiset(rs, i, j);
        InnerSorts(Swapped(rs, i, j), i, j + 1);
      } else {
        InnerSorts(rs, i, j + 1);
      }
    }
  }

  /** The sort yields a permutation in the order of (order, base). */
  lemma {:induction false} SortSorts(rs: seq<Region>, i: nat)
    requires OrderedTo(rs, i) && SortFrom(rs, i).Some?
    ensures var s := SortFrom(rs, i).value; Sorted(s) && multiset(s) == multiset(rs)
    decreases |rs| - i
  {
    if i + 1 < |rs| {
      InnerSorts(rs, i, i + 1);
      SortSorts(Inner(rs, i, i + 1).value, i + 1);
    }
  }

  lemma {:induction false} NoTwice(rs: seq<Region>, r: Region)
    requires Distinct(rs)
    ensures multiset(rs)[r] <= 1
  {
    if rs != [] {
      var n := |rs| - 1;
      NoTwice(rs[..n], r);
      assert rs == rs[..n] + [rs[n]];
      if rs[n] == r {
        assert r !in rs[..n];
      }
    }
  }

  lemma TwiceInMultiset(s: seq<Region>, i: nat, j: nat)
    requires i < j < |s| && s[i] == s[j]
    ensures multiset(s)[s[i]] >= 2
  {
    assert s == s[..i] + [s[i]] + s[i + 1..j] + [s[j]] + s[j + 1..];
  }

  /** Not every conflict is found: here the regions of order 6 and 4 conflict, but a swap keeps the loop from
      ever comparing them. */
  lemma ConflictMissed(f: Flags, g: Flags)
    ensures var x, y, z := Region(0, 4, f), Region(0, 6, f), Region(32, 5, g);
            Valid(x) && Valid(y) && Valid(z) && IsConflict(x, y) && SortFrom([z, y, x], 0) == Some([x, z, y])
  {
    var x, y, z := Region(0, 4, f), Region(0, 6, f), Region(32, 5, g);
    assert Floor(32, 5) == 32 by { assert Floor(8, 3) == 8 by { assert Floor(2, 1) == 2; } }
    WholeSpace(0, 4);
    WholeSpace(0, 6);
    ConflictMeans(x, y);
    ConflictMeans(y, z);
    ConflictMeans(x, z);
    ConflictMeans(z, y);
    assert Inner([z, y, x], 0, 1) == Inner([z, y, x], 0, 2);
    assert Swapped([z, y, x], 0, 2) == [x, y, z];
    assert Inner([z, y, x], 0, 2) == Inner([x, y, z], 0, 3) == Some([x, y, z]);
    assert Swapped([x, y, z], 1, 2) == [x, z, y];
    assert Inner([x, y, z], 1, 2) == Inner([x, z, y], 1, 3) == Some([x, z, y]);
    assert SortFrom([x, z, y], 2) == Some([x, z, y]);
  }
}
