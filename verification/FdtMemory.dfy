/** The C library's memory functions on a byte buffer. */
module FdtMemory {
  import opened FdtFormat

  /** The bytes `s` with `bytes` in place of those from `at` to `end`. */
  function Spliced(s: seq<byte>, at: nat, end: nat, bytes: seq<byte>): seq<byte>
    requires at <= end <= |s|
  {
    s[..at] + bytes + s[end..]
  }

  /** `memcpy` of a value. */
  method Store(buf: array<byte>, at: nat, bytes: seq<byte>)
    requires at + |bytes| <= buf.Length
    modifies buf
    ensures buf[..] == Spliced(old(buf[..]), at, at + |bytes|, bytes)
  {
    var i := 0;
    while i < |bytes|
      invariant 0 <= i <= |bytes|
      invariant buf[..at] == old(buf[..at]) && buf[at + |bytes|..] == old(buf[at + |bytes|..])
      invariant buf[at..at + i] == bytes[..i]
    {
      buf[at + i] := bytes[i];
      i := i + 1;
    }
  }

  /** `memmove`: the regions may overlap. */
  method Move(buf: array<byte>, dst: nat, src: nat, len: nat)
    requires dst + len <= buf.Length && src + len <= buf.Length
    modifies buf
    ensures buf[..] == old(buf[..dst]) + old(buf[src..src + len]) + old(buf[dst + len..])
  {
    Store(buf, dst, buf[src..src + len]);
  }

  /** Two pieces one behind the other in a region of `len` bytes; what they leave of it is not specified. */
  method StoreTwo(buf: array<byte>, at: nat, head: seq<byte>, body: seq<byte>, len: nat)
    requires at + len <= buf.Length && |head| + |body| <= len
    modifies buf
    ensures buf[..at] == old(buf[..at]) && buf[at + len..] == old(buf[at + len..])
    ensures SameBytes(buf[at..at + len], 0, head) && SameBytes(buf[at..at + len], |head|, body)
  {
    hide Spliced, SameBytes;
    TwoStores(buf[..], at, head, body, len);
    Store(buf, at, head);
    Store(buf, at + |head|, body);
    assert buf[..][at..at + len] == buf[at..at + len];
  }

  lemma TwoStores(was: seq<byte>, at: nat, head: seq<byte>, body: seq<byte>, len: nat)
    requires at + len <= |was| && |head| + |body| <= len
    ensures var h := at + |head|;
            var mid := Spliced(was, at, h, head);
            && h + |body| <= |mid|
            && var now := Spliced(mid, h, h + |body|, body);
               && |now| == |was| && now[..at] == was[..at] && now[at + len..] == was[at + len..]
               && SameBytes(now[at..at + len], 0, head) && SameBytes(now[at..at + len], |head|, body)
  {
    hide Spliced;
    var h := at + |head|;
    var mid := Spliced(was, at, h, head);
    SpliceSlices(was, at, head, 0, at + len);
    SpliceSlices(mid, h, body, at, at + len);
    SpliceSlices(mid, h, body, 0, at + len);
    var now := Spliced(mid, h, h + |body|, body);
    assert now[..at] == now[0..h][..at] && mid[..at] == mid[0..h][..at];
    SameParts(now, at, head, body, len);
  }

  lemma SameParts(s: seq<byte>, at: nat, head: seq<byte>, body: seq<byte>, len: nat)
    requires at + len <= |s| && |head| + |body| <= len
    requires s[at..at + |head|] == head && s[at + |head|..at + |head| + |body|] == body
    ensures SameBytes(s[at..at + len], 0, head) && SameBytes(s[at..at + len], |head|, body)
  {
    forall k | 0 <= k < |head| ensures s[at + k] == head[k] {
      assert s[at..at + |head|][k] == s[at + k];
    }
    forall k | 0 <= k < |body| ensures s[at + (|head| + k)] == body[k] {
      assert s[at + |head|..at + |head| + |body|][k] == s[at + |head| + k];
    }
  }

  lemma SpliceSlices(was: seq<byte>, at: nat, bytes: seq<byte>, lo: nat, hi: nat)
    requires lo <= at && at + |bytes| <= hi <= |was|
    ensures var now := Spliced(was, at, at + |bytes|, bytes);
            && |now| == |was| && now[lo..at] == was[lo..at] && now[at..at + |bytes|] == bytes
            && now[at + |bytes|..hi] == was[at + |bytes|..hi] && now[hi..] == was[hi..]
  {
  }

  lemma ThreeSlices(s: seq<byte>, lo: nat, i: nat, j: nat, hi: nat)
    requires lo <= i <= j <= hi <= |s|
    ensures s[lo..hi] == s[lo..i] + s[i..j] + s[j..hi]
    ensures s[lo..hi][..i - lo] == s[lo..i] && s[lo..hi][j - lo..] == s[j..hi]
  {
  }

  /** A store inside a stretch is a splice of the stretch. */
  lemma PatchedSlice(was: seq<byte>, lo: nat, hi: nat, at: nat, bytes: seq<byte>)
    requires lo <= at && at + |bytes| <= hi <= |was|
    ensures var now := Spliced(was, at, at + |bytes|, bytes);
            |now| == |was| && now[lo..hi] == Spliced(was[lo..hi], at - lo, at - lo + |bytes|, bytes) && now[hi..] == was[hi..]
  {
    SpliceSlices(was, at, bytes, lo, hi);
    ThreeSlices(Spliced(was, at, at + |bytes|, bytes), lo, at, at + |bytes|, hi);
    ThreeSlices(was, lo, at, at + |bytes|, hi);
  }

  /** A store at `at` of the stretch from `lo` to `hi`; what lies behind it stays. */
  method StoreIn(buf: array<byte>, lo: nat, hi: nat, at: nat, bytes: seq<byte>)
    requires lo + at + |bytes| <= hi <= buf.Length
    modifies buf
    ensures buf[lo..hi] == Spliced(old(buf[lo..hi]), at, at + |bytes|, bytes)
    ensures buf[hi..] == old(buf[hi..])
  {
    hide Spliced;
    PatchedSlice(buf[..], lo, hi, lo + at, bytes);
    Store(buf, lo + at, bytes);
  }
}
