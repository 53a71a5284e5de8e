/**
 The flattened devicetree format as lib/utils/libfdt reads it: tags of the structure block and strings of
 the strings block (sections 5.4 and 5.5 of the Devicetree Specification v0.3).
 */
module FdtFormat {
  import opened Options
  import Seqs

  type byte = b: nat | b < 256

  const CELL: nat := 0x1_0000_0000

  const FDT_BEGIN_NODE: nat := 1
  const FDT_END_NODE: nat := 2
  const FDT_PROP: nat := 3
  const FDT_NOP: nat := 4
  const FDT_END: nat := 9

  /** From this length of a property on, the sum of 12 and the length passes 2^32. */
  const LONG: nat := 0xffff_fff4

  // ---- Cells and alignment ----

  /** The number that the `n` bytes at `o` spell, most significant first. */
  function BigEndian(s: seq<byte>, o: nat, n: nat): nat
    requires o + n <= |s|
  {
    if n == 0 then 0 else BigEndian(s, o, n - 1) * 256 + s[o + n - 1] as nat
  }

  function BigEndianBytes(v: nat, n: nat): (b: seq<byte>)
    ensures |b| == n
  {
    if n == 0 then [] else BigEndianBytes(v / 256, n - 1) + [v % 256]
  }

  /** `fdt32_to_cpu` of the cell at `o`. */
  function Cell(s: seq<byte>, o: nat): nat
    requires o + 4 <= |s|
  {
    BigEndian(s, o, 4)
  }

  /** `cpu_to_fdt32`. */
  function ToCell(v: nat): (s: seq<byte>)
    ensures |s| == 4
  {
    BigEndianBytes(v, 4)
  }

  function Power256(n: nat): nat { if n == 0 then 1 else 256 * Power256(n - 1) }

  /** The stretch of `s` at `o` is `b`. */
  predicate SameBytes(s: seq<byte>, o: nat, b: seq<byte>) {
    o + |b| <= |s| && forall k :: 0 <= k < |b| ==> s[o + k] == b[k]
  }

  lemma {:induction false} SameNumber(s: seq<byte>, o: nat, b: seq<byte>, i: nat, n: nat)
    requires SameBytes(s, o, b) && i + n <= |b|
    ensures BigEndian(s, o + i, n) == BigEndian(b, i, n)
  {
    if n > 0 {
      SameNumber(s, o, b, i, n - 1);
      assert s[o + (i + n - 1)] == b[i + n - 1];
    }
  }

  lemma SameSlice(s: seq<byte>, o: nat, b: seq<byte>, i: nat, j: nat)
    requires SameBytes(s, o, b) && i <= j <= |b|
    ensures s[o + i..o + j] == b[i..j]
  {
    forall k | 0 <= k < j - i ensures s[o + i..o + j][k] == b[i..j][k] {
      assert s[o + (i + k)] == b[i + k];
    }
  }

  lemma SameIsSlice(s: seq<byte>, o: nat, b: seq<byte>)
    requires o + |b| <= |s|
    ensures SameBytes(s, o, b) <==> s[o..o + |b|] == b
  {
    if s[o..o + |b|] == b {
      forall k | 0 <= k < |b| ensures s[o + k] == b[k] {
        assert s[o..o + |b|][k] == s[o + k];
      }
    }
  }

  lemma CellFromSlice(b: seq<byte>, o: nat, c: seq<byte>, p: nat)
    requires o + 4 <= |b| && p + 4 <= |c| && b[o..o + 4] == c[p..p + 4]
    ensures Cell(b, o) == Cell(c, p)
  {
    var x := c[p..p + 4];
    SameIsSlice(b, o, x);
    SameIsSlice(c, p, x);
    SameNumber(b, o, x, 0, 4);
    SameNumber(c, p, x, 0, 4);
  }

  lemma {:induction false} BigEndianRoundTrip(v: nat, n: nat)
    requires v < Power256(n)
    ensures BigEndian(BigEndianBytes(v, n), 0, n) == v
  {
    if n > 0 {
      BigEndianRoundTrip(v / 256, n - 1);
      var b := BigEndianBytes(v, n);
      SameNumber(b, 0, BigEndianBytes(v / 256, n - 1), 0, n - 1);
    }
  }

  lemma {:induction false} BigEndianBound(s: seq<byte>, o: nat, n: nat)
    requires o + n <= |s|
    ensures BigEndian(s, o, n) < Power256(n)
  {
    if n > 0 {
      BigEndianBound(s, o, n - 1);
    }
  }

  lemma Power256Four()
    ensures Power256(4) == CELL
  {
    assert Power256(2) == 0x1_0000 && Power256(3) == 0x100_0000;
  }

  lemma CellRoundTrip(v: nat)
    requires v < CELL
    ensures Cell(ToCell(v), 0) == v
  {
    Power256Four();
    BigEndianRoundTrip(v, 4);
  }

  lemma CellBound(s: seq<byte>, o: nat)
    requires o + 4 <= |s|
    ensures Cell(s, o) < CELL
  {
    Power256Four();
    BigEndianBound(s, o, 4);
  }

  /** FDT_TAGALIGN. */
  function Align(n: nat): (a: nat)
    ensures n <= a < n + 4 && a % 4 == 0
  {
    (n + 3) / 4 * 4
  }

  // ---- NUL-terminated strings ----

  /** The first NUL at or after `o`, or the end of `s`. */
  function FirstNul(s: seq<byte>, o: nat): (z: nat)
    requires o <= |s|
    ensures o <= z <= |s| && (z < |s| ==> s[z] == 0)
    ensures forall k :: o <= k < z ==> s[k] != 0
    decreases |s| - o
  {
    if o == |s| || s[o] == 0 then o else FirstNul(s, o + 1)
  }

  lemma {:induction false} FirstNulIs(s: seq<byte>, o: nat, z: nat)
    requires o <= z < |s| && s[z] == 0 && forall k :: o <= k < z ==> s[k] != 0
    ensures FirstNul(s, o) == z
  {
  }

  /** A C string: no byte of it is NUL. */
  predicate IsName(n: seq<byte>) { forall k :: 0 <= k < |n| ==> n[k] != 0 }

  /** `fdt_get_string` at offset `o` of a strings block. */
  function StringAt(st: seq<byte>, o: nat): (r: Option<seq<byte>>)
    ensures r.Some? ==> IsName(r.value)
  {
    if o >= |st| || FirstNul(st, o) == |st| then None else Some(st[o..FirstNul(st, o)])
  }

  /** A string keeps its meaning when its block moves. */
  lemma StringInSuffix(pre: seq<byte>, st: seq<byte>, o: nat)
    ensures StringAt(pre + st, |pre| + o) == StringAt(st, o)
  {
    if o < |st| {
      var z := FirstNul(st, o);
      if z < |st| {
        FirstNulIs(pre + st, |pre| + o, |pre| + z);
        assert (pre + st)[|pre| + o..|pre| + z] == st[o..z];
      } else {
        assert forall k :: o <= k < |st| ==> (pre + st)[|pre| + k] == st[k];
      }
    }
  }

  lemma StringInPrefix(st: seq<byte>, post: seq<byte>, o: nat)
    requires StringAt(st, o).Some?
    ensures StringAt(st + post, o) == StringAt(st, o)
  {
    var z := FirstNul(st, o);
    FirstNulIs(st + post, o, z);
    assert (st + post)[o..z] == st[o..z];
  }

  /** A name with its NUL stands at `o`. */
  lemma StringStands(st: seq<byte>, o: nat, name: seq<byte>)
    requires IsName(name) && SameBytes(st, o, name + [0])
    ensures StringAt(st, o) == Some(name)
  {
    var b := name + [0];
    assert st[o + |name|] == b[|name|];
    forall k | o <= k < o + |name| ensures st[k] != 0 {
      assert st[o + (k - o)] == b[k - o];
    }
    FirstNulIs(st, o, o + |name|);
    SameSlice(st, o, b, 0, |name|);
    assert b[0..|name|] == name;
  }

  /** The name stands, with its NUL, somewhere in the strings. */
  ghost predicate Occurs(st: seq<byte>, name: seq<byte>) {
    exists p: nat :: SameBytes(st, p, name + [0])
  }

  /** `fdt_find_string_`: the first place where the name stands, which may be the tail of a longer one. */
  method FindString(st: seq<byte>, name: seq<byte>) returns (p: Option<nat>)
    ensures p.Some? <==> Occurs(st, name)
    ensures p.Some? ==> SameBytes(st, p.value, name + [0]) && forall q: nat :: q < p.value ==> !SameBytes(st, q, name + [0])
  {
    var len := |name| + 1;
    var i := 0;
    while i + len <= |st|
      invariant forall q: nat :: q < i ==> !SameBytes(st, q, name + [0])
    {
      SameIsSlice(st, i, name + [0]);
      if st[i..i + len] == name + [0] {
        return Some(i);
      }
      i := i + 1;
    }
    p := None;
  }

  // ---- Tags ----

  /** A tag with what belongs to it. `nameoff` is the cell as stored. `LongProp` is a property whose length makes
      the sum of the source wrap, so that no value of that length need be there. */
  datatype Token = Begin(name: seq<byte>) | End | Prop(nameoff: nat, value: seq<byte>) | LongProp(len: nat) | Nop | Finish

  /** `fdt_next_tag`: the tag and the next offset, or the error that it leaves in `*nextoffset`. */
  datatype Scan = Found(token: Token, next: nat) | Truncated | BadStructure

  /** The name behind FDT_BEGIN_NODE. */
  function NextBegin(s: seq<byte>, o: nat): (r: Scan)
    requires o + 4 <= |s|
    ensures r.Found? ==> o + 4 <= r.next && r.next % 4 == 0
  {
    var z := FirstNul(s, o + 4);
    if z == |s| then BadStructure else Found(Begin(s[o + 4..z]), Align(z + 1))
  }

  /** The size of a property's tag without its padding: a sum of 32 bits. */
  function PropSpan(len: nat): (n: nat)
    ensures len < LONG ==> n == 12 + len
    ensures LONG <= len < CELL ==> n == len - LONG
  {
    (12 + len) % CELL
  }

  /** Length, name offset and value behind FDT_PROP. */
  function NextProp(s: seq<byte>, o: nat): (r: Scan)
    requires o + 4 <= |s|
    ensures r.Found? ==> o <= r.next && r.next % 4 == 0 && (r.token.LongProp? || o + 4 <= r.next)
  {
    if o + 8 > |s| || o + PropSpan(Cell(s, o + 4)) > |s| then BadStructure
    else
      var len := Cell(s, o + 4);
      var end := o + PropSpan(len);
      if len < LONG then Found(Prop(Cell(s, o + 8), s[o + 12..end]), Align(end)) else Found(LongProp(len), Align(end))
  }

  /** `fdt_next_tag` at offset `o` of the structure block `s`. */
  function NextTag(s: seq<byte>, o: nat): (r: Scan)
    ensures r.Found? ==> o <= r.next && r.next % 4 == 0 && (r.token.LongProp? || o + 4 <= r.next)
  {
    if o + 4 > |s| then Truncated
    else
      var tag := Cell(s, o);
      if tag == FDT_BEGIN_NODE then NextBegin(s, o)
      else if tag == FDT_PROP then NextProp(s, o)
      else if tag == FDT_END_NODE then Found(End, Align(o + 4))
      else if tag == FDT_NOP then Found(Nop, Align(o + 4))
      else if tag == FDT_END then Found(Finish, Align(o + 4))
      else BadStructure
  }

  /** The bytes `b` are one tag with all that belongs to it and its padding. */
  predicate IsTag(b: seq<byte>, t: Token) {
    NextTag(b, 0) == Found(t, |b|) && !t.LongProp?
  }

  lemma SameNul(s: seq<byte>, o: nat, b: seq<byte>, i: nat)
    requires SameBytes(s, o, b) && i <= |b| && FirstNul(b, i) < |b|
    ensures FirstNul(s, o + i) == o + FirstNul(b, i)
  {
    var z := FirstNul(b, i);
    assert s[o + z] == b[z];
    forall k | o + i <= k < o + z ensures s[k] != 0 {
      assert s[o + (k - o)] == b[k - o];
    }
    FirstNulIs(s, o + i, o + z);
  }

  lemma AlignShift(o: nat, n: nat)
    requires o % 4 == 0
    ensures Align(o + n) == o + Align(n)
  {
  }

  lemma BeginStands(s: seq<byte>, o: nat, b: seq<byte>)
    requires o % 4 == 0 && 4 <= |b| && SameBytes(s, o, b) && FirstNul(b, 4) < |b|
    ensures NextBegin(s, o) == Found(NextBegin(b, 0).token, o + NextBegin(b, 0).next)
  {
    SameNul(s, o, b, 4);
    SameSlice(s, o, b, 4, FirstNul(b, 4));
    AlignShift(o, FirstNul(b, 4) + 1);
  }

  lemma PropStands(s: seq<byte>, o: nat, b: seq<byte>)
    requires o % 4 == 0 && 12 <= |b| && SameBytes(s, o, b) && Cell(b, 4) < LONG && 12 + Cell(b, 4) <= |b|
    ensures NextProp(s, o) == Found(NextProp(b, 0).token, o + NextProp(b, 0).next)
  {
    hide PropSpan;
    SameNumber(s, o, b, 4, 4);
    SameNumber(s, o, b, 8, 4);
    SameSlice(s, o, b, 12, 12 + Cell(b, 4));
    AlignShift(o, 12 + Cell(b, 4));
  }

  /** A tag is read the same wherever it stands in the block, at a multiple of 4, whatever surrounds it. */
  lemma TagStands(s: seq<byte>, o: nat, b: seq<byte>, t: Token)
    requires o % 4 == 0 && IsTag(b, t) && SameBytes(s, o, b)
    ensures NextTag(s, o) == Found(t, o + |b|)
  {
    SameNumber(s, o, b, 0, 4);
    if t.Begin? {
      BeginStands(s, o, b);
    } else if t.Prop? {
      PropStands(s, o, b);
    }
  }

  lemma NulInStretch(s: seq<byte>, o: nat, n: nat)
    requires o + 4 <= |s| && FirstNul(s, o + 4) < n <= |s|
    ensures FirstNul(s[o..n], 4) == FirstNul(s, o + 4) - o
  {
    var b, z := s[o..n], FirstNul(s, o + 4);
    forall k | 4 <= k <= z - o ensures b[k] == s[o + k] {}
    FirstNulIs(b, 4, z - o);
  }

  /** Conversely, a tag found inside the block is a stretch of its own. */
  lemma TagIsStretch(s: seq<byte>, o: nat)
    requires o % 4 == 0 && NextTag(s, o).Found? && !NextTag(s, o).token.LongProp? && NextTag(s, o).next <= |s|
    ensures IsTag(s[o..NextTag(s, o).next], NextTag(s, o).token)
  {
    var n, t := NextTag(s, o).next, NextTag(s, o).token;
    var b := s[o..n];
    SameNumber(s, o, b, 0, 4);
    if t.Begin? {
      NulInStretch(s, o, n);
      BeginStands(s, o, b);
    } else if t.Prop? {
      SameNumber(s, o, b, 4, 4);
      PropStands(s, o, b);
    }
  }

  /** `fdt_next_tag` with its loop over the name. */
  method ReadTag(s: seq<byte>, o: nat) returns (r: Scan)
    ensures r == NextTag(s, o)
  {
    if o + 4 > |s| {
      return Truncated;
    }
    var tag := Cell(s, o);
    if tag == FDT_BEGIN_NODE {
      var p := o + 4;
      while p < |s| && s[p] != 0
        invariant o + 4 <= p <= |s|
        invariant FirstNul(s, p) == FirstNul(s, o + 4)
      {
        p := p + 1;
      }
      r := if p == |s| then BadStructure else Found(Begin(s[o + 4..p]), Align(p + 1));
    } else if tag == FDT_PROP {
      r := NextProp(s, o);
    } else if tag == FDT_END_NODE {
      r := Found(End, Align(o + 4));
    } else if tag == FDT_NOP {
      r := Found(Nop, Align(o + 4));
    } else if tag == FDT_END {
      r := Found(Finish, Align(o + 4));
    } else {
      r := BadStructure;
    }
  }

  // ---- Writing tags ----

  lemma CellStands(s: seq<byte>, o: nat, v: nat)
    requires v < CELL && SameBytes(s, o, ToCell(v))
    ensures Cell(s, o) == v
  {
    CellRoundTrip(v);
    SameNumber(s, o, ToCell(v), 0, 4);
  }

  /** What `fdt_begin_node` stores is read back, whatever the padding holds. */
  lemma BeginWritten(b: seq<byte>, name: seq<byte>)
    requires IsName(name) && |b| == 4 + Align(|name| + 1)
    requires SameBytes(b, 0, ToCell(FDT_BEGIN_NODE)) && SameBytes(b, 4, name + [0])
    ensures IsTag(b, Begin(name))
  {
    CellStands(b, 0, FDT_BEGIN_NODE);
    StringStands(b, 4, name);
    FirstNulWritten(b, 4, name);
    AlignShift(4, |name| + 1);
  }

  lemma FirstNulWritten(b: seq<byte>, o: nat, name: seq<byte>)
    requires IsName(name) && SameBytes(b, o, name + [0])
    ensures FirstNul(b, o) == o + |name|
  {
    assert b[o + |name|] == (name + [0])[|name|];
    forall k | o <= k < o + |name| ensures b[k] != 0 {
      assert b[o + (k - o)] == (name + [0])[k - o];
    }
    FirstNulIs(b, o, o + |name|);
  }

  /** What `fdt_property` stores is read back. */
  lemma PropWritten(b: seq<byte>, nameoff: nat, value: seq<byte>)
    requires nameoff < CELL && |value| < LONG && |b| == 12 + Align(|value|)
    requires SameBytes(b, 0, ToCell(FDT_PROP)) && SameBytes(b, 4, ToCell(|value|)) && SameBytes(b, 8, ToCell(nameoff))
    requires SameBytes(b, 12, value)
    ensures IsTag(b, Prop(nameoff, value))
  {
    CellStands(b, 0, FDT_PROP);
    CellStands(b, 4, |value|);
    CellStands(b, 8, nameoff);
    SameSlice(b, 12, value, 0, |value|);
    assert value[0..|value|] == value;
    AlignShift(12, |value|);
  }

  lemma BareTagWritten(b: seq<byte>, tag: nat, t: Token)
    requires |b| == 4 && SameBytes(b, 0, ToCell(tag))
    requires (tag == FDT_END_NODE && t == End) || (tag == FDT_NOP && t == Nop) || (tag == FDT_END && t == Finish)
    ensures IsTag(b, t)
  {
    CellStands(b, 0, tag);
  }

  // ---- Stretches of several tags ----

  /** A tag as it stands in a structure block, with its padding. */
  datatype Chunk = Chunk(bytes: seq<byte>, token: Token)

  predicate ChunksOk(cs: seq<Chunk>) {
    forall i {:trigger IsTag(cs[i].bytes, cs[i].token)} :: 0 <= i < |cs| ==> IsTag(cs[i].bytes, cs[i].token)
  }

  function Bytes(cs: seq<Chunk>): seq<byte> {
    if cs == [] then [] else cs[0].bytes + Bytes(cs[1..])
  }

  function Tokens(cs: seq<Chunk>): (ts: seq<Token>)
    ensures |ts| == |cs| && forall i :: 0 <= i < |cs| ==> ts[i] == cs[i].token
  {
    seq(|cs|, i requires 0 <= i < |cs| => cs[i].token)
  }

  lemma {:induction false} BytesAppend(cs: seq<Chunk>, ds: seq<Chunk>)
    ensures Bytes(cs + ds) == Bytes(cs) + Bytes(ds)
  {
    if cs == [] {
      assert cs + ds == ds;
    } else {
      BytesAppend(cs[1..], ds);
      Seqs.DropAppend(cs, ds);
      Seqs.Assoc(cs[0].bytes, Bytes(cs[1..]), Bytes(ds));
    }
  }

  lemma BytesOne(c: Chunk)
    ensures Bytes([c]) == c.bytes
  {
  }

  lemma TagAligned(b: seq<byte>, t: Token)
    requires IsTag(b, t)
    ensures 4 <= |b| && |b| % 4 == 0
  {
  }

  lemma {:induction false} AllAligned(cs: seq<Chunk>)
    requires forall i :: 0 <= i < |cs| ==> |cs[i].bytes| % 4 == 0
    ensures |Bytes(cs)| % 4 == 0
  {
    if cs != [] {
      AllAligned(cs[1..]);
    }
  }

  lemma BytesAligned(cs: seq<Chunk>)
    requires ChunksOk(cs)
    ensures |Bytes(cs)| % 4 == 0
  {
    forall i | 0 <= i < |cs| ensures |cs[i].bytes| % 4 == 0 {
      TagAligned(cs[i].bytes, cs[i].token);
    }
    AllAligned(cs);
  }

  // ---- The walk over a structure block ----

  /** The tags met by calling `fdt_next_tag` from offset `o` until FDT_END, or None on an error or at a property
      whose length wraps. */
  function Walk(s: seq<byte>, o: nat): Option<seq<Token>>
    decreases if o <= |s| then |s| - o + 1 else 0
  {
    match NextTag(s, o)
    case Truncated => None
    case BadStructure => None
    case Found(t, n) =>
      if t.LongProp? then None
      else if t.Finish? then Some([])
      else match Walk(s, n)
        case None => None
        case Some(ts) => Some([t] + ts)
  }

  /** The same with at most `n` calls, as the source goes on whatever the length of a property: None as well when
      the calls do not suffice. */
  function Calls(s: seq<byte>, o: nat, n: nat): Option<seq<Token>>
    decreases n
  {
    if n == 0 then None
    else match NextTag(s, o)
      case Truncated => None
      case BadStructure => None
      case Found(t, next) =>
        if t.Finish? then Some([])
        else match Calls(s, next, n - 1)
          case None => None
          case Some(ts) => Some([t] + ts)
  }

  predicate NoneLong(ts: seq<Token>) {
    forall i :: 0 <= i < |ts| ==> !ts[i].LongProp?
  }

  /** What the source calls in a walk that ends is the walk, exactly when it meets no length that wraps. */
  lemma {:induction false} CallsAreWalk(s: seq<byte>, o: nat, n: nat)
    requires Calls(s, o, n).Some?
    ensures Walk(s, o).Some? <==> NoneLong(Calls(s, o, n).value)
    ensures Walk(s, o).Some? ==> Walk(s, o) == Calls(s, o, n)
    decreases n
  {
    var r, ts := NextTag(s, o), Calls(s, o, n).value;
    if !r.token.Finish? {
      CallsAreWalk(s, r.next, n - 1);
      assert ts[0] == r.token && ts[1..] == Calls(s, r.next, n - 1).value;
      assert NoneLong(ts) <==> !ts[0].LongProp? && NoneLong(ts[1..]) by {
        forall i | 0 <= i < |ts| ensures ts[i] == if i == 0 then r.token else ts[1..][i - 1] {}
      }
    }
  }

  /** Every walk that succeeds needs only so many calls. */
  lemma {:induction false} WalkIsCalls(s: seq<byte>, o: nat)
    requires Walk(s, o).Some?
    ensures Calls(s, o, |Walk(s, o).value| + 1) == Walk(s, o)
    decreases if o <= |s| then |s| - o + 1 else 0
  {
    var r := NextTag(s, o);
    if !r.token.Finish? {
      WalkIsCalls(s, r.next);
    }
  }

  /** Where the walk goes on at a length that wraps: at most 12 bytes further. */
  lemma LongNext(s: seq<byte>, o: nat)
    requires o % 4 == 0 && NextTag(s, o).Found? && NextTag(s, o).token.LongProp?
    ensures var len := NextTag(s, o).token.len;
            LONG <= len < CELL && NextTag(s, o).next == o + Align(len - LONG) <= o + 12
  {
    CellBound(s, o + 4);
    AlignShift(o, NextTag(s, o).token.len - LONG);
  }

  /** With the least such length that is the same offset, and the walk never ends. */
  lemma {:induction false} LongNeverEnds(s: seq<byte>, o: nat, n: nat)
    requires o % 4 == 0 && NextTag(s, o).Found? && NextTag(s, o).token == LongProp(LONG)
    ensures Calls(s, o, n) == None
    decreases n
  {
    if n > 0 {
      LongNext(s, o);
      LongNeverEnds(s, o, n - 1);
    }
  }

  /** The offset behind `k` calls, if each of them finds a tag and none FDT_END. */
  function OffsetAfter(s: seq<byte>, o: nat, k: nat): Option<nat>
    decreases k
  {
    if k == 0 then Some(o)
    else match NextTag(s, o)
      case Truncated => None
      case BadStructure => None
      case Found(t, next) => if t.Finish? then None else OffsetAfter(s, next, k - 1)
  }

  /** Some call finds FDT_END or an error. */
  ghost predicate Ends(s: seq<byte>, o: nat) {
    exists n: nat :: OffsetAfter(s, o, n).None?
  }

  /** A property of the one length with which the walk does not move. */
  predicate HoldsUp(s: seq<byte>, o: nat) {
    NextTag(s, o).Found? && NextTag(s, o).token == LongProp(LONG)
  }

  ghost predicate HeldUp(s: seq<byte>, o: nat) {
    exists k: nat :: OffsetAfter(s, o, k).Some? && HoldsUp(s, OffsetAfter(s, o, k).value)
  }

  /** The walk ends exactly when none of its calls meets a property of that length; the other lengths that wrap move
      it on by 4 bytes at least. */
  lemma EndsExactly(s: seq<byte>, o: nat)
    requires o % 4 == 0
    ensures Ends(s, o) <==> !HeldUp(s, o)
  {
    if HeldUp(s, o) {
      var k: nat :| OffsetAfter(s, o, k).Some? && HoldsUp(s, OffsetAfter(s, o, k).value);
      forall n: nat ensures OffsetAfter(s, o, n).Some? {
        HeldFor(s, o, k, n);
      }
    } else {
      var _ := EndOf(s, o);
    }
  }

  lemma {:induction false} HeldFor(s: seq<byte>, o: nat, k: nat, n: nat)
    requires o % 4 == 0 && OffsetAfter(s, o, k).Some? && HoldsUp(s, OffsetAfter(s, o, k).value)
    ensures OffsetAfter(s, o, n).Some?
    decreases n
  {
    if n > 0 {
      if k == 0 {
        LongNext(s, o);
      }
      HeldFor(s, NextTag(s, o).next, if k == 0 then 0 else k - 1, n - 1);
    }
  }

  lemma {:induction false} EndOf(s: seq<byte>, o: nat) returns (n: nat)
    requires o % 4 == 0 && !HeldUp(s, o)
    ensures OffsetAfter(s, o, n).None?
    decreases if o <= |s| then |s| - o + 1 else 0
  {
    var r := NextTag(s, o);
    n := 1;
    if r.Found? && !r.token.Finish? {
      assert OffsetAfter(s, o, 0) == Some(o);
      if r.token.LongProp? {
        LongNext(s, o);
        LongMoves(r.token.len);
      }
      forall k: nat ensures OffsetAfter(s, r.next, k) == OffsetAfter(s, o, k + 1) {}
      n := EndOf(s, r.next);
      n := n + 1;
    }
  }

  lemma LongMoves(len: nat)
    requires LONG < len < CELL
    ensures Align(len - LONG) >= 4
  {
  }

  /** Eight bytes that do this. */
  lemma LongBlock(n: nat)
    ensures var s := ToCell(FDT_PROP) + ToCell(LONG); NextTag(s, 0) == Found(LongProp(LONG), 0) && Calls(s, 0, n) == None
  {
    var s := ToCell(FDT_PROP) + ToCell(LONG);
    LongCells(s, ToCell(FDT_PROP), ToCell(LONG));
    LongNeverEnds(s, 0, n);
  }

  lemma LongCells(s: seq<byte>, tag: seq<byte>, len: seq<byte>)
    requires s == tag + len && tag == ToCell(FDT_PROP) && len == ToCell(LONG)
    ensures NextTag(s, 0) == Found(LongProp(LONG), 0)
  {
    hide ToCell;
    assert |tag| == 4 && |len| == 4;
    CellStands(s, 0, FDT_PROP);
    CellStands(s, 4, LONG);
  }

  lemma SamePart(s: seq<byte>, o: nat, a: seq<byte>, b: seq<byte>)
    requires SameBytes(s, o, a + b)
    ensures SameBytes(s, o, a) && SameBytes(s, o + |a|, b)
  {
    forall k | 0 <= k < |a| ensures s[o + k] == a[k] {
      assert s[o + k] == (a + b)[k];
    }
    forall k | 0 <= k < |b| ensures s[o + |a| + k] == b[k] {
      assert s[o + (|a| + k)] == (a + b)[|a| + k];
    }
  }

  lemma TokensCons(cs: seq<Chunk>)
    requires cs != []
    ensures Tokens(cs) == [cs[0].token] + Tokens(cs[1..])
  {
  }

  /** What a walk meets that goes over the tags `ts` first. */
  function Met(ts: seq<Token>, rest: Option<seq<Token>>): Option<seq<Token>> {
    if rest.Some? then Some(ts + rest.value) else None
  }

  lemma MetTwo(ts: seq<Token>, us: seq<Token>, rest: Option<seq<Token>>)
    ensures Met(ts, Met(us, rest)) == Met(ts + us, rest)
    ensures Met([], rest) == rest
  {
    if rest.Some? {
      Seqs.Assoc(ts, us, rest.value);
      Seqs.Unit(rest.value);
    }
  }

  /** The walk passes over a stretch of tags and meets them all. */
  lemma {:induction false} WalkOver(s: seq<byte>, o: nat, cs: seq<Chunk>)
    requires o % 4 == 0 && ChunksOk(cs) && SameBytes(s, o, Bytes(cs)) && Finish !in Tokens(cs)
    ensures Walk(s, o) == Met(Tokens(cs), Walk(s, o + |Bytes(cs)|))
    decreases |cs|
  {
    var rest := Walk(s, o + |Bytes(cs)|);
    if cs == [] {
      assert Bytes(cs) == [] && Tokens(cs) == [];
      MetTwo([], [], rest);
      hide *;
    } else {
      hide *;
      FirstOver(s, o, cs);
      WalkOver(s, o + |cs[0].bytes|, cs[1..]);
      MetTwo([cs[0].token], Tokens(cs[1..]), rest);
    }
  }

  lemma FirstOver(s: seq<byte>, o: nat, cs: seq<Chunk>)
    requires o % 4 == 0 && ChunksOk(cs) && SameBytes(s, o, Bytes(cs)) && Finish !in Tokens(cs) && cs != []
    ensures var c, rest := cs[0], cs[1..];
            && (o + |c.bytes|) % 4 == 0 && ChunksOk(rest) && SameBytes(s, o + |c.bytes|, Bytes(rest)) && Finish !in Tokens(rest)
            && Walk(s, o) == Met([c.token], Walk(s, o + |c.bytes|)) && Tokens(cs) == [c.token] + Tokens(rest)
            && o + |Bytes(cs)| == o + |c.bytes| + |Bytes(rest)|
  {
    var c := cs[0];
    hide Walk, NextTag, SameBytes, Met;
    assert Bytes(cs) == c.bytes + Bytes(cs[1..]) && ChunksOk(cs[1..]) && IsTag(c.bytes, c.token);
    TokensCons(cs);
    assert Tokens(cs)[0] == c.token;
    hide *;
    SamePart(s, o, c.bytes, Bytes(cs[1..]));
    OneTagOver(s, o, c);
    FourMore(o, |c.bytes|);
  }

  lemma FourMore(a: nat, b: nat)
    requires a % 4 == 0 && b % 4 == 0
    ensures (a + b) % 4 == 0
  {
  }

  lemma OneTagOver(s: seq<byte>, o: nat, c: Chunk)
    requires o % 4 == 0 && IsTag(c.bytes, c.token) && SameBytes(s, o, c.bytes) && c.token != Finish
    ensures |c.bytes| % 4 == 0
    ensures Walk(s, o) == Met([c.token], Walk(s, o + |c.bytes|))
  {
    TagStands(s, o, c.bytes, c.token);
  }

  /** A block of tags with FDT_END behind them is walked to its end. */
  lemma WalkAll(cs: seq<Chunk>, end: seq<byte>)
    requires ChunksOk(cs) && Finish !in Tokens(cs) && IsTag(end, Finish)
    ensures Walk(Bytes(cs) + end, 0) == Some(Tokens(cs))
  {
    var s := Bytes(cs) + end;
    BytesAligned(cs);
    TagStands(s, |Bytes(cs)|, end, Finish);
    WalkOver(s, 0, cs);
    assert Walk(s, |Bytes(cs)|) == Some([]);
    Seqs.Unit(Tokens(cs));
  }

  /** The block from `o` on is the tags `cs` and an FDT_END. */
  ghost predicate TagsAt(s: seq<byte>, o: nat, cs: seq<Chunk>) {
    && ChunksOk(cs) && Finish !in Tokens(cs) && SameBytes(s, o, Bytes(cs))
    && NextTag(s, o + |Bytes(cs)|).Found? && NextTag(s, o + |Bytes(cs)|).token == Finish
  }

  /** Whatever the source's walk accepts from a multiple of 4 on is such a block, with those tags, exactly when no
      length wraps. */
  lemma CallsGiveChunks(s: seq<byte>, o: nat, n: nat)
    requires o % 4 == 0 && Calls(s, o, n).Some?
    ensures NoneLong(Calls(s, o, n).value) <==> exists cs :: TagsAt(s, o, cs) && Tokens(cs) == Calls(s, o, n).value
  {
    var ts := Calls(s, o, n).value;
    CallsAreWalk(s, o, n);
    if NoneLong(ts) {
      var cs := WalkGivesChunks(s, o);
      WalkEnds(s, o);
      assert TagsAt(s, o, cs);
    }
    if cs: seq<Chunk> :| TagsAt(s, o, cs) && Tokens(cs) == ts {
      forall i | 0 <= i < |ts| ensures !ts[i].LongProp? {
        assert IsTag(cs[i].bytes, cs[i].token);
      }
    }
  }

  lemma {:induction false} WalkEnds(s: seq<byte>, o: nat)
    requires Walk(s, o).Some?
    ensures Finish !in Walk(s, o).value
    decreases if o <= |s| then |s| - o + 1 else 0
  {
    if !NextTag(s, o).token.Finish? {
      WalkEnds(s, NextTag(s, o).next);
    }
  }

  /** Whatever the walk accepts from a multiple of 4 on is a stretch of tags and an FDT_END. */
  lemma {:induction false} WalkGivesChunks(s: seq<byte>, o: nat) returns (cs: seq<Chunk>)
    requires o % 4 == 0 && Walk(s, o).Some?
    ensures ChunksOk(cs) && Tokens(cs) == Walk(s, o).value && SameBytes(s, o, Bytes(cs))
    ensures NextTag(s, o + |Bytes(cs)|).Found? && NextTag(s, o + |Bytes(cs)|).token == Finish
    decreases if o <= |s| then |s| - o + 1 else 0
  {
    var r := NextTag(s, o);
    if r.token == Finish {
      cs := [];
    } else {
      FoundInside(s, r.next);
      hide NextTag, Bytes, Tokens, ChunksOk, SameBytes;
      var rest := WalkGivesChunks(s, r.next);
      cs := OneMoreTag(s, o, rest);
    }
  }

  lemma FoundInside(s: seq<byte>, o: nat)
    requires NextTag(s, o).Found?
    ensures o < |s|
  {
  }

  lemma OneMoreTag(s: seq<byte>, o: nat, rest: seq<Chunk>) returns (cs: seq<Chunk>)
    requires o % 4 == 0 && NextTag(s, o).Found? && !NextTag(s, o).token.LongProp? && NextTag(s, o).next <= |s|
    requires ChunksOk(rest) && SameBytes(s, NextTag(s, o).next, Bytes(rest))
    ensures ChunksOk(cs) && Tokens(cs) == [NextTag(s, o).token] + Tokens(rest) && SameBytes(s, o, Bytes(cs))
    ensures o + |Bytes(cs)| == NextTag(s, o).next + |Bytes(rest)|
  {
    var r := NextTag(s, o);
    TagIsStretch(s, o);
    hide NextTag, IsTag;
    var c := Chunk(s[o..r.next], r.token);
    SameIsSlice(s, o, c.bytes);
    JoinBytes(s, o, c.bytes, Bytes(rest));
    cs := [c] + rest;
    assert cs[1..] == rest;
    TokensCons(cs);
  }

  lemma JoinBytes(s: seq<byte>, o: nat, a: seq<byte>, b: seq<byte>)
    requires SameBytes(s, o, a) && SameBytes(s, o + |a|, b)
    ensures SameBytes(s, o, a + b)
  {
    forall k | 0 <= k < |a + b| ensures s[o + k] == (a + b)[k] {
      if k >= |a| {
        assert s[o + |a| + (k - |a|)] == b[k - |a|];
      }
    }
  }

  // ---- The meaning of a blob ----

  /** What a reader meets, FDT_NOP tags apart. */
  datatype Event = BeginNode(name: seq<byte>) | EndNode | Property(name: seq<byte>, value: seq<byte>)

  /** One tag with its name resolved by `fdt_get_string`: no event for FDT_NOP, and None for a name that cannot
      be resolved, for a length that wraps and for FDT_END. */
  function Meaning(t: Token, st: seq<byte>): Option<seq<Event>> {
    match t
    case Begin(name) => Some([BeginNode(name)])
    case End => Some([EndNode])
    case Prop(nameoff, value) =>
      (match StringAt(st, nameoff) case Some(name) => Some([Property(name, value)]) case None => None)
    case Nop => Some([])
    case LongProp(_) => None
    case Finish => None
  }

  function MeaningAll(ts: seq<Token>, st: seq<byte>): Option<seq<Event>> {
    if ts == [] then Some([])
    else match (Meaning(ts[0], st), MeaningAll(ts[1..], st))
      case (Some(e), Some(es)) => Some(e + es)
      case _ => None
  }

  /** The `fdt_next_tag` walk over a structure block, with names out of a strings block. */
  function Decode(s: seq<byte>, st: seq<byte>): Option<seq<Event>> {
    match Walk(s, 0)
    case Some(ts) => MeaningAll(ts, st)
    case None => None
  }

  /** `Decode` as a reader performs it, tag by tag. */
  method ReadBlob(s: seq<byte>, st: seq<byte>) returns (r: Option<seq<Event>>)
    ensures r == Decode(s, st)
  {
    var offset := 0;
    var ts := [];
    assert Walk(s, 0).Some? ==> ts + Walk(s, 0).value == Walk(s, 0).value;
    while true
      invariant Walk(s, 0) == if Walk(s, offset).Some? then Some(ts + Walk(s, offset).value) else None
      decreases if offset <= |s| then |s| - offset + 1 else 0
    {
      var tag := ReadTag(s, offset);
      if !tag.Found? || tag.token.LongProp? {
        return None;
      }
      if tag.token == Finish {
        break;
      }
      ghost var rest := Walk(s, tag.next);
      assert rest.Some? ==> ts + ([tag.token] + rest.value) == ts + [tag.token] + rest.value;
      ts := ts + [tag.token];
      offset := tag.next;
    }
    assert ts + [] == ts;
    r := MeaningAll(ts, st);
  }
}
