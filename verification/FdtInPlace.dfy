/**
 Edits of a blob in place, fdt_setprop_inplace_namelen_partial of lib/utils/libfdt/fdt_wip.c, and what the overlay code
 of fdt_overlay.c does with them: every tag keeps its offset and every node stays where it was.
 */
module FdtInPlace {
  import opened Options
  import opened FdtFormat
  import opened FdtMemory
  import opened FdtTree
  import opened FdtEdit
  import opened FdtCommute
  import opened FdtMerge
  import opened FdtTreeEdit
  import opened FdtVisit
  import opened FdtPhandle
  import opened FdtFixups

  // ---- How many events stand in front of a tag ----

  function Count(cs: seq<Chunk>): nat {
    if cs == [] then 0 else (if cs[0].token.Nop? then 0 else 1) + Count(cs[1..])
  }

  /** The tags up to `j` mean the first `Count` events. */
  lemma {:induction false} RepPrefix(cs: seq<Chunk>, st: seq<byte>, es: seq<Event>, j: nat)
    requires Rep(cs, st, es) && j <= |cs|
    ensures Count(cs[..j]) <= |es| && Rep(cs[..j], st, es[..Count(cs[..j])])
    decreases j
  {
    if j > 0 {
      var e := Meaning(cs[0].token, st).value;
      assert |e| == if cs[0].token.Nop? then 0 else 1;
      assert Rep(cs[1..], st, es[|e|..]);
      hide Rep, Meaning, Count;
      var ds := cs[1..][..j - 1];
      RepPrefix(cs[1..], st, es[|e|..], j - 1);
      RepCons(cs[0], ds, st, e, es[|e|..][..Count(ds)]);
      CountCons(cs[0], ds, e, st);
      FrontSplit(cs, j);
      SumSplit(es, e, Count(ds));
    }
  }

  lemma CountCons(c: Chunk, cs: seq<Chunk>, e: seq<Event>, st: seq<byte>)
    requires Meaning(c.token, st) == Some(e)
    ensures Count([c] + cs) == |e| + Count(cs)
  {
    var ds := [c] + cs;
    assert ds[0] == c && ds[1..] == cs;
  }

  lemma FrontSplit(cs: seq<Chunk>, j: nat)
    requires 0 < j <= |cs|
    ensures cs[..j] == [cs[0]] + cs[1..][..j - 1]
  {
  }

  lemma SumSplit(es: seq<Event>, e: seq<Event>, n: nat)
    requires e <= es && |e| + n <= |es|
    ensures e + es[|e|..][..n] == es[..|e| + n]
  {
  }

  lemma {:induction false} RepCount(cs: seq<Chunk>, st: seq<byte>, es: seq<Event>)
    requires Rep(cs, st, es)
    ensures |es| == Count(cs)
    decreases |cs|
  {
    if cs != [] {
      RepCount(cs[1..], st, es[|Meaning(cs[0].token, st).value|..]);
    }
  }

  /** The same tags but for what properties hold: same sizes, and no tag of another kind. */
  predicate SameTags(cs: seq<Chunk>, ds: seq<Chunk>) {
    |cs| == |ds| && forall k :: 0 <= k < |cs| ==> SameTag(cs[k], ds[k])
  }

  predicate SameTag(c: Chunk, d: Chunk) {
    && |c.bytes| == |d.bytes|
    && (c.token == d.token || (c.token.Prop? && d.token.Prop?))
  }

  lemma {:induction false} SameCount(cs: seq<Chunk>, ds: seq<Chunk>)
    requires SameTags(cs, ds)
    ensures Count(cs) == Count(ds) && |Bytes(cs)| == |Bytes(ds)|
    decreases |cs|
  {
    if cs != [] {
      assert SameTag(cs[0], ds[0]);
      SameCount(cs[1..], ds[1..]);
    }
  }

  lemma SameTagsUpTo(cs: seq<Chunk>, ds: seq<Chunk>, j: nat)
    requires SameTags(cs, ds) && j <= |cs|
    ensures SameTags(cs[..j], ds[..j])
  {
  }

  // ---- Where nodes lie in trees of the same shape ----

  lemma {:induction false} AlikeLeads(f: Forest, h: Forest, q: Path)
    requires Alike(f, h)
    ensures Leads(f, q) <==> Leads(h, q)
    ensures Leads(f, q) ==> |Before(f, q)| == |Before(h, q)|
    ensures Leads(f, q) ==> Alike(At(f, q), At(h, q))
    decreases |q|
  {
    if f.Tree? {
      AlikeFlatten(f, h);
      if q != [] {
        AlikeLeads(if q[0] then f.kids else f.rest, if q[0] then h.kids else h.rest, q[1..]);
      }
    }
  }

  lemma {:induction false} AlikeFlatten(f: Forest, h: Forest)
    requires Alike(f, h)
    ensures |Flatten(f)| == |Flatten(h)|
    ensures f.Tree? ==> |FlattenProps(f.props)| == |FlattenProps(h.props)| && |Flatten(f.kids)| == |Flatten(h.kids)|
    decreases f
  {
    if f.Tree? {
      PropsLength(f.props);
      PropsLength(h.props);
      AlikeFlatten(f.kids, h.kids);
      AlikeFlatten(f.rest, h.rest);
    }
  }

  lemma {:induction false} PropsLength(ps: seq<FdtTree.Prop>)
    ensures |FlattenProps(ps)| == |ps|
  {
    if ps != [] {
      PropsLength(ps[1..]);
    }
  }

  /** The tags `ds` are `cs` rewritten in place, and mean the tree `h` of the same shape as `f`. */
  ghost predicate Rewritten(cs: seq<Chunk>, ds: seq<Chunk>, st: seq<byte>, f: Forest, h: Forest) {
    SameTags(cs, ds) && Alike(f, h) && Rep(ds, st, Flatten(h))
  }

  /** After an edit in place every node is where it was. */
  lemma StillLocated(cs: seq<Chunk>, ds: seq<Chunk>, st: seq<byte>, f: Forest, h: Forest, q: Path, j: nat)
    requires Locates(cs, st, f, q, j) && Rewritten(cs, ds, st, f, h)
    ensures Locates(ds, st, h, q, j) && Offset(ds, j) == Offset(cs, j)
  {
    hide Flatten, Before, After, Put, At, Leads, Alike, Offset, Count;
    AlikeLeads(f, h, q);
    PutAt(h, q);
    FlattenPut(h, q, At(h, q));
    SpanIs(cs, 0, j, st, Before(f, q));
    assert cs[0..j] == cs[..j] && ds[0..j] == ds[..j];
    RepCount(cs[..j], st, Before(f, q));
    SameTagsUpTo(cs, ds, j);
    SameCount(cs[..j], ds[..j]);
    RepPrefix(ds, st, Flatten(h), j);
    FrontOfThree(Before(h, q), Flatten(At(h, q)), After(h, q));
    SpanIs(ds, 0, j, st, Before(h, q));
    assert SameTag(cs[j], ds[j]);
    OffsetIs(cs, j);
    OffsetIs(ds, j);
  }

  lemma OffsetIs(cs: seq<Chunk>, j: nat)
    requires j <= |cs|
    ensures Offset(cs, j) == |Bytes(cs[..j])|
  {
  }

  lemma FrontOfThree(a: seq<Event>, b: seq<Event>, c: seq<Event>)
    ensures (a + b + c)[..|a|] == a
  {
  }

  lemma RewrittenTwice(cs: seq<Chunk>, ds: seq<Chunk>, es: seq<Chunk>, st: seq<byte>, f: Forest, g: Forest, h: Forest)
    requires Rewritten(cs, ds, st, f, g) && Rewritten(ds, es, st, g, h)
    ensures Rewritten(cs, es, st, f, h)
  {
    AlikeTransitive(f, g, h);
    forall k | 0 <= k < |cs| ensures SameTag(cs[k], es[k]) {
      assert SameTag(cs[k], ds[k]) && SameTag(ds[k], es[k]);
    }
  }

  lemma NotRewritten(cs: seq<Chunk>, st: seq<byte>, f: Forest)
    requires Rep(cs, st, Flatten(f))
    ensures Rewritten(cs, cs, st, f, f)
  {
    AlikeSelf(f);
  }

  lemma {:induction false} AlikeAtPath(f: Forest, p: Path, g: Forest)
    requires Leads(f, p) && Alike(At(f, p), g)
    ensures Alike(f, Put(f, p, g))
    decreases |p|
  {
    if p != [] {
      AlikeAtPath(if p[0] then f.kids else f.rest, p[1..], g);
      AlikeSelf(f.kids);
      AlikeSelf(f.rest);
    }
  }

  // ---- One property ----

  /** The blob holds the tree `h` in the tags `ds`, which are `cs` with the tree `f` rewritten in place. */
  ghost predicate Now(b: Blob, cs: seq<Chunk>, ds: seq<Chunk>, st: seq<byte>, f: Forest, h: Forest)
    reads b, b.buf
  {
    b.Ordered() && b.Strings() == st && Block(b.Struct(), ds) && Rewritten(cs, ds, st, f, h)
  }

  lemma HoldsNow(b: Blob, cs: seq<Chunk>, f: Forest, p: Path, i: nat, node: nat)
    requires Holds(b, cs, f, p, i, node)
    ensures b.Ordered() && Leads(f, p) && Locates(cs, b.Strings(), f, p, i) && node == Offset(cs, i)
    ensures Now(b, cs, cs, b.Strings(), f, f)
  {
    NotRewritten(cs, b.Strings(), f);
  }

  /** Whatever was in its place before is in its place now. */
  lemma NowHolds(b: Blob, cs: seq<Chunk>, ds: seq<Chunk>, st: seq<byte>, f: Forest, h: Forest, q: Path, j: nat, node: nat)
    requires Now(b, cs, ds, st, f, h) && Locates(cs, st, f, q, j) && node == Offset(cs, j)
    ensures Leads(h, q) && Holds(b, ds, h, q, j, node)
  {
    StillLocated(cs, ds, st, f, h, q, j);
  }

  lemma NowTwice(b: Blob, cs: seq<Chunk>, ds: seq<Chunk>, es: seq<Chunk>, st: seq<byte>, f: Forest, g: Forest, h: Forest)
    requires Rewritten(cs, ds, st, f, g) && Now(b, ds, es, st, g, h)
    ensures Now(b, cs, es, st, f, h)
  {
    RewrittenTwice(cs, ds, es, st, f, g, h);
  }

  /** `fdt_getprop`. */
  method GetProp(b: Blob, node: nat, name: Name, ghost cs: seq<Chunk>, ghost f: Forest, ghost p: Path, ghost i: nat)
    returns (value: Option<seq<byte>>)
    requires Holds(b, cs, f, p, i, node)
    ensures value == PropValue(At(f, p).props, name)
  {
    hide Block, Rep, Put, Flatten, Before, After;
    ghost var st := b.Strings();
    NodeHere(cs, st, f, p, i);
    PropLookup(cs, i + 1, st, At(f, p).props, Behind(At(f, p), After(f, p)), name);
    var status, offset, nameoff, len := b.FindProperty(node, name, cs, i);
    if status != Ok {
      return None;
    }
    ghost var k := FindProp(cs, i + 1, st, name).index;
    ValueOf(cs[k].token, st, name, At(f, p).props[FirstProp(At(f, p).props, name)].value);
    TagAt(b.Struct(), cs, k);
    var tag := ReadTag(b.buf[b.offStruct..b.offStruct + b.sizeStruct], offset);
    value := Some(tag.token.value);
  }

  /** `Astray` is no answer of the source: it stands for a store outside the property. */
  datatype Placed = Stored | Absent | TooSmall | Astray

  /** What `fdt_setprop_inplace_namelen_partial` answers. The sum of its test is one of 32 bits. */
  function PlaceStatus(ps: seq<FdtTree.Prop>, name: Name, idx: nat, len: nat): Placed {
    match PropValue(ps, name)
    case None => Absent
    case Some(v) => if (idx + len) % CELL > |v| then TooSmall else if idx + len > |v| then Astray else Stored
  }

  /** The properties with `bytes` at `idx` of that one. */
  function Patched(ps: seq<FdtTree.Prop>, name: Name, idx: nat, bytes: seq<byte>): seq<FdtTree.Prop>
    requires PlaceStatus(ps, name, idx, |bytes|) == Stored
  {
    var m := FirstProp(ps, name);
    ps[m := FdtTree.Prop(name, Spliced(ps[m].value, idx, idx + |bytes|, bytes))]
  }

  lemma PatchedAlike(ps: seq<FdtTree.Prop>, name: Name, idx: nat, bytes: seq<byte>)
    requires PlaceStatus(ps, name, idx, |bytes|) == Stored
    ensures AlikeProps(ps, Patched(ps, name, idx, bytes))
  {
  }

  /** A property's tag exchanged for one with other bytes in its value, of the same length. */
  lemma PatchedTree(cs: seq<Chunk>, st: seq<byte>, f: Forest, p: Path, i: nat, name: Name, idx: nat, bytes: seq<byte>, k: nat, c: Chunk)
    requires Locates(cs, st, f, p, i) && PlaceStatus(At(f, p).props, name, idx, |bytes|) == Stored
    requires k < |cs| && cs[k].token.Prop? && FindProp(cs, i + 1, st, name) == Place(k) && |c.bytes| == |cs[k].bytes|
    requires idx + |bytes| <= |cs[k].token.value|
    requires c.token == cs[k].token.(value := Spliced(cs[k].token.value, idx, idx + |bytes|, bytes))
    ensures var g := At(f, p);
            Rewritten(cs, cs[..k] + [c] + cs[k + 1..], st, f, Put(f, p, g.(props := Patched(g.props, name, idx, bytes))))
  {
    var g := At(f, p);
    var m := FirstProp(g.props, name);
    var h := g.(props := Patched(g.props, name, idx, bytes));
    NodeHere(cs, st, f, p, i);
    PropLookup(cs, i + 1, st, g.props, Behind(g, After(f, p)), name);
    ValueOf(cs[k].token, st, name, g.props[m].value);
    NamedValue(c.token, cs[k].token, st, name, h.props[m].value);
    ReplaceProp(cs, st, f, p, i, k, m, c, name, h.props[m].value);
    PatchedAlike(g.props, name, idx, bytes);
    AlikeSelf(g.kids);
    AlikeSelf(g.rest);
    AlikeAtPath(f, p, h);
    OneTagOther(cs, k, c);
  }

  lemma NamedValue(c: Token, d: Token, st: seq<byte>, name: Name, value: seq<byte>)
    requires c.Prop? && d.Prop? && c.nameoff == d.nameoff && c.value == value
    requires Meaning(d, st).Some? && Meaning(d, st) == Some([Property(name, d.value)])
    ensures Meaning(c, st) == Some([Property(name, value)])
  {
    assert [Property(name, d.value)][0].name == name;
  }

  lemma OneTagOther(cs: seq<Chunk>, k: nat, c: Chunk)
    requires k < |cs| && SameTag(cs[k], c)
    ensures SameTags(cs, cs[..k] + [c] + cs[k + 1..])
  {
    var ds := cs[..k] + [c] + cs[k + 1..];
    forall j | 0 <= j < |cs| ensures SameTag(cs[j], ds[j]) {
      assert ds[j] == if j == k then c else cs[j];
    }
  }

  /** `fdt_setprop_inplace_namelen_partial`. */
  method SetInPlace(b: Blob, node: nat, name: Name, idx: nat, bytes: seq<byte>,
                    ghost cs: seq<Chunk>, ghost f: Forest, ghost p: Path, ghost i: nat)
    returns (placed: Placed, ghost ds: seq<Chunk>, ghost h: Forest)
    requires Holds(b, cs, f, p, i, node)
    modifies b.buf
    ensures placed == PlaceStatus(At(f, p).props, name, idx, |bytes|)
    ensures placed != Stored ==> unchanged(b.buf)
    ensures placed == Stored ==>
              && h == Put(f, p, At(f, p).(props := Patched(At(f, p).props, name, idx, bytes)))
              && Now(b, cs, ds, old(b.Strings()), f, h)
  {
    hide Block, Rep, Put, Flatten, Before, After, Rewritten, Patched, Spliced, Offset;
    ghost var st, g := b.Strings(), At(f, p);
    ds, h := cs, f;
    NodeHere(cs, st, f, p, i);
    PropLookup(cs, i + 1, st, g.props, Behind(g, After(f, p)), name);
    var status, offset, nameoff, len := b.FindProperty(node, name, cs, i);
    if status != Ok {
      return Absent, ds, h;
    }
    ghost var k := FindProp(cs, i + 1, st, name).index;
    ValueOf(cs[k].token, st, name, g.props[FirstProp(g.props, name)].value);
    if (idx + |bytes|) % CELL > len {
      return TooSmall, ds, h;
    }
    if idx + |bytes| > len {
      return Astray, ds, h;
    }
    placed := Stored;
    ghost var c := b.PatchValue(offset, idx, bytes, cs, k);
    PatchedTree(cs, st, f, p, i, name, idx, bytes, k, c);
    ds, h := cs[..k] + [c] + cs[k + 1..], Put(f, p, g.(props := Patched(g.props, name, idx, bytes)));
  }

  // ---- Moving the phandles of a blob ----

  /** `overlay_adjust_node_phandles` on the first node of `g` and below. */
  function AdjustOne(g: Forest, delta: nat): (r: Outcome<Forest>)
    requires g.Tree?
    ensures r.Done? ==> r.value.Tree? && r.value.name == g.name && r.value.rest == g.rest
  {
    var ps :- AdjustProps(g.props, delta);
    var kids :- Adjust(g.kids, delta);
    Done(g.(props := ps, kids := kids))
  }

  lemma AdjustOneFirst(f: Forest, delta: nat)
    requires f.Tree?
    ensures f.rest.Empty? ==> Adjust(f, delta) == AdjustOne(f, delta)
    ensures Adjust(f, delta) == (match AdjustOne(f, delta)
                                 case Done(g) => (match Adjust(f.rest, delta)
                                                  case Done(rest) => Done(g.(rest := rest))
                                                  case e => e)
                                 case e => e)
  {
  }

  /** The cell that `fdt_setprop_inplace_u32` stores is the whole property. */
  lemma WholeCell(ps: seq<FdtTree.Prop>, name: Name, cell: seq<byte>)
    requires PropValue(ps, name).Some? && |PropValue(ps, name).value| == 4 == |cell|
    ensures PlaceStatus(ps, name, 0, 4) == Stored
    ensures Patched(ps, name, 0, cell) == ps[FirstProp(ps, name) := FdtTree.Prop(name, cell)]
  {
    var v := PropValue(ps, name).value;
    assert Spliced(v, 0, 4, cell) == cell;
  }

  /** `overlay_phandle_add_offset`; a missing property is left alone, as the callers do. */
  method AddOffsetInPlace(b: Blob, node: nat, name: Name, delta: nat, ghost cs: seq<Chunk>, ghost f: Forest, ghost p: Path, ghost i: nat)
    returns (outcome: Outcome<()>, ghost ds: seq<Chunk>, ghost h: Forest)
    requires Holds(b, cs, f, p, i, node) && delta < CELL
    modifies b.buf
    ensures match AddOffset(At(f, p).props, name, delta)
            case Done(ps) => outcome == Done(()) && h == Put(f, p, At(f, p).(props := ps)) && Now(b, cs, ds, old(b.Strings()), f, h)
            case e => outcome == e.PropagateFailure()
  {
    hide Block, Rep, Put, Flatten, Before, After, Rewritten, Patched, Spliced, Locates, Holds, Now, Cell, ToCell;
    HoldsNow(b, cs, f, p, i, node);
    ghost var g := At(f, p);
    ds, h := cs, f;
    PutAt(f, p);
    var value := GetProp(b, node, name, cs, f, p, i);
    if value == None {
      return Done(()), ds, h;
    }
    if |value.value| != 4 {
      return BadPhandle, ds, h;
    }
    var v := Cell(value.value, 0);
    CellBound(value.value, 0);
    OffsetTest(v, delta);
    if (v + delta) % CELL < v || (v + delta) % CELL == CELL - 1 {
      return NoPhandles, ds, h;
    }
    var placed;
    WholeCell(g.props, name, ToCell(v + delta));
    placed, ds, h := SetInPlace(b, node, name, 0, ToCell(v + delta), cs, f, p, i);
    outcome := Done(());
  }

  /** The test for an overflow of the 32-bit sum, and for the value that is no phandle. */
  lemma OffsetTest(v: nat, delta: nat)
    requires v < CELL && delta < CELL
    ensures (v + delta) % CELL < v || (v + delta) % CELL == CELL - 1 <==> v + delta >= CELL - 1
  {
  }

  lemma NowRewritten(b: Blob, cs: seq<Chunk>, ds: seq<Chunk>, st: seq<byte>, f: Forest, h: Forest)
    requires Now(b, cs, ds, st, f, h)
    ensures b.Ordered() && b.Strings() == st && Rewritten(cs, ds, st, f, h)
  {
  }

  /** Both properties of a node. */
  method AdjustPropsInPlace(b: Blob, node: nat, delta: nat, ghost cs: seq<Chunk>, ghost f: Forest, ghost p: Path, ghost i: nat)
    returns (outcome: Outcome<()>, ghost ds: seq<Chunk>, ghost h: Forest)
    requires Holds(b, cs, f, p, i, node) && delta < CELL
    modifies b.buf
    ensures match AdjustProps(At(f, p).props, delta)
            case Done(ps) => outcome == Done(()) && h == Put(f, p, At(f, p).(props := ps)) && Now(b, cs, ds, old(b.Strings()), f, h)
            case e => outcome == e.PropagateFailure()
  {
    hide Block, Rep, Put, Flatten, Before, After, Rewritten, Locates, Holds, Now, AddOffset, Leads, At;
    HoldsNow(b, cs, f, p, i, node);
    ghost var st, g := b.Strings(), At(f, p);
    outcome, ds, h := AddOffsetInPlace(b, node, PHANDLE, delta, cs, f, p, i);
    if !outcome.Done? {
      return;
    }
    ghost var ds1, h1, g1 := ds, h, g.(props := AddOffset(g.props, PHANDLE, delta).value);
    NowHolds(b, cs, ds, st, f, h, p, i, node);
    NowRewritten(b, cs, ds, st, f, h);
    BeforePut(f, p, g1);
    outcome, ds, h := AddOffsetInPlace(b, node, LINUX_PHANDLE, delta, ds, h, p, i);
    if outcome.Done? {
      PutPut(f, p, g1, g1.(props := AdjustProps(g.props, delta).value));
      NowTwice(b, cs, ds1, ds, st, f, h1, h);
    }
  }

  /** `overlay_adjust_node_phandles`. */
  method AdjustNode(b: Blob, node: nat, delta: nat, ghost cs: seq<Chunk>, ghost f: Forest, ghost p: Path, ghost i: nat)
    returns (outcome: Outcome<()>, ghost ds: seq<Chunk>, ghost h: Forest)
    requires Holds(b, cs, f, p, i, node) && delta < CELL
    modifies b.buf
    ensures match AdjustOne(At(f, p), delta)
            case Done(g) => outcome == Done(()) && h == Put(f, p, g) && Now(b, cs, ds, old(b.Strings()), f, h)
            case e => outcome == e.PropagateFailure()
    decreases At(f, p), 1
  {
    hide Block, Rep, Put, Flatten, Before, After, Rewritten, Locates, Holds, Now, AdjustProps, Adjust, Leads, At;
    HoldsNow(b, cs, f, p, i, node);
    ghost var st, g := b.Strings(), At(f, p);
    outcome, ds, h := AdjustPropsInPlace(b, node, delta, cs, f, p, i);
    if !outcome.Done? {
      return;
    }
    ghost var ds1, h1, g1 := ds, h, g.(props := AdjustProps(g.props, delta).value);
    NowHolds(b, cs, ds, st, f, h, p, i, node);
    NowRewritten(b, cs, ds, st, f, h);
    BeforePut(f, p, g1);
    outcome, ds, h := AdjustKids(b, node, delta, ds, h, p, i, g);
    if outcome.Done? {
      PutPut(f, p, g1, g1.(kids := Adjust(g.kids, delta).value));
      NowTwice(b, cs, ds1, ds, st, f, h1, h);
    }
  }

  /** The siblings from number `m` on exchanged for `s`. */
  function SetSuffix(f: Forest, m: nat, s: Forest): Forest
    decreases m
  {
    if m == 0 || f.Empty? then s else f.(rest := SetSuffix(f.rest, m - 1, s))
  }

  function Suffix(f: Forest, m: nat): Forest
    decreases m
  {
    if m == 0 || f.Empty? then f else Suffix(f.rest, m - 1)
  }

  lemma {:induction false} SuffixSet(f: Forest, m: nat, s: Forest)
    requires Suffix(f, m).Tree?
    ensures Leads(f, Right(m)) && At(f, Right(m)) == Suffix(f, m) && Put(f, Right(m), s) == SetSuffix(f, m, s)
    ensures s.Tree? ==> Suffix(SetSuffix(f, m, s), m + 1) == s.rest
    ensures forall r :: s.Tree? ==> SetSuffix(SetSuffix(f, m, s), m + 1, r) == SetSuffix(f, m, s.(rest := r))
    decreases m
  {
    if m > 0 {
      assert Right(m)[1..] == Right(m - 1) && !Right(m)[0];
      SuffixSet(f.rest, m - 1, s);
    }
  }

  lemma {:induction false} SuffixEnd(f: Forest, m: nat)
    requires Suffix(f, m).Empty?
    ensures SetSuffix(f, m, Empty) == f
    decreases m
  {
    if m > 0 && f.Tree? {
      SuffixEnd(f.rest, m - 1);
    }
  }

  /** The move of the siblings `kids` once those before number `m` have moved; `r` is what becomes of the others. */
  function Resumed(kids: Forest, m: nat, r: Outcome<Forest>): Outcome<Forest> {
    match r
    case Done(s) => Done(SetSuffix(kids, m, s))
    case e => e
  }

  lemma NextResumed(kids: Forest, m: nat, delta: nat)
    requires Suffix(kids, m).Tree?
    ensures var sub := Suffix(kids, m);
            match AdjustOne(sub, delta)
            case Done(s) =>
              && Suffix(SetSuffix(kids, m, s), m + 1) == sub.rest
              && Resumed(kids, m, Adjust(sub, delta)) == Resumed(SetSuffix(kids, m, s), m + 1, Adjust(sub.rest, delta))
            case e => Resumed(kids, m, Adjust(sub, delta)) == e
  {
    var sub := Suffix(kids, m);
    AdjustOneFirst(sub, delta);
    if AdjustOne(sub, delta).Done? {
      SuffixSet(kids, m, AdjustOne(sub, delta).value);
    }
  }

  /** ... its loop over subnodes. */
  method AdjustKids(b: Blob, node: nat, delta: nat, ghost cs: seq<Chunk>, ghost f: Forest, ghost p: Path, ghost i: nat, ghost top: Forest)
    returns (outcome: Outcome<()>, ghost ds: seq<Chunk>, ghost h: Forest)
    requires Holds(b, cs, f, p, i, node) && delta < CELL && top.Tree? && At(f, p).kids == top.kids
    modifies b.buf
    ensures match Adjust(At(f, p).kids, delta)
            case Done(kids) => outcome == Done(()) && h == Put(f, p, At(f, p).(kids := kids)) && Now(b, cs, ds, old(b.Strings()), f, h)
            case e => outcome == e.PropagateFailure()
    decreases top, 0
  {
    hide Block, Rep, Put, Flatten, Before, After, Rewritten, Locates, Holds, Now, OnKid, AdjustProps, Adjust, AdjustOne, Leads, At, SetSuffix, Suffix, Resumed;
    HoldsNow(b, cs, f, p, i, node);
    ghost var st, g := b.Strings(), At(f, p);
    ghost var kids, sub, m := g.kids, g.kids, 0;
    ds, h := cs, f;
    PutAt(f, p);
    WholeSuffix(g.kids, Adjust(g.kids, delta));
    var found, offset;
    ghost var k;
    found, offset, k := FirstKid(b, node, cs, f, p, i);
    while found
      invariant b.Ordered() && (found <==> sub.Tree?) && (sub == top.kids || sub < top.kids) && Suffix(kids, m) == sub
      invariant Now(b, cs, ds, st, f, h) && h == Put(f, p, g.(kids := kids))
      invariant found ==> OnKid(b, ds, h, p, m, sub, k, offset)
      invariant Adjust(g.kids, delta) == Resumed(kids, m, Adjust(sub, delta))
      decreases sub
    {
      NextResumed(kids, m, delta);
      ghost var ds1, h1 := ds, h;
      outcome, ds, h := AdjustKid(b, offset, delta, ds, f, p, g, kids, m, sub, k, st, cs);
      if !outcome.Done? {
        return;
      }
      kids := SetSuffix(kids, m, AdjustOne(sub, delta).value);
      found, offset, k := NextKid(b, offset, ds, h, p, m, AdjustOne(sub, delta).value, k);
      sub, m := sub.rest, m + 1;
    }
    SuffixEnd(kids, m);
    NoneResumed(kids, m, delta);
    outcome := Done(());
  }

  lemma WholeSuffix(kids: Forest, r: Outcome<Forest>)
    ensures Suffix(kids, 0) == kids && Resumed(kids, 0, r) == r
  {
  }

  lemma NoneResumed(kids: Forest, m: nat, delta: nat)
    ensures Resumed(kids, m, Adjust(Empty, delta)) == Done(SetSuffix(kids, m, Empty))
  {
  }

  /** One subnode. */
  method AdjustKid(b: Blob, offset: nat, delta: nat, ghost ds0: seq<Chunk>, ghost f: Forest, ghost p: Path, ghost g: Forest,
                   ghost kids: Forest, ghost m: nat, ghost sub: Forest, ghost k: nat, ghost st: seq<byte>, ghost cs: seq<Chunk>)
    returns (outcome: Outcome<()>, ghost ds: seq<Chunk>, ghost h: Forest)
    requires g.Tree? && Leads(f, p) && sub.Tree? && Suffix(kids, m) == sub && delta < CELL
    requires b.Ordered() && Now(b, cs, ds0, st, f, Put(f, p, g.(kids := kids)))
    requires OnKid(b, ds0, Put(f, p, g.(kids := kids)), p, m, sub, k, offset)
    modifies b.buf
    ensures match AdjustOne(sub, delta)
            case Done(s) =>
              && outcome == Done(()) && h == Put(f, p, g.(kids := SetSuffix(kids, m, s)))
              && b.Ordered() && Now(b, cs, ds, st, f, h) && OnKid(b, ds, h, p, m, s, k, offset)
            case e => outcome == e.PropagateFailure()
    decreases sub, 2
  {
    hide Block, Rep, Put, Flatten, Before, After, Rewritten, Locates, Now, AdjustOne, Leads, At, SetSuffix, Suffix;
    ghost var h0 := Put(f, p, g.(kids := kids));
    NowRewritten(b, cs, ds0, st, f, h0);
    HoldsNow(b, ds0, h0, p + Child(m), k, offset);
    outcome, ds, h := AdjustNode(b, offset, delta, ds0, h0, p + Child(m), k);
    if outcome.Done? {
      ghost var s := AdjustOne(sub, delta).value;
      KidPut(f, p, g, kids, m, s);
      NowHolds(b, ds0, ds, st, h0, h, p + Child(m), k, offset);
      NowTwice(b, cs, ds0, ds, st, f, h0, h);
    }
  }

  lemma KidPut(f: Forest, p: Path, g: Forest, kids: Forest, m: nat, s: Forest)
    requires Leads(f, p) && g.Tree? && Suffix(kids, m).Tree? && s.Tree?
    ensures var h0 := Put(f, p, g.(kids := kids));
            && Leads(h0, p + Child(m)) && Put(h0, p + Child(m), s) == Put(f, p, g.(kids := SetSuffix(kids, m, s)))
            && Leads(Put(h0, p + Child(m), s), p) && Leads(Put(h0, p + Child(m), s), p + Child(m))
            && At(Put(h0, p + Child(m), s), p + Child(m)) == s
  {
    var g0 := g.(kids := kids);
    var h0 := Put(f, p, g0);
    BeforePut(f, p, g0);
    SuffixSet(kids, m, s);
    DownToKids(h0, p, m);
    assert Child(m)[1..] == Right(m);
    PutLegs(h0, p, Child(m), s);
    PutPut(f, p, g0, g.(kids := SetSuffix(kids, m, s)));
    BeforePut(h0, p + Child(m), s);
    BeforePut(f, p, g.(kids := SetSuffix(kids, m, s)));
  }
}
