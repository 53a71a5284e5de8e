/**
 The walk over all nodes of a blob, fdt_find_max_phandle of lib/utils/libfdt/fdt_ro.c: it meets the phandle of every
 node of the tree.
 */
module FdtNodes {
  import opened Options
  import opened FdtFormat
  import opened FdtTree
  import opened FdtEdit
  import opened FdtCommute
  import opened FdtTreeEdit
  import opened FdtPhandle
  import Seqs

  // ---- Phandles among tags ----

  function CellFound(cs: seq<Chunk>, r: Search): Option<nat>
    requires r.Place? ==> r.index < |cs| && cs[r.index].token.Prop?
  {
    if r.Place? && |cs[r.index].token.value| == 4 then Some(Cell(cs[r.index].token.value, 0)) else None
  }

  /** `fdt_get_phandle` for the node whose tag is number `j`; None where it answers 0 for want of a property. */
  function TagPhandle(cs: seq<Chunk>, j: nat, st: seq<byte>): Option<nat>
    requires j < |cs|
  {
    match CellFound(cs, FindProp(cs, j + 1, st, PHANDLE))
    case Some(v) => Some(v)
    case None => CellFound(cs, FindProp(cs, j + 1, st, LINUX_PHANDLE))
  }

  /** The greatest phandle of the nodes whose tags are from number `j` on. */
  function TagsMax(cs: seq<Chunk>, j: nat, st: seq<byte>): nat
    requires j <= |cs|
    decreases |cs| - j
  {
    if j == |cs| then 0
    else Max(if cs[j].token.Begin? then TagPhandle(cs, j, st).Or(0) else 0, TagsMax(cs, j + 1, st))
  }

  /** Tags that begin no node add nothing. */
  lemma {:induction false} OthersPassed(cs: seq<Chunk>, j: nat, k: nat, st: seq<byte>)
    requires j <= k <= |cs| && forall m :: j <= m < k ==> !cs[m].token.Begin?
    ensures TagsMax(cs, j, st) == TagsMax(cs, k, st)
    decreases k - j
  {
    if j < k {
      OthersPassed(cs, j + 1, k, st);
    }
  }

  lemma {:induction false} PropsBegin(cs: seq<Chunk>, j: nat)
    requires j <= |cs|
    ensures forall m :: j <= m < AfterProps(cs, j) ==> !cs[m].token.Begin?
    decreases |cs| - j
  {
    if j < |cs| && (cs[j].token.Prop? || cs[j].token.Nop?) {
      PropsBegin(cs, j + 1);
    }
  }

  /** A node's properties give its phandle. */
  lemma PhandleHere(cs: seq<Chunk>, h: nat, st: seq<byte>, ps: seq<FdtTree.Prop>, x: seq<Event>)
    requires h < |cs| && Tail(cs, h + 1, st, FlattenProps(ps) + x) && NotProp(x)
    ensures TagPhandle(cs, h, st) == Phandle(ps)
  {
    CellHere(cs, h + 1, st, ps, x, PHANDLE);
    CellHere(cs, h + 1, st, ps, x, LINUX_PHANDLE);
  }

  lemma CellHere(cs: seq<Chunk>, j: nat, st: seq<byte>, ps: seq<FdtTree.Prop>, x: seq<Event>, name: Name)
    requires j <= |cs| && Tail(cs, j, st, FlattenProps(ps) + x) && NotProp(x)
    ensures CellFound(cs, FindProp(cs, j, st, name)) == CellValue(ps, name)
  {
    PropLookup(cs, j, st, ps, x, name);
    var m := FirstProp(ps, name);
    if m < |ps| {
      ValueOf(cs[FindProp(cs, j, st, name).index].token, st, name, ps[m].value);
    }
  }

  /** The nodes of the forest `f`, and of what comes behind it. */
  lemma {:induction false} ForestMax(cs: seq<Chunk>, j: nat, st: seq<byte>, f: Forest, x: seq<Event>) returns (k: nat)
    requires j <= |cs| && Tail(cs, j, st, Flatten(f) + x)
    ensures j <= k <= |cs| && Tail(cs, k, st, x) && TagsMax(cs, j, st) == Max(MaxPhandle(f), TagsMax(cs, k, st))
    decreases f
  {
    hide Tail, Span, NotProp, Flatten, TagPhandle, FindProp, AfterProps, Phandle;
    if f.Empty? {
      NoNodes(x);
      k := j;
    } else {
      var y := Flatten(f.rest) + x;
      OneAndRest(f, x);
      var h := HeadPassed(cs, j, st, f, y, 0, None);
      var z := [EndNode] + y;
      BehindHead(cs, j, h, st, f, z);
      var a := AfterProps(cs, h + 1);
      var b := ForestMax(cs, a, st, f.kids, z);
      var e := EndPassed(cs, b, st, y);
      k := ForestMax(cs, e + 1, st, f.rest, x);
    }
  }

  lemma NoNodes(x: seq<Event>)
    ensures Flatten(Empty) + x == x
  {
  }

  /** From the tag that begins a node to its first child. */
  lemma BehindHead(cs: seq<Chunk>, j: nat, h: nat, st: seq<byte>, f: Forest, z: seq<Event>)
    requires f.Tree? && j <= h < |cs| && cs[h].token.Begin? && Span(cs, j, h, st, []) && z != [] && !z[0].Property?
    requires Tail(cs, h + 1, st, FlattenProps(f.props) + (Flatten(f.kids) + z))
    ensures var a := AfterProps(cs, h + 1);
            && h < a <= |cs| && Tail(cs, a, st, Flatten(f.kids) + z)
            && TagsMax(cs, j, st) == Max(Phandle(f.props).Or(0), TagsMax(cs, a, st))
  {
    hide Tail, Flatten, TagPhandle, FindProp, Phandle;
    KidsFirst(f.kids, z);
    PropsPassed(cs, h + 1, st, f.props, Flatten(f.kids) + z, 0, None);
    PropsBegin(cs, h + 1);
    OthersPassed(cs, h + 1, AfterProps(cs, h + 1), st);
    SpanNops(cs, j, h, st);
    OthersPassed(cs, j, h, st);
    PhandleHere(cs, h, st, f.props, Flatten(f.kids) + z);
  }

  lemma KidsFirst(f: Forest, z: seq<Event>)
    requires z != [] && !z[0].Property?
    ensures NotProp(Flatten(f) + z)
  {
    KidsNotProp(f);
  }

  /** A stretch that means nothing is FDT_NOP tags. */
  lemma {:induction false} SpanNops(cs: seq<Chunk>, j: nat, k: nat, st: seq<byte>)
    requires Span(cs, j, k, st, [])
    ensures forall m :: j <= m < k ==> !cs[m].token.Begin?
    decreases k - j
  {
    if j < k {
      SpanIs(cs, j, k, st, []);
      assert cs[j..k][0] == cs[j] && cs[j..k][1..] == cs[j + 1..k];
      assert Meaning(cs[j].token, st) == Some([]);
      SpanIs(cs, j + 1, k, st, []);
      SpanNops(cs, j + 1, k, st);
    }
  }

  /** The tag that ends a node. */
  lemma EndPassed(cs: seq<Chunk>, b: nat, st: seq<byte>, y: seq<Event>) returns (e: nat)
    requires b <= |cs| && Tail(cs, b, st, [EndNode] + y)
    ensures b <= e < |cs| && Tail(cs, e + 1, st, y) && TagsMax(cs, b, st) == TagsMax(cs, e + 1, st)
  {
    e := FirstEvent(cs, b, st, EndNode, y);
    assert [EndNode][0] == EndNode;
    OthersPassed(cs, b, e + 1, st);
  }

  /** All nodes of the tree and no others. */
  lemma TagsMaxIs(cs: seq<Chunk>, st: seq<byte>, f: Forest)
    requires Rep(cs, st, Flatten(f))
    ensures TagsMax(cs, 0, st) == MaxPhandle(f)
  {
    Seqs.Unit(Flatten(f));
    assert cs[0..|cs|] == cs;
    SpanIs(cs, 0, |cs|, st, Flatten(f));
    var k := ForestMax(cs, 0, st, f, []);
    NothingLeft(cs, k, st);
  }

  lemma {:induction false} NothingLeft(cs: seq<Chunk>, k: nat, st: seq<byte>)
    requires k <= |cs| && Tail(cs, k, st, [])
    ensures TagsMax(cs, k, st) == 0
  {
    SpanNops(cs, k, |cs|, st);
    OthersPassed(cs, k, |cs|, st);
  }

  // ---- The walk ----

  /** `fdt_getprop` for the cell of a property. */
  method GetCell(b: Blob, node: nat, name: Name, ghost cs: seq<Chunk>, ghost j: nat) returns (v: Option<nat>)
    requires b.Ordered() && Block(b.Struct(), cs) && j < |cs| && node == Offset(cs, j) && cs[j].token.Begin?
    ensures v == CellFound(cs, FindProp(cs, j + 1, b.Strings(), name))
  {
    hide Block, FindProp;
    var status, offset, nameoff, len := b.FindProperty(node, name, cs, j);
    if status != Ok || len != 4 {
      return None;
    }
    TagAt(b.Struct(), cs, FindProp(cs, j + 1, b.Strings(), name).index);
    var tag := ReadTag(b.buf[b.offStruct..b.offStruct + b.sizeStruct], offset);
    v := Some(Cell(tag.token.value, 0));
  }

  /** `fdt_get_phandle`. */
  method GetPhandle(b: Blob, node: nat, ghost cs: seq<Chunk>, ghost j: nat) returns (v: nat)
    requires b.Ordered() && Block(b.Struct(), cs) && j < |cs| && node == Offset(cs, j) && cs[j].token.Begin?
    ensures v == TagPhandle(cs, j, b.Strings()).Or(0)
  {
    var c := GetCell(b, node, PHANDLE, cs, j);
    if c == None {
      c := GetCell(b, node, LINUX_PHANDLE, cs, j);
    }
    v := c.Or(0);
  }

  /** `fdt_next_node` without a depth, from the offset of tag number `i` on: the next FDT_BEGIN_NODE, if there is one. */
  method NextNodeTag(s: seq<byte>, start: nat, ghost st: seq<byte>, ghost cs: seq<Chunk>, ghost i: nat)
    returns (found: bool, offset: nat, next: nat, ghost j: nat)
    requires Block(s, cs) && i <= |cs| && start == Offset(cs, i)
    ensures i <= j <= |cs| && TagsMax(cs, i, st) == TagsMax(cs, j, st)
    ensures found ==> j < |cs| && cs[j].token.Begin? && offset == Offset(cs, j) && next == Offset(cs, j + 1)
    ensures !found ==> j == |cs|
  {
    hide Block, Offset, NextTag, TagPhandle;
    offset, j := start, i;
    TagAt(s, cs, j);
    var tag := ReadTag(s, offset);
    next := tag.next;
    while tag.token != Finish && !tag.token.Begin?
      invariant i <= j <= |cs| && offset == Offset(cs, j) && tag.Found? && next == tag.next
      invariant j < |cs| ==> tag == Found(cs[j].token, Offset(cs, j + 1)) && tag.token != Finish
      invariant j == |cs| ==> tag.token == Finish
      invariant TagsMax(cs, i, st) == TagsMax(cs, j, st)
      decreases |cs| - j
    {
      offset, j := tag.next, j + 1;
      TagAt(s, cs, j);
      tag := ReadTag(s, offset);
      next := tag.next;
    }
    found := tag.token.Begin?;
  }

  /** `fdt_find_max_phandle`. */
  method FindMaxPhandle(b: Blob, ghost cs: seq<Chunk>, ghost f: Forest) returns (max: nat)
    requires b.Ordered() && Block(b.Struct(), cs) && Rep(cs, b.Strings(), Flatten(f))
    ensures max == MaxPhandle(f)
  {
    hide Block, Offset, TagPhandle, Rep, Flatten, TagsMax, MaxPhandle, Phandle;
    ghost var st := b.Strings();
    TagsMaxIs(cs, st, f);
    StartOffset(cs);
    max := 0;
    var s := b.buf[b.offStruct..b.offStruct + b.sizeStruct];
    var found, offset, next;
    ghost var j;
    found, offset, next, j := NextNodeTag(s, 0, st, cs, 0);
    while found
      invariant j <= |cs| && Max(max, TagsMax(cs, j, st)) == TagsMax(cs, 0, st)
      invariant found ==> j < |cs| && cs[j].token.Begin? && offset == Offset(cs, j) && next == Offset(cs, j + 1)
      invariant !found ==> j == |cs|
      decreases |cs| - j, if found then 1 else 0
    {
      var value := GetPhandle(b, offset, cs, j);
      MaxNext(cs, j, st, max, value);
      if value > max {
        max := value;
      }
      found, offset, next, j := NextNodeTag(s, next, st, cs, j + 1);
    }
    EndMax(cs, st);
  }

  lemma MaxNext(cs: seq<Chunk>, j: nat, st: seq<byte>, max: nat, value: nat)
    requires j < |cs| && cs[j].token.Begin? && value == TagPhandle(cs, j, st).Or(0)
    ensures Max(max, TagsMax(cs, j, st)) == Max(Max(max, value), TagsMax(cs, j + 1, st))
  {
  }

  lemma EndMax(cs: seq<Chunk>, st: seq<byte>)
    ensures TagsMax(cs, |cs|, st) == 0
  {
  }

  lemma StartOffset(cs: seq<Chunk>)
    ensures Offset(cs, 0) == 0
  {
    assert cs[..0] == [];
  }
}
