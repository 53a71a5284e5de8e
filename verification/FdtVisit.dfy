/**
 Going over the properties and the children of a node in its blob: `fdt_for_each_property_offset` and
 `fdt_for_each_subnode` meet exactly those of the tree, in order.
 */
module FdtVisit {
  import opened Options
  import opened FdtFormat
  import opened FdtTree
  import opened FdtEdit
  import opened FdtCommute
  import opened FdtTreeEdit
  import Seqs

  // ---- Properties ----

  /** From tag `j` on stand the properties `ps` and then something else: the next one is the first of them. */
  lemma {:induction false} PropertyHere(cs: seq<Chunk>, j: nat, st: seq<byte>, ps: seq<FdtTree.Prop>, x: seq<Event>)
    requires j <= |cs| && Tail(cs, j, st, FlattenProps(ps) + x) && NotProp(x)
    ensures ps == [] ==> NextPropTag(cs, j) == Missing
    ensures ps != [] ==>
              NextPropTag(cs, j).Place?
              && var k := NextPropTag(cs, j).index;
                 && Meaning(cs[k].token, st) == Some([Property(ps[0].name, ps[0].value)])
                 && Tail(cs, k + 1, st, FlattenProps(ps[1..]) + x)
  {
    if ps == [] {
      Seqs.Unit(x);
      Seqs.HeadTail(x);
      var k := FirstEvent(cs, j, st, x[0], x[1..]);
      NopsPassed(cs, j, k, st, [], 0);
    } else {
      var e := Property(ps[0].name, ps[0].value);
      Seqs.Assoc([e], FlattenProps(ps[1..]), x);
      var k := FirstEvent(cs, j, st, e, FlattenProps(ps[1..]) + x);
      NopsPassed(cs, j, k, st, [], 0);
    }
  }

  lemma PropertyRead(cs: seq<Chunk>, k: nat, st: seq<byte>, name: Name, value: seq<byte>)
    requires ChunksOk(cs) && k < |cs| && cs[k].token.Prop? && Meaning(cs[k].token, st) == Some([Property(name, value)])
    ensures StringAt(st, cs[k].token.nameoff) == Some(name) && cs[k].token.value == value
    ensures IsName(name) && |value| < LONG
  {
    assert [Property(name, value)][0].name == name;
    PropTagSize(cs[k].bytes, cs[k].token);
  }

  /** `nextprop_` and `fdt_getprop_by_offset`. */
  method VisitProp(s: seq<byte>, st: seq<byte>, start: nat, ghost cs: seq<Chunk>, ghost j: nat, ghost ps: seq<FdtTree.Prop>, ghost x: seq<Event>)
    returns (found: bool, name: Name, value: seq<byte>, next: nat, ghost k: nat)
    requires Block(s, cs) && j <= |cs| && start == Offset(cs, j)
    requires Tail(cs, j, st, FlattenProps(ps) + x) && NotProp(x)
    ensures found <==> ps != []
    ensures found ==> name == ps[0].name && value == ps[0].value && IsName(name) && |value| < LONG
    ensures found ==> k <= |cs| && next == Offset(cs, k) && Tail(cs, k, st, FlattenProps(ps[1..]) + x)
  {
    found, name, value, next, k := false, [], [], start, j;
    PropertyHere(cs, j, st, ps, x);
    var status, tag := NextProperty(s, start, cs, j);
    if status == Ok {
      ghost var h := NextPropTag(cs, j).index;
      PropertyRead(cs, h, st, ps[0].name, ps[0].value);
      name := StringAt(st, tag.token.nameoff).value;
      found, value, next, k := true, tag.token.value, tag.next, h + 1;
    }
  }

  // ---- Children ----

  /** The first child, if there is one. */
  lemma FirstKidTree(cs: seq<Chunk>, st: seq<byte>, f: Forest, p: Path, i: nat)
    requires Locates(cs, st, f, p, i)
    ensures var k := NextSub(cs, i + 1, 0);
            if At(f, p).kids.Empty? then k == None else k.Some? && Locates(cs, st, f, p + Child(0), k.value)
  {
    var g := At(f, p);
    var y := Flatten(g.rest) + After(f, p);
    NodeHere(cs, st, f, p, i);
    assert Behind(g, After(f, p)) == Flatten(g.kids) + ([EndNode] + y);
    PropsPassed(cs, i + 1, st, g.props, Flatten(g.kids) + ([EndNode] + y), 0, None);
    var j := AfterProps(cs, i + 1);
    if g.kids.Empty? {
      NoMore(cs, j, st, y);
    } else {
      OneAndRest(g.kids, [EndNode] + y);
      var h := HeadPassed(cs, j, st, g.kids, Flatten(g.kids.rest) + ([EndNode] + y), 0, None);
      KidLocated(cs, st, f, p, i, j, h, 0);
    }
  }

  /** The parent ends, behind FDT_NOP tags at most. */
  lemma NoMore(cs: seq<Chunk>, j: nat, st: seq<byte>, y: seq<Event>)
    requires j <= |cs| && Tail(cs, j, st, [] + ([EndNode] + y))
    ensures NextSub(cs, j, 0) == None
  {
    Seqs.Unit([EndNode] + y);
    var e := FirstEvent(cs, j, st, EndNode, y);
    NopsPassed(cs, j, e, st, [], 0);
  }

  /** Behind a child comes the end of the parent, or the next child. */
  lemma NextKidTree(cs: seq<Chunk>, st: seq<byte>, f: Forest, p: Path, m: nat, i: nat)
    requires Leads(f, p) && Locates(cs, st, f, p + Child(m), i)
    ensures var k, g := NextSub(cs, i + 1, 1), At(f, p + Child(m));
            if g.rest.Empty? then k == None
            else k.Some? && Locates(cs, st, f, p + Child(m + 1), k.value) && At(f, p + Child(m + 1)) == g.rest
  {
    var q := p + Child(m);
    var g, a := At(f, q), After(f, q);
    var y := Flatten(g.rest) + a;
    NodeHere(cs, st, f, q, i);
    assert Behind(g, a) == Flatten(g.kids) + ([EndNode] + y);
    var e := Inside(cs, i + 1, st, g, y, 1, None);
    if g.rest.Empty? {
      AfterChild(f, p, m);
      NoMore(cs, e + 1, st, Flatten(At(f, p).rest) + After(f, p));
    } else {
      OneAndRest(g.rest, a);
      var h := HeadPassed(cs, e + 1, st, g.rest, Flatten(g.rest.rest) + a, 0, None);
      BeforeNext(f, p, m);
      OneSpan(cs, i, e, h, st, g);
      Join(cs, 0, i, h, st, Before(f, q), FlattenOne(g));
    }
  }

  lemma OneSpan(cs: seq<Chunk>, i: nat, e: nat, h: nat, st: seq<byte>, g: Forest)
    requires g.Tree? && i < e < h <= |cs|
    requires Span(cs, i, i + 1, st, [BeginNode(g.name)])
    requires Span(cs, i + 1, e, st, FlattenProps(g.props) + Flatten(g.kids))
    requires Span(cs, e, e + 1, st, [EndNode]) && Span(cs, e + 1, h, st, [])
    ensures Span(cs, i, h, st, FlattenOne(g))
  {
    var q := FlattenProps(g.props) + Flatten(g.kids);
    Join(cs, e, e + 1, h, st, [EndNode], []);
    Seqs.Unit<Event>([EndNode]);
    Join(cs, i + 1, e, h, st, q, [EndNode]);
    Join(cs, i, i + 1, h, st, [BeginNode(g.name)], q + [EndNode]);
    OneIs([BeginNode(g.name)], FlattenProps(g.props), Flatten(g.kids), [EndNode]);
  }

  lemma {:induction false} AfterRight(f: Forest, m: nat)
    requires Leads(f, Right(m))
    ensures After(f, Right(m)) == []
    decreases m
  {
    if m > 0 {
      assert Right(m)[1..] == Right(m - 1);
      AfterRight(f.rest, m - 1);
    }
  }

  /** Behind the last child comes the end of its parent. */
  lemma {:induction false} AfterChild(f: Forest, p: Path, m: nat)
    requires Leads(f, p) && Leads(f, p + Child(m))
    ensures After(f, p + Child(m)) == [EndNode] + (Flatten(At(f, p).rest) + After(f, p))
    decreases |p|
  {
    if p == [] {
      Seqs.Unit(Child(m));
      Seqs.Unit(Flatten(f.rest));
      assert Child(m)[1..] == Right(m);
      AfterRight(f.kids, m);
      Seqs.Unit([EndNode]);
    } else {
      Seqs.DropAppend(p, Child(m));
      var h := if p[0] then f.kids else f.rest;
      AfterChild(h, p[1..], m);
      if p[0] {
        EndRegroup([EndNode], Flatten(At(h, p[1..]).rest), After(h, p[1..]), Flatten(f.rest));
      }
    }
  }

  lemma EndRegroup(e: seq<Event>, r: seq<Event>, a: seq<Event>, b: seq<Event>)
    ensures e + (r + a) + e + b == e + (r + (a + e + b))
  {
  }

  /** The next child comes behind all of the child before it. */
  lemma BeforeNext(f: Forest, p: Path, m: nat)
    requires Leads(f, p) && Leads(f, p + Child(m)) && At(f, p + Child(m)).rest.Tree?
    ensures Leads(f, p + Child(m + 1)) && At(f, p + Child(m + 1)) == At(f, p + Child(m)).rest
    ensures Before(f, p + Child(m + 1)) == Before(f, p + Child(m)) + FlattenOne(At(f, p + Child(m)))
  {
    var g := At(f, p + Child(m));
    RightSnoc(m);
    Seqs.Assoc([true], Right(m), [false]);
    Seqs.Assoc(p, Child(m), [false]);
    assert [false][1..] == [];
    assert Leads(g, [false]) && At(g, [false]) == g.rest;
    TwoLegs(f, p + Child(m), [false]);
    Seqs.Unit(FlattenOne(g));
  }

  lemma {:induction false} RightSnoc(m: nat)
    ensures Right(m + 1) == Right(m) + [false]
  {
    if m > 0 {
      RightSnoc(m - 1);
    }
  }

  // ---- The same on a blob ----

  method NodeName(b: Blob, node: nat, ghost cs: seq<Chunk>, ghost f: Forest, ghost p: Path, ghost i: nat) returns (name: Name)
    requires Holds(b, cs, f, p, i, node)
    ensures name == At(f, p).name && IsName(name)
  {
    NodeHere(cs, b.Strings(), f, p, i);
    TagAt(b.Struct(), cs, i);
    var tag := ReadTag(b.buf[b.offStruct..b.offStruct + b.sizeStruct], node);
    name := tag.token.name;
    NameRead(b.Struct(), node);
  }

  lemma NameRead(s: seq<byte>, o: nat)
    requires NextTag(s, o).Found? && NextTag(s, o).token.Begin?
    ensures IsName(NextTag(s, o).token.name)
  {
  }

  /** The blob holds the tree `f`; `sub` is child number `m` of the node at the end of the path, with its later
      siblings, and stands at `offset`, as tag number `k`. */
  ghost predicate OnKid(b: Blob, cs: seq<Chunk>, f: Forest, p: Path, m: nat, sub: Forest, k: nat, offset: nat)
    reads b, b.buf
  {
    Leads(f, p) && Holds(b, cs, f, p + Child(m), k, offset) && At(f, p + Child(m)) == sub
  }

  /** `fdt_first_subnode`. */
  method FirstKid(b: Blob, node: nat, ghost cs: seq<Chunk>, ghost f: Forest, ghost p: Path, ghost i: nat)
    returns (found: bool, offset: nat, ghost k: nat)
    requires Holds(b, cs, f, p, i, node)
    ensures found <==> At(f, p).kids.Tree?
    ensures found ==> OnKid(b, cs, f, p, 0, At(f, p).kids, k, offset)
  {
    FirstKidTree(cs, b.Strings(), f, p, i);
    found, offset := FirstSubnode(b.buf[b.offStruct..b.offStruct + b.sizeStruct], node, cs, i);
    k := NextSub(cs, i + 1, 0).Or(0);
    if found {
      DownToKids(f, p, 0);
    }
  }

  /** `fdt_next_subnode`. */
  method NextKid(b: Blob, node: nat, ghost cs: seq<Chunk>, ghost f: Forest, ghost p: Path, ghost m: nat, ghost sub: Forest, ghost i: nat)
    returns (found: bool, offset: nat, ghost k: nat)
    requires sub.Tree? && OnKid(b, cs, f, p, m, sub, i, node)
    ensures found <==> sub.rest.Tree?
    ensures found ==> OnKid(b, cs, f, p, m + 1, sub.rest, k, offset)
  {
    NextKidTree(cs, b.Strings(), f, p, m, i);
    found, offset := NextSubnode(b.buf[b.offStruct..b.offStruct + b.sizeStruct], node, cs, i);
    k := NextSub(cs, i + 1, 1).Or(0);
  }
}
