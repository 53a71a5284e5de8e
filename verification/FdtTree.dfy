/**
 Devicetrees and their structure blocks: what a stretch of tags means, and where in it a node lies.
 */
module FdtTree {
  import opened Options
  import opened FdtFormat
  import Seqs

  type Name = seq<byte>

  // ---- The meaning of tags ----

  /** The tags `cs`, with the strings `st`, mean the events `es`. */
  predicate Rep(cs: seq<Chunk>, st: seq<byte>, es: seq<Event>)
    decreases |cs|
  {
    if cs == [] then es == []
    else
      match Meaning(cs[0].token, st)
      case None => false
      case Some(e) => e <= es && Rep(cs[1..], st, es[|e|..])
  }

  lemma {:induction false} RepAppend(cs: seq<Chunk>, es: seq<Event>, ds: seq<Chunk>, fs: seq<Event>, st: seq<byte>)
    requires Rep(cs, st, es) && Rep(ds, st, fs)
    ensures Rep(cs + ds, st, es + fs)
    decreases |cs|
  {
    if cs == [] {
      Seqs.Unit(ds);
      Seqs.Unit(fs);
    } else {
      var e := Meaning(cs[0].token, st).value;
      assert e <= es && Rep(cs[1..], st, es[|e|..]);
      hide Rep, Meaning;
      RepAppend(cs[1..], es[|e|..], ds, fs, st);
      RepCons(cs[0], cs[1..] + ds, st, e, es[|e|..] + fs);
      Seqs.HeadTail(cs);
      Seqs.Assoc([cs[0]], cs[1..], ds);
      Seqs.FrontBack(e, es);
      Seqs.Assoc(e, es[|e|..], fs);
    }
  }

  lemma RepCons(c: Chunk, cs: seq<Chunk>, st: seq<byte>, e: seq<Event>, es: seq<Event>)
    requires Meaning(c.token, st) == Some(e) && Rep(cs, st, es)
    ensures Rep([c] + cs, st, e + es)
  {
    var ds, fs := [c] + cs, e + es;
    assert ds[0] == c && ds[1..] == cs && fs[..|e|] == e && fs[|e|..] == es;
  }

  /** The converse. */
  lemma RepTail(c: Chunk, cs: seq<Chunk>, st: seq<byte>, e: seq<Event>, es: seq<Event>)
    requires Meaning(c.token, st) == Some(e) && Rep([c] + cs, st, e + es)
    ensures Rep(cs, st, es)
  {
    var ds, fs := [c] + cs, e + es;
    assert ds[0] == c && ds[1..] == cs && fs[|e|..] == es;
  }

  /** A stretch is the meaning of its parts, in one way only. */
  lemma {:induction false} RepSuffix(cs: seq<Chunk>, es: seq<Event>, ds: seq<Chunk>, fs: seq<Event>, st: seq<byte>)
    requires Rep(cs, st, es) && Rep(cs + ds, st, es + fs)
    ensures Rep(ds, st, fs)
    decreases |cs|
  {
    if cs == [] {
      Seqs.Unit(ds);
      Seqs.Unit(fs);
    } else {
      var e := Meaning(cs[0].token, st).value;
      assert e <= es && Rep(cs[1..], st, es[|e|..]);
      hide Rep, Meaning;
      Seqs.HeadTail(cs);
      Seqs.Assoc([cs[0]], cs[1..], ds);
      Seqs.FrontBack(e, es);
      Seqs.Assoc(e, es[|e|..], fs);
      RepTail(cs[0], cs[1..] + ds, st, e, es[|e|..] + fs);
      RepSuffix(cs[1..], es[|e|..], ds, fs, st);
    }
  }

  lemma RepOne(c: Chunk, st: seq<byte>, e: seq<Event>)
    requires Meaning(c.token, st) == Some(e)
    ensures Rep([c], st, e)
  {
  }

  /** More strings at the end change nothing. */
  lemma {:induction false} RepMoreStrings(cs: seq<Chunk>, st: seq<byte>, more: seq<byte>, es: seq<Event>)
    requires Rep(cs, st, es)
    ensures Rep(cs, st + more, es)
    decreases |cs|
  {
    if cs != [] {
      var t := cs[0].token;
      if t.Prop? {
        StringInPrefix(st, more, t.nameoff);
      }
      RepMoreStrings(cs[1..], st, more, es[|Meaning(t, st).value|..]);
    }
  }

  // ---- Trees ----

  datatype Prop = Prop(name: Name, value: seq<byte>)

  /** Sibling nodes in order: the first with its properties and its children, then the others. */
  datatype Forest = Empty | Tree(name: Name, props: seq<Prop>, kids: Forest, rest: Forest)

  function FlattenProps(ps: seq<Prop>): seq<Event> {
    if ps == [] then [] else [Property(ps[0].name, ps[0].value)] + FlattenProps(ps[1..])
  }

  function Flatten(f: Forest): seq<Event> {
    match f
    case Empty => []
    case Tree(name, props, kids, rest) =>
      [BeginNode(name)] + FlattenProps(props) + Flatten(kids) + [EndNode] + Flatten(rest)
  }

  /** The way to a node: true goes down to the children, false on to the next sibling. */
  type Path = seq<bool>

  predicate Leads(f: Forest, p: Path)
    decreases |p|
  {
    f.Tree? && (p == [] || Leads(if p[0] then f.kids else f.rest, p[1..]))
  }

  /** The node at the end of the path, with its later siblings. */
  function At(f: Forest, p: Path): (g: Forest)
    requires Leads(f, p)
    ensures g.Tree?
    decreases |p|
  {
    if p == [] then f else At(if p[0] then f.kids else f.rest, p[1..])
  }

  /** The forest with `g` in place of what is at the end of the path. */
  function Put(f: Forest, p: Path, g: Forest): Forest
    requires Leads(f, p)
    decreases |p|
  {
    if p == [] then g
    else if p[0] then f.(kids := Put(f.kids, p[1..], g))
    else f.(rest := Put(f.rest, p[1..], g))
  }

  /** The events in front of the node. */
  function Before(f: Forest, p: Path): seq<Event>
    requires Leads(f, p)
    decreases |p|
  {
    if p == [] then []
    else if p[0] then [BeginNode(f.name)] + FlattenProps(f.props) + Before(f.kids, p[1..])
    else [BeginNode(f.name)] + FlattenProps(f.props) + Flatten(f.kids) + [EndNode] + Before(f.rest, p[1..])
  }

  /** The events behind the node and its later siblings. */
  function After(f: Forest, p: Path): seq<Event>
    requires Leads(f, p)
    decreases |p|
  {
    if p == [] then []
    else if p[0] then After(f.kids, p[1..]) + [EndNode] + Flatten(f.rest)
    else After(f.rest, p[1..])
  }

  lemma RegroupDown(h: seq<Event>, x: seq<Event>, g: seq<Event>, y: seq<Event>, e: seq<Event>, r: seq<Event>)
    ensures h + (x + g + y) + e + r == (h + x) + g + (y + e + r)
  {
  }

  lemma RegroupRight(h: seq<Event>, x: seq<Event>, g: seq<Event>, y: seq<Event>)
    ensures h + (x + g + y) == (h + x) + g + y
  {
  }

  /** An edit at a node changes its own events and no others. */
  lemma {:induction false} FlattenPut(f: Forest, p: Path, g: Forest)
    requires Leads(f, p)
    ensures Flatten(Put(f, p, g)) == Before(f, p) + Flatten(g) + After(f, p)
    decreases |p|
  {
    if p == [] {
    } else if p[0] {
      FlattenPut(f.kids, p[1..], g);
      RegroupDown([BeginNode(f.name)] + FlattenProps(f.props), Before(f.kids, p[1..]), Flatten(g), After(f.kids, p[1..]),
                  [EndNode], Flatten(f.rest));
    } else {
      FlattenPut(f.rest, p[1..], g);
      RegroupRight([BeginNode(f.name)] + FlattenProps(f.props) + Flatten(f.kids) + [EndNode],
                   Before(f.rest, p[1..]), Flatten(g), After(f.rest, p[1..]));
    }
  }

  lemma {:induction false} PutAt(f: Forest, p: Path)
    requires Leads(f, p)
    ensures Put(f, p, At(f, p)) == f
    decreases |p|
  {
    if p != [] {
      PutAt(if p[0] then f.kids else f.rest, p[1..]);
    }
  }

  /** A path in two legs. */
  lemma {:induction false} TwoLegs(f: Forest, p: Path, q: Path)
    requires Leads(f, p) && Leads(At(f, p), q)
    ensures Leads(f, p + q) && At(f, p + q) == At(At(f, p), q)
    ensures Before(f, p + q) == Before(f, p) + Before(At(f, p), q)
    decreases |p|
  {
    if p == [] {
      Seqs.Unit(q);
      Seqs.Unit(Before(f, q));
    } else {
      var h := if p[0] then f.kids else f.rest;
      TwoLegs(h, p[1..], q);
      Seqs.DropAppend(p, q);
      var b := [BeginNode(f.name)] + FlattenProps(f.props);
      Seqs.Assoc(if p[0] then b else b + Flatten(f.kids) + [EndNode], Before(h, p[1..]), Before(At(h, p[1..]), q));
    }
  }

  lemma {:induction false} PutLegs(f: Forest, p: Path, q: Path, g: Forest)
    requires Leads(f, p) && Leads(At(f, p), q)
    ensures Leads(f, p + q) && Put(f, p + q, g) == Put(f, p, Put(At(f, p), q, g))
    decreases |p|
  {
    if p == [] {
      assert p + q == q;
    } else {
      PutLegs(if p[0] then f.kids else f.rest, p[1..], q, g);
      assert (p + q)[1..] == p[1..] + q;
    }
  }

  /** An edit leaves what is in front of the node as it was. */
  lemma {:induction false} BeforePut(f: Forest, p: Path, g: Forest)
    requires Leads(f, p) && g.Tree?
    ensures Leads(Put(f, p, g), p) && At(Put(f, p, g), p) == g && Before(Put(f, p, g), p) == Before(f, p)
    decreases |p|
  {
    if p != [] {
      BeforePut(if p[0] then f.kids else f.rest, p[1..], g);
    }
  }

  lemma {:induction false} PutPut(f: Forest, p: Path, g: Forest, h: Forest)
    requires Leads(f, p) && g.Tree?
    ensures Leads(Put(f, p, g), p) && Put(Put(f, p, g), p, h) == Put(f, p, h)
    decreases |p|
  {
    if p != [] {
      PutPut(if p[0] then f.kids else f.rest, p[1..], g, h);
    }
  }

  // ---- A structure block means one tree ----

  ghost predicate Closed(a: seq<Event>) { a == [] || a[0].EndNode? }

  lemma PropsHead(ps: seq<Prop>, x: seq<Event>)
    ensures FlattenProps(ps) + x ==
              if ps == [] then x else [Property(ps[0].name, ps[0].value)] + (FlattenProps(ps[1..]) + x)
  {
    if ps == [] {
      Seqs.Unit(x);
    } else {
      Seqs.Assoc([Property(ps[0].name, ps[0].value)], FlattenProps(ps[1..]), x);
    }
  }

  lemma {:induction false} PropsUnique(ps: seq<Prop>, qs: seq<Prop>, x: seq<Event>, y: seq<Event>)
    requires FlattenProps(ps) + x == FlattenProps(qs) + y && x != [] && y != [] && !x[0].Property? && !y[0].Property?
    ensures ps == qs && x == y
    decreases |ps|
  {
    hide FlattenProps;
    PropsHead(ps, x);
    PropsHead(qs, y);
    if ps != [] && qs != [] {
      var u, v := FlattenProps(ps[1..]) + x, FlattenProps(qs[1..]) + y;
      ConsUnique(Property(ps[0].name, ps[0].value), u, Property(qs[0].name, qs[0].value), v);
      PropsUnique(ps[1..], qs[1..], x, y);
      Seqs.HeadTail(ps);
      Seqs.HeadTail(qs);
    }
  }

  lemma Nested(n: seq<Event>, p: seq<Event>, k: seq<Event>, e: seq<Event>, r: seq<Event>, a: seq<Event>)
    ensures n + p + k + e + r + a == n + (p + (k + (e + (r + a))))
  {
  }

  /** The events behind the properties of the first node. */
  function Inner(f: Forest, a: seq<Event>): (x: seq<Event>)
    requires f.Tree?
    ensures x != [] && !x[0].Property?
  {
    HeadIsNode(f.kids);
    Flatten(f.kids) + ([EndNode] + (Flatten(f.rest) + a))
  }

  lemma HeadIsNode(f: Forest)
    ensures if f.Empty? then Flatten(f) == [] else Flatten(f) != [] && Flatten(f)[0] == BeginNode(f.name)
  {
  }

  lemma FlattenCons(f: Forest, a: seq<Event>)
    requires f.Tree?
    ensures Flatten(f) + a == [BeginNode(f.name)] + (FlattenProps(f.props) + Inner(f, a))
  {
    Nested([BeginNode(f.name)], FlattenProps(f.props), Flatten(f.kids), [EndNode], Flatten(f.rest), a);
  }

  /** Two trees with the same events are the same tree. */
  lemma {:induction false} FlattenUnique(f: Forest, g: Forest, a: seq<Event>, b: seq<Event>)
    requires Flatten(f) + a == Flatten(g) + b && Closed(a) && Closed(b)
    ensures f == g && a == b
    decreases f
  {
    BothEmpty(f, g, a, b);
    if f.Empty? {
      assert Flatten(f) + a == a && Flatten(g) + b == b;
    } else {
      FlattenCons(f, a);
      FlattenCons(g, b);
      ConsUnique(BeginNode(f.name), FlattenProps(f.props) + Inner(f, a), BeginNode(g.name), FlattenProps(g.props) + Inner(g, b));
      PropsUnique(f.props, g.props, Inner(f, a), Inner(g, b));
      var u, v := Flatten(f.rest) + a, Flatten(g.rest) + b;
      FlattenUnique(f.kids, g.kids, [EndNode] + u, [EndNode] + v);
      ConsUnique(EndNode, u, EndNode, v);
      FlattenUnique(f.rest, g.rest, a, b);
    }
  }

  lemma ConsUnique(d: Event, x: seq<Event>, e: Event, y: seq<Event>)
    requires [d] + x == [e] + y
    ensures d == e && x == y
  {
    assert ([d] + x)[0] == d && ([d] + x)[1..] == x;
    assert ([e] + y)[0] == e && ([e] + y)[1..] == y;
  }

  lemma BothEmpty(f: Forest, g: Forest, a: seq<Event>, b: seq<Event>)
    requires Flatten(f) + a == Flatten(g) + b && Closed(a) && Closed(b)
    ensures f.Empty? <==> g.Empty?
  {
    HeadIsNode(f);
    HeadIsNode(g);
    assert f.Empty? ==> Flatten(f) + a == a;
    assert g.Empty? ==> Flatten(g) + b == b;
  }
}
