/**
 Edits of a blob as edits of its tree: what the editor does to the tags of a structure block, the tree that
 they mean undergoes exactly at the named node.
 */
module FdtCommute {
  import opened Options
  import opened FdtFormat
  import opened FdtTree
  import opened FdtEdit
  import Seqs

  // ---- Stretches of a tag list ----

  /** The tags from `j` to `k` mean the events `es`. */
  ghost predicate Span(cs: seq<Chunk>, j: nat, k: nat, st: seq<byte>, es: seq<Event>) {
    j <= k <= |cs| && forall ds :: ds == cs[j..k] ==> Rep(ds, st, es)
  }

  /** The tags from `j` on mean the events `es`. */
  ghost predicate Tail(cs: seq<Chunk>, j: nat, st: seq<byte>, es: seq<Event>) {
    Span(cs, j, |cs|, st, es)
  }

  lemma SpanIs(cs: seq<Chunk>, j: nat, k: nat, st: seq<byte>, es: seq<Event>)
    requires j <= k <= |cs|
    ensures Span(cs, j, k, st, es) <==> Rep(cs[j..k], st, es)
  {
  }

  lemma TailSlice(cs: seq<Chunk>, j: nat, st: seq<byte>, es: seq<Event>)
    requires j < |cs|
    ensures Tail(cs, j, st, es) <==>
              Meaning(cs[j].token, st).Some? && Meaning(cs[j].token, st).value <= es
              && Tail(cs, j + 1, st, es[|Meaning(cs[j].token, st).value|..])
  {
    SpanIs(cs, j, |cs|, st, es);
    assert cs[j..|cs|][1..] == cs[j + 1..|cs|];
    if Meaning(cs[j].token, st).Some? && Meaning(cs[j].token, st).value <= es {
      SpanIs(cs, j + 1, |cs|, st, es[|Meaning(cs[j].token, st).value|..]);
    }
  }

  lemma TailEnd(cs: seq<Chunk>, st: seq<byte>, es: seq<Event>)
    ensures Tail(cs, |cs|, st, es) <==> es == []
  {
    SpanIs(cs, |cs|, |cs|, st, es);
  }

  lemma Join(cs: seq<Chunk>, j: nat, k: nat, l: nat, st: seq<byte>, es: seq<Event>, fs: seq<Event>)
    requires Span(cs, j, k, st, es) && Span(cs, k, l, st, fs)
    ensures Span(cs, j, l, st, es + fs)
  {
    SpanIs(cs, j, k, st, es);
    SpanIs(cs, k, l, st, fs);
    RepAppend(cs[j..k], es, cs[k..l], fs, st);
    assert cs[j..k] + cs[k..l] == cs[j..l];
    SpanIs(cs, j, l, st, es + fs);
  }

  lemma Unit(cs: seq<Chunk>, j: nat, st: seq<byte>, e: seq<Event>)
    requires j < |cs| && Meaning(cs[j].token, st) == Some(e)
    ensures Span(cs, j, j + 1, st, e)
  {
    RepOne(cs[j], st, e);
    assert cs[j..j + 1] == [cs[j]];
  }

  lemma Nothing(cs: seq<Chunk>, j: nat, st: seq<byte>)
    requires j <= |cs|
    ensures Span(cs, j, j, st, [])
  {
  }

  lemma {:induction false} NopSpan(cs: seq<Chunk>, j: nat, k: nat, st: seq<byte>)
    requires j <= k <= |cs| && forall m :: j <= m < k ==> cs[m].token == Token.Nop
    ensures Span(cs, j, k, st, [])
    decreases k - j
  {
    if j < k {
      NopSpan(cs, j + 1, k, st);
      Unit(cs, j, st, []);
      Join(cs, j, j + 1, k, st, [], []);
    } else {
      Nothing(cs, j, st);
    }
  }

  /** A tag that is not FDT_NOP and begins the stretch is its first event. */
  lemma HeadEvent(cs: seq<Chunk>, j: nat, st: seq<byte>, e: Event, es: seq<Event>)
    requires j < |cs| && Tail(cs, j, st, [e] + es) && cs[j].token != Token.Nop
    ensures Meaning(cs[j].token, st) == Some([e]) && Tail(cs, j + 1, st, es)
  {
    TailSlice(cs, j, st, [e] + es);
    var m := Meaning(cs[j].token, st).value;
    assert |m| == 1 && m[0] == ([e] + es)[0];
    assert m == [e] && ([e] + es)[1..] == es;
  }

  /** The tag of the first event, behind FDT_NOP tags that lookups pass over. */
  lemma {:induction false} FirstEvent(cs: seq<Chunk>, j: nat, st: seq<byte>, e: Event, es: seq<Event>) returns (k: nat)
    requires j <= |cs| && Tail(cs, j, st, [e] + es)
    ensures j <= k < |cs| && Meaning(cs[k].token, st) == Some([e]) && Tail(cs, k + 1, st, es)
    ensures forall m :: j <= m < k ==> cs[m].token == Token.Nop
    decreases |cs| - j
  {
    if j == |cs| {
      TailEnd(cs, st, [e] + es);
      assert false;
    }
    if cs[j].token == Token.Nop {
      TailSlice(cs, j, st, [e] + es);
      assert ([e] + es)[0..] == [e] + es;
      k := FirstEvent(cs, j + 1, st, e, es);
    } else {
      HeadEvent(cs, j, st, e, es);
      k := j;
    }
  }

  /** The first event with the tags in front of it. */
  lemma UpTo(cs: seq<Chunk>, j: nat, k: nat, st: seq<byte>, e: Event)
    requires j <= k < |cs| && Meaning(cs[k].token, st) == Some([e])
    requires forall m :: j <= m < k ==> cs[m].token == Token.Nop
    ensures Span(cs, j, k, st, []) && Span(cs, j, k + 1, st, [e])
  {
    NopSpan(cs, j, k, st);
    Unit(cs, k, st, [e]);
    Join(cs, j, k, k + 1, st, [], [e]);
    assert [] + [e] == [e];
  }

  /** Lookups pass over FDT_NOP. */
  lemma {:induction false} NopsPassed(cs: seq<Chunk>, j: nat, k: nat, st: seq<byte>, name: seq<byte>, d: nat)
    requires j <= k <= |cs| && forall m :: j <= m < k ==> cs[m].token == Token.Nop
    ensures FindProp(cs, j, st, name) == FindProp(cs, k, st, name)
    ensures FindSub(cs, j, d, name) == FindSub(cs, k, d, name)
    ensures Close(cs, j, d) == Close(cs, k, d)
    ensures AfterProps(cs, j) == AfterProps(cs, k)
    ensures NextSub(cs, j, d) == NextSub(cs, k, d) && NextPropTag(cs, j) == NextPropTag(cs, k)
    decreases k - j
  {
    if j < k {
      NopsPassed(cs, j + 1, k, st, name, d);
    }
  }

  // ---- Properties ----

  /** The number of the first property called `name`, or the length. */
  function FirstProp(ps: seq<FdtTree.Prop>, name: seq<byte>): (m: nat)
    ensures m <= |ps| && (m < |ps| ==> ps[m].name == name)
    ensures forall k :: 0 <= k < m ==> ps[k].name != name
  {
    if ps == [] || ps[0].name == name then 0 else FirstProp(ps[1..], name) + 1
  }

  ghost predicate NotProp(es: seq<Event>) { es != [] && !es[0].Property? }

  /** The lookup of `name` from tag `j` on gives the first such property of `ps`, and stops in front of `x`. */
  ghost predicate PropFound(cs: seq<Chunk>, j: nat, st: seq<byte>, ps: seq<FdtTree.Prop>, x: seq<Event>, name: seq<byte>)
    requires j <= |cs|
  {
    var m, r := FirstProp(ps, name), FindProp(cs, j, st, name);
    if m == |ps| then r == Missing
    else
      && r.Place? && Span(cs, j, r.index, st, FlattenProps(ps[..m]))
      && Meaning(cs[r.index].token, st) == Some([Property(name, ps[m].value)])
      && Tail(cs, r.index + 1, st, FlattenProps(ps[m + 1..]) + x)
  }

  lemma NoProps(cs: seq<Chunk>, j: nat, st: seq<byte>, x: seq<Event>, name: seq<byte>)
    requires j <= |cs| && Tail(cs, j, st, x) && NotProp(x)
    ensures FindProp(cs, j, st, name) == Missing
  {
    assert x == [x[0]] + x[1..];
    var k := FirstEvent(cs, j, st, x[0], x[1..]);
    NopsPassed(cs, j, k, st, name, 0);
  }

  lemma ThisProp(cs: seq<Chunk>, j: nat, k: nat, st: seq<byte>, ps: seq<FdtTree.Prop>, x: seq<Event>, name: seq<byte>)
    requires j <= k < |cs| && ps != [] && ps[0].name == name && Span(cs, j, k, st, [])
    requires Meaning(cs[k].token, st) == Some([Property(name, ps[0].value)]) && Tail(cs, k + 1, st, FlattenProps(ps[1..]) + x)
    requires FindProp(cs, j, st, name) == FindProp(cs, k, st, name)
    ensures PropFound(cs, j, st, ps, x, name)
  {
  }

  lemma NextProp(cs: seq<Chunk>, j: nat, k: nat, st: seq<byte>, ps: seq<FdtTree.Prop>, x: seq<Event>, name: seq<byte>)
    requires j <= k < |cs| && ps != [] && ps[0].name != name && Span(cs, j, k + 1, st, [Property(ps[0].name, ps[0].value)])
    requires FindProp(cs, j, st, name) == FindProp(cs, k + 1, st, name)
    requires PropFound(cs, k + 1, st, ps[1..], x, name)
    ensures PropFound(cs, j, st, ps, x, name)
  {
    var m, r := FirstProp(ps, name), FindProp(cs, j, st, name);
    if m < |ps| {
      Join(cs, j, k + 1, r.index, st, [Property(ps[0].name, ps[0].value)], FlattenProps(ps[1..][..m - 1]));
      assert ps[..m][0] == ps[0] && ps[..m][1..] == ps[1..][..m - 1];
      assert ps[1..][m..] == ps[m + 1..];
    }
  }

  /** Looking up a property in a stretch that means the properties `ps` and something else behind them. */
  lemma {:induction false} PropLookup(cs: seq<Chunk>, j: nat, st: seq<byte>, ps: seq<FdtTree.Prop>, x: seq<Event>, name: seq<byte>)
    requires j <= |cs| && Tail(cs, j, st, FlattenProps(ps) + x) && NotProp(x)
    ensures PropFound(cs, j, st, ps, x, name)
    decreases |ps|
  {
    if ps == [] {
      assert FlattenProps(ps) + x == x;
      NoProps(cs, j, st, x, name);
    } else {
      var e := Property(ps[0].name, ps[0].value);
      assert FlattenProps(ps) + x == [e] + (FlattenProps(ps[1..]) + x);
      var k := FirstEvent(cs, j, st, e, FlattenProps(ps[1..]) + x);
      UpTo(cs, j, k, st, e);
      NopsPassed(cs, j, k, st, name, 0);
      if ps[0].name == name {
        ThisProp(cs, j, k, st, ps, x, name);
      } else {
        PropLookup(cs, k + 1, st, ps[1..], x, name);
        NextProp(cs, j, k, st, ps, x, name);
      }
    }
  }

  // ---- Where a node lies ----

  /** The tags `cs` mean the tree `f`, and tag number `i` begins the node at the end of the path. */
  ghost predicate Locates(cs: seq<Chunk>, st: seq<byte>, f: Forest, p: Path, i: nat) {
    && Rep(cs, st, Flatten(f)) && Leads(f, p)
    && i < |cs| && cs[i].token.Begin? && Span(cs, 0, i, st, Before(f, p))
  }

  /** The events behind the properties of the node `g`. */
  function Behind(g: Forest, after: seq<Event>): (x: seq<Event>)
    requires g.Tree?
    ensures NotProp(x)
  {
    KidsNotProp(g.kids);
    Flatten(g.kids) + [EndNode] + (Flatten(g.rest) + after)
  }

  lemma KidsNotProp(f: Forest)
    ensures f.Tree? ==> NotProp(Flatten(f))
  {
  }

  lemma Regroup(b: seq<Event>, n: seq<Event>, p: seq<Event>, k: seq<Event>, e: seq<Event>, r: seq<Event>, a: seq<Event>)
    ensures b + (n + p + k + e + r) + a == b + (n + (p + (k + e + (r + a))))
  {
  }

  lemma FlattenNode(g: Forest, before: seq<Event>, after: seq<Event>)
    requires g.Tree?
    ensures before + Flatten(g) + after == before + ([BeginNode(g.name)] + (FlattenProps(g.props) + Behind(g, after)))
  {
    Regroup(before, [BeginNode(g.name)], FlattenProps(g.props), Flatten(g.kids), [EndNode], Flatten(g.rest), after);
  }

  /** What stands at the node and behind it. */
  lemma NodeHere(cs: seq<Chunk>, st: seq<byte>, f: Forest, p: Path, i: nat)
    requires Locates(cs, st, f, p, i)
    ensures var g := At(f, p);
            cs[i].token == Begin(g.name) && Span(cs, i, i + 1, st, [BeginNode(g.name)])
            && Tail(cs, i + 1, st, FlattenProps(g.props) + Behind(g, After(f, p)))
  {
    var g := At(f, p);
    var x := FlattenProps(g.props) + Behind(g, After(f, p));
    PutAt(f, p);
    FlattenPut(f, p, g);
    FlattenNode(g, Before(f, p), After(f, p));
    Behead(cs, st, i, Before(f, p), [BeginNode(g.name)] + x);
    HeadEvent(cs, i, st, BeginNode(g.name), x);
    Unit(cs, i, st, [BeginNode(g.name)]);
  }

  lemma Behead(cs: seq<Chunk>, st: seq<byte>, i: nat, es: seq<Event>, fs: seq<Event>)
    requires Rep(cs, st, es + fs) && Span(cs, 0, i, st, es)
    ensures Tail(cs, i, st, fs)
  {
    SpanIs(cs, 0, i, st, es);
    assert cs == cs[0..i] + cs[i..|cs|];
    RepSuffix(cs[0..i], es, cs[i..|cs|], fs, st);
    SpanIs(cs, i, |cs|, st, fs);
  }

  lemma {:induction false} FlattenPropsAppend(a: seq<FdtTree.Prop>, b: seq<FdtTree.Prop>)
    ensures FlattenProps(a + b) == FlattenProps(a) + FlattenProps(b)
  {
    if a == [] {
      Seqs.Unit(b);
      Seqs.Unit(FlattenProps(b));
    } else {
      FlattenPropsAppend(a[1..], b);
      Seqs.DropAppend(a, b);
      Seqs.Assoc([Property(a[0].name, a[0].value)], FlattenProps(a[1..]), FlattenProps(b));
    }
  }

  /** Tags in front of the node, the node's own tag, and two stretches for what it has and what is behind it make
      up the edited tree. */
  lemma Assemble(a: seq<Chunk>, n: Chunk, u: seq<Chunk>, us: seq<Event>, v: seq<Chunk>, vs: seq<Event>, st: seq<byte>,
                 f: Forest, p: Path, g: Forest)
    requires Leads(f, p) && g.Tree? && Rep(a, st, Before(f, p)) && n.token == Begin(g.name)
    requires Rep(u, st, us) && Rep(v, st, vs) && us + vs == FlattenProps(g.props) + Behind(g, After(f, p))
    ensures Rep(a + [n] + u + v, st, Flatten(Put(f, p, g)))
  {
    RepFour(a, Before(f, p), n, [BeginNode(g.name)], u, us, v, vs, st);
    FlattenPut(f, p, g);
    FlattenNode(g, Before(f, p), After(f, p));
  }

  lemma RepFour(a: seq<Chunk>, as0: seq<Event>, n: Chunk, e: seq<Event>, u: seq<Chunk>, us: seq<Event>,
                v: seq<Chunk>, vs: seq<Event>, st: seq<byte>)
    requires Rep(a, st, as0) && Meaning(n.token, st) == Some(e) && Rep(u, st, us) && Rep(v, st, vs)
    ensures Rep(a + [n] + u + v, st, as0 + (e + (us + vs)))
  {
    RepOne(n, st, e);
    RepAppend(u, us, v, vs, st);
    RepAppend([n], e, u + v, us + vs, st);
    RepAppend(a, as0, [n] + (u + v), e + (us + vs), st);
    Seqs.Assoc4(a, [n], u, v);
  }

  lemma InFront(cs: seq<Chunk>, st: seq<byte>, f: Forest, p: Path, i: nat)
    requires Locates(cs, st, f, p, i)
    ensures Leads(f, p) && i < |cs| && Rep(cs[..i], st, Before(f, p))
  {
    SpanIs(cs, 0, i, st, Before(f, p));
    assert cs[0..i] == cs[..i];
  }

  /** Other tags in place of those from `j` to `k`, behind the node's own: then the tree has `g` there, if what stands
      there now means what is in `g` and behind it. */
  lemma Exchange(cs: seq<Chunk>, st: seq<byte>, f: Forest, p: Path, i: nat, j: nat, k: nat, mid: seq<Chunk>,
                 us: seq<Event>, es: seq<Event>, vs: seq<Event>, g: Forest)
    requires Locates(cs, st, f, p, i) && i < j <= k <= |cs| && g.Tree? && cs[i].token == Begin(g.name)
    requires Span(cs, i + 1, j, st, us) && Rep(mid, st, es) && Tail(cs, k, st, vs)
    requires us + es + vs == FlattenProps(g.props) + Behind(g, After(f, p))
    ensures Rep(cs[..j] + mid + cs[k..], st, Flatten(Put(f, p, g)))
  {
    hide *;
    InFront(cs, st, f, p, i);
    SpanIs(cs, i + 1, j, st, us);
    TailIs(cs, k, st, vs);
    RepAppend(cs[i + 1..j], us, mid, es, st);
    Assemble(cs[..i], cs[i], cs[i + 1..j] + mid, us + es, cs[k..], vs, st, f, p, g);
    PutBack(cs, i, j, k, mid);
  }

  lemma TailIs(cs: seq<Chunk>, k: nat, st: seq<byte>, vs: seq<Event>)
    requires Tail(cs, k, st, vs)
    ensures k <= |cs| && Rep(cs[k..], st, vs)
  {
    SpanIs(cs, k, |cs|, st, vs);
    assert cs[k..|cs|] == cs[k..];
  }

  lemma PutBack(cs: seq<Chunk>, i: nat, j: nat, k: nat, mid: seq<Chunk>)
    requires i < j <= k <= |cs|
    ensures cs[..i] + [cs[i]] + (cs[i + 1..j] + mid) + cs[k..] == cs[..j] + mid + cs[k..]
  {
  }

  lemma BehindSame(g: Forest, ps: seq<FdtTree.Prop>, after: seq<Event>)
    requires g.Tree?
    ensures Behind(g.(props := ps), after) == Behind(g, after)
  {
  }

  // ---- The edits ----

  /** `fdt_delprop` takes the first property of that name from the node and changes nothing else; it answers
      FDT_ERR_NOTFOUND exactly when the node has none. */
  lemma DelPropTree(cs: seq<Chunk>, st: seq<byte>, f: Forest, p: Path, i: nat, name: seq<byte>)
    requires Locates(cs, st, f, p, i)
    ensures var g := At(f, p);
            var m := FirstProp(g.props, name);
            if m == |g.props| then PropStatus(cs, i, st, name) == NotFound
            else
              && PropStatus(cs, i, st, name) == Ok && FindProp(cs, i + 1, st, name).Place?
              && var k := FindProp(cs, i + 1, st, name).index;
                 Rep(cs[..k] + [] + cs[k + 1..], st, Flatten(Put(f, p, g.(props := g.props[..m] + g.props[m + 1..]))))
  {
    hide Flatten, FlattenProps, Behind, Rep, Put, Before, After, Span, Tail;
    var g := At(f, p);
    var m := FirstProp(g.props, name);
    NodeHere(cs, st, f, p, i);
    PropLookup(cs, i + 1, st, g.props, Behind(g, After(f, p)), name);
    if m < |g.props| {
      var k := FindProp(cs, i + 1, st, name).index;
      RemoveProp(cs, st, f, p, i, k, m);
    }
  }

  lemma NoChunks(st: seq<byte>)
    ensures Rep([], st, [])
  {
  }

  lemma RemoveProp(cs: seq<Chunk>, st: seq<byte>, f: Forest, p: Path, i: nat, k: nat, m: nat)
    requires Locates(cs, st, f, p, i) && i < k < |cs| && m < |At(f, p).props|
    requires cs[i].token == Begin(At(f, p).name) && Span(cs, i + 1, k, st, FlattenProps(At(f, p).props[..m]))
    requires Tail(cs, k + 1, st, FlattenProps(At(f, p).props[m + 1..]) + Behind(At(f, p), After(f, p)))
    ensures var g := At(f, p);
            Rep(cs[..k] + [] + cs[k + 1..], st, Flatten(Put(f, p, g.(props := g.props[..m] + g.props[m + 1..]))))
  {
    hide *;
    InFront(cs, st, f, p, i);
    var g := At(f, p);
    var ps := g.props[..m] + g.props[m + 1..];
    FlattenPropsAppend(g.props[..m], g.props[m + 1..]);
    BehindSame(g, ps, After(f, p));
    NoChunks(st);
    Seqs.Unit(FlattenProps(g.props[..m]));
    Seqs.Assoc(FlattenProps(g.props[..m]), FlattenProps(g.props[m + 1..]), Behind(g, After(f, p)));
    Exchange(cs, st, f, p, i, k, k + 1, [], FlattenProps(g.props[..m]), [], FlattenProps(g.props[m + 1..]) + Behind(g, After(f, p)),
             g.(props := ps));
  }

  /** The properties after setting one. */
  function SetProps(ps: seq<FdtTree.Prop>, name: seq<byte>, value: seq<byte>): seq<FdtTree.Prop> {
    var m := FirstProp(ps, name);
    if m == |ps| then [FdtTree.Prop(name, value)] + ps else ps[m := FdtTree.Prop(name, value)]
  }

  lemma ReplaceProp(cs: seq<Chunk>, st: seq<byte>, f: Forest, p: Path, i: nat, k: nat, m: nat, c: Chunk, name: seq<byte>, value: seq<byte>)
    requires Locates(cs, st, f, p, i) && i < k < |cs| && m < |At(f, p).props|
    requires cs[i].token == Begin(At(f, p).name) && Span(cs, i + 1, k, st, FlattenProps(At(f, p).props[..m]))
    requires Tail(cs, k + 1, st, FlattenProps(At(f, p).props[m + 1..]) + Behind(At(f, p), After(f, p)))
    requires Meaning(c.token, st) == Some([Property(name, value)])
    ensures var g := At(f, p);
            Rep(cs[..k] + [c] + cs[k + 1..], st, Flatten(Put(f, p, g.(props := g.props[m := FdtTree.Prop(name, value)]))))
  {
    hide *;
    InFront(cs, st, f, p, i);
    var g := At(f, p);
    var ps, e := g.props[m := FdtTree.Prop(name, value)], [Property(name, value)];
    ReplacedProps(g.props, m, name, value);
    BehindSame(g, ps, After(f, p));
    RepOne(c, st, e);
    Seqs.Assoc(FlattenProps(g.props[..m]) + e, FlattenProps(g.props[m + 1..]), Behind(g, After(f, p)));
    Exchange(cs, st, f, p, i, k, k + 1, [c], FlattenProps(g.props[..m]), e, FlattenProps(g.props[m + 1..]) + Behind(g, After(f, p)),
             g.(props := ps));
  }

  lemma ReplacedProps(ps: seq<FdtTree.Prop>, m: nat, name: seq<byte>, value: seq<byte>)
    requires m < |ps|
    ensures FlattenProps(ps[m := FdtTree.Prop(name, value)])
         == FlattenProps(ps[..m]) + [Property(name, value)] + FlattenProps(ps[m + 1..])
  {
    var n := FdtTree.Prop(name, value);
    assert ps[m := n] == ps[..m] + [n] + ps[m + 1..];
    FlattenPropsAppend(ps[..m] + [n], ps[m + 1..]);
    FlattenPropsAppend(ps[..m], [n]);
    assert FlattenProps([n]) == [Property(name, value)] + [];
  }

  lemma InsertFirstProp(cs: seq<Chunk>, st: seq<byte>, f: Forest, p: Path, i: nat, c: Chunk, name: seq<byte>, value: seq<byte>)
    requires Locates(cs, st, f, p, i) && Meaning(c.token, st) == Some([Property(name, value)])
    ensures var g := At(f, p);
            Rep(cs[..i + 1] + [c] + cs[i + 1..], st, Flatten(Put(f, p, g.(props := [FdtTree.Prop(name, value)] + g.props))))
  {
    hide *;
    InFront(cs, st, f, p, i);
    var g := At(f, p);
    var ps, e := [FdtTree.Prop(name, value)] + g.props, [Property(name, value)];
    NodeHere(cs, st, f, p, i);
    RepOne(c, st, e);
    OneMoreProp(g.props, name, value);
    BehindSame(g, ps, After(f, p));
    Nothing(cs, i + 1, st);
    Seqs.Unit(e);
    Seqs.Assoc(e, FlattenProps(g.props), Behind(g, After(f, p)));
    Exchange(cs, st, f, p, i, i + 1, i + 1, [c], [], e, FlattenProps(g.props) + Behind(g, After(f, p)), g.(props := ps));
  }

  lemma OneMoreProp(ps: seq<FdtTree.Prop>, name: seq<byte>, value: seq<byte>)
    ensures FlattenProps([FdtTree.Prop(name, value)] + ps) == [Property(name, value)] + FlattenProps(ps)
  {
    assert ([FdtTree.Prop(name, value)] + ps)[1..] == ps;
  }

  /** `fdt_setprop` gives the node the property, in the place of the first of that name or in front, and changes
      nothing else. */
  lemma SetPropTree(cs: seq<Chunk>, st: seq<byte>, f: Forest, p: Path, i: nat, ds: seq<Chunk>, st': seq<byte>,
                    name: seq<byte>, value: seq<byte>)
    requires Locates(cs, st, f, p, i) && SetTags(cs, i, st, ds, st', name, value)
    ensures var g := At(f, p);
            Rep(ds, st', Flatten(Put(f, p, g.(props := SetProps(g.props, name, value)))))
  {
    hide Flatten, FlattenProps, Behind, Rep, Put, Before, After, Span, Tail, StringAt;
    var g := At(f, p);
    var m := FirstProp(g.props, name);
    NodeHere(cs, st, f, p, i);
    PropLookup(cs, i + 1, st, g.props, Behind(g, After(f, p)), name);
    if m < |g.props| {
      var k := FindProp(cs, i + 1, st, name).index;
      var c: Chunk :| c.token == cs[k].token.(value := value) && ds == cs[..k] + [c] + cs[k + 1..];
      ReplaceProp(cs, st, f, p, i, k, m, c, name, value);
    } else {
      var more := if Occurs(st, name) then [] else name + [0];
      var c: Chunk :| c.token.Prop? && c.token.value == value && StringAt(st', c.token.nameoff) == Some(name)
                      && ds == cs[..i + 1] + [c] + cs[i + 1..];
      LocatesMore(cs, st, more, f, p, i);
      InsertFirstProp(cs, st', f, p, i, c, name, value);
    }
  }

  lemma LocatesMore(cs: seq<Chunk>, st: seq<byte>, more: seq<byte>, f: Forest, p: Path, i: nat)
    requires Locates(cs, st, f, p, i)
    ensures Locates(cs, st + more, f, p, i)
  {
    RepMoreStrings(cs, st, more, Flatten(f));
    RepMoreStrings(cs[..i], st, more, Before(f, p));
  }

  // ---- Passing over properties and nodes ----

  /** From tag `j` to tag `k` the search for the end of a node, a lookup if a name is given, and below depth 0
      the search for the next child go on as if nothing had been there. */
  ghost predicate Passed(cs: seq<Chunk>, j: nat, k: nat, d: nat, name: Option<seq<byte>>)
    requires j <= |cs| && k <= |cs|
  {
    && Close(cs, j, d) == Close(cs, k, d) && (d > 0 ==> NextSub(cs, j, d) == NextSub(cs, k, d))
    && (name.Some? ==> FindSub(cs, j, d, name.value) == FindSub(cs, k, d, name.value))
  }

  /** The tags behind the properties, where `fdt_add_subnode` inserts. */
  lemma {:induction false} PropsPassed(cs: seq<Chunk>, j: nat, st: seq<byte>, ps: seq<FdtTree.Prop>, x: seq<Event>, d: nat, name: Option<seq<byte>>)
    requires j <= |cs| && Tail(cs, j, st, FlattenProps(ps) + x) && NotProp(x)
    ensures var k := AfterProps(cs, j);
            k < |cs| && Span(cs, j, k, st, FlattenProps(ps)) && Tail(cs, k, st, x) && Passed(cs, j, k, d, name)
            && NextSub(cs, j, d) == NextSub(cs, k, d)
    decreases |ps|
  {
    if ps == [] {
      assert FlattenProps(ps) + x == x;
      NoPropsPassed(cs, j, st, x, d, name);
    } else {
      var y := FlattenProps(ps[1..]) + x;
      assert FlattenProps(ps) + x == [Property(ps[0].name, ps[0].value)] + y;
      var h := PropPassed(cs, j, st, ps[0], y, d, name);
      PropsPassed(cs, h, st, ps[1..], x, d, name);
      Join(cs, j, h, AfterProps(cs, j), st, [Property(ps[0].name, ps[0].value)], FlattenProps(ps[1..]));
    }
  }

  lemma NoPropsPassed(cs: seq<Chunk>, j: nat, st: seq<byte>, x: seq<Event>, d: nat, name: Option<seq<byte>>)
    requires j <= |cs| && Tail(cs, j, st, x) && NotProp(x)
    ensures var k := AfterProps(cs, j);
            k < |cs| && Span(cs, j, k, st, []) && Tail(cs, k, st, x) && Passed(cs, j, k, d, name)
            && NextSub(cs, j, d) == NextSub(cs, k, d)
  {
    assert x == [x[0]] + x[1..];
    var k := FirstEvent(cs, j, st, x[0], x[1..]);
    UpTo(cs, j, k, st, x[0]);
    NopsPassed(cs, j, k, st, name.Or([]), d);
    EndsHere(cs, k, st, x);
  }

  lemma PropPassed(cs: seq<Chunk>, j: nat, st: seq<byte>, p: FdtTree.Prop, y: seq<Event>, d: nat, name: Option<seq<byte>>) returns (h: nat)
    requires j <= |cs| && Tail(cs, j, st, [Property(p.name, p.value)] + y)
    ensures j < h <= |cs| && Span(cs, j, h, st, [Property(p.name, p.value)]) && Tail(cs, h, st, y)
    ensures Passed(cs, j, h, d, name) && AfterProps(cs, j) == AfterProps(cs, h) && NextSub(cs, j, d) == NextSub(cs, h, d)
  {
    var k := FirstEvent(cs, j, st, Property(p.name, p.value), y);
    UpTo(cs, j, k, st, Property(p.name, p.value));
    NopsPassed(cs, j, k, st, name.Or([]), d);
    h := k + 1;
  }

  lemma {:induction false} EndsHere(cs: seq<Chunk>, k: nat, st: seq<byte>, x: seq<Event>)
    requires k < |cs| && NotProp(x) && Meaning(cs[k].token, st) == Some([x[0]]) && Tail(cs, k + 1, st, x[1..])
    ensures AfterProps(cs, k) == k && Tail(cs, k, st, x)
  {
    assert x[..1] == [x[0]];
    TailSlice(cs, k, st, x);
  }

  /** Whole nodes are passed over, below depth 0 whatever their names. */
  lemma {:induction false} NodesPassed(cs: seq<Chunk>, j: nat, st: seq<byte>, f: Forest, x: seq<Event>, d: nat, name: Option<seq<byte>>)
    returns (k: nat)
    requires j <= |cs| && Tail(cs, j, st, Flatten(f) + x) && NotProp(x)
    requires d > 0 || name.None? || FirstChild(f, name.value).None?
    ensures j <= k <= |cs| && Span(cs, j, k, st, Flatten(f)) && Tail(cs, k, st, x) && Passed(cs, j, k, d, name)
    decreases f, 2
  {
    if f.Empty? {
      assert Flatten(f) + x == x;
      k := j;
    } else {
      var h := NodePassed(cs, j, st, f, x, d, name);
      k := NodesPassed(cs, h, st, f.rest, x, d, name);
      Join(cs, j, h, k, st, FlattenOne(f), Flatten(f.rest));
    }
  }

  /** The events of the first node of a forest. */
  function FlattenOne(f: Forest): seq<Event>
    requires f.Tree?
  {
    [BeginNode(f.name)] + FlattenProps(f.props) + Flatten(f.kids) + [EndNode]
  }

  lemma {:induction false} NodePassed(cs: seq<Chunk>, j: nat, st: seq<byte>, f: Forest, x: seq<Event>, d: nat, name: Option<seq<byte>>)
    returns (k: nat)
    requires j <= |cs| && f.Tree? && Tail(cs, j, st, Flatten(f) + x) && NotProp(x)
    requires d > 0 || name.None? || !NodeNameEq(f.name, name.value)
    ensures j <= k <= |cs| && Span(cs, j, k, st, FlattenOne(f)) && Tail(cs, k, st, Flatten(f.rest) + x) && Passed(cs, j, k, d, name)
    decreases f, 1
  {
    var b, q, y := [BeginNode(f.name)], FlattenProps(f.props) + Flatten(f.kids), Flatten(f.rest) + x;
    OneAndRest(f, x);
    var h := HeadPassed(cs, j, st, f, y, d, name);
    var e := Inside(cs, h + 1, st, f, y, d + 1, name);
    k := e + 1;
    Join(cs, h + 1, e, k, st, q, [EndNode]);
    Join(cs, j, h + 1, k, st, b, q + [EndNode]);
    OneIs(b, FlattenProps(f.props), Flatten(f.kids), [EndNode]);
  }

  lemma OneIs(b: seq<Event>, p: seq<Event>, k: seq<Event>, e: seq<Event>)
    ensures b + (p + k + e) == b + p + k + e
  {
  }

  lemma OneAndRest(f: Forest, x: seq<Event>)
    requires f.Tree?
    ensures Flatten(f) + x == FlattenOne(f) + (Flatten(f.rest) + x)
  {
  }

  lemma OneIsNested(b: seq<Event>, p: seq<Event>, k: seq<Event>, e: seq<Event>, y: seq<Event>)
    ensures b + p + k + e + y == b + (p + (k + (e + y)))
  {
  }

  /** The tag that begins the first node. */
  lemma HeadPassed(cs: seq<Chunk>, j: nat, st: seq<byte>, f: Forest, y: seq<Event>, d: nat, name: Option<seq<byte>>) returns (h: nat)
    requires j <= |cs| && f.Tree? && Tail(cs, j, st, FlattenOne(f) + y)
    ensures j <= h < |cs| && cs[h].token == Begin(f.name) && Span(cs, j, h, st, []) && Span(cs, j, h + 1, st, [BeginNode(f.name)])
    ensures Tail(cs, h + 1, st, FlattenProps(f.props) + (Flatten(f.kids) + ([EndNode] + y)))
    ensures Passed(cs, j, h, d, name) && NextSub(cs, j, d) == NextSub(cs, h, d)
  {
    var rest := FlattenProps(f.props) + (Flatten(f.kids) + ([EndNode] + y));
    OneIsNested([BeginNode(f.name)], FlattenProps(f.props), Flatten(f.kids), [EndNode], y);
    h := FirstEvent(cs, j, st, BeginNode(f.name), rest);
    UpTo(cs, j, h, st, BeginNode(f.name));
    NopsPassed(cs, j, h, st, name.Or([]), d);
  }

  /** From behind the tag that begins a node to the one that ends it. */
  lemma {:induction false} Inside(cs: seq<Chunk>, j: nat, st: seq<byte>, f: Forest, y: seq<Event>, d: nat, name: Option<seq<byte>>) returns (e: nat)
    requires j <= |cs| && f.Tree? && (d > 0 || name.None?) && Tail(cs, j, st, FlattenProps(f.props) + (Flatten(f.kids) + ([EndNode] + y)))
    ensures j <= e < |cs| && cs[e].token == End && Span(cs, e, e + 1, st, [EndNode]) && Tail(cs, e + 1, st, y)
    ensures Span(cs, j, e, st, FlattenProps(f.props) + Flatten(f.kids)) && Passed(cs, j, e, d, name)
    decreases f, 0
  {
    var z := [EndNode] + y;
    KidsNotProp(f.kids);
    PropsPassed(cs, j, st, f.props, Flatten(f.kids) + z, d, name);
    var a := AfterProps(cs, j);
    var b := NodesPassed(cs, a, st, f.kids, z, d, name);
    e := FirstEvent(cs, b, st, EndNode, y);
    UpTo(cs, b, e, st, EndNode);
    NopsPassed(cs, b, e, st, name.Or([]), d);
    Unit(cs, e, st, [EndNode]);
    JoinInside(cs, j, a, b, e, st, FlattenProps(f.props), Flatten(f.kids));
  }

  lemma JoinInside(cs: seq<Chunk>, j: nat, a: nat, b: nat, e: nat, st: seq<byte>, ps: seq<Event>, ks: seq<Event>)
    requires j <= a <= b <= e <= |cs| && Span(cs, j, a, st, ps) && Span(cs, a, b, st, ks) && Span(cs, b, e, st, [])
    ensures Span(cs, j, e, st, ps + ks)
  {
    Join(cs, a, b, e, st, ks, []);
    assert ks + [] == ks;
    Join(cs, j, a, e, st, ps, ks);
  }

  /** The number of the first sibling that `fdt_subnode_offset` takes for `name`. */
  function FirstChild(f: Forest, name: seq<byte>): Option<nat> {
    match f
    case Empty => None
    case Tree(n, _, _, rest) =>
      if NodeNameEq(n, name) then Some(0)
      else match FirstChild(rest, name)
        case None => None
        case Some(m) => Some(m + 1)
  }

  // ---- Children ----

  /** The path to child number `m`. */
  function Child(m: nat): Path { [true] + Right(m) }

  function Right(m: nat): (p: Path)
    ensures |p| == m
  {
    if m == 0 then [] else [false] + Right(m - 1)
  }

  lemma {:induction false} SiblingLeads(f: Forest, name: seq<byte>)
    requires FirstChild(f, name).Some?
    ensures var m := FirstChild(f, name).value; Leads(f, Right(m)) && NodeNameEq(At(f, Right(m)).name, name)
    decreases f
  {
    if !NodeNameEq(f.name, name) {
      SiblingLeads(f.rest, name);
      assert Right(FirstChild(f, name).value)[1..] == Right(FirstChild(f.rest, name).value);
    }
  }

  /** Looking up a child among the nodes `f`, which end with their parent. */
  lemma {:induction false} ChildLookup(cs: seq<Chunk>, j: nat, st: seq<byte>, f: Forest, y: seq<Event>, name: seq<byte>)
    requires j <= |cs| && Tail(cs, j, st, Flatten(f) + ([EndNode] + y))
    ensures FirstChild(f, name).None? ==> FindSub(cs, j, 0, name) == Missing
    ensures FirstChild(f, name).Some? ==> ChildFound(cs, j, st, f, name)
    decreases f
  {
    var x := [EndNode] + y;
    if FirstChild(f, name).None? {
      var k := NodesPassed(cs, j, st, f, x, 0, Some(name));
      var e := FirstEvent(cs, k, st, EndNode, y);
      NopsPassed(cs, k, e, st, name, 0);
    } else if NodeNameEq(f.name, name) {
      OneAndRest(f, x);
      var h := HeadPassed(cs, j, st, f, Flatten(f.rest) + x, 0, Some(name));
    } else {
      var k := NodePassed(cs, j, st, f, x, 0, Some(name));
      ChildLookup(cs, k, st, f.rest, y, name);
      ChildBehind(cs, j, k, st, f, name);
    }
  }

  ghost predicate ChildFound(cs: seq<Chunk>, j: nat, st: seq<byte>, f: Forest, name: seq<byte>)
    requires j <= |cs| && FirstChild(f, name).Some?
  {
    SiblingLeads(f, name);
    var m, r := FirstChild(f, name).value, FindSub(cs, j, 0, name);
    && r.Place? && cs[r.index].token.Begin? && Span(cs, j, r.index, st, Before(f, Right(m)))
  }

  lemma ChildBehind(cs: seq<Chunk>, j: nat, k: nat, st: seq<byte>, f: Forest, name: seq<byte>)
    requires j <= k <= |cs| && f.Tree? && !NodeNameEq(f.name, name) && Span(cs, j, k, st, FlattenOne(f))
    requires FirstChild(f.rest, name).Some? && ChildFound(cs, k, st, f.rest, name)
    requires FindSub(cs, j, 0, name) == FindSub(cs, k, 0, name)
    ensures ChildFound(cs, j, st, f, name)
  {
    SiblingLeads(f, name);
    SiblingLeads(f.rest, name);
    var m, h := FirstChild(f, name).value, FindSub(cs, k, 0, name).index;
    Join(cs, j, k, h, st, FlattenOne(f), Before(f.rest, Right(m - 1)));
    assert Right(m)[1..] == Right(m - 1);
  }

  lemma DownToKids(f: Forest, p: Path, m: nat)
    requires Leads(f, p) && Leads(At(f, p).kids, Right(m))
    ensures Leads(f, p + Child(m)) && At(f, p + Child(m)) == At(At(f, p).kids, Right(m))
    ensures Before(f, p + Child(m)) ==
              Before(f, p) + ([BeginNode(At(f, p).name)] + FlattenProps(At(f, p).props) + Before(At(f, p).kids, Right(m)))
  {
    assert Child(m)[1..] == Right(m);
    TwoLegs(f, p, Child(m));
  }

  /** `fdt_subnode_offset` finds the first child of that name, and only then. */
  lemma SubnodeTree(cs: seq<Chunk>, st: seq<byte>, f: Forest, p: Path, i: nat, name: seq<byte>)
    requires Locates(cs, st, f, p, i)
    ensures var r, c := FindSub(cs, i + 1, 0, name), FirstChild(At(f, p).kids, name);
            if c.None? then r == Missing else r.Place? && Locates(cs, st, f, p + Child(c.value), r.index)
  {
    var g := At(f, p);
    var c, y := FirstChild(g.kids, name), Flatten(g.rest) + After(f, p);
    NodeHere(cs, st, f, p, i);
    assert Behind(g, After(f, p)) == Flatten(g.kids) + ([EndNode] + y);
    PropsPassed(cs, i + 1, st, g.props, Flatten(g.kids) + ([EndNode] + y), 0, Some(name));
    var j := AfterProps(cs, i + 1);
    ChildLookup(cs, j, st, g.kids, y, name);
    if c.Some? {
      SiblingLeads(g.kids, name);
      KidLocated(cs, st, f, p, i, j, FindSub(cs, j, 0, name).index, c.value);
    }
  }

  /** Behind the properties and the children in front of it, tag number `h` begins child number `m`. */
  lemma KidLocated(cs: seq<Chunk>, st: seq<byte>, f: Forest, p: Path, i: nat, j: nat, h: nat, m: nat)
    requires Locates(cs, st, f, p, i) && Leads(At(f, p).kids, Right(m)) && i < j <= h < |cs| && cs[h].token.Begin?
    requires Span(cs, i + 1, j, st, FlattenProps(At(f, p).props)) && Span(cs, j, h, st, Before(At(f, p).kids, Right(m)))
    ensures Locates(cs, st, f, p + Child(m), h)
  {
    var g := At(f, p);
    var b, ps, k := [BeginNode(g.name)], FlattenProps(g.props), Before(g.kids, Right(m));
    NodeHere(cs, st, f, p, i);
    DownToKids(f, p, m);
    Join(cs, i + 1, j, h, st, ps, k);
    Join(cs, i, i + 1, h, st, b, ps + k);
    Join(cs, 0, i, h, st, Before(f, p), b + (ps + k));
    Seqs.Assoc(b, ps, k);
  }

  /** `fdt_add_subnode` refuses exactly a name that a child answers to, and otherwise makes an empty first child
      and changes nothing else. */
  lemma AddSubnodeTree(cs: seq<Chunk>, st: seq<byte>, f: Forest, p: Path, i: nat, name: seq<byte>, c: Chunk, e: Chunk)
    requires Locates(cs, st, f, p, i) && c.token == Begin(name) && e.token == End
    ensures var g, j := At(f, p), AfterProps(cs, i + 1);
            && (FindSub(cs, i + 1, 0, name).Place? <==> FirstChild(g.kids, name).Some?)
            && (var f' := Put(f, p, g.(kids := Tree(name, [], Empty, g.kids)));
                Locates(cs[..j] + [c, e] + cs[j..], st, f', p + Child(0), j))
  {
    var g, j := At(f, p), AfterProps(cs, i + 1);
    var g' := g.(kids := Tree(name, [], Empty, g.kids));
    var ds, ps, x := cs[..j] + [c, e] + cs[j..], FlattenProps(g.props), Behind(g, After(f, p));
    NodeHere(cs, st, f, p, i);
    SubnodeTree(cs, st, f, p, i, name);
    PropsPassed(cs, i + 1, st, g.props, x, 0, Some(name));
    InsertedNode(cs, st, f, p, i, j, name, c, e);
    BeforePut(f, p, g');
    DownToKids(Put(f, p, g'), p, 0);
    Join(cs, i, i + 1, j, st, [BeginNode(g.name)], ps);
    Join(cs, 0, i, j, st, Before(f, p), [BeginNode(g.name)] + ps);
    SpanIs(cs, 0, j, st, Before(f, p) + ([BeginNode(g.name)] + ps));
    assert ds[0..j] == cs[0..j];
    assert [BeginNode(g.name)] + ps + [] == [BeginNode(g.name)] + ps;
    SpanIs(ds, 0, j, st, Before(Put(f, p, g'), p + Child(0)));
  }

  lemma InsertedNode(cs: seq<Chunk>, st: seq<byte>, f: Forest, p: Path, i: nat, j: nat, name: seq<byte>, c: Chunk, e: Chunk)
    requires Locates(cs, st, f, p, i) && c.token == Begin(name) && e.token == End && i < j <= |cs|
    requires cs[i].token == Begin(At(f, p).name) && Span(cs, i + 1, j, st, FlattenProps(At(f, p).props))
    requires Tail(cs, j, st, Behind(At(f, p), After(f, p)))
    ensures var g := At(f, p);
            Rep(cs[..j] + [c, e] + cs[j..], st, Flatten(Put(f, p, g.(kids := Tree(name, [], Empty, g.kids)))))
  {
    hide *;
    InFront(cs, st, f, p, i);
    var g := At(f, p);
    var g' := g.(kids := Tree(name, [], Empty, g.kids));
    var n := [BeginNode(name)] + [EndNode];
    RepTwo(c, e, st, name);
    NewKidBehind(g, name, After(f, p));
    Seqs.Assoc(FlattenProps(g.props), n, Behind(g, After(f, p)));
    Exchange(cs, st, f, p, i, j, j, [c, e], FlattenProps(g.props), n, Behind(g, After(f, p)), g');
  }

  lemma RepTwo(c: Chunk, e: Chunk, st: seq<byte>, name: seq<byte>)
    requires c.token == Begin(name) && e.token == End
    ensures Rep([c, e], st, [BeginNode(name)] + [EndNode])
  {
    RepOne(c, st, [BeginNode(name)]);
    RepOne(e, st, [EndNode]);
    RepAppend([c], [BeginNode(name)], [e], [EndNode], st);
    assert [c] + [e] == [c, e];
  }

  lemma NewKidBehind(g: Forest, name: seq<byte>, after: seq<Event>)
    requires g.Tree?
    ensures Behind(g.(kids := Tree(name, [], Empty, g.kids)), after) == [BeginNode(name)] + [EndNode] + Behind(g, after)
  {
    var kid := Tree(name, [], Empty, g.kids);
    assert Flatten(kid) == [BeginNode(name)] + [] + [] + [EndNode] + Flatten(g.kids);
  }

  /** The end of a node as `fdt_node_end_offset_` finds it. */
  lemma NodeSpan(cs: seq<Chunk>, st: seq<byte>, f: Forest, p: Path, i: nat) returns (k: nat)
    requires Locates(cs, st, f, p, i)
    ensures Close(cs, i + 1, 0) == Some(k) && i < k <= |cs| && NodeStatus(cs, i) == Ok
    ensures Tail(cs, k, st, Flatten(At(f, p).rest) + After(f, p))
  {
    var g := At(f, p);
    var y := Flatten(g.rest) + After(f, p);
    NodeHere(cs, st, f, p, i);
    assert Behind(g, After(f, p)) == Flatten(g.kids) + ([EndNode] + y);
    var e := Inside(cs, i + 1, st, g, y, 0, None);
    k := e + 1;
  }

  /** `fdt_del_node` takes the node with all below it out of the tree and changes nothing else. `fdt_nop_node`
      leaves a block that means the same tree, and keeps the size of the block. */
  lemma {:induction false} DelNodeTree(cs: seq<Chunk>, st: seq<byte>, f: Forest, p: Path, i: nat, nops: seq<Chunk>)
    requires Locates(cs, st, f, p, i) && forall m :: 0 <= m < |nops| ==> nops[m].token == Token.Nop
    ensures NodeStatus(cs, i) == Ok && Close(cs, i + 1, 0).Some?
    ensures var k := Close(cs, i + 1, 0).value; Rep(cs[..i] + nops + cs[k..], st, Flatten(Put(f, p, At(f, p).rest)))
  {
    var k := NodeSpan(cs, st, f, p, i);
    WithoutNode(cs, st, f, p, i, k, nops);
  }

  lemma {:induction false} WithoutNode(cs: seq<Chunk>, st: seq<byte>, f: Forest, p: Path, i: nat, k: nat, nops: seq<Chunk>)
    requires Locates(cs, st, f, p, i) && i <= k && Tail(cs, k, st, Flatten(At(f, p).rest) + After(f, p))
    requires forall m :: 0 <= m < |nops| ==> nops[m].token == Token.Nop
    ensures Rep(cs[..i] + nops + cs[k..], st, Flatten(Put(f, p, At(f, p).rest)))
  {
    hide Flatten, Rep;
    var b, r, a := Before(f, p), Flatten(At(f, p).rest), After(f, p);
    FlattenPut(f, p, At(f, p).rest);
    AroundNops(cs, i, k, nops, st, b, r + a);
    assert b + (r + a) == b + r + a;
  }

  lemma AroundNops(cs: seq<Chunk>, i: nat, k: nat, nops: seq<Chunk>, st: seq<byte>, es: seq<Event>, fs: seq<Event>)
    requires i <= k <= |cs| && Span(cs, 0, i, st, es) && Tail(cs, k, st, fs)
    requires forall m :: 0 <= m < |nops| ==> nops[m].token == Token.Nop
    ensures Rep(cs[..i] + nops + cs[k..], st, es + fs)
  {
    SpanIs(cs, 0, i, st, es);
    SpanIs(cs, k, |cs|, st, fs);
    NopSpan(nops, 0, |nops|, st);
    SpanIs(nops, 0, |nops|, st, []);
    assert nops[0..|nops|] == nops && cs[0..i] == cs[..i] && cs[k..|cs|] == cs[k..];
    RepAppend(cs[..i], es, nops, [], st);
    RepAppend(cs[..i] + nops, es + [], cs[k..], fs, st);
    assert es + [] == es;
  }

  // ---- Blocks, decoded ----

  lemma {:induction false} RepIsMeaning(cs: seq<Chunk>, st: seq<byte>, es: seq<Event>)
    ensures Rep(cs, st, es) <==> MeaningAll(Tokens(cs), st) == Some(es)
    decreases |cs|
  {
    if cs != [] {
      assert Tokens(cs)[0] == cs[0].token && Tokens(cs)[1..] == Tokens(cs[1..]);
      var m := Meaning(cs[0].token, st);
      if m.Some? && m.value <= es {
        RepIsMeaning(cs[1..], st, es[|m.value|..]);
        assert es == m.value + es[|m.value|..];
      }
      if MeaningAll(Tokens(cs), st) == Some(es) {
        var r := MeaningAll(Tokens(cs[1..]), st).value;
        assert es == m.value + r && es[|m.value|..] == r;
      }
    }
  }

  /** The walk over the block reads what its tags mean. */
  lemma BlockDecodes(s: seq<byte>, cs: seq<Chunk>, st: seq<byte>, es: seq<Event>)
    requires Block(s, cs) && Rep(cs, st, es)
    ensures Decode(s, st) == Some(es)
  {
    assert EndsAt(s, |Bytes(cs)|);
    WalkOver(s, 0, cs);
    assert Tokens(cs) + [] == Tokens(cs);
    RepIsMeaning(cs, st, es);
  }

  /** Conversely, a block that can be read has the tags for it. */
  lemma DecodedBlock(s: seq<byte>, st: seq<byte>, es: seq<Event>) returns (cs: seq<Chunk>)
    requires Decode(s, st) == Some(es)
    ensures Block(s, cs) && Rep(cs, st, es)
  {
    cs := WalkGivesChunks(s, 0);
    RepIsMeaning(cs, st, es);
    NoFinish(Tokens(cs), st);
    assert EndsAt(s, |Bytes(cs)|);
  }

  lemma {:induction false} NoFinish(ts: seq<Token>, st: seq<byte>)
    requires MeaningAll(ts, st).Some?
    ensures Finish !in ts
    decreases |ts|
  {
    if ts != [] {
      NoFinish(ts[1..], st);
    }
  }
}
