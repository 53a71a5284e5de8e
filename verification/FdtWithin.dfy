/**
 The references of an overlay whose fix-ups stand in the same tree, as lib/utils/libfdt/fdt_overlay.c updates them:
 each fix-up is read when it is its turn, whatever has become of it by then. When no fix-up stands for the node of the
 fix-ups, this is the update that FdtFixups describes.
 */
module FdtWithin {
  import opened Options
  import opened FdtFormat
  import opened FdtTree
  import opened FdtCommute
  import opened FdtPhandle
  import opened FdtFixups
  import opened FdtInPlace
  import opened FdtVisit
  import Seqs

  // ---- Paths inside a node and outside ----

  /** The path `p` leads to the node at the end of `r` or below it. */
  predicate Inside(p: Path, r: Path) {
    |r| <= |p| && p[..|r|] == r && (|p| == |r| || p[|r|])
  }

  lemma InsideTail(p: Path, r: Path)
    requires p != [] && r != [] && p[0] == r[0]
    ensures Inside(p, r) <==> Inside(p[1..], r[1..])
  {
    if |r| <= |p| {
      assert p[..|r|] == [p[0]] + p[1..][..|r| - 1] && r == [r[0]] + r[1..];
      assert p[1..][..|r| - 1] == p[..|r|][1..];
      assert p[1..] != [] && |p| > |r| ==> p[1..][|r| - 1] == p[|r|];
    }
  }

  /** A node outside the node at `r` has its children outside, but for that node itself. */
  lemma ChildOutside(p: Path, m: nat, r: Path)
    requires !Inside(p, r) && p + Child(m) != r
    ensures !Inside(p + Child(m), r)
  {
    var c := p + Child(m);
    if |r| <= |p| {
      assert c[..|r|] == p[..|r|] && p[..|p|] == p;
      assert |r| < |p| ==> c[|r|] == p[|r|];
    } else if |r| < |c| {
      NoStepDown(m, |r| - |p|);
      assert c[|r|] == Child(m)[|r| - |p|];
    } else {
      assert c[..|c|] == c;
    }
  }

  lemma {:induction false} NoStepDown(m: nat, k: nat)
    requires 0 < k <= m
    ensures !Child(m)[k]
  {
    AllRight(m, k - 1);
  }

  lemma {:induction false} AllRight(m: nat, k: nat)
    requires k < m
    ensures !Right(m)[k]
    decreases m
  {
    if k > 0 {
      AllRight(m - 1, k - 1);
    }
  }

  /** A node exchanged for another changes no node that it is neither in nor around. */
  lemma {:induction false} HeadKept(f: Forest, p: Path, g: Forest, r: Path)
    requires Leads(f, p) && Leads(f, r) && g.Tree? && g.rest == At(f, p).rest && !Inside(p, r)
    requires !Inside(r, p) || g.kids == At(f, p).kids
    ensures Leads(Put(f, p, g), r)
    ensures At(Put(f, p, g), r).props == At(f, r).props && At(Put(f, p, g), r).kids == At(f, r).kids
    ensures At(Put(f, p, g), r).name == At(f, r).name
    decreases |p|
  {
    if p == [] {
      assert r[..0] == [];
    } else if r == [] {
      assert p[..0] == [];
    } else if p[0] == r[0] {
      InsideTail(p, r);
      InsideTail(r, p);
      HeadKept(if p[0] then f.kids else f.rest, p[1..], g, r[1..]);
    }
  }

  /** ... and the nodes below it as they are. */
  lemma BelowKept(f: Forest, h: Forest, r: Path, t: Path)
    requires Leads(f, r) && Leads(h, r) && At(h, r).kids == At(f, r).kids && Leads(f, r + t) && t != [] && t[0]
    ensures Leads(h, r + t) && At(h, r + t) == At(f, r + t)
  {
    Legs(f, r, t);
    TwoLegs(f, r, t);
    TwoLegs(h, r, t);
  }

  lemma {:induction false} Legs(f: Forest, r: Path, t: Path)
    requires Leads(f, r)
    ensures Leads(f, r + t) <==> Leads(At(f, r), t)
    decreases |r|
  {
    if r == [] {
      Seqs.Unit(t);
    } else {
      Seqs.DropAppend(r, t);
      Legs(if r[0] then f.kids else f.rest, r[1..], t);
    }
  }

  /** A node whose properties are exchanged changes no other node's. */
  lemma {:induction false} PropsKept(f: Forest, p: Path, g: Forest, q: Path)
    requires Leads(f, p) && Leads(f, q) && p != q && g.Tree? && g.kids == At(f, p).kids && g.rest == At(f, p).rest
    ensures Leads(Put(f, p, g), q) && At(Put(f, p, g), q).props == At(f, q).props
    decreases |p|
  {
    if p != [] && q != [] && p[0] == q[0] {
      assert p[1..] != q[1..] by {
        assert p == [p[0]] + p[1..] && q == [q[0]] + q[1..];
      }
      PropsKept(if p[0] then f.kids else f.rest, p[1..], g, q[1..]);
    }
  }

  /** Children of different nodes are different. */
  lemma OtherChildren(p: Path, m: nat, q: Path, n: nat)
    requires p != q
    ensures p + Child(m) != q + Child(n)
  {
    var c, d := p + Child(m), q + Child(n);
    if |c| == |d| {
      if |p| < |q| {
        NoStepDown(m, |q| - |p|);
        assert !c[|q|] && d[|q|];
      } else if |q| < |p| {
        NoStepDown(n, |p| - |q|);
        assert c[|p|] && !d[|p|];
      } else {
        assert c[..|p|] == p && d[..|p|] == q;
      }
    }
  }

  // ---- The update of one tree by fix-ups in it ----

  /** The fix-ups `xs`, from child number `n` of the node at `q` on, as they were at the beginning. */
  predicate Guides(f: Forest, q: Path, n: nat, xs: Forest) {
    Leads(f, q) && (xs.Tree? ==> Leads(f, q + Child(n)) && Alike(xs, At(f, q + Child(n))))
  }

  /** `overlay_update_local_node_references` on the node at `p`, with the node at `q` for its fix-ups. */
  function UpdateWithin(f: Forest, p: Path, q: Path, x: Forest, delta: nat): (r: Outcome<Forest>)
    requires Leads(f, p) && Leads(f, q) && x.Tree? && Alike(x, At(f, q))
    ensures r.Done? ==> Alike(f, r.value)
    decreases x, 1
  {
    var ps :- UpdateProps(At(f, p).props, At(f, q).props, delta);
    var h := Put(f, p, At(f, p).(props := ps));
    PropsAlike(At(f, p).props, At(f, q).props, delta);
    PropsExchanged(f, p, ps, q, x);
    var r :- KidsWithin(h, p, q, 0, x.kids, delta);
    AlikeTransitive(f, h, r);
    Done(r)
  }

  /** ... its loop over subnodes, from number `n` on. */
  function KidsWithin(f: Forest, p: Path, q: Path, n: nat, xs: Forest, delta: nat): (r: Outcome<Forest>)
    requires Leads(f, p) && Guides(f, q, n, xs)
    ensures r.Done? ==> Alike(f, r.value)
    decreases xs, 2
  {
    AlikeSelf(f);
    if xs.Empty? then Done(f)
    else match FirstChild(At(f, p).kids, xs.name)
      case None => BadOverlay
      case Some(m) =>
        ChildLeads(f, p, xs.name);
        var h :- UpdateWithin(f, p + Child(m), q + Child(n), xs, delta);
        NextGuides(f, h, p, q, n, xs);
        var r :- KidsWithin(h, p, q, n + 1, xs.rest, delta);
        AlikeTransitive(f, h, r);
        Done(r)
  }

  lemma PropsExchanged(f: Forest, p: Path, ps: seq<FdtTree.Prop>, q: Path, x: Forest)
    requires Leads(f, p) && AlikeProps(At(f, p).props, ps) && Leads(f, q) && x.Tree? && Alike(x, At(f, q))
    ensures var h := Put(f, p, At(f, p).(props := ps)); Alike(f, h) && Leads(h, p) && Guides(h, q, 0, x.kids) && Alike(x.kids, At(h, q).kids)
  {
    var g := At(f, p).(props := ps);
    var h := Put(f, p, g);
    BeforePut(f, p, g);
    AlikeSelf(g.kids);
    AlikeSelf(g.rest);
    AlikeAtPath(f, p, g);
    AlikeLeads(f, h, q);
    AlikeTransitive(x, At(f, q), At(h, q));
    if x.kids.Tree? {
      DownToKids(h, q, 0);
    }
  }

  lemma ChildLeads(f: Forest, p: Path, name: Name)
    requires Leads(f, p) && FirstChild(At(f, p).kids, name).Some?
    ensures var m := FirstChild(At(f, p).kids, name).value;
            && Leads(At(f, p).kids, Right(m))
            && Leads(f, p + Child(m)) && At(f, p + Child(m)) == At(At(f, p).kids, Right(m))
  {
    SiblingLeads(At(f, p).kids, name);
    DownToKids(f, p, FirstChild(At(f, p).kids, name).value);
  }

  lemma NextGuides(f: Forest, h: Forest, p: Path, q: Path, n: nat, xs: Forest)
    requires Leads(f, p) && Guides(f, q, n, xs) && xs.Tree? && Alike(f, h)
    ensures Leads(h, p) && Guides(h, q, n + 1, xs.rest)
  {
    AlikeLeads(f, h, p);
    AlikeLeads(f, h, q);
    AlikeLeads(f, h, q + Child(n));
    AlikeTransitive(xs, At(f, q + Child(n)), At(h, q + Child(n)));
    NextSibling(h, q, n);
  }

  lemma NextSibling(h: Forest, q: Path, n: nat)
    requires Leads(h, q + Child(n))
    ensures Leads(h, q + Child(n + 1)) <==> At(h, q + Child(n)).rest.Tree?
    ensures Leads(h, q + Child(n + 1)) ==> At(h, q + Child(n + 1)) == At(h, q + Child(n)).rest
  {
    var c := q + Child(n);
    RightSnoc(n);
    assert q + Child(n + 1) == c + [false];
    Legs(h, c, [false]);
    var g := At(h, c);
    assert Leads(g, [false]) <==> g.rest.Tree?;
    if g.rest.Tree? {
      assert At(g, [false]) == g.rest;
      TwoLegs(h, c, [false]);
    }
  }

  /** `overlay_adjust_local_phandles`, then `overlay_update_local_references`. */
  function RelocateWithin(o: Forest, delta: nat): (r: Outcome<Forest>)
    requires o.Tree?
    ensures r.Done? ==> Alike(o, r.value)
  {
    var a :- Adjust(o, delta);
    AdjustAlike(o, delta);
    match FirstChild(a.kids, LOCAL_FIXUPS)
    case None => Done(a)
    case Some(m) =>
      SiblingLeads(a.kids, LOCAL_FIXUPS);
      RootIs(a, m);
      AlikeSelf(At(a, Child(m)));
      var r :- UpdateWithin(a, [], Child(m), At(a, Child(m)), delta);
      AlikeTransitive(o, a, r);
      Done(r)
  }

  /** The overlay blob's root and, if it is there, its node of fix-ups. */
  lemma RootIs(o: Forest, m: nat)
    requires o.Tree? && Leads(o.kids, Right(m))
    ensures [] + Child(m) == Child(m) && Leads(o, Child(m)) && At(o, Child(m)) == At(o.kids, Right(m))
    ensures Leads(o, []) && At(o, []) == o && Inside(Child(m), Child(m)) && !Inside([], Child(m))
  {
    var c := Child(m);
    Seqs.Unit(c);
    assert c != [] && c[0] && c[1..] == Right(m) && c[..|c|] == c;
  }

  // ---- Fix-ups that are not for themselves ----

  lemma InsideBelow(p: Path, q: Path, r: Path)
    requires Inside(q, r) && !Inside(p, r)
    ensures !Inside(p, q)
  {
    if |q| <= |p| {
      assert p[..|r|] == p[..|q|][..|r|];
      assert |r| < |q| ==> p[..|q|][|r|] == p[|r|];
      assert q[..|q|] == q;
    }
  }

  lemma InsideChild(q: Path, n: nat, r: Path) returns (t: Path)
    requires Inside(q, r)
    ensures Inside(q + Child(n), r) && q + Child(n) == r + t && t != [] && t[0]
  {
    t := q[|r|..] + Child(n);
    assert q == q[..|r|] + q[|r|..];
    assert (q + Child(n))[..|r|] == q[..|r|];
    assert q + Child(n) == r + t;
    assert t[0] == (q + Child(n))[|r|];
    if |q| == |r| {
      assert q[|r|..] == [];
    }
  }

  /** A node one level down is around no other of that level, and none deeper is. */
  lemma NotAround(p: Path, m: nat, r: nat)
    requires p == [] ==> m != r
    ensures p + Child(m) != Child(r) && !Inside(Child(r), p + Child(m))
  {
    var c := p + Child(m);
    RightLength(m);
    RightLength(r);
    if p == [] {
      assert c == Child(m);
      if |c| < |Child(r)| {
        NoStepDown(r, |c|);
      } else {
        assert Child(r)[..|Child(r)|] == Child(r);
      }
    } else {
      assert c[|p|] == Child(m)[0] == true;
      if |p| < |Child(r)| {
        NoStepDown(r, |p|);
        assert |c| <= |Child(r)| ==> Child(r)[..|c|][|p|] == Child(r)[|p|];
      }
    }
  }

  lemma RightLength(m: nat)
    ensures |Child(m)| == m + 1
  {
  }

  lemma AlikeNone(kids: Forest, hs: Forest, xs: Forest, m: nat)
    requires Alike(kids, hs) && NoneLeadsTo(kids, xs, m)
    ensures NoneLeadsTo(hs, xs, m)
    decreases xs
  {
    if xs.Tree? {
      AlikeFirstChild(kids, hs, xs.name);
      AlikeNone(kids, hs, xs.rest, m);
    }
  }

  lemma NextUpdate(kids: Forest, xs: Forest, delta: nat)
    requires xs.Tree?
    ensures match FirstChild(kids, xs.name)
            case None => UpdateKids(kids, xs, delta) == BadOverlay
            case Some(m) =>
              && Leads(kids, Right(m))
              && UpdateKids(kids, xs, delta) ==
                   match UpdateNode(At(kids, Right(m)), xs, delta)
                   case Done(g) => UpdateKids(Put(kids, Right(m), g), xs.rest, delta)
                   case e => e
  {
    if FirstChild(kids, xs.name).Some? {
      SiblingLeads(kids, xs.name);
    }
  }

  lemma NoKidUpdates(kids: Forest, delta: nat)
    ensures UpdateKids(kids, Empty, delta) == Done(kids)
  {
  }

  lemma KidExchanged(f: Forest, p: Path, g: Forest, kids: Forest, m: nat, g1: Forest)
    requires Leads(f, p) && g.Tree? && g1.Tree? && Leads(kids, Right(m))
    ensures var h0 := Put(f, p, g.(kids := kids));
            Leads(h0, p + Child(m)) && Put(h0, p + Child(m), g1) == Put(f, p, g.(kids := Put(kids, Right(m), g1)))
  {
    var g0 := g.(kids := kids);
    var h0 := Put(f, p, g0);
    BeforePut(f, p, g0);
    DownToKids(h0, p, m);
    assert Child(m)[1..] == Right(m);
    PutLegs(h0, p, Child(m), g1);
    PutPut(f, p, g0, g.(kids := Put(kids, Right(m), g1)));
  }

  /** The update of a child leaves the fix-ups as they are. */
  lemma SubKept(h0: Forest, p: Path, q: Path, r: nat, m: nat, n: nat, sub: Forest, g1: Forest)
    requires Meant(h0, p + Child(m), q + Child(n), r) && Inside(q, Child(r)) && (p == [] ==> m != r)
    requires Leads(h0, q) && At(h0, q + Child(n)) == sub && g1.Tree? && g1.rest == At(h0, p + Child(m)).rest
    ensures var h := Put(h0, p + Child(m), g1); Leads(h, q + Child(n)) && At(h, q + Child(n)) == sub
  {
    var t := InsideChild(q, n, Child(r));
    NotAround(p, m, r);
    HeadKept(h0, p + Child(m), g1, Child(r));
    BelowKept(h0, Put(h0, p + Child(m), g1), Child(r), t);
  }

  lemma NoneNext(p: Path, kids: Forest, sub: Forest, m: nat, r: nat, delta: nat)
    requires sub.Tree? && FirstChild(kids, sub.name) == Some(m) && Leads(kids, Right(m)) && UpdateNode(At(kids, Right(m)), sub, delta).Done?
    requires p == [] ==> NoneLeadsTo(kids, sub, r)
    ensures p == [] ==> m != r
    ensures p == [] ==> NoneLeadsTo(Put(kids, Right(m), UpdateNode(At(kids, Right(m)), sub, delta).value), sub.rest, r)
  {
    var g := At(kids, Right(m));
    NodeAlike(g, sub, delta);
    AlikePut(kids, m, UpdateNode(g, sub, delta).value);
    if p == [] {
      AlikeNone(kids, Put(kids, Right(m), UpdateNode(g, sub, delta).value), sub.rest, r);
    }
  }

  /** The fix-ups of the node at `q`, inside the node of all fix-ups, which is child number `r` of the root, are for the
      node at `p`, which is outside. */
  ghost predicate Around(f: Forest, p: Path, q: Path, r: nat) {
    Leads(f, p) && Leads(f, q) && Leads(f, Child(r)) && Inside(q, Child(r)) && !Inside(p, Child(r))
  }

  /** ... and none of them stands for that child itself. */
  ghost predicate Meant(f: Forest, p: Path, q: Path, r: nat) {
    Around(f, p, q, r) && (p == [] ==> NoneLeadsTo(At(f, p).kids, At(f, q).kids, r))
  }

  lemma MeantStill(f: Forest, h: Forest, p: Path, q: Path, r: nat)
    requires Meant(f, p, q, r) && Alike(f, h) && Leads(h, p) && Leads(h, q)
    requires At(h, p).kids == At(f, p).kids && At(h, q).kids == At(f, q).kids
    ensures Meant(h, p, q, r)
  {
    AlikeLeads(f, h, Child(r));
  }

  /** The fix-ups for a child are meant for it. */
  lemma MeantKid(f: Forest, p: Path, q: Path, r: nat, m: nat, n: nat, sub: Forest)
    requires Around(f, p, q, r) && Leads(f, p + Child(m)) && Leads(f, q + Child(n))
    requires sub.Tree? && FirstChild(At(f, p).kids, sub.name) == Some(m) && (p == [] ==> NoneLeadsTo(At(f, p).kids, sub, r))
    ensures Meant(f, p + Child(m), q + Child(n), r)
  {
    var t := InsideChild(q, n, Child(r));
    NotAround(p, m, r);
    ChildOutside(p, m, Child(r));
  }

  /** What the update of a tree by fix-ups in it makes of a node, put in its place. */
  function InPlace(f: Forest, p: Path, outcome: Outcome<Forest>): Outcome<Forest>
    requires Leads(f, p)
  {
    match outcome
    case Done(g) => Done(Put(f, p, g))
    case e => e
  }

  function KidsInPlace(f: Forest, p: Path, outcome: Outcome<Forest>): Outcome<Forest>
    requires Leads(f, p)
  {
    match outcome
    case Done(kids) => Done(Put(f, p, At(f, p).(kids := kids)))
    case e => e
  }

  lemma {:induction false} WithinApart(f: Forest, p: Path, q: Path, x: Forest, delta: nat, r: nat)
    requires Meant(f, p, q, r) && x.Tree? && Alike(x, At(f, q))
    ensures UpdateWithin(f, p, q, x, delta) == InPlace(f, p, UpdateNode(At(f, p), At(f, q), delta))
    decreases x, 0
  {
    hide KidsWithin, UpdateKids, Inside, NoneLeadsTo, Put, At, Leads, Alike, UpdateProps;
    var g, y := At(f, p), At(f, q);
    if UpdateProps(g.props, y.props, delta).Done? {
      var ps := UpdateProps(g.props, y.props, delta).value;
      var g1 := g.(props := ps);
      var h := Put(f, p, g1);
      PropsAlike(g.props, y.props, delta);
      PropsExchanged(f, p, ps, q, x);
      BeforePut(f, p, g1);
      InsideBelow(p, q, Child(r));
      HeadKept(f, p, g1, q);
      MeantStill(f, h, p, q, r);
      AlikeHead(x, y);
      FirstSub(h, q);
      KidsApart(h, p, q, 0, x.kids, y.kids, delta, r);
      if UpdateKids(g.kids, y.kids, delta).Done? {
        PutPut(f, p, g1, g1.(kids := UpdateKids(g.kids, y.kids, delta).value));
      }
    }
  }

  lemma AlikeHead(x: Forest, y: Forest)
    requires x.Tree? && Alike(x, y)
    ensures y.Tree? && x.name == y.name && Alike(x.kids, y.kids) && Alike(x.rest, y.rest)
  {
  }

  lemma FirstSub(h: Forest, q: Path)
    requires Leads(h, q)
    ensures At(h, q).kids.Tree? ==> Leads(h, q + Child(0)) && At(h, q + Child(0)) == At(h, q).kids
  {
    if At(h, q).kids.Tree? {
      DownToKids(h, q, 0);
    }
  }

  lemma {:induction false} KidsApart(f: Forest, p: Path, q: Path, n: nat, xs: Forest, sub: Forest, delta: nat, r: nat)
    requires Around(f, p, q, r) && Guides(f, q, n, xs) && Alike(xs, sub) && (sub.Tree? && xs.Tree? ==> At(f, q + Child(n)) == sub)
    requires p == [] ==> NoneLeadsTo(At(f, p).kids, sub, r)
    ensures KidsWithin(f, p, q, n, xs, delta) == KidsInPlace(f, p, UpdateKids(At(f, p).kids, sub, delta))
    decreases xs, 1
  {
    hide UpdateWithin, UpdateNode, UpdateKids, Inside, NoneLeadsTo, Put, At, Leads, Alike, FirstChild;
    var g := At(f, p);
    PutAt(f, p);
    AlikeTop(xs, sub);
    if xs.Empty? {
      NoKidUpdates(g.kids, delta);
    } else {
      NextUpdate(g.kids, sub, delta);
      if FirstChild(g.kids, xs.name).Some? {
        var m := FirstChild(g.kids, xs.name).value;
        ChildLeads(f, p, xs.name);
        MeantKid(f, p, q, r, m, n, sub);
        WithinApart(f, p + Child(m), q + Child(n), xs, delta, r);
        if UpdateNode(At(g.kids, Right(m)), sub, delta).Done? {
          KidsAfter(f, p, q, n, xs, sub, delta, r, m, UpdateNode(At(g.kids, Right(m)), sub, delta).value);
        }
      }
    }
  }

  lemma AlikeTop(xs: Forest, sub: Forest)
    requires Alike(xs, sub)
    ensures xs.Tree? <==> sub.Tree?
    ensures xs.Tree? ==> xs.name == sub.name && Alike(xs.rest, sub.rest)
  {
  }

  /** The children after the one that becomes `g1`. */
  lemma {:induction false} KidsAfter(f: Forest, p: Path, q: Path, n: nat, xs: Forest, sub: Forest, delta: nat, r: nat, m: nat, g1: Forest)
    requires Around(f, p, q, r) && Guides(f, q, n, xs) && xs.Tree? && Alike(xs, sub) && sub.Tree? && At(f, q + Child(n)) == sub
    requires p == [] ==> NoneLeadsTo(At(f, p).kids, sub, r)
    requires FirstChild(At(f, p).kids, sub.name) == Some(m) && Leads(At(f, p).kids, Right(m)) && Leads(f, p + Child(m))
    requires At(f, p + Child(m)) == At(At(f, p).kids, Right(m))
    requires Meant(f, p + Child(m), q + Child(n), r) && UpdateNode(At(At(f, p).kids, Right(m)), sub, delta) == Done(g1)
    ensures var h := Put(f, p + Child(m), g1);
            && Leads(h, p) && Guides(h, q, n + 1, xs.rest)
            && KidsWithin(h, p, q, n + 1, xs.rest, delta)
               == KidsInPlace(f, p, UpdateKids(Put(At(f, p).kids, Right(m), g1), sub.rest, delta))
    decreases xs, 0
  {
    hide UpdateWithin, KidsWithin, UpdateNode, UpdateKids, Inside, NoneLeadsTo, Put, At, Leads, Alike, FirstChild;
    var g, h := At(f, p), Put(f, p + Child(m), g1);
    PutAt(f, p);
    NodeAlike(At(g.kids, Right(m)), sub, delta);
    KidExchanged(f, p, g, g.kids, m, g1);
    AlikeAtPath(f, p + Child(m), g1);
    NextGuides(f, h, p, q, n, xs);
    NoneNext(p, g.kids, sub, m, r, delta);
    UpdatedTop(At(g.kids, Right(m)), sub, delta);
    SubKept(f, p, q, r, m, n, sub, g1);
    NextSibling(h, q, n);
    AlikeLeads(f, h, Child(r));
    AlikeTop(xs, sub);
    var g2 := g.(kids := Put(g.kids, Right(m), g1));
    BeforePut(f, p, g2);
    KidsApart(h, p, q, n + 1, xs.rest, sub.rest, delta, r);
    if UpdateKids(g2.kids, sub.rest, delta).Done? {
      PutPut(f, p, g2, g2.(kids := UpdateKids(g2.kids, sub.rest, delta).value));
    }
  }

  lemma UpdatedTop(g: Forest, x: Forest, delta: nat)
    requires g.Tree? && x.Tree? && UpdateNode(g, x, delta).Done?
    ensures UpdateNode(g, x, delta).value.Tree? && UpdateNode(g, x, delta).value.rest == g.rest
  {
  }

  /** No fix-up stands for the node of the fix-ups. */
  predicate FixupsApart(o: Forest)
    requires o.Tree?
  {
    match FirstChild(o.kids, LOCAL_FIXUPS)
    case None => true
    case Some(m) =>
      SiblingLeads(o.kids, LOCAL_FIXUPS);
      NoneLeadsTo(o.kids, At(o.kids, Right(m)).kids, m)
  }

  lemma AlikeApart(o: Forest, a: Forest)
    requires o.Tree? && Alike(o, a) && FixupsApart(o)
    ensures a.Tree? && FixupsApart(a)
  {
    AlikeFirstChild(o.kids, a.kids, LOCAL_FIXUPS);
    match FirstChild(o.kids, LOCAL_FIXUPS)
    case None =>
    case Some(m) =>
      SiblingLeads(o.kids, LOCAL_FIXUPS);
      SiblingLeads(a.kids, LOCAL_FIXUPS);
      AlikeAt(o.kids, a.kids, m);
      AlikeNone(o.kids, a.kids, At(o.kids, Right(m)).kids, m);
      AlikeNoneBoth(a.kids, At(o.kids, Right(m)).kids, At(a.kids, Right(m)).kids, m);
  }

  lemma {:induction false} AlikeNoneBoth(kids: Forest, xs: Forest, ys: Forest, m: nat)
    requires Alike(xs, ys) && NoneLeadsTo(kids, xs, m)
    ensures NoneLeadsTo(kids, ys, m)
    decreases xs
  {
    if xs.Tree? {
      AlikeNoneBoth(kids, xs.rest, ys.rest, m);
    }
  }

  /** When no fix-up stands for the node of the fix-ups, the overlay is relocated as if they stood elsewhere. */
  lemma RelocateApart(o: Forest, delta: nat)
    requires o.Tree? && FixupsApart(o)
    ensures RelocateWithin(o, delta) == Relocate(o, delta)
  {
    if Adjust(o, delta).Done? {
      var a := Adjust(o, delta).value;
      AdjustAlike(o, delta);
      AlikeApart(o, a);
      if FirstChild(a.kids, LOCAL_FIXUPS).Some? {
        var m := FirstChild(a.kids, LOCAL_FIXUPS).value;
        SiblingLeads(a.kids, LOCAL_FIXUPS);
        RootIs(a, m);
        AlikeSelf(At(a, Child(m)));
        WithinApart(a, [], Child(m), At(a, Child(m)), delta, m);
      }
    }
  }
}
