/**
 A fragment of an overlay applied to a base tree, from `fdt_overlay_apply` of lib/utils/libfdt/fdt_overlay.c: the
 overlay's phandles move above those of the base, its references move with them, and a node of it is merged into a
 node of the base. In the merged tree each reference points at what it pointed at in the overlay, and at nothing else.
 */
module FdtApply {
  import opened Options
  import opened FdtFormat
  import opened FdtTree
  import opened FdtEdit
  import opened FdtCommute
  import opened FdtMerge
  import opened FdtTreeEdit
  import opened FdtPhandle
  import opened FdtFixups
  import opened FdtInPlace
  import opened FdtNodes
  import opened FdtWithin
  import opened FdtLocalRefs
  import opened FdtOverlay

  // ---- Nodes by way and by name ----

  /** The node at the end of the way, with its later siblings. */
  function NodeAt(t: Forest, w: Way): (g: Forest)
    requires Reaches(t, w)
    ensures g.Tree? && g.props == PropsAt(t, w)
    decreases |w|
  {
    if w == [] then t else NodeAt(At(t.kids, Right(w[0])), w[1..])
  }

  lemma {:induction false} TwoWays(t: Forest, v: Way, w: Way)
    requires Reaches(t, v)
    ensures Reaches(t, v + w) <==> Reaches(NodeAt(t, v), w)
    ensures Reaches(t, v + w) ==> PropsAt(t, v + w) == PropsAt(NodeAt(t, v), w)
    decreases |v|
  {
    if v == [] {
      assert v + w == w;
    } else {
      assert (v + w)[0] == v[0] && (v + w)[1..] == v[1..] + w;
      TwoWays(At(t.kids, Right(v[0])), v[1..], w);
    }
  }

  lemma {:induction false} AlikeNodes(t: Forest, h: Forest, w: Way)
    requires Alike(t, h) && Reaches(t, w)
    ensures Reaches(h, w) && Alike(NodeAt(t, w), NodeAt(h, w))
    decreases |w|
  {
    if w != [] {
      AlikeAt(t.kids, h.kids, w[0]);
      AlikeNodes(At(t.kids, Right(w[0])), At(h.kids, Right(w[0])), w[1..]);
    }
  }

  /** The same as a path. */
  function PathOf(w: Way): Path {
    if w == [] then [] else Child(w[0]) + PathOf(w[1..])
  }

  lemma {:induction false} PathLeads(t: Forest, w: Way)
    requires Reaches(t, w)
    ensures Leads(t, PathOf(w)) && At(t, PathOf(w)) == NodeAt(t, w)
    decreases |w|
  {
    if w != [] {
      var c, rest := Child(w[0]), PathOf(w[1..]);
      PathLeads(At(t.kids, Right(w[0])), w[1..]);
      assert c[0] && c[1..] == Right(w[0]);
      assert Leads(t, c) && At(t, c) == At(t.kids, Right(w[0]));
      TwoLegs(t, c, rest);
    }
  }

  /** The number of the first sibling of exactly that name. */
  function NamedKid(kids: Forest, name: Name): (m: Option<nat>)
    ensures m.Some? ==> Leads(kids, Right(m.value))
    ensures m.Some? ==> Sibling(kids, name) == Some(Body(At(kids, Right(m.value)).props, At(kids, Right(m.value)).kids))
    ensures m.None? ==> Sibling(kids, name).None?
    decreases kids
  {
    if kids.Empty? then None
    else if kids.name == name then Some(0)
    else match NamedKid(kids.rest, name)
      case None => None
      case Some(m) =>
        assert Right(m + 1)[1..] == Right(m) && !Right(m + 1)[0];
        Some(m + 1)
  }

  /** The way on which the names lead. */
  function Follow(t: Forest, path: seq<Name>): (w: Option<Way>)
    requires t.Tree?
    ensures w.Some? ==> Reaches(t, w.value)
    decreases |path|
  {
    if path == [] then Some([])
    else match NamedKid(t.kids, path[0])
      case None => None
      case Some(m) =>
        match Follow(At(t.kids, Right(m)), path[1..])
        case None => None
        case Some(w) =>
          assert ([m] + w)[1..] == w;
          Some([m] + w)
  }

  /** The value of a property of the node that the names lead to, from the first node of `t` on. */
  function ValueIn(t: Forest, path: seq<Name>, prop: Name): Option<seq<byte>>
    requires t.Tree?
  {
    if path == [] then PropValue(t.props, prop) else Value(t.kids, path, prop)
  }

  lemma {:induction false} FollowValue(t: Forest, path: seq<Name>, prop: Name)
    requires t.Tree?
    ensures ValueIn(t, path, prop) ==
              match Follow(t, path) case None => None case Some(w) => PropValue(PropsAt(t, w), prop)
    decreases |path|
  {
    if path != [] && NamedKid(t.kids, path[0]).Some? {
      var m := NamedKid(t.kids, path[0]).value;
      FollowValue(At(t.kids, Right(m)), path[1..], prop);
      if Follow(t, path).Some? {
        assert Follow(t, path).value[1..] == Follow(At(t.kids, Right(m)), path[1..]).value;
      }
    }
  }

  lemma {:induction false} AlikeFollow(t: Forest, h: Forest, path: seq<Name>)
    requires t.Tree? && Alike(t, h)
    ensures Follow(t, path) == Follow(h, path)
    decreases |path|
  {
    if path != [] {
      AlikeNamed(t.kids, h.kids, path[0]);
      if NamedKid(t.kids, path[0]).Some? {
        var m := NamedKid(t.kids, path[0]).value;
        AlikeAt(t.kids, h.kids, m);
        AlikeFollow(At(t.kids, Right(m)), At(h.kids, Right(m)), path[1..]);
      }
    }
  }

  lemma {:induction false} AlikeNamed(kids: Forest, hs: Forest, name: Name)
    requires Alike(kids, hs)
    ensures NamedKid(kids, name) == NamedKid(hs, name)
    decreases kids
  {
    if kids.Tree? {
      AlikeNamed(kids.rest, hs.rest, name);
    }
  }

  // ---- Phandles by name ----

  function CellOf(v: Option<seq<byte>>): Option<nat> {
    if v.Some? && |v.value| == 4 then Some(Cell(v.value, 0)) else None
  }

  /** `fdt_get_phandle` of the node that the names lead to. */
  function NodePhandle(t: Forest, path: seq<Name>): Option<nat>
    requires t.Tree?
  {
    match CellOf(ValueIn(t, path, PHANDLE))
    case Some(v) => Some(v)
    case None => CellOf(ValueIn(t, path, LINUX_PHANDLE))
  }

  lemma NodePhandleIs(t: Forest, path: seq<Name>)
    requires t.Tree?
    ensures NodePhandle(t, path) == match Follow(t, path) case None => None case Some(w) => Phandle(PropsAt(t, w))
  {
    FollowValue(t, path, PHANDLE);
    FollowValue(t, path, LINUX_PHANDLE);
  }

  /** The phandle of the overlay's node is that of the merged node: it is in "phandle", or the base's node has none
      there. */
  predicate Carried(g: Forest, o: Forest, path: seq<Name>)
    requires g.Tree? && o.Tree?
  {
    NodePhandle(o, path).Some? && (CellOf(ValueIn(o, path, PHANDLE)).Some? || CellOf(ValueIn(g, path, PHANDLE)).None?)
  }

  /** The properties called like phandles have four bytes. */
  predicate FourIn(o: Forest, path: seq<Name>)
    requires o.Tree?
  {
    forall n :: n in {PHANDLE, LINUX_PHANDLE} && ValueIn(o, path, n).Some? ==> |ValueIn(o, path, n).value| == 4
  }

  // ---- The merged node ----

  /** The names of the overlay's node fit those of the base's. */
  predicate Fits(g: Forest, o: Forest)
    requires g.Tree? && o.Tree?
  {
    Fit(g.kids, o.kids) && Clear(o.kids) && DistinctProps(o.props)
  }

  lemma MergedValue(g: Forest, o: Forest, path: seq<Name>, prop: Name)
    requires g.Tree? && o.Tree? && Fits(g, o)
    ensures ValueIn(Merge(g, o), path, prop) ==
              if ValueIn(o, path, prop).Some? then ValueIn(o, path, prop) else ValueIn(g, path, prop)
  {
    if path == [] {
      MergePropsValue(g.props, o.props, prop);
    } else {
      MergeMeaning(g.kids, o.kids, path, prop);
    }
  }

  lemma MergedPhandle(g: Forest, o: Forest, path: seq<Name>)
    requires g.Tree? && o.Tree? && Fits(g, o) && FourIn(o, path)
    ensures NodePhandle(Merge(g, o), path) == if Carried(g, o, path) then NodePhandle(o, path) else NodePhandle(g, path)
  {
    hide Merge, Fits, ValueIn;
    MergedValue(g, o, path, PHANDLE);
    MergedValue(g, o, path, LINUX_PHANDLE);
    assert PHANDLE in {PHANDLE, LINUX_PHANDLE} && LINUX_PHANDLE in {PHANDLE, LINUX_PHANDLE};
  }

  // ---- The relocated node ----

  /** What relocation makes of the node at `fw` of the overlay, seen by name. */
  lemma RelocatedNode(o: Forest, delta: nat, fw: Way, path: seq<Name>)
    requires o.Tree? && Relocate(o, delta).Done? && Reaches(o, fw)
    ensures var r := Relocate(o, delta).value;
            && Reaches(r, fw) && Alike(NodeAt(o, fw), NodeAt(r, fw))
            && Follow(NodeAt(r, fw), path) == Follow(NodeAt(o, fw), path)
            && NodePhandle(NodeAt(r, fw), path) == Shifted(NodePhandle(NodeAt(o, fw), path), delta)
            && (NodePhandle(NodeAt(o, fw), path).Some? ==> NodePhandle(NodeAt(o, fw), path).value + delta < CELL - 1)
            && FourIn(NodeAt(r, fw), path)
            && (CellOf(ValueIn(NodeAt(r, fw), path, PHANDLE)).Some? <==> CellOf(ValueIn(NodeAt(o, fw), path, PHANDLE)).Some?)
  {
    hide Relocate, Follow, PropsAt, Reaches, Alike, NodeAt, ValueIn;
    var r := Relocate(o, delta).value;
    RelocateAlike(o, delta);
    AlikeNodes(o, r, fw);
    var t, h := NodeAt(o, fw), NodeAt(r, fw);
    AlikeFollow(t, h, path);
    NodePhandleIs(t, path);
    NodePhandleIs(h, path);
    FollowValue(t, path, PHANDLE);
    FollowValue(h, path, PHANDLE);
    FollowValue(h, path, LINUX_PHANDLE);
    if Follow(t, path).Some? {
      var w := Follow(t, path).value;
      TwoWays(o, fw, w);
      TwoWays(r, fw, w);
      PhandlesMove(o, delta, fw + w);
      PhandlesFour(o, delta, fw + w);
      CellMoves(o, delta, fw + w, PHANDLE);
    }
  }

  lemma RelocateAlike(o: Forest, delta: nat)
    requires o.Tree? && Relocate(o, delta).Done?
    ensures Relocate(o, delta).value.Tree? && Alike(o, Relocate(o, delta).value)
  {
    var a := Adjust(o, delta).value;
    AdjustAlike(o, delta);
    match FirstChild(a.kids, LOCAL_FIXUPS)
    case None =>
    case Some(m) =>
      SiblingLeads(a.kids, LOCAL_FIXUPS);
      NodeAlike(a, At(a.kids, Right(m)), delta);
      AlikeTransitive(o, a, Relocate(o, delta).value);
  }

  lemma PhandlesFour(o: Forest, delta: nat, w: Way)
    requires o.Tree? && Relocate(o, delta).Done? && Reaches(o, w)
    ensures Reaches(Relocate(o, delta).value, w)
    ensures var qs := PropsAt(Relocate(o, delta).value, w);
            forall n :: n in {PHANDLE, LINUX_PHANDLE} && PropValue(qs, n).Some? ==> |PropValue(qs, n).value| == 4
  {
    hide Relocate, Reaches, PropsAt, Listed, Alike, AddAll, Cell;
    SameNodes(o, delta, w);
    var ps, qs := PropsAt(o, w), PropsAt(Relocate(o, delta).value, w);
    forall n | n in {PHANDLE, LINUX_PHANDLE} && PropValue(qs, n).Some? ensures |PropValue(qs, n).value| == 4 {
      AlikeFirstProp(ps, qs, n);
      Relocated(o, delta, w, FirstProp(ps, n));
    }
  }

  /** A listed cell moves by `delta`. */
  lemma ListedMoves(o: Forest, delta: nat, w: Way, k: nat, j: nat)
    requires o.Tree? && Relocate(o, delta).Done? && Reaches(o, w) && k < |PropsAt(o, w)|
    requires Apart(Listed(o, w, k)) && j < |Listed(o, w, k)|
    ensures var r, offset := Relocate(o, delta).value, Listed(o, w, k)[j];
            && Reaches(r, w) && AlikeProps(PropsAt(o, w), PropsAt(r, w)) && k < |PropsAt(r, w)|
            && offset + 4 <= |PropsAt(o, w)[k].value| == |PropsAt(r, w)[k].value|
            && Cell(PropsAt(r, w)[k].value, offset) == (Cell(PropsAt(o, w)[k].value, offset) + delta) % CELL
  {
    hide Relocate, Reaches, PropsAt, Listed, Alike, Cell, AddAll, Apart;
    Relocated(o, delta, w, k);
    AddAllListed(PropsAt(o, w)[k].value, Listed(o, w, k), delta, j);
  }

  // ---- The base ----

  /** No node of the base has a phandle above the greatest. */
  lemma BaseBelow(f: Forest, p: Path, path: seq<Name>)
    requires Leads(f, p)
    ensures NodePhandle(At(f, p), path).Or(0) <= MaxPhandle(f)
  {
    var g := At(f, p);
    NodePhandleIs(g, path);
    if Follow(g, path).Some? {
      var w := Follow(g, path).value;
      PathLeads(g, w);
      TwoLegs(f, p, PathOf(w));
      MaxIsMax(f, p + PathOf(w));
    }
  }

  // ---- Where references point after all ----

  /** A cell that the overlay lists, at `offset` of the property `prop` of the node that the names `path` lead to from the
      node at `fw` on. */
  ghost predicate References(o: Forest, fw: Way, path: seq<Name>, prop: Name, offset: nat, c: nat) {
    && o.Tree? && Reaches(o, fw) && Follow(NodeAt(o, fw), path).Some?
    && Reaches(o, fw + Follow(NodeAt(o, fw), path).value)
    && var w := fw + Follow(NodeAt(o, fw), path).value;
       var k := FirstProp(PropsAt(o, w), prop);
       && k < |PropsAt(o, w)| && Apart(Listed(o, w, k)) && offset in Listed(o, w, k)
       && offset + 4 <= |PropsAt(o, w)[k].value| && c == Cell(PropsAt(o, w)[k].value, offset)
  }

  /** The cell has moved in the relocated overlay, and stands in the merged node. */
  lemma ReferenceArrives(g: Forest, o: Forest, delta: nat, fw: Way, path: seq<Name>, prop: Name, offset: nat, c: nat)
    requires References(o, fw, path, prop, offset, c) && Relocate(o, delta).Done? && c + delta < CELL
    requires g.Tree? && Reaches(Relocate(o, delta).value, fw) && Fits(g, NodeAt(Relocate(o, delta).value, fw))
    ensures var v := ValueIn(Merge(g, NodeAt(Relocate(o, delta).value, fw)), path, prop);
            v.Some? && offset + 4 <= |v.value| && Cell(v.value, offset) == c + delta
  {
    hide Relocate, Follow, PropsAt, Reaches, Alike, NodeAt, ValueIn, Listed, Apart, Merge, Fits, Cell;
    var r, t := Relocate(o, delta).value, NodeAt(o, fw);
    var u := Follow(t, path).value;
    var w := fw + u;
    var k := FirstProp(PropsAt(o, w), prop);
    var j :| 0 <= j < |Listed(o, w, k)| && Listed(o, w, k)[j] == offset;
    ListedMoves(o, delta, w, k, j);
    RelocatedNode(o, delta, fw, path);
    TwoWays(r, fw, u);
    AlikeFirstProp(PropsAt(o, w), PropsAt(r, w), prop);
    FollowValue(NodeAt(r, fw), path, prop);
    MergedValue(g, NodeAt(r, fw), path, prop);
  }

  /** In the merged tree the reference points at exactly those nodes below the target at which it pointed in the overlay
      and whose phandle is carried, and at no node that the base had. */
  lemma ReferencesArrive(f: Forest, p: Path, o: Forest, fw: Way, path: seq<Name>, prop: Name, offset: nat, c: nat, to: seq<Name>)
    requires Leads(f, p) && References(o, fw, path, prop, offset, c) && Relocate(o, MaxPhandle(f)).Done?
    requires Fits(At(f, p), NodeAt(o, fw)) && 1 <= c && c + MaxPhandle(f) < CELL
    ensures var r := Relocate(o, MaxPhandle(f)).value;
            && Reaches(r, fw)
            && var merged := Merge(At(f, p), NodeAt(r, fw));
               var v := ValueIn(merged, path, prop);
               && v.Some? && offset + 4 <= |v.value|
               && (NodePhandle(merged, to) == Some(Cell(v.value, offset)) <==>
                     NodePhandle(NodeAt(o, fw), to) == Some(c) && Carried(At(f, p), NodeAt(o, fw), to))
               && forall q :: Leads(f, q) ==> Phandle(At(f, q).props) != Some(Cell(v.value, offset))
  {
    hide Relocate, Follow, PropsAt, Reaches, Alike, NodeAt, ValueIn, Listed, Apart, Merge, Cell, CellOf, MaxPhandle, Phandle, FourIn;
    var delta, g := MaxPhandle(f), At(f, p);
    var r := Relocate(o, delta).value;
    RelocatedNode(o, delta, fw, to);
    AlikeFits(g, NodeAt(o, fw), NodeAt(r, fw));
    ReferenceArrives(g, o, delta, fw, path, prop, offset, c);
    MergedPhandle(g, NodeAt(r, fw), to);
    BaseBelow(f, p, to);
    forall q | Leads(f, q) ensures Phandle(At(f, q).props) != Some(c + delta) {
      MaxIsMax(f, q);
    }
  }

  lemma AlikeFits(g: Forest, o: Forest, h: Forest)
    requires g.Tree? && o.Tree? && Alike(o, h) && Fits(g, o)
    ensures h.Tree? && Fits(g, h)
  {
    AlikeSkeleton(o.kids, h.kids);
    FitSkeleton(g.kids, o.kids);
    FitSkeleton(g.kids, h.kids);
    AlikeClear(o.kids, h.kids);
    AlikeDistinct(o.props, h.props);
  }

  lemma {:induction false} AlikeSkeleton(f: Forest, h: Forest)
    requires Alike(f, h)
    ensures Skeleton(f) == Skeleton(h)
    decreases f
  {
    if f.Tree? {
      AlikeSkeleton(f.kids, h.kids);
      AlikeSkeleton(f.rest, h.rest);
    }
  }

  lemma {:induction false} AlikeClear(f: Forest, h: Forest)
    requires Alike(f, h) && Clear(f)
    ensures Clear(h)
    decreases f
  {
    if f.Tree? {
      AlikeNamed(f.rest, h.rest, f.name);
      AlikeClear(f.kids, h.kids);
      AlikeClear(f.rest, h.rest);
      AlikeDistinct(f.props, h.props);
    }
  }

  lemma AlikeDistinct(ps: seq<FdtTree.Prop>, qs: seq<FdtTree.Prop>)
    requires AlikeProps(ps, qs) && DistinctProps(ps)
    ensures DistinctProps(qs)
  {
    forall j, k | 0 <= j < k < |qs| ensures qs[j].name != qs[k].name {
      assert ps[j].name != ps[k].name;
    }
  }

  // ---- The same on blobs ----

  lemma {:induction false} MaxBelow(f: Forest)
    ensures MaxPhandle(f) < CELL
    decreases f
  {
    if f.Tree? {
      MaxBelow(f.kids);
      MaxBelow(f.rest);
      CellValueBound(f.props, PHANDLE);
      CellValueBound(f.props, LINUX_PHANDLE);
    }
  }

  lemma CellValueBound(ps: seq<FdtTree.Prop>, name: Name)
    ensures CellValue(ps, name).Or(0) < CELL
  {
    var m := FirstProp(ps, name);
    if m < |ps| && |ps[m].value| == 4 {
      CellBound(ps[m].value, 0);
    }
  }

  /** The steps of `fdt_overlay_apply` for one fragment whose target is known: the overlay is relocated above the phandles
      of the base, and the fragment's node, at `node` of its blob, is merged into the node at `target`. */
  method ApplyFragment(b: Blob, target: nat, o: Blob, node: nat, ghost cs: seq<Chunk>, ghost f: Forest, ghost p: Path, ghost i: nat,
                       ghost co: seq<Chunk>, ghost fo: Forest, ghost fw: Way, ghost io: nat, ghost i0: nat)
    returns (outcome: Outcome<Status>, ghost ds: seq<Chunk>)
    requires Holds(b, cs, f, p, i, target) && b != o && b.buf != o.buf
    requires fo.Tree? && fo.rest.Empty? && Holds(o, co, fo, [], i0, 0) && Reaches(fo, fw) && Holds(o, co, fo, PathOf(fw), io, node)
    modifies b, b.buf, o.buf
    ensures match RelocateWithin(fo, MaxPhandle(f))
            case Done(r) =>
              && Reaches(r, fw) && (outcome == Done(Ok) || outcome == Done(NoSpace))
              && Affords(outcome.value, old(b.Room()), b.Room(), Need(NodeAt(r, fw)))
              && (outcome == Done(Ok) ==> Holds(b, ds, Put(f, p, Merge(At(f, p), NodeAt(r, fw))), p, i, target))
            case e => outcome == e.PropagateFailure() && unchanged(b) && unchanged(b.buf)
  {
    hide Block, Rep, Put, Flatten, Before, After, Rewritten, Locates, Holds, Now, Leads, At, RelocateWithin, Merge, MaxPhandle, Reaches, NodeAt, Alike, PathOf;
    ds := cs;
    MaxBelow(f);
    HoldsBlock(b, cs, f, p, i, target);
    var delta := FindMaxPhandle(b, cs, f);
    HoldsNow(o, co, fo, PathOf(fw), io, node);
    var done;
    ghost var so := o.Strings();
    ghost var dso, h;
    done, dso, h := RelocateInPlace(o, delta, co, fo, i0);
    if !done.Done? {
      return done.PropagateFailure(), ds;
    }
    NowHolds(o, co, dso, so, fo, h, PathOf(fw), io, node);
    AlikeNodes(fo, h, fw);
    PathLeads(h, fw);
    var status;
    status, ds := ApplyNode(b, target, o, node, cs, f, p, i, dso, h, PathOf(fw), io);
    outcome := Done(status);
  }

  lemma HoldsBlock(b: Blob, cs: seq<Chunk>, f: Forest, p: Path, i: nat, node: nat)
    requires Holds(b, cs, f, p, i, node)
    ensures b.Ordered() && Block(b.Struct(), cs) && Rep(cs, b.Strings(), Flatten(f))
  {
  }
}
