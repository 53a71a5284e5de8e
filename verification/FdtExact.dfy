/**
 When an overlay can be relocated, lib/utils/libfdt/fdt_overlay.c: which of its phandles can be moved, which error the
 first that cannot be moved gives, and when the references can be updated as well.
 */
module FdtExact {
  import opened Options
  import opened FdtFormat
  import opened FdtTree
  import opened FdtCommute
  import opened FdtPhandle
  import opened FdtFixups

  // ---- The names ----

  /** The characters of a name as bytes. */
  function Ascii(s: string): seq<byte>
    requires forall k :: 0 <= k < |s| ==> s[k] < 128 as char
  {
    seq(|s|, k requires 0 <= k < |s| => s[k] as nat)
  }

  lemma NamesAre()
    ensures Ascii("phandle") == PHANDLE && Ascii("linux,phandle") == LINUX_PHANDLE && Ascii("__local_fixups__") == LOCAL_FIXUPS
  {
  }

  // ---- The phandles of one node ----

  /** Property number `k` is the first one called so. */
  predicate FirstCalled(ps: seq<FdtTree.Prop>, k: nat, name: Name) {
    k < |ps| && ps[k].name == name && forall j :: 0 <= j < k ==> ps[j].name != name
  }

  predicate IsPhandleName(name: Name) { name == PHANDLE || name == LINUX_PHANDLE }

  /** The value is a cell that can grow by `delta` without becoming 2^32 - 1, which is no phandle, or more. */
  predicate Movable(value: seq<byte>, delta: nat) {
    |value| == 4 && Cell(value, 0) + delta < 0xffff_ffff
  }

  /** The first property of either name, if there is one, can be moved. */
  ghost predicate NodeMoves(ps: seq<FdtTree.Prop>, delta: nat) {
    forall k: nat, name :: IsPhandleName(name) && FirstCalled(ps, k, name) ==> Movable(ps[k].value, delta)
  }

  /** The first property of that name is refused with the error `e`. */
  ghost predicate Refused(ps: seq<FdtTree.Prop>, name: Name, delta: nat, e: Outcome<seq<FdtTree.Prop>>) {
    exists k: nat ::
      FirstCalled(ps, k, name) && !Movable(ps[k].value, delta) && e == if |ps[k].value| == 4 then NoPhandles else BadPhandle
  }

  lemma FirstPropIs(ps: seq<FdtTree.Prop>, k: nat, name: Name)
    ensures FirstCalled(ps, k, name) <==> k < |ps| && FirstProp(ps, name) == k
  {
  }

  /** One property is refused exactly if it is there and cannot be moved, with FDT_ERR_BADPHANDLE for a value that is no
      cell and with FDT_ERR_NOPHANDLES otherwise. */
  lemma OffsetExactly(ps: seq<FdtTree.Prop>, name: Name, delta: nat, e: Outcome<seq<FdtTree.Prop>>)
    ensures AddOffset(ps, name, delta).Done? <==> forall k: nat :: FirstCalled(ps, k, name) ==> Movable(ps[k].value, delta)
    ensures !e.Done? ==> (AddOffset(ps, name, delta) == e <==> Refused(ps, name, delta, e))
  {
    FirstPropIs(ps, FirstProp(ps, name), name);
    forall k: nat ensures FirstCalled(ps, k, name) <==> k < |ps| && FirstProp(ps, name) == k {
      FirstPropIs(ps, k, name);
    }
  }

  /** The move of one name does not touch the other. */
  lemma OtherName(ps: seq<FdtTree.Prop>, delta: nat, k: nat)
    requires AddOffset(ps, PHANDLE, delta).Done?
    ensures var qs := AddOffset(ps, PHANDLE, delta).value;
            && (FirstCalled(qs, k, LINUX_PHANDLE) <==> FirstCalled(ps, k, LINUX_PHANDLE))
            && (FirstCalled(ps, k, LINUX_PHANDLE) ==> qs[k] == ps[k])
  {
    assert |PHANDLE| != |LINUX_PHANDLE|;
    AddOffsetAlike(ps, PHANDLE, delta);
  }

  /** Both properties of a node: "phandle" comes first. */
  lemma NodeExactly(ps: seq<FdtTree.Prop>, delta: nat, e: Outcome<seq<FdtTree.Prop>>)
    ensures AdjustProps(ps, delta).Done? <==> NodeMoves(ps, delta)
    ensures !e.Done? ==>
              (AdjustProps(ps, delta) == e <==>
                 || Refused(ps, PHANDLE, delta, e)
                 || ((forall k: nat :: FirstCalled(ps, k, PHANDLE) ==> Movable(ps[k].value, delta)) && Refused(ps, LINUX_PHANDLE, delta, e)))
  {
    hide FirstCalled, Movable;
    OffsetExactly(ps, PHANDLE, delta, e);
    if AddOffset(ps, PHANDLE, delta).Done? {
      var qs := AddOffset(ps, PHANDLE, delta).value;
      OffsetExactly(qs, LINUX_PHANDLE, delta, e);
      forall k: nat ensures FirstCalled(qs, k, LINUX_PHANDLE) <==> FirstCalled(ps, k, LINUX_PHANDLE)
        ensures FirstCalled(ps, k, LINUX_PHANDLE) ==> k < |ps| && k < |qs| && qs[k] == ps[k]
      {
        OtherName(ps, delta, k);
        InBounds(ps, k, LINUX_PHANDLE);
        InBounds(qs, k, LINUX_PHANDLE);
      }
    }
  }

  lemma InBounds(ps: seq<FdtTree.Prop>, k: nat, name: Name)
    ensures FirstCalled(ps, k, name) ==> k < |ps|
  {
  }

  // ---- All phandles of a tree ----

  ghost predicate AllMove(f: Forest, delta: nat) {
    forall p :: Leads(f, p) ==> NodeMoves(At(f, p).props, delta)
  }

  /** The phandles can be moved exactly if those of each node can. */
  lemma {:induction false} AdjustExactly(f: Forest, delta: nat)
    ensures Adjust(f, delta).Done? <==> AllMove(f, delta)
    decreases f
  {
    if f.Tree? {
      hide NodeMoves;
      NodeExactly(f.props, delta, BadPhandle);
      AdjustExactly(f.kids, delta);
      AdjustExactly(f.rest, delta);
      AllMoveParts(f, delta);
    }
  }

  lemma AllMoveParts(f: Forest, delta: nat)
    requires f.Tree?
    ensures AllMove(f, delta) <==> NodeMoves(f.props, delta) && AllMove(f.kids, delta) && AllMove(f.rest, delta)
  {
    hide NodeMoves;
    assert Leads(f, []) && At(f, []) == f;
    forall p ensures Leads(f.kids, p) == Leads(f, [true] + p) && (Leads(f.kids, p) ==> At(f.kids, p) == At(f, [true] + p)) {
      assert ([true] + p)[1..] == p;
    }
    forall p ensures Leads(f.rest, p) == Leads(f, [false] + p) && (Leads(f.rest, p) ==> At(f.rest, p) == At(f, [false] + p)) {
      assert ([false] + p)[1..] == p;
    }
    forall p | Leads(f, p) && p != []
      ensures if p[0] then Leads(f.kids, p[1..]) && At(f, p) == At(f.kids, p[1..]) else Leads(f.rest, p[1..]) && At(f, p) == At(f.rest, p[1..])
    {
    }
  }

  /** The recursion comes to the node at `q` before it comes to that at `p`: nodes before the nodes below them, and these
      before later siblings. */
  predicate Earlier(q: Path, p: Path) {
    p != [] && (q == [] || (q[0] && !p[0]) || (q[0] == p[0] && Earlier(q[1..], p[1..])))
  }

  /** The node at `p` is the first whose phandles cannot be moved. */
  ghost predicate FirstStuck(f: Forest, p: Path, delta: nat) {
    && Leads(f, p) && !NodeMoves(At(f, p).props, delta)
    && forall q :: Leads(f, q) && Earlier(q, p) ==> NodeMoves(At(f, q).props, delta)
  }

  /** If they cannot all be moved, there is a first such node, and its error is the error of the whole. */
  lemma {:induction false} AdjustFails(f: Forest, delta: nat) returns (p: Path)
    requires !Adjust(f, delta).Done?
    ensures FirstStuck(f, p, delta) && !AdjustProps(At(f, p).props, delta).Done?
    ensures Adjust(f, delta) == AdjustProps(At(f, p).props, delta).PropagateFailure()
    decreases f
  {
    hide NodeMoves, AdjustProps;
    NodeExactly(f.props, delta, BadPhandle);
    if !AdjustProps(f.props, delta).Done? {
      p := [];
    } else {
      var down := !Adjust(f.kids, delta).Done?;
      var q := AdjustFails(if down then f.kids else f.rest, delta);
      p := [down] + q;
      assert p[1..] == q;
      AdjustExactly(f.kids, delta);
      forall r | Leads(f, r) && Earlier(r, p) ensures NodeMoves(At(f, r).props, delta) {
        if r != [] {
          assert Leads(if r[0] then f.kids else f.rest, r[1..]);
        }
      }
    }
  }

  /** There is only one first. */
  lemma {:induction false} FirstStuckUnique(f: Forest, p: Path, q: Path, delta: nat)
    requires FirstStuck(f, p, delta) && FirstStuck(f, q, delta)
    ensures p == q
  {
    hide NodeMoves;
    EarlierTotal(p, q);
  }

  lemma {:induction false} EarlierTotal(p: Path, q: Path)
    ensures p == q || Earlier(p, q) || Earlier(q, p)
    decreases |p|
  {
    if p != [] && q != [] && p[0] == q[0] {
      EarlierTotal(p[1..], q[1..]);
      assert p == [p[0]] + p[1..] && q == [q[0]] + q[1..];
    }
  }

  // ---- The whole relocation ----

  /** All that the overlay's fix-ups name is there, and unless nothing moves they name no phandle. */
  predicate FixupsResolve(o: Forest, delta: nat)
    requires o.Tree?
  {
    match FirstChild(o.kids, LOCAL_FIXUPS)
    case None => true
    case Some(m) =>
      SiblingLeads(o.kids, LOCAL_FIXUPS);
      var x := At(o.kids, Right(m));
      Resolves(o, x) && (delta > 0 ==> HasNoPhandle(x.props) && NonePhandle(x.kids))
  }

  /** An overlay can be relocated exactly if all its phandles can be moved and its fix-ups resolve. */
  lemma RelocateExactly(o: Forest, delta: nat)
    requires o.Tree?
    ensures Relocate(o, delta).Done? <==> AllMove(o, delta) && FixupsResolve(o, delta)
  {
    AdjustExactly(o, delta);
    if Adjust(o, delta).Done? {
      var a := Adjust(o, delta).value;
      AdjustAlike(o, delta);
      AlikeFirstChild(o.kids, a.kids, LOCAL_FIXUPS);
      if FirstChild(o.kids, LOCAL_FIXUPS).Some? {
        SiblingLeads(o.kids, LOCAL_FIXUPS);
        SiblingLeads(a.kids, LOCAL_FIXUPS);
        FixupsExactly(o, a, delta, FirstChild(o.kids, LOCAL_FIXUPS).value);
      }
    }
  }

  lemma FixupsExactly(o: Forest, a: Forest, delta: nat, m: nat)
    requires o.Tree? && Adjust(o, delta) == Done(a) && a.Tree? && Alike(o, a) && Leads(o.kids, Right(m)) && Leads(a.kids, Right(m))
    requires FirstChild(a.kids, LOCAL_FIXUPS) == Some(m)
    ensures UpdateNode(a, At(a.kids, Right(m)), delta).Done? <==>
              var x := At(o.kids, Right(m)); Resolves(o, x) && (delta > 0 ==> HasNoPhandle(x.props) && NonePhandle(x.kids))
  {
    hide Alike, UpdateNode, Resolves, HasNoPhandle, NonePhandle, Leads, At;
    var x, y := At(o.kids, Right(m)), At(a.kids, Right(m));
    UpdateExactly(a, y, delta);
    AlikeResolves(o, a, x);
    if delta == 0 {
      ZeroStays(o);
    } else {
      KidsAdjusted(o, a, delta);
      AdjustSuffix(o.kids, delta, m);
      if UpdateNode(a, y, delta).Done? {
        FixupsPlain(a, y, m, delta, o);
        PlainHead(x, delta);
        SameHeadResolves(a, x, y);
      } else if HasNoPhandle(x.props) && NonePhandle(x.kids) {
        PlainAdjusts(x, delta);
        SameHeadResolves(a, x, y);
      }
    }
  }

  lemma KidsAdjusted(o: Forest, a: Forest, delta: nat)
    requires o.Tree? && Adjust(o, delta) == Done(a)
    ensures a.Tree? && Adjust(o.kids, delta) == Done(a.kids)
  {
  }

  lemma SameHeadResolves(g: Forest, x: Forest, y: Forest)
    requires g.Tree? && x.Tree? && y.Tree? && x.props == y.props && x.kids == y.kids
    ensures Resolves(g, x) <==> Resolves(g, y)
  {
  }

  /** Fix-ups without a phandle stay as they are. */
  lemma PlainAdjusts(x: Forest, delta: nat)
    requires x.Tree? && HasNoPhandle(x.props) && NonePhandle(x.kids) && Adjust(x, delta).Done?
    ensures Adjust(x, delta).value.Tree? && Adjust(x, delta).value.props == x.props && Adjust(x, delta).value.kids == x.kids
  {
    PlainForest(x.kids, delta);
  }

  lemma {:induction false} PlainForest(f: Forest, delta: nat)
    requires NonePhandle(f)
    ensures Adjust(f, delta) == Done(f)
    decreases f
  {
    if f.Tree? {
      PlainForest(f.kids, delta);
      PlainForest(f.rest, delta);
    }
  }

  // ---- The errors of the update ----

  /** No fix-up lists one of the last four offsets of 32 bits. */
  predicate NoneWild(xs: Forest) {
    xs.Tree? ==> PropsTame(xs.props) && NoneWild(xs.kids) && NoneWild(xs.rest)
  }

  predicate PropsTame(xs: seq<FdtTree.Prop>) {
    forall i :: 0 <= i < |xs| ==> Tame(Offsets(xs[i].value))
  }

  predicate Tame(os: seq<nat>) { forall j :: 0 <= j < |os| ==> os[j] < 0xffff_fffc }

  lemma {:induction false} CellsFail(v: seq<byte>, os: seq<nat>, delta: nat)
    ensures AddAll(v, os, delta).Done? || AddAll(v, os, delta).BadOverlay? || AddAll(v, os, delta).Wild?
    ensures Tame(os) ==> !AddAll(v, os, delta).Wild?
    decreases |os|
  {
    if os != [] && os[0] + 4 <= |v| {
      CellsFail(AddTo(v, os[0], delta), os[1..], delta);
    }
  }

  lemma {:induction false} PropsFail(ps: seq<FdtTree.Prop>, xs: seq<FdtTree.Prop>, delta: nat)
    ensures var r := UpdateProps(ps, xs, delta); (r.Done? || r.BadOverlay? || r.Wild?) && (PropsTame(xs) ==> !r.Wild?)
    decreases |xs|
  {
    if xs != [] {
      var m := FirstProp(ps, xs[0].name);
      if m < |ps| {
        CellsFail(ps[m].value, Offsets(xs[0].value), delta);
        if AddAll(ps[m].value, Offsets(xs[0].value), delta).Done? {
          PropsFail(ps[m := FdtTree.Prop(ps[m].name, AddAll(ps[m].value, Offsets(xs[0].value), delta).value)], xs[1..], delta);
        }
      }
    }
  }

  /** Fix-ups that do not resolve are refused with FDT_ERR_BADOVERLAY, unless one of those offsets is among them. */
  lemma {:induction false} UpdateFails(g: Forest, x: Forest, delta: nat)
    requires g.Tree? && x.Tree?
    ensures var r := UpdateNode(g, x, delta);
            (r.Done? || r.BadOverlay? || r.Wild?) && (PropsTame(x.props) && NoneWild(x.kids) ==> !r.Wild?)
    decreases x, 0
  {
    PropsFail(g.props, x.props, delta);
    KidsFail(g.kids, x.kids, delta);
  }

  lemma {:induction false} KidsFail(kids: Forest, xs: Forest, delta: nat)
    ensures var r := UpdateKids(kids, xs, delta); (r.Done? || r.BadOverlay? || r.Wild?) && (NoneWild(xs) ==> !r.Wild?)
    decreases xs, 1
  {
    if xs.Tree? && FirstChild(kids, xs.name).Some? {
      var m := FirstChild(kids, xs.name).value;
      SiblingLeads(kids, xs.name);
      UpdateFails(At(kids, Right(m)), xs, delta);
      if UpdateNode(At(kids, Right(m)), xs, delta).Done? {
        KidsFail(Put(kids, Right(m), UpdateNode(At(kids, Right(m)), xs, delta).value), xs.rest, delta);
      }
    }
  }
}
