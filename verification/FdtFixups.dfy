/**
 The references inside an overlay, `overlay_update_local_references` of lib/utils/libfdt/fdt_overlay.c: after the
 overlay's phandles have moved, the cells that its __local_fixups__ node lists move with them and point at the nodes
 that they pointed at.
 */
module FdtFixups {
  import opened Options
  import opened FdtFormat
  import opened FdtMemory
  import opened FdtTree
  import opened FdtCommute
  import opened FdtPhandle
  import Seqs

  // ---- One value ----

  /** The bytes with `delta` added to the cell at `o`. */
  function AddTo(v: seq<byte>, o: nat, delta: nat): (r: seq<byte>)
    requires o + 4 <= |v|
    ensures |r| == |v|
  {
    v[..o] + ToCell((Cell(v, o) + delta) % CELL) + v[o + 4..]
  }

  /** The test of `fdt_setprop_inplace_namelen_partial`, in 32 bits, whether a cell at `o` lies in a value of `len`
      bytes. */
  predicate Admits(len: nat, o: nat) {
    (o + 4) % CELL <= len
  }

  /** The loop of `overlay_update_local_node_references` over the offsets that a fix-up lists. */
  function AddAll(v: seq<byte>, os: seq<nat>, delta: nat): (r: Outcome<seq<byte>>)
    ensures r.Done? ==> |r.value| == |v|
    decreases |os|
  {
    if os == [] then Done(v)
    else if !Admits(|v|, os[0]) then BadOverlay
    else if os[0] + 4 > |v| then Wild
    else AddAll(AddTo(v, os[0], delta), os[1..], delta)
  }

  /** The cells of a fix-up. */
  function Offsets(v: seq<byte>): (os: seq<nat>)
    ensures |os| == |v| / 4
  {
    seq(|v| / 4, i requires 0 <= i < |v| / 4 => Cell(v, 4 * i))
  }

  lemma OffsetsAt(v: seq<byte>, i: nat)
    requires i < |v| / 4
    ensures 4 * i + 4 <= |v| && Offsets(v)[i] == Cell(v, 4 * i)
  {
  }

  /** The test is right for every offset but the last four of 32 bits. */
  lemma AdmitsExactly(len: nat, o: nat)
    requires len < CELL && o < CELL
    ensures Admits(len, o) <==> o + 4 <= len || (o >= CELL - 4 && o + 4 - CELL <= len)
  {
  }

  /** `overlay_update_local_node_references` on one property of the tree. */
  method UpdateReferences(value: array<byte>, fixup: seq<byte>, delta: nat) returns (outcome: Outcome<()>)
    modifies value
    ensures outcome == if |fixup| % 4 != 0 then BadOverlay
                       else match AddAll(old(value[..]), Offsets(fixup), delta)
                         case Done(_) => Done(())
                         case e => e.PropagateFailure()
    ensures outcome.Done? ==> AddAll(old(value[..]), Offsets(fixup), delta) == Done(value[..])
  {
    if |fixup| % 4 != 0 {
      return BadOverlay;
    }
    hide *;
    ghost var os := Offsets(fixup);
    var i, n := 0, |fixup| / 4;
    assert os[0..] == os;
    while i < n
      invariant i <= n == |os|
      invariant AddAll(value[..], os[i..], delta) == AddAll(old(value[..]), os, delta)
    {
      var o := Cell(fixup, 4 * i);
      OffsetsAt(fixup, i);
      NextOffset(value[..], os, i, delta);
      outcome := UpdateReference(value, o, delta);
      if !outcome.Done? {
        return;
      }
      i := i + 1;
    }
    NoOffset(value[..], os, delta);
    outcome := Done(());
  }

  lemma NextOffset(v: seq<byte>, os: seq<nat>, i: nat, delta: nat)
    requires i < |os|
    ensures !Admits(|v|, os[i]) ==> AddAll(v, os[i..], delta) == BadOverlay
    ensures Admits(|v|, os[i]) && os[i] + 4 > |v| ==> AddAll(v, os[i..], delta) == Wild
    ensures Admits(|v|, os[i]) && os[i] + 4 <= |v| ==>
              AddAll(v, os[i..], delta) == AddAll(AddTo(v, os[i], delta), os[i + 1..], delta)
  {
    hide AddTo, Admits;
    assert os[i..][0] == os[i] && os[i..][1..] == os[i + 1..];
  }

  lemma NoOffset(v: seq<byte>, os: seq<nat>, delta: nat)
    ensures AddAll(v, os[|os|..], delta) == Done(v)
  {
  }

  /** One cell. */
  method UpdateReference(value: array<byte>, o: nat, delta: nat) returns (outcome: Outcome<()>)
    modifies value
    ensures outcome == if !Admits(value.Length, o) then BadOverlay else if o + 4 > value.Length then Wild else Done(())
    ensures outcome.Done? ==> o + 4 <= value.Length && value[..] == AddTo(old(value[..]), o, delta)
  {
    hide Admits, Cell, ToCell;
    if !Admits(value.Length, o) {
      return BadOverlay;
    }
    if o + 4 > value.Length {
      return Wild;
    }
    var cell := ToCell((Cell(value[..], o) + delta) % CELL);
    assert |cell| == 4;
    Store(value, o, cell);
    outcome := Done(());
  }

  /** The listed cells do not overlap. */
  predicate Apart(os: seq<nat>) {
    forall j, k :: 0 <= j < k < |os| ==> os[j] + 4 <= os[k] || os[k] + 4 <= os[j]
  }

  lemma AddToIs(v: seq<byte>, o: nat, delta: nat)
    requires o + 4 <= |v|
    ensures Cell(AddTo(v, o, delta), o) == (Cell(v, o) + delta) % CELL
    ensures forall b :: 0 <= b < |v| && !(o <= b < o + 4) ==> AddTo(v, o, delta)[b] == v[b]
  {
    var r := AddTo(v, o, delta);
    assert SameBytes(r, o, ToCell((Cell(v, o) + delta) % CELL));
    CellStands(r, o, (Cell(v, o) + delta) % CELL);
  }

  /** Bytes outside the listed cells do not change. */
  lemma {:induction false} AddAllElsewhere(v: seq<byte>, os: seq<nat>, delta: nat, b: nat)
    requires AddAll(v, os, delta).Done? && b < |v| && forall k :: 0 <= k < |os| ==> b < os[k] || os[k] + 4 <= b
    ensures AddAll(v, os, delta).value[b] == v[b]
    decreases |os|
  {
    if os != [] {
      AddToIs(v, os[0], delta);
      AddAllElsewhere(AddTo(v, os[0], delta), os[1..], delta, b);
    }
  }

  lemma AddAllCell(v: seq<byte>, os: seq<nat>, delta: nat, w: nat)
    requires AddAll(v, os, delta).Done? && w + 4 <= |v| && forall k :: 0 <= k < |os| ==> w + 4 <= os[k] || os[k] + 4 <= w
    ensures Cell(AddAll(v, os, delta).value, w) == Cell(v, w)
  {
    var r := AddAll(v, os, delta).value;
    forall b | w <= b < w + 4 ensures r[b] == v[b] {
      AddAllElsewhere(v, os, delta, b);
    }
    assert r[w..w + 4] == v[w..w + 4];
    CellFromSlice(r, w, v, w);
  }

  lemma OtherCell(v: seq<byte>, o: nat, delta: nat, w: nat)
    requires o + 4 <= |v| && w + 4 <= |v| && (w + 4 <= o || o + 4 <= w)
    ensures Cell(AddTo(v, o, delta), w) == Cell(v, w)
  {
    AddToIs(v, o, delta);
    assert AddTo(v, o, delta)[w..w + 4] == v[w..w + 4];
    CellFromSlice(AddTo(v, o, delta), w, v, w);
  }

  /** Each listed cell grows by `delta`, once. */
  lemma {:induction false} AddAllListed(v: seq<byte>, os: seq<nat>, delta: nat, k: nat)
    requires Apart(os) && AddAll(v, os, delta).Done? && k < |os|
    ensures os[k] + 4 <= |v| && Cell(AddAll(v, os, delta).value, os[k]) == (Cell(v, os[k]) + delta) % CELL
    decreases |os|
  {
    var t := AddTo(v, os[0], delta);
    if k == 0 {
      AddToIs(v, os[0], delta);
      AddAllCell(t, os[1..], delta, os[0]);
    } else {
      AddAllListed(t, os[1..], delta, k - 1);
      OtherCell(v, os[0], delta, os[k]);
    }
  }

  lemma {:induction false} AddAllAppend(v: seq<byte>, os: seq<nat>, us: seq<nat>, delta: nat)
    requires AddAll(v, os, delta).Done?
    ensures AddAll(v, os + us, delta) == AddAll(AddAll(v, os, delta).value, us, delta)
    decreases |os|
  {
    if os == [] {
      Seqs.Unit(us);
    } else {
      Seqs.DropAppend(os, us);
      AddAllAppend(AddTo(v, os[0], delta), os[1..], us, delta);
    }
  }

  /** Adding nothing changes nothing. */
  lemma {:induction false} AddNothing(v: seq<byte>, os: seq<nat>)
    requires AddAll(v, os, 0).Done?
    ensures AddAll(v, os, 0).value == v
    decreases |os|
  {
    if os != [] {
      CellBound(v, os[0]);
      var r := AddTo(v, os[0], 0);
      SameCell(v, os[0]);
      AddNothing(r, os[1..]);
    }
  }

  lemma SameCell(v: seq<byte>, o: nat)
    requires o + 4 <= |v|
    ensures AddTo(v, o, 0) == v
  {
    CellBound(v, o);
    BytesOfCell(v, o, 4);
    var c := Cell(v, o);
    hide Cell, ToCell, BigEndianBytes, BigEndian;
    assert (c + 0) % CELL == c;
    CutOut(v, o, o + 4);
  }

  lemma CutOut(v: seq<byte>, i: nat, j: nat)
    requires i <= j <= |v|
    ensures v[..i] + v[i..j] + v[j..] == v
  {
  }

  lemma {:induction false} BytesOfCell(v: seq<byte>, o: nat, n: nat)
    requires o + n <= |v|
    ensures BigEndianBytes(BigEndian(v, o, n), n) == v[o..o + n]
  {
    if n > 0 {
      BytesOfCell(v, o, n - 1);
      assert v[o..o + n] == v[o..o + (n - 1)] + [v[o + n - 1]];
    }
  }

  // ---- All references of a tree ----

  /** The loop over the properties `xs` of a node of fix-ups, on the properties `ps` of the node of the tree. */
  function UpdateProps(ps: seq<FdtTree.Prop>, xs: seq<FdtTree.Prop>, delta: nat): Outcome<seq<FdtTree.Prop>>
    decreases |xs|
  {
    if xs == [] then Done(ps)
    else
      var m := FirstProp(ps, xs[0].name);
      if |xs[0].value| % 4 != 0 || m == |ps| then BadOverlay
      else
        var v :- AddAll(ps[m].value, Offsets(xs[0].value), delta);
        UpdateProps(ps[m := FdtTree.Prop(ps[m].name, v)], xs[1..], delta)
  }

  /** `overlay_update_local_node_references` on the first node of `g`, with the first node of `x` for its fix-ups. */
  function UpdateNode(g: Forest, x: Forest, delta: nat): (r: Outcome<Forest>)
    requires g.Tree? && x.Tree?
    ensures r.Done? ==> r.value.Tree? && r.value.name == g.name && r.value.rest == g.rest
    decreases x, 0
  {
    var ps :- UpdateProps(g.props, x.props, delta);
    var kids :- UpdateKids(g.kids, x.kids, delta);
    Done(g.(props := ps, kids := kids))
  }

  /** ... its loop over subnodes. */
  function UpdateKids(kids: Forest, xs: Forest, delta: nat): Outcome<Forest>
    decreases xs, 1
  {
    if xs.Empty? then Done(kids)
    else match FirstChild(kids, xs.name)
      case None => BadOverlay
      case Some(m) =>
        SiblingLeads(kids, xs.name);
        var g :- UpdateNode(At(kids, Right(m)), xs, delta);
        UpdateKids(Put(kids, Right(m), g), xs.rest, delta)
  }

  // ---- Nodes by the numbers of the children on the way to them ----

  type Way = seq<nat>

  predicate Reaches(g: Forest, w: Way)
    decreases |w|
  {
    g.Tree? && (w == [] || (Leads(g.kids, Right(w[0])) && Reaches(At(g.kids, Right(w[0])), w[1..])))
  }

  function PropsAt(g: Forest, w: Way): seq<FdtTree.Prop>
    requires Reaches(g, w)
    decreases |w|
  {
    if w == [] then g.props else PropsAt(At(g.kids, Right(w[0])), w[1..])
  }

  /** The same with siblings: child `w[0]`, and on from there. */
  predicate KidReaches(kids: Forest, w: Way)
    requires w != []
  {
    Leads(kids, Right(w[0])) && Reaches(At(kids, Right(w[0])), w[1..])
  }

  function KidPropsAt(kids: Forest, w: Way): seq<FdtTree.Prop>
    requires w != [] && KidReaches(kids, w)
  {
    PropsAt(At(kids, Right(w[0])), w[1..])
  }

  // ---- What the fix-ups list ----

  /** The offsets that the fix-ups `xs` list for property number `k` of a node with the properties `ps`. */
  function PropOffsets(ps: seq<FdtTree.Prop>, xs: seq<FdtTree.Prop>, k: nat): seq<nat>
    decreases |xs|
  {
    if xs == [] then []
    else (if FirstProp(ps, xs[0].name) == k then Offsets(xs[0].value) else []) + PropOffsets(ps, xs[1..], k)
  }

  /** ... for property number `k` of the node at `w`, in the order in which they are applied. */
  function OffsetsIn(g: Forest, x: Forest, w: Way, k: nat): seq<nat>
    requires g.Tree? && x.Tree?
    decreases x, 0
  {
    if w == [] then PropOffsets(g.props, x.props, k) else KidOffsets(g.kids, x.kids, w, k)
  }

  function KidOffsets(kids: Forest, xs: Forest, w: Way, k: nat): seq<nat>
    requires w != []
    decreases xs, 2
  {
    if xs.Empty? then [] else KidOffsetsOne(kids, xs, w, k) + KidOffsets(kids, xs.rest, w, k)
  }

  function KidOffsetsOne(kids: Forest, xs: Forest, w: Way, k: nat): seq<nat>
    requires w != [] && xs.Tree?
    decreases xs, 1
  {
    match FirstChild(kids, xs.name)
    case None => []
    case Some(m) =>
      SiblingLeads(kids, xs.name);
      if m == w[0] then OffsetsIn(At(kids, Right(m)), xs, w[1..], k) else []
  }

  // ---- Trees of the same shape ----

  predicate AlikeProps(ps: seq<FdtTree.Prop>, qs: seq<FdtTree.Prop>) {
    |ps| == |qs| && forall k :: 0 <= k < |ps| ==> ps[k].name == qs[k].name && |ps[k].value| == |qs[k].value|
  }

  /** They differ in the bytes of values alone. */
  predicate Alike(f: Forest, g: Forest) {
    if f.Empty? then g.Empty?
    else g.Tree? && f.name == g.name && AlikeProps(f.props, g.props) && Alike(f.kids, g.kids) && Alike(f.rest, g.rest)
  }

  lemma {:induction false} AlikeFirstProp(ps: seq<FdtTree.Prop>, qs: seq<FdtTree.Prop>, name: Name)
    requires AlikeProps(ps, qs)
    ensures FirstProp(ps, name) == FirstProp(qs, name)
  {
    SameFirst(qs, ps, name);
  }

  lemma {:induction false} AlikeSelf(f: Forest)
    ensures Alike(f, f)
    decreases f
  {
    if f.Tree? {
      AlikeSelf(f.kids);
      AlikeSelf(f.rest);
    }
  }

  lemma {:induction false} AlikeTransitive(f: Forest, g: Forest, h: Forest)
    requires Alike(f, g) && Alike(g, h)
    ensures Alike(f, h)
    decreases f
  {
    if f.Tree? {
      AlikeTransitive(f.kids, g.kids, h.kids);
      AlikeTransitive(f.rest, g.rest, h.rest);
    }
  }

  lemma {:induction false} AlikeFirstChild(f: Forest, g: Forest, name: Name)
    requires Alike(f, g)
    ensures FirstChild(f, name) == FirstChild(g, name)
    decreases f
  {
    if f.Tree? {
      AlikeFirstChild(f.rest, g.rest, name);
    }
  }

  lemma {:induction false} AlikeAt(f: Forest, g: Forest, m: nat)
    requires Alike(f, g)
    ensures Leads(f, Right(m)) <==> Leads(g, Right(m))
    ensures Leads(f, Right(m)) ==> Alike(At(f, Right(m)), At(g, Right(m)))
    decreases m
  {
    if m > 0 && f.Tree? {
      assert Right(m)[1..] == Right(m - 1) && !Right(m)[0];
      AlikeAt(f.rest, g.rest, m - 1);
    }
  }

  lemma {:induction false} AlikeReaches(f: Forest, g: Forest, w: Way)
    requires Alike(f, g)
    ensures Reaches(f, w) <==> Reaches(g, w)
    ensures Reaches(f, w) ==> AlikeProps(PropsAt(f, w), PropsAt(g, w))
    decreases |w|
  {
    if w != [] && f.Tree? {
      AlikeAt(f.kids, g.kids, w[0]);
      if Leads(f.kids, Right(w[0])) {
        AlikeReaches(At(f.kids, Right(w[0])), At(g.kids, Right(w[0])), w[1..]);
      }
    }
  }

  lemma {:induction false} AlikePut(f: Forest, m: nat, g: Forest)
    requires Leads(f, Right(m)) && Alike(At(f, Right(m)), g)
    ensures Alike(f, Put(f, Right(m), g))
    decreases m
  {
    if m > 0 {
      assert Right(m)[1..] == Right(m - 1) && !Right(m)[0];
      AlikePut(f.rest, m - 1, g);
      AlikeSelf(f.kids);
    }
  }

  /** Nothing but the shape of the tree decides what is listed for a property. */
  lemma {:induction false} AlikeOffsets(g: Forest, h: Forest, x: Forest, w: Way, k: nat)
    requires g.Tree? && h.Tree? && x.Tree? && Alike(g, h)
    ensures OffsetsIn(g, x, w, k) == OffsetsIn(h, x, w, k)
    decreases x, 0
  {
    if w == [] {
      AlikePropOffsets(g.props, h.props, x.props, k);
    } else {
      AlikeKidOffsets(g.kids, h.kids, x.kids, w, k);
    }
  }

  lemma {:induction false} AlikeKidOffsets(kids: Forest, hs: Forest, xs: Forest, w: Way, k: nat)
    requires Alike(kids, hs) && w != []
    ensures KidOffsets(kids, xs, w, k) == KidOffsets(hs, xs, w, k)
    decreases xs, 1
  {
    if xs.Tree? {
      AlikeKidOffsets(kids, hs, xs.rest, w, k);
      AlikeFirstChild(kids, hs, xs.name);
      match FirstChild(kids, xs.name)
      case None =>
      case Some(m) =>
        SiblingLeads(kids, xs.name);
        SiblingLeads(hs, xs.name);
        AlikeAt(kids, hs, m);
        if m == w[0] {
          AlikeOffsets(At(kids, Right(m)), At(hs, Right(m)), xs, w[1..], k);
        }
    }
  }

  lemma {:induction false} AlikePropOffsets(ps: seq<FdtTree.Prop>, qs: seq<FdtTree.Prop>, xs: seq<FdtTree.Prop>, k: nat)
    requires AlikeProps(ps, qs)
    ensures PropOffsets(ps, xs, k) == PropOffsets(qs, xs, k)
    decreases |xs|
  {
    if xs != [] {
      AlikeFirstProp(ps, qs, xs[0].name);
      AlikePropOffsets(ps, qs, xs[1..], k);
    }
  }

  // ---- The update adds to what is listed and to nothing else ----

  lemma {:induction false} PropsUpdated(ps: seq<FdtTree.Prop>, xs: seq<FdtTree.Prop>, delta: nat, k: nat)
    requires UpdateProps(ps, xs, delta).Done? && k < |ps|
    ensures AlikeProps(ps, UpdateProps(ps, xs, delta).value)
    ensures AddAll(ps[k].value, PropOffsets(ps, xs, k), delta) == Done(UpdateProps(ps, xs, delta).value[k].value)
    decreases |xs|
  {
    if xs != [] {
      var m, os := FirstProp(ps, xs[0].name), Offsets(xs[0].value);
      var qs := ps[m := FdtTree.Prop(ps[m].name, AddAll(ps[m].value, os, delta).value)];
      PropsUpdated(qs, xs[1..], delta, k);
      AlikePropOffsets(ps, qs, xs[1..], k);
      if m == k {
        AddAllAppend(ps[k].value, os, PropOffsets(ps, xs[1..], k), delta);
      } else {
        Seqs.Unit(PropOffsets(ps, xs[1..], k));
      }
    }
  }

  lemma {:induction false} PropsAlike(ps: seq<FdtTree.Prop>, xs: seq<FdtTree.Prop>, delta: nat)
    requires UpdateProps(ps, xs, delta).Done?
    ensures AlikeProps(ps, UpdateProps(ps, xs, delta).value)
    decreases |xs|
  {
    if xs != [] {
      var m := FirstProp(ps, xs[0].name);
      PropsAlike(ps[m := FdtTree.Prop(ps[m].name, AddAll(ps[m].value, Offsets(xs[0].value), delta).value)], xs[1..], delta);
    }
  }

  /** The node at `w` after a sibling number `m` was exchanged for one of the same name and the same later siblings. */
  lemma {:induction false} PutSibling(kids: Forest, m: nat, g: Forest, i: nat)
    requires Leads(kids, Right(m)) && g.Tree? && g.rest == At(kids, Right(m)).rest && Leads(kids, Right(i))
    ensures Leads(Put(kids, Right(m), g), Right(i))
    ensures var h := At(Put(kids, Right(m), g), Right(i));
            if i == m then h == g
            else h.props == At(kids, Right(i)).props && h.kids == At(kids, Right(i)).kids
    decreases m
  {
    if m > 0 {
      assert Right(m)[1..] == Right(m - 1) && !Right(m)[0];
    }
    if i > 0 {
      assert Right(i)[1..] == Right(i - 1) && !Right(i)[0];
    }
    if m > 0 && i > 0 {
      PutSibling(kids.rest, m - 1, g, i - 1);
    }
  }

  lemma HeadsAgree(g: Forest, h: Forest, w: Way)
    requires g.Tree? && h.Tree? && g.props == h.props && g.kids == h.kids && Reaches(g, w)
    ensures Reaches(h, w) && PropsAt(h, w) == PropsAt(g, w)
  {
  }

  /** The offsets listed for a property are added to, once for each time that they are listed, and nothing else
      changes. */
  lemma {:induction false} NodeUpdated(g: Forest, x: Forest, delta: nat, w: Way, k: nat)
    requires g.Tree? && x.Tree? && UpdateNode(g, x, delta).Done? && Reaches(g, w) && k < |PropsAt(g, w)|
    ensures var r := UpdateNode(g, x, delta).value;
            && Reaches(r, w) && k < |PropsAt(r, w)|
            && AddAll(PropsAt(g, w)[k].value, OffsetsIn(g, x, w, k), delta) == Done(PropsAt(r, w)[k].value)
    decreases x, 0
  {
    PropsAlike(g.props, x.props, delta);
    if w == [] {
      PropsUpdated(g.props, x.props, delta, k);
    } else {
      KidsUpdated(g.kids, x.kids, delta, w, k);
    }
  }

  lemma {:induction false} KidsUpdated(kids: Forest, xs: Forest, delta: nat, w: Way, k: nat)
    requires UpdateKids(kids, xs, delta).Done? && w != [] && KidReaches(kids, w) && k < |KidPropsAt(kids, w)|
    ensures var r := UpdateKids(kids, xs, delta).value;
            && KidReaches(r, w) && k < |KidPropsAt(r, w)|
            && AddAll(KidPropsAt(kids, w)[k].value, KidOffsets(kids, xs, w, k), delta) == Done(KidPropsAt(r, w)[k].value)
    decreases xs, 2
  {
    if xs.Tree? {
      var m := FirstChild(kids, xs.name).value;
      SiblingLeads(kids, xs.name);
      var g := At(kids, Right(m));
      var h := UpdateNode(g, xs, delta).value;
      var next := Put(kids, Right(m), h);
      OneKidUpdated(kids, xs, delta, w, k, m);
      KidsUpdated(next, xs.rest, delta, w, k);
      NodeAlike(g, xs, delta);
      AlikePut(kids, m, h);
      AlikeKidOffsets(kids, next, xs.rest, w, k);
      AddAllAppend(KidPropsAt(kids, w)[k].value, KidOffsetsOne(kids, xs, w, k), KidOffsets(kids, xs.rest, w, k), delta);
    }
  }

  lemma {:induction false} OneKidUpdated(kids: Forest, xs: Forest, delta: nat, w: Way, k: nat, m: nat)
    requires xs.Tree? && FirstChild(kids, xs.name) == Some(m) && Leads(kids, Right(m))
    requires UpdateNode(At(kids, Right(m)), xs, delta).Done? && w != [] && KidReaches(kids, w) && k < |KidPropsAt(kids, w)|
    ensures var next := Put(kids, Right(m), UpdateNode(At(kids, Right(m)), xs, delta).value);
            && KidReaches(next, w) && k < |KidPropsAt(next, w)|
            && AddAll(KidPropsAt(kids, w)[k].value, KidOffsetsOne(kids, xs, w, k), delta) == Done(KidPropsAt(next, w)[k].value)
    decreases xs, 1
  {
    var g := At(kids, Right(m));
    var h := UpdateNode(g, xs, delta).value;
    PutSibling(kids, m, h, w[0]);
    if m == w[0] {
      NodeUpdated(g, xs, delta, w[1..], k);
    } else {
      HeadsAgree(At(kids, Right(w[0])), At(Put(kids, Right(m), h), Right(w[0])), w[1..]);
    }
  }

  /** The update keeps the shape of the tree. */
  lemma {:induction false} NodeAlike(g: Forest, x: Forest, delta: nat)
    requires g.Tree? && x.Tree? && UpdateNode(g, x, delta).Done?
    ensures Alike(g, UpdateNode(g, x, delta).value)
    decreases x, 0
  {
    PropsAlike(g.props, x.props, delta);
    KidsAlike(g.kids, x.kids, delta);
    AlikeSelf(g.rest);
  }

  lemma {:induction false} KidsAlike(kids: Forest, xs: Forest, delta: nat)
    requires UpdateKids(kids, xs, delta).Done?
    ensures Alike(kids, UpdateKids(kids, xs, delta).value)
    decreases xs, 1
  {
    if xs.Empty? {
      AlikeSelf(kids);
    } else {
      var m := FirstChild(kids, xs.name).value;
      SiblingLeads(kids, xs.name);
      var h := UpdateNode(At(kids, Right(m)), xs, delta).value;
      NodeAlike(At(kids, Right(m)), xs, delta);
      AlikePut(kids, m, h);
      KidsAlike(Put(kids, Right(m), h), xs.rest, delta);
      AlikeTransitive(kids, Put(kids, Right(m), h), UpdateKids(kids, xs, delta).value);
    }
  }

  // ---- Behind the move of the phandles ----

  lemma {:induction false} AdjustSuffix(f: Forest, delta: nat, m: nat)
    requires Adjust(f, delta).Done? && Leads(f, Right(m))
    ensures Leads(Adjust(f, delta).value, Right(m)) && Adjust(At(f, Right(m)), delta) == Done(At(Adjust(f, delta).value, Right(m)))
    decreases m
  {
    if m > 0 {
      assert Right(m)[1..] == Right(m - 1) && !Right(m)[0];
      AdjustSuffix(f.rest, delta, m - 1);
    }
  }

  /** At every node the properties are those that `AdjustProps` makes. */
  lemma {:induction false} AdjustedAt(f: Forest, delta: nat, w: Way)
    requires Adjust(f, delta).Done? && Reaches(f, w)
    ensures Reaches(Adjust(f, delta).value, w)
    ensures AdjustProps(PropsAt(f, w), delta) == Done(PropsAt(Adjust(f, delta).value, w))
    decreases |w|
  {
    if w != [] {
      AdjustSuffix(f.kids, delta, w[0]);
      AdjustedAt(At(f.kids, Right(w[0])), delta, w[1..]);
    }
  }

  lemma AddOffsetAlike(ps: seq<FdtTree.Prop>, name: Name, delta: nat)
    requires AddOffset(ps, name, delta).Done?
    ensures AlikeProps(ps, AddOffset(ps, name, delta).value)
  {
  }

  lemma AdjustPropsAlike(ps: seq<FdtTree.Prop>, delta: nat)
    requires AdjustProps(ps, delta).Done?
    ensures AlikeProps(ps, AdjustProps(ps, delta).value)
  {
    AddOffsetAlike(ps, PHANDLE, delta);
    AddOffsetAlike(AddOffset(ps, PHANDLE, delta).value, LINUX_PHANDLE, delta);
  }

  lemma {:induction false} AdjustAlike(f: Forest, delta: nat)
    requires Adjust(f, delta).Done?
    ensures Alike(f, Adjust(f, delta).value)
    decreases f
  {
    if f.Tree? {
      AdjustPropsAlike(f.props, delta);
      AdjustAlike(f.kids, delta);
      AdjustAlike(f.rest, delta);
    }
  }

  /** Property number `k` is the one that the move of the phandles changes. */
  predicate IsPhandle(ps: seq<FdtTree.Prop>, k: nat) {
    k < |ps| && (FirstProp(ps, PHANDLE) == k || FirstProp(ps, LINUX_PHANDLE) == k)
  }

  /** What the move of the phandles does to each property of a node. */
  lemma AdjustPropsAt(ps: seq<FdtTree.Prop>, delta: nat, k: nat)
    requires AdjustProps(ps, delta).Done? && k < |ps|
    ensures var qs := AdjustProps(ps, delta).value;
            && |qs| == |ps| && qs[k].name == ps[k].name
            && (if IsPhandle(ps, k) then
                  |ps[k].value| == 4 == |qs[k].value| && Cell(qs[k].value, 0) == Cell(ps[k].value, 0) + delta < CELL - 1
                else qs[k] == ps[k])
  {
    var qs := AddOffset(ps, PHANDLE, delta).value;
    assert |PHANDLE| != |LINUX_PHANDLE|;
    AddOffsetAlike(ps, PHANDLE, delta);
    AlikeFirstProp(ps, qs, LINUX_PHANDLE);
    AddOffsetAt(ps, PHANDLE, delta, k);
    AddOffsetAt(qs, LINUX_PHANDLE, delta, k);
  }

  lemma AddOffsetAt(ps: seq<FdtTree.Prop>, name: Name, delta: nat, k: nat)
    requires AddOffset(ps, name, delta).Done? && k < |ps|
    ensures var qs := AddOffset(ps, name, delta).value;
            && |qs| == |ps| && qs[k].name == ps[k].name
            && (if FirstProp(ps, name) == k then
                  |ps[k].value| == 4 == |qs[k].value| && Cell(qs[k].value, 0) == Cell(ps[k].value, 0) + delta < CELL - 1
                else qs[k] == ps[k])
  {
    if FirstProp(ps, name) == k {
      CellRoundTrip(Cell(ps[k].value, 0) + delta);
    }
  }

  // ---- A phandle cannot be listed ----

  /** "phandle" and "linux,phandle" have moved: they have four bytes and at least `delta` in them. */
  predicate Moved(ps: seq<FdtTree.Prop>, delta: nat) {
    forall k :: 0 <= k < |ps| && IsPhandle(ps, k) ==> |ps[k].value| == 4 && delta <= Cell(ps[k].value, 0) < CELL - 1
  }

  predicate AllMoved(f: Forest, delta: nat) {
    f.Tree? ==> Moved(f.props, delta) && AllMoved(f.kids, delta) && AllMoved(f.rest, delta)
  }

  lemma {:induction false} AdjustMoves(f: Forest, delta: nat)
    requires Adjust(f, delta).Done?
    ensures AllMoved(Adjust(f, delta).value, delta)
    decreases f
  {
    if f.Tree? {
      var qs := AdjustProps(f.props, delta).value;
      AdjustPropsAlike(f.props, delta);
      AlikeFirstProp(f.props, qs, PHANDLE);
      AlikeFirstProp(f.props, qs, LINUX_PHANDLE);
      forall k | 0 <= k < |qs| && IsPhandle(qs, k)
        ensures |qs[k].value| == 4 && delta <= Cell(qs[k].value, 0) < CELL - 1
      {
        AdjustPropsAt(f.props, delta, k);
      }
      AdjustMoves(f.kids, delta);
      AdjustMoves(f.rest, delta);
    }
  }

  /** The phandle properties of a node have four bytes. */
  predicate FourBytes(ps: seq<FdtTree.Prop>) {
    forall k :: 0 <= k < |ps| && IsPhandle(ps, k) ==> |ps[k].value| == 4
  }

  predicate HasNoPhandle(xs: seq<FdtTree.Prop>) {
    FirstProp(xs, PHANDLE) == |xs| && FirstProp(xs, LINUX_PHANDLE) == |xs|
  }

  lemma PhandleValueRefused(ps: seq<FdtTree.Prop>, xs: seq<FdtTree.Prop>, delta: nat)
    requires delta > 0 && Moved(xs, delta) && FourBytes(ps) && xs != [] && FirstProp(ps, xs[0].name) < |ps|
    requires xs[0].name == PHANDLE || xs[0].name == LINUX_PHANDLE
    ensures !AddAll(ps[FirstProp(ps, xs[0].name)].value, Offsets(xs[0].value), delta).Done?
  {
    assert IsPhandle(xs, 0);
    assert Offsets(xs[0].value)[0] == Cell(xs[0].value, 0) >= delta;
    assert IsPhandle(ps, FirstProp(ps, xs[0].name));
  }

  /** A fix-up called like a phandle has moved itself, and lists no offset that lies in a phandle any more. */
  lemma {:induction false} PhandleRefused(ps: seq<FdtTree.Prop>, xs: seq<FdtTree.Prop>, delta: nat)
    requires delta > 0 && Moved(xs, delta) && FourBytes(ps) && UpdateProps(ps, xs, delta).Done?
    ensures HasNoPhandle(xs)
    decreases |xs|
  {
    if xs != [] {
      var m, v := FirstProp(ps, xs[0].name), xs[0].value;
      var ys := xs[1..];
      if xs[0].name == PHANDLE || xs[0].name == LINUX_PHANDLE {
        PhandleValueRefused(ps, xs, delta);
      }
      var qs := ps[m := FdtTree.Prop(ps[m].name, AddAll(ps[m].value, Offsets(v), delta).value)];
      AlikeFirstProp(ps, qs, PHANDLE);
      AlikeFirstProp(ps, qs, LINUX_PHANDLE);
      forall k | 0 <= k < |qs| && IsPhandle(qs, k) ensures |qs[k].value| == 4 {
        assert IsPhandle(ps, k);
      }
      forall k | 0 <= k < |ys| && IsPhandle(ys, k) ensures |ys[k].value| == 4 && delta <= Cell(ys[k].value, 0) < CELL - 1 {
        assert IsPhandle(xs, k + 1);
      }
      PhandleRefused(qs, ys, delta);
    }
  }

  predicate AllFour(f: Forest) {
    f.Tree? ==> FourBytes(f.props) && AllFour(f.kids) && AllFour(f.rest)
  }

  /** No node of fix-ups has a property called like a phandle. */
  predicate NonePhandle(xs: Forest) {
    xs.Tree? ==> HasNoPhandle(xs.props) && NonePhandle(xs.kids) && NonePhandle(xs.rest)
  }

  lemma {:induction false} MovedFour(f: Forest, delta: nat)
    requires AllMoved(f, delta)
    ensures AllFour(f)
    decreases f
  {
    if f.Tree? {
      MovedFour(f.kids, delta);
      MovedFour(f.rest, delta);
    }
  }

  lemma {:induction false} AlikeFour(f: Forest, g: Forest)
    requires Alike(f, g) && AllFour(f)
    ensures AllFour(g)
    decreases f
  {
    if f.Tree? {
      AlikeFirstProp(f.props, g.props, PHANDLE);
      AlikeFirstProp(f.props, g.props, LINUX_PHANDLE);
      forall k | 0 <= k < |g.props| && IsPhandle(g.props, k) ensures |g.props[k].value| == 4 {
        assert IsPhandle(f.props, k);
      }
      AlikeFour(f.kids, g.kids);
      AlikeFour(f.rest, g.rest);
    }
  }

  lemma {:induction false} FourAt(f: Forest, m: nat)
    requires Leads(f, Right(m))
    ensures AllFour(f) ==> AllFour(At(f, Right(m)))
    ensures forall delta: nat :: AllMoved(f, delta) ==> AllMoved(At(f, Right(m)), delta)
    decreases m
  {
    if m > 0 {
      assert Right(m)[1..] == Right(m - 1) && !Right(m)[0];
      FourAt(f.rest, m - 1);
    }
  }

  lemma {:induction false} PhandlesRefused(g: Forest, x: Forest, delta: nat)
    requires g.Tree? && x.Tree? && delta > 0 && UpdateNode(g, x, delta).Done?
    requires AllFour(g) && Moved(x.props, delta) && AllMoved(x.kids, delta)
    ensures HasNoPhandle(x.props) && NonePhandle(x.kids)
    decreases x, 0
  {
    PhandleRefused(g.props, x.props, delta);
    KidPhandlesRefused(g.kids, x.kids, delta);
  }

  lemma {:induction false} KidPhandlesRefused(kids: Forest, xs: Forest, delta: nat)
    requires delta > 0 && UpdateKids(kids, xs, delta).Done? && AllFour(kids) && AllMoved(xs, delta)
    ensures NonePhandle(xs)
    decreases xs, 1
  {
    if xs.Tree? {
      var m := FirstChild(kids, xs.name).value;
      SiblingLeads(kids, xs.name);
      var g := At(kids, Right(m));
      var h := UpdateNode(g, xs, delta).value;
      FourAt(kids, m);
      PhandlesRefused(g, xs, delta);
      NodeAlike(g, xs, delta);
      AlikePut(kids, m, h);
      AlikeFour(kids, Put(kids, Right(m), h));
      KidPhandlesRefused(Put(kids, Right(m), h), xs.rest, delta);
    }
  }

  /** So nothing is listed for a phandle. */
  lemma {:induction false} PhandleUnlisted(g: Forest, x: Forest, w: Way, k: nat)
    requires g.Tree? && x.Tree? && HasNoPhandle(x.props) && NonePhandle(x.kids)
    requires Reaches(g, w) && IsPhandle(PropsAt(g, w), k)
    ensures OffsetsIn(g, x, w, k) == []
    decreases x, 0
  {
    if w == [] {
      PhandlePropUnlisted(g.props, x.props, k);
    } else {
      PhandleKidUnlisted(g.kids, x.kids, w, k);
    }
  }

  lemma {:induction false} PhandleKidUnlisted(kids: Forest, xs: Forest, w: Way, k: nat)
    requires NonePhandle(xs) && w != [] && KidReaches(kids, w) && IsPhandle(KidPropsAt(kids, w), k)
    ensures KidOffsets(kids, xs, w, k) == []
    decreases xs, 1
  {
    if xs.Tree? {
      PhandleKidUnlisted(kids, xs.rest, w, k);
      match FirstChild(kids, xs.name)
      case None =>
      case Some(m) =>
        if m == w[0] {
          PhandleUnlisted(At(kids, Right(m)), xs, w[1..], k);
        }
    }
  }

  lemma {:induction false} PhandlePropUnlisted(ps: seq<FdtTree.Prop>, xs: seq<FdtTree.Prop>, k: nat)
    requires HasNoPhandle(xs) && IsPhandle(ps, k)
    ensures PropOffsets(ps, xs, k) == []
    decreases |xs|
  {
    if xs != [] {
      PhandlePropUnlisted(ps, xs[1..], k);
    }
  }

  // ---- The relocation of an overlay ----

  /** "__local_fixups__". */
  const LOCAL_FIXUPS: Name := [0x5f, 0x5f, 0x6c, 0x6f, 0x63, 0x61, 0x6c, 0x5f, 0x66, 0x69, 0x78, 0x75, 0x70, 0x73, 0x5f, 0x5f]

  /** `overlay_adjust_local_phandles`, then `overlay_update_local_references`. */
  function Relocate(o: Forest, delta: nat): Outcome<Forest>
    requires o.Tree?
  {
    var a :- Adjust(o, delta);
    match FirstChild(a.kids, LOCAL_FIXUPS)
    case None => Done(a)
    case Some(m) =>
      SiblingLeads(a.kids, LOCAL_FIXUPS);
      UpdateNode(a, At(a.kids, Right(m)), delta)
  }

  /** What the overlay lists for property number `k` of the node at `w`. */
  function Listed(o: Forest, w: Way, k: nat): seq<nat>
    requires o.Tree?
  {
    match FirstChild(o.kids, LOCAL_FIXUPS)
    case None => []
    case Some(m) =>
      SiblingLeads(o.kids, LOCAL_FIXUPS);
      OffsetsIn(o, At(o.kids, Right(m)), w, k)
  }

  lemma {:induction false} PlainStays(f: Forest, delta: nat)
    requires Adjust(f, delta).Done? && NonePhandle(Adjust(f, delta).value)
    ensures Adjust(f, delta).value == f
    decreases f
  {
    if f.Tree? {
      PlainPropsStay(f.props, delta);
      PlainStays(f.kids, delta);
      PlainStays(f.rest, delta);
    }
  }

  lemma PlainPropsStay(ps: seq<FdtTree.Prop>, delta: nat)
    requires AdjustProps(ps, delta).Done? && HasNoPhandle(AdjustProps(ps, delta).value)
    ensures AdjustProps(ps, delta).value == ps
  {
    var qs := AdjustProps(ps, delta).value;
    AdjustPropsAlike(ps, delta);
    AlikeFirstProp(ps, qs, PHANDLE);
    AlikeFirstProp(ps, qs, LINUX_PHANDLE);
  }

  lemma {:induction false} ZeroStays(f: Forest)
    requires Adjust(f, 0).Done?
    ensures Adjust(f, 0).value == f
    decreases f
  {
    if f.Tree? {
      ZeroOffsetStays(f.props, PHANDLE);
      ZeroOffsetStays(f.props, LINUX_PHANDLE);
      ZeroStays(f.kids);
      ZeroStays(f.rest);
    }
  }

  lemma ZeroOffsetStays(ps: seq<FdtTree.Prop>, name: Name)
    requires AddOffset(ps, name, 0).Done?
    ensures AddOffset(ps, name, 0).value == ps
  {
    var m := FirstProp(ps, name);
    if m < |ps| {
      BytesOfCell(ps[m].value, 0, 4);
      assert ps[m].value[0..4] == ps[m].value;
    }
  }

  /** The fix-ups are read as the overlay has them: the move of the phandles has not changed what they list. */
  lemma FixupsAsGiven(o: Forest, delta: nat, w: Way, k: nat)
    requires o.Tree? && Relocate(o, delta).Done?
    ensures Listed(Adjust(o, delta).value, w, k) == Listed(o, w, k)
    ensures delta > 0 && Reaches(o, w) && IsPhandle(PropsAt(o, w), k) ==> Listed(o, w, k) == []
  {
    var a := Adjust(o, delta).value;
    AdjustAlike(o, delta);
    AlikeFirstChild(o.kids, a.kids, LOCAL_FIXUPS);
    match FirstChild(o.kids, LOCAL_FIXUPS)
    case None =>
    case Some(m) =>
      SiblingLeads(o.kids, LOCAL_FIXUPS);
      SiblingLeads(a.kids, LOCAL_FIXUPS);
      AdjustSuffix(o.kids, delta, m);
      AlikeOffsets(o, a, At(o.kids, Right(m)), w, k);
      if delta == 0 {
        ZeroStays(o);
      } else {
        FixupsUnmoved(o, delta, m);
        SameHeadOffsets(a, At(a.kids, Right(m)), At(o.kids, Right(m)), w, k);
        if Reaches(o, w) && IsPhandle(PropsAt(o, w), k) {
          PhandleUnlisted(o, At(o.kids, Right(m)), w, k);
        }
      }
  }

  lemma FixupsUnmoved(o: Forest, delta: nat, m: nat)
    requires o.Tree? && delta > 0 && Relocate(o, delta).Done? && FirstChild(Adjust(o, delta).value.kids, LOCAL_FIXUPS) == Some(m)
    ensures Leads(o.kids, Right(m)) && Leads(Adjust(o, delta).value.kids, Right(m))
    ensures var x, y := At(o.kids, Right(m)), At(Adjust(o, delta).value.kids, Right(m));
            x.props == y.props && x.kids == y.kids && HasNoPhandle(x.props) && NonePhandle(x.kids)
  {
    hide *;
    AdjustFirst(o, delta);
    var a := Adjust(o, delta).value;
    AdjustAlike(o, delta);
    AlikeKids(o, a);
    AlikeFirstChild(o.kids, a.kids, LOCAL_FIXUPS);
    SiblingLeads(o.kids, LOCAL_FIXUPS);
    SiblingLeads(a.kids, LOCAL_FIXUPS);
    AdjustSuffix(o.kids, delta, m);
    UpdateDone(o, delta, m);
    FixupsPlain(a, At(a.kids, Right(m)), m, delta, o);
    PlainHead(At(o.kids, Right(m)), delta);
  }

  lemma AdjustFirst(o: Forest, delta: nat)
    requires o.Tree? && Relocate(o, delta).Done?
    ensures Adjust(o, delta).Done? && Adjust(o, delta).value.Tree? && Adjust(o.kids, delta) == Done(Adjust(o, delta).value.kids)
  {
  }

  lemma PlainHead(x: Forest, delta: nat)
    requires x.Tree? && Adjust(x, delta).Done?
    requires HasNoPhandle(Adjust(x, delta).value.props) && NonePhandle(Adjust(x, delta).value.kids)
    ensures x.props == Adjust(x, delta).value.props && x.kids == Adjust(x, delta).value.kids
  {
    hide HasNoPhandle, NonePhandle, AdjustProps;
    PlainPropsStay(x.props, delta);
    PlainStays(x.kids, delta);
  }

  lemma AlikeKids(f: Forest, g: Forest)
    requires Alike(f, g) && f.Tree?
    ensures g.Tree? && Alike(f.kids, g.kids)
  {
  }

  lemma UpdateDone(o: Forest, delta: nat, m: nat)
    requires o.Tree? && Relocate(o, delta).Done? && FirstChild(Adjust(o, delta).value.kids, LOCAL_FIXUPS) == Some(m)
    requires Leads(Adjust(o, delta).value.kids, Right(m))
    ensures UpdateNode(Adjust(o, delta).value, At(Adjust(o, delta).value.kids, Right(m)), delta).Done?
  {
  }

  lemma FixupsPlain(a: Forest, y: Forest, m: nat, delta: nat, o: Forest)
    requires delta > 0 && Adjust(o, delta) == Done(a) && a.Tree? && Leads(a.kids, Right(m)) && y == At(a.kids, Right(m))
    requires UpdateNode(a, y, delta).Done?
    ensures HasNoPhandle(y.props) && NonePhandle(y.kids)
  {
    hide UpdateNode, Adjust, At, Leads, Moved;
    AdjustMoves(o, delta);
    MovedFour(a, delta);
    FourAt(a.kids, m);
    PhandlesRefused(a, y, delta);
  }

  lemma SameHeadOffsets(g: Forest, x: Forest, y: Forest, w: Way, k: nat)
    requires g.Tree? && x.Tree? && y.Tree? && x.props == y.props && x.kids == y.kids
    ensures OffsetsIn(g, x, w, k) == OffsetsIn(g, y, w, k)
  {
  }

  /** The whole relocation: every node keeps its place and every property its name and its length; a phandle grows by
      `delta` once, and unless `delta` is 0 none is listed; every other value is what adding to the listed offsets
      makes of it. */
  lemma Relocated(o: Forest, delta: nat, w: Way, k: nat)
    requires o.Tree? && Relocate(o, delta).Done? && Reaches(o, w) && k < |PropsAt(o, w)|
    ensures Alike(o, Relocate(o, delta).value) && Reaches(Relocate(o, delta).value, w)
    ensures var ps, qs := PropsAt(o, w), PropsAt(Relocate(o, delta).value, w);
            && AlikeProps(ps, qs)
            && (IsPhandle(ps, k) ==>
                 |qs[k].value| == 4 && Cell(qs[k].value, 0) == Cell(ps[k].value, 0) + delta < CELL - 1
                 && (delta > 0 ==> Listed(o, w, k) == []))
            && (!IsPhandle(ps, k) || delta == 0 ==> AddAll(ps[k].value, Listed(o, w, k), delta) == Done(qs[k].value))
  {
    var a, r := Adjust(o, delta).value, Relocate(o, delta).value;
    AdjustAlike(o, delta);
    AlikeReaches(o, a, w);
    AdjustedAt(o, delta, w);
    AdjustPropsAt(PropsAt(o, w), delta, k);
    FixupsAsGiven(o, delta, w, k);
    if delta == 0 {
      ZeroStays(o);
    }
    match FirstChild(a.kids, LOCAL_FIXUPS)
    case None =>
    case Some(m) =>
      SiblingLeads(a.kids, LOCAL_FIXUPS);
      var x := At(a.kids, Right(m));
      NodeAlike(a, x, delta);
      AlikeTransitive(o, a, r);
      AlikeReaches(o, r, w);
      NodeUpdated(a, x, delta, w, k);
      if delta == 0 {
        AddNothing(PropsAt(a, w)[k].value, Listed(o, w, k));
      }
  }

  /** Every phandle of the overlay moves by `delta`, whatever the fix-ups list. */
  lemma PhandlesMove(o: Forest, delta: nat, w: Way)
    requires o.Tree? && Relocate(o, delta).Done? && Reaches(o, w)
    ensures Reaches(Relocate(o, delta).value, w)
    ensures Phandle(PropsAt(Relocate(o, delta).value, w)) == Shifted(Phandle(PropsAt(o, w)), delta)
    ensures Phandle(PropsAt(o, w)).Some? ==> Phandle(PropsAt(o, w)).value + delta < CELL - 1
  {
    var r := Relocate(o, delta).value;
    SameNodes(o, delta, w);
    CellMoves(o, delta, w, PHANDLE);
    CellMoves(o, delta, w, LINUX_PHANDLE);
  }

  lemma SameNodes(o: Forest, delta: nat, w: Way)
    requires o.Tree? && Relocate(o, delta).Done? && Reaches(o, w)
    ensures Reaches(Relocate(o, delta).value, w) && AlikeProps(PropsAt(o, w), PropsAt(Relocate(o, delta).value, w))
  {
    var a, r := Adjust(o, delta).value, Relocate(o, delta).value;
    AdjustAlike(o, delta);
    AlikeReaches(o, a, w);
    match FirstChild(a.kids, LOCAL_FIXUPS)
    case None =>
    case Some(m) =>
      SiblingLeads(a.kids, LOCAL_FIXUPS);
      NodeAlike(a, At(a.kids, Right(m)), delta);
      AlikeTransitive(o, a, r);
      AlikeReaches(o, r, w);
  }

  lemma CellMoves(o: Forest, delta: nat, w: Way, name: Name)
    requires o.Tree? && Relocate(o, delta).Done? && Reaches(o, w) && (name == PHANDLE || name == LINUX_PHANDLE)
    ensures Reaches(Relocate(o, delta).value, w)
    ensures CellValue(PropsAt(Relocate(o, delta).value, w), name) == Shifted(CellValue(PropsAt(o, w), name), delta)
    ensures CellValue(PropsAt(o, w), name).Some? ==> CellValue(PropsAt(o, w), name).value + delta < CELL - 1
  {
    hide Relocate, Reaches, PropsAt, Listed, AlikeProps, Alike, Cell, AddAll;
    SameNodes(o, delta, w);
    var ps, qs := PropsAt(o, w), PropsAt(Relocate(o, delta).value, w);
    AlikeFirstProp(ps, qs, name);
    SameLength(ps, qs);
    if FirstProp(ps, name) < |ps| {
      Relocated(o, delta, w, FirstProp(ps, name));
    }
  }

  lemma SameLength(ps: seq<FdtTree.Prop>, qs: seq<FdtTree.Prop>)
    requires AlikeProps(ps, qs)
    ensures |ps| == |qs| && forall k :: 0 <= k < |ps| ==> |ps[k].value| == |qs[k].value|
  {
  }

  /** The reference that an overlay lists at `offset` of property number `k` of the node at `w` points at the node
      at `u`. */
  predicate PointsAt(o: Forest, w: Way, k: nat, offset: nat, u: Way)
    requires Reaches(o, w) && k < |PropsAt(o, w)| && offset + 4 <= |PropsAt(o, w)[k].value| && Reaches(o, u)
  {
    Phandle(PropsAt(o, u)) == Some(Cell(PropsAt(o, w)[k].value, offset))
  }

  /** Every listed reference points, after the relocation, at exactly the nodes that it pointed at before. */
  lemma ReferencesKept(o: Forest, delta: nat, w: Way, k: nat, j: nat, u: Way)
    requires o.Tree? && Relocate(o, delta).Done? && Reaches(o, w) && k < |PropsAt(o, w)| && Reaches(o, u)
    requires Apart(Listed(o, w, k)) && j < |Listed(o, w, k)|
    ensures var r, offset := Relocate(o, delta).value, Listed(o, w, k)[j];
            && Reaches(r, w) && Reaches(r, u) && k < |PropsAt(r, w)|
            && offset + 4 <= |PropsAt(o, w)[k].value| == |PropsAt(r, w)[k].value|
            && (PointsAt(r, w, k, offset, u) <==> PointsAt(o, w, k, offset, u))
  {
    hide Relocate, Reaches, PropsAt, Listed, Alike, Cell, AddAll, Apart, IsPhandle, Phandle, Shifted;
    Relocated(o, delta, w, k);
    PhandlesMove(o, delta, u);
    var v, os := PropsAt(o, w)[k].value, Listed(o, w, k);
    AddAllListed(v, os, delta, j);
    CellBound(v, os[j]);
    SameShift(Cell(v, os[j]), Phandle(PropsAt(o, u)), delta);
  }

  lemma SameShift(a: nat, x: Option<nat>, delta: nat)
    requires a < CELL && (x.Some? ==> x.value + delta < CELL - 1)
    ensures Shifted(x, delta) == Some((a + delta) % CELL) <==> x == Some(a)
  {
  }

  /** A byte of no phandle and of no listed cell stays. */
  lemma UnlistedKept(o: Forest, delta: nat, w: Way, k: nat, b: nat)
    requires o.Tree? && Relocate(o, delta).Done? && Reaches(o, w) && k < |PropsAt(o, w)| && b < |PropsAt(o, w)[k].value|
    requires !IsPhandle(PropsAt(o, w), k)
    requires forall j :: 0 <= j < |Listed(o, w, k)| ==> b < Listed(o, w, k)[j] || Listed(o, w, k)[j] + 4 <= b
    ensures var r := Relocate(o, delta).value;
            && Reaches(r, w) && k < |PropsAt(r, w)| && b < |PropsAt(r, w)[k].value|
            && PropsAt(r, w)[k].value[b] == PropsAt(o, w)[k].value[b]
  {
    Relocated(o, delta, w, k);
    AddAllElsewhere(PropsAt(o, w)[k].value, Listed(o, w, k), delta, b);
  }

  /** An overlay that lists one of its phandles cannot be relocated by more than 0. */
  lemma ListedPhandleFails(o: Forest, delta: nat, w: Way, k: nat)
    requires o.Tree? && delta > 0 && Reaches(o, w) && IsPhandle(PropsAt(o, w), k) && Listed(o, w, k) != []
    ensures !Relocate(o, delta).Done?
  {
    if Relocate(o, delta).Done? {
      FixupsAsGiven(o, delta, w, k);
    }
  }

  // ---- When the update succeeds ----

  /** Every fix-up is whole cells, has its property, and lists cells that lie in it. */
  predicate PropsResolve(ps: seq<FdtTree.Prop>, xs: seq<FdtTree.Prop>) {
    forall i :: 0 <= i < |xs| ==> PropResolves(ps, xs[i])
  }

  predicate PropResolves(ps: seq<FdtTree.Prop>, x: FdtTree.Prop) {
    var m := FirstProp(ps, x.name);
    |x.value| % 4 == 0 && m < |ps| && InsideAll(|ps[m].value|, Offsets(x.value))
  }

  predicate InsideAll(len: nat, os: seq<nat>) {
    forall j :: 0 <= j < |os| ==> os[j] + 4 <= len
  }

  predicate Resolves(g: Forest, x: Forest)
    requires g.Tree? && x.Tree?
    decreases x, 0
  {
    PropsResolve(g.props, x.props) && KidsResolve(g.kids, x.kids)
  }

  /** ... and every node of fix-ups has its node. */
  predicate KidsResolve(kids: Forest, xs: Forest)
    decreases xs, 2
  {
    xs.Tree? ==> KidResolves(kids, xs) && KidsResolve(kids, xs.rest)
  }

  predicate KidResolves(kids: Forest, x: Forest)
    requires x.Tree?
    decreases x, 1
  {
    match FirstChild(kids, x.name)
    case None => false
    case Some(m) =>
      SiblingLeads(kids, x.name);
      Resolves(At(kids, Right(m)), x)
  }

  lemma {:induction false} AddAllExactly(v: seq<byte>, os: seq<nat>, delta: nat)
    ensures AddAll(v, os, delta).Done? <==> InsideAll(|v|, os)
    decreases |os|
  {
    if os != [] {
      if os[0] + 4 <= |v| {
        AddAllExactly(AddTo(v, os[0], delta), os[1..], delta);
        assert InsideAll(|v|, os[1..]) ==> InsideAll(|v|, os) by {
          forall j | 0 < j < |os| && InsideAll(|v|, os[1..]) ensures os[j] + 4 <= |v| {
            assert os[1..][j - 1] == os[j];
          }
        }
      }
    }
  }

  lemma AlikePropResolves(ps: seq<FdtTree.Prop>, qs: seq<FdtTree.Prop>, x: FdtTree.Prop)
    requires AlikeProps(ps, qs)
    ensures PropResolves(ps, x) <==> PropResolves(qs, x)
  {
    AlikeFirstProp(ps, qs, x.name);
  }

  lemma AlikePropsResolve(ps: seq<FdtTree.Prop>, qs: seq<FdtTree.Prop>, xs: seq<FdtTree.Prop>)
    requires AlikeProps(ps, qs)
    ensures PropsResolve(ps, xs) <==> PropsResolve(qs, xs)
  {
    forall i | 0 <= i < |xs| ensures PropResolves(ps, xs[i]) <==> PropResolves(qs, xs[i]) {
      AlikePropResolves(ps, qs, xs[i]);
    }
  }

  lemma {:induction false} AlikeResolves(g: Forest, h: Forest, x: Forest)
    requires g.Tree? && h.Tree? && x.Tree? && Alike(g, h)
    ensures Resolves(g, x) <==> Resolves(h, x)
    decreases x, 0
  {
    AlikePropsResolve(g.props, h.props, x.props);
    AlikeKidsResolve(g.kids, h.kids, x.kids);
  }

  lemma {:induction false} AlikeKidsResolve(kids: Forest, hs: Forest, xs: Forest)
    requires Alike(kids, hs)
    ensures KidsResolve(kids, xs) <==> KidsResolve(hs, xs)
    decreases xs, 1
  {
    if xs.Tree? {
      AlikeKidsResolve(kids, hs, xs.rest);
      AlikeFirstChild(kids, hs, xs.name);
      match FirstChild(kids, xs.name)
      case None =>
      case Some(m) =>
        SiblingLeads(kids, xs.name);
        SiblingLeads(hs, xs.name);
        AlikeAt(kids, hs, m);
        AlikeResolves(At(kids, Right(m)), At(hs, Right(m)), xs);
    }
  }

  lemma {:induction false} PropsExactly(ps: seq<FdtTree.Prop>, xs: seq<FdtTree.Prop>, delta: nat)
    ensures UpdateProps(ps, xs, delta).Done? <==> PropsResolve(ps, xs)
    decreases |xs|
  {
    if xs != [] {
      var m, os := FirstProp(ps, xs[0].name), Offsets(xs[0].value);
      ResolveCons(ps, xs);
      if m < |ps| {
        AddAllExactly(ps[m].value, os, delta);
        if AddAll(ps[m].value, os, delta).Done? {
          var qs := ps[m := FdtTree.Prop(ps[m].name, AddAll(ps[m].value, os, delta).value)];
          AlikePropsResolve(ps, qs, xs[1..]);
          PropsExactly(qs, xs[1..], delta);
        }
      }
    }
  }

  lemma ResolveCons(ps: seq<FdtTree.Prop>, xs: seq<FdtTree.Prop>)
    requires xs != []
    ensures PropsResolve(ps, xs) <==> PropResolves(ps, xs[0]) && PropsResolve(ps, xs[1..])
  {
    assert forall i :: 0 < i < |xs| ==> xs[i] == xs[1..][i - 1];
  }

  /** The update succeeds exactly when all that the fix-ups name is there; otherwise it is refused with
      FDT_ERR_BADOVERLAY or, for one of the last four offsets of 32 bits, goes astray. */
  lemma {:induction false} UpdateExactly(g: Forest, x: Forest, delta: nat)
    requires g.Tree? && x.Tree?
    ensures UpdateNode(g, x, delta).Done? <==> Resolves(g, x)
    decreases x, 0
  {
    PropsExactly(g.props, x.props, delta);
    KidsExactly(g.kids, x.kids, delta);
  }

  lemma {:induction false} KidsExactly(kids: Forest, xs: Forest, delta: nat)
    ensures UpdateKids(kids, xs, delta).Done? <==> KidsResolve(kids, xs)
    decreases xs, 1
  {
    if xs.Tree? {
      match FirstChild(kids, xs.name)
      case None =>
      case Some(m) =>
        SiblingLeads(kids, xs.name);
        var g := At(kids, Right(m));
        UpdateExactly(g, xs, delta);
        if UpdateNode(g, xs, delta).Done? {
          var h := UpdateNode(g, xs, delta).value;
          NodeAlike(g, xs, delta);
          AlikePut(kids, m, h);
          AlikeKidsResolve(kids, Put(kids, Right(m), h), xs.rest);
          KidsExactly(Put(kids, Right(m), h), xs.rest, delta);
        }
    }
  }

  // ---- The fix-ups themselves ----

  /** No node of fix-ups stands for child number `m`. */
  predicate NoneLeadsTo(kids: Forest, xs: Forest, m: nat) {
    xs.Tree? ==> FirstChild(kids, xs.name) != Some(m) && NoneLeadsTo(kids, xs.rest, m)
  }

  lemma {:induction false} NothingListed(kids: Forest, xs: Forest, w: Way, k: nat)
    requires w != [] && NoneLeadsTo(kids, xs, w[0])
    ensures KidOffsets(kids, xs, w, k) == []
    decreases xs
  {
    if xs.Tree? {
      NothingListed(kids, xs.rest, w, k);
    }
  }

  /** The fix-ups stay as they are while they are read, unless one of them stands for the node of the fix-ups. */
  lemma FixupsUntouched(g: Forest, m: nat, delta: nat, w: Way, k: nat)
    requires g.Tree? && Leads(g.kids, Right(m)) && UpdateNode(g, At(g.kids, Right(m)), delta).Done?
    requires NoneLeadsTo(g.kids, At(g.kids, Right(m)).kids, m)
    requires w != [] && w[0] == m && Reaches(g, w) && k < |PropsAt(g, w)|
    ensures var r := UpdateNode(g, At(g.kids, Right(m)), delta).value;
            Reaches(r, w) && k < |PropsAt(r, w)| && PropsAt(r, w)[k].value == PropsAt(g, w)[k].value
  {
    var x := At(g.kids, Right(m));
    NodeUpdated(g, x, delta, w, k);
    NothingListed(g.kids, x.kids, w, k);
  }
}
