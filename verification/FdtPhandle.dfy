/**
 Relocation of the phandles of an overlay, lib/utils/libfdt/fdt_overlay.c and fdt_find_max_phandle of fdt_ro.c:
 the overlay's phandles move out of the way of the base's.
 */
module FdtPhandle {
  import opened Options
  import opened FdtFormat
  import opened FdtTree
  import opened FdtCommute

  /** "phandle" and "linux,phandle". */
  const PHANDLE: Name := [0x70, 0x68, 0x61, 0x6e, 0x64, 0x6c, 0x65]
  const LINUX_PHANDLE: Name := [0x6c, 0x69, 0x6e, 0x75, 0x78, 0x2c] + PHANDLE

  /** `Wild` is no answer of the source: it stands for a store outside the property, behind which nothing more is
      said. */
  datatype Outcome<T> = Done(value: T) | BadPhandle | NoPhandles | BadOverlay | Wild {
    predicate IsFailure() { !Done? }

    function PropagateFailure<U>(): Outcome<U>
      requires IsFailure()
    {
      match this
      case BadPhandle => BadPhandle
      case NoPhandles => NoPhandles
      case BadOverlay => BadOverlay
      case Wild => Wild
    }

    function Extract(): T
      requires !IsFailure()
    {
      value
    }
  }

  // ---- Reading phandles ----

  /** The four-byte value of the first property of that name. */
  function CellValue(ps: seq<FdtTree.Prop>, name: Name): Option<nat> {
    var m := FirstProp(ps, name);
    if m < |ps| && |ps[m].value| == 4 then Some(Cell(ps[m].value, 0)) else None
  }

  /** `fdt_get_phandle`; None where it answers 0 for want of a property. */
  function Phandle(ps: seq<FdtTree.Prop>): Option<nat> {
    match CellValue(ps, PHANDLE)
    case Some(v) => Some(v)
    case None => CellValue(ps, LINUX_PHANDLE)
  }

  function Max(a: nat, b: nat): nat { if a < b then b else a }

  /** `fdt_find_max_phandle`. */
  function MaxPhandle(f: Forest): nat {
    if f.Empty? then 0 else Max(Phandle(f.props).Or(0), Max(MaxPhandle(f.kids), MaxPhandle(f.rest)))
  }

  /** It is at least every phandle ... */
  lemma {:induction false} MaxIsMax(f: Forest, p: Path)
    requires Leads(f, p)
    ensures Phandle(At(f, p).props).Or(0) <= MaxPhandle(f)
    decreases |p|
  {
    if p != [] {
      MaxIsMax(if p[0] then f.kids else f.rest, p[1..]);
    }
  }

  /** ... and one of them, unless there is none. */
  lemma {:induction false} MaxIsReached(f: Forest) returns (p: Path)
    requires MaxPhandle(f) > 0
    ensures Leads(f, p) && Phandle(At(f, p).props) == Some(MaxPhandle(f))
    decreases f
  {
    if Phandle(f.props) == Some(MaxPhandle(f)) {
      p := [];
    } else {
      var down := MaxPhandle(f.kids) == MaxPhandle(f);
      var q := MaxIsReached(if down then f.kids else f.rest);
      p := [down] + q;
      assert p[1..] == q;
    }
  }

  // ---- Moving phandles ----

  /** `overlay_phandle_add_offset`, with a missing property left alone as its callers do. */
  function AddOffset(ps: seq<FdtTree.Prop>, name: Name, delta: nat): Outcome<seq<FdtTree.Prop>> {
    var m := FirstProp(ps, name);
    if m == |ps| then Done(ps)
    else if |ps[m].value| != 4 then BadPhandle
    else if Cell(ps[m].value, 0) + delta >= CELL - 1 then NoPhandles
    else Done(ps[m := FdtTree.Prop(name, ToCell(Cell(ps[m].value, 0) + delta))])
  }

  /** `overlay_adjust_node_phandles` on one node. */
  function AdjustProps(ps: seq<FdtTree.Prop>, delta: nat): Outcome<seq<FdtTree.Prop>> {
    var qs :- AddOffset(ps, PHANDLE, delta);
    AddOffset(qs, LINUX_PHANDLE, delta)
  }

  /** `overlay_adjust_node_phandles` on a node, its children and its later siblings. */
  function Adjust(f: Forest, delta: nat): Outcome<Forest> {
    if f.Empty? then Done(Empty)
    else
      var ps :- AdjustProps(f.props, delta);
      var kids :- Adjust(f.kids, delta);
      var rest :- Adjust(f.rest, delta);
      Done(Tree(f.name, ps, kids, rest))
  }

  function Shifted(v: Option<nat>, delta: nat): Option<nat> {
    match v case None => None case Some(n) => Some(n + delta)
  }

  /** Only the first property of that name changes, and its value by `delta`. */
  lemma AddOffsetShifts(ps: seq<FdtTree.Prop>, name: Name, delta: nat, n: Name)
    requires AddOffset(ps, name, delta).Done?
    ensures var qs := AddOffset(ps, name, delta).value;
            CellValue(qs, n) == if n == name then Shifted(CellValue(ps, n), delta) else CellValue(ps, n)
    ensures CellValue(ps, name).None? <==> FirstProp(ps, name) == |ps|
    ensures CellValue(ps, name).Some? ==> CellValue(ps, name).value + delta < CELL - 1
  {
    var qs, m := AddOffset(ps, name, delta).value, FirstProp(ps, name);
    SameFirst(ps, qs, n);
    if m < |ps| {
      CellRoundTrip(Cell(ps[m].value, 0) + delta);
    }
  }

  lemma {:induction false} SameFirst(ps: seq<FdtTree.Prop>, qs: seq<FdtTree.Prop>, n: Name)
    requires |qs| == |ps| && forall k :: 0 <= k < |ps| ==> qs[k].name == ps[k].name
    ensures FirstProp(qs, n) == FirstProp(ps, n)
  {
    if ps != [] && ps[0].name != n {
      SameFirst(ps[1..], qs[1..], n);
    }
  }

  lemma AdjustPropsShifts(ps: seq<FdtTree.Prop>, delta: nat)
    requires AdjustProps(ps, delta).Done?
    ensures Phandle(AdjustProps(ps, delta).value) == Shifted(Phandle(ps), delta)
    ensures Phandle(ps).Some? ==> Phandle(ps).value + delta < CELL - 1
  {
    var qs := AddOffset(ps, PHANDLE, delta).value;
    assert |PHANDLE| != |LINUX_PHANDLE|;
    AddOffsetShifts(ps, PHANDLE, delta, PHANDLE);
    AddOffsetShifts(ps, PHANDLE, delta, LINUX_PHANDLE);
    AddOffsetShifts(qs, LINUX_PHANDLE, delta, PHANDLE);
    AddOffsetShifts(qs, LINUX_PHANDLE, delta, LINUX_PHANDLE);
  }

  /** Every node keeps its place, and its phandle moves by `delta`. */
  lemma {:induction false} AdjustShifts(f: Forest, delta: nat, p: Path)
    requires Adjust(f, delta).Done?
    ensures Leads(f, p) <==> Leads(Adjust(f, delta).value, p)
    ensures Leads(f, p) ==>
              && Phandle(At(Adjust(f, delta).value, p).props) == Shifted(Phandle(At(f, p).props), delta)
              && At(Adjust(f, delta).value, p).name == At(f, p).name
              && (Phandle(At(f, p).props).Some? ==> Phandle(At(f, p).props).value + delta < CELL - 1)
    decreases |p|
  {
    if f.Tree? {
      AdjustPropsShifts(f.props, delta);
      if p != [] {
        AdjustShifts(if p[0] then f.kids else f.rest, delta, p[1..]);
      }
    }
  }

  /** The relocated phandles of the overlay are none of the base's, as long as none of them was 0. */
  lemma {:induction false} DisjointFromBase(base: Forest, o: Forest, p: Path, q: Path)
    requires Adjust(o, MaxPhandle(base)).Done? && Leads(base, p)
    requires forall r :: Leads(o, r) && Phandle(At(o, r).props).Some? ==> Phandle(At(o, r).props).value >= 1
    ensures var o' := Adjust(o, MaxPhandle(base)).value;
            Leads(o', q) && Phandle(At(o', q).props).Some? ==>
              Phandle(At(base, p).props) != Phandle(At(o', q).props)
  {
    MaxIsMax(base, p);
    AdjustShifts(o, MaxPhandle(base), q);
  }
}
