/**
 `overlay_update_local_node_references` of lib/utils/libfdt/fdt_overlay.c on the blob of the overlay, in which the
 fix-ups stand as well: in place, and with the result that FdtFixups gives for the tree.
 */
module FdtLocalRefs {
  import opened Options
  import opened FdtFormat
  import opened FdtMemory
  import opened FdtTree
  import opened FdtEdit
  import opened FdtCommute
  import opened FdtMerge
  import opened FdtTreeEdit
  import opened FdtVisit
  import opened FdtPhandle
  import opened FdtFixups
  import opened FdtInPlace
  import opened FdtWithin
  import Seqs

  // ---- The cells of one fix-up ----

  lemma AddToSpliced(v: seq<byte>, o: nat, delta: nat)
    requires o + 4 <= |v|
    ensures AddTo(v, o, delta) == Spliced(v, o, o + 4, ToCell((Cell(v, o) + delta) % CELL))
  {
  }

  /** The properties with another value of that one. */
  function WithValue(ps: seq<FdtTree.Prop>, name: Name, v: seq<byte>): seq<FdtTree.Prop>
    requires FirstProp(ps, name) < |ps|
  {
    ps[FirstProp(ps, name) := FdtTree.Prop(name, v)]
  }

  /** One turn of the loop over the cells. */
  lemma CellStep(ps: seq<FdtTree.Prop>, name: Name, os: seq<nat>, delta: nat)
    requires FirstProp(ps, name) < |ps| && os != []
    ensures var v := ps[FirstProp(ps, name)].value;
            && PropValue(ps, name) == Some(v)
            && match PlaceStatus(ps, name, os[0], 4)
               case TooSmall => AddAll(v, os, delta) == BadOverlay
               case Astray => AddAll(v, os, delta) == Wild
               case Stored =>
                 && os[0] + 4 <= |v|
                 && Patched(ps, name, os[0], ToCell((Cell(v, os[0]) + delta) % CELL)) == WithValue(ps, name, AddTo(v, os[0], delta))
                 && AddAll(v, os, delta) == AddAll(AddTo(v, os[0], delta), os[1..], delta)
               case Absent => false
  {
    var v := ps[FirstProp(ps, name)].value;
    if os[0] + 4 <= |v| {
      AddToSpliced(v, os[0], delta);
    }
  }

  lemma ValueAgain(ps: seq<FdtTree.Prop>, name: Name, v: seq<byte>, w: seq<byte>)
    requires FirstProp(ps, name) < |ps|
    ensures var qs := WithValue(ps, name, v);
            && FirstProp(qs, name) == FirstProp(ps, name) && qs[FirstProp(ps, name)].value == v
            && WithValue(qs, name, w) == WithValue(ps, name, w)
    ensures WithValue(ps, name, ps[FirstProp(ps, name)].value) == ps
  {
    var m := FirstProp(ps, name);
    FirstIs(WithValue(ps, name, v), name, m);
    assert ps[m] == FdtTree.Prop(name, ps[m].value);
  }

  /** The loop of `overlay_update_local_node_references` over the cells of a fix-up, for the property `name` of the
      node. The source reads each cell before it tests the offset; what it reads then does not matter. */
  method UpdateCells(b: Blob, node: nat, name: Name, fixup: seq<byte>, delta: nat,
                     ghost cs: seq<Chunk>, ghost f: Forest, ghost p: Path, ghost i: nat)
    returns (outcome: Outcome<()>, ghost ds: seq<Chunk>, ghost h: Forest)
    requires Holds(b, cs, f, p, i, node) && FirstProp(At(f, p).props, name) < |At(f, p).props| && |fixup| % 4 == 0
    modifies b.buf
    ensures var ps := At(f, p).props;
            match AddAll(ps[FirstProp(ps, name)].value, Offsets(fixup), delta)
            case Done(v) =>
              && outcome == Done(()) && h == Put(f, p, At(f, p).(props := WithValue(ps, name, v)))
              && Now(b, cs, ds, old(b.Strings()), f, h)
            case e => outcome == e.PropagateFailure()
  {
    hide Block, Rep, Put, Flatten, Before, After, Rewritten, Locates, Holds, Now, Leads, At, AddAll, AddTo, Offsets, WithValue,
         FirstProp, Patched, Cell, ToCell, PlaceStatus, PropValue;
    HoldsNow(b, cs, f, p, i, node);
    ghost var st, g := b.Strings(), At(f, p);
    ghost var ps, os := g.props, Offsets(fixup);
    ghost var v := ps[FirstProp(ps, name)].value;
    ghost var all := AddAll(v, os, delta);
    ds, h := cs, f;
    PutAt(f, p);
    ValueAgain(ps, name, v, v);
    var c, n := 0, |fixup| / 4;
    assert os[0..] == os;
    while c < n
      invariant c <= n == |os| && b.Ordered() && Now(b, cs, ds, st, f, h)
      invariant h == Put(f, p, g.(props := WithValue(ps, name, v)))
      invariant AddAll(v, os[c..], delta) == all
      decreases n - c
    {
      OffsetsAt(fixup, c);
      var o := Cell(fixup, 4 * c);
      assert os[c..][0] == o && os[c..][1..] == os[c + 1..];
      outcome, ds, h, v := UpdateCell(b, node, name, o, delta, ds, f, p, i, g, v, os[c..], st, cs);
      if !outcome.Done? {
        return;
      }
      c := c + 1;
    }
    assert os[c..] == [];
    NothingAdded(v, delta);
    outcome := Done(());
  }

  lemma NothingAdded(v: seq<byte>, delta: nat)
    ensures AddAll(v, [], delta) == Done(v)
  {
  }

  method UpdateCell(b: Blob, node: nat, name: Name, o: nat, delta: nat, ghost ds0: seq<Chunk>, ghost f: Forest, ghost p: Path, ghost i: nat,
                    ghost g: Forest, ghost v0: seq<byte>, ghost os: seq<nat>, ghost st: seq<byte>, ghost cs: seq<Chunk>)
    returns (outcome: Outcome<()>, ghost ds: seq<Chunk>, ghost h: Forest, ghost v: seq<byte>)
    requires Leads(f, p) && g == At(f, p) && FirstProp(g.props, name) < |g.props| && os != [] && o == os[0]
    requires b.Ordered() && Locates(cs, st, f, p, i) && node == Offset(cs, i)
    requires Now(b, cs, ds0, st, f, Put(f, p, g.(props := WithValue(g.props, name, v0))))
    modifies b.buf
    ensures b.Ordered()
    ensures outcome.Done? ==>
              && h == Put(f, p, g.(props := WithValue(g.props, name, v))) && Now(b, cs, ds, st, f, h)
              && AddAll(v0, os, delta) == AddAll(v, os[1..], delta)
    ensures !outcome.Done? ==> AddAll(v0, os, delta).IsFailure() && outcome == AddAll(v0, os, delta).PropagateFailure()
  {
    hide Block, Rep, Put, Flatten, Before, After, Rewritten, Locates, Holds, Now, Leads, At, AddAll, AddTo, WithValue,
         FirstProp, Patched, Cell, ToCell, PlaceStatus, PropValue;
    ghost var ps0 := WithValue(g.props, name, v0);
    ghost var g0 := g.(props := ps0);
    ghost var h0 := Put(f, p, g0);
    NowRewritten(b, cs, ds0, st, f, h0);
    NowHolds(b, cs, ds0, st, f, h0, p, i, node);
    BeforePut(f, p, g0);
    ValueAgain(g.props, name, v0, v0);
    WithLength(g.props, name, v0);
    CellStep(ps0, name, os, delta);
    ds, h, v := ds0, h0, v0;
    var now := GetProp(b, node, name, ds0, h0, p, i);
    var cell := if o + 4 <= |now.value| then ToCell((Cell(now.value, o) + delta) % CELL) else ToCell(0);
    var placed;
    placed, ds, h := SetInPlace(b, node, name, o, cell, ds0, h0, p, i);
    match placed {
      case TooSmall => outcome := BadOverlay;
      case Astray => outcome := Wild;
      case Absent => outcome := BadOverlay;
      case Stored =>
        v := AddTo(v0, o, delta);
        ValueAgain(g.props, name, v0, v);
        PutPut(f, p, g0, g0.(props := WithValue(ps0, name, v)));
        NowTwice(b, cs, ds0, ds, st, f, h0, h);
        outcome := Done(());
    }
  }

  lemma WithLength(ps: seq<FdtTree.Prop>, name: Name, v: seq<byte>)
    requires FirstProp(ps, name) < |ps|
    ensures |WithValue(ps, name, v)| == |ps|
  {
  }

  // ---- The properties of a node of fix-ups ----

  /** What stands from property number `n` of the node on. */
  function Rest(f: Forest, q: Path, n: nat): seq<Event>
    requires Leads(f, q) && n <= |At(f, q).props|
  {
    FlattenProps(At(f, q).props[n..]) + Behind(At(f, q), After(f, q))
  }

  /** ... and in front of it. */
  lemma RestSplits(f: Forest, q: Path, n: nat) returns (front: seq<Event>)
    requires Leads(f, q) && n <= |At(f, q).props|
    ensures Flatten(f) == front + Rest(f, q, n) && |front| == |Before(f, q)| + 1 + n
  {
    var g := At(f, q);
    var x := Behind(g, After(f, q));
    front := Before(f, q) + ([BeginNode(g.name)] + FlattenProps(g.props[..n]));
    PutAt(f, q);
    FlattenPut(f, q, g);
    FlattenNode(g, Before(f, q), After(f, q));
    assert g.props == g.props[..n] + g.props[n..];
    FlattenPropsAppend(g.props[..n], g.props[n..]);
    PropsLength(g.props[..n]);
    Regrouped(Before(f, q), [BeginNode(g.name)], FlattenProps(g.props[..n]), FlattenProps(g.props[n..]), x);
  }

  lemma Regrouped(b: seq<Event>, e: seq<Event>, u: seq<Event>, v: seq<Event>, x: seq<Event>)
    ensures b + (e + ((u + v) + x)) == (b + (e + u)) + (v + x)
  {
  }

  /** The same tags stand from there on after an edit in place. */
  lemma RestStands(cs: seq<Chunk>, ds: seq<Chunk>, st: seq<byte>, f: Forest, h: Forest, q: Path, n: nat, k: nat)
    requires Rep(cs, st, Flatten(f)) && Rewritten(cs, ds, st, f, h) && k <= |cs|
    requires Leads(f, q) && n <= |At(f, q).props| && Tail(cs, k, st, Rest(f, q, n))
    ensures Leads(h, q) && |At(h, q).props| == |At(f, q).props| && Tail(ds, k, st, Rest(h, q, n)) && Offset(ds, k) == Offset(cs, k)
  {
    AlikeLeads(f, h, q);
    AlikeFlatten(f, h);
    hide Flatten, Before, After, Leads, At, Alike, Count, Rest, Behind, Rep, Span, Bytes;
    var u := RestSplits(f, q, n);
    var v := RestSplits(h, q, n);
    assert |ds| == |cs|;
    EventsUpTo(cs, st, u, Rest(f, q, n), k);
    SameTagsUpTo(cs, ds, k);
    SameCount(cs[..k], ds[..k]);
    OffsetIs(cs, k);
    OffsetIs(ds, k);
    EventsBehind(ds, st, v, Rest(h, q, n), k);
  }

  /** A tail that means `fs` has so many tags in front of it. */
  lemma EventsUpTo(cs: seq<Chunk>, st: seq<byte>, es: seq<Event>, fs: seq<Event>, k: nat)
    requires k <= |cs| && Rep(cs, st, es + fs) && Tail(cs, k, st, fs)
    ensures Count(cs[..k]) == |es|
  {
    hide Rep, Count;
    SpanIs(cs, k, |cs|, st, fs);
    assert cs[k..|cs|] == cs[k..];
    RepCount(cs[k..], st, fs);
    RepCount(cs, st, es + fs);
    assert cs == cs[..k] + cs[k..];
    CountAppend(cs[..k], cs[k..]);
  }

  lemma {:induction false} CountAppend(cs: seq<Chunk>, ds: seq<Chunk>)
    ensures Count(cs + ds) == Count(cs) + Count(ds)
  {
    if cs == [] {
      Seqs.Unit(ds);
    } else {
      Seqs.DropAppend(cs, ds);
      CountAppend(cs[1..], ds);
    }
  }

  lemma EventsBehind(cs: seq<Chunk>, st: seq<byte>, es: seq<Event>, fs: seq<Event>, k: nat)
    requires k <= |cs| && Rep(cs, st, es + fs) && Count(cs[..k]) == |es|
    ensures Tail(cs, k, st, fs)
  {
    hide Rep, Count;
    RepPrefix(cs, st, es + fs, k);
    FrontOfTwo(es, fs);
    assert cs == cs[..k] + cs[k..];
    RepSuffix(cs[..k], es, cs[k..], fs, st);
    assert cs[k..|cs|] == cs[k..];
    SpanIs(cs, k, |cs|, st, fs);
  }

  lemma FrontOfTwo(a: seq<Event>, b: seq<Event>)
    ensures (a + b)[..|a|] == a
  {
  }

  /** One property of fix-ups. */
  method UpdateProperty(b: Blob, node: nat, name: Name, fixup: seq<byte>, delta: nat,
                        ghost cs: seq<Chunk>, ghost f: Forest, ghost p: Path, ghost i: nat)
    returns (outcome: Outcome<()>, ghost ds: seq<Chunk>, ghost h: Forest)
    requires Holds(b, cs, f, p, i, node)
    modifies b.buf
    ensures match UpdateProps(At(f, p).props, [FdtTree.Prop(name, fixup)], delta)
            case Done(ps) => outcome == Done(()) && h == Put(f, p, At(f, p).(props := ps)) && Now(b, cs, ds, old(b.Strings()), f, h)
            case e => outcome == e.PropagateFailure()
  {
    hide Block, Rep, Put, Flatten, Before, After, Rewritten, Locates, Holds, Now, Leads, At, AddAll, Offsets, WithValue, UpdateProps, FirstProp, PropValue;
    HoldsNow(b, cs, f, p, i, node);
    OneUpdate(At(f, p).props, name, fixup, delta);
    ds, h := cs, f;
    if |fixup| % 4 != 0 {
      return BadOverlay, ds, h;
    }
    var value := GetProp(b, node, name, cs, f, p, i);
    if value == None {
      return BadOverlay, ds, h;
    }
    outcome, ds, h := UpdateCells(b, node, name, fixup, delta, cs, f, p, i);
  }

  lemma OneUpdate(ps: seq<FdtTree.Prop>, name: Name, fixup: seq<byte>, delta: nat)
    ensures PropValue(ps, name).None? <==> FirstProp(ps, name) == |ps|
    ensures |fixup| % 4 != 0 || PropValue(ps, name).None? ==> UpdateProps(ps, [FdtTree.Prop(name, fixup)], delta) == BadOverlay
    ensures |fixup| % 4 == 0 && PropValue(ps, name).Some? ==>
              FirstProp(ps, name) < |ps|
              && UpdateProps(ps, [FdtTree.Prop(name, fixup)], delta)
                 == match AddAll(ps[FirstProp(ps, name)].value, Offsets(fixup), delta)
                    case Done(v) => Done(WithValue(ps, name, v))
                    case e => e.PropagateFailure()
  {
    var xs := [FdtTree.Prop(name, fixup)];
    assert xs[1..] == [] && xs[0] == FdtTree.Prop(name, fixup);
    var m := FirstProp(ps, name);
    if m < |ps| && |fixup| % 4 == 0 && AddAll(ps[m].value, Offsets(fixup), delta).Done? {
      NoUpdates(WithValue(ps, name, AddAll(ps[m].value, Offsets(fixup), delta).value), delta);
    }
  }

  lemma NoUpdates(ps: seq<FdtTree.Prop>, delta: nat)
    ensures UpdateProps(ps, [], delta) == Done(ps)
  {
  }

  lemma UpdateFirst(ps: seq<FdtTree.Prop>, xs: seq<FdtTree.Prop>, n: nat, delta: nat)
    requires n < |xs|
    ensures UpdateProps(ps, xs[n..], delta) ==
              match UpdateProps(ps, [FdtTree.Prop(xs[n].name, xs[n].value)], delta)
              case Done(qs) => UpdateProps(qs, xs[n + 1..], delta)
              case e => e
  {
    assert xs[n..][0] == xs[n] && xs[n..][1..] == xs[n + 1..];
    OneUpdate(ps, xs[n].name, xs[n].value, delta);
  }

  /** `fdt_for_each_property_offset`: the next property of fix-ups. */
  method NextFixup(b: Blob, start: nat, ghost ds: seq<Chunk>, ghost h: Forest, ghost q: Path, ghost n: nat, ghost k: nat)
    returns (found: bool, name: Name, value: seq<byte>, next: nat, ghost k': nat)
    requires b.Ordered() && Block(b.Struct(), ds) && k <= |ds| && start == Offset(ds, k)
    requires Leads(h, q) && n <= |At(h, q).props| && Tail(ds, k, b.Strings(), Rest(h, q, n))
    ensures found <==> n < |At(h, q).props|
    ensures found ==> name == At(h, q).props[n].name && value == At(h, q).props[n].value
    ensures found ==> k' <= |ds| && next == Offset(ds, k') && Tail(ds, k', b.Strings(), Rest(h, q, n + 1))
  {
    hide Block, Offset, Tail, At, Leads;
    ghost var ps := At(h, q).props;
    assert n < |ps| ==> ps[n..][0] == ps[n] && ps[n..][1..] == ps[n + 1..];
    found, name, value, next, k' := VisitProp(b.buf[b.offStruct..b.offStruct + b.sizeStruct], b.buf[b.offStrings..b.offStrings + b.sizeStrings],
      start, ds, k, ps[n..], Behind(At(h, q), After(h, q)));
  }

  /** Where the properties of a node begin. */
  method FirstFixup(b: Blob, fix: nat, ghost cs: seq<Chunk>, ghost f: Forest, ghost q: Path, ghost j: nat) returns (start: nat)
    requires Holds(b, cs, f, q, j, fix)
    ensures j < |cs| && start == Offset(cs, j + 1) && Tail(cs, j + 1, b.Strings(), Rest(f, q, 0))
  {
    NodeHere(cs, b.Strings(), f, q, j);
    assert At(f, q).props[0..] == At(f, q).props;
    TagAt(b.Struct(), cs, j);
    var tag := ReadTag(b.buf[b.offStruct..b.offStruct + b.sizeStruct], fix);
    start := tag.next;
  }

  lemma NowBlock(b: Blob, cs: seq<Chunk>, ds: seq<Chunk>, st: seq<byte>, f: Forest, h: Forest)
    requires Now(b, cs, ds, st, f, h)
    ensures b.Ordered() && b.Strings() == st && Block(b.Struct(), ds) && Rep(ds, st, Flatten(h)) && |ds| == |cs|
  {
  }

  /** The loop of `overlay_update_local_node_references` over the properties of fix-ups. */
  method UpdatePropsInPlace(b: Blob, node: nat, fix: nat, delta: nat, ghost cs: seq<Chunk>, ghost f: Forest,
                            ghost p: Path, ghost i: nat, ghost q: Path, ghost j: nat)
    returns (outcome: Outcome<()>, ghost ds: seq<Chunk>, ghost h: Forest)
    requires Holds(b, cs, f, p, i, node) && Holds(b, cs, f, q, j, fix) && p != q
    modifies b.buf
    ensures match UpdateProps(At(f, p).props, At(f, q).props, delta)
            case Done(ps) => outcome == Done(()) && h == Put(f, p, At(f, p).(props := ps)) && Now(b, cs, ds, old(b.Strings()), f, h)
            case e => outcome == e.PropagateFailure()
  {
    hide Block, Rep, Put, Flatten, Before, After, Rewritten, Locates, Holds, Now, Leads, At, UpdateProps, Rest, Tail, Offset;
    HoldsNow(b, cs, f, p, i, node);
    HoldsNow(b, cs, f, q, j, fix);
    ghost var st, g, xs := b.Strings(), At(f, p), At(f, q).props;
    ghost var ps, n, k: nat := g.props, 0, j + 1;
    ds, h := cs, f;
    PutAt(f, p);
    assert xs[0..] == xs;
    var start := FirstFixup(b, fix, cs, f, q, j);
    NowBlock(b, cs, ds, st, f, h);
    var found, name, value;
    found, name, value, start, k := NextFixup(b, start, ds, h, q, n, k);
    while found
      invariant n <= |xs| && b.Ordered() && Now(b, cs, ds, st, f, h) && h == Put(f, p, g.(props := ps))
      invariant Leads(h, q) && At(h, q).props == xs && (found <==> n < |xs|)
      invariant found ==> name == xs[n].name && value == xs[n].value
      invariant found ==> k <= |ds| && start == Offset(ds, k) && Tail(ds, k, st, Rest(h, q, n + 1))
      invariant UpdateProps(ps, xs[n..], delta) == UpdateProps(g.props, xs, delta)
      decreases |xs| - n
    {
      UpdateFirst(ps, xs, n, delta);
      outcome, ds, h, ps := UpdateOneFixup(b, node, name, value, delta, cs, ds, f, h, p, i, q, g, ps, st, n, k);
      if !outcome.Done? {
        return;
      }
      n := n + 1;
      NowBlock(b, cs, ds, st, f, h);
      found, name, value, start, k := NextFixup(b, start, ds, h, q, n, k);
    }
    assert xs[n..] == [];
    NoUpdates(ps, delta);
    outcome := Done(());
  }

  /** One turn of that loop; the other fix-ups stand where they did. */
  method UpdateOneFixup(b: Blob, node: nat, name: Name, value: seq<byte>, delta: nat, ghost cs: seq<Chunk>, ghost ds0: seq<Chunk>,
                        ghost f: Forest, ghost h0: Forest, ghost p: Path, ghost i: nat, ghost q: Path, ghost g: Forest,
                        ghost ps0: seq<FdtTree.Prop>, ghost st: seq<byte>, ghost n: nat, ghost k: nat)
    returns (outcome: Outcome<()>, ghost ds: seq<Chunk>, ghost h: Forest, ghost ps: seq<FdtTree.Prop>)
    requires Leads(f, p) && g == At(f, p) && h0 == Put(f, p, g.(props := ps0)) && p != q
    requires b.Ordered() && Now(b, cs, ds0, st, f, h0) && Locates(cs, st, f, p, i) && node == Offset(cs, i)
    requires Leads(h0, q) && n < |At(h0, q).props| && k <= |ds0| && Tail(ds0, k, st, Rest(h0, q, n + 1))
    modifies b.buf
    ensures b.Ordered()
    ensures match UpdateProps(ps0, [FdtTree.Prop(name, value)], delta)
            case Done(qs) =>
              && outcome == Done(()) && ps == qs && h == Put(f, p, g.(props := ps)) && Now(b, cs, ds, st, f, h)
              && Leads(h, q) && At(h, q).props == At(h0, q).props
              && k <= |ds| && Tail(ds, k, st, Rest(h, q, n + 1)) && Offset(ds, k) == Offset(ds0, k)
            case e => outcome == e.PropagateFailure()
  {
    hide Block, Rep, Put, Flatten, Before, After, Rewritten, Locates, Holds, Now, Leads, At, UpdateProps, Rest, Tail, Offset;
    ghost var g0 := g.(props := ps0);
    NowRewritten(b, cs, ds0, st, f, h0);
    NowBlock(b, cs, ds0, st, f, h0);
    NowHolds(b, cs, ds0, st, f, h0, p, i, node);
    BeforePut(f, p, g0);
    ps := ps0;
    outcome, ds, h := UpdateProperty(b, node, name, value, delta, ds0, h0, p, i);
    if outcome.Done? {
      ps := UpdateProps(ps0, [FdtTree.Prop(name, value)], delta).value;
      PutPut(f, p, g0, g0.(props := ps));
      PropsKept(h0, p, g0.(props := ps), q);
      NowRewritten(b, ds0, ds, st, h0, h);
      NowTwice(b, cs, ds0, ds, st, f, h0, h);
      RestStands(ds0, ds, st, h0, h, q, n + 1, k);
      NowBlock(b, ds0, ds, st, h0, h);
    }
  }

  // ---- The nodes of fix-ups ----

  lemma RewrittenAlike(cs: seq<Chunk>, ds: seq<Chunk>, st: seq<byte>, f: Forest, h: Forest)
    requires Rewritten(cs, ds, st, f, h)
    ensures Alike(f, h)
  {
  }

  /** `overlay_update_local_node_references`. */
  method UpdateNodeInPlace(b: Blob, node: nat, fix: nat, delta: nat, ghost cs: seq<Chunk>, ghost f: Forest,
                           ghost p: Path, ghost i: nat, ghost q: Path, ghost j: nat, ghost x: Forest)
    returns (outcome: Outcome<()>, ghost ds: seq<Chunk>, ghost h: Forest)
    requires Holds(b, cs, f, p, i, node) && Holds(b, cs, f, q, j, fix) && p != q && x.Tree? && Alike(x, At(f, q))
    modifies b.buf
    ensures match UpdateWithin(f, p, q, x, delta)
            case Done(g) => outcome == Done(()) && h == g && Now(b, cs, ds, old(b.Strings()), f, h)
            case e => outcome == e.PropagateFailure()
    decreases x, 1
  {
    hide Block, Rep, Put, Flatten, Before, After, Rewritten, Locates, Holds, Now, Leads, At, UpdateProps, KidsWithin;
    HoldsNow(b, cs, f, p, i, node);
    HoldsNow(b, cs, f, q, j, fix);
    ghost var st, g := b.Strings(), At(f, p);
    outcome, ds, h := UpdatePropsInPlace(b, node, fix, delta, cs, f, p, i, q, j);
    if !outcome.Done? {
      return;
    }
    ghost var ds1, h1, ps := ds, h, UpdateProps(g.props, At(f, q).props, delta).value;
    PropsAlike(g.props, At(f, q).props, delta);
    PropsExchanged(f, p, ps, q, x);
    NowHolds(b, cs, ds, st, f, h, p, i, node);
    NowHolds(b, cs, ds, st, f, h, q, j, fix);
    NowRewritten(b, cs, ds, st, f, h);
    outcome, ds, h := UpdateKidsInPlace(b, node, fix, delta, ds, h, p, i, q, j, x.kids);
    if outcome.Done? {
      NowTwice(b, cs, ds1, ds, st, f, h1, h);
    }
  }

  /** ... its loop over subnodes. */
  method UpdateKidsInPlace(b: Blob, node: nat, fix: nat, delta: nat, ghost cs: seq<Chunk>, ghost f: Forest,
                           ghost p: Path, ghost i: nat, ghost q: Path, ghost j: nat, ghost xs: Forest)
    returns (outcome: Outcome<()>, ghost ds: seq<Chunk>, ghost h: Forest)
    requires Holds(b, cs, f, p, i, node) && Holds(b, cs, f, q, j, fix) && p != q && Guides(f, q, 0, xs)
    requires Alike(xs, At(f, q).kids)
    modifies b.buf
    ensures match KidsWithin(f, p, q, 0, xs, delta)
            case Done(g) => outcome == Done(()) && h == g && Now(b, cs, ds, old(b.Strings()), f, h)
            case e => outcome == e.PropagateFailure()
    decreases xs, 3
  {
    hide Block, Rep, Put, Flatten, Before, After, Rewritten, Locates, Holds, Now, OnKid, Leads, At, KidsWithin, UpdateWithin, Guides;
    HoldsNow(b, cs, f, p, i, node);
    HoldsNow(b, cs, f, q, j, fix);
    ghost var st := b.Strings();
    ghost var left, n := xs, 0;
    ds, h := cs, f;
    AlikeTop(xs, At(f, q).kids);
    var found, offset;
    ghost var k, sub;
    found, offset, k := FirstKid(b, fix, cs, f, q, j);
    sub := At(f, q).kids;
    while found
      invariant b.Ordered() && Now(b, cs, ds, st, f, h) && Leads(h, p) && Guides(h, q, n, left)
      invariant Alike(left, sub) && (found <==> left.Tree?) && (left == xs || left < xs)
      invariant found ==> OnKid(b, ds, h, q, n, sub, k, offset)
      invariant KidsWithin(f, p, q, 0, xs, delta) == KidsWithin(h, p, q, n, left, delta)
      decreases left
    {
      outcome, ds, h, sub := UpdateKid(b, node, offset, delta, cs, ds, f, h, p, i, q, n, left, sub, k, st);
      if !outcome.Done? {
        return;
      }
      found, offset, k := NextKid(b, offset, ds, h, q, n, sub, k);
      AlikeTop(left, sub);
      left, sub, n := left.rest, sub.rest, n + 1;
      AlikeTop(left, sub);
    }
    NoKidsWithin(h, p, q, n, delta);
    outcome := Done(());
  }

  lemma NoKidsWithin(h: Forest, p: Path, q: Path, n: nat, delta: nat)
    requires Leads(h, p) && Guides(h, q, n, Empty)
    ensures KidsWithin(h, p, q, n, Empty, delta) == Done(h)
  {
  }

  /** One subnode of fix-ups, `left` at the beginning and `sub0` by now. */
  method UpdateKid(b: Blob, node: nat, offset: nat, delta: nat, ghost cs: seq<Chunk>, ghost ds0: seq<Chunk>, ghost f: Forest, ghost h0: Forest,
                   ghost p: Path, ghost i: nat, ghost q: Path, ghost n: nat, ghost left: Forest, ghost sub0: Forest, ghost k: nat, ghost st: seq<byte>)
    returns (outcome: Outcome<()>, ghost ds: seq<Chunk>, ghost h: Forest, ghost sub: Forest)
    requires p != q && left.Tree? && Alike(left, sub0) && Leads(h0, p) && Guides(h0, q, n, left)
    requires b.Ordered() && Now(b, cs, ds0, st, f, h0) && Locates(cs, st, f, p, i) && node == Offset(cs, i)
    requires OnKid(b, ds0, h0, q, n, sub0, k, offset)
    modifies b.buf
    ensures b.Ordered()
    ensures outcome.Done? ==>
              && Leads(h, p) && Guides(h, q, n + 1, left.rest) && sub.Tree? && Alike(left, sub)
              && Now(b, cs, ds, st, f, h) && OnKid(b, ds, h, q, n, sub, k, offset)
              && KidsWithin(h0, p, q, n, left, delta) == KidsWithin(h, p, q, n + 1, left.rest, delta)
    ensures !outcome.Done? ==>
              !KidsWithin(h0, p, q, n, left, delta).Done? && outcome == KidsWithin(h0, p, q, n, left, delta).PropagateFailure()
    decreases left, 2
  {
    hide Block, Rep, Put, Flatten, Before, After, Rewritten, Locates, Now, Holds, Leads, At, UpdateWithin, KidsWithin, FirstChild;
    NowRewritten(b, cs, ds0, st, f, h0);
    NowHolds(b, cs, ds0, st, f, h0, p, i, node);
    HoldsNow(b, ds0, h0, q + Child(n), k, offset);
    ds, h, sub := ds0, h0, sub0;
    AlikeTop(left, sub);
    OneKidWithin(h0, p, q, n, left, delta);
    var name := NodeName(b, offset, ds0, h0, q + Child(n), k);
    var status, child;
    ghost var j;
    status, child, j := FindNode(b, node, name, ds0, h0, p, i);
    if status != Ok {
      return BadOverlay, ds, h, sub;
    }
    ghost var m := FirstChild(At(h0, p).kids, left.name).value;
    ChildLeads(h0, p, left.name);
    OtherChildren(p, m, q, n);
    outcome, ds, h := UpdateNodeInPlace(b, child, offset, delta, ds0, h0, p + Child(m), j, q + Child(n), k, left);
    if outcome.Done? {
      NowRewritten(b, ds0, ds, st, h0, h);
      RewrittenAlike(ds0, ds, st, h0, h);
      NextGuides(h0, h, p, q, n, left);
      NowHolds(b, ds0, ds, st, h0, h, q + Child(n), k, offset);
      NowTwice(b, cs, ds0, ds, st, f, h0, h);
      AlikeLeads(h0, h, q);
      AlikeLeads(h0, h, q + Child(n));
      sub := At(h, q + Child(n));
      AlikeTransitive(left, sub0, sub);
    }
  }

  lemma OneKidWithin(h: Forest, p: Path, q: Path, n: nat, left: Forest, delta: nat)
    requires Leads(h, p) && Guides(h, q, n, left) && left.Tree?
    ensures match FirstChild(At(h, p).kids, left.name)
            case None => KidsWithin(h, p, q, n, left, delta) == BadOverlay
            case Some(m) =>
              && Leads(h, p + Child(m)) && Leads(h, q + Child(n)) && Alike(left, At(h, q + Child(n)))
              && match UpdateWithin(h, p + Child(m), q + Child(n), left, delta)
                 case Done(h1) =>
                   Leads(h1, p) && Guides(h1, q, n + 1, left.rest)
                   && KidsWithin(h, p, q, n, left, delta) == KidsWithin(h1, p, q, n + 1, left.rest, delta)
                 case e => KidsWithin(h, p, q, n, left, delta) == e
  {
    if FirstChild(At(h, p).kids, left.name).Some? {
      var m := FirstChild(At(h, p).kids, left.name).value;
      ChildLeads(h, p, left.name);
      if UpdateWithin(h, p + Child(m), q + Child(n), left, delta).Done? {
        NextGuides(h, UpdateWithin(h, p + Child(m), q + Child(n), left, delta).value, p, q, n, left);
      }
    }
  }

  // ---- The whole relocation ----

  /** `overlay_adjust_local_phandles` and `overlay_update_local_references` on a blob that holds the overlay `o`: it
      then holds the relocated overlay. */
  method RelocateInPlace(b: Blob, delta: nat, ghost cs: seq<Chunk>, ghost o: Forest, ghost i: nat)
    returns (outcome: Outcome<()>, ghost ds: seq<Chunk>, ghost h: Forest)
    requires o.Tree? && o.rest.Empty? && Holds(b, cs, o, [], i, 0) && delta < CELL
    modifies b.buf
    ensures match RelocateWithin(o, delta)
            case Done(r) => outcome == Done(()) && h == r && Now(b, cs, ds, old(b.Strings()), o, h) && Holds(b, ds, h, [], i, 0)
            case e => outcome == e.PropagateFailure()
  {
    hide Block, Rep, Flatten, Before, After, Rewritten, Locates, Holds, Now, AdjustProps, AdjustOne, Adjust, UpdateWithin, FirstChild;
    HoldsNow(b, cs, o, [], i, 0);
    ghost var st := b.Strings();
    AdjustOneFirst(o, delta);
    outcome, ds, h := AdjustNode(b, 0, delta, cs, o, [], i);
    if !outcome.Done? {
      return;
    }
    ghost var ds1, a := ds, h;
    NowHolds(b, cs, ds, st, o, a, [], i, 0);
    NowRewritten(b, cs, ds, st, o, a);
    var status, fixups;
    ghost var j;
    status, fixups, j := FindNode(b, 0, LOCAL_FIXUPS, ds, a, [], i);
    if status == Ok {
      ghost var m := FirstChild(a.kids, LOCAL_FIXUPS).value;
      SiblingLeads(a.kids, LOCAL_FIXUPS);
      RootIs(a, m);
      AlikeSelf(At(a, Child(m)));
      outcome, ds, h := UpdateNodeInPlace(b, 0, fixups, delta, ds, a, [], i, Child(m), j, At(a, Child(m)));
      if outcome.Done? {
        NowTwice(b, cs, ds1, ds, st, o, a, h);
        NowHolds(b, cs, ds, st, o, h, [], i, 0);
      }
    }
  }
}
