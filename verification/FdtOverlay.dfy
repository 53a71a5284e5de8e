/** `overlay_apply_node` of lib/utils/libfdt/fdt_overlay.c: what it does to the blob is the merge of two trees. */
module FdtOverlay {
  import opened Options
  import opened FdtFormat
  import opened FdtTree
  import opened FdtEdit
  import opened FdtCommute
  import opened FdtMerge
  import opened FdtTreeEdit
  import opened FdtVisit

  // ---- The room that it takes ----

  /** Copying these properties makes the base blob grow by at most so many bytes. */
  function PropsNeed(os: seq<FdtTree.Prop>): nat
    decreases |os|
  {
    if os == [] then 0 else PropMost(os[0].name, os[0].value) + PropsNeed(os[1..])
  }

  function PropMost(name: Name, value: seq<byte>): nat {
    12 + Align(|value|) + |name| + 1
  }

  function KidsNeed(os: Forest): nat {
    if os.Empty? then 0 else KidNeed(os) + KidsNeed(os.rest)
  }

  function KidNeed(o: Forest): nat
    requires o.Tree?
    decreases o, 0
  {
    NodeSize(o.name) + PropsNeed(o.props) + KidsNeed(o.kids)
  }

  function Need(o: Forest): nat
    requires o.Tree?
  {
    PropsNeed(o.props) + KidsNeed(o.kids)
  }

  /** An operation that can do with `need` bytes: with so much room it succeeds, and then it has used no more. */
  predicate Affords(status: Status, before: int, after: int, need: nat) {
    (need <= before ==> status == Ok) && (status == Ok ==> before - need <= after)
  }

  // ---- The code ----

  /** The loop of `overlay_apply_node` over the properties of the overlay's node. */
  method ApplyProps(b: Blob, target: nat, o: Blob, node: nat, ghost cs: seq<Chunk>, ghost f: Forest, ghost p: Path, ghost i: nat,
                    ghost co: seq<Chunk>, ghost fo: Forest, ghost po: Path, ghost io: nat)
    returns (status: Status, ghost ds: seq<Chunk>)
    requires Holds(b, cs, f, p, i, target) && Holds(o, co, fo, po, io, node) && b != o && b.buf != o.buf
    modifies b, b.buf
    ensures b.Ordered() && (status == Ok || status == NoSpace)
    ensures Affords(status, old(b.Room()), b.Room(), PropsNeed(At(fo, po).props))
    ensures status == Ok ==> EditedBehind(cs, old(b.Strings()), ds, b.Strings(), i)
    ensures status == Ok ==>
              var g := At(f, p);
              Holds(b, ds, Put(f, p, g.(props := MergeProps(g.props, At(fo, po).props))), p, i, target)
  {
    PutAt(f, p);
    ghost var ps, x := At(fo, po).props, Behind(At(fo, po), After(fo, po));
    var s, sto := o.buf[o.offStruct..o.offStruct + o.sizeStruct], o.buf[o.offStrings..o.offStrings + o.sizeStrings];
    NodeHere(co, sto, fo, po, io);
    TagAt(s, co, io);
    var head := ReadTag(s, node);
    status, ds := CopyProps(b, target, s, sto, head.next, ps, x, cs, f, p, i, co, io + 1);
  }

  /** ... whose blocks are `s` and `sto`, from behind the tag that begins the node. */
  method CopyProps(b: Blob, target: nat, s: seq<byte>, sto: seq<byte>, start: nat,
                   ghost ps: seq<FdtTree.Prop>, ghost x: seq<Event>,
                   ghost cs: seq<Chunk>, ghost f: Forest, ghost p: Path, ghost i: nat, ghost co: seq<Chunk>, ghost j: nat)
    returns (status: Status, ghost ds: seq<Chunk>)
    requires Holds(b, cs, f, p, i, target)
    requires Block(s, co) && j <= |co| && start == Offset(co, j) && Tail(co, j, sto, FlattenProps(ps) + x) && NotProp(x)
    modifies b, b.buf
    ensures b.Ordered() && (status == Ok || status == NoSpace)
    ensures Affords(status, old(b.Room()), b.Room(), PropsNeed(ps))
    ensures status == Ok ==> EditedBehind(cs, old(b.Strings()), ds, b.Strings(), i)
    ensures status == Ok ==>
              var g := At(f, p); Holds(b, ds, Put(f, p, g.(props := MergeProps(g.props, ps))), p, i, target)
  {
    hide Holds, Block, Offset, Merging, MergeProps, SetProps, NotProp, PropsNeed, PropMost, Put, Locates, Tail, At, Leads, IsName;
    NothingMerged(b, cs, f, p, i, target);
    ghost var g, st, room := At(f, p), b.Strings(), b.Room();
    ghost var done := g.props;
    assert ps[0..] == ps && g.(props := done) == g;
    status, ds := Ok, cs;
    MergeNoProps(g.props);
    var found, name, value, next: nat;
    ghost var n, k: nat := 0, j;
    found, name, value, next, k := VisitProp(s, sto, start, co, j, ps, x);
    while found
      invariant n <= |ps| && status == Ok && (found <==> n < |ps|)
      invariant found ==> name == ps[n].name && value == ps[n].value && IsName(name) && |value| < LONG
      invariant found ==> k <= |co| && next == Offset(co, k) && Tail(co, k, sto, FlattenProps(ps[n + 1..]) + x)
      invariant Merging(b, ds, f, p, i, target, g.(props := done), cs, st)
      invariant MergeProps(done, ps[n..]) == MergeProps(g.props, ps)
      invariant b.Ordered() && room - PropsNeed(ps) <= b.Room() - PropsNeed(ps[n..])
      decreases |ps| - n
    {
      NextProps(done, ps, n);
      status, ds := CopyProp(b, target, name, value, ds, f, p, i, g, done, cs, st);
      if status != Ok {
        return;
      }
      done := SetProps(done, name, value);
      n := n + 1;
      assert n < |ps| ==> ps[n..][0] == ps[n] && ps[n..][1..] == ps[n + 1..];
      found, name, value, next, k := VisitProp(s, sto, next, co, k, ps[n..], x);
    }
    assert ps[n..] == [];
    MergeNoProps(done);
    MergingIs(b, ds, f, p, i, target, g.(props := done), cs, st);
  }

  /** The blob holds the tree with `g` at the node, as an edit of the tags `cs` with `st`. */
  ghost predicate Merging(b: Blob, ds: seq<Chunk>, f: Forest, p: Path, i: nat, target: nat, g: Forest, cs: seq<Chunk>, st: seq<byte>)
    reads b, b.buf
  {
    && Leads(f, p) && g.Tree? && b.Ordered()
    && Holds(b, ds, Put(f, p, g), p, i, target) && EditedBehind(cs, st, ds, b.Strings(), i)
  }

  lemma NothingMerged(b: Blob, cs: seq<Chunk>, f: Forest, p: Path, i: nat, target: nat)
    requires Holds(b, cs, f, p, i, target)
    ensures Leads(f, p) && b.Ordered() && Merging(b, cs, f, p, i, target, At(f, p), cs, b.Strings())
  {
    PutAt(f, p);
  }

  lemma MergingIs(b: Blob, ds: seq<Chunk>, f: Forest, p: Path, i: nat, target: nat, g: Forest, cs: seq<Chunk>, st: seq<byte>)
    requires Merging(b, ds, f, p, i, target, g, cs, st) && Leads(f, p)
    ensures b.Ordered() && EditedBehind(cs, st, ds, b.Strings(), i) && Holds(b, ds, Put(f, p, g), p, i, target)
  {
  }

  /** One property. */
  method CopyProp(b: Blob, target: nat, name: Name, value: seq<byte>, ghost cs1: seq<Chunk>, ghost f: Forest, ghost p: Path, ghost i: nat,
                  ghost g: Forest, ghost done: seq<FdtTree.Prop>, ghost cs: seq<Chunk>, ghost st: seq<byte>)
    returns (status: Status, ghost ds: seq<Chunk>)
    requires g.Tree? && Merging(b, cs1, f, p, i, target, g.(props := done), cs, st) && IsName(name) && |value| < LONG
    modifies b, b.buf
    ensures b.Ordered() && (status == Ok || status == NoSpace)
    ensures Affords(status, old(b.Room()), b.Room(), PropMost(name, value))
    ensures status == Ok ==> Merging(b, ds, f, p, i, target, g.(props := SetProps(done, name, value)), cs, st)
  {
    ghost var h, st1 := g.(props := done), b.Strings();
    BeforePut(f, p, h);
    PutPut(f, p, h, g.(props := SetProps(done, name, value)));
    MostIsMost(done, st1, name, value);
    status, ds := SetProperty(b, target, name, value, cs1, Put(f, p, h), p, i);
    if status == Ok {
      EditTransitive(cs, st, cs1, st1, ds, b.Strings(), i, i);
    }
  }

  lemma NextProps(done: seq<FdtTree.Prop>, ps: seq<FdtTree.Prop>, n: nat)
    requires n < |ps|
    ensures MergeProps(SetProps(done, ps[n].name, ps[n].value), ps[n + 1..]) == MergeProps(done, ps[n..])
    ensures PropsNeed(ps[n..]) == PropMost(ps[n].name, ps[n].value) + PropsNeed(ps[n + 1..])
  {
    assert ps[n..][1..] == ps[n + 1..];
  }

  lemma MostIsMost(ps: seq<FdtTree.Prop>, st: seq<byte>, name: Name, value: seq<byte>)
    ensures PropNeed(ps, st, name, value) <= PropMost(name, value)
  {
  }

  lemma MergeNoProps(ps: seq<FdtTree.Prop>)
    ensures MergeProps(ps, []) == ps
  {
  }

  /** `overlay_apply_node`: the node of the overlay blob `o` is merged into the node at `target` of the base blob,
      whose offset stays. */
  method ApplyNode(b: Blob, target: nat, o: Blob, node: nat, ghost cs: seq<Chunk>, ghost f: Forest, ghost p: Path, ghost i: nat,
                   ghost co: seq<Chunk>, ghost fo: Forest, ghost po: Path, ghost io: nat)
    returns (status: Status, ghost ds: seq<Chunk>)
    requires Holds(b, cs, f, p, i, target) && Holds(o, co, fo, po, io, node) && b != o && b.buf != o.buf
    modifies b, b.buf
    ensures b.Ordered() && (status == Ok || status == NoSpace)
    ensures Affords(status, old(b.Room()), b.Room(), Need(At(fo, po)))
    ensures status == Ok ==> EditedBehind(cs, old(b.Strings()), ds, b.Strings(), i)
    ensures status == Ok ==> Holds(b, ds, Put(f, p, Merge(At(f, p), At(fo, po))), p, i, target)
    decreases At(fo, po), 1
  {
    ghost var st, g, on := b.Strings(), At(f, p), At(fo, po);
    status, ds := ApplyProps(b, target, o, node, cs, f, p, i, co, fo, po, io);
    if status != Ok {
      return;
    }
    g := g.(props := MergeProps(g.props, on.props));
    assert Merging(b, ds, f, p, i, target, g, cs, st);
    status, ds := ApplyKids(b, target, o, node, ds, f, p, i, g, cs, st, co, fo, po, io);
  }

  /** ... its loop over subnodes. */
  method ApplyKids(b: Blob, target: nat, o: Blob, node: nat, ghost cs1: seq<Chunk>, ghost f: Forest, ghost p: Path, ghost i: nat,
                   ghost g0: Forest, ghost cs: seq<Chunk>, ghost st: seq<byte>,
                   ghost co: seq<Chunk>, ghost fo: Forest, ghost po: Path, ghost io: nat)
    returns (status: Status, ghost ds: seq<Chunk>)
    requires g0.Tree? && Merging(b, cs1, f, p, i, target, g0, cs, st) && Holds(o, co, fo, po, io, node) && b != o && b.buf != o.buf
    modifies b, b.buf
    ensures b.Ordered() && (status == Ok || status == NoSpace)
    ensures Affords(status, old(b.Room()), b.Room(), KidsNeed(At(fo, po).kids))
    ensures status == Ok ==> Merging(b, ds, f, p, i, target, g0.(kids := MergeKids(g0.kids, At(fo, po).kids)), cs, st)
    decreases At(fo, po), 0
  {
    hide OnKid, Merging, MergeChild, MergeKids, KidNeed, KidsNeed, Holds, Put, At, Leads, Block, Locates;
    status, ds := Ok, cs1;
    HoldsLeads(o, co, fo, po, io, node);
    MergingOrdered(b, ds, f, p, i, target, g0, cs, st);
    ghost var g, on, room := g0, At(fo, po), b.Room();
    ghost var sub, m, kids := on.kids, 0, MergeKids(g.kids, on.kids);
    var found, subnode;
    ghost var k;
    found, subnode, k := FirstKid(o, node, co, fo, po, io);
    while found
      invariant b.Ordered() && (found <==> sub.Tree?) && status == Ok && sub < on
      invariant found ==> OnKid(o, co, fo, po, m, sub, k, subnode)
      invariant g.Tree? && g == g0.(kids := g.kids) && Merging(b, ds, f, p, i, target, g, cs, st)
      invariant MergeKids(g.kids, sub) == kids && room - KidsNeed(on.kids) <= b.Room() - KidsNeed(sub)
      decreases sub
    {
      NextKids(g.kids, sub);
      status, ds := MergeKid(b, target, o, subnode, ds, f, p, i, g, cs, st, co, fo, po, m, sub, k);
      if status != Ok {
        return;
      }
      g := g.(kids := MergeChild(g.kids, sub));
      found, subnode, k := NextKid(o, subnode, co, fo, po, m, sub, k);
      sub, m := sub.rest, m + 1;
    }
    NoKids(g.kids);
  }

  lemma NextKids(kids: Forest, sub: Forest)
    requires sub.Tree?
    ensures MergeKids(MergeChild(kids, sub), sub.rest) == MergeKids(kids, sub)
    ensures KidsNeed(sub) == KidNeed(sub) + KidsNeed(sub.rest)
  {
  }

  lemma NoKids(kids: Forest)
    ensures MergeKids(kids, Empty) == kids
  {
  }

  lemma HoldsLeads(o: Blob, co: seq<Chunk>, fo: Forest, po: Path, io: nat, node: nat)
    requires Holds(o, co, fo, po, io, node)
    ensures Leads(fo, po) && At(fo, po).kids < At(fo, po)
  {
  }

  lemma MergingOrdered(b: Blob, ds: seq<Chunk>, f: Forest, p: Path, i: nat, target: nat, g: Forest, cs: seq<Chunk>, st: seq<byte>)
    requires Merging(b, ds, f, p, i, target, g, cs, st)
    ensures b.Ordered()
  {
  }

  /** One turn of the loop of `overlay_apply_node` over subnodes, in an edit under way. */
  method MergeKid(b: Blob, target: nat, o: Blob, node: nat, ghost cs1: seq<Chunk>, ghost f: Forest, ghost p: Path, ghost i: nat,
                  ghost g: Forest, ghost cs: seq<Chunk>, ghost st: seq<byte>,
                  ghost co: seq<Chunk>, ghost fo: Forest, ghost po: Path, ghost m: nat, ghost sub: Forest, ghost k: nat)
    returns (status: Status, ghost ds: seq<Chunk>)
    requires g.Tree? && Merging(b, cs1, f, p, i, target, g, cs, st)
    requires sub.Tree? && OnKid(o, co, fo, po, m, sub, k, node) && b != o && b.buf != o.buf
    modifies b, b.buf
    ensures b.Ordered() && (status == Ok || status == NoSpace)
    ensures Affords(status, old(b.Room()), b.Room(), KidNeed(sub))
    ensures status == Ok ==> Merging(b, ds, f, p, i, target, g.(kids := MergeChild(g.kids, sub)), cs, st)
    decreases sub, 3
  {
    ghost var st1, h := b.Strings(), g.(kids := MergeChild(g.kids, sub));
    BeforePut(f, p, g);
    PutPut(f, p, g, h);
    hide Block, Locates, MergeChild, Merge;
    status, ds := ApplyChild(b, target, o, node, cs1, Put(f, p, g), p, i, co, fo, po + Child(m), k);
    if status == Ok {
      EditTransitive(cs, st, cs1, st1, ds, b.Strings(), i, i);
    }
  }

  /** ... from the node as it is. */
  method ApplyChild(b: Blob, target: nat, o: Blob, node: nat, ghost cs: seq<Chunk>, ghost f: Forest, ghost p: Path, ghost i: nat,
                    ghost co: seq<Chunk>, ghost fo: Forest, ghost po: Path, ghost io: nat)
    returns (status: Status, ghost ds: seq<Chunk>)
    requires Holds(b, cs, f, p, i, target) && Holds(o, co, fo, po, io, node) && b != o && b.buf != o.buf
    modifies b, b.buf
    ensures b.Ordered() && (status == Ok || status == NoSpace)
    ensures Affords(status, old(b.Room()), b.Room(), KidNeed(At(fo, po)))
    ensures status == Ok ==> EditedBehind(cs, old(b.Strings()), ds, b.Strings(), i)
    ensures status == Ok ==>
              var g := At(f, p); Holds(b, ds, Put(f, p, g.(kids := MergeChild(g.kids, At(fo, po)))), p, i, target)
    decreases At(fo, po), 2
  {
    hide Holds, Block, Locates, MergeChild, Merge, Put, At, Leads, Rep, EditedBehind;
    HoldsLeads(b, cs, f, p, i, target);
    HoldsLeads(o, co, fo, po, io, node);
    HoldsOrdered(b, cs, f, p, i, target);
    HoldsOrdered(o, co, fo, po, io, node);
    ghost var st, g, on := b.Strings(), At(f, p), At(fo, po);
    ghost var h := g.(kids := MergeChild(g.kids, on));
    var name := NodeName(o, node, co, fo, po, io);
    var nnode;
    ghost var cs1, f1, q, j;
    status, nnode, cs1, f1, q, j := TakeChild(b, target, name, cs, f, p, i, on);
    ds := cs1;
    if status != Ok {
      return;
    }
    ghost var st1 := b.Strings();
    status, ds := ApplyNode(b, nnode, o, node, cs1, f1, q, j, co, fo, po, io);
    if status == Ok {
      EditTransitive(cs, st, cs1, st1, ds, b.Strings(), i, j);
      BackToParent(b, cs, st, ds, f, p, i, h, target, q, j, nnode);
    }
  }

  lemma HoldsOrdered(b: Blob, cs: seq<Chunk>, f: Forest, p: Path, i: nat, node: nat)
    requires Holds(b, cs, f, p, i, node)
    ensures b.Ordered() && Locates(cs, b.Strings(), f, p, i) && node == Offset(cs, i)
  {
  }

  /** After an edit below the node `h` the blob holds it where it was. */
  lemma BackToParent(b: Blob, cs: seq<Chunk>, st: seq<byte>, ds: seq<Chunk>, f: Forest, p: Path, i: nat, h: Forest,
                     target: nat, q: Path, j: nat, nnode: nat)
    requires Locates(cs, st, f, p, i) && h.Tree? && target == Offset(cs, i)
    requires Holds(b, ds, Put(f, p, h), q, j, nnode) && EditedBehind(cs, st, ds, b.Strings(), i)
    ensures Holds(b, ds, Put(f, p, h), p, i, target)
  {
    StaysLocated(cs, st, ds, b.Strings(), f, p, i, h);
  }

  /** The child to merge into: the one that answers to the name, or a new one. `f1` is the tree then, and `q` the
      way to the child. */
  method TakeChild(b: Blob, target: nat, name: Name, ghost cs: seq<Chunk>, ghost f: Forest, ghost p: Path, ghost i: nat, ghost on: Forest)
    returns (status: Status, nnode: nat, ghost ds: seq<Chunk>, ghost f1: Forest, ghost q: Path, ghost j: nat)
    requires Holds(b, cs, f, p, i, target) && on.Tree? && name == on.name && IsName(name)
    modifies b, b.buf
    ensures b.Ordered() && (status == Ok || status == NoSpace)
    ensures Affords(status, old(b.Room()), b.Room(), NodeSize(name))
    ensures status == Ok ==> i < j && EditedBehind(cs, old(b.Strings()), ds, b.Strings(), i)
    ensures status == Ok ==>
              var g := At(f, p);
              && Holds(b, ds, f1, q, j, nnode)
              && Put(f1, q, Merge(At(f1, q), on)) == Put(f, p, g.(kids := MergeChild(g.kids, on)))
  {
    ghost var g := At(f, p);
    status, nnode, ds, j := AddNode(b, target, name, cs, f, p, i);
    f1, q := f, p + Child(0);
    if status == Exists {
      ghost var m := FirstChild(g.kids, name).value;
      status, nnode, j := FindNode(b, target, name, cs, f, p, i);
      ds, q := cs, p + Child(m);
      ChildMerged(f, p, g, m, on);
    } else if status == Ok {
      f1 := Put(f, p, g.(kids := Tree(name, [], Empty, g.kids)));
      NewChildMerged(f, p, g, on);
    }
  }

  /** Merging into the child that there is. */
  lemma ChildMerged(f: Forest, p: Path, g: Forest, m: nat, o: Forest)
    requires Leads(f, p) && g == At(f, p) && o.Tree? && FirstChild(g.kids, o.name) == Some(m)
    ensures Leads(f, p + Child(m))
    ensures Put(f, p + Child(m), Merge(At(f, p + Child(m)), o)) == Put(f, p, g.(kids := MergeChild(g.kids, o)))
  {
    SiblingLeads(g.kids, o.name);
    DownToKids(f, p, m);
    assert Child(m)[1..] == Right(m);
    PutLegs(f, p, Child(m), Merge(At(g.kids, Right(m)), o));
  }

  /** Merging into the child just made. */
  lemma NewChildMerged(f: Forest, p: Path, g: Forest, o: Forest)
    requires Leads(f, p) && g == At(f, p) && o.Tree? && FirstChild(g.kids, o.name) == None
    ensures var kid := Tree(o.name, [], Empty, g.kids);
            var f1 := Put(f, p, g.(kids := kid));
            && Leads(f1, p + Child(0)) && At(f1, p + Child(0)) == kid
            && Put(f1, p + Child(0), Merge(kid, o)) == Put(f, p, g.(kids := MergeChild(g.kids, o)))
  {
    var kid := Tree(o.name, [], Empty, g.kids);
    var h := g.(kids := kid);
    var f1 := Put(f, p, h);
    BeforePut(f, p, h);
    DownToKids(f1, p, 0);
    PutLegs(f1, p, Child(0), Merge(kid, o));
    PutPut(f, p, h, h.(kids := Merge(kid, o)));
  }
}
