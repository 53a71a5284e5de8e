/**
 The merge of an overlay into a base tree as lib/utils/libfdt/fdt_overlay.c performs it, and what it means: the
 overlay's properties win and everything that it does not mention stays, exactly when no name of the overlay is
 taken for another one by an omitted unit address.
 */
module FdtMerge {
  import opened Options
  import opened FdtFormat
  import opened FdtTree
  import opened FdtEdit
  import opened FdtCommute

  // ---- The merge that the code performs ----

  function MergeProps(ps: seq<FdtTree.Prop>, os: seq<FdtTree.Prop>): seq<FdtTree.Prop>
    decreases |os|
  {
    if os == [] then ps else MergeProps(SetProps(ps, os[0].name, os[0].value), os[1..])
  }

  /** The first node of `o` merged into the first node of `g`. */
  function Merge(g: Forest, o: Forest): (r: Forest)
    requires g.Tree? && o.Tree?
    ensures r.Tree? && r.name == g.name && r.rest == g.rest
    decreases o, 0
  {
    g.(props := MergeProps(g.props, o.props), kids := MergeKids(g.kids, o.kids))
  }

  /** The first node of `o` merged into the child of that name, which is made if there is none. */
  function MergeChild(kids: Forest, o: Forest): Forest
    requires o.Tree?
    decreases o, 1
  {
    match FirstChild(kids, o.name)
    case None => Merge(Tree(o.name, [], Empty, kids), o)
    case Some(m) =>
      SiblingLeads(kids, o.name);
      Put(kids, Right(m), Merge(At(kids, Right(m)), o))
  }

  function MergeKids(kids: Forest, os: Forest): Forest
    decreases os, 2
  {
    if os.Empty? then kids else MergeKids(MergeChild(kids, os), os.rest)
  }

  // ---- What the merge means ----

  datatype Body = Body(props: seq<FdtTree.Prop>, kids: Forest)

  /** What the first sibling of exactly that name has. */
  function Sibling(f: Forest, name: Name): Option<Body> {
    if f.Empty? then None
    else if f.name == name then Some(Body(f.props, f.kids))
    else Sibling(f.rest, name)
  }

  function PropValue(ps: seq<FdtTree.Prop>, name: Name): Option<seq<byte>> {
    var m := FirstProp(ps, name);
    if m < |ps| then Some(ps[m].value) else None
  }

  /** The value of a property of the node that the names lead to. */
  function Value(f: Forest, path: seq<Name>, prop: Name): Option<seq<byte>>
    requires path != []
    decreases |path|
  {
    match Sibling(f, path[0])
    case None => None
    case Some(b) => if |path| == 1 then PropValue(b.props, prop) else Value(b.kids, path[1..], prop)
  }

  predicate HasNode(f: Forest, path: seq<Name>)
    requires path != []
    decreases |path|
  {
    match Sibling(f, path[0])
    case None => false
    case Some(b) => |path| == 1 || HasNode(b.kids, path[1..])
  }

  /** The overlay names no sibling and no property of a node twice. */
  predicate Clear(o: Forest) {
    o.Tree? ==> Sibling(o.rest, o.name).None? && DistinctProps(o.props) && Clear(o.kids) && Clear(o.rest)
  }

  predicate DistinctProps(ps: seq<FdtTree.Prop>) {
    forall j, k :: 0 <= j < k < |ps| ==> ps[j].name != ps[k].name
  }

  lemma SetPropsValue(ps: seq<FdtTree.Prop>, name: Name, value: seq<byte>, n: Name)
    ensures PropValue(SetProps(ps, name, value), n) == if n == name then Some(value) else PropValue(ps, n)
  {
    var m, qs := FirstProp(ps, name), SetProps(ps, name, value);
    FirstIs(qs, n, if m == |ps| then (if n == name then 0 else FirstProp(ps, n) + 1) else FirstProp(ps, n));
  }

  lemma {:induction false} FirstIs(ps: seq<FdtTree.Prop>, n: Name, m: nat)
    requires m <= |ps| && (m < |ps| ==> ps[m].name == n) && forall k :: 0 <= k < m ==> ps[k].name != n
    ensures FirstProp(ps, n) == m
  {
  }

  /** The overlay's properties win, the others stay. */
  lemma {:induction false} MergePropsValue(ps: seq<FdtTree.Prop>, os: seq<FdtTree.Prop>, n: Name)
    requires DistinctProps(os)
    ensures PropValue(MergeProps(ps, os), n) == if PropValue(os, n).Some? then PropValue(os, n) else PropValue(ps, n)
    decreases |os|
  {
    if os != [] {
      MergePropsValue(SetProps(ps, os[0].name, os[0].value), os[1..], n);
      SetPropsValue(ps, os[0].name, os[0].value, n);
      if os[0].name == n {
        assert forall k :: 0 <= k < |os| - 1 ==> os[1..][k].name != n;
      } else {
        assert PropValue(os, n) == PropValue(os[1..], n);
      }
    }
  }

  /** What merging makes of a node, or of no node. */
  function MergeBody(base: Option<Body>, o: Body): Body {
    var b := base.Or(Body([], Empty));
    Body(MergeProps(b.props, o.props), MergeKids(b.kids, o.kids))
  }

  // ---- The names that fit ----

  /** The names of sibling nodes. */
  function TopNames(f: Forest): seq<Name> {
    if f.Empty? then [] else [f.name] + TopNames(f.rest)
  }

  /** The number of the first name that answers to `name`, or the length. */
  function Answering(ns: seq<Name>, name: Name): (m: nat)
    ensures m <= |ns| && (m < |ns| ==> NodeNameEq(ns[m], name))
    ensures forall k :: 0 <= k < m ==> !NodeNameEq(ns[k], name)
  {
    if ns == [] || NodeNameEq(ns[0], name) then 0 else Answering(ns[1..], name) + 1
  }

  /** For each sibling of the overlay in turn, the first child called `ns` or made before that answers to its name
      has exactly that name, or there is none. */
  predicate FitNames(ns: seq<Name>, os: Forest)
    decreases os
  {
    os.Tree? ==>
      var m := Answering(ns, os.name);
      if m == |ns| then FitNames([os.name] + ns, os.rest) else ns[m] == os.name && FitNames(ns, os.rest)
  }

  /** ... and so on in the children that the siblings are merged into. */
  predicate Fit(kids: Forest, os: Forest)
    decreases os, 1
  {
    FitNames(TopNames(kids), os) && FitBelow(kids, os)
  }

  predicate FitBelow(kids: Forest, os: Forest)
    decreases os, 0
  {
    os.Tree? ==> Fit(KidsOf(kids, os.name), os.kids) && FitBelow(kids, os.rest)
  }

  function KidsOf(kids: Forest, name: Name): Forest {
    Sibling(kids, name).Or(Body([], Empty)).kids
  }

  lemma {:induction false} FirstIsAnswering(kids: Forest, name: Name)
    ensures |TopNames(kids)| > 0 <==> kids.Tree?
    ensures FirstChild(kids, name) == (var m := Answering(TopNames(kids), name); if m == |TopNames(kids)| then None else Some(m))
    ensures FirstChild(kids, name).Some? ==>
              var m := FirstChild(kids, name).value; Leads(kids, Right(m)) && At(kids, Right(m)).name == TopNames(kids)[m]
    decreases kids
  {
    if kids.Tree? {
      assert TopNames(kids)[1..] == TopNames(kids.rest);
      FirstIsAnswering(kids.rest, name);
      if !NodeNameEq(kids.name, name) && FirstChild(kids.rest, name).Some? {
        assert Right(FirstChild(kids, name).value)[1..] == Right(FirstChild(kids.rest, name).value);
      }
    }
  }

  lemma SelfEq(name: Name)
    ensures NodeNameEq(name, name)
  {
    assert name[..|name|] == name;
  }

  /** The child found, if it has exactly the name, is the first of that name; and if none is found there is none. */
  lemma {:induction false} FirstChildIs(kids: Forest, name: Name)
    requires var ns := TopNames(kids); var m := Answering(ns, name); m < |ns| ==> ns[m] == name
    ensures FirstChild(kids, name).None? <==> Sibling(kids, name).None?
    ensures FirstChild(kids, name).Some? ==>
              var m := FirstChild(kids, name).value;
              && Leads(kids, Right(m)) && At(kids, Right(m)).name == name
              && Sibling(kids, name) == Some(Body(At(kids, Right(m)).props, At(kids, Right(m)).kids))
    decreases kids
  {
    if kids.Tree? {
      SelfEq(name);
      assert TopNames(kids)[1..] == TopNames(kids.rest);
      if kids.name != name {
        assert !NodeNameEq(kids.name, name);
        FirstChildIs(kids.rest, name);
        if FirstChild(kids.rest, name).Some? {
          assert Right(FirstChild(kids, name).value)[1..] == Right(FirstChild(kids.rest, name).value);
        }
      }
    }
  }

  /** Changing the node number `m` changes the first sibling of another name never, and that of its own name if it
      is the first. */
  lemma {:induction false} SiblingPut(kids: Forest, m: nat, g: Forest, n: Name)
    requires Leads(kids, Right(m)) && g.Tree? && g.name == At(kids, Right(m)).name && g.rest == At(kids, Right(m)).rest
    requires n == g.name ==> Answering(TopNames(kids), n) == m
    ensures Sibling(Put(kids, Right(m), g), n) == if n == g.name then Some(Body(g.props, g.kids)) else Sibling(kids, n)
    ensures TopNames(Put(kids, Right(m), g)) == TopNames(kids)
    decreases m
  {
    SelfEq(n);
    if m > 0 {
      assert Right(m)[1..] == Right(m - 1) && !Right(m)[0];
      assert TopNames(kids)[1..] == TopNames(kids.rest);
      if n == g.name {
        assert kids.name != n;
      }
      SiblingPut(kids.rest, m - 1, g, n);
    }
  }

  /** The names of the children after one sibling of the overlay. */
  lemma MergeChildNames(kids: Forest, o: Forest)
    requires o.Tree?
    ensures var ns := TopNames(kids);
            TopNames(MergeChild(kids, o)) == if Answering(ns, o.name) == |ns| then [o.name] + ns else ns
  {
    FirstIsAnswering(kids, o.name);
    match FirstChild(kids, o.name)
    case None =>
    case Some(m) =>
      var g := At(kids, Right(m));
      assert |g.name + [0]| != |g.name|;
      SiblingPut(kids, m, Merge(g, o), g.name + [0]);
  }

  /** One sibling of the overlay whose name fits. */
  lemma MergeChildSibling(kids: Forest, o: Forest, n: Name)
    requires o.Tree? && (var ns := TopNames(kids); var m := Answering(ns, o.name); m < |ns| ==> ns[m] == o.name)
    ensures Sibling(MergeChild(kids, o), n) ==
              if n == o.name then Some(MergeBody(Sibling(kids, n), Body(o.props, o.kids))) else Sibling(kids, n)
  {
    FirstChildIs(kids, o.name);
    FirstIsAnswering(kids, o.name);
    match FirstChild(kids, o.name)
    case None =>
    case Some(m) => SiblingPut(kids, m, Merge(At(kids, Right(m)), o), n);
  }

  /** Each child of the merged node is the child of the base, or the overlay's merged into it. */
  lemma {:induction false} MergeKidsSibling(kids: Forest, os: Forest, n: Name)
    requires FitNames(TopNames(kids), os) && Clear(os)
    ensures Sibling(MergeKids(kids, os), n) ==
              match Sibling(os, n)
              case None => Sibling(kids, n)
              case Some(o) => Some(MergeBody(Sibling(kids, n), o))
    decreases os
  {
    if os.Tree? {
      MergeChildSibling(kids, os, n);
      MergeChildNames(kids, os);
      MergeKidsSibling(MergeChild(kids, os), os.rest, n);
    }
  }

  lemma {:induction false} SiblingParts(f: Forest, n: Name)
    requires Sibling(f, n).Some?
    ensures Sibling(f, n).value.kids < f
    ensures Clear(f) ==> Clear(Sibling(f, n).value.kids) && DistinctProps(Sibling(f, n).value.props)
    decreases f
  {
    if f.name != n {
      SiblingParts(f.rest, n);
    }
  }

  lemma {:induction false} FitSibling(kids: Forest, os: Forest, n: Name)
    requires FitBelow(kids, os) && Sibling(os, n).Some?
    ensures Fit(KidsOf(kids, n), Sibling(os, n).value.kids)
    decreases os
  {
    if os.name != n {
      FitSibling(kids, os.rest, n);
    }
  }

  // ---- The merge is right when they fit ----

  /** A property that the overlay gives to a node has the overlay's value, every other property has the base's; and
      there are the nodes of both. */
  predicate RightAt(kids: Forest, os: Forest, path: seq<Name>, prop: Name)
    requires path != []
  {
    && Value(MergeKids(kids, os), path, prop) ==
         (if Value(os, path, prop).Some? then Value(os, path, prop) else Value(kids, path, prop))
    && (HasNode(MergeKids(kids, os), path) <==> HasNode(kids, path) || HasNode(os, path))
  }

  /** The overlay merge, read from outside. */
  lemma {:induction false} MergeMeaning(kids: Forest, os: Forest, path: seq<Name>, prop: Name)
    requires path != [] && Fit(kids, os) && Clear(os)
    ensures RightAt(kids, os, path, prop)
    decreases |path|
  {
    var n := path[0];
    MergeKidsSibling(kids, os, n);
    if Sibling(os, n).Some? {
      var o, b := Sibling(os, n).value, Sibling(kids, n).Or(Body([], Empty));
      SiblingParts(os, n);
      FitSibling(kids, os, n);
      if |path| == 1 {
        MergePropsValue(b.props, o.props, prop);
      } else {
        MergeMeaning(b.kids, o.kids, path[1..], prop);
        NothingInEmpty(path[1..], prop);
      }
    }
  }

  lemma NothingInEmpty(path: seq<Name>, prop: Name)
    requires path != []
    ensures Value(Empty, path, prop) == None && !HasNode(Empty, path)
  {
  }

  // ---- ... and only then ----

  /** The tree without its properties. */
  function Skeleton(f: Forest): Forest {
    if f.Empty? then Empty else Tree(f.name, [], Skeleton(f.kids), Skeleton(f.rest))
  }

  /** Nothing but names decides whether an overlay fits. */
  lemma {:induction false} FitNamesSkeleton(ns: seq<Name>, os: Forest)
    ensures FitNames(ns, os) <==> FitNames(ns, Skeleton(os))
    decreases os
  {
    if os.Tree? {
      FitNamesSkeleton(if Answering(ns, os.name) == |ns| then [os.name] + ns else ns, os.rest);
    }
  }

  lemma {:induction false} FitSkeleton(kids: Forest, os: Forest)
    ensures Fit(kids, os) <==> Fit(kids, Skeleton(os))
    decreases os, 1
  {
    FitNamesSkeleton(TopNames(kids), os);
    FitBelowSkeleton(kids, os);
  }

  lemma {:induction false} FitBelowSkeleton(kids: Forest, os: Forest)
    ensures FitBelow(kids, os) <==> FitBelow(kids, Skeleton(os))
    decreases os, 0
  {
    if os.Tree? {
      FitSkeleton(KidsOf(kids, os.name), os.kids);
      FitBelowSkeleton(kids, os.rest);
    }
  }

  /** The tree with one empty property, of the same name, in each node and no other. */
  function Marked(f: Forest, prop: Name): Forest {
    if f.Empty? then Empty else Tree(f.name, [FdtTree.Prop(prop, [])], Marked(f.kids, prop), Marked(f.rest, prop))
  }

  lemma {:induction false} MarkedIs(f: Forest, prop: Name)
    requires Clear(f)
    ensures Skeleton(Marked(f, prop)) == Skeleton(f) && Clear(Marked(f, prop))
    ensures forall n :: Sibling(Marked(f, prop), n).Some? <==> Sibling(f, n).Some?
    decreases f
  {
    if f.Tree? {
      MarkedIs(f.kids, prop);
      MarkedIs(f.rest, prop);
    }
  }

  lemma {:induction false} MarkedSibling(f: Forest, prop: Name, n: Name)
    requires Sibling(f, n).Some?
    ensures Sibling(Marked(f, prop), n) == Some(Body([FdtTree.Prop(prop, [])], Marked(Sibling(f, n).value.kids, prop)))
    decreases f
  {
    if f.name != n {
      MarkedSibling(f.rest, prop, n);
    }
  }

  /** A property name that no node of the tree uses. */
  predicate Lacks(f: Forest, prop: Name) {
    f.Tree? ==> PropValue(f.props, prop).None? && Lacks(f.kids, prop) && Lacks(f.rest, prop)
  }

  function LongestProp(ps: seq<FdtTree.Prop>): nat {
    if ps == [] then 0 else if |ps[0].name| > LongestProp(ps[1..]) then |ps[0].name| else LongestProp(ps[1..])
  }

  function Longest(f: Forest): nat {
    if f.Empty? then 0 else
      var a, b, c := LongestProp(f.props), Longest(f.kids), Longest(f.rest);
      if a >= b && a >= c then a else if b >= c then b else c
  }

  lemma {:induction false} LongNotProp(ps: seq<FdtTree.Prop>, prop: Name)
    requires |prop| > LongestProp(ps)
    ensures FirstProp(ps, prop) == |ps|
  {
    if ps != [] {
      LongNotProp(ps[1..], prop);
    }
  }

  lemma {:induction false} LongLacks(f: Forest, prop: Name)
    requires |prop| > Longest(f)
    ensures Lacks(f, prop)
    decreases f
  {
    if f.Tree? {
      LongNotProp(f.props, prop);
      LongLacks(f.kids, prop);
      LongLacks(f.rest, prop);
    }
  }

  lemma {:induction false} LacksSibling(f: Forest, prop: Name, n: Name)
    requires Lacks(f, prop)
    ensures Lacks(KidsOf(f, n), prop) && PropOf(f, n, prop) == None
    decreases f
  {
    if f.Tree? && f.name != n {
      LacksSibling(f.rest, prop, n);
    }
  }

  /** The property of the first sibling of that name. */
  function PropOf(f: Forest, n: Name, prop: Name): Option<seq<byte>> {
    match Sibling(f, n) case None => None case Some(b) => PropValue(b.props, prop)
  }

  /** No sibling of the overlay but its own changes a node whose name has no unit address. */
  lemma {:induction false} PlainUntouched(kids: Forest, os: Forest, n: Name)
    requires AT !in n && Sibling(os, n).None?
    ensures Sibling(MergeKids(kids, os), n) == Sibling(kids, n)
    decreases os
  {
    if os.Tree? {
      ForeignUntouched(kids, os, n);
      PlainUntouched(MergeChild(kids, os), os.rest, n);
    }
  }

  lemma ForeignUntouched(kids: Forest, o: Forest, n: Name)
    requires o.Tree? && AT !in n && o.name != n
    ensures Sibling(MergeChild(kids, o), n) == Sibling(kids, n)
  {
    FirstIsAnswering(kids, o.name);
    match FirstChild(kids, o.name)
    case None =>
    case Some(m) =>
      if At(kids, Right(m)).name == n {
        PlainAnswers(n, o.name);
      }
      SiblingPut(kids, m, Merge(At(kids, Right(m)), o), n);
  }

  /** A name without a unit address answers to itself alone. */
  lemma PlainAnswers(node: Name, name: Name)
    requires AT !in node && NodeNameEq(node, name)
    ensures node == name
  {
    assert forall k :: 0 <= k < |node| ==> node[k] != AT;
    assert node == node[..|node|];
  }

  /** A sibling of the overlay that is taken for another node: none of its properties comes to a node of its name. */
  lemma {:induction false} MisfitHere(kids: Forest, os: Forest, prop: Name) returns (n: Name)
    requires !FitNames(TopNames(kids), os) && Clear(os)
    requires forall n :: Sibling(os, n).Some? ==> PropOf(kids, n, prop).None?
    ensures Sibling(os, n).Some? && PropOf(MergeKids(kids, os), n, prop).None?
    decreases os
  {
    var ns := TopNames(kids);
    var m := Answering(ns, os.name);
    FirstIsAnswering(kids, os.name);
    if m < |ns| && ns[m] != os.name {
      n := os.name;
      assert AT !in n by {
        assert ns[m] == ns[m][..|ns[m]|];
      }
      SiblingPut(kids, m, Merge(At(kids, Right(m)), os), n);
      PlainUntouched(MergeChild(kids, os), os.rest, n);
    } else {
      var next := MergeChild(kids, os);
      MergeChildNames(kids, os);
      forall n | Sibling(os.rest, n).Some? ensures PropOf(next, n, prop).None? {
        assert n != os.name && Sibling(os, n) == Sibling(os.rest, n);
        MergeChildSibling(kids, os, n);
      }
      n := MisfitHere(next, os.rest, prop);
    }
  }

  lemma {:induction false} MisfitBelow(kids: Forest, os: Forest) returns (n: Name)
    requires !FitBelow(kids, os) && Clear(os)
    ensures Sibling(os, n).Some? && !Fit(KidsOf(kids, n), Sibling(os, n).value.kids)
    decreases os
  {
    n := os.name;
    if Fit(KidsOf(kids, n), os.kids) {
      n := MisfitBelow(kids, os.rest);
    }
  }

  /** Where an overlay does not fit, a property of it is lost. */
  lemma {:induction false} MisfitLoses(kids: Forest, os: Forest, prop: Name) returns (path: seq<Name>)
    requires !Fit(kids, os) && Clear(os) && Lacks(kids, prop)
    ensures path != [] && Value(Marked(os, prop), path, prop) == Some([])
    ensures Value(MergeKids(kids, Marked(os, prop)), path, prop) == None
    decreases os
  {
    var ms := Marked(os, prop);
    MarkedIs(os, prop);
    FitNamesSkeleton(TopNames(kids), os);
    FitNamesSkeleton(TopNames(kids), ms);
    if !FitNames(TopNames(kids), os) {
      forall n | Sibling(ms, n).Some? ensures PropOf(kids, n, prop).None? {
        LacksSibling(kids, prop, n);
      }
      var n := MisfitHere(kids, ms, prop);
      MarkedSibling(os, prop, n);
      path := [n];
    } else {
      var n := MisfitBelow(kids, os);
      SiblingParts(os, n);
      LacksSibling(kids, prop, n);
      MarkedSibling(os, prop, n);
      MergeKidsSibling(kids, ms, n);
      var below := MisfitLoses(KidsOf(kids, n), Sibling(os, n).value.kids, prop);
      path := [n] + below;
      assert path[1..] == below;
    }
  }

  ghost predicate MergesRight(kids: Forest, os: Forest) {
    forall path, prop :: path != [] ==> RightAt(kids, os, path, prop)
  }

  /** The overlay's names fit exactly when every overlay with these names, whatever its properties, is merged
      right. */
  lemma FitExactly(kids: Forest, os: Forest)
    requires Clear(os)
    ensures Fit(kids, os) <==> forall os' :: Skeleton(os') == Skeleton(os) && Clear(os') ==> MergesRight(kids, os')
  {
    if Fit(kids, os) {
      forall os' | Skeleton(os') == Skeleton(os) && Clear(os') ensures MergesRight(kids, os') {
        FitSkeleton(kids, os);
        FitSkeleton(kids, os');
        forall path, prop | path != [] ensures RightAt(kids, os', path, prop) {
          MergeMeaning(kids, os', path, prop);
        }
      }
    } else {
      var prop: Name := seq(Longest(kids) + 1, _ => 0x61);
      LongLacks(kids, prop);
      MarkedIs(os, prop);
      var path := MisfitLoses(kids, os, prop);
      assert !RightAt(kids, Marked(os, prop), path, prop);
    }
  }

  /** For example, the node "a" is merged into "a@1" and lost. */
  lemma OmittedAddressLosesNode()
    ensures var a: Name := [0x61];
            var kids, os := Tree(a + [AT, 0x31], [], Empty, Empty), Tree(a, [], Empty, Empty);
            !Fit(kids, os) && Clear(os) && HasNode(os, [a]) && !HasNode(MergeKids(kids, os), [a])
  {
    var a: Name := [0x61];
    var b := a + [AT, 0x31];
    var kids, os := Tree(b, [], Empty, Empty), Tree(a, [], Empty, Empty);
    assert b[..1] == a && b[1] == AT && |b| == 3;
    assert NodeNameEq(b, a) && TopNames(kids)[0] == b;
    assert FirstChild(kids, a) == Some(0);
    assert MergeChild(kids, os) == Merge(kids, os) && MergeKids(Empty, Empty) == Empty;
    assert MergeKids(kids, os) == MergeKids(MergeChild(kids, os), Empty);
  }
}
