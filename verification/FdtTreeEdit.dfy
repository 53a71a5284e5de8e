/**
 The editor of fdt_rw.c and fdt_wip.c seen from outside: a node of a tree at an offset, and what each
 operation makes of the tree.
 */
module FdtTreeEdit {
  import opened Options
  import opened FdtFormat
  import opened FdtTree
  import opened FdtEdit
  import opened FdtCommute

  /** The blob holds the tree `f`; its tags are `cs`, and tag number `i`, at offset `node`, begins the node at the
      end of the path. */
  ghost predicate Holds(b: Blob, cs: seq<Chunk>, f: Forest, p: Path, i: nat, node: nat)
    reads b, b.buf
  {
    b.Ordered() && Block(b.Struct(), cs) && Locates(cs, b.Strings(), f, p, i) && node == Offset(cs, i)
  }

  lemma HoldsDecodes(b: Blob, cs: seq<Chunk>, f: Forest, p: Path, i: nat, node: nat)
    requires Holds(b, cs, f, p, i, node)
    ensures Decode(b.Struct(), b.Strings()) == Some(Flatten(f))
  {
    BlockDecodes(b.Struct(), cs, b.Strings(), Flatten(f));
  }

  /** The tags `ds` with the strings `st'` are an edit of `cs` with `st` at or behind tag number `i`. */
  ghost predicate EditedBehind(cs: seq<Chunk>, st: seq<byte>, ds: seq<Chunk>, st': seq<byte>, i: nat) {
    i < |cs| && i < |ds| && ds[..i + 1] == cs[..i + 1] && st <= st'
  }

  /** After an edit behind its own tag a node is still where it was. */
  lemma StaysLocated(cs: seq<Chunk>, st: seq<byte>, ds: seq<Chunk>, st': seq<byte>, f: Forest, p: Path, i: nat, g: Forest)
    requires Locates(cs, st, f, p, i) && EditedBehind(cs, st, ds, st', i) && g.Tree?
    requires Rep(ds, st', Flatten(Put(f, p, g)))
    ensures Locates(ds, st', Put(f, p, g), p, i) && Offset(ds, i) == Offset(cs, i)
  {
    BeforePut(f, p, g);
    SpanIs(cs, 0, i, st, Before(f, p));
    RepMoreStrings(cs[0..i], st, st'[|st|..], Before(f, p));
    assert st + st'[|st|..] == st';
    assert ds[..i + 1][..i] == ds[..i] && cs[..i + 1][..i] == cs[..i];
    assert ds[..i + 1][i] == cs[..i + 1][i];
    assert ds[0..i] == cs[0..i];
    SpanIs(ds, 0, i, st', Before(f, p));
  }

  lemma EditTransitive(cs: seq<Chunk>, st: seq<byte>, ds: seq<Chunk>, st1: seq<byte>, es: seq<Chunk>, st2: seq<byte>, i: nat, j: nat)
    requires EditedBehind(cs, st, ds, st1, i) && EditedBehind(ds, st1, es, st2, j) && i <= j
    ensures EditedBehind(cs, st, es, st2, i)
  {
    assert es[..i + 1] == es[..j + 1][..i + 1] && ds[..i + 1] == ds[..j + 1][..i + 1];
  }

  lemma SplicedBehind(cs: seq<Chunk>, i: nat, j: nat, k: nat, mid: seq<Chunk>)
    requires i < j <= k <= |cs|
    ensures i < |cs[..j] + mid + cs[k..]| && (cs[..j] + mid + cs[k..])[..i + 1] == cs[..i + 1]
  {
  }

  /** How many bytes the blob grows by when a node with the properties `ps` gets this one; `st` are the strings. */
  ghost function PropNeed(ps: seq<FdtTree.Prop>, st: seq<byte>, name: seq<byte>, value: seq<byte>): int {
    var m := FirstProp(ps, name);
    if m < |ps| then Align(|value|) - Align(|ps[m].value|)
    else 12 + Align(|value|) + if Occurs(st, name) then 0 else |name| + 1
  }

  /** What the editor counts on the tags is what the tree says. */
  lemma SetCosts(cs: seq<Chunk>, st: seq<byte>, f: Forest, p: Path, i: nat, name: seq<byte>, value: seq<byte>, room: int)
    requires Locates(cs, st, f, p, i)
    ensures SetNeed(cs, i, st, name, value) == PropNeed(At(f, p).props, st, name, value)
    ensures SetStatus(cs, i, st, name, value, room) == if PropNeed(At(f, p).props, st, name, value) <= room then Ok else NoSpace
  {
    var g := At(f, p);
    var m := FirstProp(g.props, name);
    NodeHere(cs, st, f, p, i);
    PropLookup(cs, i + 1, st, g.props, Behind(g, After(f, p)), name);
    if m < |g.props| {
      ValueOf(cs[FindProp(cs, i + 1, st, name).index].token, st, name, g.props[m].value);
    }
  }

  lemma ValueOf(t: Token, st: seq<byte>, name: seq<byte>, value: seq<byte>)
    requires t.Prop? && Meaning(t, st) == Some([Property(name, value)])
    ensures t.value == value
  {
    assert [Property(name, value)][0].value == value;
  }

  /** `fdt_setprop`. */
  method SetProperty(b: Blob, node: nat, name: seq<byte>, value: seq<byte>, ghost cs: seq<Chunk>, ghost f: Forest, ghost p: Path, ghost i: nat)
    returns (status: Status, ghost ds: seq<Chunk>)
    requires Holds(b, cs, f, p, i, node) && IsName(name) && |value| < LONG
    modifies b, b.buf
    ensures b.Ordered()
    ensures var need := PropNeed(At(f, p).props, old(b.Strings()), name, value);
            && status == (if need <= old(b.Room()) then Ok else NoSpace)
            && b.Room() == old(b.Room()) - if status == Ok then need else 0
    ensures status == NoSpace ==> b.Struct() == old(b.Struct()) && b.Strings() == old(b.Strings())
    ensures status == NoSpace ==> Decode(b.Struct(), b.Strings()) == Some(Flatten(f))
    ensures status == Ok ==> EditedBehind(cs, old(b.Strings()), ds, b.Strings(), i)
    ensures status == Ok ==>
              var g := At(f, p); Holds(b, ds, Put(f, p, g.(props := SetProps(g.props, name, value))), p, i, node)
  {
    ghost var st := b.Strings();
    SetCosts(cs, st, f, p, i, name, value, b.Room());
    HoldsDecodes(b, cs, f, p, i, node);
    hide PropNeed, SetNeed, SetStatus, SetTags, Block, Rep, Put, SetProps, Locates;
    status, ds := b.SetProp(node, name, value, cs, i);
    if status == Ok {
      SetBehind(cs, i, st, ds, b.Strings(), name, value);
      SetPropTree(cs, st, f, p, i, ds, b.Strings(), name, value);
      StaysLocated(cs, st, ds, b.Strings(), f, p, i, At(f, p).(props := SetProps(At(f, p).props, name, value)));
    }
  }

  lemma SetBehind(cs: seq<Chunk>, i: nat, st: seq<byte>, ds: seq<Chunk>, st': seq<byte>, name: seq<byte>, value: seq<byte>)
    requires i < |cs| && SetTags(cs, i, st, ds, st', name, value)
    ensures EditedBehind(cs, st, ds, st', i)
  {
    var r := FindProp(cs, i + 1, st, name);
    if r.Place? {
      var k := r.index;
      var c: Chunk :| c.token == cs[k].token.(value := value) && ds == cs[..k] + [c] + cs[k + 1..];
      SplicedBehind(cs, i, k, k + 1, [c]);
    } else {
      var c: Chunk :| c.token.Prop? && c.token.value == value && StringAt(st', c.token.nameoff) == Some(name)
                      && ds == cs[..i + 1] + [c] + cs[i + 1..];
      SplicedBehind(cs, i, i + 1, i + 1, [c]);
    }
  }

  /** `fdt_delprop`. */
  method DeleteProperty(b: Blob, node: nat, name: seq<byte>, ghost cs: seq<Chunk>, ghost f: Forest, ghost p: Path, ghost i: nat)
    returns (status: Status, ghost ds: seq<Chunk>)
    requires Holds(b, cs, f, p, i, node)
    modifies b, b.buf
    ensures var g := At(f, p);
            var m := FirstProp(g.props, name);
            if m == |g.props| then status == NotFound && unchanged(b) && unchanged(b.buf)
            else status == Ok && Holds(b, ds, Put(f, p, g.(props := g.props[..m] + g.props[m + 1..])), p, i, node)
  {
    hide Block, Rep, Put, FindProp, FirstProp;
    ghost var st, g := b.Strings(), At(f, p);
    ghost var m := FirstProp(g.props, name);
    DelPropTree(cs, st, f, p, i, name);
    status := b.DelProp(node, name, cs, i);
    ds := cs;
    if status == Ok {
      ghost var k := FindProp(cs, i + 1, st, name).index;
      ds := cs[..k] + [] + cs[k + 1..];
      SplicedBehind(cs, i, k, k + 1, []);
      StaysLocated(cs, st, ds, st, f, p, i, g.(props := g.props[..m] + g.props[m + 1..]));
    }
  }

  /** `fdt_add_subnode`: the new node, and its parent still where it was. */
  method AddNode(b: Blob, parent: nat, name: seq<byte>, ghost cs: seq<Chunk>, ghost f: Forest, ghost p: Path, ghost i: nat)
    returns (status: Status, offset: nat, ghost ds: seq<Chunk>, ghost j: nat)
    requires Holds(b, cs, f, p, i, parent) && IsName(name)
    modifies b, b.buf
    ensures b.Ordered()
    ensures status == if FirstChild(At(f, p).kids, name).Some? then Exists else if NodeSize(name) <= old(b.Room()) then Ok else NoSpace
    ensures status == Ok ==> b.Room() == old(b.Room()) - NodeSize(name)
    ensures status != Ok ==> unchanged(b) && unchanged(b.buf)
    ensures status == Ok ==>
              var g := At(f, p);
              var f' := Put(f, p, g.(kids := Tree(name, [], Empty, g.kids)));
              && i < j && EditedBehind(cs, old(b.Strings()), ds, b.Strings(), i)
              && Holds(b, ds, f', p + Child(0), j, offset) && Holds(b, ds, f', p, i, parent)
  {
    ghost var st, g, c, e := b.Strings(), At(f, p), Chunk([], End), Chunk([], End);
    SubnodeTree(cs, st, f, p, i, name);
    ghost var n := AfterProps(cs, i + 1);
    status, offset, c, e := b.AddSubnode(parent, name, cs, i);
    j, ds := n, cs[..n] + [c, e] + cs[n..];
    if status == Ok {
      AddSubnodeTree(cs, st, f, p, i, name, c, e);
      SplicedBehind(cs, i, n, n, [c, e]);
      SplicedOffset(cs, n, n, [c, e]);
      StaysLocated(cs, st, ds, st, f, p, i, g.(kids := Tree(name, [], Empty, g.kids)));
    }
  }

  lemma SplicedOffset(cs: seq<Chunk>, j: nat, k: nat, mid: seq<Chunk>)
    requires j <= k <= |cs|
    ensures Offset(cs[..j] + mid + cs[k..], j) == Offset(cs, j)
  {
    assert (cs[..j] + mid + cs[k..])[..j] == cs[..j];
  }

  /** `fdt_subnode_offset`. */
  method FindNode(b: Blob, parent: nat, name: seq<byte>, ghost cs: seq<Chunk>, ghost f: Forest, ghost p: Path, ghost i: nat)
    returns (status: Status, offset: nat, ghost j: nat)
    requires Holds(b, cs, f, p, i, parent)
    ensures match FirstChild(At(f, p).kids, name)
            case None => status == NotFound
            case Some(m) => status == Ok && i < j && Holds(b, cs, f, p + Child(m), j, offset)
  {
    SubnodeTree(cs, b.Strings(), f, p, i, name);
    status, offset := SubnodeOffset(b.buf[b.offStruct..b.offStruct + b.sizeStruct], parent, name, cs, i);
    j := if FindSub(cs, i + 1, 0, name).Place? then FindSub(cs, i + 1, 0, name).index else i;
  }

  /** `fdt_del_node`: what is left is the tree without the node and all below it. */
  method DeleteNode(b: Blob, node: nat, ghost cs: seq<Chunk>, ghost f: Forest, ghost p: Path, ghost i: nat)
    requires Holds(b, cs, f, p, i, node)
    modifies b, b.buf
    ensures b.Ordered() && Decode(b.Struct(), b.Strings()) == Some(Flatten(Put(f, p, At(f, p).rest)))
  {
    DelNodeTree(cs, b.Strings(), f, p, i, []);
    ghost var k := Close(cs, i + 1, 0).value;
    var status := b.DelNode(node, cs, i);
    BlockDecodes(b.Struct(), cs[..i] + [] + cs[k..], b.Strings(), Flatten(Put(f, p, At(f, p).rest)));
  }

  /** `fdt_nop_node`: the tree that `fdt_del_node` leaves, while every tag outside the node keeps its offset. */
  method NopOutNode(b: Blob, node: nat, ghost cs: seq<Chunk>, ghost f: Forest, ghost p: Path, ghost i: nat)
    returns (ghost nops: seq<Chunk>, ghost k: nat)
    requires Holds(b, cs, f, p, i, node)
    modifies b.buf
    ensures b.Ordered() && Decode(b.Struct(), b.Strings()) == Some(Flatten(Put(f, p, At(f, p).rest)))
    ensures i < k <= |cs| && Block(b.Struct(), cs[..i] + nops + cs[k..])
    ensures forall m: nat :: m <= i ==> Offset(cs[..i] + nops + cs[k..], m) == Offset(cs, m)
    ensures forall m: nat :: k <= m <= |cs| ==> Offset(cs[..i] + nops + cs[k..], i + |nops| + (m - k)) == Offset(cs, m)
  {
    ghost var st := b.Strings();
    var status;
    DelNodeTree(cs, st, f, p, i, []);
    k := Close(cs, i + 1, 0).value;
    status, nops := b.NopNode(node, cs, i);
    DelNodeTree(cs, st, f, p, i, nops);
    BlockDecodes(b.Struct(), cs[..i] + nops + cs[k..], b.Strings(), Flatten(Put(f, p, At(f, p).rest)));
    OffsetsKept(cs, i, k, nops);
  }

  lemma OffsetsKept(cs: seq<Chunk>, i: nat, k: nat, nops: seq<Chunk>)
    requires i <= k <= |cs| && |Bytes(nops)| == Offset(cs, k) - Offset(cs, i)
    ensures forall m: nat :: m <= i ==> Offset(cs[..i] + nops + cs[k..], m) == Offset(cs, m)
    ensures forall m: nat :: k <= m <= |cs| ==> Offset(cs[..i] + nops + cs[k..], i + |nops| + (m - k)) == Offset(cs, m)
  {
    var ds := cs[..i] + nops + cs[k..];
    forall m: nat | m <= i ensures Offset(ds, m) == Offset(cs, m) {
      assert ds[..m] == cs[..m];
    }
    forall m: nat | k <= m <= |cs| ensures Offset(ds, i + |nops| + (m - k)) == Offset(cs, m) {
      assert ds[..i + |nops| + (m - k)] == cs[..i] + nops + cs[k..m];
      BytesOfThree(cs[..i], nops, cs[k..m]);
      assert cs[..m] == cs[..k] + cs[k..m];
      BytesAppend(cs[..k], cs[k..m]);
    }
  }
}
