/**
 The in-place editor of lib/utils/libfdt/fdt_rw.c, with the property lookup of fdt_ro.c that it uses, on a
 version 17 blob whose blocks are in order.
 */
module FdtEdit {
  import opened Options
  import opened FdtFormat
  import opened FdtMemory

  datatype Status = Ok | NoSpace | NotFound | Exists | BadOffset | BadStructure

  // ---- Structure blocks ----

  /** The block `s` is the tags `cs`, then FDT_END. */
  ghost predicate Block(s: seq<byte>, cs: seq<Chunk>) {
    && ChunksOk(cs) && Finish !in Tokens(cs) && SameBytes(s, 0, Bytes(cs))
    && forall e :: e == |Bytes(cs)| ==> EndsAt(s, e)
  }

  /** FDT_END stands at `e`. */
  predicate EndsAt(s: seq<byte>, e: nat) {
    NextTag(s, e).Found? && NextTag(s, e).token == Finish
  }

  /** The offset of tag number `i`. */
  function Offset(cs: seq<Chunk>, i: nat): nat
    requires i <= |cs|
  {
    |Bytes(cs[..i])|
  }

  lemma CutBytes(cs: seq<Chunk>, i: nat)
    requires i <= |cs|
    ensures Bytes(cs) == Bytes(cs[..i]) + Bytes(cs[i..])
    ensures i < |cs| ==> Bytes(cs[i..]) == cs[i].bytes + Bytes(cs[i + 1..])
    ensures i < |cs| ==> Offset(cs, i + 1) == Offset(cs, i) + |cs[i].bytes| <= |Bytes(cs)|
  {
    assert cs == cs[..i] + cs[i..];
    BytesAppend(cs[..i], cs[i..]);
    if i < |cs| {
      assert cs[i..][1..] == cs[i + 1..];
      assert cs[..i + 1] == cs[..i] + [cs[i]];
      BytesAppend(cs[..i], [cs[i]]);
      BytesOne(cs[i]);
    }
  }

  lemma PrefixOk(cs: seq<Chunk>, i: nat)
    requires ChunksOk(cs) && i <= |cs|
    ensures ChunksOk(cs[..i]) && Offset(cs, i) % 4 == 0
  {
    BytesAligned(cs[..i]);
  }

  /** `fdt_next_tag` at the offset of a tag gives that tag and the offset of the next. */
  lemma TagAt(s: seq<byte>, cs: seq<Chunk>, i: nat)
    requires Block(s, cs) && i <= |cs|
    ensures i < |cs| ==> NextTag(s, Offset(cs, i)) == Found(cs[i].token, Offset(cs, i + 1)) && cs[i].token != Finish
    ensures i == |cs| ==> NextTag(s, Offset(cs, i)).Found? && NextTag(s, Offset(cs, i)).token == Finish
    ensures Offset(cs, i) % 4 == 0
  {
    PrefixOk(cs, i);
    CutBytes(cs, i);
    if i < |cs| {
      SamePart(s, 0, Bytes(cs[..i]), Bytes(cs[i..]));
      SamePart(s, Offset(cs, i), cs[i].bytes, Bytes(cs[i + 1..]));
      TagStands(s, Offset(cs, i), cs[i].bytes, cs[i].token);
      assert Tokens(cs)[i] != Finish;
    } else {
      assert cs[..i] == cs;
      assert EndsAt(s, |Bytes(cs)|);
    }
  }

  lemma SplicedBytes(a: seq<byte>, x: seq<byte>, b: seq<byte>, tail: seq<byte>, y: seq<byte>)
    ensures Spliced(a + x + b + tail, |a|, |a + x|, y) == a + y + b + tail
  {
    assert (a + x + b + tail)[..|a|] == a && (a + x + b + tail)[|a + x|..] == b + tail;
  }

  lemma BytesOfThree(a: seq<Chunk>, x: seq<Chunk>, b: seq<Chunk>)
    ensures Bytes(a + x + b) == Bytes(a) + Bytes(x) + Bytes(b)
  {
    BytesAppend(a + x, b);
    BytesAppend(a, x);
  }

  lemma NoBytes()
    ensures Bytes([]) == [] && ChunksOk([]) && Tokens([]) == []
  {
  }

  lemma BlockTail(s: seq<byte>, cs: seq<Chunk>) returns (tail: seq<byte>)
    requires Block(s, cs)
    ensures s == Bytes(cs) + tail && |tail| >= 4 && IsTag(tail[..4], Finish)
  {
    var e := |Bytes(cs)|;
    assert EndsAt(s, e);
    tail := s[e..];
    SameIsSlice(s, 0, Bytes(cs));
    BytesAligned(cs);
    TagIsStretch(s, e);
    assert s[e..e + 4] == tail[..4];
  }

  lemma BlockFrom(cs: seq<Chunk>, tail: seq<byte>)
    requires ChunksOk(cs) && Finish !in Tokens(cs) && |tail| >= 4 && IsTag(tail[..4], Finish)
    ensures Block(Bytes(cs) + tail, cs)
  {
    BytesAligned(cs);
    TagStands(Bytes(cs) + tail, |Bytes(cs)|, tail[..4], Finish);
  }

  lemma ChunksOfThree(cs: seq<Chunk>, i: nat, k: nat, mid: seq<Chunk>)
    requires i <= k <= |cs| && ChunksOk(cs) && ChunksOk(mid) && Finish !in Tokens(cs) && Finish !in Tokens(mid)
    ensures ChunksOk(cs[..i] + mid + cs[k..]) && Finish !in Tokens(cs[..i] + mid + cs[k..])
  {
    var ds := cs[..i] + mid + cs[k..];
    forall j | 0 <= j < |ds| ensures IsTag(ds[j].bytes, ds[j].token) && ds[j].token != Finish {
      if j < i {
        assert ds[j] == cs[j] && Tokens(cs)[j] != Finish;
      } else if j < i + |mid| {
        assert ds[j] == mid[j - i] && Tokens(mid)[j - i] != Finish;
      } else {
        var m := k + (j - i - |mid|);
        assert ds[j] == cs[m] && Tokens(cs)[m] != Finish;
      }
    }
  }

  /** Other tags in place of the tags from `i` to `k`: the rest of the block is read as before. */
  lemma SplicedBlock(s: seq<byte>, cs: seq<Chunk>, i: nat, k: nat, mid: seq<Chunk>)
    requires Block(s, cs) && i <= k <= |cs| && ChunksOk(mid) && Finish !in Tokens(mid)
    ensures Offset(cs, i) <= Offset(cs, k) <= |s|
    ensures Block(Spliced(s, Offset(cs, i), Offset(cs, k), Bytes(mid)), cs[..i] + mid + cs[k..])
  {
    var tail := BlockTail(s, cs);
    assert cs[..k] == cs[..i] + cs[i..k] && cs == cs[..i] + cs[i..k] + cs[k..];
    BytesAppend(cs[..i], cs[i..k]);
    BytesOfThree(cs[..i], cs[i..k], cs[k..]);
    BytesOfThree(cs[..i], mid, cs[k..]);
    SplicedBytes(Bytes(cs[..i]), Bytes(cs[i..k]), Bytes(cs[k..]), tail, Bytes(mid));
    ChunksOfThree(cs, i, k, mid);
    BlockFrom(cs[..i] + mid + cs[k..], tail);
  }

  // ---- Property lookup ----

  datatype Search = Place(index: nat) | Missing | Malformed

  /** The property called `name` among the tags from `j` on, up to the first tag that is neither a property nor
      FDT_NOP: where `fdt_get_property_namelen_` stops. */
  function FindProp(cs: seq<Chunk>, j: nat, st: seq<byte>, name: seq<byte>): (r: Search)
    requires j <= |cs|
    ensures r.Place? ==> j <= r.index < |cs| && cs[r.index].token.Prop?
    decreases |cs| - j
  {
    if j == |cs| then Malformed
    else match cs[j].token
      case Prop(nameoff, _) => if StringAt(st, nameoff) == Some(name) then Place(j) else FindProp(cs, j + 1, st, name)
      case Nop => FindProp(cs, j + 1, st, name)
      case _ => Missing
  }

  /** What `fdt_get_property` answers for the node whose tag is number `i`. */
  function PropStatus(cs: seq<Chunk>, i: nat, st: seq<byte>, name: seq<byte>): Status
    requires i < |cs|
  {
    if !cs[i].token.Begin? then BadOffset
    else match FindProp(cs, i + 1, st, name)
      case Place(_) => Ok
      case Missing => NotFound
      case Malformed => Status.BadStructure
  }

  lemma PropTagSize(b: seq<byte>, t: Token)
    requires IsTag(b, t) && t.Prop?
    ensures |b| == 12 + Align(|t.value|) && |t.value| < LONG
  {
    CellBound(b, 4);
    AlignShift(12, |t.value|);
  }

  lemma PropSize(s: seq<byte>, cs: seq<Chunk>, k: nat)
    requires Block(s, cs) && k < |cs| && cs[k].token.Prop?
    ensures |cs[k].bytes| == 12 + Align(|cs[k].token.value|)
    ensures Offset(cs, k + 1) == Offset(cs, k) + 12 + Align(|cs[k].token.value|) <= |s|
  {
    PropTagSize(cs[k].bytes, cs[k].token);
    CutBytes(cs, k);
  }

  lemma InBlock(s: seq<byte>, cs: seq<Chunk>, i: nat)
    requires Block(s, cs) && i <= |cs|
    ensures Offset(cs, i) <= |s|
  {
    CutBytes(cs, i);
  }

  /** `nextprop_` and its callers: the offset of the property, from the offset behind the node's tag. */
  method GetProperty(s: seq<byte>, st: seq<byte>, start: nat, name: seq<byte>, ghost cs: seq<Chunk>, ghost i: nat)
    returns (status: Status, offset: nat, nameoff: nat, len: nat)
    requires Block(s, cs) && i <= |cs| && start == Offset(cs, i)
    ensures match FindProp(cs, i, st, name)
            case Place(k) => status == Ok && offset == Offset(cs, k)
                             && nameoff == cs[k].token.nameoff && len == |cs[k].token.value|
            case Missing => status == NotFound
            case Malformed => status == Status.BadStructure
  {
    offset, nameoff, len := start, 0, 0;
    ghost var j := i;
    TagAt(s, cs, j);
    var tag := ReadTag(s, offset);
    while tag.token != Finish && (tag.token.Prop? || tag.token.Nop?)
      invariant i <= j <= |cs| && offset == Offset(cs, j) && tag == NextTag(s, offset) && tag.Found?
      invariant j < |cs| ==> tag == Found(cs[j].token, Offset(cs, j + 1)) && tag.token != Finish
      invariant j == |cs| ==> tag.token == Finish
      invariant FindProp(cs, j, st, name) == FindProp(cs, i, st, name)
      decreases |cs| - j
    {
      if tag.token.Prop? && StringAt(st, tag.token.nameoff) == Some(name) {
        return Ok, offset, tag.token.nameoff, |tag.token.value|;
      }
      offset, j := tag.next, j + 1;
      TagAt(s, cs, j);
      tag := ReadTag(s, offset);
    }
    status := if tag.token == Finish then Status.BadStructure else NotFound;
  }

  /** The first tag from `j` on that is not FDT_NOP, if it is a property. */
  function NextPropTag(cs: seq<Chunk>, j: nat): (r: Search)
    requires j <= |cs|
    ensures r.Place? ==> j <= r.index < |cs| && cs[r.index].token.Prop?
    decreases |cs| - j
  {
    if j == |cs| then Malformed
    else match cs[j].token
      case Prop(_, _) => Place(j)
      case Nop => NextPropTag(cs, j + 1)
      case _ => Missing
  }

  /** `nextprop_`, with the tag that `fdt_getprop_by_offset` then reads. */
  method NextProperty(s: seq<byte>, start: nat, ghost cs: seq<Chunk>, ghost i: nat)
    returns (status: Status, tag: Scan)
    requires Block(s, cs) && i <= |cs| && start == Offset(cs, i)
    ensures match NextPropTag(cs, i)
            case Place(k) => status == Ok && tag == Found(cs[k].token, Offset(cs, k + 1))
            case Missing => status == NotFound
            case Malformed => status == Status.BadStructure
  {
    ghost var j := i;
    TagAt(s, cs, j);
    tag := ReadTag(s, start);
    while tag.token.Nop?
      invariant i <= j <= |cs| && tag.Found? && NextPropTag(cs, j) == NextPropTag(cs, i)
      invariant j < |cs| ==> tag == Found(cs[j].token, Offset(cs, j + 1)) && tag.token != Finish
      invariant j == |cs| ==> tag.token == Finish
      decreases |cs| - j
    {
      j := j + 1;
      TagAt(s, cs, j);
      tag := ReadTag(s, tag.next);
    }
    status := if tag.token.Prop? then Ok else if tag.token.Finish? then Status.BadStructure else NotFound;
  }

  // ---- Node iteration ----

  /** `fdt_nodename_eq_`: a name without a unit address also matches with one. */
  predicate NodeNameEq(node: seq<byte>, name: seq<byte>) {
    && |name| <= |node| && node[..|name|] == name
    && (|node| == |name| || (AT !in name && node[|name|] == AT))
  }

  /** The character '@'. */
  const AT: byte := 0x40

  /** The first tag from `j` on that is neither a property nor FDT_NOP. */
  function AfterProps(cs: seq<Chunk>, j: nat): (k: nat)
    requires j <= |cs|
    ensures j <= k <= |cs|
    decreases |cs| - j
  {
    if j < |cs| && (cs[j].token.Prop? || cs[j].token.Nop?) then AfterProps(cs, j + 1) else j
  }

  /** The child called `name`, looked for from tag `j` on at depth `d` below the node. */
  function FindSub(cs: seq<Chunk>, j: nat, d: nat, name: seq<byte>): (r: Search)
    requires j <= |cs|
    ensures !r.Malformed? && (r.Place? ==> j <= r.index < |cs| && cs[r.index].token.Begin?)
    decreases |cs| - j
  {
    if j == |cs| then Missing
    else match cs[j].token
      case Begin(n) => if d == 0 && NodeNameEq(n, name) then Place(j) else FindSub(cs, j + 1, d + 1, name)
      case End => if d == 0 then Missing else FindSub(cs, j + 1, d - 1, name)
      case _ => FindSub(cs, j + 1, d, name)
  }

  lemma SubHere(cs: seq<Chunk>, j: nat, d: nat, name: seq<byte>)
    requires j < |cs| && cs[j].token.Begin?
    ensures FindSub(cs, j, d, name) ==
              if d == 0 && NodeNameEq(cs[j].token.name, name) then Place(j) else FindSub(cs, j + 1, d + 1, name)
  {
  }

  /** The next child, whatever its name, looked for from tag `j` on at depth `d` below the node. */
  function NextSub(cs: seq<Chunk>, j: nat, d: nat): (r: Option<nat>)
    requires j <= |cs|
    ensures r.Some? ==> j <= r.value < |cs| && cs[r.value].token.Begin?
    decreases |cs| - j
  {
    if j == |cs| then None
    else match cs[j].token
      case Begin(_) => if d == 0 then Some(j) else NextSub(cs, j + 1, d + 1)
      case End => if d == 0 then None else NextSub(cs, j + 1, d - 1)
      case _ => NextSub(cs, j + 1, d)
  }

  /** The tag behind the one that closes depth `d`, looked for from tag `j` on. */
  function Close(cs: seq<Chunk>, j: nat, d: nat): (r: Option<nat>)
    requires j <= |cs|
    ensures r.Some? ==> j < r.value <= |cs|
    decreases |cs| - j
  {
    if j == |cs| then None
    else match cs[j].token
      case Begin(_) => Close(cs, j + 1, d + 1)
      case End => if d == 0 then Some(j + 1) else Close(cs, j + 1, d - 1)
      case _ => Close(cs, j + 1, d)
  }

  /** `fdt_next_node` from behind the tag before `start`: the offset of the next FDT_BEGIN_NODE, or the one behind
      the FDT_END_NODE that takes the depth below zero. */
  method NextNode(s: seq<byte>, start: nat, depth: int, ghost cs: seq<Chunk>, ghost i: nat)
    returns (found: bool, offset: nat, next: nat, below: int, ghost j: nat)
    requires Block(s, cs) && i <= |cs| && start == Offset(cs, i) && depth >= 0
    ensures i <= j <= |cs| && -1 <= below <= depth + 1
    ensures found && below >= 0 ==>
              j < |cs| && cs[j].token.Begin? && offset == Offset(cs, j) && next == Offset(cs, j + 1) && below > 0
              && (forall name :: FindSub(cs, i, depth, name) == FindSub(cs, j, below - 1, name))
              && Close(cs, i, depth) == Close(cs, j, below - 1) && NextSub(cs, i, depth) == NextSub(cs, j, below - 1)
    ensures found && below < 0 ==>
              offset == Offset(cs, j) && Close(cs, i, depth) == Some(j) && NextSub(cs, i, depth) == None
              && forall name :: FindSub(cs, i, depth, name) == Missing
    ensures !found ==>
              Close(cs, i, depth) == None && NextSub(cs, i, depth) == None
              && forall name :: FindSub(cs, i, depth, name) == Missing
  {
    hide Block, Offset, NextTag, NodeNameEq;
    offset, below, j := start, depth, i;
    TagAt(s, cs, j);
    var tag := ReadTag(s, offset);
    next := tag.next;
    while tag.token != Finish && !tag.token.Begin?
      invariant i <= j <= |cs| && offset == Offset(cs, j) && tag == NextTag(s, offset) && tag.Found? && next == tag.next
      invariant j < |cs| ==> tag == Found(cs[j].token, Offset(cs, j + 1)) && tag.token != Finish
      invariant j == |cs| ==> tag.token == Finish
      invariant 0 <= below <= depth
      invariant forall name :: FindSub(cs, i, depth, name) == FindSub(cs, j, below, name)
      invariant Close(cs, i, depth) == Close(cs, j, below) && NextSub(cs, i, depth) == NextSub(cs, j, below)
      decreases |cs| - j
    {
      offset, j := tag.next, j + 1;
      if tag.token.End? {
        below := below - 1;
        if below < 0 {
          return true, offset, next, below, j;
        }
      }
      TagAt(s, cs, j);
      tag := ReadTag(s, offset);
      next := tag.next;
    }
    found := tag.token.Begin?;
    if found {
      below := below + 1;
    }
  }

  /** `fdt_first_subnode`. */
  method FirstSubnode(s: seq<byte>, node: nat, ghost cs: seq<Chunk>, ghost i: nat)
    returns (found: bool, offset: nat)
    requires Block(s, cs) && i < |cs| && node == Offset(cs, i) && cs[i].token.Begin?
    ensures found <==> NextSub(cs, i + 1, 0).Some?
    ensures found ==> offset == Offset(cs, NextSub(cs, i + 1, 0).value)
  {
    TagAt(s, cs, i);
    var tag := ReadTag(s, node);
    hide Block, NextTag, Offset;
    var next, depth;
    ghost var j;
    found, offset, next, depth, j := NextNode(s, tag.next, 0, cs, i + 1);
    if found && depth != 1 {
      assert depth < 0;
      found := false;
    }
  }

  /** `fdt_next_subnode`. */
  method NextSubnode(s: seq<byte>, node: nat, ghost cs: seq<Chunk>, ghost i: nat)
    returns (found: bool, offset: nat)
    requires Block(s, cs) && i < |cs| && node == Offset(cs, i) && cs[i].token.Begin?
    ensures found <==> NextSub(cs, i + 1, 1).Some?
    ensures found ==> offset == Offset(cs, NextSub(cs, i + 1, 1).value)
  {
    TagAt(s, cs, i);
    var tag := ReadTag(s, node);
    hide Block, NextTag, Offset;
    var next, depth;
    ghost var j;
    found, offset, next, depth, j := NextNode(s, tag.next, 1, cs, i + 1);
    while found && depth > 1
      invariant i < j <= |cs|
      invariant found && depth >= 0 ==>
                  j < |cs| && cs[j].token.Begin? && offset == Offset(cs, j) && next == Offset(cs, j + 1) && depth > 0
                  && NextSub(cs, i + 1, 1) == NextSub(cs, j, depth - 1)
      invariant !found || depth < 0 ==> NextSub(cs, i + 1, 1) == None
      decreases |cs| - j, if found then 1 else 0
    {
      found, offset, next, depth, j := NextNode(s, next, depth, cs, j + 1);
    }
    if depth < 1 {
      found := false;
    }
  }

  /** `fdt_subnode_offset_namelen`. */
  method SubnodeOffset(s: seq<byte>, node: nat, name: seq<byte>, ghost cs: seq<Chunk>, ghost i: nat)
    returns (status: Status, offset: nat)
    requires Block(s, cs) && i < |cs| && node == Offset(cs, i)
    ensures if !cs[i].token.Begin? then status == BadOffset
            else match FindSub(cs, i + 1, 0, name)
              case Place(k) => status == Ok && offset == Offset(cs, k)
              case _ => status == NotFound
  {
    hide Block, NextTag, Offset, NodeNameEq, FindSub;
    TagAt(s, cs, i);
    var tag := ReadTag(s, node);
    offset := node;
    if !tag.token.Begin? {
      return BadOffset, offset;
    }
    var found, next, depth;
    ghost var j;
    found, offset, next, depth, j := NextNode(s, tag.next, 0, cs, i + 1);
    while found && depth >= 0
      invariant i < j <= |cs|
      invariant found && depth >= 0 ==>
                  j < |cs| && cs[j].token.Begin? && offset == Offset(cs, j) && next == Offset(cs, j + 1) && depth > 0
                  && FindSub(cs, i + 1, 0, name) == FindSub(cs, j, depth - 1, name)
      invariant !found || depth < 0 ==> FindSub(cs, i + 1, 0, name) == Missing
      decreases |cs| - j, if found && depth >= 0 then 1 else 0
    {
      TagAt(s, cs, j);
      tag := ReadTag(s, offset);
      SubHere(cs, j, depth - 1, name);
      if depth == 1 && NodeNameEq(tag.token.name, name) {
        return Ok, offset;
      }
      found, offset, next, depth, j := NextNode(s, next, depth, cs, j + 1);
    }
    status := NotFound;
  }

  /** `fdt_node_end_offset_`. */
  method NodeEnd(s: seq<byte>, node: nat, ghost cs: seq<Chunk>, ghost i: nat) returns (status: Status, offset: nat)
    requires Block(s, cs) && i < |cs| && node == Offset(cs, i)
    ensures if !cs[i].token.Begin? then status == BadOffset
            else match Close(cs, i + 1, 0)
              case Some(k) => status == Ok && offset == Offset(cs, k)
              case None => status == NotFound
  {
    TagAt(s, cs, i);
    var tag := ReadTag(s, node);
    offset := node;
    if !tag.token.Begin? {
      return BadOffset, offset;
    }
    var found, next, depth;
    ghost var j;
    found, offset, next, depth, j := NextNode(s, tag.next, 0, cs, i + 1);
    while found && depth >= 0
      invariant i < j <= |cs|
      invariant found && depth >= 0 ==>
                  j < |cs| && cs[j].token.Begin? && next == Offset(cs, j + 1) && depth > 0
                  && Close(cs, i + 1, 0) == Close(cs, j, depth - 1)
      invariant found && depth < 0 ==> offset == Offset(cs, j) && Close(cs, i + 1, 0) == Some(j)
      invariant !found ==> Close(cs, i + 1, 0) == None
      decreases |cs| - j, if found && depth >= 0 then 1 else 0
    {
      found, offset, next, depth, j := NextNode(s, next, depth, cs, j + 1);
    }
    status := if found then Ok else NotFound;
  }

  /** What `fdt_node_end_offset_` answers for the node whose tag is number `i`. */
  function NodeStatus(cs: seq<Chunk>, i: nat): Status
    requires i < |cs|
  {
    if !cs[i].token.Begin? then BadOffset else if Close(cs, i + 1, 0).Some? then Ok else NotFound
  }

  /** So many FDT_NOP tags. */
  function Nops(n: nat): (cs: seq<Chunk>)
    ensures |cs| == n
  {
    if n == 0 then [] else Nops(n - 1) + [Chunk(ToCell(FDT_NOP), Token.Nop)]
  }

  lemma MoreNops(n: nat)
    ensures Bytes(Nops(n + 1)) == Bytes(Nops(n)) + ToCell(FDT_NOP)
  {
    BytesAppend(Nops(n), [Chunk(ToCell(FDT_NOP), Token.Nop)]);
    BytesOne(Chunk(ToCell(FDT_NOP), Token.Nop));
  }

  lemma {:induction false} NopsOk(n: nat)
    ensures ChunksOk(Nops(n)) && Finish !in Tokens(Nops(n)) && |Bytes(Nops(n))| == 4 * n
    ensures forall m :: 0 <= m < n ==> Nops(n)[m].token == Token.Nop
  {
    if n > 0 {
      NopsOk(n - 1);
      MoreNops(n - 1);
      BareTagWritten(ToCell(FDT_NOP), FDT_NOP, Token.Nop);
    }
  }

  lemma NoppedBlock(s: seq<byte>, cs: seq<Chunk>, i: nat, k: nat, len: nat)
    requires Block(s, cs) && i <= k <= |cs| && len == Offset(cs, k) - Offset(cs, i)
    ensures Offset(cs, k) <= |s| && len % 4 == 0 && |Bytes(Nops(len / 4))| == len
    ensures Block(Spliced(s, Offset(cs, i), Offset(cs, k), Bytes(Nops(len / 4))), cs[..i] + Nops(len / 4) + cs[k..])
    ensures forall m :: 0 <= m < len / 4 ==> Nops(len / 4)[m].token == Token.Nop
  {
    PrefixOk(cs, i);
    PrefixOk(cs, k);
    NopsOk(len / 4);
    SplicedBlock(s, cs, i, k, Nops(len / 4));
  }

  lemma FilledOn(s: seq<byte>, s1: seq<byte>, s2: seq<byte>, start: nat, p: nat, front: seq<byte>, more: seq<byte>)
    requires start + p + |more| <= |s| && |front| == p && s1 == Spliced(s, start, start + p, front)
    requires s2 == Spliced(s1, start + p, start + p + |more|, more)
    ensures s2 == Spliced(s, start, start + p + |more|, front + more)
  {
  }

  /** How many bytes `fdt_setprop` adds to the blob. */
  ghost function SetNeed(cs: seq<Chunk>, i: nat, st: seq<byte>, name: seq<byte>, value: seq<byte>): int
    requires i < |cs|
  {
    match FindProp(cs, i + 1, st, name)
    case Place(k) => Align(|value|) - Align(|cs[k].token.value|)
    case _ => 12 + Align(|value|) + (if Occurs(st, name) then 0 else |name| + 1)
  }

  /** What `fdt_setprop` answers when `room` bytes of the blob are free. */
  ghost function SetStatus(cs: seq<Chunk>, i: nat, st: seq<byte>, name: seq<byte>, value: seq<byte>, room: int): Status
    requires i < |cs|
  {
    var status := PropStatus(cs, i, st, name);
    if status != Ok && status != NotFound then status
    else if SetNeed(cs, i, st, name, value) <= room then Ok else NoSpace
  }

  /** The tags `ds` with the strings `st'` are `cs` with `st` after setting the property: its value is replaced,
      or a new one stands in front of the node's others. */
  ghost predicate SetTags(cs: seq<Chunk>, i: nat, st: seq<byte>, ds: seq<Chunk>, st': seq<byte>, name: seq<byte>, value: seq<byte>)
    requires i < |cs|
  {
    match FindProp(cs, i + 1, st, name)
    case Place(k) => st' == st && exists c: Chunk :: c.token == cs[k].token.(value := value) && ds == cs[..k] + [c] + cs[k + 1..]
    case _ =>
      && st' == st + (if Occurs(st, name) then [] else name + [0])
      && exists c: Chunk :: c.token.Prop? && c.token.value == value && StringAt(st', c.token.nameoff) == Some(name)
           && ds == cs[..i + 1] + [c] + cs[i + 1..]
  }

  lemma SetCases(cs: seq<Chunk>, i: nat, st: seq<byte>, name: seq<byte>, value: seq<byte>, room: int)
    requires i < |cs|
    ensures var s := PropStatus(cs, i, st, name);
            && (s == Ok ==>
                 var r := FindProp(cs, i + 1, st, name);
                 && r.Place? && SetNeed(cs, i, st, name, value) == Align(|value|) - Align(|cs[r.index].token.value|))
            && (s == NotFound ==>
                 SetNeed(cs, i, st, name, value) == 12 + Align(|value|) + if Occurs(st, name) then 0 else |name| + 1)
            && SetStatus(cs, i, st, name, value, room) ==
                 if s != Ok && s != NotFound then s else if SetNeed(cs, i, st, name, value) <= room then Ok else NoSpace
  {
  }

  lemma ReplacedTags(cs: seq<Chunk>, i: nat, st: seq<byte>, name: seq<byte>, value: seq<byte>, k: nat, c: Chunk)
    requires i < |cs| && k < |cs| && FindProp(cs, i + 1, st, name) == Place(k) && c.token == cs[k].token.(value := value)
    ensures SetTags(cs, i, st, cs[..k] + [c] + cs[k + 1..], st, name, value)
  {
  }

  lemma NewTags(cs: seq<Chunk>, i: nat, st: seq<byte>, st': seq<byte>, name: seq<byte>, value: seq<byte>, c: Chunk)
    requires i < |cs| && PropStatus(cs, i, st, name) == NotFound && st' == st + (if Occurs(st, name) then [] else name + [0])
    requires c.token.Prop? && c.token.value == value && StringAt(st', c.token.nameoff) == Some(name)
    ensures SetTags(cs, i, st, cs[..i + 1] + [c] + cs[i + 1..], st', name, value)
  {
  }

  /** What `fdt_add_subnode` answers when `room` bytes of the blob are free. */
  function AddStatus(cs: seq<Chunk>, i: nat, name: seq<byte>, room: int): Status
    requires i < |cs|
  {
    if !cs[i].token.Begin? then BadOffset
    else if FindSub(cs, i + 1, 0, name).Place? then Exists
    else if NodeSize(name) <= room then Ok else NoSpace
  }

  function NodeSize(name: seq<byte>): nat {
    4 + Align(|name| + 1) + 4
  }

  /** The bytes of a node without properties and children. */
  function NodeBytes(name: seq<byte>): (b: seq<byte>)
    ensures |b| == NodeSize(name)
  {
    ToCell(FDT_BEGIN_NODE) + name + seq(Align(|name| + 1) - |name|, _ => 0) + ToCell(FDT_END_NODE)
  }

  lemma NodeWritten(name: seq<byte>) returns (c: Chunk, e: Chunk)
    requires IsName(name)
    ensures c.bytes + e.bytes == NodeBytes(name) && c.token == Begin(name) && e.token == End
    ensures ChunksOk([c, e]) && Finish !in Tokens([c, e])
  {
    var b := ToCell(FDT_BEGIN_NODE) + name + seq(Align(|name| + 1) - |name|, _ => 0);
    assert SameBytes(b, 0, ToCell(FDT_BEGIN_NODE)) && SameBytes(b, 4, name + [0]);
    BeginWritten(b, name);
    BareTagWritten(ToCell(FDT_END_NODE), FDT_END_NODE, End);
    c, e := Chunk(b, Begin(name)), Chunk(ToCell(FDT_END_NODE), End);
  }

  // ---- The blob ----

  lemma SubSlice(s: seq<byte>, a: nat, b: nat, i: nat, j: nat)
    requires a <= b <= |s| && i <= j <= b - a
    ensures s[a..b][i..j] == s[a + i..a + j]
  {
    forall k | 0 <= k < j - i ensures s[a..b][i..j][k] == s[a + i..a + j][k] {
      assert s[a..b][i + k] == s[a + i + k];
    }
  }

  lemma MovedPart(was: seq<byte>, now: seq<byte>, dst: nat, src: nat, len: nat, i: nat, j: nat)
    requires dst + len <= |was| && src + len <= |was| && now == was[..dst] + was[src..src + len] + was[dst + len..]
    requires i <= j <= len
    ensures now[dst + i..dst + j] == was[src + i..src + j]
  {
    MovedWhole(was, now, dst, src, len);
    SubSlice(now, dst, dst + len, i, j);
    SubSlice(was, src, src + len, i, j);
  }

  /** Behind a stretch of another length at `at` the bytes are the same. */
  ghost predicate Respaced(was: seq<byte>, now: seq<byte>, at: nat, oldLen: nat, newLen: nat) {
    && at + oldLen <= |was| && at + newLen <= |now|
    && now[..at] == was[..at] && now[at + newLen..] == was[at + oldLen..]
  }

  lemma RespacedIs(was: seq<byte>, now: seq<byte>, at: nat, oldLen: nat, newLen: nat)
    requires at + oldLen <= |was| && at + newLen <= |now|
    ensures Respaced(was, now, at, oldLen, newLen) <==> now[..at] == was[..at] && now[at + newLen..] == was[at + oldLen..]
  {
  }

  /** A stretch that is taken out. */
  lemma RespacedAway(was: seq<byte>, now: seq<byte>, at: nat, len: nat)
    requires Respaced(was, now, at, len, 0)
    ensures at + len <= |was| && now == Spliced(was, at, at + len, [])
  {
    assert now == now[..at] + now[at..];
  }

  lemma MovedWhole(was: seq<byte>, now: seq<byte>, dst: nat, src: nat, len: nat)
    requires dst + len <= |was| && src + len <= |was| && now == was[..dst] + was[src..src + len] + was[dst + len..]
    ensures |now| == |was| && now[..dst] == was[..dst] && now[dst..dst + len] == was[src..src + len]
  {
  }

  /** What the move in `fdt_splice_` does to the structure block, which has `size` bytes from `start` on, and to
      the `count` bytes of strings from `strings` on. */
  lemma MoveView(was: seq<byte>, now: seq<byte>, start: nat, at: nat, oldLen: nat, newLen: nat, size: nat, strings: nat, count: nat)
    requires at + oldLen <= size && start + size <= strings && strings + count <= |was|
    requires strings + count + newLen - oldLen <= |was|
    requires var dst, src, len := start + at + newLen, start + at + oldLen, strings + count - (start + at + oldLen);
             now == was[..dst] + was[src..src + len] + was[dst + len..]
    ensures |now| == |was|
    ensures Respaced(was[start..start + size], now[start..start + (size - oldLen + newLen)], at, oldLen, newLen)
    ensures now[strings - oldLen + newLen..strings - oldLen + newLen + count] == was[strings..strings + count]
  {
    var dst, src, len := start + at + newLen, start + at + oldLen, strings + count - (start + at + oldLen);
    var size' := size - oldLen + newLen;
    hide *;
    MovedWhole(was, now, dst, src, len);
    PrefixSlice(now, was, dst, start, start + at);
    MovedPart(was, now, dst, src, len, 0, start + size - src);
    Parts(now, start, size', at, at + newLen);
    Parts(was, start, size, at, at + oldLen);
    assert dst + (start + size - src) == start + size' && src + (start + size - src) == start + size;
    RespacedIs(was[start..start + size], now[start..start + size'], at, oldLen, newLen);
    MovedPart(was, now, dst, src, len, strings - src, len);
    assert dst + (strings - src) == strings - oldLen + newLen && dst + len == strings - oldLen + newLen + count;
    assert src + (strings - src) == strings && src + len == strings + count;
  }

  /** The front of a slice, and its end. */
  lemma Parts(s: seq<byte>, start: nat, size: nat, i: nat, j: nat)
    requires start + size <= |s| && i <= size && j <= size
    ensures s[start..start + size][..i] == s[start..start + i] && s[start..start + size][j..] == s[start + j..start + size]
  {
  }

  /** The move in `fdt_splice_`, for a structure block of `size` bytes at `start` and `count` bytes of strings;
      `size'` and `strings'` are the size and the offset that follow. */
  method Shift(buf: array<byte>, start: nat, at: nat, oldLen: nat, newLen: nat, size: nat, strings: nat, count: nat,
               ghost size': nat, ghost strings': nat)
    requires at + oldLen <= size && start + size <= strings && strings + count <= buf.Length
    requires size' == size - oldLen + newLen && strings' == strings - oldLen + newLen && strings' + count <= buf.Length
    modifies buf
    ensures Respaced(old(buf[start..start + size]), buf[start..start + size'], at, oldLen, newLen)
    ensures buf[strings'..strings' + count] == old(buf[strings..strings + count])
  {
    hide Respaced;
    ghost var was := buf[..];
    Move(buf, start + at + newLen, start + at + oldLen, strings + count - (start + at + oldLen));
    MoveView(was, buf[..], start, at, oldLen, newLen, size, strings, count);
    assert start + size' <= strings';
    assert buf[..][start..start + size'] == buf[start..start + size'];
    assert was[start..start + size] == old(buf[start..start + size]);
    assert buf[..][strings'..strings' + count] == buf[strings'..strings' + count];
  }

  lemma BehindSlice(s: seq<byte>, end: nat, lo: nat, hi: nat)
    requires end <= lo <= hi <= |s|
    ensures s[lo..hi] == s[end..][lo - end..hi - end]
  {
  }

  /** A new tag in a gap made for it: `s1` after the splice, then with `bytes` stored. */
  lemma InsertedView(s: seq<byte>, s1: seq<byte>, r: seq<byte>, o: nat, size: nat, bytes: seq<byte>)
    requires o <= |s| && |s1| == |s| + size && |bytes| <= size
    requires s1[..o] == s[..o] && s1[o + size..] == s[o..]
    requires r == Spliced(s1, o, o + |bytes|, bytes)
    ensures |r| == |s| + size && r == Spliced(s, o, o, r[o..o + size]) && SameBytes(r[o..o + size], 0, bytes)
  {
    SpliceParts(s1, o, bytes);
    assert r[o + size..] == s1[o + size..];
    SubSlice(r, o, o + size, 0, |bytes|);
    SameIsSlice(r[o..o + size], 0, bytes);
  }

  lemma InsertedWhole(s: seq<byte>, s1: seq<byte>, r: seq<byte>, o: nat, bytes: seq<byte>)
    requires o <= |s| && |s1| == |s| + |bytes|
    requires s1[..o] == s[..o] && s1[o + |bytes|..] == s[o..]
    requires r == Spliced(s1, o, o + |bytes|, bytes)
    ensures r == Spliced(s, o, o, bytes)
  {
  }

  lemma BytesOfTwo(c: Chunk, e: Chunk)
    ensures Bytes([c, e]) == c.bytes + e.bytes
  {
    BytesAppend([c], [e]);
    BytesOne(c);
    BytesOne(e);
    assert [c] + [e] == [c, e];
  }

  lemma AppendedName(st: seq<byte>, name: seq<byte>)
    requires IsName(name)
    ensures StringAt(st + (name + [0]), |st|) == Some(name)
  {
    assert SameBytes(st + (name + [0]), |st|, name + [0]);
    StringStands(st + (name + [0]), |st|, name);
  }

  /** The three header cells of a property tag. */
  function PropHead(nameoff: nat, len: nat): (h: seq<byte>)
    ensures |h| == 12
  {
    ToCell(FDT_PROP) + ToCell(len) + ToCell(nameoff)
  }

  lemma HeadWritten(b: seq<byte>, nameoff: nat, value: seq<byte>)
    requires nameoff < CELL && |value| < LONG && |b| == 12 + Align(|value|)
    requires SameBytes(b, 0, PropHead(nameoff, |value|) + value)
    ensures IsTag(b, Prop(nameoff, value))
  {
    SamePart(b, 0, PropHead(nameoff, |value|), value);
    SamePart(b, 0, ToCell(FDT_PROP) + ToCell(|value|), ToCell(nameoff));
    SamePart(b, 0, ToCell(FDT_PROP), ToCell(|value|));
    PropWritten(b, nameoff, value);
  }

  /** From `s` to `r`, the property tag at `o` got another value: tag and name offset stay. */
  ghost predicate Resized(s: seq<byte>, r: seq<byte>, o: nat, oldA: nat, newA: nat, value: seq<byte>)
    requires o + 12 + oldA <= |s| && |value| <= newA && o + 12 + newA <= |r|
  {
    var b := r[o..o + 12 + newA];
    && r == Spliced(s, o, o + 12 + oldA, b)
    && b[0..4] == s[o..o + 4] && b[4..8] == ToCell(|value|) && b[8..12] == s[o + 8..o + 12] && b[12..12 + |value|] == value
  }

  /** `s1` is the structure after the splice, `s2` with the new length, `s3` with the value. */
  lemma ResizedView(s: seq<byte>, s1: seq<byte>, s2: seq<byte>, s3: seq<byte>, o: nat, oldA: nat, newA: nat, value: seq<byte>)
    requires o + 12 + oldA <= |s| && |s1| == |s| - oldA + newA && |value| <= newA
    requires s1[..o + 12] == s[..o + 12] && s1[o + 12 + newA..] == s[o + 12 + oldA..]
    requires s2 == Spliced(s1, o + 4, o + 8, ToCell(|value|)) && s3 == Spliced(s2, o + 12, o + 12 + |value|, value)
    ensures |s3| == |s1| && Resized(s, s3, o, oldA, newA, value)
  {
    hide *;
    LengthView(s, s1, s2, o, oldA, newA, ToCell(|value|));
    ValueView(s, s2, s3, o, oldA, newA, ToCell(|value|), value);
    ResizedIs(s, s3, o, oldA, newA, value);
  }

  lemma LengthView(s: seq<byte>, s1: seq<byte>, s2: seq<byte>, o: nat, oldA: nat, newA: nat, len: seq<byte>)
    requires o + 12 + oldA <= |s| && |s1| == |s| - oldA + newA && |len| == 4
    requires s1[..o + 12] == s[..o + 12] && s1[o + 12 + newA..] == s[o + 12 + oldA..] && s2 == Spliced(s1, o + 4, o + 8, len)
    ensures |s2| == |s1| && s2[..o + 4] == s[..o + 4] && s2[o + 4..o + 8] == len && s2[o + 8..o + 12] == s[o + 8..o + 12]
    ensures s2[o + 12 + newA..] == s[o + 12 + oldA..]
  {
    SpliceParts(s1, o + 4, len);
    hide *;
    PrefixSlice(s1, s, o + 12, 0, o + 4);
    SuffixSlice(s2, s1, o + 8, o + 12);
    PrefixSlice(s1, s, o + 12, o + 8, o + 12);
    assert s2[o + 12 + newA..] == s2[o + 8..][4 + newA..] && s1[o + 12 + newA..] == s1[o + 8..][4 + newA..];
  }

  lemma ValueView(s: seq<byte>, s2: seq<byte>, s3: seq<byte>, o: nat, oldA: nat, newA: nat, len: seq<byte>, value: seq<byte>)
    requires o + 12 + oldA <= |s| && |s2| == |s| - oldA + newA && |value| <= newA
    requires s2[..o + 4] == s[..o + 4] && s2[o + 4..o + 8] == len && s2[o + 8..o + 12] == s[o + 8..o + 12]
    requires s2[o + 12 + newA..] == s[o + 12 + oldA..] && s3 == Spliced(s2, o + 12, o + 12 + |value|, value)
    ensures |s3| == |s2| && s3[..o + 4] == s[..o + 4] && s3[o + 4..o + 8] == len && s3[o + 8..o + 12] == s[o + 8..o + 12]
    ensures s3[o + 12..o + 12 + |value|] == value && s3[o + 12 + newA..] == s[o + 12 + oldA..]
  {
    SpliceParts(s2, o + 12, value);
    hide *;
    var w := o + 12 + |value|;
    PrefixSlice(s3, s2, o + 12, 0, o + 4);
    PrefixSlice(s3, s2, o + 12, o + 4, o + 8);
    PrefixSlice(s3, s2, o + 12, o + 8, o + 12);
    assert s3[o + 12 + newA..] == s3[w..][newA - |value|..] && s2[o + 12 + newA..] == s2[w..][newA - |value|..];
  }

  lemma ResizedIs(s: seq<byte>, r: seq<byte>, o: nat, oldA: nat, newA: nat, value: seq<byte>)
    requires o + 12 + oldA <= |s| && |r| == |s| - oldA + newA && |value| <= newA
    requires r[..o + 4] == s[..o + 4] && r[o + 4..o + 8] == ToCell(|value|) && r[o + 8..o + 12] == s[o + 8..o + 12]
    requires r[o + 12..o + 12 + |value|] == value && r[o + 12 + newA..] == s[o + 12 + oldA..]
    ensures Resized(s, r, o, oldA, newA, value)
  {
    hide ToCell;
    var n := o + 12 + newA;
    PrefixSlice(r, s, o + 4, 0, o);
    PrefixSlice(r, s, o + 4, o, o + 4);
    SubSlice(r, o, n, 0, 4);
    SubSlice(r, o, n, 4, 8);
    SubSlice(r, o, n, 8, 12);
    SubSlice(r, o, n, 12, 12 + |value|);
    assert r == r[..o] + r[o..n] + r[n..];
  }

  lemma SpliceParts(s: seq<byte>, at: nat, bytes: seq<byte>)
    requires at + |bytes| <= |s|
    ensures var r := Spliced(s, at, at + |bytes|, bytes);
            |r| == |s| && r[..at] == s[..at] && r[at..at + |bytes|] == bytes && r[at + |bytes|..] == s[at + |bytes|..]
  {
  }

  lemma PrefixSlice(r: seq<byte>, s: seq<byte>, m: nat, i: nat, j: nat)
    requires m <= |r| && m <= |s| && r[..m] == s[..m] && i <= j <= m
    ensures r[i..j] == s[i..j]
  {
    assert r[i..j] == r[..m][i..j] && s[i..j] == s[..m][i..j];
  }

  lemma SuffixSlice(r: seq<byte>, s: seq<byte>, m: nat, j: nat)
    requires m <= j <= |r| && j <= |s| && r[m..] == s[m..]
    ensures r[m..j] == s[m..j]
  {
    assert r[m..j] == r[m..][..j - m] && s[m..j] == s[m..][..j - m];
  }

  lemma ResizedTag(c: seq<byte>, t: Token, b: seq<byte>, value: seq<byte>)
    requires IsTag(c, t) && t.Prop? && |b| == 12 + Align(|value|) && |value| < LONG && 12 <= |c|
    requires b[0..4] == c[0..4] && b[4..8] == ToCell(|value|) && b[8..12] == c[8..12] && b[12..12 + |value|] == value
    ensures IsTag(b, t.(value := value))
  {
    CellFromSlice(b, 0, c, 0);
    CellFromSlice(b, 8, c, 8);
    SameIsSlice(b, 4, ToCell(|value|));
    CellStands(b, 4, |value|);
    AlignShift(12, |value|);
  }

  class Blob {
    const buf: array<byte>
    const totalSize: nat
    const offStruct: nat
    var sizeStruct: nat
    var offStrings: nat
    var sizeStrings: nat

    /** The blocks lie in order inside the blob: `fdt_rw_probe_` accepts it. */
    predicate Ordered()
      reads this
    {
      offStruct + sizeStruct <= offStrings && offStrings + sizeStrings <= totalSize <= buf.Length < CELL / 2
    }

    function Struct(): (s: seq<byte>)
      reads this`sizeStruct, buf
      requires offStruct + sizeStruct <= buf.Length
    {
      buf[offStruct..offStruct + sizeStruct]
    }

    function Strings(): (s: seq<byte>)
      reads this`offStrings, this`sizeStrings, buf
      requires offStrings + sizeStrings <= buf.Length
    {
      buf[offStrings..offStrings + sizeStrings]
    }

    /** The bytes of the blob behind its blocks. */
    function Room(): int
      reads this`offStrings, this`sizeStrings
    {
      totalSize - offStrings - sizeStrings
    }

    method Shifted(at: nat, oldLen: nat, newLen: nat)
      requires Ordered() && at + oldLen <= sizeStruct && offStrings + sizeStrings - oldLen + newLen <= totalSize
      modifies this`sizeStruct, this`offStrings, buf
      ensures Ordered() && sizeStruct == old(sizeStruct) - oldLen + newLen && Strings() == old(Strings())
      ensures Room() == old(Room()) + oldLen - newLen
      ensures Respaced(old(Struct()), Struct(), at, oldLen, newLen)
    {
      hide Respaced;
      ghost var size', strings' := sizeStruct - oldLen + newLen, offStrings - oldLen + newLen;
      Shift(buf, offStruct, at, oldLen, newLen, sizeStruct, offStrings, sizeStrings, size', strings');
      sizeStruct := sizeStruct - oldLen + newLen;
      offStrings := offStrings - oldLen + newLen;
    }

    /** `fdt_splice_struct_`: the bytes of the structure from `at + oldLen` on, and the strings, move by
        `newLen - oldLen`. */
    method Splice(at: nat, oldLen: nat, newLen: nat) returns (ok: bool)
      requires Ordered() && at + oldLen <= sizeStruct
      modifies this`sizeStruct, this`offStrings, buf
      ensures ok <==> newLen - oldLen <= old(Room())
      ensures !ok ==> unchanged(this) && unchanged(buf)
      ensures ok ==> Room() == old(Room()) + oldLen - newLen
      ensures ok ==> Ordered() && sizeStruct == old(sizeStruct) - oldLen + newLen && Strings() == old(Strings())
      ensures ok ==> Respaced(old(Struct()), Struct(), at, oldLen, newLen)
    {
      hide Respaced;
      var dataSize := offStrings + sizeStrings;
      if dataSize - oldLen + newLen > totalSize {
        return false;
      }
      Shifted(at, oldLen, newLen);
      ok := true;
    }

    /** `fdt_delprop`. */
    method DelProp(node: nat, name: seq<byte>, ghost cs: seq<Chunk>, ghost i: nat) returns (status: Status)
      requires Ordered() && Block(Struct(), cs) && i < |cs| && node == Offset(cs, i)
      modifies this, buf
      ensures Ordered() && Strings() == old(Strings())
      ensures status == PropStatus(cs, i, old(Strings()), name)
      ensures status != Ok ==> unchanged(this) && unchanged(buf)
      ensures status == Ok ==> var k := FindProp(cs, i + 1, old(Strings()), name).index;
                               Block(Struct(), cs[..k] + [] + cs[k + 1..])
    {
      hide Block, Offset, FindProp, Respaced, Spliced, Align;
      ghost var s := Struct();
      var offset, nameoff, len;
      status, offset, nameoff, len := FindProperty(node, name, cs, i);
      if status == Ok {
        ghost var k := FindProp(cs, i + 1, Strings(), name).index;
        PropSize(s, cs, k);
        var ok := Splice(offset, 12 + Align(len), 0);
        RespacedAway(s, Struct(), offset, 12 + Align(len));
        SplicedBlock(s, cs, k, k + 1, []);
        NoBytes();
      }
    }

    /** `fdt_get_property_namelen_`. */
    method FindProperty(node: nat, name: seq<byte>, ghost cs: seq<Chunk>, ghost i: nat)
      returns (status: Status, offset: nat, nameoff: nat, len: nat)
      requires Ordered() && Block(Struct(), cs) && i < |cs| && node == Offset(cs, i)
      ensures status == PropStatus(cs, i, Strings(), name)
      ensures status == Ok ==> var k := FindProp(cs, i + 1, Strings(), name).index;
                               offset == Offset(cs, k) && nameoff == cs[k].token.nameoff && len == |cs[k].token.value|
    {
      hide Block, Offset, NextTag, FindProp;
      TagAt(Struct(), cs, i);
      var s, st := buf[offStruct..offStruct + sizeStruct], buf[offStrings..offStrings + sizeStrings];
      var tag := ReadTag(s, node);
      if !tag.token.Begin? {
        return BadOffset, 0, 0, 0;
      }
      status, offset, nameoff, len := GetProperty(s, st, tag.next, name, cs, i + 1);
    }

    /** Stores `bytes` inside the structure block. */
    method Fill(at: nat, bytes: seq<byte>)
      requires Ordered() && at + |bytes| <= sizeStruct
      modifies buf
      ensures Struct() == Spliced(old(Struct()), at, at + |bytes|, bytes) && Strings() == old(Strings())
    {
      hide Spliced;
      var end := offStruct + sizeStruct;
      BehindSlice(buf[..], end, offStrings, offStrings + sizeStrings);
      StoreIn(buf, offStruct, end, at, bytes);
      BehindSlice(buf[..], end, offStrings, offStrings + sizeStrings);
    }

    /** `fdt_resize_property_` on the property at `offset`, and the `memcpy` of the value. `oldA` and `newA` are the
        lengths with padding. */
    method Resize(offset: nat, oldA: nat, newA: nat, value: seq<byte>) returns (ok: bool)
      requires Ordered() && offset + 12 + oldA <= sizeStruct && |value| <= newA
      modifies this`sizeStruct, this`offStrings, buf
      ensures ok <==> newA - oldA <= old(Room())
      ensures !ok ==> unchanged(this) && unchanged(buf)
      ensures ok ==> Room() == old(Room()) + oldA - newA
      ensures ok ==> Ordered() && Strings() == old(Strings()) && offset + 12 + newA <= sizeStruct
      ensures ok ==> Resized(old(Struct()), Struct(), offset, oldA, newA, value)
    {
      ghost var s := Struct();
      hide Spliced, Resized, ToCell, Respaced;
      ok := Splice(offset + 12, oldA, newA);
      if ok {
        ghost var s1 := Struct();
        RespacedIs(s, s1, offset + 12, oldA, newA);
        assert |s1| == |s| - oldA + newA;
        ghost var s2 := FillProp(offset, value);
        ResizedView(s, s1, s2, Struct(), offset, oldA, newA, value);
      }
    }

    /** Stores the length and the value of a property. */
    method FillProp(offset: nat, value: seq<byte>) returns (ghost s: seq<byte>)
      requires Ordered() && offset + 12 + |value| <= sizeStruct
      modifies buf
      ensures s == Spliced(old(Struct()), offset + 4, offset + 8, ToCell(|value|))
      ensures offset + 12 + |value| <= |s| && Struct() == Spliced(s, offset + 12, offset + 12 + |value|, value)
      ensures Strings() == old(Strings())
    {
      hide Spliced, ToCell;
      var cell := ToCell(|value|);
      Fill(offset + 4, cell);
      s := Struct();
      assert offset + 4 + |cell| == offset + 8;
      Fill(offset + 12, value);
    }

    /** `fdt_setprop` on a property that the node has. */
    method ResizeProp(value: seq<byte>, offset: nat, len: nat, ghost cs: seq<Chunk>, ghost k: nat)
      returns (ok: bool, ghost c: Chunk)
      requires Ordered() && Block(Struct(), cs) && k < |cs| && cs[k].token.Prop? && |value| < LONG
      requires offset == Offset(cs, k) && len == |cs[k].token.value|
      modifies this, buf
      ensures ok <==> Align(|value|) - Align(len) <= old(Room())
      ensures !ok ==> unchanged(this) && unchanged(buf)
      ensures ok ==> Room() == old(Room()) + Align(len) - Align(|value|)
      ensures ok ==> Ordered() && Strings() == old(Strings()) && c.token == cs[k].token.(value := value)
      ensures ok ==> Block(Struct(), cs[..k] + [c] + cs[k + 1..])
    {
      ghost var s := Struct();
      PropSize(s, cs, k);
      ok := Resize(offset, Align(len), Align(|value|), value);
      c := cs[k];
      if ok {
        c := ResizedBlock(s, Struct(), cs, k, value);
      }
    }

    /** The `memcpy` of `fdt_setprop_inplace_namelen_partial` into the property at `offset`. */
    method PatchValue(offset: nat, idx: nat, bytes: seq<byte>, ghost cs: seq<Chunk>, ghost k: nat) returns (ghost c: Chunk)
      requires Ordered() && Block(Struct(), cs) && k < |cs| && cs[k].token.Prop? && offset == Offset(cs, k)
      requires idx + |bytes| <= |cs[k].token.value|
      modifies buf
      ensures Ordered() && Strings() == old(Strings()) && Block(Struct(), cs[..k] + [c] + cs[k + 1..])
      ensures |c.bytes| == |cs[k].bytes|
      ensures c.token == cs[k].token.(value := Spliced(cs[k].token.value, idx, idx + |bytes|, bytes))
    {
      hide Block, Offset, Spliced, IsTag;
      c := PatchedBlock(Struct(), cs, k, idx, bytes);
      Fill(offset + 12 + idx, bytes);
    }

    method AppendString(name: seq<byte>)
      requires Ordered() && offStrings + sizeStrings + |name| + 1 <= totalSize
      modifies this`sizeStrings, buf
      ensures Ordered() && sizeStrings == old(sizeStrings) + |name| + 1
      ensures Struct() == old(Struct()) && Strings() == old(Strings()) + (name + [0])
    {
      ghost var was := buf[..];
      Store(buf, offStrings + sizeStrings, name + [0]);
      PrefixSlice(buf[..], was, offStrings + sizeStrings, offStruct, offStruct + sizeStruct);
      PrefixSlice(buf[..], was, offStrings + sizeStrings, offStrings, offStrings + sizeStrings);
      sizeStrings := sizeStrings + |name| + 1;
    }

    /** `fdt_find_add_string_`: a new name goes behind the strings. */
    method FindAddString(name: seq<byte>) returns (ok: bool, nameoff: nat, isNew: bool)
      requires Ordered() && IsName(name)
      modifies this`sizeStrings, buf
      ensures isNew <==> !Occurs(old(Strings()), name)
      ensures ok <==> (isNew ==> |name| + 1 <= old(Room()))
      ensures Room() == old(Room()) - if ok && isNew then |name| + 1 else 0
      ensures !ok || !isNew ==> unchanged(this) && unchanged(buf)
      ensures ok ==> Ordered() && Struct() == old(Struct()) && nameoff < CELL && StringAt(Strings(), nameoff) == Some(name)
      ensures ok ==> Strings() == old(Strings()) + (if isNew then name + [0] else [])
    {
      var st := buf[offStrings..offStrings + sizeStrings];
      var p := FindString(st, name);
      if p.Some? {
        StringStands(st, p.value, name);
        return true, p.value, false;
      }
      if offStrings + sizeStrings + |name| + 1 > totalSize {
        return false, 0, true;
      }
      nameoff := sizeStrings;
      AppendString(name);
      AppendedName(st, name);
      ok, isNew := true, true;
    }

    /** The splice and the stores of `fdt_add_property_`. */
    method InsertProp(at: nat, nameoff: nat, value: seq<byte>, ghost cs: seq<Chunk>, ghost i: nat)
      returns (ok: bool, ghost c: Chunk)
      requires Ordered() && Block(Struct(), cs) && i <= |cs| && at == Offset(cs, i) && nameoff < CELL && |value| < LONG
      modifies this`sizeStruct, this`offStrings, buf
      ensures ok <==> 12 + Align(|value|) <= old(Room())
      ensures !ok ==> unchanged(this) && unchanged(buf)
      ensures ok ==> Room() == old(Room()) - (12 + Align(|value|))
      ensures ok ==> Ordered() && Strings() == old(Strings()) && c.token == Prop(nameoff, value)
      ensures ok ==> Block(Struct(), cs[..i] + [c] + cs[i..])
    {
      ghost var s := Struct();
      var size := 12 + Align(|value|);
      c := Chunk([], Prop(nameoff, value));
      InBlock(s, cs, i);
      ok := Splice(at, 0, size);
      if ok {
        ghost var s1 := Struct();
        Fill(at, PropHead(nameoff, |value|) + value);
        InsertedView(s, s1, Struct(), at, size, PropHead(nameoff, |value|) + value);
        c := Chunk(Struct()[at..at + size], Prop(nameoff, value));
        HeadWritten(c.bytes, nameoff, value);
        SplicedOne(s, cs, i, i, c);
      }
    }

    /** `fdt_add_property_`: the property goes in front of the node's others. When the splice fails, a name that
        was added for it is taken out again. */
    method AddProp(at: nat, name: seq<byte>, value: seq<byte>, ghost cs: seq<Chunk>, ghost i: nat)
      returns (ok: bool, ghost c: Chunk)
      requires Ordered() && Block(Struct(), cs) && i <= |cs| && at == Offset(cs, i) && IsName(name) && |value| < LONG
      modifies this, buf
      ensures Ordered()
      ensures var need := 12 + Align(|value|) + if Occurs(old(Strings()), name) then 0 else |name| + 1;
              (ok <==> need <= old(Room())) && Room() == old(Room()) - if ok then need else 0
      ensures !ok ==> Struct() == old(Struct()) && Strings() == old(Strings())
      ensures ok ==> Strings() == old(Strings()) + (if Occurs(old(Strings()), name) then [] else name + [0])
      ensures ok ==> c.token.Prop? && c.token.value == value && StringAt(Strings(), c.token.nameoff) == Some(name)
      ensures ok ==> Block(Struct(), cs[..i] + [c] + cs[i..])
    {
      ghost var st := Strings();
      c := Chunk([], Nop);
      var nameoff, isNew;
      ok, nameoff, isNew := FindAddString(name);
      if !ok {
        return;
      }
      ok, c := InsertProp(at, nameoff, value, cs, i);
      if !ok && isNew {
        DropLastString(name, st);
      }
    }

    /** `fdt_setprop`. */
    method SetProp(node: nat, name: seq<byte>, value: seq<byte>, ghost cs: seq<Chunk>, ghost i: nat)
      returns (status: Status, ghost ds: seq<Chunk>)
      requires Ordered() && Block(Struct(), cs) && i < |cs| && node == Offset(cs, i) && IsName(name) && |value| < LONG
      modifies this, buf
      ensures Ordered()
      ensures status == SetStatus(cs, i, old(Strings()), name, value, old(Room()))
      ensures Room() == old(Room()) - if status == Ok then SetNeed(cs, i, old(Strings()), name, value) else 0
      ensures status != Ok ==> Struct() == old(Struct()) && Strings() == old(Strings())
      ensures status == Ok ==> Block(Struct(), ds) && SetTags(cs, i, old(Strings()), ds, Strings(), name, value)
    {
      hide Block, Offset, Align, Occurs, FindProp, StringAt, NextTag, IsName, PropStatus, SetStatus, SetNeed, SetTags;
      ghost var st := Strings();
      SetCases(cs, i, st, name, value, Room());
      var offset, nameoff, len, ok;
      ghost var c;
      ds := cs;
      status, offset, nameoff, len := FindProperty(node, name, cs, i);
      if status == Ok {
        ghost var k := FindProp(cs, i + 1, st, name).index;
        ok, c := ResizeProp(value, offset, len, cs, k);
        ds := cs[..k] + [c] + cs[k + 1..];
        if ok {
          ReplacedTags(cs, i, st, name, value, k, c);
        }
        status := if ok then Ok else NoSpace;
      } else if status == NotFound {
        TagAt(Struct(), cs, i);
        var tag := ReadTag(buf[offStruct..offStruct + sizeStruct], node);
        ok, c := AddProp(tag.next, name, value, cs, i + 1);
        ds := cs[..i + 1] + [c] + cs[i + 1..];
        if ok {
          NewTags(cs, i, st, Strings(), name, value, c);
        }
        status := if ok then Ok else NoSpace;
      }
    }

    /** `fdt_add_subnode_namelen`: the new node goes behind the properties of its parent. */
    method AddSubnode(parent: nat, name: seq<byte>, ghost cs: seq<Chunk>, ghost i: nat)
      returns (status: Status, offset: nat, ghost c: Chunk, ghost e: Chunk)
      requires Ordered() && Block(Struct(), cs) && i < |cs| && parent == Offset(cs, i) && IsName(name)
      modifies this, buf
      ensures Ordered() && Strings() == old(Strings())
      ensures status == AddStatus(cs, i, name, old(Room()))
      ensures status != Ok ==> unchanged(this) && unchanged(buf)
      ensures status == Ok ==> Room() == old(Room()) - NodeSize(name)
      ensures status == Ok ==> var j := AfterProps(cs, i + 1);
                               && offset == Offset(cs, j) && c.token == Begin(name) && e.token == End
                               && Block(Struct(), cs[..j] + [c, e] + cs[j..])
    {
      c, e := Chunk([], Token.Nop), Chunk([], Token.Nop);
      status, offset := SubnodeOffset(buf[offStruct..offStruct + sizeStruct], parent, name, cs, i);
      if status == Ok {
        return Exists, offset, c, e;
      } else if status != NotFound {
        return;
      }
      offset := BehindProps(parent, cs, i);
      var ok;
      ok, c, e := InsertNode(offset, name, cs, AfterProps(cs, i + 1));
      status := if ok then Ok else NoSpace;
    }

    /** The loop of `fdt_add_subnode_namelen` over the properties of the parent. */
    method BehindProps(parent: nat, ghost cs: seq<Chunk>, ghost i: nat) returns (offset: nat)
      requires Ordered() && Block(Struct(), cs) && i < |cs| && parent == Offset(cs, i)
      ensures offset == Offset(cs, AfterProps(cs, i + 1))
    {
      hide Block, Offset, NextTag;
      var s := buf[offStruct..offStruct + sizeStruct];
      TagAt(s, cs, i);
      var tag := ReadTag(s, parent);
      offset := tag.next;
      ghost var j := i + 1;
      TagAt(s, cs, j);
      tag := ReadTag(s, offset);
      while tag.token.Prop? || tag.token.Nop?
        invariant i < j <= |cs| && offset == Offset(cs, j) && tag.Found?
        invariant j < |cs| ==> tag == Found(cs[j].token, Offset(cs, j + 1))
        invariant j == |cs| ==> tag.token == Finish
        invariant AfterProps(cs, i + 1) == AfterProps(cs, j)
        decreases |cs| - j
      {
        offset, j := tag.next, j + 1;
        TagAt(s, cs, j);
        tag := ReadTag(s, offset);
      }
    }

    /** The splice and the stores of `fdt_add_subnode_namelen`. */
    method InsertNode(at: nat, name: seq<byte>, ghost cs: seq<Chunk>, ghost j: nat)
      returns (ok: bool, ghost c: Chunk, ghost e: Chunk)
      requires Ordered() && Block(Struct(), cs) && j <= |cs| && at == Offset(cs, j) && IsName(name)
      modifies this`sizeStruct, this`offStrings, buf
      ensures ok <==> NodeSize(name) <= old(Room())
      ensures !ok ==> unchanged(this) && unchanged(buf)
      ensures ok ==> Room() == old(Room()) - NodeSize(name)
      ensures ok ==> Ordered() && Strings() == old(Strings()) && c.token == Begin(name) && e.token == End
      ensures ok ==> Block(Struct(), cs[..j] + [c, e] + cs[j..])
    {
      ghost var s := Struct();
      c, e := Chunk([], Token.Nop), Chunk([], Token.Nop);
      var bytes := NodeBytes(name);
      InBlock(s, cs, j);
      hide Block, Offset, Spliced, NodeBytes, NodeSize, Bytes, ChunksOk, Tokens, Respaced;
      ok := Splice(at, 0, |bytes|);
      if ok {
        ghost var s1 := Struct();
        RespacedIs(s, s1, at, 0, |bytes|);
        Fill(at, bytes);
        InsertedWhole(s, s1, Struct(), at, bytes);
        c, e := NodeWritten(name);
        BytesOfTwo(c, e);
        SplicedBlock(s, cs, j, j, [c, e]);
      }
    }

    /** `fdt_del_node`. */
    method DelNode(node: nat, ghost cs: seq<Chunk>, ghost i: nat) returns (status: Status)
      requires Ordered() && Block(Struct(), cs) && i < |cs| && node == Offset(cs, i)
      modifies this, buf
      ensures Ordered() && Strings() == old(Strings())
      ensures status == NodeStatus(cs, i)
      ensures status != Ok ==> unchanged(this) && unchanged(buf)
      ensures status == Ok ==> Block(Struct(), cs[..i] + [] + cs[Close(cs, i + 1, 0).value..])
    {
      hide Block, Offset, Close, Respaced, Spliced;
      ghost var s := Struct();
      var end;
      status, end := NodeEnd(buf[offStruct..offStruct + sizeStruct], node, cs, i);
      if status == Ok {
        ghost var k := Close(cs, i + 1, 0).value;
        SplicedBlock(s, cs, i, k, []);
        var ok := Splice(node, end - node, 0);
        RespacedAway(s, Struct(), node, end - node);
        NoBytes();
      }
    }

    /** `fdt_nop_node`: no tag outside the node moves. */
    method NopNode(node: nat, ghost cs: seq<Chunk>, ghost i: nat) returns (status: Status, ghost nops: seq<Chunk>)
      requires Ordered() && Block(Struct(), cs) && i < |cs| && node == Offset(cs, i)
      modifies buf
      ensures Ordered() && Strings() == old(Strings()) && status == NodeStatus(cs, i)
      ensures status != Ok ==> unchanged(buf)
      ensures status == Ok ==> var k := Close(cs, i + 1, 0).value;
                               && Block(Struct(), cs[..i] + nops + cs[k..])
                               && (forall m :: 0 <= m < |nops| ==> nops[m].token == Nop)
                               && |Bytes(nops)| == Offset(cs, k) - Offset(cs, i)
    {
      hide Block, Close, Nops, Bytes, Offset, Spliced;
      ghost var s := Struct();
      nops := [];
      var end;
      status, end := NodeEnd(buf[offStruct..offStruct + sizeStruct], node, cs, i);
      if status == Ok {
        ghost var k := Close(cs, i + 1, 0).value;
        SplicedBlock(s, cs, i, k, []);
        NoppedBlock(s, cs, i, k, end - node);
        nops := Nops((end - node) / 4);
        NopRegion(node, end - node);
        assert Struct() == Spliced(s, Offset(cs, i), Offset(cs, k), Bytes(nops));
      }
    }

    /** `fdt_nop_region_`. */
    method NopRegion(start: nat, len: nat)
      requires Ordered() && start + len <= sizeStruct && len % 4 == 0
      modifies buf
      ensures Struct() == Spliced(old(Struct()), start, start + len, Bytes(Nops(len / 4))) && Strings() == old(Strings())
    {
      ghost var s := Struct();
      var p := 0;
      ghost var n, all := 0, len / 4;
      assert s == Spliced(s, start, start, Bytes(Nops(0)));
      NopsOk(0);
      hide Spliced, Bytes, Nops;
      while p < len
        invariant Ordered() && p == 4 * n && n <= all && |Bytes(Nops(n))| == p
        invariant Struct() == Spliced(s, start, start + p, Bytes(Nops(n))) && Strings() == old(Strings())
      {
        FillNop(s, start, p, n);
        p, n := p + 4, n + 1;
      }
    }

    method FillNop(ghost s: seq<byte>, start: nat, p: nat, ghost n: nat)
      requires Ordered() && |s| == sizeStruct && start + p + 4 <= sizeStruct && |Bytes(Nops(n))| == p
      requires Struct() == Spliced(s, start, start + p, Bytes(Nops(n)))
      modifies buf
      ensures |Bytes(Nops(n + 1))| == p + 4 && Struct() == Spliced(s, start, start + p + 4, Bytes(Nops(n + 1)))
      ensures Strings() == old(Strings())
    {
      hide Spliced, ToCell, Bytes, Nops;
      ghost var s1 := Struct();
      Fill(start + p, ToCell(FDT_NOP));
      MoreNops(n);
      FilledOn(s, s1, Struct(), start, p, Bytes(Nops(n)), ToCell(FDT_NOP));
    }

    /** `fdt_del_last_string_`. */
    method DropLastString(name: seq<byte>, ghost st: seq<byte>)
      requires Ordered() && Strings() == st + (name + [0])
      modifies this`sizeStrings
      ensures Ordered() && Room() == old(Room()) + |name| + 1 && Strings() == st
    {
      ghost var longer := Strings();
      sizeStrings := sizeStrings - (|name| + 1);
      assert Strings() == longer[..|st|];
    }
  }

  lemma ResizedChunk(s: seq<byte>, r: seq<byte>, cs: seq<Chunk>, k: nat, value: seq<byte>)
    requires Block(s, cs) && k < |cs| && cs[k].token.Prop? && |value| < LONG
    requires var o := Offset(cs, k);
             && o + 12 + Align(|cs[k].token.value|) <= |s| && o + 12 + Align(|value|) <= |r|
             && Resized(s, r, o, Align(|cs[k].token.value|), Align(|value|), value)
    ensures IsTag(r[Offset(cs, k)..Offset(cs, k) + 12 + Align(|value|)], cs[k].token.(value := value))
  {
    var o, was := Offset(cs, k), cs[k].bytes;
    PropSize(s, cs, k);
    ChunkBytes(s, cs, k);
    SubSlice(s, o, o + |was|, 0, 4);
    SubSlice(s, o, o + |was|, 8, 12);
    ResizedTag(was, cs[k].token, r[o..o + 12 + Align(|value|)], value);
  }

  lemma ResizedBlock(s: seq<byte>, r: seq<byte>, cs: seq<Chunk>, k: nat, value: seq<byte>) returns (c: Chunk)
    requires Block(s, cs) && k < |cs| && cs[k].token.Prop? && |value| < LONG
    requires var o := Offset(cs, k);
             && o + 12 + Align(|cs[k].token.value|) <= |s| && o + 12 + Align(|value|) <= |r|
             && Resized(s, r, o, Align(|cs[k].token.value|), Align(|value|), value)
    ensures c.token == cs[k].token.(value := value) && Block(r, cs[..k] + [c] + cs[k + 1..])
  {
    var o := Offset(cs, k);
    c := Chunk(r[o..o + 12 + Align(|value|)], cs[k].token.(value := value));
    ResizedChunk(s, r, cs, k, value);
    PropSize(s, cs, k);
    SplicedOne(s, cs, k, k + 1, c);
  }

  lemma PatchedTag(b: seq<byte>, t: Token, idx: nat, bytes: seq<byte>)
    requires IsTag(b, t) && t.Prop? && idx + |bytes| <= |t.value|
    ensures 12 + |t.value| <= |b|
    ensures IsTag(Spliced(b, 12 + idx, 12 + idx + |bytes|, bytes), t.(value := Spliced(t.value, idx, idx + |bytes|, bytes)))
  {
    PropTagSize(b, t);
    var r := Spliced(b, 12 + idx, 12 + idx + |bytes|, bytes);
    assert r[0..4] == b[0..4] && r[4..8] == b[4..8] && r[8..12] == b[8..12];
    CellFromSlice(r, 0, b, 0);
    CellFromSlice(r, 4, b, 4);
    CellFromSlice(r, 8, b, 8);
    assert r[12..12 + |t.value|] == Spliced(b[12..12 + |t.value|], idx, idx + |bytes|, bytes);
  }

  lemma NestedSplice(s: seq<byte>, o: nat, b: seq<byte>, i: nat, j: nat, bytes: seq<byte>)
    requires o + |b| <= |s| && s[o..o + |b|] == b && i <= j <= |b|
    ensures Spliced(s, o, o + |b|, Spliced(b, i, j, bytes)) == Spliced(s, o + i, o + j, bytes)
  {
    SubSlice(s, o, o + |b|, 0, i);
    SubSlice(s, o, o + |b|, j, |b|);
    assert b[..i] == b[0..i] && b[j..] == b[j..|b|];
    assert s[..o] + s[o..o + i] == s[..o + i] && s[o + j..o + |b|] + s[o + |b|..] == s[o + j..];
    FiveParts(s[..o], s[o..o + i], bytes, s[o + j..o + |b|], s[o + |b|..]);
  }

  lemma FiveParts(a: seq<byte>, b: seq<byte>, c: seq<byte>, d: seq<byte>, e: seq<byte>)
    ensures a + (b + c + d) + e == (a + b) + c + (d + e)
  {
  }

  lemma TagOk(s: seq<byte>, cs: seq<Chunk>, k: nat)
    requires Block(s, cs) && k < |cs|
    ensures IsTag(cs[k].bytes, cs[k].token) && Offset(cs, k + 1) == Offset(cs, k) + |cs[k].bytes|
  {
    CutBytes(cs, k);
  }

  lemma PatchedBlock(s: seq<byte>, cs: seq<Chunk>, k: nat, idx: nat, bytes: seq<byte>) returns (c: Chunk)
    requires Block(s, cs) && k < |cs| && cs[k].token.Prop? && idx + |bytes| <= |cs[k].token.value|
    ensures |c.bytes| == |cs[k].bytes| && Offset(cs, k) + 12 + idx + |bytes| <= |s|
    ensures c.token == cs[k].token.(value := Spliced(cs[k].token.value, idx, idx + |bytes|, bytes))
    ensures Block(Spliced(s, Offset(cs, k) + 12 + idx, Offset(cs, k) + 12 + idx + |bytes|, bytes), cs[..k] + [c] + cs[k + 1..])
  {
    hide *;
    var o, b, t := Offset(cs, k), cs[k].bytes, cs[k].token;
    TagOk(s, cs, k);
    PatchedTag(b, t, idx, bytes);
    SpliceParts(b, 12 + idx, bytes);
    ChunkBytes(s, cs, k);
    c := Chunk(Spliced(b, 12 + idx, 12 + idx + |bytes|, bytes), t.(value := Spliced(t.value, idx, idx + |bytes|, bytes)));
    NestedSplice(s, o, b, 12 + idx, 12 + idx + |bytes|, bytes);
    SplicedOne(s, cs, k, k + 1, c);
  }

  lemma SplicedOne(s: seq<byte>, cs: seq<Chunk>, i: nat, k: nat, c: Chunk)
    requires Block(s, cs) && i <= k <= |cs| && IsTag(c.bytes, c.token) && c.token != Finish
    ensures Offset(cs, i) <= Offset(cs, k) <= |s|
    ensures Block(Spliced(s, Offset(cs, i), Offset(cs, k), c.bytes), cs[..i] + [c] + cs[k..])
  {
    SplicedBlock(s, cs, i, k, [c]);
    BytesOne(c);
  }

  lemma ChunkBytes(s: seq<byte>, cs: seq<Chunk>, k: nat)
    requires Block(s, cs) && k < |cs|
    ensures Offset(cs, k) + |cs[k].bytes| <= |s| && s[Offset(cs, k)..Offset(cs, k) + |cs[k].bytes|] == cs[k].bytes
  {
    CutBytes(cs, k);
    SamePart(s, 0, Bytes(cs[..k]), Bytes(cs[k..]));
    SamePart(s, Offset(cs, k), cs[k].bytes, Bytes(cs[k + 1..]));
    SameIsSlice(s, Offset(cs, k), cs[k].bytes);
  }
}
