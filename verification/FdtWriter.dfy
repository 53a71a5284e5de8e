/**
 The sequential writer of lib/utils/libfdt/fdt_sw.c. The structure block grows upwards from the front of
 the buffer and the strings block downwards from its end; `fdt_finish` joins them. A reader of the finished
 blob meets exactly the calls that the writer accepted.
 */
module FdtWriter {
  import opened Options
  import opened FdtFormat
  import opened FdtMemory

  /** `Outside` is no answer of the source: it stands for a store outside the buffer, behind which nothing more is
      said. */
  datatype Status = Ok | NoSpace | BadState | Outside

  // ---- Meaning of an unfinished blob ----

  /** `fdt_get_string` under FDT_SW_MAGIC: the cell is a negative offset from the end of the strings. */
  function SwString(st: seq<byte>, cell: nat): Option<seq<byte>> {
    if cell < CELL && CELL - cell <= |st| then StringAt(st, |st| - (CELL - cell)) else None
  }

  predicate Means(t: Token, st: seq<byte>, e: Event) {
    match e
    case BeginNode(name) => t == Begin(name)
    case EndNode => t == End
    case Property(name, value) => t.Prop? && t.value == value && SwString(st, t.nameoff) == Some(name)
  }

  predicate AllMean(ts: seq<Token>, st: seq<byte>, es: seq<Event>) {
    |ts| == |es| && forall i :: 0 <= i < |ts| ==> Means(ts[i], st, es[i])
  }

  /** Strings added in front leave the older ones where they are. */
  lemma FrontStringKeeps(ts: seq<Token>, front: seq<byte>, st: seq<byte>, es: seq<Event>)
    requires AllMean(ts, st, es)
    ensures AllMean(ts, front + st, es)
  {
    forall i | 0 <= i < |ts| ensures Means(ts[i], front + st, es[i]) {
      assert Means(ts[i], st, es[i]);
      if es[i].Property? {
        StringInSuffix(front, st, |st| - (CELL - ts[i].nameoff));
      }
    }
  }

  // ---- The fix-up of the finished blob ----

  /** `fdt_finish` adds the size of the strings block to each name offset, modulo 2^32. */
  function Fixed(t: Token, size: nat): Token {
    if t.Prop? then t.(nameoff := (t.nameoff + size) % CELL) else t
  }

  lemma FixedResolves(t: Token, st: seq<byte>, e: Event)
    requires Means(t, st, e) && |st| < CELL
    ensures Meaning(Fixed(t, |st|), st) == Some([e])
  {
    if e.Property? {
      assert (t.nameoff + |st|) % CELL == |st| - (CELL - t.nameoff);
    }
  }

  function FixedAll(ts: seq<Token>, size: nat): (fs: seq<Token>)
    ensures |fs| == |ts| && forall i :: 0 <= i < |ts| ==> fs[i] == Fixed(ts[i], size)
  {
    seq(|ts|, i requires 0 <= i < |ts| => Fixed(ts[i], size))
  }

  lemma {:induction false} FixedAllResolve(ts: seq<Token>, st: seq<byte>, es: seq<Event>)
    requires AllMean(ts, st, es) && |st| < CELL
    ensures MeaningAll(FixedAll(ts, |st|), st) == Some(es)
  {
    var fs := FixedAll(ts, |st|);
    if ts != [] {
      assert Means(ts[0], st, es[0]);
      FixedResolves(ts[0], st, es[0]);
      forall i | 0 <= i < |ts| - 1 ensures Means(ts[1..][i], st, es[1..][i]) {
        assert Means(ts[i + 1], st, es[i + 1]);
      }
      FixedAllResolve(ts[1..], st, es[1..]);
      assert fs[1..] == FixedAll(ts[1..], |st|);
      assert [es[0]] + es[1..] == es;
    }
  }

  /** A property tag with another name offset. */
  function Renamed(b: seq<byte>, nameoff: nat): (r: seq<byte>)
    requires 12 <= |b|
    ensures |r| == |b|
  {
    b[..8] + ToCell(nameoff) + b[12..]
  }

  lemma RenamedReads(b: seq<byte>, t: Token, nameoff: nat)
    requires t.Prop? && IsTag(b, t) && nameoff < CELL
    ensures 12 <= |b| && IsTag(Renamed(b, nameoff), t.(nameoff := nameoff))
  {
    var r := Renamed(b, nameoff);
    SameNumber(r, 0, b[..8], 0, 4);
    SameNumber(b, 0, b[..8], 0, 4);
    SameNumber(r, 0, b[..8], 4, 4);
    SameNumber(b, 0, b[..8], 4, 4);
    assert SameBytes(r, 8, ToCell(nameoff));
    CellStands(r, 8, nameoff);
    assert r[12..12 + |t.value|] == b[12..12 + |t.value|];
  }

  /** A tag as the fix-up leaves it. */
  function FixedChunk(c: Chunk, size: nat): Chunk {
    if c.token.Prop? && 12 <= |c.bytes| then
      Chunk(Renamed(c.bytes, (c.token.nameoff + size) % CELL), Fixed(c.token, size))
    else c
  }

  lemma FixedChunkOk(c: Chunk, size: nat)
    requires IsTag(c.bytes, c.token)
    ensures var f := FixedChunk(c, size);
            IsTag(f.bytes, f.token) && f.token == Fixed(c.token, size) && |f.bytes| == |c.bytes|
    ensures c.token.Prop? ==> 12 <= |c.bytes|
  {
    if c.token.Prop? {
      RenamedReads(c.bytes, c.token, (c.token.nameoff + size) % CELL);
    }
  }

  /** The bytes `s` are the tags `front`, then `rest`, then FDT_END. */
  ghost predicate Parts(s: seq<byte>, front: seq<Chunk>, rest: seq<Chunk>, fin: seq<byte>) {
    s == Bytes(front) + Bytes(rest) + fin && ChunksOk(front) && ChunksOk(rest) && IsTag(fin, Finish)
  }

  lemma Terminated(s: seq<byte>, cs: seq<Chunk>, fin: seq<byte>)
    requires s == Bytes(cs) && ChunksOk(cs) && IsTag(fin, Finish)
    ensures Parts(s + fin, [], cs, fin)
  {
    assert Bytes([]) + Bytes(cs) == Bytes(cs);
  }

  lemma PartsNext(s: seq<byte>, front: seq<Chunk>, rest: seq<Chunk>, fin: seq<byte>)
    requires Parts(s, front, rest, fin)
    ensures NextTag(s, |Bytes(front)|) ==
              if rest == [] then Found(Finish, |s|) else Found(rest[0].token, |Bytes(front)| + |rest[0].bytes|)
  {
    BytesAligned(front);
    if rest == [] {
      TagStands(s, |Bytes(front)|, fin, Finish);
    } else {
      assert Bytes(rest) == rest[0].bytes + Bytes(rest[1..]);
      TagStands(s, |Bytes(front)|, rest[0].bytes, rest[0].token);
    }
  }

  lemma Exchange(a: seq<byte>, x: seq<byte>, b: seq<byte>, y: seq<byte>)
    ensures (a + x + b)[..|a|] + y + (a + x + b)[|a| + |x|..] == a + y + b
  {
    assert (a + x + b)[..|a|] == a && (a + x + b)[|a| + |x|..] == b;
  }

  lemma BytesSnoc(cs: seq<Chunk>, c: Chunk)
    ensures Bytes(cs + [c]) == Bytes(cs) + c.bytes
  {
    BytesAppend(cs, [c]);
    BytesOne(c);
  }

  lemma ChunksSnoc(cs: seq<Chunk>, c: Chunk)
    requires ChunksOk(cs) && IsTag(c.bytes, c.token)
    ensures ChunksOk(cs + [c])
  {
  }

  /** The first tag of the rest, itself or renamed, joins the front. */
  lemma PartsStep(s: seq<byte>, front: seq<Chunk>, rest: seq<Chunk>, fin: seq<byte>, c: Chunk)
    requires Parts(s, front, rest, fin) && rest != [] && IsTag(c.bytes, c.token) && |c.bytes| == |rest[0].bytes|
    ensures |Bytes(front + [c])| == |Bytes(front)| + |c.bytes| <= |s|
    ensures var o := |Bytes(front)|; Parts(s[..o] + c.bytes + s[o + |c.bytes|..], front + [c], rest[1..], fin)
  {
    BytesSnoc(front, c);
    ChunksSnoc(front, c);
    assert Bytes(rest) == rest[0].bytes + Bytes(rest[1..]);
    ExchangeParts(Bytes(front), rest[0].bytes, Bytes(rest[1..]), fin, c.bytes);
  }

  lemma ExchangeParts(a: seq<byte>, x: seq<byte>, r: seq<byte>, f: seq<byte>, y: seq<byte>)
    requires |x| == |y|
    ensures var s := a + (x + r) + f;
            |a| + |y| <= |s| && s[..|a|] + y + s[|a| + |y|..] == (a + y) + r + f
  {
    assert a + (x + r) + f == a + x + (r + f);
    Exchange(a, x, r + f, y);
  }

  /** The fix-up loop before tag number `i`. */
  ghost predicate FixState(s: seq<byte>, fixed: seq<Chunk>, cs: seq<Chunk>, i: nat, fin: seq<byte>, size: nat) {
    && i <= |cs| && Parts(s, fixed, cs[i..], fin)
    && |fixed| == i && forall k :: 0 <= k < i ==> fixed[k].token == Fixed(cs[k].token, size)
  }

  /** The structure after one turn of the loop over a tag from `o` to `next`. */
  function FixedBytes(s: seq<byte>, o: nat, next: nat, t: Token, size: nat): (r: seq<byte>)
    requires o <= next <= |s| && (t.Prop? ==> o + 12 <= next)
    ensures |r| == |s|
  {
    if t.Prop? then s[..o] + Renamed(s[o..next], (t.nameoff + size) % CELL) + s[next..] else s
  }

  lemma FixStateNext(s: seq<byte>, fixed: seq<Chunk>, cs: seq<Chunk>, i: nat, fin: seq<byte>, size: nat)
    requires FixState(s, fixed, cs, i, fin, size) && Finish !in Tokens(cs)
    ensures var o := |Bytes(fixed)|;
            if i == |cs| then
              NextTag(s, o) == Found(Finish, |s|) && Tokens(fixed) == FixedAll(Tokens(cs), size)
            else
              var c := cs[i];
              && NextTag(s, o) == Found(c.token, o + |c.bytes|) && c.token != Finish && o + |c.bytes| <= |s|
              && (c.token.Prop? ==> 12 <= |c.bytes|)
  {
    PartsNext(s, fixed, cs[i..], fin);
    if i < |cs| {
      assert cs[i].token == Tokens(cs)[i];
      FixedChunkOk(cs[i], size);
      PartsHere(s, fixed, cs[i..], fin);
    }
  }

  lemma FixAdvance(s: seq<byte>, fixed: seq<Chunk>, cs: seq<Chunk>, i: nat, fin: seq<byte>, size: nat)
    requires FixState(s, fixed, cs, i, fin, size) && i < |cs|
    ensures var o, c, f := |Bytes(fixed)|, cs[i], FixedChunk(cs[i], size);
            && |Bytes(fixed + [f])| == o + |c.bytes| <= |s| && (c.token.Prop? ==> 12 <= |c.bytes|)
            && FixState(FixedBytes(s, o, o + |c.bytes|, c.token, size), fixed + [f], cs, i + 1, fin, size)
  {
    hide Bytes, Parts, IsTag, Renamed, ChunksOk;
    var o, c, f := |Bytes(fixed)|, cs[i], FixedChunk(cs[i], size);
    assert Parts(s, fixed, cs[i..], fin) && cs[i..][0] == c && cs[i..][1..] == cs[i + 1..];
    PartsHere(s, fixed, cs[i..], fin);
    FixedTag(s, fixed, cs[i..], fin);
    FixedChunkOk(c, size);
    PartsStep(s, fixed, cs[i..], fin, f);
    assert s[..o] + f.bytes + s[o + |c.bytes|..] == FixedBytes(s, o, o + |c.bytes|, c.token, size);
  }

  lemma FixedTag(s: seq<byte>, front: seq<Chunk>, rest: seq<Chunk>, fin: seq<byte>)
    requires Parts(s, front, rest, fin) && rest != []
    ensures IsTag(rest[0].bytes, rest[0].token)
  {
  }

  /** What one turn of the loop meets and leaves. */
  lemma FixTurn(s: seq<byte>, fixed: seq<Chunk>, cs: seq<Chunk>, i: nat, fin: seq<byte>, size: nat)
    requires FixState(s, fixed, cs, i, fin, size) && Finish !in Tokens(cs)
    ensures var o := |Bytes(fixed)|;
            var r := NextTag(s, o);
            && r.Found? && o <= r.next <= |s| && (r.token.Prop? ==> o + 12 <= r.next)
            && (r.token == Finish ==> Parts(s, fixed, [], fin) && Tokens(fixed) == FixedAll(Tokens(cs), size))
            && (r.token != Finish ==>
              i < |cs| && r.next == |Bytes(fixed + [FixedChunk(cs[i], size)])|
              && FixState(FixedBytes(s, o, r.next, r.token, size), fixed + [FixedChunk(cs[i], size)], cs, i + 1, fin, size))
  {
    FixStateNext(s, fixed, cs, i, fin, size);
    if i < |cs| {
      FixAdvance(s, fixed, cs, i, fin, size);
    } else {
      assert cs[i..] == [];
    }
  }

  lemma PartsHere(s: seq<byte>, front: seq<Chunk>, rest: seq<Chunk>, fin: seq<byte>)
    requires Parts(s, front, rest, fin) && rest != []
    ensures var o := |Bytes(front)|;
            o + |rest[0].bytes| <= |s| && s[o..o + |rest[0].bytes|] == rest[0].bytes
            && s == s[..o] + rest[0].bytes + s[o + |rest[0].bytes|..]
  {
    Middle(Bytes(front), rest[0].bytes, Bytes(rest[1..]) + fin);
    assert s == Bytes(front) + rest[0].bytes + (Bytes(rest[1..]) + fin);
  }

  lemma Middle(a: seq<byte>, x: seq<byte>, b: seq<byte>)
    ensures var s := a + x + b; s[|a|..|a| + |x|] == x && s == s[..|a|] + x + s[|a| + |x|..]
  {
  }

  /** The fixed-up blocks are read as the events. */
  lemma FixedDecodes(s: seq<byte>, st: seq<byte>, cs: seq<Chunk>, fixed: seq<Chunk>, fin: seq<byte>, es: seq<Event>)
    requires Parts(s, fixed, [], fin) && Tokens(fixed) == FixedAll(Tokens(cs), |st|) && |st| < CELL
    requires AllMean(Tokens(cs), st, es) && Finish !in Tokens(cs)
    ensures Decode(s, st) == Some(es)
  {
    assert s == Bytes(fixed) + fin;
    forall i | 0 <= i < |fixed| ensures Tokens(fixed)[i] != Finish {
      assert Tokens(cs)[i] in Tokens(cs);
    }
    WalkAll(fixed, fin);
    FixedAllResolve(Tokens(cs), st, es);
  }

  // ---- The writer ----

  /** The structure bytes `s` with the strings `st` are the tags `cs`, which mean the events `es`. */
  ghost predicate Layout(s: seq<byte>, st: seq<byte>, cs: seq<Chunk>, es: seq<Event>) {
    && s == Bytes(cs) && ChunksOk(cs) && Finish !in Tokens(cs)
    && AllMean(Tokens(cs), st, es)
  }

  lemma LayoutAppend(s: seq<byte>, st: seq<byte>, cs: seq<Chunk>, es: seq<Event>, c: Chunk, e: Event)
    requires Layout(s, st, cs, es) && IsTag(c.bytes, c.token) && c.token != Finish && Means(c.token, st, e)
    ensures Layout(s + c.bytes, st, cs + [c], es + [e])
  {
    BytesAppend(cs, [c]);
    BytesOne(c);
    assert Tokens(cs + [c]) == Tokens(cs) + [c.token];
  }

  lemma LayoutFront(s: seq<byte>, front: seq<byte>, st: seq<byte>, cs: seq<Chunk>, es: seq<Event>)
    requires Layout(s, st, cs, es)
    ensures Layout(s, front + st, cs, es)
  {
    FrontStringKeeps(Tokens(cs), front, st, es);
  }

  lemma FrontStands(name: seq<byte>, st: seq<byte>)
    requires IsName(name)
    ensures StringAt(name + [0] + st, 0) == Some(name)
  {
    var s := name + [0] + st;
    assert SameBytes(s, 0, name + [0]);
    StringStands(s, 0, name);
  }

  /** A stretch written behind the structure extends it and leaves the strings, which begin at `tail`. */
  lemma Placed(was: seq<byte>, now: seq<byte>, start: nat, at: nat, len: nat, tail: nat)
    requires start <= at && at + len <= tail <= |was| == |now|
    requires now[..at] == was[..at] && now[at + len..] == was[at + len..]
    ensures now[start..at + len] == was[start..at] + now[at..at + len]
    ensures now[tail..] == was[tail..]
  {
    assert now[start..at] == now[..at][start..] == was[..at][start..] == was[start..at];
    assert now[start..at + len] == now[start..at] + now[at..at + len];
    assert now[tail..] == now[at + len..][tail - (at + len)..] == was[at + len..][tail - (at + len)..] == was[tail..];
  }

  lemma RenamedPlaced(s: seq<byte>, offset: nat, next: nat, nameoff: nat)
    requires offset + 12 <= next <= |s|
    ensures Spliced(s, offset + 8, offset + 12, ToCell(nameoff)) == s[..offset] + Renamed(s[offset..next], nameoff) + s[next..]
  {
  }

  lemma HeadWritten(b: seq<byte>, head: seq<byte>, nameoff: nat, value: seq<byte>)
    requires head == ToCell(FDT_PROP) + ToCell(|value|) + ToCell(nameoff) && nameoff < CELL && |value| < LONG
    requires |b| == 12 + Align(|value|) && SameBytes(b, 0, head) && SameBytes(b, |head|, value)
    ensures IsTag(b, Prop(nameoff, value))
  {
    SamePart(b, 0, ToCell(FDT_PROP) + ToCell(|value|), ToCell(nameoff));
    SamePart(b, 0, ToCell(FDT_PROP), ToCell(|value|));
    PropWritten(b, nameoff, value);
  }

  lemma PrefixPart(was: seq<byte>, now: seq<byte>, m: nat, i: nat, j: nat)
    requires i <= j <= m <= |was| && m <= |now| && was[..m] <= now
    ensures now[i..j] == was[i..j]
  {
    assert now[i..j] == now[..m][i..j] && was[i..j] == was[..m][i..j];
  }

  // ---- Room for a name ----

  /** The test of `fdt_add_string_` in 32 bits, for a blob of `total` bytes whose structure ends at `top` and whose
      strings have `strings` bytes: whether `len` bytes go in front of the strings. */
  predicate RoomFor(total: nat, top: nat, strings: nat, len: nat) {
    (total - (strings + len) % CELL) % CELL >= top
  }

  /** The `len` bytes lie in the free gap between the structure and the strings. */
  predicate InGap(total: nat, top: nat, strings: nat, len: nat) {
    top <= total - (strings + len) % CELL && total - (strings + len) % CELL + len <= total - strings
  }

  /** A name that passes the test is stored in the gap exactly when the strings with it are no larger than the blob;
      so a name is refused exactly for want of room only where this holds. */
  lemma RoomExact(total: nat, top: nat, strings: nat, len: nat)
    requires top + strings <= total < CELL && 0 < len < CELL
    ensures RoomFor(total, top, strings, len) <==> top + strings + len <= total || strings + len > total
    ensures RoomFor(total, top, strings, len) ==> (InGap(total, top, strings, len) <==> strings + len <= total)
  {
    if strings + len < CELL {
      SmallMod(strings + len);
      DifferenceMod(total, strings + len);
    } else {
      WrapMod(strings + len);
      DifferenceMod(total, strings + len - CELL);
    }
  }

  lemma SmallMod(a: nat)
    requires a < CELL
    ensures a % CELL == a
  {
  }

  lemma WrapMod(a: nat)
    requires CELL <= a < 2 * CELL
    ensures a % CELL == a - CELL
  {
  }

  lemma DifferenceMod(a: nat, b: nat)
    requires a < CELL && b < CELL
    ensures (a - b) % CELL == if b <= a then a - b else a - b + CELL
  {
  }

  /** A blob of 64 bytes with 24 of them free takes a name of 100 bytes, and stores it in front of itself. */
  lemma StrayName()
    ensures RoomFor(64, 40, 0, 101) && !InGap(64, 40, 0, 101) && 64 - (0 + 101) % CELL < 0
  {
    RoomExact(64, 40, 0, 101);
  }

  /** A move of the last `len` bytes to `dst`; what stands in front of it from `lo` on stays. */
  method MoveDown(buf: array<byte>, lo: nat, dst: nat, src: nat, len: nat)
    requires lo <= dst <= src && src + len == buf.Length
    modifies buf
    ensures buf[lo..dst] == old(buf[lo..dst]) && buf[dst..dst + len] == old(buf[src..])
  {
    ghost var was := buf[..];
    Move(buf, dst, src, len);
    ghost var now := buf[..];
    assert now[..dst] == was[..dst];
    assert now[lo..dst] == now[..dst][lo..] && was[lo..dst] == was[..dst][lo..];
    assert now[dst..dst + len] == was[src..src + len];
  }

  class Writer {
    const buf: array<byte>
    /** FDT_CREATE_FLAG_NO_NAME_DEDUP. */
    const noDedup: bool
    /** The magic is FDT_MAGIC, no longer FDT_SW_MAGIC. */
    var complete: bool
    var totalSize: nat
    const offStruct: nat
    var sizeStruct: nat
    var offStrings: nat
    var sizeStrings: nat

    ghost var chunks: seq<Chunk>
    ghost var events: seq<Event>

    function Struct(): (s: seq<byte>)
      reads this`sizeStruct, buf
      requires offStruct + sizeStruct <= buf.Length
    {
      buf[offStruct..offStruct + sizeStruct]
    }

    /** The strings of an unfinished blob, at the end of the buffer. */
    function Strings(): (s: seq<byte>)
      reads this`sizeStrings, buf
      requires sizeStrings <= buf.Length
    {
      buf[buf.Length - sizeStrings..]
    }

    /** The blob is being written, and its blocks mean `events`. */
    ghost predicate Valid()
      reads this, buf
    {
      && !complete && totalSize == offStrings == buf.Length < CELL / 2
      && offStruct + sizeStruct + sizeStrings <= buf.Length
      && Layout(Struct(), Strings(), chunks, events)
    }

    /** `fdt_create_with_flags` and the reserve map, which ends at `start`. */
    constructor (memory: array<byte>, start: nat, noDedup: bool)
      requires start <= memory.Length < CELL / 2
      ensures Valid() && buf == memory && this.noDedup == noDedup && events == []
    {
      buf, this.noDedup, complete, totalSize := memory, noDedup, false, memory.Length;
      offStruct, sizeStruct, offStrings, sizeStrings := start, 0, memory.Length, 0;
      chunks, events := [], [];
    }

    /** `fdt_grab_space_`: room for `len` more bytes of structure, if the strings leave it. */
    method GrabSpace(len: nat) returns (at: Option<nat>)
      requires offStruct + sizeStruct + sizeStrings <= totalSize
      modifies this`sizeStruct
      ensures at.Some? <==> offStruct + old(sizeStruct) + len + sizeStrings <= totalSize
      ensures at.Some? ==> at.value == offStruct + old(sizeStruct) && sizeStruct == old(sizeStruct) + len
      ensures at.None? ==> sizeStruct == old(sizeStruct)
    {
      var offset := sizeStruct;
      var spaceLeft := totalSize - offStruct - sizeStrings;
      if offset + len > spaceLeft {
        return None;
      }
      sizeStruct := offset + len;
      return Some(offStruct + offset);
    }

    /** Grabs `len` bytes and stores a tag there: `head` and `body`, and padding that is left as it was. */
    method Place(head: seq<byte>, body: seq<byte>, len: nat) returns (ok: bool)
      requires |head| + |body| <= len && totalSize == buf.Length
      requires offStruct + sizeStruct + sizeStrings <= buf.Length
      modifies this`sizeStruct, buf
      ensures ok <==> offStruct + old(sizeStruct) + len + sizeStrings <= buf.Length
      ensures ok ==> sizeStruct == old(sizeStruct) + len && Strings() == old(Strings())
      ensures ok ==> var b := buf[offStruct + old(sizeStruct)..offStruct + sizeStruct];
                     Struct() == old(Struct()) + b && SameBytes(b, 0, head) && SameBytes(b, |head|, body)
      ensures !ok ==> unchanged(this) && unchanged(buf)
    {
      ghost var was := buf[..];
      var at := GrabSpace(len);
      if at.None? {
        return false;
      }
      StoreTwo(buf, at.value, head, body, len);
      Placed(was, buf[..], offStruct, at.value, len, buf.Length - sizeStrings);
      ok := true;
    }

    /** Accounts for the tag that now ends the structure block. */
    ghost method Append(s: seq<byte>, c: Chunk, e: Event)
      requires !complete && totalSize == offStrings == buf.Length < CELL / 2
      requires offStruct + sizeStruct + sizeStrings <= buf.Length && Struct() == s + c.bytes
      requires Layout(s, Strings(), chunks, events)
      requires IsTag(c.bytes, c.token) && c.token != Finish && Means(c.token, Strings(), e)
      modifies this`chunks, this`events
      ensures Valid() && events == old(events) + [e]
    {
      LayoutAppend(s, Strings(), chunks, events, c, e);
      chunks, events := chunks + [c], events + [e];
    }

    /** `fdt_begin_node`. */
    method Begin(name: seq<byte>) returns (status: Status)
      requires (complete || Valid()) && IsName(name)
      modifies this, buf
      ensures status == if old(complete) then BadState
                        else if offStruct + old(sizeStruct) + 4 + Align(|name| + 1) + old(sizeStrings) <= buf.Length then Ok
                        else NoSpace
      ensures if status == Ok then Valid() && events == old(events) + [BeginNode(name)]
              else unchanged(this) && unchanged(buf)
    {
      hide Layout, IsTag, SameBytes, ToCell;
      if complete {
        return BadState;
      }
      ghost var s := Struct();
      var ok := Place(ToCell(FDT_BEGIN_NODE), name + [0], 4 + Align(|name| + 1));
      if !ok {
        return NoSpace;
      }
      ghost var b := buf[offStruct + |s|..offStruct + sizeStruct];
      BeginWritten(b, name);
      Append(s, Chunk(b, Token.Begin(name)), BeginNode(name));
      status := Ok;
    }

    /** `fdt_end_node`. */
    method EndNode() returns (status: Status)
      requires complete || Valid()
      modifies this, buf
      ensures status == if old(complete) then BadState
                        else if offStruct + old(sizeStruct) + 4 + old(sizeStrings) <= buf.Length then Ok
                        else NoSpace
      ensures if status == Ok then Valid() && events == old(events) + [Event.EndNode]
              else unchanged(this) && unchanged(buf)
    {
      if complete {
        return BadState;
      }
      ghost var s := Struct();
      var ok := Place(ToCell(FDT_END_NODE), [], 4);
      if !ok {
        return NoSpace;
      }
      ghost var b := buf[offStruct + |s|..offStruct + sizeStruct];
      BareTagWritten(b, FDT_END_NODE, End);
      Append(s, Chunk(b, End), Event.EndNode);
      status := Ok;
    }

    /** `fdt_add_string_`: puts the name in front of the strings; 0 when there is no room. The source subtracts
        without a check: a name that the whole blob could not hold is stored outside. */
    method AddString(name: seq<byte>) returns (nameoff: nat, outside: bool)
      requires totalSize == buf.Length < CELL / 2 && offStruct + sizeStruct + sizeStrings <= buf.Length
      requires |name| + 1 < CELL
      modifies this`sizeStrings, buf
      ensures outside <==> old(sizeStrings) + |name| + 1 > totalSize
      ensures nameoff == 0 <==> offStruct + sizeStruct + old(sizeStrings) + |name| + 1 > totalSize
      ensures nameoff == 0 ==> unchanged(this) && unchanged(buf)
      ensures nameoff != 0 ==> nameoff == CELL - sizeStrings && sizeStrings == old(sizeStrings) + |name| + 1
      ensures nameoff != 0 ==> Strings() == name + [0] + old(Strings()) && Struct() == old(Struct())
    {
      hide *;
      var len := |name| + 1;
      var structTop := offStruct + sizeStruct;
      RoomExact(totalSize, structTop, sizeStrings, len);
      outside := false;
      if !RoomFor(totalSize, structTop, sizeStrings, len) {
        return 0, outside;
      }
      if !InGap(totalSize, structTop, sizeStrings, len) {
        return 0, true;
      }
      nameoff := CELL - (sizeStrings + len);
      PutString(name);
    }

    /** The store of `fdt_add_string_`. */
    method PutString(name: seq<byte>)
      requires offStruct + sizeStruct + sizeStrings + |name| + 1 <= buf.Length
      modifies this`sizeStrings, buf
      ensures sizeStrings == old(sizeStrings) + |name| + 1
      ensures Strings() == name + [0] + old(Strings()) && Struct() == old(Struct())
    {
      ghost var was := buf[..];
      var len := |name| + 1;
      var at := buf.Length - (sizeStrings + len);
      Store(buf, at, name + [0]);
      ghost var now := buf[..];
      sizeStrings := sizeStrings + len;
      PrefixPart(was, now, at, offStruct, offStruct + sizeStruct);
      assert now[at..] == name + [0] + was[at + len..];
    }

    /** `fdt_find_add_string_`. */
    method FindAddString(name: seq<byte>) returns (nameoff: nat, isNew: bool, outside: bool)
      requires totalSize == buf.Length < CELL / 2 && offStruct + sizeStruct + sizeStrings <= buf.Length
      requires |name| + 1 < CELL && IsName(name)
      modifies this`sizeStrings, buf
      ensures isNew <==> !Occurs(old(Strings()), name)
      ensures outside <==> isNew && old(sizeStrings) + |name| + 1 > totalSize
      ensures nameoff == 0 <==> isNew && offStruct + sizeStruct + old(sizeStrings) + |name| + 1 > totalSize
      ensures nameoff == 0 || !isNew ==> unchanged(this) && unchanged(buf)
      ensures nameoff != 0 && isNew ==> sizeStrings == old(sizeStrings) + |name| + 1
      ensures nameoff != 0 && isNew ==> Strings() == name + [0] + old(Strings())
      ensures Struct() == old(Struct())
      ensures nameoff != 0 ==> SwString(Strings(), nameoff) == Some(name)
    {
      var st := buf[buf.Length - sizeStrings..];
      var p := FindString(st, name);
      if p.Some? {
        StringStands(st, p.value, name);
        return CELL - (sizeStrings - p.value), false, false;
      }
      isNew := true;
      nameoff, outside := AddString(name);
      if nameoff != 0 {
        FrontStands(name, st);
      }
    }

    /** The name of a property, old or new, with the cell that points to it. The blocks keep their meaning. */
    method NameFor(name: seq<byte>) returns (nameoff: nat, isNew: bool, outside: bool)
      requires Valid() && IsName(name) && |name| + 1 < CELL
      modifies this`sizeStrings, buf
      ensures Valid() && Struct() == old(Struct())
      ensures isNew <==> noDedup || !Occurs(old(Strings()), name)
      ensures outside <==> isNew && old(sizeStrings) + |name| + 1 > buf.Length
      ensures nameoff == 0 <==> isNew && offStruct + sizeStruct + old(sizeStrings) + |name| + 1 > buf.Length
      ensures nameoff == 0 || !isNew ==> unchanged(this) && unchanged(buf)
      ensures nameoff != 0 && isNew ==>
                sizeStrings == old(sizeStrings) + |name| + 1 && Strings() == name + [0] + old(Strings())
      ensures nameoff != 0 ==> nameoff < CELL && SwString(Strings(), nameoff) == Some(name)
    {
      ghost var s, st := Struct(), Strings();
      if noDedup {
        isNew := true;
        nameoff, outside := AddString(name);
        FrontStands(name, st);
      } else {
        nameoff, isNew, outside := FindAddString(name);
      }
      LayoutFront(s, name + [0], st, chunks, events);
    }

    /** `fdt_del_last_string_`. */
    method DropLastString(name: seq<byte>, ghost st: seq<byte>)
      requires sizeStrings <= buf.Length && Strings() == name + [0] + st
      modifies this`sizeStrings
      ensures sizeStrings == old(sizeStrings) - (|name| + 1) && Strings() == st
    {
      ghost var longer := Strings();
      sizeStrings := sizeStrings - (|name| + 1);
      assert Strings() == longer[|name| + 1..];
    }

    /** The tag of a property whose name is in the strings. */
    method PlaceProperty(name: seq<byte>, nameoff: nat, value: seq<byte>) returns (ok: bool)
      requires Valid() && |value| < CELL / 2 && nameoff < CELL && SwString(Strings(), nameoff) == Some(name)
      modifies this`sizeStruct, this`chunks, this`events, buf
      ensures Valid() && Strings() == old(Strings())
      ensures ok <==> offStruct + old(sizeStruct) + 12 + Align(|value|) + sizeStrings <= buf.Length
      ensures events == if ok then old(events) + [Event.Property(name, value)] else old(events)
      ensures !ok ==> unchanged(this) && unchanged(buf)
    {
      hide ToCell, Layout, SwString, Align, IsTag, SameBytes;
      ghost var s := Struct();
      var head := ToCell(FDT_PROP) + ToCell(|value|) + ToCell(nameoff);
      ok := Place(head, value, 12 + Align(|value|));
      if ok {
        ghost var b := buf[offStruct + |s|..offStruct + sizeStruct];
        HeadWritten(b, head, nameoff, value);
        Append(s, Chunk(b, Prop(nameoff, value)), Event.Property(name, value));
      }
    }

    /** A name is new, and the strings with it would be larger than the whole buffer. */
    ghost predicate Stray(name: seq<byte>)
      reads this`sizeStrings, buf
      requires sizeStrings <= buf.Length
    {
      (noDedup || !Occurs(Strings(), name)) && sizeStrings + |name| + 1 > buf.Length
    }

    /** `fdt_property`. On failure the name that was added for it is taken out again; what is left of its bytes
        lies outside both blocks. */
    method Property(name: seq<byte>, value: seq<byte>) returns (status: Status)
      requires (complete || Valid()) && IsName(name) && |name| + 1 < CELL && |value| < CELL / 2
      modifies this, buf
      ensures status == if old(complete) then BadState
                        else if old(Stray(name)) then Outside
                        else if offStruct + old(sizeStruct) + 12 + Align(|value|) + old(sizeStrings)
                                + (if noDedup || !Occurs(old(Strings()), name) then |name| + 1 else 0) <= buf.Length then Ok
                        else NoSpace
      ensures status == Ok ==> Valid() && events == old(events) + [Event.Property(name, value)]
      ensures status == NoSpace ==> Valid() && events == old(events) && Struct() == old(Struct()) && Strings() == old(Strings())
      ensures status == BadState || status == Outside ==> unchanged(this) && unchanged(buf)
    {
      hide Layout, Occurs, IsName, Align, SwString;
      if complete {
        return BadState;
      }
      ghost var s, st := Struct(), Strings();
      assert Layout(s, st, chunks, events);
      var nameoff, isNew, outside := NameFor(name);
      if outside {
        return Outside;
      }
      if nameoff == 0 {
        return NoSpace;
      }
      var ok := PlaceProperty(name, nameoff, value);
      if ok {
        return Ok;
      }
      if isNew {
        DropLastString(name, st);
      }
      status := NoSpace;
    }

    /** Rewrites the name offset of the property tag that stands at `offset` and ends at `next`. */
    method Rename(offset: nat, next: nat, nameoff: nat)
      requires offset + 12 <= next <= sizeStruct && offStruct + sizeStruct <= buf.Length
      modifies buf
      ensures Struct() == old(Struct())[..offset] + Renamed(old(Struct())[offset..next], nameoff) + old(Struct())[next..]
      ensures buf[offStruct + sizeStruct..] == old(buf[offStruct + sizeStruct..])
    {
      hide Renamed, ToCell, Spliced;
      ghost var s := Struct();
      StoreIn(buf, offStruct, offStruct + sizeStruct, offset + 8, ToCell(nameoff));
      RenamedPlaced(s, offset, next, nameoff);
    }

    /** One turn of the loop of `fdt_finish` over the structure block. */
    method FixTag(offset: nat) returns (tag: Scan)
      requires offStruct + sizeStruct <= buf.Length
      requires var r := NextTag(Struct(), offset);
               r.Found? && offset <= r.next <= sizeStruct && (r.token.Prop? ==> offset + 12 <= r.next)
      modifies buf
      ensures tag == NextTag(old(Struct()), offset)
      ensures Struct() == FixedBytes(old(Struct()), offset, tag.next, tag.token, sizeStrings)
      ensures buf[offStruct + sizeStruct..] == old(buf[offStruct + sizeStruct..])
    {
      tag := ReadTag(buf[offStruct..offStruct + sizeStruct], offset);
      if tag.token.Prop? {
        Rename(offset, tag.next, (tag.token.nameoff + sizeStrings) % CELL);
      }
    }

    /** The loop of `fdt_finish`. */
    method FixNames(ghost cs: seq<Chunk>, ghost fin: seq<byte>) returns (ghost fixed: seq<Chunk>)
      requires offStruct + sizeStruct <= buf.Length && Parts(Struct(), [], cs, fin) && Finish !in Tokens(cs)
      modifies buf
      ensures Parts(Struct(), fixed, [], fin) && Tokens(fixed) == FixedAll(Tokens(cs), sizeStrings)
      ensures buf[offStruct + sizeStruct..] == old(buf[offStruct + sizeStruct..])
    {
      ghost var i := 0;
      fixed := [];
      var offset := 0;
      assert cs[0..] == cs;
      while true
        invariant FixState(Struct(), fixed, cs, i, fin, sizeStrings) && offset == |Bytes(fixed)|
        invariant buf[offStruct + sizeStruct..] == old(buf[offStruct + sizeStruct..])
        decreases |cs| - i
      {
        FixTurn(Struct(), fixed, cs, i, fin, sizeStrings);
        var tag := FixTag(offset);
        if tag.token == Finish {
          break;
        }
        offset, fixed, i := tag.next, fixed + [FixedChunk(cs[i], sizeStrings)], i + 1;
      }
    }

    /** The strings of a finished blob. */
    function FinalStrings(): (s: seq<byte>)
      reads this`offStrings, this`sizeStrings, buf
      requires offStrings + sizeStrings <= buf.Length
    {
      buf[offStrings..offStrings + sizeStrings]
    }

    /** `fdt_finish`: whoever walks the finished blob, names resolved, meets exactly the accepted calls. */
    method Complete() returns (status: Status)
      requires complete || Valid()
      modifies this, buf
      ensures status == if old(complete) then BadState
                        else if offStruct + old(sizeStruct) + 4 + old(sizeStrings) <= buf.Length then Ok
                        else NoSpace
      ensures status != Ok ==> unchanged(this) && unchanged(buf)
      ensures status == Ok ==> complete && offStrings == offStruct + sizeStruct && totalSize == offStrings + sizeStrings <= buf.Length
      ensures status == Ok ==> events == old(events) && Decode(Struct(), FinalStrings()) == Some(events)
    {
      if complete {
        return BadState;
      }
      var ok := Finalize();
      if !ok {
        return NoSpace;
      }
      totalSize, complete := offStrings + sizeStrings, true;
      status := Ok;
    }

    /** Both blocks in their final form. */
    method Finalize() returns (ok: bool)
      requires Valid()
      modifies this`sizeStruct, this`offStrings, buf
      ensures ok <==> offStruct + old(sizeStruct) + 4 + sizeStrings <= buf.Length
      ensures !ok ==> unchanged(this) && unchanged(buf)
      ensures ok ==> offStrings == offStruct + sizeStruct && offStrings + sizeStrings <= buf.Length
                     && Decode(Struct(), FinalStrings()) == Some(events)
    {
      hide Parts, ChunksOk, Bytes, AllMean, FixedAll, Decode, Tokens;
      ghost var st, cs := Strings(), chunks;
      ghost var fin;
      ok, fin := Terminate();
      if ok {
        ghost var fixed := Relocate(cs, fin);
        FixedDecodes(Struct(), st, cs, fixed, fin, events);
      }
    }

    /** The strings move down behind the structure, and the name offsets follow. */
    method Relocate(ghost cs: seq<Chunk>, ghost fin: seq<byte>) returns (ghost fixed: seq<Chunk>)
      requires totalSize == buf.Length && offStruct + sizeStruct + sizeStrings <= buf.Length
      requires Parts(Struct(), [], cs, fin) && Finish !in Tokens(cs)
      modifies this`offStrings, buf
      ensures offStrings == offStruct + sizeStruct && FinalStrings() == old(Strings())
      ensures Parts(Struct(), fixed, [], fin) && Tokens(fixed) == FixedAll(Tokens(cs), sizeStrings)
    {
      var oldOffset, newOffset := totalSize - sizeStrings, offStruct + sizeStruct;
      JoinStrings(oldOffset, newOffset);
      assert buf[newOffset..][..sizeStrings] == FinalStrings();
      fixed := FixNames(cs, fin);
      assert FinalStrings() == buf[newOffset..][..sizeStrings];
    }

    /** Adds the terminator. */
    method Terminate() returns (ok: bool, ghost fin: seq<byte>)
      requires Valid()
      modifies this`sizeStruct, buf
      ensures ok <==> offStruct + old(sizeStruct) + 4 + sizeStrings <= buf.Length
      ensures !ok ==> unchanged(this) && unchanged(buf)
      ensures ok ==> offStruct + sizeStruct + sizeStrings <= buf.Length && Strings() == old(Strings())
      ensures ok ==> Parts(Struct(), [], chunks, fin)
    {
      hide ToCell, Bytes, Align, Parts, ChunksOk;
      fin := [];
      ok := Place(ToCell(FDT_END), [], 4);
      if ok {
        fin := buf[offStruct + sizeStruct - 4..offStruct + sizeStruct];
        BareTagWritten(fin, FDT_END, Finish);
        Terminated(Bytes(chunks), chunks, fin);
      }
    }

    /** Moves the strings down behind the structure. */
    method JoinStrings(oldOffset: nat, newOffset: nat)
      requires newOffset <= oldOffset && oldOffset + sizeStrings == buf.Length && newOffset == offStruct + sizeStruct
      modifies this`offStrings, buf
      ensures offStrings == newOffset && FinalStrings() == old(Strings()) && Struct() == old(Struct())
    {
      MoveDown(buf, offStruct, newOffset, oldOffset, sizeStrings);
      offStrings := newOffset;
    }
  }
}
