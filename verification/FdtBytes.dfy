/**
 The format of lib/utils/libfdt said of the bytes: which bytes `fdt_next_tag` accepts for which tag, which it refuses
 and why, and which strings `fdt_get_string` reads (sections 5.4 and 5.5 of the Devicetree Specification v0.3).
 */
module FdtBytes {
  import opened Options
  import opened FdtFormat

  // ---- Cells ----

  /** The big-endian number in the four bytes at `o`. */
  function Word(s: seq<byte>, o: nat): nat
    requires o + 4 <= |s|
  {
    s[o] as nat * 0x100_0000 + s[o + 1] as nat * 0x1_0000 + s[o + 2] as nat * 0x100 + s[o + 3]
  }

  lemma CellIsWord(s: seq<byte>, o: nat)
    requires o + 4 <= |s|
    ensures Cell(s, o) == Word(s, o)
  {
    assert BigEndian(s, o, 1) == BigEndian(s, o, 0) * 256 + s[o] == s[o];
    assert BigEndian(s, o, 2) == s[o] as nat * 256 + s[o + 1];
    assert BigEndian(s, o, 3) == s[o] as nat * 0x1_0000 + s[o + 1] as nat * 256 + s[o + 2];
  }

  lemma ToCellIsWord(v: nat)
    requires v < CELL
    ensures Word(ToCell(v), 0) == v
  {
    CellRoundTrip(v);
    CellIsWord(ToCell(v), 0);
  }

  // ---- Tags ----

  /** `n` is `m` rounded up to a multiple of four. */
  predicate Rounded(m: nat, n: nat) { m <= n < m + 4 && n % 4 == 0 }

  /** The bytes at `o` spell the tag, with its name or value inside the block, and the next tag is at `n`. */
  predicate Spells(s: seq<byte>, o: nat, t: Token, n: nat) {
    && o + 4 <= |s|
    && match t
       case Begin(name) =>
         && Word(s, o) == 1 && o + 4 + |name| < |s| && s[o + 4..o + 4 + |name|] == name && 0 !in name
         && s[o + 4 + |name|] == 0 && Rounded(o + 4 + |name| + 1, n)
       case End => Word(s, o) == 2 && Rounded(o + 4, n)
       case Prop(nameoff, value) =>
         && Word(s, o) == 3 && |value| < 0xffff_fff4 && o + 12 + |value| <= |s| && Word(s, o + 4) == |value|
         && Word(s, o + 8) == nameoff && s[o + 12..o + 12 + |value|] == value && Rounded(o + 12 + |value|, n)
       case LongProp(len) =>
         && Word(s, o) == 3 && o + 8 <= |s| && Word(s, o + 4) == len && 0xffff_fff4 <= len
         && o + (len - 0xffff_fff4) <= |s| && Rounded(o + (len - 0xffff_fff4), n)
       case Nop => Word(s, o) == 4 && Rounded(o + 4, n)
       case Finish => Word(s, o) == 9 && Rounded(o + 4, n)
  }

  lemma AlignIsRounded(m: nat, n: nat)
    ensures Align(m) == n <==> Rounded(m, n)
  {
  }

  lemma BeginSpelt(s: seq<byte>, o: nat, name: seq<byte>, n: nat)
    requires o + 4 <= |s| && Word(s, o) == 1
    ensures NextBegin(s, o) == Found(Begin(name), n) <==> Spells(s, o, Begin(name), n)
    ensures NextBegin(s, o) == BadStructure <==> forall z :: o + 4 <= z < |s| ==> s[z] != 0
  {
    var z := FirstNul(s, o + 4);
    if z < |s| {
      assert 0 !in s[o + 4..z];
      AlignIsRounded(z + 1, n);
    }
    if Spells(s, o, Begin(name), n) {
      forall k | o + 4 <= k < o + 4 + |name| ensures s[k] != 0 {
        assert s[k] == name[k - (o + 4)];
      }
      FirstNulIs(s, o + 4, o + 4 + |name|);
    }
  }

  lemma PropSpelt(s: seq<byte>, o: nat, t: Token, n: nat)
    requires o + 4 <= |s| && Word(s, o) == 3
    ensures NextProp(s, o) == Found(t, n) <==> (t.Prop? || t.LongProp?) && Spells(s, o, t, n)
    ensures NextProp(s, o) == BadStructure <==> o + 8 > |s| || o + (12 + Word(s, o + 4)) % CELL > |s|
  {
    if o + 8 <= |s| {
      CellIsWord(s, o + 4);
      CellBound(s, o + 4);
      AlignIsRounded(o + PropSpan(Word(s, o + 4)), n);
      if o + 12 <= |s| {
        CellIsWord(s, o + 8);
      }
    }
  }

  /** What the source accepts is exactly what is spelt. */
  lemma TagSpelt(s: seq<byte>, o: nat, t: Token, n: nat)
    ensures NextTag(s, o) == Found(t, n) <==> Spells(s, o, t, n)
  {
    if o + 4 <= |s| {
      CellIsWord(s, o);
      AlignIsRounded(o + 4, n);
      if Word(s, o) == 1 {
        if t.Begin? {
          BeginSpelt(s, o, t.name, n);
        }
      } else if Word(s, o) == 3 {
        PropSpelt(s, o, t, n);
      }
    }
  }

  /** What it refuses, and why: the block ends inside the tag's cell; the cell is none of the five tags; a name without
      NUL; a property whose length is not in the block, or that ends behind it. */
  lemma TagRefused(s: seq<byte>, o: nat)
    ensures NextTag(s, o) == Truncated <==> o + 4 > |s|
    ensures NextTag(s, o) == BadStructure <==>
              && o + 4 <= |s|
              && (|| Word(s, o) !in {1, 2, 3, 4, 9}
                  || (Word(s, o) == 1 && forall z :: o + 4 <= z < |s| ==> s[z] != 0)
                  || (Word(s, o) == 3 && (o + 8 > |s| || o + (12 + Word(s, o + 4)) % CELL > |s|)))
  {
    if o + 4 <= |s| {
      CellIsWord(s, o);
      if Word(s, o) == 1 {
        BeginSpelt(s, o, [], 0);
      } else if Word(s, o) == 3 {
        PropSpelt(s, o, Nop, 0);
      }
    }
  }

  // ---- Strings ----

  /** `fdt_get_string` reads the bytes up to the first NUL, and fails exactly when there is none. */
  lemma StringSpelt(st: seq<byte>, o: nat, name: seq<byte>)
    ensures StringAt(st, o) == Some(name) <==>
              o + |name| < |st| && st[o..o + |name|] == name && 0 !in name && st[o + |name|] == 0
    ensures StringAt(st, o).None? <==> forall z :: o <= z < |st| ==> st[z] != 0
  {
    if o < |st| {
      var z := FirstNul(st, o);
      if z < |st| {
        assert 0 !in st[o..z];
      }
      if o + |name| < |st| && st[o..o + |name|] == name && 0 !in name && st[o + |name|] == 0 {
        forall k | o <= k < o + |name| ensures st[k] != 0 {
          assert st[k] == name[k - o];
        }
        FirstNulIs(st, o, o + |name|);
      }
    }
  }
}
