/**
 PMP entries: `pmp_set` and `pmp_get` of lib/sbi/riscv_asm.c over 64-bit registers, `sbi_hart_pmp_configure`
 of lib/sbi/sbi_hart.c, and the hardware's first-match decision (section 3.7.1 of the RISC-V Privileged
 Architecture v1.12) against `sbi_domain_check_addr`.
 */
module Pmp {
  import opened Arith
  import opened Blocks
  import opened Domain

  const PMP_COUNT: nat := 64
  const PMP_SHIFT: nat := 2

  /** The A field. */
  datatype Match = Off | Tor | Na4 | Napot

  /** A configuration byte; `rest` are its two reserved bits. */
  datatype Prot = Prot(r: bool, w: bool, x: bool, a: Match, rest: nat, l: bool)

  function MatchCode(a: Match): nat {
    match a case Off => 0 case Tor => 1 case Na4 => 2 case Napot => 3
  }

  function CodeMatch(c: nat): Match {
    if c == 0 then Off else if c == 1 then Tor else if c == 2 then Na4 else Napot
  }

  /** The byte from its lowest bit up. */
  function Encode(p: Prot): nat {
    Bit01(p.r) + 2 * (Bit01(p.w) + 2 * (Bit01(p.x) + 2 * (MatchCode(p.a) + 4 * (p.rest + 4 * Bit01(p.l)))))
  }

  function Decode(b: nat): Prot {
    var b1 := b / 2;
    var b2 := b1 / 2;
    var b3 := b2 / 2;
    var b5 := b3 / 4;
    Prot(b % 2 == 1, b1 % 2 == 1, b2 % 2 == 1, CodeMatch(b3 % 4), b5 % 4, b5 / 4 % 2 == 1)
  }

  lemma DecodeEncode(p: Prot)
    requires p.rest < 4
    ensures Encode(p) < 256 && Decode(Encode(p)) == p
  {
    var e5 := p.rest + 4 * Bit01(p.l);
    var e3 := MatchCode(p.a) + 4 * e5;
    var e2 := Bit01(p.x) + 2 * e3;
    var e1 := Bit01(p.w) + 2 * e2;
    assert Encode(p) / 2 == e1 && e1 / 2 == e2 && e2 / 2 == e3 && e3 / 4 == e5;
    assert CodeMatch(MatchCode(p.a)) == p.a;
  }

  // ---- Eight bytes in a register ----

  /** The byte at place `k`: the mask 0xff shifted up by 8 * k. */
  function Byte(w: nat, k: nat): nat {
    if k == 0 then w % 256 else Byte(w / 256, k - 1)
  }

  /** The register with another byte at place `k`. */
  function WithByte(w: nat, k: nat, b: nat): nat {
    if k == 0 then w / 256 * 256 + b else WithByte(w / 256, k - 1, b) * 256 + w % 256
  }

  lemma {:induction false} WithByteIs(w: nat, k: nat, b: nat, j: nat)
    requires b < 256
    ensures Byte(WithByte(w, k, b), j) == if j == k then b else Byte(w, j)
  {
    if k > 0 && j > 0 {
      WithByteIs(w / 256, k - 1, b, j - 1);
      assert WithByte(w, k, b) / 256 == WithByte(w / 256, k - 1, b);
    } else if k == 0 && j > 0 {
      assert WithByte(w, k, b) / 256 == w / 256;
    }
  }

  // ---- Addresses ----

  /** The address register for a block: `pmp_set`'s encoding. */
  function AddrCode(base: nat, len: nat): nat {
    if len <= PMP_SHIFT then base / 4
    else if len >= XLEN then SPACE - 1
    else Floor(base / 4, len - PMP_SHIFT) + (Pow2(len - PMP_SHIFT - 1) - 1)
  }

  function TrailingOnes(a: nat): nat {
    if a % 2 == 1 then 1 + TrailingOnes(a / 2) else 0
  }

  function TrailingZeros(x: nat): nat
    requires x > 0
  {
    if x % 2 == 1 then 0 else 1 + TrailingZeros(x / 2)
  }

  /** `ctz`. */
  method Ctz(v: nat) returns (ret: nat)
    ensures ret == if v == 0 then XLEN else TrailingZeros(v)
  {
    if v == 0 {
      return XLEN;
    }
    ret := 0;
    var x := v;
    while x % 2 == 0
      invariant x > 0 && ret + TrailingZeros(x) == TrailingZeros(v)
      decreases x
    {
      ret := ret + 1;
      x := x / 2;
    }
  }

  /** The zeros at the end of the complement are the ones at the end. */
  lemma {:induction false} ComplementZeros(a: nat, n: nat)
    requires a < Pow2(n) - 1
    ensures TrailingZeros(Pow2(n) - 1 - a) == TrailingOnes(a)
  {
    if a % 2 == 1 {
      assert n > 0 && Pow2(n) == 2 * Pow2(n - 1);
      ComplementZeros(a / 2, n - 1);
      assert (Pow2(n) - 1 - a) / 2 == Pow2(n - 1) - 1 - a / 2;
    } else {
      assert n > 0 && Pow2(n) == 2 * Pow2(n - 1);
    }
  }

  /** The naturally aligned encoding tells its block. */
  lemma {:induction false} NapotTells(x: nat, k: nat)
    requires k > 0
    ensures var a := Floor(x, k) + (Pow2(k - 1) - 1);
            TrailingOnes(a) == k - 1 && Floor(a, k - 1) == Floor(x, k)
  {
    if k > 1 {
      NapotTells(x / 2, k - 1);
      OneMoreBit(Floor(x / 2, k - 1), Pow2(k - 2), Floor(x, k) + (Pow2(k - 1) - 1));
    }
  }

  lemma OneMoreBit(f: nat, p: nat, a: nat)
    requires p > 0 && a == 2 * f + (2 * p - 1)
    ensures a % 2 == 1 && a / 2 == f + (p - 1)
  {
    assert a == 2 * (f + (p - 1)) + 1;
  }

  lemma FloorByFour(base: nat, len: nat, x: nat, k: nat)
    requires x == base / 4 && len == k + 2
    ensures Floor(base, len) == 4 * Floor(x, k)
  {
    assert base / 2 / 2 == x;
    assert Floor(base, len) == 2 * Floor(base / 2, len - 1);
    assert Floor(base / 2, len - 1) == 2 * Floor(base / 2 / 2, len - 2);
  }

  lemma AddrCodeFits(base: nat, len: nat)
    requires base < SPACE && PMP_SHIFT <= len <= XLEN
    ensures AddrCode(base, len) < SPACE
    ensures len < XLEN ==> AddrCode(base, len) < SPACE - 1
  {
    SpaceIsPow2();
    if PMP_SHIFT < len < XLEN {
      Pow2Add(2, XLEN - 2);
      assert base / 4 < Pow2(XLEN - 2);
      BlockInside(base / 4, len - 2, XLEN - 2);
    }
  }

  datatype Status = Ok | Einval

  /** The decoded block of an address register, as `pmp_get` computes it. */
  function BlockOf(a: Match, addr: nat): (nat, nat) {
    if a != Napot then (addr * 4 % SPACE, PMP_SHIFT)
    else if addr == SPACE - 1 then (0, XLEN)
    else (Floor(addr, TrailingOnes(addr)) * 4 % SPACE, TrailingOnes(addr) + PMP_SHIFT + 1)
  }

  function MatchFor(len: nat): Match { if len == PMP_SHIFT then Na4 else Napot }

  /** `pmp_get` inverts `pmp_set` up to the alignment of the address. */
  lemma GetInvertsSet(base: nat, len: nat)
    requires base < SPACE && PMP_SHIFT <= len <= XLEN
    ensures BlockOf(MatchFor(len), AddrCode(base, len)) == (Floor(base, len), len)
  {
    FloorBounds(base, len);
    if len == XLEN {
      SpaceIsPow2();
      WholeSpace(base, XLEN);
    } else if len > PMP_SHIFT {
      NapotBlock(base, len);
    } else {
      FloorByFour(base, len, base / 4, 0);
    }
  }

  lemma {:induction false} NapotBlock(base: nat, len: nat)
    requires base < SPACE && PMP_SHIFT < len < XLEN
    ensures BlockOf(Napot, AddrCode(base, len)) == (Floor(base, len), len)
  {
    var x, k, a, f := base / 4, len - PMP_SHIFT, AddrCode(base, len), Floor(base, len);
    assert a < SPACE - 1 by {
      AddrCodeFits(base, len);
    }
    assert f < SPACE by {
      FloorBounds(base, len);
    }
    assert f == 4 * Floor(x, k) by {
      FloorByFour(base, len, x, k);
    }
    CodeTells(x, k, a, f);
  }

  lemma CodeTells(x: nat, k: nat, a: nat, f: nat)
    requires k > 0 && a == Floor(x, k) + (Pow2(k - 1) - 1) && a < SPACE - 1 && f == 4 * Floor(x, k) < SPACE
    ensures BlockOf(Napot, a) == (f, k + PMP_SHIFT)
  {
    NapotTells(x, k);
    NapotIs(a, TrailingOnes(a), f);
  }

  lemma NapotIs(a: nat, t: nat, f: nat)
    requires t == TrailingOnes(a) && a < SPACE - 1 && f == 4 * Floor(a, t) < SPACE
    ensures BlockOf(Napot, a) == (f, t + PMP_SHIFT + 1)
  {
    BelowSpace(f);
  }

  lemma BelowSpace(x: nat)
    requires x < SPACE
    ensures x % SPACE == x
  {
  }

  class Registers {
    /** pmpcfg0, pmpcfg2, and so on to pmpcfg14. */
    const cfg: array<nat>
    const addr: array<nat>

    ghost predicate Valid()
      reads this, cfg, addr
    {
      && cfg.Length == 8 && addr.Length == PMP_COUNT && cfg != addr
      && forall k :: 0 <= k < PMP_COUNT ==> addr[k] < SPACE
    }

    function ProtOf(n: nat): Prot
      reads this, cfg
      requires n < PMP_COUNT && cfg.Length == 8
    {
      Decode(Byte(cfg[n / 8], n % 8))
    }

    /** `pmp_set`: the entry alone changes. */
    method Set(n: nat, prot: Prot, base: nat, len: nat) returns (status: Status)
      requires Valid() && base < SPACE && prot.rest < 4
      modifies cfg, addr
      ensures Valid() && (status == Einval <==> n >= PMP_COUNT || len > XLEN || len < PMP_SHIFT)
      ensures status == Einval ==> unchanged(cfg) && unchanged(addr)
      ensures status == Ok ==> ProtOf(n) == prot.(a := MatchFor(len)) && addr[n] == AddrCode(base, len)
      ensures forall m :: 0 <= m < PMP_COUNT && m != n ==> ProtOf(m) == old(ProtOf(m)) && addr[m] == old(addr[m])
    {
      if n >= PMP_COUNT || len > XLEN || len < PMP_SHIFT {
        return Einval;
      }
      var p := prot.(a := MatchFor(len));
      DecodeEncode(p);
      AddrCodeFits(base, len);
      forall m | 0 <= m < PMP_COUNT
        ensures Byte(WithByte(cfg[n / 8], n % 8, Encode(p)), m % 8) == if m % 8 == n % 8 then Encode(p) else Byte(cfg[n / 8], m % 8)
      {
        WithByteIs(cfg[n / 8], n % 8, Encode(p), m % 8);
      }
      cfg[n / 8] := WithByte(cfg[n / 8], n % 8, Encode(p));
      addr[n] := AddrCode(base, len);
      status := Ok;
    }

    /** `pmp_get`. */
    method Get(n: nat) returns (status: Status, prot: Prot, base: nat, len: nat)
      requires Valid()
      ensures status == Einval <==> n >= PMP_COUNT
      ensures status == Ok ==> prot == ProtOf(n) && (base, len) == BlockOf(prot.a, addr[n])
    {
      if n >= PMP_COUNT {
        return Einval, Prot(false, false, false, Off, 0, false), 0, 0;
      }
      status, prot := Ok, ProtOf(n);
      if prot.a == Napot {
        if addr[n] == SPACE - 1 {
          base, len := 0, XLEN;
        } else {
          SpaceIsPow2();
          ComplementZeros(addr[n], XLEN);
          var t1 := Ctz(SPACE - 1 - addr[n]);
          base, len := Floor(addr[n], t1) * 4 % SPACE, t1 + PMP_SHIFT + 1;
        }
      } else {
        base, len := addr[n] * 4 % SPACE, PMP_SHIFT;
      }
    }
  }

  // ---- What the hardware decides ----

  /** One entry, as the hardware reads it. */
  datatype Entry = Entry(prot: Prot, addr: nat)

  /** The entry matches the address; the top-of-range mode is not used by the firmware and matches nothing here. */
  predicate EntryMatches(e: Entry, x: nat) {
    match e.prot.a
    case Off => false
    case Tor => false
    case Na4 => x / 4 == e.addr
    case Napot => e.addr == SPACE - 1 || Floor(x / 4, TrailingOnes(e.addr) + 1) == Floor(e.addr, TrailingOnes(e.addr) + 1)
  }

  predicate Permits(p: Prot, a: Access) {
    (a.read ==> p.r) && (a.write ==> p.w) && (a.execute ==> p.x)
  }

  /** The decision from entry `n` on: the first matching entry rules, but machine mode passes one that is not
      locked; without a match only machine mode passes. */
  predicate HwFrom(es: seq<Entry>, n: nat, x: nat, mode: Mode, a: Access)
    requires n <= |es|
    decreases |es| - n
  {
    if n == |es| then mode == M
    else if EntryMatches(es[n], x) then (mode == M && !es[n].prot.l) || Permits(es[n].prot, a)
    else HwFrom(es, n + 1, x, mode, a)
  }

  /** The flags that `sbi_hart_pmp_configure` programs. */
  function ProtFor(f: Flags): Prot {
    Prot(f.readable, f.writeable, f.executable, Off, 0, f.mmode)
  }

  /** The entry that stands for a region. */
  predicate Programs(e: Entry, r: Region) {
    e == Entry(ProtFor(r.flags).(a := MatchFor(r.order)), AddrCode(r.base, r.order))
  }

  /** A programmed entry matches exactly the addresses of its region. */
  lemma EntryIsRegion(e: Entry, r: Region, x: nat)
    requires Valid(r) && Programs(e, r) && x < SPACE
    ensures EntryMatches(e, x) <==> Contains(r, x)
  {
    ContainsIsBlock(r, x);
    AddrCodeFits(r.base, r.order);
    if r.order == XLEN {
      SpaceIsPow2();
      WholeSpace(x, XLEN);
      WholeSpace(r.base, XLEN);
    } else {
      CodeMatches(r.base / 4, x / 4, r.order - PMP_SHIFT, e.addr);
      FloorByFour(x, r.order, x / 4, r.order - PMP_SHIFT);
      FloorByFour(r.base, r.order, r.base / 4, r.order - PMP_SHIFT);
    }
  }

  lemma {:induction false} CodeMatches(b: nat, y: nat, k: nat, a: nat)
    requires k > 0 && a == Floor(b, k) + (Pow2(k - 1) - 1)
    ensures Floor(y, TrailingOnes(a) + 1) == Floor(a, TrailingOnes(a) + 1) <==> Floor(y, k) == Floor(b, k)
  {
    NapotTells(b, k);
    Pow2Monotone(k - 1, k);
    SameBlock(b, a, k);
  }

  /** `sbi_domain_check_addr` without its MMIO test. */
  predicate PlainFrom(rs: seq<Region>, i: nat, addr: nat, mode: Mode, a: Access)
    requires i <= |rs|
    decreases |rs| - i
  {
    if i == |rs| then mode == M
    else if Matches(rs[i], addr, mode) then Grants(rs[i].flags, a.(mmio := rs[i].flags.mmio))
    else PlainFrom(rs, i + 1, addr, mode, a)
  }

  /** The two checks differ by the MMIO attribute of the deciding region alone. */
  lemma {:induction false} PlainIsCheck(rs: seq<Region>, i: nat, addr: nat, mode: Mode, a: Access)
    requires i <= |rs|
    ensures var k := FirstMatch(rs, i, addr, mode);
            CheckFrom(rs, i, addr, mode, a) <==> PlainFrom(rs, i, addr, mode, a) && (k < |rs| ==> rs[k].flags.mmio == a.mmio)
    decreases |rs| - i
  {
    if i < |rs| {
      PlainIsCheck(rs, i + 1, addr, mode, a);
    }
  }

  /** The entries stand for the regions in order, and the others are off. */
  ghost predicate ProgramsAll(es: seq<Entry>, rs: seq<Region>) {
    && |rs| <= |es|
    && (forall k :: 0 <= k < |rs| ==> Programs(es[k], rs[k]))
    && (forall k :: |rs| <= k < |es| ==> es[k].prot.a == Off)
  }

  /** When every region is programmed, supervisor and user accesses pass the hardware exactly when they pass
      the software check, apart from its MMIO test. */
  lemma {:induction false} HardwareRefinesCheck(es: seq<Entry>, rs: seq<Region>, n: nat, x: nat, mode: Mode, a: Access)
    requires ProgramsAll(es, rs) && AllValid(rs) && x < SPACE && mode != M && n <= |es|
    ensures HwFrom(es, n, x, mode, a) <==> if n <= |rs| then PlainFrom(rs, n, x, mode, a) else false
    decreases |es| - n
  {
    if n < |es| {
      HardwareRefinesCheck(es, rs, n + 1, x, mode, a);
      if n < |rs| {
        EntryIsRegion(es[n], rs[n], x);
      }
    }
  }

  /** Machine mode is different: the hardware lets it pass where its smallest region is not locked, while the
      software check goes on to a larger one that denies. */
  lemma MachineModeDiffers()
    ensures var small := Region(0, 3, Flags(true, true, true, false, false, 0));
            var large := Region(0, 4, Flags(false, false, false, true, false, 0));
            var es := [Entry(ProtFor(small.flags).(a := Napot), AddrCode(0, 3)), Entry(ProtFor(large.flags).(a := Napot), AddrCode(0, 4))];
            var a := Access(true, false, false, false);
            && Valid(small) && Valid(large) && ProgramsAll(es, [small, large])
            && HwFrom(es, 0, 0, M, a) && !PlainFrom([small, large], 0, 0, M, a)
  {
    var small := Region(0, 3, Flags(true, true, true, false, false, 0));
    var large := Region(0, 4, Flags(false, false, false, true, false, 0));
    var es := [Entry(ProtFor(small.flags).(a := Napot), AddrCode(0, 3)), Entry(ProtFor(large.flags).(a := Napot), AddrCode(0, 4))];
    WholeSpace(0, 3);
    WholeSpace(0, 4);
    EntryIsRegion(es[0], small, 0);
    assert !Matches(small, 0, M) && Matches(large, 0, M);
    assert PlainFrom([small, large], 0, 0, M, Access(true, false, false, false)) ==
           PlainFrom([small, large], 1, 0, M, Access(true, false, false, false));
  }

  // ---- Machine mode ----

  lemma {:induction false} PlainFirst(rs: seq<Region>, i: nat, x: nat, mode: Mode, a: Access)
    requires i <= |rs|
    ensures var m := FirstMatch(rs, i, x, mode);
            PlainFrom(rs, i, x, mode, a) <==> if m < |rs| then Permits(ProtFor(rs[m].flags), a) else mode == M
    decreases |rs| - i
  {
    if i < |rs| {
      PlainFirst(rs, i + 1, x, mode, a);
    }
  }

  /** For machine mode the first region around the address rules, whatever its mode; one that is not locked lets
      everything pass. */
  lemma {:induction false} MachineHw(es: seq<Entry>, rs: seq<Region>, n: nat, x: nat, a: Access)
    requires ProgramsAll(es, rs) && AllValid(rs) && x < SPACE && n <= |es|
    ensures HwFrom(es, n, x, M, a) <==>
              (n <= |rs| && FirstMatch(rs, n, x, S) < |rs| ==>
                var f := rs[FirstMatch(rs, n, x, S)].flags; !f.mmode || Permits(ProtFor(f), a))
    decreases |es| - n
  {
    if n < |es| {
      MachineHw(es, rs, n + 1, x, a);
      if n < |rs| {
        EntryIsRegion(es[n], rs[n], x);
      }
    }
  }

  /** Unless the first region around the address is unlocked while the first M-mode region around it denies some
      access. */
  ghost predicate Agreed(rs: seq<Region>, x: nat) {
    var k, m := FirstMatch(rs, 0, x, S), FirstMatch(rs, 0, x, M);
    k < |rs| && !rs[k].flags.mmode && m < |rs| ==>
      rs[m].flags.readable && rs[m].flags.writeable && rs[m].flags.executable
  }

  lemma FirstOfBoth(rs: seq<Region>, x: nat)
    ensures var k, m := FirstMatch(rs, 0, x, S), FirstMatch(rs, 0, x, M);
            k <= m && (k < |rs| && rs[k].flags.mmode ==> k == m)
  {
  }

  lemma AgreedAt(es: seq<Entry>, rs: seq<Region>, x: nat, a: Access)
    requires ProgramsAll(es, rs) && AllValid(rs) && x < SPACE
    ensures Agreed(rs, x) ==> (HwFrom(es, 0, x, M, a) <==> PlainFrom(rs, 0, x, M, a))
    ensures a == Access(true, true, true, a.mmio) && (HwFrom(es, 0, x, M, a) <==> PlainFrom(rs, 0, x, M, a)) ==> Agreed(rs, x)
  {
    MachineHw(es, rs, 0, x, a);
    PlainFirst(rs, 0, x, M, a);
    FirstOfBoth(rs, x);
  }

  /** Hardware and software give machine mode the same answer at the address, whatever the access. */
  ghost predicate SameAt(es: seq<Entry>, rs: seq<Region>, x: nat) {
    forall a :: HwFrom(es, 0, x, M, a) <==> PlainFrom(rs, 0, x, M, a)
  }

  /** For machine mode hardware and software agree on all addresses and accesses exactly when no unlocked region
      stands first at an address whose first M-mode region denies some access. */
  lemma MachineModeExact(es: seq<Entry>, rs: seq<Region>)
    requires ProgramsAll(es, rs) && AllValid(rs)
    ensures (forall x: nat :: x < SPACE ==> SameAt(es, rs, x)) <==> forall x: nat :: x < SPACE ==> Agreed(rs, x)
  {
    forall x: nat | x < SPACE ensures SameAt(es, rs, x) <==> Agreed(rs, x) {
      if Agreed(rs, x) {
        forall a ensures HwFrom(es, 0, x, M, a) <==> PlainFrom(rs, 0, x, M, a) {
          AgreedAt(es, rs, x, a);
        }
      } else {
        AgreedAt(es, rs, x, Access(true, true, true, false));
      }
    }
  }

  // ---- Programming the entries ----

  ghost function EntryAt(p: Registers, n: nat): Entry
    reads p, p.cfg, p.addr
    requires p.Valid() && n < PMP_COUNT
  {
    Entry(p.ProtOf(n), p.addr[n])
  }

  /** The region passes the granularity and range test. */
  predicate InRange(r: Region, granLog2: nat, addrMax: nat) {
    granLog2 <= r.order && r.base / 4 < addrMax
  }

  /** The region is no smaller than the granularity, and its address in the register is smaller than the greatest that
      the register can hold. */
  lemma InRangeMeans(r: Region, granLog2: nat, addrBits: nat)
    ensures InRange(r, granLog2, Pow2(addrBits) - 1) <==> Pow2(granLog2) <= Pow2(r.order) && r.base + 4 < 4 * Pow2(addrBits)
  {
    if granLog2 <= r.order {
      Pow2Monotone(granLog2, r.order);
    } else {
      Pow2Monotone(r.order + 1, granLog2);
    }
    FourthBelow(r.base, Pow2(addrBits));
  }

  lemma FourthBelow(base: nat, p: nat)
    ensures base / 4 < p - 1 <==> base + 4 < 4 * p
  {
  }

  /** The regions of `rs` from `i` on that are programmed while `room` entries are left. */
  function Programmed(rs: seq<Region>, i: nat, granLog2: nat, addrMax: nat, room: nat): seq<Region>
    requires i <= |rs|
    decreases |rs| - i
  {
    if i == |rs| || room == 0 then []
    else if InRange(rs[i], granLog2, addrMax) then [rs[i]] + Programmed(rs, i + 1, granLog2, addrMax, room - 1)
    else Programmed(rs, i + 1, granLog2, addrMax, room)
  }

  /** The first entries stand for the regions `done`; the others are as they were in `was`. */
  ghost predicate EntriesAre(p: Registers, done: seq<Region>, was: seq<Entry>)
    reads p, p.cfg, p.addr
  {
    && p.Valid() && |was| == PMP_COUNT && |done| <= PMP_COUNT
    && forall k :: 0 <= k < PMP_COUNT ==>
      if k < |done| then Programs(EntryAt(p, k), done[k]) else EntryAt(p, k) == was[k]
  }

  ghost function Entries(p: Registers): (es: seq<Entry>)
    reads p, p.cfg, p.addr
    requires p.Valid()
    ensures |es| == PMP_COUNT
  {
    seq(PMP_COUNT, k requires 0 <= k < PMP_COUNT && p.Valid() reads p, p.cfg, p.addr => EntryAt(p, k))
  }

  /** One region. */
  method ProgramOne(p: Registers, n: nat, r: Region, ghost done: seq<Region>, ghost was: seq<Entry>)
    requires EntriesAre(p, done, was) && n == |done| < PMP_COUNT && Valid(r)
    modifies p.cfg, p.addr
    ensures EntriesAre(p, done + [r], was)
  {
    var status := p.Set(n, ProtFor(r.flags), r.base, r.order);
  }

  lemma MoveOver(done: seq<Region>, r: Region, rest: seq<Region>)
    ensures done + ([r] + rest) == done + [r] + rest
  {
  }

  /** `sbi_hart_pmp_configure`: the regions that fit go, in order, into the first entries; the other entries
      stay. */
  method Configure(p: Registers, rs: seq<Region>, pmpCount: nat, granularity: nat, addrBits: nat)
    returns (gran: nat, ghost done: seq<Region>)
    requires p.Valid() && AllValid(rs) && pmpCount <= PMP_COUNT && granularity < SPACE && 0 < addrBits <= XLEN
    modifies p.cfg, p.addr
    ensures granularity <= Pow2(gran) && forall n :: 0 <= n < gran ==> Pow2(n) < granularity
    ensures done == Programmed(rs, 0, gran, Pow2(addrBits) - 1, pmpCount) && EntriesAre(p, done, old(Entries(p)))
  {
    ghost var was := Entries(p);
    done := [];
    gran := Log2Roundup(granularity);
    var addrMax := Pow2(addrBits - 1) + (Pow2(addrBits - 1) - 1);
    ghost var all := Programmed(rs, 0, gran, addrMax, pmpCount);
    var i, n := 0, 0;
    while i < |rs| && n < pmpCount
      invariant i <= |rs| && n == |done| <= pmpCount && EntriesAre(p, done, was)
      invariant all == done + Programmed(rs, i, gran, addrMax, pmpCount - n)
      decreases |rs| - i
    {
      if gran <= rs[i].order && rs[i].base / 4 < addrMax {
        ProgramOne(p, n, rs[i], done, was);
        ghost var rest := Programmed(rs, i + 1, gran, addrMax, pmpCount - n - 1);
        MoveOver(done, rs[i], rest);
        done, n := done + [rs[i]], n + 1;
      }
      i := i + 1;
    }
    assert done + [] == done;
  }

  function Lesser(a: nat, b: nat): nat { if a < b then a else b }

  /** How many of the regions from `i` up to `k` are in range. */
  function InRangeCount(rs: seq<Region>, i: nat, k: nat, granLog2: nat, addrMax: nat): nat
    requires i <= k <= |rs|
    decreases k - i
  {
    if i == k then 0 else (if InRange(rs[i], granLog2, addrMax) then 1 else 0) + InRangeCount(rs, i + 1, k, granLog2, addrMax)
  }

  lemma {:induction false} ProgrammedFrom(rs: seq<Region>, i: nat, granLog2: nat, addrMax: nat, room: nat)
    requires i <= |rs|
    ensures |Programmed(rs, i, granLog2, addrMax, room)| == Lesser(InRangeCount(rs, i, |rs|, granLog2, addrMax), room)
    ensures forall k :: i <= k < |rs| && InRange(rs[k], granLog2, addrMax) && InRangeCount(rs, i, k, granLog2, addrMax) < room ==>
              InRangeCount(rs, i, k, granLog2, addrMax) < |Programmed(rs, i, granLog2, addrMax, room)|
              && Programmed(rs, i, granLog2, addrMax, room)[InRangeCount(rs, i, k, granLog2, addrMax)] == rs[k]
    decreases |rs| - i
  {
    hide InRange;
    if i < |rs| && room > 0 {
      var one := if InRange(rs[i], granLog2, addrMax) then 1 else 0;
      ProgrammedFrom(rs, i + 1, granLog2, addrMax, room - one);
      forall k | i < k < |rs|
        ensures InRangeCount(rs, i, k, granLog2, addrMax) == one + InRangeCount(rs, i + 1, k, granLog2, addrMax)
      {
      }
    }
  }

  /** A region is programmed exactly if it is in range and fewer than `room` regions in range stand before it, and then
      in the entry with that number; one that is out of range is passed over. */
  lemma ProgrammedExactly(rs: seq<Region>, granLog2: nat, addrMax: nat, room: nat)
    ensures var ps := Programmed(rs, 0, granLog2, addrMax, room);
            && |ps| == Lesser(InRangeCount(rs, 0, |rs|, granLog2, addrMax), room)
            && forall k :: 0 <= k < |rs| && InRange(rs[k], granLog2, addrMax) && InRangeCount(rs, 0, k, granLog2, addrMax) < room ==>
                 InRangeCount(rs, 0, k, granLog2, addrMax) < |ps| && ps[InRangeCount(rs, 0, k, granLog2, addrMax)] == rs[k]
  {
    ProgrammedFrom(rs, 0, granLog2, addrMax, room);
  }

  lemma {:induction false} AllProgrammed(rs: seq<Region>, i: nat, granLog2: nat, addrMax: nat, room: nat)
    requires i <= |rs| && |rs| - i <= room && forall k :: i <= k < |rs| ==> InRange(rs[k], granLog2, addrMax)
    ensures Programmed(rs, i, granLog2, addrMax, room) == rs[i..]
    decreases |rs| - i
  {
    if i < |rs| {
      AllProgrammed(rs, i + 1, granLog2, addrMax, room - 1);
      assert rs[i..] == [rs[i]] + rs[i + 1..];
    }
  }

  lemma {:induction false} ProgrammedValid(rs: seq<Region>, i: nat, granLog2: nat, addrMax: nat, room: nat)
    requires i <= |rs| && AllValid(rs)
    ensures AllValid(Programmed(rs, i, granLog2, addrMax, room))
    decreases |rs| - i
  {
    if i < |rs| && room > 0 {
      ProgrammedValid(rs, i + 1, granLog2, addrMax, if InRange(rs[i], granLog2, addrMax) then room - 1 else room);
    }
  }

  /** When the entries were off before `sbi_hart_pmp_configure`, the hardware afterwards decides every supervisor and user
      access as `sbi_domain_check_addr` does on the regions that were programmed, apart from its MMIO test. */
  lemma ConfiguredDecides(p: Registers, rs: seq<Region>, was: seq<Entry>, gran: nat, addrMax: nat, room: nat, x: nat, mode: Mode, a: Access)
    requires EntriesAre(p, Programmed(rs, 0, gran, addrMax, room), was) && AllValid(rs) && x < SPACE && mode != M
    requires forall k :: 0 <= k < |was| ==> was[k].prot.a == Off
    ensures HwFrom(Entries(p), 0, x, mode, a) <==> PlainFrom(Programmed(rs, 0, gran, addrMax, room), 0, x, mode, a)
  {
    ProgrammedValid(rs, 0, gran, addrMax, room);
    HardwareRefinesCheck(Entries(p), Programmed(rs, 0, gran, addrMax, room), 0, x, mode, a);
  }

  /** Put together: when all regions of a domain fit and the entries were off, then after
      `sbi_hart_pmp_configure` the hardware decides every supervisor and user access as `sbi_domain_check_addr`
      does, apart from its MMIO test. */
  lemma ConfiguredAgrees(p: Registers, rs: seq<Region>, was: seq<Entry>, gran: nat, addrMax: nat, room: nat, x: nat, mode: Mode, a: Access)
    requires EntriesAre(p, Programmed(rs, 0, gran, addrMax, room), was) && AllValid(rs) && x < SPACE && mode != M
    requires |rs| <= room && forall k :: 0 <= k < |rs| ==> InRange(rs[k], gran, addrMax)
    requires forall k :: 0 <= k < |was| ==> was[k].prot.a == Off
    ensures HwFrom(Entries(p), 0, x, mode, a) <==> PlainFrom(rs, 0, x, mode, a)
  {
    AllProgrammed(rs, 0, gran, addrMax, room);
    assert rs[0..] == rs;
    ConfiguredDecides(p, rs, was, gran, addrMax, room, x, mode, a);
  }
}
