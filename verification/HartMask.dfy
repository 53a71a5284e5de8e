/** Which harts belong to which domain (lib/sbi/sbi_domain.c, registration), and whom a broadcast reaches
    (lib/sbi/sbi_hsm.c, `sbi_hsm_hart_interruptible_mask`; lib/sbi/sbi_ipi.c, `sbi_ipi_send_many`). */
module HartMask {
  import opened Blocks
  import opened Words
  import opened Bitmap
  import opened Options
  import opened Hsm

  /** SBI_HARTMASK_MAX_BITS. */
  const MAX_HARTS: nat := 128
  const MAX_DOMAINS: nat := 32

  type HartMask = m: seq<Word> | |m| == 2 witness [0, 0]

  datatype Error = InvalidParam | Already | NoSpace | Success

  // ---- Whom to signal ----

  /** `sbi_domain_get_assigned_hartmask`: the 64 harts from `hbase` on, which may lie in two words. */
  method AssignedMask(dom: Option<HartMask>, hbase: nat) returns (ret: Word)
    requires hbase < MAX_HARTS
    ensures forall k: nat :: k < 64 ==> (Bit(ret, k) <==> dom.Some? && BitAt(dom.value, hbase + k))
  {
    hide Shr, Shl, Low, Either, Bit;
    if dom.None? {
      forall k: nat ensures !Bit(0, k) {
        ZeroBits(k);
      }
      return 0;
    }
    var m := dom.value;
    var bword, boff := hbase / 64, hbase % 64;
    SpaceIsPow2();
    ShrBound(m[bword], boff);
    ret := Shr(m[bword], boff);
    forall k: nat | k < 64 ensures Bit(ret, k) <==> k < 64 - boff && BitAt(m, hbase + k) {
      BitShr(m[bword], boff, k);
      if k >= 64 - boff {
        HighBitsZero(m[bword], 64, boff + k);
      }
    }
    bword := bword + 1;
    if boff != 0 && bword < 2 {
      var next := Shl(Low(m[bword], boff), 64 - boff, 64);
      BitShl(Low(m[bword], boff), 64 - boff, 64, 0);
      EitherBound(ret, next, 64);
      var first := ret;
      ret := Either(first, next);
      forall k: nat | k < 64 ensures Bit(ret, k) <==> BitAt(m, hbase + k) {
        BitEither(first, next, k);
        BitShl(Low(m[bword], boff), 64 - boff, 64, k);
        if k >= 64 - boff {
          BitLow(m[bword], boff, k - (64 - boff));
        }
      }
    }
  }

  /** `hart` is assigned to the domain and can take an interrupt. A hart without scratch space cannot. */
  predicate Target(dom: Option<HartMask>, states: seq<Option<HartState>>, hart: nat) {
    && hart < |states| && dom.Some? && BitAt(dom.value, hart)
    && states[hart].Some? && (states[hart].value.Started? || states[hart].value.Suspended?)
  }

  /** `sbi_hsm_hart_interruptible_mask`. `|states|` is one past the last hart id. */
  method InterruptibleMask(dom: Option<HartMask>, states: seq<Option<HartState>>, hbase: nat)
    returns (rc: Error, out: Word)
    requires |states| <= MAX_HARTS
    ensures rc == if |states| <= hbase then InvalidParam else Success
    ensures forall k: nat :: k < 64 ==> (Bit(out, k) <==> Target(dom, states, hbase + k))
  {
    out := 0;
    forall k: nat ensures !Bit(0, k) {
      ZeroBits(k);
    }
    var hend := |states|;
    if hend <= hbase {
      return InvalidParam, out;
    }
    if 64 < hend - hbase {
      hend := hbase + 64;
    }
    SpaceIsPow2();
    var dmask := AssignedMask(dom, hbase);
    var i := hbase;
    while i < hend
      invariant hbase <= i <= hend
      invariant forall k: nat :: k < 64 ==> (Bit(out, k) <==> hbase + k < i && Target(dom, states, hbase + k))
    {
      assert hbase + (i - hbase) == i;
      if Bit(dmask, i - hbase) && states[i].Some? && (states[i].value.Started? || states[i].value.Suspended?) {
        var next := PutBit(out, i - hbase, true);
        forall k: nat | k < 64 ensures Bit(next, k) <==> hbase + k < i + 1 && Target(dom, states, hbase + k) {
          PutBitBits(out, i - hbase, true, k);
        }
        PutBitBound(out, i - hbase, true, 64);
        out := next;
      } else {
        assert !Target(dom, states, i);
      }
      i := i + 1;
    }
    rc := Success;
  }

  ghost predicate Increasing(s: seq<nat>) {
    forall i, k :: 0 <= i < k < |s| ==> s[i] < s[k]
  }

  /** Bit `h - hbase` of a mask that starts at hart `hbase`. */
  predicate Asked(m: nat, hbase: nat, h: nat) {
    hbase <= h < hbase + 64 && Bit(m, h - hbase)
  }

  /** Two runs of increasing hart ids, the second behind the first. */
  lemma Joined(s: seq<nat>, t: seq<nat>, mid: nat)
    requires Increasing(s) && Increasing(t)
    requires forall h: nat :: (h in s ==> h < mid) && (h in t ==> mid <= h)
    ensures Increasing(s + t)
  {
    forall i, k | 0 <= i < k < |s + t| ensures (s + t)[i] < (s + t)[k] {
      if i < |s| <= k {
        assert s[i] in s && t[k - |s|] in t;
      }
    }
  }

  /** The loop that shifts the mask: one signal for every bit. */
  method SendMask(m0: Word, hbase: nat) returns (sent: seq<nat>)
    ensures Increasing(sent)
    ensures forall h: nat :: h in sent <==> Asked(m0, hbase, h)
  {
    hide *;
    var i, m: nat := hbase, m0;
    sent := [];
    NoneSent(m0, hbase);
    while m != 0
      invariant hbase <= i && m == Shr(m0, i - hbase)
      invariant Increasing(sent) && forall k :: 0 <= k < |sent| ==> sent[k] < i
      invariant forall h: nat :: h in sent <==> h < i && Asked(m0, hbase, h)
      decreases m
    {
      ShiftedOnce(m0, hbase, i);
      OneMoreSent(sent, i);
      if m % 2 == 1 {
        sent := sent + [i];
      }
      i, m := i + 1, Shr(m, 1);
    }
    NoneBehind(m0, hbase, i);
  }

  lemma NoneSent(m0: Word, hbase: nat)
    ensures Increasing([]) && Shr(m0, 0) == m0 && forall h: nat :: h < hbase ==> !Asked(m0, hbase, h)
  {
  }

  /** The lowest bit of the shifted mask is that of hart `i`. */
  lemma ShiftedOnce(m0: Word, hbase: nat, i: nat)
    requires hbase <= i
    ensures var m := Shr(m0, i - hbase);
            (m % 2 == 1 <==> Asked(m0, hbase, i)) && Shr(m, 1) == Shr(m0, i + 1 - hbase) && (m != 0 ==> Shr(m, 1) < m)
  {
    var k := i - hbase;
    BitShr(m0, k, 0);
    ShrShr(m0, k, 1);
    SpaceIsPow2();
    if k >= 64 {
      HighBitsZero(m0, 64, k);
    }
    ShrHalves(Shr(m0, k));
  }

  lemma ShrHalves(m: nat)
    ensures Shr(m, 1) == m / 2 && (Bit(m, 0) <==> m % 2 == 1)
  {
  }

  lemma OneMoreSent(sent: seq<nat>, i: nat)
    requires Increasing(sent) && forall k :: 0 <= k < |sent| ==> sent[k] < i
    ensures Increasing(sent + [i])
  {
  }

  lemma NoneBehind(m0: Word, hbase: nat, i: nat)
    requires hbase <= i && Shr(m0, i - hbase) == 0
    ensures forall h: nat :: i <= h ==> !Asked(m0, hbase, h)
  {
    forall h: nat | i <= h ensures !Asked(m0, hbase, h) {
      BitShr(m0, i - hbase, h - i);
      ZeroBits(h - i);
    }
  }

  /** `sbi_ipi_send_many`: the harts that are signalled, in order. An `hbase` of all ones stands for every hart. */
  method SendMany(dom: Option<HartMask>, states: seq<Option<HartState>>, hmask: Word, hbase: Word)
    returns (rc: Error, sent: seq<nat>)
    requires |states| <= MAX_HARTS
    ensures rc == if hbase != ONES && |states| <= hbase then InvalidParam else Success
    ensures Increasing(sent)
    ensures forall h: nat :: h in sent <==>
      Target(dom, states, h) && (hbase == ONES || Asked(hmask, hbase, h))
  {
    if hbase != ONES {
      var m;
      rc, m := InterruptibleMask(dom, states, hbase);
      if rc != Success {
        return rc, [];
      }
      forall k: nat ensures Bit(Both(m, hmask), k) <==> Bit(m, k) && Bit(hmask, k) {
        BitBoth(m, hmask, k);
      }
      BothBound(m, hmask);
      sent := SendMask(Both(m, hmask), hbase);
      forall h: nat ensures Asked(Both(m, hmask), hbase, h) <==> Target(dom, states, h) && Asked(hmask, hbase, h) {
        if hbase <= h < hbase + 64 {
          assert hbase + (h - hbase) == h;
          assert Bit(Both(m, hmask), h - hbase) <==> Bit(m, h - hbase) && Bit(hmask, h - hbase);
        }
      }
    } else {
      sent := [];
      var base := 0;
      var m;
      rc, m := InterruptibleMask(dom, states, base);
      while rc == Success
        invariant rc == if |states| <= base then InvalidParam else Success
        invariant forall k: nat :: k < 64 ==> (Bit(m, k) <==> Target(dom, states, base + k))
        invariant Increasing(sent)
        invariant forall h: nat :: h in sent <==> h < base && Target(dom, states, h)
        decreases |states| - base
      {
        var more := SendMask(m, base);
        forall h: nat | base <= h < base + 64 ensures Asked(m, base, h) <==> Target(dom, states, h) {
          assert base + (h - base) == h;
        }
        Joined(sent, more, base);
        sent := sent + more;
        base := base + 64;
        rc, m := InterruptibleMask(dom, states, base);
      }
      rc := Success;
    }
  }

  // ---- The registered domains ----

  class Domain {
    const possibleHarts: HartMask
    var assignedHarts: HartMask
    var bootHart: nat

    constructor (possible: HartMask, bootHart: nat)
      ensures this.possibleHarts == possible && this.bootHart == bootHart
    {
      this.possibleHarts := possible;
      this.assignedHarts := [0, 0];
      this.bootHart := bootHart;
    }
  }

  class Registry {
    /** `hartid_to_domain_table`. */
    var table: seq<Domain?>
    /** `domidx_to_domain_table`, as far as it is filled. */
    var domains: seq<Domain>
    var finalized: bool

    /** The table and the masks agree, and no mask goes beyond the harts that are possible for its domain. */
    ghost predicate Valid()
      reads this, domains
    {
      && |table| == MAX_HARTS && |domains| <= MAX_DOMAINS
      && (forall h :: 0 <= h < MAX_HARTS ==> table[h] == null || table[h] in domains)
      && (forall d: Domain, h: nat :: d in domains && h < MAX_HARTS ==> (BitAt(d.assignedHarts, h) <==> table[h] == d))
      && (forall d: Domain, h: nat :: d in domains && h < MAX_HARTS && BitAt(d.assignedHarts, h) ==> BitAt(d.possibleHarts, h))
    }

    constructor ()
      ensures Valid() && domains == [] && !finalized && forall h :: 0 <= h < MAX_HARTS ==> table[h] == null
    {
      table := seq(MAX_HARTS, h => null);
      domains := [];
      finalized := false;
    }

    /** `sbi_domain_register`. Whether `sanitize_domain` accepts the domain is a parameter. */
    method Register(dom: Domain?, assignMask: Option<HartMask>, sane: bool, coldHart: nat) returns (rc: Error)
      requires Valid()
      modifies this`table, this`domains, domains, dom
      ensures Valid() && finalized == old(finalized)
      ensures rc == (if dom == null || assignMask.None? || finalized then InvalidParam
                     else if dom in old(domains) then Already
                     else if MAX_DOMAINS <= |old(domains)| then NoSpace
                     else if !sane then InvalidParam else Success)
      ensures rc != Success ==> table == old(table) && domains == old(domains)
      ensures rc != Success ==> forall d: Domain :: d in domains ==> d.assignedHarts == old(d.assignedHarts)
      ensures rc == Success ==> dom != null && assignMask.Some? && domains == old(domains) + [dom]
      ensures rc == Success ==> forall h: nat :: h < MAX_HARTS ==>
        table[h] == if BitAt(assignMask.value, h) && BitAt(dom.possibleHarts, h) then dom else old(table)[h]
      ensures rc == Success ==>
        var forced := coldHart < MAX_HARTS && BitAt(assignMask.value, coldHart) && BitAt(dom.possibleHarts, coldHart);
        dom.bootHart == if forced then coldHart else old(dom.bootHart)
    {
      if dom == null || assignMask.None? || finalized {
        return InvalidParam;
      }
      if dom in domains {
        return Already;
      }
      if MAX_DOMAINS <= |domains| {
        return NoSpace;
      }
      if !sane {
        return InvalidParam;
      }
      domains := domains + [dom];
      dom.assignedHarts := [0, 0];
      forall h: nat ensures !BitAt(dom.assignedHarts, h) {
        ZeroBits(h % 64);
      }
      var mask := assignMask.value;
      var i: nat := FindFirstBit(mask, MAX_HARTS);
      ghost var from: nat := 0;
      while i < MAX_HARTS
        invariant NextIs(mask, MAX_HARTS, from, true, i) && from <= MAX_HARTS
        invariant Valid() && domains == old(domains) + [dom]
        invariant forall h: nat :: h < MAX_HARTS ==>
          table[h] == if h < from && BitAt(mask, h) && BitAt(dom.possibleHarts, h) then dom else old(table)[h]
        invariant dom.bootHart ==
          if coldHart < from && BitAt(mask, coldHart) && BitAt(dom.possibleHarts, coldHart) then coldHart
          else old(dom.bootHart)
        decreases MAX_HARTS - from
      {
        if BitAt(dom.possibleHarts, i) {
          Assign(dom, i);
          if i == coldHart && dom.bootHart != coldHart {
            dom.bootHart := coldHart;
          }
        }
        from := i + 1;
        i := FindNextBit(mask, MAX_HARTS, i + 1);
      }
      rc := Success;
    }

    /** The body of the registration loop: the hart leaves its former domain. */
    method Assign(dom: Domain, i: nat)
      requires Valid() && dom in domains && i < MAX_HARTS && BitAt(dom.possibleHarts, i)
      modifies this`table, domains
      ensures Valid() && table == old(table)[i := dom]
      ensures forall d: Domain :: d in domains ==> d.bootHart == old(d.bootHart)
    {
      var tdom := table[i];
      if tdom != null {
        tdom.assignedHarts := PutBitAt(tdom.assignedHarts, i, false);
      }
      table := table[i := dom];
      dom.assignedHarts := PutBitAt(dom.assignedHarts, i, true);
    }

    /** Every hart of the table is in the mask of exactly one registered domain, every other hart in none. */
    lemma OneDomain(h: nat)
      requires Valid() && h < MAX_HARTS
      ensures table[h] != null <==> exists d: Domain :: d in domains && BitAt(d.assignedHarts, h)
      ensures forall d: Domain, e: Domain ::
        d in domains && e in domains && BitAt(d.assignedHarts, h) && BitAt(e.assignedHarts, h) ==> d == e
    {
      if table[h] != null {
        assert table[h] in domains && BitAt(table[h].assignedHarts, h);
      }
    }

    /** `sbi_ipi_send_many` on behalf of `caller`: the harts of its own domain that were asked for and can
        take an interrupt are signalled, each once, and no others. */
    method SendFrom(caller: nat, states: seq<Option<HartState>>, hmask: Word, hbase: Word)
      returns (rc: Error, sent: seq<nat>)
      requires Valid() && caller < MAX_HARTS && |states| <= MAX_HARTS
      ensures rc == if hbase != ONES && |states| <= hbase then InvalidParam else Success
      ensures Increasing(sent)
      ensures forall h: nat :: h in sent <==>
        && h < |states| && table[h] != null && table[h] == table[caller]
        && (hbase == ONES || Asked(hmask, hbase, h))
        && states[h].Some? && (states[h].value.Started? || states[h].value.Suspended?)
    {
      var dom := table[caller];
      rc, sent := SendMany(if dom == null then None else Some(dom.assignedHarts), states, hmask, hbase);
    }
  }

  /** The first loop of `sbi_domain_init`: the root domain may use every valid hart. */
  method RootMask(valid: seq<bool>) returns (m: HartMask)
    requires |valid| == MAX_HARTS
    ensures forall h: nat :: h < MAX_HARTS ==> (BitAt(m, h) <==> valid[h])
  {
    m := [0, 0];
    forall h: nat ensures !BitAt(m, h) {
      ZeroBits(h % 64);
    }
    var i := 0;
    while i < MAX_HARTS
      invariant i <= MAX_HARTS
      invariant forall h: nat :: h < MAX_HARTS ==> (BitAt(m, h) <==> h < i && valid[h])
    {
      if valid[i] {
        m := PutBitAt(m, i, true);
      }
      i := i + 1;
    }
  }

  /** `sbi_domain_init`: afterwards every valid hart is in exactly one mask, the root domain's. */
  method Init(valid: seq<bool>, coldHart: nat, sane: bool) returns (r: Registry, root: Domain, rc: Error)
    requires |valid| == MAX_HARTS
    ensures r.Valid() && rc == if sane then Success else InvalidParam
    ensures rc == Success ==> forall h: nat :: h < MAX_HARTS ==> r.table[h] == if valid[h] then root else null
  {
    r := new Registry();
    var m := RootMask(valid);
    root := new Domain(m, coldHart);
    rc := r.Register(root, Some(m), sane, coldHart);
  }
}
