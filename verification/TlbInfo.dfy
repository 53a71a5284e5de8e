/**
 Remote fence requests, lib/sbi/sbi_tlb.c: what a request flushes, the local flush loops, and the
 coalescing of a new request with a queued one.  XLEN is 64; addresses and sizes are naturals below
 2^64, and every wrap-around is written out.
 */
module TlbInfo {
  import opened Options
  import opened Fifo

  const PAGE: nat := 4096
  const WORD: nat := 0x1_0000_0000_0000_0000
  /** SBI_TLB_FLUSH_ALL. */
  const FLUSH_ALL: nat := WORD - 1

  /** The `local_fn` of a request. */
  datatype FlushFn = FenceI | SfenceVma | SfenceVmaAsid | HfenceGvma | HfenceGvmaVmid | HfenceVvma | HfenceVvmaAsid

  /** `struct sbi_tlb_info`; `smask` holds the harts that wait for the entry. */
  datatype Info = Info(start: nat, size: nat, asid: nat, vmid: nat, fn: FlushFn, smask: set<nat>)

  ghost predicate WordSized(i: Info) { i.start < WORD && i.size < WORD }

  /** What a hart may have cached: fetched instructions, or a translation of one page. */
  datatype Cached =
    | Fetched
    | Supervisor(asid: nat, page: nat)
    | Guest(vmid: nat, page: nat)
    | VirtualSupervisor(vmid: nat, asid: nat, page: nat)

  /** One fence instruction, with its operands. */
  datatype Fence =
    | FenceIAll
    | SfenceAll | SfenceVa(va: nat) | SfenceAsid(asid: nat) | SfenceVaAsid(va: nat, asid: nat)
    | HfenceGAll | HfenceGpa(gpaShifted: nat) | HfenceGVmid(vmid: nat) | HfenceGpaVmid(gpaShifted: nat, vmid: nat)
    | HfenceVAll(vmid: nat) | HfenceVVa(vmid: nat, va: nat) | HfenceVAsid(vmid: nat, asid: nat)
    | HfenceVVaAsid(vmid: nat, va: nat, asid: nat)

  /** What the instruction removes; the HFENCE.VVMA forms act on the VMID that `hgatp` holds. */
  predicate Removes(f: Fence, c: Cached) {
    match f
    case FenceIAll => c.Fetched?
    case SfenceAll => c.Supervisor?
    case SfenceVa(va) => c.Supervisor? && c.page == va / PAGE
    case SfenceAsid(asid) => c.Supervisor? && c.asid == asid
    case SfenceVaAsid(va, asid) => c.Supervisor? && c.asid == asid && c.page == va / PAGE
    case HfenceGAll => c.Guest?
    case HfenceGpa(gpa) => c.Guest? && c.page == gpa * 4 / PAGE
    case HfenceGVmid(vmid) => c.Guest? && c.vmid == vmid
    case HfenceGpaVmid(gpa, vmid) => c.Guest? && c.vmid == vmid && c.page == gpa * 4 / PAGE
    case HfenceVAll(vmid) => c.VirtualSupervisor? && c.vmid == vmid
    case HfenceVVa(vmid, va) => c.VirtualSupervisor? && c.vmid == vmid && c.page == va / PAGE
    case HfenceVAsid(vmid, asid) => c.VirtualSupervisor? && c.vmid == vmid && c.asid == asid
    case HfenceVVaAsid(vmid, va, asid) =>
      c.VirtualSupervisor? && c.vmid == vmid && c.asid == asid && c.page == va / PAGE
  }

  // ---- What a request asks for ----

  /** `start == 0 && size == 0`: everything, whatever the address space. */
  predicate Everything(i: Info) { i.start == 0 && i.size == 0 }

  /** The pages that the flush loop visits: those of start, start + 4096, ... below start + size. */
  ghost predicate VisitsPage(i: Info, page: nat) {
    exists k: nat :: VisitsAt(i, page, k)
  }

  predicate VisitsAt(i: Info, page: nat, k: nat) {
    k * PAGE < i.size && (i.start + k * PAGE) % WORD / PAGE == page
  }

  ghost predicate HitsPage(i: Info, page: nat) {
    Everything(i) || i.size == FLUSH_ALL || VisitsPage(i, page)
  }

  /** What handling the request removes from a hart's caches. */
  ghost predicate Flushes(i: Info, c: Cached) {
    match i.fn
    case FenceI => c.Fetched?
    case SfenceVma => c.Supervisor? && HitsPage(i, c.page)
    case SfenceVmaAsid => c.Supervisor? && (Everything(i) || c.asid == i.asid) && HitsPage(i, c.page)
    case HfenceGvma => c.Guest? && HitsPage(i, c.page)
    case HfenceGvmaVmid => c.Guest? && (Everything(i) || c.vmid == i.vmid) && HitsPage(i, c.page)
    case HfenceVvma => c.VirtualSupervisor? && c.vmid == i.vmid && HitsPage(i, c.page)
    case HfenceVvmaAsid =>
      c.VirtualSupervisor? && c.vmid == i.vmid && (Everything(i) || c.asid == i.asid) && HitsPage(i, c.page)
  }

  /** Handling `e` does for a hart everything that handling `r` would. */
  ghost predicate Covers(e: Info, r: Info) {
    forall c :: Flushes(r, c) ==> Flushes(e, c)
  }

  lemma CoversTransitive(e: Info, f: Info, r: Info)
    requires Covers(e, f) && Covers(f, r)
    ensures Covers(e, r)
  {
  }

  // ---- The local flush functions ----

  /** The instruction for a whole request, when the request is not a range. */
  function WholeFence(i: Info): Fence {
    match i.fn
    case FenceI => FenceIAll
    case SfenceVma => SfenceAll
    case SfenceVmaAsid => if Everything(i) then SfenceAll else SfenceAsid(i.asid)
    case HfenceGvma => HfenceGAll
    case HfenceGvmaVmid => if Everything(i) then HfenceGAll else HfenceGVmid(i.vmid)
    case HfenceVvma => HfenceVAll(i.vmid)
    case HfenceVvmaAsid => if Everything(i) then HfenceVAll(i.vmid) else HfenceVAsid(i.vmid, i.asid)
  }

  /** The instruction for one address of a range. */
  function PageFence(i: Info, addr: nat): Fence {
    match i.fn
    case FenceI => FenceIAll
    case SfenceVma => SfenceVa(addr)
    case SfenceVmaAsid => SfenceVaAsid(addr, i.asid)
    case HfenceGvma => HfenceGpa(addr / 4)
    case HfenceGvmaVmid => HfenceGpaVmid(addr / 4, i.vmid)
    case HfenceVvma => HfenceVVa(i.vmid, addr)
    case HfenceVvmaAsid => HfenceVVaAsid(i.vmid, addr, i.asid)
  }

  ghost predicate RemovedBySome(fences: seq<Fence>, c: Cached) {
    exists k :: 0 <= k < |fences| && Removes(fences[k], c)
  }

  lemma PageFenceRemoves(i: Info, addr: nat, c: Cached)
    requires i.fn != FenceI && !Everything(i)
    ensures Removes(PageFence(i, addr), c) <==>
              !c.Fetched? && c.page == addr / PAGE && Removes(WholeFence(i), c)
  {
    SamePage(addr);
  }

  /** The shifted address of the hypervisor fences names the same page. */
  lemma SamePage(addr: nat)
    ensures addr / 4 * 4 / 4096 == addr / 4096
  {
    var q, r := addr / 4096, addr % 4096;
    var k, t := r / 4, r % 4;
    hide *;
    Quarter(addr, 1024 * q + k, t);
    PageOf((1024 * q + k) * 4, q, 4 * k);
  }

  lemma Quarter(n: nat, k: nat, t: nat)
    requires n == 4 * k + t && t < 4
    ensures n / 4 == k
  {
  }

  lemma PageOf(n: nat, q: nat, r: nat)
    requires n == 4096 * q + r && r < 4096
    ensures n / 4096 == q
  {
  }

  lemma FlushesByWhole(i: Info, c: Cached)
    requires i.fn != FenceI
    ensures Flushes(i, c) <==> !c.Fetched? && Removes(WholeFence(i), c) && HitsPage(i, c.page)
  {
  }

  /** The counter of the page loop after `k` turns: a 64-bit word. */
  function Counter(k: nat): nat { k * PAGE % WORD }

  /** The page loop ends exactly when the size leaves room for its counter. */
  lemma LoopEnds(size: nat)
    ensures (exists k: nat :: Counter(k) >= size) <==> size <= WORD - PAGE
  {
    assert Counter(WORD / PAGE - 1) == WORD - PAGE;
    forall k: nat ensures Counter(k) <= WORD - PAGE {
      WholePages(k);
    }
  }

  lemma WholePages(k: nat)
    ensures k * 4096 % 0x1_0000_0000_0000_0000 <= 0x1_0000_0000_0000_0000 - 4096
  {
    assert k * 4096 % 0x1_0000_0000_0000_0000 % 4096 == 0;
  }

  /** The page loop of the request would go on for ever. */
  ghost predicate Endless(i: Info) {
    i.fn != FenceI && !Everything(i) && i.size != FLUSH_ALL && forall k: nat :: Counter(k) < i.size
  }

  /** No request of the running system is endless if the limit leaves room for the counter. */
  lemma UpgradedEnds(i: Info, limit: nat)
    requires limit <= WORD - PAGE
    ensures !Endless(Upgrade(i, limit))
  {
    LoopEnds(i.size);
  }

  /** The seven `sbi_tlb_local_*` functions: the fences they execute; None if the call does not return. The loop
      counter of the source is a 64-bit word. */
  method LocalFlush(i: Info) returns (fences: Option<seq<Fence>>)
    requires WordSized(i)
    ensures fences.None? <==> Endless(i)
    ensures fences.Some? ==> forall c :: RemovedBySome(fences.value, c) <==> Flushes(i, c)
  {
    LoopEnds(i.size);
    if i.fn == FenceI || Everything(i) || i.size == FLUSH_ALL {
      WholeFlushed(i);
      return Some([WholeFence(i)]);
    }
    if i.size > WORD - PAGE {
      return None;
    }
    var fs: seq<Fence> := [];
    var off: nat := 0;
    while off < i.size
      invariant off == |fs| * PAGE && off < i.size + PAGE
      invariant forall k :: 0 <= k < |fs| ==> fs[k] == PageFence(i, (i.start + k * PAGE) % WORD)
    {
      fs := fs + [PageFence(i, (i.start + off) % WORD)];
      off := (off + PAGE) % WORD;
    }
    forall c ensures RemovedBySome(fs, c) <==> Flushes(i, c) {
      RangeFlushed(i, fs, c);
    }
    fences := Some(fs);
  }

  lemma WholeFlushed(i: Info)
    requires i.fn == FenceI || Everything(i) || i.size == FLUSH_ALL
    ensures forall c :: RemovedBySome([WholeFence(i)], c) <==> Flushes(i, c)
  {
    forall c ensures RemovedBySome([WholeFence(i)], c) <==> Flushes(i, c) {
      assert RemovedBySome([WholeFence(i)], c) <==> Removes([WholeFence(i)][0], c);
      if i.fn != FenceI {
        FlushesByWhole(i, c);
      }
    }
  }

  lemma RangeFlushed(i: Info, fences: seq<Fence>, c: Cached)
    requires i.fn != FenceI && !Everything(i) && i.size != FLUSH_ALL
    requires i.size <= |fences| * PAGE < i.size + PAGE
    requires forall k :: 0 <= k < |fences| ==> fences[k] == PageFence(i, (i.start + k * PAGE) % WORD)
    ensures RemovedBySome(fences, c) <==> Flushes(i, c)
  {
    FlushesByWhole(i, c);
    if RemovedBySome(fences, c) {
      var k :| 0 <= k < |fences| && Removes(fences[k], c);
      PageFenceRemoves(i, (i.start + k * PAGE) % WORD, c);
      assert VisitsAt(i, c.page, k);
    }
    if Flushes(i, c) {
      var k: nat :| VisitsAt(i, c.page, k);
      PageFenceRemoves(i, (i.start + k * PAGE) % WORD, c);
      assert Removes(fences[k], c);
    }
  }

  // ---- Upgrading a large range ----

  /** `tlb_update` turns a range above the platform's limit into a flush of everything. */
  function Upgrade(i: Info, limit: nat): Info {
    if i.size > limit then i.(start := 0, size := FLUSH_ALL) else i
  }

  lemma UpgradeCovers(i: Info, limit: nat)
    ensures Covers(Upgrade(i, limit), i)
    ensures Upgrade(i, limit).smask == i.smask && Upgrade(i, limit).fn == i.fn
    ensures limit < FLUSH_ALL ==> Upgrade(Upgrade(i, limit), limit) == Upgrade(i, limit)
  {
  }

  // ---- Coalescing ----

  /** `tlb_range_check`: the answer and the queued entry `curr` as it is left. */
  function RangeCheck(curr: Info, next: Info): (UpdateResult, Info) {
    var nextEnd := (next.start + next.size) % WORD;
    var currEnd := (curr.start + curr.size) % WORD;
    if next.start <= curr.start && nextEnd > currEnd then
      (Updated, curr.(start := next.start, size := next.size, smask := curr.smask + next.smask))
    else if next.start >= curr.start && nextEnd <= currEnd then
      (Skip, curr.(smask := curr.smask + next.smask))
    else
      (Unchanged, curr)
  }

  /** `tlb_update_cb`. */
  function UpdateCb(next: Info, curr: Info): (UpdateResult, Info) {
    if next.fn == SfenceVmaAsid && curr.fn == SfenceVmaAsid then
      if next.asid == curr.asid then RangeCheck(curr, next) else (Unchanged, curr)
    else if next.fn == SfenceVma && curr.fn == SfenceVma then
      RangeCheck(curr, next)
    else
      (Unchanged, curr)
  }

  predicate Coalescable(fn: FlushFn) { fn == SfenceVma || fn == SfenceVmaAsid }

  /** The flush loop visits every page that the range meets: from its first address on, whole pages at a time, it
      does not stop in front of the page of the last address. */
  predicate VisitsAll(i: Info) {
    i.size == 0 || i.start % PAGE + (i.size - 1) % PAGE < PAGE
  }

  /** A range whose loop visits every page, that does not wrap around the top of the address space and is not the
      (0, 0) form; the flush of everything with size FLUSH_ALL from address 0 is one. */
  predicate Plain(i: Info) {
    VisitsAll(i) && i.start + i.size < WORD && !Everything(i)
  }

  /** The page of an address inside the range is visited. */
  lemma PageVisited(i: Info, x: nat)
    requires VisitsAll(i) && i.start <= x < i.start + i.size < WORD
    ensures VisitsPage(i, x / PAGE)
  {
    var k := x / 4096 - i.start / 4096;
    LastPage(i.start, i.size, x);
    assert (i.start + k * 4096) / 4096 == i.start / 4096 + k;
    assert VisitsAt(i, x / PAGE, k);
  }

  lemma LastPage(start: nat, size: nat, x: nat)
    requires size > 0 && start % 4096 + (size - 1) % 4096 < 4096 && start <= x < start + size
    ensures 0 <= (x / 4096 - start / 4096) * 4096 < size
  {
    var a, b, q, t := start / 4096, start % 4096, (size - 1) / 4096, (size - 1) % 4096;
    assert start + size - 1 == (a + q) * 4096 + (b + t);
    assert (start + size - 1) / 4096 == a + q;
  }

  lemma HitsMore(e: Info, r: Info, page: nat)
    requires Plain(e) && !Everything(r) && e.start <= r.start && r.start + r.size <= e.start + e.size && HitsPage(r, page)
    ensures HitsPage(e, page)
  {
    if r.size == FLUSH_ALL {
      assert e.size == FLUSH_ALL;
    } else if e.size != FLUSH_ALL {
      var k: nat :| VisitsAt(r, page, k);
      hide VisitsAll;
      VisitedInside(r, page, k);
      PageVisited(e, r.start + k * PAGE);
    }
  }

  lemma VisitedInside(r: Info, page: nat, k: nat)
    requires VisitsAt(r, page, k) && r.start + r.size < WORD
    ensures r.start <= r.start + k * PAGE < r.start + r.size && page == (r.start + k * PAGE) / PAGE
  {
  }

  /** For plain ranges, containment of the intervals is containment of what is flushed. */
  lemma WiderCovers(e: Info, r: Info)
    requires Coalescable(e.fn) && e.fn == r.fn && (e.fn == SfenceVmaAsid ==> e.asid == r.asid)
    requires Plain(e) && !Everything(r)
    requires e.start <= r.start && r.start + r.size <= e.start + e.size
    ensures Covers(e, r)
  {
    hide HitsPage, VisitsAll;
    forall c | Flushes(r, c) ensures Flushes(e, c) {
      HitsMore(e, r, c.page);
    }
  }

  /** Coalescing plain requests is sound: the entry that is left covers both requests, and its waiters are
      those of both. */
  lemma CoalesceSound(next: Info, curr: Info)
    requires Plain(next) && Plain(curr)
    requires UpdateCb(next, curr).0 != Unchanged
    ensures var merged := UpdateCb(next, curr).1;
            && Plain(merged) && merged.fn == curr.fn
            && Covers(merged, curr) && Covers(merged, next)
            && merged.smask == curr.smask + next.smask
  {
    var (ret, merged) := UpdateCb(next, curr);
    WiderCovers(merged, curr);
    WiderCovers(merged, next);
  }

  // ---- Exactly which requests coalesce ----

  /** The range of `r` lies in that of `e`. */
  predicate Within(r: Info, e: Info) {
    e.start <= r.start && r.start + r.size <= e.start + e.size
  }

  predicate EndsLevel(r: Info, e: Info) { r.start + r.size == e.start + e.size }

  /** Fences of the same kind, in the same address space where that matters. */
  predicate SameKind(next: Info, curr: Info) {
    Coalescable(curr.fn) && next.fn == curr.fn && (curr.fn == SfenceVmaAsid ==> next.asid == curr.asid)
  }

  /** Of two ranges one lies in the other; a wider new range must also end behind the queued one. */
  predicate Coalesces(next: Info, curr: Info) {
    SameKind(next, curr) && (Within(next, curr) || (Within(curr, next) && !EndsLevel(next, curr)))
  }

  /** The queued entry with the wider of the two ranges and the waiters of both. */
  function Coalesced(next: Info, curr: Info): Info {
    var w := if Within(next, curr) then curr else next;
    curr.(start := w.start, size := w.size, smask := curr.smask + next.smask)
  }

  /** For ranges that do not wrap: what coalesces, and what is left of the entry. */
  lemma CoalesceExactly(next: Info, curr: Info)
    requires SameKind(next, curr) ==> next.start + next.size < WORD && curr.start + curr.size < WORD
    ensures UpdateCb(next, curr).0 != Unchanged <==> Coalesces(next, curr)
    ensures UpdateCb(next, curr).0 == Skip <==> SameKind(next, curr) && Within(next, curr)
    ensures UpdateCb(next, curr).1 == if Coalesces(next, curr) then Coalesced(next, curr) else curr
  {
  }

  /** So a wider request that ends with the queued one is queued beside it. */
  lemma LevelEndsMissed()
    ensures var curr := Info(0x2000, 0x1000, 0, 0, SfenceVma, {});
            var next := Info(0x1000, 0x2000, 0, 0, SfenceVma, {});
            Within(curr, next) && UpdateCb(next, curr) == (Unchanged, curr)
  {
  }

  // ---- Exactly which requests coalesce safely ----

  /** When `next` is coalesced with the queued `curr`, neither loses pages. */
  ghost predicate SafePair(next: Info, curr: Info) {
    UpdateCb(next, curr).0 != Unchanged ==>
      Covers(UpdateCb(next, curr).1, curr) && Covers(UpdateCb(next, curr).1, next)
  }

  /** No plain request loses pages by being coalesced with `i`, nor does `i`, whichever of them came first. */
  ghost predicate CoalescesSafely(i: Info) {
    forall other :: Plain(other) ==> SafePair(i, other) && SafePair(other, i)
  }

  /** Of the SFENCE.VMA requests, whatever their alignment, exactly the plain ones coalesce safely. */
  lemma PlainIsExact(i: Info)
    requires WordSized(i) && Coalescable(i.fn)
    ensures CoalescesSafely(i) <==> Plain(i)
  {
    if Plain(i) {
      forall other | Plain(other) ensures SafePair(i, other) && SafePair(other, i) {
        if UpdateCb(i, other).0 != Unchanged {
          CoalesceSound(i, other);
        }
        if UpdateCb(other, i).0 != Unchanged {
          CoalesceSound(other, i);
        }
      }
    } else {
      var other, queued := Loser(i);
      LossUnsafe(if queued then other else i, if queued then i else other);
      assert !SafePair(i, other) || !SafePair(other, i);
    }
  }

  /** `next` is absorbed by the queued `curr`, which does not flush all that it asks for. */
  ghost predicate Loss(next: Info, curr: Info) {
    UpdateCb(next, curr).0 == Skip && !Covers(curr, next)
  }

  lemma LossUnsafe(next: Info, curr: Info)
    requires Loss(next, curr)
    ensures UpdateCb(next, curr).1 == curr.(smask := curr.smask + next.smask)
    ensures !Covers(UpdateCb(next, curr).1, next) && !SafePair(next, curr)
  {
    SameFlushes(curr, UpdateCb(next, curr).1);
  }

  lemma SameFlushes(i: Info, j: Info)
    requires j == i.(smask := j.smask)
    ensures forall c :: Flushes(i, c) <==> Flushes(j, c)
  {
    forall c ensures Flushes(i, c) <==> Flushes(j, c) {
      forall page ensures HitsPage(i, page) <==> HitsPage(j, page) {
        SameHits(i, j, page);
      }
    }
  }

  /** What a request that is not plain loses, or makes another lose: a plain request for one page with which it
      coalesces, the one of them queued and the other not. */
  lemma Loser(i: Info) returns (other: Info, queued: bool)
    requires WordSized(i) && Coalescable(i.fn) && !Plain(i)
    ensures WordSized(other) && Plain(other) && other.size <= PAGE && other.fn == i.fn
    ensures if queued then Loss(other, i) else Loss(i, other)
  {
    queued := false;
    if Everything(i) {
      other := WholeLoses(i);
    } else if i.start + i.size >= WORD {
      other := WrappedLoses(i);
    } else {
      other := OverhangLoses(i);
      queued := true;
    }
  }

  /** A (0, 0) request is absorbed by an entry for the first page. */
  lemma WholeLoses(i: Info) returns (curr: Info)
    requires Coalescable(i.fn) && Everything(i)
    ensures WordSized(curr) && Plain(curr) && curr.size <= PAGE && curr.fn == i.fn && Loss(i, curr)
  {
    curr := Info(0, PAGE, i.asid, i.vmid, i.fn, {});
    var lost := Supervisor(i.asid, 1);
    assert Flushes(i, lost) && !Flushes(curr, lost);
  }

  /** A range that wraps is absorbed by an entry in front of it that reaches as far as its wrapped end. */
  lemma WrappedLoses(i: Info) returns (curr: Info)
    requires WordSized(i) && Coalescable(i.fn) && i.start + i.size >= WORD
    ensures WordSized(curr) && Plain(curr) && curr.size <= PAGE && curr.fn == i.fn && Loss(i, curr)
  {
    var base, end := i.start / PAGE * PAGE, i.start + i.size - WORD;
    if base > 0 && end <= base {
      curr := Info(base - PAGE, PAGE, i.asid, i.vmid, i.fn, {});
      AbsorbedInFront(i, curr, 0);
    } else {
      curr := Info(base, if end > base then end - base else 1, i.asid, i.vmid, i.fn, {});
      AbsorbedInFront(i, curr, 1);
    }
  }

  lemma AbsorbedInFront(i: Info, curr: Info, k: nat)
    requires WordSized(i) && Coalescable(i.fn) && i.start + i.size >= WORD && curr.fn == i.fn && curr.asid == i.asid
    requires curr.start % PAGE == 0 && 0 < curr.size <= PAGE && curr.start + curr.size < WORD
    requires curr.start <= i.start && i.start + i.size - WORD <= curr.start + curr.size
    requires k <= 1 && k * PAGE < i.size && (i.start + k * PAGE) % WORD / PAGE != curr.start / PAGE
    ensures Plain(curr) && Loss(i, curr)
  {
    var page := (i.start + k * PAGE) % WORD / PAGE;
    var lost := Supervisor(i.asid, page);
    assert VisitsAt(i, page, k);
    assert Flushes(i, lost);
    OnePage(curr, page);
    assert !Flushes(curr, lost);
  }

  lemma OnePage(i: Info, page: nat)
    requires i.start % PAGE == 0 && 0 < i.size <= PAGE && i.start + i.size < WORD
    ensures HitsPage(i, page) ==> page == i.start / PAGE
  {
    if k: nat :| VisitsAt(i, page, k) {
      assert k == 0;
    }
  }

  /** An entry whose last page is not visited absorbs a request for that page. */
  lemma OverhangLoses(i: Info) returns (next: Info)
    requires WordSized(i) && Coalescable(i.fn) && i.start + i.size < WORD && !VisitsAll(i)
    ensures WordSized(next) && Plain(next) && next.size <= PAGE && next.fn == i.fn && Loss(next, i)
  {
    var last := (i.start + i.size - 1) / PAGE;
    next := Info(last * PAGE, 1, i.asid, i.vmid, i.fn, {});
    Overhang(i.start, i.size);
    LastPageMissed(i, last);
    assert Plain(next);
    assert HitsPage(next, last) by {
      assert VisitsAt(next, last, 0);
    }
    AbsorbsNext(i, next, last);
  }

  lemma AbsorbsNext(i: Info, next: Info, page: nat)
    requires Coalescable(i.fn) && next.fn == i.fn && next.asid == i.asid && Plain(next)
    requires i.start < next.start && next.start + next.size <= i.start + i.size < WORD
    requires HitsPage(next, page) && !HitsPage(i, page)
    ensures Loss(next, i)
  {
    hide HitsPage, VisitsAll;
    var lost := Supervisor(i.asid, page);
    assert Flushes(next, lost) && !Flushes(i, lost);
  }

  lemma SameHits(i: Info, j: Info, page: nat)
    requires i.start == j.start && i.size == j.size
    ensures HitsPage(i, page) <==> HitsPage(j, page)
  {
    assert forall k: nat :: VisitsAt(i, page, k) <==> VisitsAt(j, page, k);
  }

  lemma LastPageMissed(i: Info, last: nat)
    requires i.size > 0 && i.start + i.size < WORD && !VisitsAll(i) && last == (i.start + i.size - 1) / PAGE
    ensures !HitsPage(i, last)
  {
    if i.size == FLUSH_ALL {
      assert false;
    } else if k: nat :| VisitsAt(i, last, k) {
      OverhangVisit(i.start, i.size, k);
      VisitedInside(i, last, k);
    }
  }

  lemma Overhang(start: nat, size: nat)
    requires size > 0 && start % 4096 + (size - 1) % 4096 >= 4096
    ensures (start + size - 1) / 4096 == start / 4096 + (size - 1) / 4096 + 1
    ensures 0 < start < (start + size - 1) / 4096 * 4096 < start + size
  {
    var a, b, q, t := start / 4096, start % 4096, (size - 1) / 4096, (size - 1) % 4096;
    assert start + size - 1 == (a + q + 1) * 4096 + (b + t - 4096);
  }

  lemma OverhangVisit(start: nat, size: nat, k: nat)
    requires size > 0 && start % 4096 + (size - 1) % 4096 >= 4096 && k * 4096 < size
    ensures (start + k * 4096) / 4096 < (start + size - 1) / 4096
  {
    Overhang(start, size);
    assert (start + k * 4096) / 4096 == start / 4096 + k;
    assert k <= (size - 1) / 4096;
  }

  /** So this entry, unaligned, absorbs a page that its loop never visits. */
  lemma UnalignedEntryLoses()
    ensures var curr := Info(0x800, 0x900, 0, 0, SfenceVma, {});
            var next := Info(0x1000, 0x100, 0, 0, SfenceVma, {});
            Plain(next) && UpdateCb(next, curr).0 == Skip && !Covers(UpdateCb(next, curr).1, next)
  {
    var curr := Info(0x800, 0x900, 0, 0, SfenceVma, {});
    var next := Info(0x1000, 0x100, 0, 0, SfenceVma, {});
    assert Flushes(next, Supervisor(0, 1)) by {
      assert VisitsAt(next, 1, 0);
    }
    assert !Flushes(UpdateCb(next, curr).1, Supervisor(0, 1));
  }
}
