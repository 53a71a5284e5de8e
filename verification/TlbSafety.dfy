/**
 Safety of the remote fence protocol over every run: acknowledgements are conserved, and a request does
 not return before each of its targets has flushed for it.
 */
module TlbSafety {
  import opened Arith
  import opened Fifo
  import opened TlbInfo
  import opened TlbProtocol

  // ---- Counting acknowledgement tokens ----

  /** How many of the first `n` queued entries still owe hart `x` an acknowledgement. */
  function CountIn(queue: seq<Info>, n: nat, x: nat): nat
    requires n <= |queue|
  {
    if n == 0 then 0 else CountIn(queue, n - 1, x) + Bit01(x in queue[n - 1].smask)
  }

  function InWork(w: Work, x: nat): nat {
    match w
    case NoEntry => 0
    case Flushing(e) => Bit01(x in e.smask)
    case Acking(left) => Bit01(x in left)
  }

  /** The tokens of `x` that hart `h` holds in its queue and in the entry it is working on. */
  function Tokens(h: Hart, x: nat): nat {
    CountIn(h.queue, |h.queue|, x) + InWork(h.work, x)
  }

  /** The tokens of `x` that the first `n` harts hold. */
  function Total(s: State, n: nat, x: nat): nat
    requires n <= |s|
  {
    if n == 0 then 0 else Total(s, n - 1, x) + Tokens(s[n - 1], x)
  }

  function Synced(s: State, x: nat): nat { Bit01(x < |s| && s[x].sync) }

  function Expected(s: State, x: nat): nat { Bit01(x < |s| && Waiting(s[x])) }

  /** A waiting hart has exactly one token, in a queued entry, in an entry being processed, or in its own
      sync word; a hart that does not wait has none. */
  ghost predicate Conserved(s: State) {
    forall x: nat :: Total(s, |s|, x) + Synced(s, x) == Expected(s, x)
  }

  lemma {:induction false} CountUpdate(queue: seq<Info>, k: nat, e: Info, n: nat, x: nat)
    requires k < |queue| && n <= |queue|
    ensures CountIn(queue[k := e], n, x) ==
              if k < n then CountIn(queue, n, x) - Bit01(x in queue[k].smask) + Bit01(x in e.smask) else CountIn(queue, n, x)
    ensures k < n ==> CountIn(queue, n, x) >= Bit01(x in queue[k].smask)
  {
    if n > 0 {
      CountUpdate(queue, k, e, n - 1, x);
    }
  }

  lemma {:induction false} CountAppend(queue: seq<Info>, e: Info, n: nat, x: nat)
    requires n <= |queue|
    ensures CountIn(queue + [e], n, x) == CountIn(queue, n, x)
  {
    if n > 0 {
      CountAppend(queue, e, n - 1, x);
    }
  }

  lemma {:induction false} CountTail(queue: seq<Info>, n: nat, x: nat)
    requires 0 < n <= |queue|
    ensures CountIn(queue, n, x) == Bit01(x in queue[0].smask) + CountIn(queue[1..], n - 1, x)
  {
    if n > 1 {
      CountTail(queue, n - 1, x);
      assert queue[1..][n - 2] == queue[n - 1];
    }
  }

  /** A new version of one hart changes the total by what that hart gains or loses. */
  lemma {:induction false} TotalUpdate(s: State, i: nat, h: Hart, n: nat, x: nat)
    requires i < |s| && n <= |s|
    ensures Total(s[i := h], n, x) == if i < n then Total(s, n, x) - Tokens(s[i], x) + Tokens(h, x) else Total(s, n, x)
    ensures i < n ==> Total(s, n, x) >= Tokens(s[i], x)
  {
    if n > 0 {
      TotalUpdate(s, i, h, n - 1, x);
    }
  }

  // ---- What a token means ----

  /** Hart `r` has flushed for something that covers `given` since its log had length `from`. */
  ghost predicate ServedAt(s: State, r: nat, from: nat, given: Info) {
    r < |s| && exists k :: from <= k < |s[r].log| && Covers(s[r].log[k], given)
  }

  /** Hart `x` waits for hart `r`. */
  predicate Waits(s: State, x: nat, r: nat) {
    && x < |s| && Waiting(s[x])
    && var c := s[x].pc.call;
       c.current < |c.targets| && |c.posted| == c.current + 1 && Target(c) == r
  }

  /** ... and an entry `e` of `r` will satisfy its request. */
  ghost predicate Owed(s: State, x: nat, r: nat, e: Info) {
    Waits(s, x, r) && Covers(e, s[x].pc.call.given)
  }

  /** ... and `r` has satisfied its request. */
  ghost predicate Settled(s: State, x: nat, r: nat) {
    && Waits(s, x, r)
    && ServedAt(s, r, s[x].pc.call.posted[s[x].pc.call.current], s[x].pc.call.given)
  }

  predicate EntryPlain(e: Info) { Coalescable(e.fn) ==> Plain(e) }

  ghost predicate EntryOk(s: State, r: nat, e: Info) {
    EntryPlain(e) && forall x :: x in e.smask ==> Owed(s, x, r, e)
  }

  ghost predicate QueueOk(s: State, r: nat, queue: seq<Info>) {
    |queue| <= QUEUE_SIZE && forall k :: 0 <= k < |queue| ==> EntryOk(s, r, queue[k])
  }

  ghost predicate WorkOk(s: State, r: nat, w: Work) {
    match w
    case NoEntry => true
    case Flushing(e) => EntryOk(s, r, e)
    case Acking(left) => left != {} && forall x :: x in left ==> Settled(s, x, r)
  }

  ghost predicate HartOk(s: State, r: nat)
    requires r < |s|
  {
    && QueueOk(s, r, s[r].queue)
    && WorkOk(s, r, s[r].work)
    && (s[r].work.NoEntry? || s[r].pc.Draining? || Helping(s[r]))
    && (s[r].sync ==> exists t :: Settled(s, r, t))
  }

  /** The request is on its way to its current target, past the upgrade. */
  ghost predicate Underway(c: Call, x: nat, limit: nat)
    requires c.current < |c.targets|
  {
    c.stage == Updating || (Upgrade(c.info, limit) == c.info && Target(c) != x)
  }

  ghost predicate CallInv(s: State, x: nat, limit: nat)
    requires x < |s|
  {
    s[x].pc.Requesting? ==>
      var c := s[x].pc.call;
      && CallOk(c, |s|) && |c.posted| == c.current + Bit01(Waiting(s[x]))
      && c.info.smask == {x} && Covers(c.info, c.given) && EntryPlain(Upgrade(c.info, limit)) && Underway(c, x, limit)
      && (forall j :: 0 <= j < c.current ==> ServedAt(s, c.targets[j], c.posted[j], c.given))
      && (Waiting(s[x]) ==> c.posted[c.current] <= |s[Target(c)].log|)
  }

  ghost predicate Inv(s: State, limit: nat) {
    && Conserved(s)
    && (forall r :: 0 <= r < |s| ==> HartOk(s, r))
    && (forall x :: 0 <= x < |s| ==> CallInv(s, x, limit))
  }

  // ---- Framing ----

  ghost predicate LogsGrow(s: State, s': State) {
    |s'| == |s| && forall r :: 0 <= r < |s| ==> s[r].log <= s'[r].log
  }

  /** What the claim of a waiting hart consists of. */
  predicate ClaimKept(s: State, s': State, x: nat) {
    && x < |s| && x < |s'| && Waiting(s[x]) && Waiting(s'[x])
    && s'[x].pc.call == s[x].pc.call.(stage := s'[x].pc.call.stage)
  }

  lemma ServedStays(s: State, s': State, r: nat, from: nat, given: Info)
    requires LogsGrow(s, s') && ServedAt(s, r, from, given)
    ensures ServedAt(s', r, from, given)
  {
    var k :| from <= k < |s[r].log| && Covers(s[r].log[k], given);
    assert s'[r].log[k] == s[r].log[k];
  }

  lemma SettledStays(s: State, s': State, x: nat, r: nat)
    requires LogsGrow(s, s') && Settled(s, x, r) && ClaimKept(s, s', x)
    ensures Settled(s', x, r)
  {
    ServedStays(s, s', r, s[x].pc.call.posted[s[x].pc.call.current], s[x].pc.call.given);
  }

  lemma EntryStays(s: State, s': State, r: nat, e: Info)
    requires EntryOk(s, r, e) && forall x :: x in e.smask ==> ClaimKept(s, s', x)
    ensures EntryOk(s', r, e)
  {
    forall x | x in e.smask ensures Owed(s', x, r, e) {
      assert Owed(s, x, r, e);
    }
  }

  lemma {:induction false} TokenCounts(queue: seq<Info>, k: nat, n: nat, x: nat)
    requires k < n <= |queue| && x in queue[k].smask
    ensures CountIn(queue, n, x) >= 1
  {
    if k < n - 1 {
      TokenCounts(queue, k, n - 1, x);
    }
  }

  /** Claims of everyone who has a token at `r` are kept. */
  ghost predicate TokensKept(s: State, s': State, r: nat)
    requires r < |s|
  {
    forall x: nat :: Tokens(s[r], x) > 0 ==> ClaimKept(s, s', x)
  }

  lemma QueueStays(s: State, s': State, r: nat)
    requires r < |s| && QueueOk(s, r, s[r].queue) && TokensKept(s, s', r)
    ensures QueueOk(s', r, s[r].queue)
  {
    var q := s[r].queue;
    forall k | 0 <= k < |q| ensures EntryOk(s', r, q[k]) {
      forall x | x in q[k].smask ensures ClaimKept(s, s', x) {
        TokenCounts(q, k, |q|, x);
        assert Tokens(s[r], x) > 0;
      }
      EntryStays(s, s', r, q[k]);
    }
  }

  lemma WorkStays(s: State, s': State, r: nat)
    requires r < |s| && WorkOk(s, r, s[r].work) && TokensKept(s, s', r) && LogsGrow(s, s')
    ensures WorkOk(s', r, s[r].work)
  {
    match s[r].work
    case NoEntry =>
    case Flushing(e) =>
      forall x | x in e.smask ensures ClaimKept(s, s', x) {
        assert Tokens(s[r], x) > 0;
      }
      EntryStays(s, s', r, e);
    case Acking(left) =>
      forall x | x in left ensures Settled(s', x, r) {
        assert Tokens(s[r], x) > 0;
        SettledStays(s, s', x, r);
      }
  }

  lemma SyncStays(s: State, s': State, x: nat)
    requires x < |s| && LogsGrow(s, s') && ClaimKept(s, s', x) && exists t :: Settled(s, x, t)
    ensures exists t :: Settled(s', x, t)
  {
    var t :| Settled(s, x, t);
    SettledStays(s, s', x, t);
  }

  /** Nothing of a call changes but its stage, which stays on the same side of the post. */
  predicate CallKept(s: State, s': State, x: nat) {
    && x < |s| && x < |s'| && s[x].pc.Requesting? && s'[x].pc.Requesting?
    && s'[x].pc.call == s[x].pc.call.(stage := s'[x].pc.call.stage)
    && Waiting(s'[x]) == Waiting(s[x])
    && !s[x].pc.call.stage.Updating? && !s'[x].pc.call.stage.Updating?
  }

  lemma CallStays(s: State, s': State, x: nat, limit: nat)
    requires x < |s| && LogsGrow(s, s') && CallInv(s, x, limit)
    requires s'[x].pc == s[x].pc || CallKept(s, s', x)
    ensures CallInv(s', x, limit)
  {
    if s'[x].pc.Requesting? {
      var c := s[x].pc.call;
      forall j | 0 <= j < c.current ensures ServedAt(s', c.targets[j], c.posted[j], c.given) {
        ServedStays(s, s', c.targets[j], c.posted[j], c.given);
      }
    }
  }

  predicate SameTokens(h: Hart, h': Hart) {
    h'.queue == h.queue && h'.work == h.work && h'.sync == h.sync
  }

  predicate WorkPlaced(h: Hart) { h.work.NoEntry? || h.pc.Draining? || Helping(h) }

  lemma HartStays(s: State, s': State, r: nat)
    requires r < |s| && HartOk(s, r) && LogsGrow(s, s') && TokensKept(s, s', r)
    requires SameTokens(s[r], s'[r]) && WorkPlaced(s'[r]) && (s[r].sync ==> ClaimKept(s, s', r))
    ensures HartOk(s', r)
  {
    QueueStays(s, s', r);
    WorkStays(s, s', r);
    if s[r].sync {
      SyncStays(s, s', r);
    }
  }

  /** Only waiting harts have tokens. */
  lemma TokenWaits(s: State, r: nat, x: nat)
    requires Conserved(s) && r < |s| && Tokens(s[r], x) > 0
    ensures x < |s| && Waiting(s[x]) && !s[x].sync
  {
    TotalUpdate(s, r, s[r], |s|, x);
    assert Total(s, |s|, x) + Synced(s, x) == Expected(s, x);
  }

  lemma SyncWaits(s: State, x: nat)
    requires Conserved(s) && x < |s| && s[x].sync
    ensures Waiting(s[x])
  {
    assert Total(s, |s|, x) + Synced(s, x) == Expected(s, x);
  }

  lemma {:induction false} TotalSame(s: State, s': State, n: nat, x: nat)
    requires |s'| == |s| && n <= |s| && forall r :: 0 <= r < |s| ==> SameTokens(s[r], s'[r])
    ensures Total(s', n, x) == Total(s, n, x)
  {
    if n > 0 {
      TotalSame(s, s', n - 1, x);
    }
  }

  /** Who waits, for whom and with which token is the same after the step. */
  predicate Quiet(s: State, s': State) {
    && |s'| == |s|
    && (forall r :: 0 <= r < |s| ==> SameTokens(s[r], s'[r]))
    && (forall x :: 0 <= x < |s| ==> Waiting(s'[x]) == Waiting(s[x]))
    && (forall x :: 0 <= x < |s| && Waiting(s[x]) ==> ClaimKept(s, s', x))
  }

  lemma QuietStep(s: State, s': State, i: nat, limit: nat)
    requires Inv(s, limit) && Quiet(s, s') && LogsGrow(s, s')
    requires i < |s| && (forall x :: 0 <= x < |s| && x != i ==> s'[x].pc == s[x].pc)
    requires CallInv(s', i, limit) && WorkPlaced(s'[i])
    ensures Inv(s', limit)
  {
    forall x: nat ensures Total(s', |s'|, x) + Synced(s', x) == Expected(s', x) {
      TotalSame(s, s', |s|, x);
      assert Total(s, |s|, x) + Synced(s, x) == Expected(s, x);
    }
    forall r | 0 <= r < |s| ensures HartOk(s', r) {
      forall x: nat | Tokens(s[r], x) > 0 ensures ClaimKept(s, s', x) {
        TokenWaits(s, r, x);
      }
      if s[r].sync {
        SyncWaits(s, r);
      }
      assert HartOk(s, r);
      HartStays(s, s', r);
    }
    forall x | 0 <= x < |s| ensures CallInv(s', x, limit) {
      if x != i {
        CallStays(s, s', x, limit);
      }
    }
  }

  // ---- The quiet steps ----

  lemma StartStep(s: State, a: Action, limit: nat)
    requires Inv(s, limit) && Enabled(s, a, limit) && a.Start?
    ensures Inv(Do(s, a, limit), limit)
  {
    assert HartOk(s, a.hart);
    QuietStep(s, Do(s, a, limit), a.hart, limit);
  }

  lemma InterruptStep(s: State, a: Action, limit: nat)
    requires Inv(s, limit) && Enabled(s, a, limit) && (a.TakeIpi? || a.ReadIpi?)
    ensures Inv(Do(s, a, limit), limit)
  {
    assert HartOk(s, a.hart);
    QuietStep(s, Do(s, a, limit), a.hart, limit);
  }

  lemma SignalStep(s: State, a: Action, limit: nat)
    requires Inv(s, limit) && Enabled(s, a, limit) && (a.SetBit? || a.Ring?)
    ensures Inv(Do(s, a, limit), limit)
  {
    var s' := Do(s, a, limit);
    assert HartOk(s, a.hart) && CallInv(s, a.hart, limit);
    CallStays(s, s', a.hart, limit);
    QuietStep(s, s', a.hart, limit);
  }

  lemma PollMissStep(s: State, a: Action, limit: nat)
    requires Inv(s, limit) && Enabled(s, a, limit) && a.Poll? && !s[a.hart].sync
    ensures Inv(Do(s, a, limit), limit)
  {
    var s' := Do(s, a, limit);
    assert HartOk(s, a.hart) && CallInv(s, a.hart, limit);
    CallStays(s, s', a.hart, limit);
    QuietStep(s, s', a.hart, limit);
  }

  /** The target is the caller itself: the flush happens here and nobody waits. */
  lemma OwnFlushStep(s: State, a: Action, limit: nat)
    requires Inv(s, limit) && Enabled(s, a, limit) && a.Update?
    requires Target(s[a.hart].pc.call) == a.hart
    ensures Inv(Do(s, a, limit), limit)
    ensures ServedAt(Do(s, a, limit), a.hart, |s[a.hart].log|, s[a.hart].pc.call.given)
  {
    var i, s' := a.hart, Do(s, a, limit);
    assert HartOk(s, i) && CallInv(s, i, limit);
    var c := s[i].pc.call;
    var info := Upgrade(c.info, limit);
    UpgradeCovers(c.info, limit);
    CoversTransitive(info, c.info, c.given);
    assert s'[i].log[|s[i].log|] == info;
    assert ServedAt(s', i, |s[i].log|, c.given);
    forall j | 0 <= j < c.current ensures ServedAt(s', c.targets[j], c.posted[j], c.given) {
      ServedStays(s, s', c.targets[j], c.posted[j], c.given);
    }
    QuietStep(s, s', i, limit);
  }

  /** No queued entry takes the request: the caller goes on to put in an entry of its own. */
  lemma NoMergeStep(s: State, a: Action, limit: nat)
    requires Inv(s, limit) && Enabled(s, a, limit) && a.Update?
    requires var c := s[a.hart].pc.call;
             && Target(c) != a.hart
             && ScanUpdate(s[Target(c)].queue, 0, Upgrade(c.info, limit), UpdateCb).0 == Unchanged
    ensures Inv(Do(s, a, limit), limit)
  {
    var i, s' := a.hart, Do(s, a, limit);
    assert HartOk(s, i) && CallInv(s, i, limit);
    var c := s[i].pc.call;
    UpgradeCovers(c.info, limit);
    CoversTransitive(Upgrade(c.info, limit), c.info, c.given);
    forall j | 0 <= j < c.current ensures ServedAt(s', c.targets[j], c.posted[j], c.given) {
      ServedStays(s, s', c.targets[j], c.posted[j], c.given);
    }
    QuietStep(s, s', i, limit);
  }

  lemma FullQueueStep(s: State, a: Action, limit: nat)
    requires Inv(s, limit) && Enabled(s, a, limit) && a.Enqueue?
    requires |s[Target(s[a.hart].pc.call)].queue| >= QUEUE_SIZE
    ensures Inv(Do(s, a, limit), limit)
  {
    var s' := Do(s, a, limit);
    assert HartOk(s, a.hart) && CallInv(s, a.hart, limit);
    CallStays(s, s', a.hart, limit);
    QuietStep(s, s', a.hart, limit);
  }

  // ---- Steps that move a token inside one hart ----

  lemma OneHartStep(s: State, i: nat, h: Hart, limit: nat)
    requires Inv(s, limit) && i < |s| && s[i].log <= h.log && h.sync == s[i].sync
    requires h.pc == s[i].pc || CallKept(s, s[i := h], i)
    requires forall x: nat :: Tokens(h, x) == Tokens(s[i], x)
    requires QueueOk(s[i := h], i, h.queue) && WorkOk(s[i := h], i, h.work) && WorkPlaced(h)
    ensures Inv(s[i := h], limit)
  {
    var s' := s[i := h];
    forall x: nat ensures Total(s', |s'|, x) + Synced(s', x) == Expected(s', x) {
      TotalUpdate(s, i, h, |s|, x);
      assert Total(s, |s|, x) + Synced(s, x) == Expected(s, x);
    }
    forall r | 0 <= r < |s| ensures HartOk(s', r) {
      assert HartOk(s, r);
      if s[r].sync {
        SyncWaits(s, r);
        SyncStays(s, s', r);
      }
      if r != i {
        forall x: nat | Tokens(s[r], x) > 0 ensures ClaimKept(s, s', x) {
          TokenWaits(s, r, x);
        }
        HartStays(s, s', r);
      }
    }
    forall x | 0 <= x < |s| ensures CallInv(s', x, limit) {
      CallStays(s, s', x, limit);
    }
  }

  /** The queue loop ends. */
  lemma LoopEndStep(s: State, a: Action, limit: nat)
    requires Inv(s, limit) && Enabled(s, a, limit) && a.Fetch? && AfterFetch(s[a.hart]).work.NoEntry?
    ensures Inv(Do(s, a, limit), limit)
  {
    var i, s' := a.hart, Do(s, a, limit);
    assert HartOk(s, i) && CallInv(s, i, limit);
    if s[i].pc.Requesting? {
      CallStays(s, s', i, limit);
    }
    QuietStep(s, s', i, limit);
  }

  lemma DequeuedQueueOk(s: State, s': State, i: nat)
    requires i < |s| && s[i].queue != [] && QueueOk(s, i, s[i].queue) && TokensKept(s, s', i)
    ensures EntryOk(s', i, s[i].queue[0]) && QueueOk(s', i, s[i].queue[1..])
  {
    var q := s[i].queue;
    QueueStays(s, s', i);
    forall k | 0 <= k < |q| - 1 ensures EntryOk(s', i, q[1..][k]) {
      assert q[1..][k] == q[k + 1];
    }
  }

  lemma FetchTokens(h: Hart, x: nat)
    requires h.work.NoEntry? && (h.pc.Draining? || Helping(h)) && !AfterFetch(h).work.NoEntry?
    ensures Tokens(AfterFetch(h), x) == Tokens(h, x)
  {
    CountTail(h.queue, |h.queue|, x);
  }

  lemma DequeueStep(s: State, a: Action, limit: nat)
    requires Inv(s, limit) && Enabled(s, a, limit) && a.Fetch? && !AfterFetch(s[a.hart]).work.NoEntry?
    ensures Inv(Do(s, a, limit), limit)
  {
    hide Acceptable, Covers, EntryPlain, Underway, CallInv;
    var i, h := a.hart, s[a.hart];
    var h' := AfterFetch(h);
    var s' := s[i := h'];
    assert HartOk(s, i);
    forall x: nat ensures Tokens(h', x) == Tokens(h, x) {
      FetchTokens(h, x);
    }
    forall x: nat | Tokens(h, x) > 0 ensures ClaimKept(s, s', x) {
      TokenWaits(s, i, x);
    }
    DequeuedQueueOk(s, s', i);
    OneHartStep(s, i, h', limit);
  }

  lemma FlushStep(s: State, a: Action, limit: nat)
    requires Inv(s, limit) && Enabled(s, a, limit) && a.Flush?
    ensures Inv(Do(s, a, limit), limit)
  {
    var i, h := a.hart, s[a.hart];
    var e := h.work.entry;
    var h' := h.(log := h.log + [e], work := AfterAck(e.smask));
    var s' := s[i := h'];
    assert HartOk(s, i);
    assert TokensKept(s, s', i) by {
      forall x: nat | Tokens(h, x) > 0 ensures ClaimKept(s, s', x) {
        TokenWaits(s, i, x);
      }
    }
    QueueStays(s, s', i);
    assert s'[i].log[|h.log|] == e;
    forall x | x in e.smask ensures Settled(s', x, i) {
      assert Owed(s, x, i, e) && CallInv(s, x, limit);
      assert Tokens(h, x) > 0;
    }
    OneHartStep(s, i, h', limit);
  }

  // ---- Steps that create, hand over or consume a token ----

  /** The exchange of the sync word never finds it set. */
  lemma AckNeverSpins(s: State, a: Action, limit: nat)
    requires Inv(s, limit) && Enabled(s, a, limit) && a.Ack?
    ensures !s[a.waiter].sync && a.waiter != a.hart && Settled(s, a.waiter, a.hart)
  {
    TokenWaits(s, a.hart, a.waiter);
    assert HartOk(s, a.hart);
    assert Settled(s, a.waiter, a.hart);
    assert CallInv(s, a.waiter, limit);
  }

  lemma AckConserves(s: State, a: Action, limit: nat)
    requires Inv(s, limit) && Enabled(s, a, limit) && a.Ack?
    ensures Conserved(Do(s, a, limit))
  {
    AckNeverSpins(s, a, limit);
    var i, t, s' := a.hart, a.waiter, Do(s, a, limit);
    var h := s[i].(work := AfterAck(s[i].work.left - {t}));
    var s1 := s[i := h];
    forall x: nat ensures Total(s', |s'|, x) + Synced(s', x) == Expected(s', x) {
      TotalUpdate(s, i, h, |s|, x);
      assert Tokens(h, x) == Tokens(s[i], x) - Bit01(x == t);
      TotalUpdate(s1, t, s'[t], |s|, x);
      assert Tokens(s'[t], x) == Tokens(s1[t], x);
      assert Total(s, |s|, x) + Synced(s, x) == Expected(s, x);
    }
  }

  lemma AckStep(s: State, a: Action, limit: nat)
    requires Inv(s, limit) && Enabled(s, a, limit) && a.Ack?
    ensures Inv(Do(s, a, limit), limit)
  {
    AckNeverSpins(s, a, limit);
    AckConserves(s, a, limit);
    var i, t, s' := a.hart, a.waiter, Do(s, a, limit);
    forall r | 0 <= r < |s| ensures HartOk(s', r) {
      assert HartOk(s, r);
      forall x: nat | Tokens(s[r], x) > 0 ensures ClaimKept(s, s', x) {
        TokenWaits(s, r, x);
      }
      QueueStays(s, s', r);
      WorkStays(s, s', r);
      if r == t {
        SettledStays(s, s', t, i);
      } else if s[r].sync {
        SyncWaits(s, r);
        SyncStays(s, s', r);
      }
    }
    forall x | 0 <= x < |s| ensures CallInv(s', x, limit) {
      CallStays(s, s', x, limit);
    }
  }

  /** Hart `i` stops waiting, for its sync word is set: its target has flushed for it. */
  lemma PollHitServed(s: State, i: nat, limit: nat)
    requires Inv(s, limit) && i < |s| && InStage(s[i], Polling) && s[i].sync
    ensures var c := s[i].pc.call;
            c.current < |c.targets| && |c.posted| == c.current + 1
            && forall j :: 0 <= j <= c.current ==> ServedAt(s, c.targets[j], c.posted[j], c.given)
  {
    assert HartOk(s, i) && CallInv(s, i, limit);
    var t :| Settled(s, i, t);
  }

  lemma PollHitHart(s: State, i: nat, r: nat, limit: nat)
    requires Inv(s, limit) && i < |s| && InStage(s[i], Polling) && s[i].sync && r < |s|
    ensures HartOk(s[i := DoPoll(s[i])], r)
  {
    var s' := s[i := DoPoll(s[i])];
    assert HartOk(s, r);
    forall x: nat | Tokens(s[r], x) > 0 ensures ClaimKept(s, s', x) {
      TokenWaits(s, r, x);
    }
    QueueStays(s, s', r);
    WorkStays(s, s', r);
    if r != i && s[r].sync {
      SyncWaits(s, r);
      SyncStays(s, s', r);
    }
  }

  lemma PollHitStep(s: State, a: Action, limit: nat)
    requires Inv(s, limit) && Enabled(s, a, limit) && a.Poll? && s[a.hart].sync
    ensures Inv(Do(s, a, limit), limit)
  {
    var i := a.hart;
    var s' := s[i := DoPoll(s[i])];
    forall x: nat ensures Total(s', |s'|, x) + Synced(s', x) == Expected(s', x) {
      TotalUpdate(s, i, s'[i], |s|, x);
      assert Total(s, |s|, x) + Synced(s, x) == Expected(s, x);
    }
    forall r | 0 <= r < |s| ensures HartOk(s', r) {
      PollHitHart(s, i, r, limit);
    }
    forall x | 0 <= x < |s| ensures CallInv(s', x, limit) {
      if x != i {
        CallStays(s, s', x, limit);
      } else {
        PollHitCall(s, i, limit);
      }
    }
  }

  lemma PollHitCall(s: State, i: nat, limit: nat)
    requires Inv(s, limit) && i < |s| && InStage(s[i], Polling) && s[i].sync
    ensures CallInv(s[i := DoPoll(s[i])], i, limit)
  {
    var s' := s[i := DoPoll(s[i])];
    PollHitServed(s, i, limit);
    assert CallInv(s, i, limit);
    var c := s[i].pc.call;
    forall j | 0 <= j <= c.current ensures ServedAt(s', c.targets[j], c.posted[j], c.given) {
      ServedStays(s, s', c.targets[j], c.posted[j], c.given);
    }
  }

  // ---- Posting a request ----

  /** Caller `i` may post `info` to hart `t`. */
  ghost predicate Postable(s: State, i: nat, t: nat, info: Info, limit: nat) {
    && i < |s| && t < |s| && t != i && s[i].pc.Requesting? && !Waiting(s[i])
    && CallInv(s, i, limit) && Target(s[i].pc.call) == t
    && info == Upgrade(s[i].pc.call.info, limit)
  }

  function AfterPost(s: State, i: nat, t: nat, info: Info, queue: seq<Info>): State
    requires i < |s| && t < |s| && s[i].pc.Requesting?
  {
    s[t := s[t].(queue := queue)][i := Posted(s[i], info, |s[t].log|)]
  }

  lemma PostConserves(s: State, i: nat, t: nat, info: Info, queue: seq<Info>, limit: nat)
    requires Inv(s, limit) && Postable(s, i, t, info, limit)
    requires forall x: nat :: CountIn(queue, |queue|, x) == CountIn(s[t].queue, |s[t].queue|, x) + Bit01(x == i)
    ensures Conserved(AfterPost(s, i, t, info, queue))
  {
    var s' := AfterPost(s, i, t, info, queue);
    var s1 := s[t := s[t].(queue := queue)];
    forall x: nat ensures Total(s', |s'|, x) + Synced(s', x) == Expected(s', x) {
      TotalUpdate(s, t, s1[t], |s|, x);
      TotalUpdate(s1, i, s'[i], |s|, x);
      assert Total(s, |s|, x) + Synced(s, x) == Expected(s, x);
    }
  }

  lemma PostCall(s: State, i: nat, t: nat, info: Info, queue: seq<Info>, limit: nat)
    requires Postable(s, i, t, info, limit)
    ensures CallInv(AfterPost(s, i, t, info, queue), i, limit) && Waits(AfterPost(s, i, t, info, queue), i, t)
    ensures info.smask == {i} && Covers(info, s[i].pc.call.given) && EntryPlain(info)
  {
    var s' := AfterPost(s, i, t, info, queue);
    var c := s[i].pc.call;
    UpgradeCovers(c.info, limit);
    CoversTransitive(info, c.info, c.given);
    forall j | 0 <= j < c.current ensures ServedAt(s', c.targets[j], c.posted[j], c.given) {
      ServedStays(s, s', c.targets[j], c.posted[j], c.given);
    }
  }

  lemma PostKeepsClaims(s: State, i: nat, t: nat, info: Info, queue: seq<Info>, r: nat, limit: nat)
    requires Inv(s, limit) && Postable(s, i, t, info, limit) && r < |s|
    ensures TokensKept(s, AfterPost(s, i, t, info, queue), r)
  {
    var s' := AfterPost(s, i, t, info, queue);
    forall x: nat | Tokens(s[r], x) > 0 ensures ClaimKept(s, s', x) {
      TokenWaits(s, r, x);
    }
  }

  lemma PostHart(s: State, i: nat, t: nat, info: Info, queue: seq<Info>, r: nat, limit: nat)
    requires Inv(s, limit) && Postable(s, i, t, info, limit) && r < |s|
    requires !Helping(s[i])
    requires QueueOk(AfterPost(s, i, t, info, queue), t, queue)
    ensures HartOk(AfterPost(s, i, t, info, queue), r)
  {
    var s' := AfterPost(s, i, t, info, queue);
    assert HartOk(s, r);
    PostKeepsClaims(s, i, t, info, queue, r, limit);
    QueueStays(s, s', r);
    WorkStays(s, s', r);
    if s[r].sync {
      SyncWaits(s, r);
      SyncStays(s, s', r);
    }
  }

  lemma PostStep(s: State, i: nat, t: nat, info: Info, queue: seq<Info>, limit: nat)
    requires Inv(s, limit) && Postable(s, i, t, info, limit) && !Helping(s[i])
    requires forall x: nat :: CountIn(queue, |queue|, x) == CountIn(s[t].queue, |s[t].queue|, x) + Bit01(x == i)
    requires QueueOk(AfterPost(s, i, t, info, queue), t, queue)
    ensures Inv(AfterPost(s, i, t, info, queue), limit)
  {
    var s' := AfterPost(s, i, t, info, queue);
    PostConserves(s, i, t, info, queue, limit);
    forall r | 0 <= r < |s| ensures HartOk(s', r) {
      PostHart(s, i, t, info, queue, r, limit);
    }
    PostCall(s, i, t, info, queue, limit);
    forall x | 0 <= x < |s| ensures CallInv(s', x, limit) {
      if x != i {
        CallStays(s, s', x, limit);
      }
    }
  }

  lemma EnqueueStep(s: State, a: Action, limit: nat)
    requires Inv(s, limit) && Enabled(s, a, limit) && a.Enqueue?
    requires |s[Target(s[a.hart].pc.call)].queue| < QUEUE_SIZE
    ensures Inv(Do(s, a, limit), limit)
  {
    var i := a.hart;
    assert CallInv(s, i, limit);
    var t, info := Target(s[i].pc.call), s[i].pc.call.info;
    var q := s[t].queue;
    var s' := AfterPost(s, i, t, info, q + [info]);
    assert s' == Do(s, a, limit);
    PostCall(s, i, t, info, q + [info], limit);
    forall x: nat ensures CountIn(q + [info], |q| + 1, x) == CountIn(q, |q|, x) + Bit01(x == i) {
      CountAppend(q, info, |q|, x);
    }
    PostKeepsClaims(s, i, t, info, q + [info], t, limit);
    assert HartOk(s, t);
    QueueStays(s, s', t);
    assert EntryOk(s', t, info);
    PostStep(s, i, t, info, q + [info], limit);
  }

  /** The entry that coalescing leaves satisfies everyone who waited for it, and the new caller. */
  lemma MergedOk(s: State, i: nat, t: nat, info: Info, k: nat, limit: nat)
    requires Inv(s, limit) && Postable(s, i, t, info, limit)
    requires k < |s[t].queue| && UpdateCb(info, s[t].queue[k]).0 != Unchanged
    ensures var e, merged := s[t].queue[k], UpdateCb(info, s[t].queue[k]).1;
            && i !in e.smask && merged.smask == e.smask + {i}
            && EntryOk(AfterPost(s, i, t, info, s[t].queue[k := merged]), t, merged)
  {
    var q := s[t].queue;
    var e, merged := q[k], UpdateCb(info, q[k]).1;
    var s' := AfterPost(s, i, t, info, q[k := merged]);
    assert HartOk(s, t) && EntryOk(s, t, e);
    PostCall(s, i, t, info, q[k := merged], limit);
    CoalesceSound(info, e);
    assert i in e.smask ==> Owed(s, i, t, e);
    CoversTransitive(merged, info, s[i].pc.call.given);
    forall x | x in merged.smask ensures Owed(s', x, t, merged) {
      if x != i {
        assert Owed(s, x, t, e);
        CoversTransitive(merged, e, s[x].pc.call.given);
      }
    }
  }

  lemma MergeStep(s: State, i: nat, t: nat, info: Info, k: nat, limit: nat)
    requires Inv(s, limit) && Postable(s, i, t, info, limit) && !Helping(s[i])
    requires k < |s[t].queue| && UpdateCb(info, s[t].queue[k]).0 != Unchanged
    ensures Inv(AfterPost(s, i, t, info, s[t].queue[k := UpdateCb(info, s[t].queue[k]).1]), limit)
  {
    var q := s[t].queue;
    var merged := UpdateCb(info, q[k]).1;
    var s' := AfterPost(s, i, t, info, q[k := merged]);
    MergedOk(s, i, t, info, k, limit);
    forall x: nat ensures CountIn(q[k := merged], |q|, x) == CountIn(q, |q|, x) + Bit01(x == i) {
      CountUpdate(q, k, merged, |q|, x);
    }
    PostKeepsClaims(s, i, t, info, q[k := merged], t, limit);
    assert HartOk(s, t);
    QueueStays(s, s', t);
    PostStep(s, i, t, info, q[k := merged], limit);
  }

  lemma UpdateStep(s: State, a: Action, limit: nat)
    requires Inv(s, limit) && Enabled(s, a, limit) && a.Update?
    ensures Inv(Do(s, a, limit), limit)
  {
    var i := a.hart;
    var c := s[i].pc.call;
    var t, info := Target(c), Upgrade(c.info, limit);
    assert CallInv(s, i, limit);
    if t == i {
      OwnFlushStep(s, a, limit);
    } else {
      var q := s[t].queue;
      var (ret, now) := ScanUpdate(q, 0, info, UpdateCb);
      ScanUpdateFirst(q, 0, info, UpdateCb);
      if ret == Unchanged {
        NoMergeStep(s, a, limit);
      } else {
        var k: nat :| FirstAccepted(q, k, info, UpdateCb)
                      && UpdateCb(info, q[k]).0 == ret && now == q[k := UpdateCb(info, q[k]).1];
        MergeStep(s, i, t, info, k, limit);
        assert Do(s, a, limit) == AfterPost(s, i, t, info, now);
      }
    }
  }

  // ---- All steps, and all runs ----

  lemma StepKeepsInv(s: State, a: Action, limit: nat)
    requires Inv(s, limit) && Enabled(s, a, limit)
    ensures Inv(Do(s, a, limit), limit)
  {
    match a
    case Start(_, _, _) => StartStep(s, a, limit);
    case TakeIpi(_) => InterruptStep(s, a, limit);
    case ReadIpi(_) => InterruptStep(s, a, limit);
    case Fetch(_) => if AfterFetch(s[a.hart]).work.NoEntry? { LoopEndStep(s, a, limit); } else { DequeueStep(s, a, limit); }
    case Flush(_) => FlushStep(s, a, limit);
    case Ack(_, _) => AckStep(s, a, limit);
    case Update(_) => UpdateStep(s, a, limit);
    case Enqueue(_) =>
      if |s[Target(s[a.hart].pc.call)].queue| < QUEUE_SIZE { EnqueueStep(s, a, limit); } else { FullQueueStep(s, a, limit); }
    case SetBit(_) => SignalStep(s, a, limit);
    case Ring(_) => SignalStep(s, a, limit);
    case Poll(_) => if s[a.hart].sync { PollHitStep(s, a, limit); } else { PollMissStep(s, a, limit); }
  }

  lemma {:induction false} InitialTotal(s: State, n: nat, x: nat)
    requires Initial(s) && n <= |s|
    ensures Total(s, n, x) == 0
  {
    if n > 0 {
      InitialTotal(s, n - 1, x);
    }
  }

  /** The invariant holds in every reachable state. */
  lemma {:induction false} RunKeepsInv(states: seq<State>, actions: seq<Action>, limit: nat, k: nat)
    requires Run(states, actions, limit) && k < |states|
    ensures Inv(states[k], limit)
  {
    if k == 0 {
      forall x: nat ensures Total(states[0], |states[0]|, x) + Synced(states[0], x) == Expected(states[0], x) {
        InitialTotal(states[0], |states[0]|, x);
      }
    } else {
      RunKeepsInv(states, actions, limit, k - 1);
      assert Enabled(states[k - 1], actions[k - 1], limit);
      StepKeepsInv(states[k - 1], actions[k - 1], limit);
    }
  }

  // ---- The main results ----

  /** In every run, a waiting hart has one token and any other hart none; and the loop that sets a sync word
      in `tlb_entry_process` ends at its first exchange. */
  lemma AcksConserved(states: seq<State>, actions: seq<Action>, limit: nat, k: nat)
    requires Run(states, actions, limit) && k < |states|
    ensures forall x: nat :: x < |states[k]| ==>
              Total(states[k], |states[k]|, x) + Bit01(states[k][x].sync) == Bit01(Waiting(states[k][x]))
    ensures k < |actions| && actions[k].Ack? ==> !states[k][actions[k].waiter].sync
  {
    RunKeepsInv(states, actions, limit, k);
    forall x: nat | x < |states[k]|
      ensures Total(states[k], |states[k]|, x) + Bit01(states[k][x].sync) == Bit01(Waiting(states[k][x]))
    {
      assert Total(states[k], |states[k]|, x) + Synced(states[k], x) == Expected(states[k], x);
    }
    if k < |actions| && actions[k].Ack? {
      assert Enabled(states[k], actions[k], limit);
      AckNeverSpins(states[k], actions[k], limit);
    }
  }

  lemma StepGrowsLogs(s: State, a: Action, limit: nat)
    requires Enabled(s, a, limit)
    ensures LogsGrow(s, Do(s, a, limit))
  {
    assert |Do(s, a, limit)| == |s|;
    hide Do, Enabled, Possible;
    forall r | 0 <= r < |s| ensures s[r].log <= Do(s, a, limit)[r].log {
      StepGrowsLog(s, a, limit, r);
    }
  }

  lemma StepGrowsLog(s: State, a: Action, limit: nat, r: nat)
    requires Enabled(s, a, limit) && r < |s|
    ensures r < |Do(s, a, limit)| && s[r].log <= Do(s, a, limit)[r].log
  {
    hide Acceptable, UpdateCb, Upgrade;
  }

  /** A step of another hart leaves a hart where it is. */
  lemma OthersKeepPc(s: State, a: Action, limit: nat, i: nat)
    requires Enabled(s, a, limit) && i < |s| && a.hart != i
    ensures i < |Do(s, a, limit)| && Do(s, a, limit)[i].pc == s[i].pc
  {
  }

  /** The history of a running call stays, or takes in the log length of the current target. */
  predicate CallMoves(s: State, s': State, i: nat) {
    i < |s| && i < |s'| && s[i].pc.Requesting? && s'[i].pc.Requesting? ==>
      var c, c' := s[i].pc.call, s'[i].pc.call;
      && c'.given == c.given && c'.targets == c.targets && c.current < |c.targets| && Target(c) < |s|
      && (c'.posted == c.posted || (!Waiting(s[i]) && c'.posted == c.posted + [|s[Target(c)].log|]))
  }

  lemma PostMoves(s: State, a: Action, limit: nat)
    requires Enabled(s, a, limit) && (a.Update? || a.Enqueue?)
    ensures CallMoves(s, Do(s, a, limit), a.hart)
  {
  }

  lemma OtherMoves(s: State, a: Action, limit: nat)
    requires Enabled(s, a, limit) && !a.Update? && !a.Enqueue?
    ensures CallMoves(s, Do(s, a, limit), a.hart)
  {
  }

  /** Each target before the current one has been posted to, and so has the current one if it is waited for. */
  predicate PostsCounted(s: State, i: nat) {
    i < |s| && s[i].pc.Requesting? ==> |s[i].pc.call.posted| == s[i].pc.call.current + Bit01(Waiting(s[i]))
  }

  /** What the step to state `k` gives, seen from hart `i`. */
  ghost predicate View(states: seq<State>, k: nat, i: nat)
    requires 0 < k < |states|
  {
    LogsGrow(states[k - 1], states[k]) && CallMoves(states[k - 1], states[k], i) && PostsCounted(states[k - 1], i)
  }

  ghost predicate Views(states: seq<State>, i: nat) {
    forall k :: 0 < k < |states| ==> View(states, k, i)
  }

  lemma RunStep(states: seq<State>, actions: seq<Action>, limit: nat, k: nat)
    requires Run(states, actions, limit) && k + 1 < |states|
    ensures k < |actions| && Enabled(states[k], actions[k], limit) && states[k + 1] == Do(states[k], actions[k], limit)
  {
  }

  /** One step, seen from hart `i`. */
  lemma StepView(s: State, a: Action, limit: nat, i: nat)
    requires Inv(s, limit) && Enabled(s, a, limit)
    ensures LogsGrow(s, Do(s, a, limit)) && CallMoves(s, Do(s, a, limit), i) && PostsCounted(s, i)
  {
    assert i < |s| ==> CallInv(s, i, limit);
    hide Inv, Enabled, Do, LogsGrow;
    StepGrowsLogs(s, a, limit);
    if a.hart == i && (a.Update? || a.Enqueue?) {
      PostMoves(s, a, limit);
    } else if a.hart == i {
      OtherMoves(s, a, limit);
    } else if i < |s| {
      OthersKeepPc(s, a, limit, i);
      CallRuns(s, limit, i);
    }
  }

  lemma CallRuns(s: State, limit: nat, i: nat)
    requires Inv(s, limit) && i < |s|
    ensures s[i].pc.Requesting? ==> s[i].pc.call.current < |s[i].pc.call.targets| && Target(s[i].pc.call) < |s|
  {
    assert CallInv(s, i, limit);
  }

  lemma RunViews(states: seq<State>, actions: seq<Action>, limit: nat, i: nat)
    requires Run(states, actions, limit)
    ensures Views(states, i)
  {
    hide Run, Inv, Enabled, Do, LogsGrow, CallMoves, PostsCounted;
    forall k | 0 < k < |states| ensures View(states, k, i) {
      RunStep(states, actions, limit, k - 1);
      RunKeepsInv(states, actions, limit, k - 1);
      StepView(states[k - 1], actions[k - 1], limit, i);
    }
  }

  /** Hart `a.hart` is in the call that `a` began. */
  ghost predicate Calling(s: State, a: Action) {
    && a.Start? && a.hart < |s| && s[a.hart].pc.Requesting?
    && s[a.hart].pc.call.given == a.request && s[a.hart].pc.call.targets == a.targets
  }

  /** Step number `k` of the run posts the request of hart `i` to target number `j`, or flushes for it when the
      target is the hart itself. */
  ghost predicate PostsIn(states: seq<State>, i: nat, k: nat, j: nat) {
    && k + 1 < |states| && i < |states[k]| && i < |states[k + 1]| && states[k][i].pc.Requesting? && !Waiting(states[k][i])
    && |states[k][i].pc.call.posted| == j == states[k][i].pc.call.current
    && (states[k + 1][i].pc.Requesting? ==> |states[k + 1][i].pc.call.posted| == j + 1)
  }

  /** ... and the history of the call holds how long the target's log was then. */
  ghost predicate DatedBy(states: seq<State>, i: nat, n: nat, j: nat, k: nat)
    requires n < |states| && i < |states[n]| && states[n][i].pc.Requesting?
  {
    var c := states[n][i].pc.call;
    && PostsIn(states, i, k, j) && j < |c.targets| && j < |c.posted|
    && c.targets[j] < |states[k]| && c.posted[j] == |states[k][c.targets[j]].log|
  }

  ghost predicate HasDate(states: seq<State>, i: nat, m: nat, n: nat, j: nat)
    requires n < |states| && i < |states[n]| && states[n][i].pc.Requesting?
  {
    exists k: nat :: m < k < n && DatedBy(states, i, n, j, k)
  }

  ghost predicate Dated(states: seq<State>, i: nat, m: nat, n: nat)
    requires n < |states| && i < |states[n]| && states[n][i].pc.Requesting?
  {
    forall j: nat :: j < |states[n][i].pc.call.posted| ==> HasDate(states, i, m, n, j)
  }

  /** While a call runs, each entry of its history dates from the step that posted the request. */
  lemma {:induction false} CallHistory(states: seq<State>, a: Action, m: nat, n: nat)
    requires a.Start? && Views(states, a.hart) && m < n < |states|
    requires Calling(states[m + 1], a) && states[m + 1][a.hart].pc.call.posted == []
    requires forall k :: m < k <= n ==> a.hart < |states[k]| && states[k][a.hart].pc.Requesting?
    ensures Calling(states[n], a) && Dated(states, a.hart, m, n)
    decreases n
  {
    if m + 1 < n {
      CallHistory(states, a, m, n - 1);
      assert View(states, n, a.hart);
      HistoryStep(states, a, m, n);
    }
  }

  lemma HistoryStep(states: seq<State>, a: Action, m: nat, n: nat)
    requires a.Start? && m + 1 < n < |states| && a.hart < |states[n]| && states[n][a.hart].pc.Requesting?
    requires Calling(states[n - 1], a) && Dated(states, a.hart, m, n - 1) && View(states, n, a.hart)
    ensures Calling(states[n], a) && Dated(states, a.hart, m, n)
  {
    var i := a.hart;
    var c, c' := states[n - 1][i].pc.call, states[n][i].pc.call;
    forall j: nat | j < |c'.posted| ensures HasDate(states, i, m, n, j) {
      if j < |c.posted| {
        assert HasDate(states, i, m, n - 1, j);
        var k: nat :| m < k < n - 1 && DatedBy(states, i, n - 1, j, k);
        assert DatedBy(states, i, n, j, k);
      } else {
        assert DatedBy(states, i, n, j, n - 1);
      }
    }
  }

  lemma StartCalls(s: State, a: Action, limit: nat)
    requires Enabled(s, a, limit) && a.Start?
    ensures Calling(Do(s, a, limit), a) && Do(s, a, limit)[a.hart].pc.call.posted == []
  {
  }

  /** Hart `r` flushed for all of `request` between two states of a run. */
  ghost predicate FlushedBetween(s: State, s': State, r: nat, request: Info) {
    r < |s| && r < |s'| && exists k :: |s[r].log| <= k < |s'[r].log| && Covers(s'[r].log[k], request)
  }

  /** The step by which a call returns leaves every target served. The last target is waited for, or it is the
      caller itself. */
  lemma ReturnServes(s: State, a: Action, limit: nat, i: nat)
    requires Inv(s, limit) && Enabled(s, a, limit) && i < |s| && s[i].pc.Requesting? && Do(s, a, limit)[i].pc.Idle?
    ensures Returned(s, Do(s, a, limit), i)
  {
    var c, s' := s[i].pc.call, Do(s, a, limit);
    assert CallInv(s, i, limit);
    StepGrowsLogs(s, a, limit);
    if a.hart != i {
      OthersKeepPc(s, a, limit, i);
      assert false;
    }
    if a.Update? {
      assert Target(c) == i && c.current == |c.targets| - 1;
      OwnFlushStep(s, a, limit);
    } else {
      assert a.Poll? && s[i].sync;
      PollHitServed(s, i, limit);
    }
    forall j | 0 <= j < |c.targets| ensures ServedAt(s', c.targets[j], PostedAt(s, c, j), c.given) {
      if j < |c.posted| {
        ServedStays(s, s', c.targets[j], c.posted[j], c.given);
      }
    }
  }

  /** How long the log of target number `j` was when the request was posted to it; if it was not, the caller
      flushes for itself now. */
  function PostedAt(s: State, c: Call, j: nat): nat
    requires CallOk(c, |s|) && j < |c.targets|
  {
    if j < |c.posted| then c.posted[j] else |s[c.targets[j]].log|
  }

  ghost predicate Returned(s: State, s': State, i: nat) {
    && i < |s| && s[i].pc.Requesting? && i < |s'| && s'[i].pc.Idle?
    && var c := s[i].pc.call;
       && CallOk(c, |s|) && (|c.posted| < |c.targets| ==> |c.posted| + 1 == |c.targets| && c.current == |c.posted| && !Waiting(s[i]))
       && forall j :: 0 <= j < |c.targets| ==> ServedAt(s', c.targets[j], PostedAt(s, c, j), c.given)
  }

  lemma RunReturnServes(states: seq<State>, actions: seq<Action>, limit: nat, n: nat, i: nat)
    requires Run(states, actions, limit) && 0 < n < |states| && i < |states[n - 1]| && i < |states[n]|
    requires states[n - 1][i].pc.Requesting? && states[n][i].pc.Idle?
    ensures Returned(states[n - 1], states[n], i)
  {
    hide *;
    RunKeepsInv(states, actions, limit, n - 1);
    RunStep(states, actions, limit, n - 1);
    ReturnServes(states[n - 1], actions[n - 1], limit, i);
  }

  lemma RunStartCalls(states: seq<State>, actions: seq<Action>, limit: nat, m: nat)
    requires Run(states, actions, limit) && m < |actions| && actions[m].Start?
    ensures Calling(states[m + 1], actions[m]) && states[m + 1][actions[m].hart].pc.call.posted == []
  {
    assert Enabled(states[m], actions[m], limit);
    StartCalls(states[m], actions[m], limit);
  }

  /** Some step of the run after `m` posts the request to target number `j`, and from then on until `n` the target
      flushes for all of it. */
  ghost predicate ServedOncePosted(states: seq<State>, i: nat, m: nat, n: nat, j: nat, target: nat, request: Info)
    requires n < |states|
  {
    exists k :: m < k < n && PostsIn(states, i, k, j) && FlushedBetween(states[k], states[n], target, request)
  }

  lemma CallServed(states: seq<State>, a: Action, m: nat, n: nat, j: nat)
    requires m + 1 < n < |states| && Calling(states[n - 1], a) && Dated(states, a.hart, m, n - 1)
    requires Returned(states[n - 1], states[n], a.hart) && j < |a.targets|
    ensures ServedOncePosted(states, a.hart, m, n, j, a.targets[j], a.request)
  {
    var i := a.hart;
    var c := states[n - 1][i].pc.call;
    hide Covers;
    assert ServedAt(states[n], c.targets[j], PostedAt(states[n - 1], c, j), c.given);
    if j < |c.posted| {
      assert HasDate(states, i, m, n - 1, j);
      var k: nat :| m < k < n - 1 && DatedBy(states, i, n - 1, j, k);
      assert FlushedBetween(states[k], states[n], a.targets[j], a.request);
    } else {
      assert PostsIn(states, i, n - 1, j);
      assert FlushedBetween(states[n - 1], states[n], a.targets[j], a.request);
    }
  }

  /** When a remote fence call returns, each of its targets has, after the request was posted to it, flushed for
      something that covers the whole request, whether it was queued, coalesced or upgraded. */
  lemma RequestServed(states: seq<State>, actions: seq<Action>, limit: nat, m: nat, n: nat)
    requires Run(states, actions, limit) && m + 1 < n < |states| && actions[m].Start?
    requires forall k :: m < k < n ==> actions[m].hart < |states[k]| && states[k][actions[m].hart].pc.Requesting?
    requires actions[m].hart < |states[n]| && states[n][actions[m].hart].pc.Idle?
    ensures forall j :: 0 <= j < |actions[m].targets| ==>
              ServedOncePosted(states, actions[m].hart, m, n, j, actions[m].targets[j], actions[m].request)
  {
    var a := actions[m];
    hide *;
    RunViews(states, actions, limit, a.hart);
    RunStartCalls(states, actions, limit, m);
    CallEnds(states, a, m, n);
    RunReturnServes(states, actions, limit, n, a.hart);
    forall j | 0 <= j < |a.targets| ensures ServedOncePosted(states, a.hart, m, n, j, a.targets[j], a.request) {
      CallServed(states, a, m, n, j);
    }
  }

  /** The call is still the one that began, when it is about to return. */
  lemma CallEnds(states: seq<State>, a: Action, m: nat, n: nat)
    requires Views(states, a.hart) && m + 1 < n < |states| && a.Start?
    requires Calling(states[m + 1], a) && states[m + 1][a.hart].pc.call.posted == []
    requires forall k :: m < k < n ==> a.hart < |states[k]| && states[k][a.hart].pc.Requesting?
    ensures a.hart < |states[n - 1]| && states[n - 1][a.hart].pc.Requesting?
    ensures Calling(states[n - 1], a) && Dated(states, a.hart, m, n - 1)
  {
    CallHistory(states, a, m, n - 1);
  }
}
