/**
 The ticket lock of lib/sbi/riscv_locks.c over every interleaving.  The lock is one 32-bit word, the owner
 in its low and the next ticket in its high half; one step is one atomic instruction, one load, one store
 or one local comparison.
 */
module TicketLock {

  /** 2 to the power TICKET_SHIFT: the tickets are numbers modulo this. */
  const TICKETS: nat := 0x1_0000

  const WORD: nat := 0x1_0000_0000

  function Pack(owner: nat, next: nat): nat { owner + TICKETS * next }

  /** The `and` with 0xffff. */
  function OwnerOf(word: nat): nat { word % TICKETS }

  /** The shift right by TICKET_SHIFT. */
  function NextOf(word: nat): nat { word / TICKETS % TICKETS }

  /** AMOADD, and the ADD before SC: the increment of the upper half wraps at the end of the word. */
  function AddTicket(word: nat): nat { (word + TICKETS) % WORD }

  /** The comparison in `spin_trylock`: the owner shifted up against the upper half. */
  predicate LooksFree(word: nat) { word * TICKETS % WORD == word / TICKETS * TICKETS }

  datatype Pc =
    | Out
    | Comparing(ticket: nat, l0: nat)   // `spin_lock` with a loaded lock word
    | Loading(ticket: nat)              // `spin_lock` before the LW
    | Holding
    | Releasing(read: nat)              // `spin_unlock` between its load and its store
    | Retrying                          // `spin_trylock` before the LR
    | Trying(word: nat)                 // `spin_trylock` after the LR

  /** `reserved` are the harts whose LR reservation is intact. `taken` and `entered` are the histories of
      harts that drew a ticket and that got the lock; `released` counts the unlocks. */
  datatype State = State(word: nat, reserved: set<nat>, pcs: seq<Pc>, taken: seq<nat>, entered: seq<nat>, released: nat)

  datatype Action =
    | Draw(hart: nat)                   // AMOADD
    | Compare(hart: nat)                // BEQ
    | Load(hart: nat)                   // LW
    | Read(hart: nat)                   // the load of `owner` in `spin_unlock`
    | Store(hart: nat)                  // its store
    | LoadReserved(hart: nat)           // LR
    | StoreConditional(hart: nat, spurious: bool)  // BNE and SC; an SC may fail for no reason

  predicate Enabled(s: State, a: Action) {
    && a.hart < |s.pcs|
    && var pc := s.pcs[a.hart];
       match a
       case Draw(_) => pc.Out?
       case Compare(_) => pc.Comparing?
       case Load(_) => pc.Loading?
       case Read(_) => pc.Holding?
       case Store(_) => pc.Releasing?
       case LoadReserved(_) => pc.Out? || pc.Retrying?
       case StoreConditional(_, _) => pc.Trying?
  }

  function Do(s: State, a: Action): State
    requires Enabled(s, a)
  {
    var h := a.hart;
    var pc := s.pcs[h];
    match a
    case Draw(_) =>
      s.(word := AddTicket(s.word), reserved := {}, taken := s.taken + [h],
         pcs := s.pcs[h := Comparing(NextOf(s.word), s.word)])
    case Compare(_) =>
      if pc.ticket == OwnerOf(pc.l0) then s.(pcs := s.pcs[h := Holding], entered := s.entered + [h])
      else s.(pcs := s.pcs[h := Loading(pc.ticket)])
    case Load(_) => s.(pcs := s.pcs[h := Comparing(pc.ticket, s.word)])
    case Read(_) => s.(pcs := s.pcs[h := Releasing(OwnerOf(s.word))])
    case Store(_) =>
      s.(word := Pack((pc.read + 1) % TICKETS, NextOf(s.word)), reserved := {}, released := s.released + 1,
         pcs := s.pcs[h := Out])
    case LoadReserved(_) => s.(reserved := s.reserved + {h}, pcs := s.pcs[h := Trying(s.word)])
    case StoreConditional(_, spurious) =>
      if !LooksFree(pc.word) then s.(pcs := s.pcs[h := Out], reserved := s.reserved - {h})
      else if h !in s.reserved || spurious then s.(pcs := s.pcs[h := Retrying], reserved := s.reserved - {h})
      else
        s.(word := AddTicket(pc.word), reserved := {}, taken := s.taken + [h], entered := s.entered + [h],
           pcs := s.pcs[h := Holding])
  }

  /** SPIN_LOCK_INITIALIZER, with no hart inside. */
  predicate Initial(s: State) {
    s == State(0, {}, s.pcs, [], [], 0) && forall h :: 0 <= h < |s.pcs| ==> s.pcs[h] == Out
  }

  predicate Run(states: seq<State>, actions: seq<Action>) {
    && |states| == |actions| + 1 && Initial(states[0])
    && forall k :: 0 <= k < |actions| ==> Enabled(states[k], actions[k]) && states[k + 1] == Do(states[k], actions[k])
  }

  // ---- The word ----

  lemma PackParts(owner: nat, next: nat)
    requires owner < TICKETS && next < TICKETS
    ensures Pack(owner, next) < WORD && OwnerOf(Pack(owner, next)) == owner && NextOf(Pack(owner, next)) == next
    ensures AddTicket(Pack(owner, next)) == Pack(owner, (next + 1) % TICKETS)
    ensures LooksFree(Pack(owner, next)) <==> owner == next
  {
    Halves(owner, next);
    IncrementWraps(owner, next);
    HalvesCompared(owner, next);
  }

  lemma Halves(o: nat, n: nat)
    requires o < 0x1_0000 && n < 0x1_0000
    ensures var w := o + 0x1_0000 * n; w < 0x1_0000_0000 && w % 0x1_0000 == o && w / 0x1_0000 == n && n % 0x1_0000 == n
  {
  }

  lemma IncrementWraps(o: nat, n: nat)
    requires o < 0x1_0000 && n < 0x1_0000
    ensures (o + 0x1_0000 * n + 0x1_0000) % 0x1_0000_0000 == o + 0x1_0000 * ((n + 1) % 0x1_0000)
  {
    if n + 1 < 0x1_0000 {
      assert (n + 1) % 0x1_0000 == n + 1;
      SmallWord(o + 0x1_0000 * n + 0x1_0000, 0);
    } else {
      assert (n + 1) % 0x1_0000 == 0;
      SmallWord(o, 1);
    }
  }

  lemma SmallWord(a: nat, k: nat)
    requires a < 0x1_0000_0000
    ensures (a + k * 0x1_0000_0000) % 0x1_0000_0000 == a
  {
  }

  lemma HalvesCompared(o: nat, n: nat)
    requires o < 0x1_0000 && n < 0x1_0000
    ensures (o + 0x1_0000 * n) * 0x1_0000 % 0x1_0000_0000 == (o + 0x1_0000 * n) / 0x1_0000 * 0x1_0000 <==> o == n
  {
    Halves(o, n);
    assert (o + 0x1_0000 * n) * 0x1_0000 == o * 0x1_0000 + n * 0x1_0000_0000;
    SmallWord(o * 0x1_0000, n);
  }

  /** A number out of a window of TICKETS numbers is known by its remainder. */
  lemma WindowIsExact(base: nat, k: nat)
    requires base <= k < base + TICKETS
    ensures k % TICKETS == base % TICKETS <==> k == base
  {
  }

  // ---- The invariant ----

  predicate InCritical(pc: Pc) { pc.Holding? || pc.Releasing? }

  predicate InLine(pc: Pc) { pc.Comparing? || pc.Loading? }

  /** Ticket number `k` is held by its drawer, who is in the critical section or waits for it. */
  predicate TicketOk(s: State, k: nat)
    requires k < |s.taken|
  {
    && s.taken[k] < |s.pcs|
    && var pc := s.pcs[s.taken[k]];
       if k < |s.entered| then
         pc.Holding? || pc == Releasing(s.released % TICKETS)
       else
         && InLine(pc) && pc.ticket == k % TICKETS
         && (pc.Comparing? && OwnerOf(pc.l0) == pc.ticket ==> k == s.released)
  }

  /** Hart `h` draws no ticket twice, and is where its ticket says. */
  predicate HartOk(s: State, h: nat)
    requires h < |s.pcs|
  {
    && (InCritical(s.pcs[h]) ==> s.released < |s.entered| && |s.entered| <= |s.taken| && s.taken[s.released] == h)
    && (InLine(s.pcs[h]) ==> exists k :: |s.entered| <= k < |s.taken| && s.taken[k] == h)
    && (h in s.reserved ==> s.pcs[h] == Trying(s.word))
  }

  predicate Distinct(s: seq<nat>, from: nat) {
    forall j, k :: from <= j < k < |s| ==> s[j] != s[k]
  }

  /** The lock word is the pair of unbounded counters modulo 2^16, and the harts entered in the order in
      which they drew their tickets. */
  predicate Inv(s: State) {
    && s.word == Pack(s.released % TICKETS, |s.taken| % TICKETS)
    && s.released <= |s.entered| <= s.released + 1 && s.entered <= s.taken
    && Distinct(s.taken, s.released)
    && (forall k :: s.released <= k < |s.taken| ==> TicketOk(s, k))
    && (forall h :: 0 <= h < |s.pcs| ==> HartOk(s, h))
  }

  function Below(n: nat): (r: set<nat>)
    ensures |r| == n && forall i: nat :: i in r <==> i < n
  {
    if n == 0 then {} else Below(n - 1) + {n - 1}
  }

  function Elements(s: seq<nat>, n: nat): (r: set<nat>)
    requires n <= |s| && Distinct(s, 0)
    ensures |r| == n && forall x :: x in r <==> exists k :: 0 <= k < n && s[k] == x
  {
    if n == 0 then {} else Elements(s, n - 1) + {s[n - 1]}
  }

  lemma {:induction false} Subset<T>(a: set<T>, b: set<T>)
    requires a <= b
    ensures |a| <= |b|
  {
    if a != {} {
      var x :| x in a;
      Subset(a - {x}, b - {x});
    }
  }

  /** Distinct numbers below `n` are at most `n` many, and fewer when one is missing. */
  lemma Pigeonhole(s: seq<nat>, n: nat, missing: nat)
    requires Distinct(s, 0) && forall k :: 0 <= k < |s| ==> s[k] < n
    ensures |s| <= n
    ensures missing < n && missing !in s ==> |s| < n
  {
    var mine := Elements(s, |s|);
    Subset(mine, Below(n));
    if missing < n && missing !in s {
      Subset(mine, Below(n) - {missing});
    }
  }

  /** At most as many tickets are out as there are harts; a hart without a ticket leaves room for one more. */
  lemma LineLength(s: State, h: nat)
    requires Inv(s) && h < |s.pcs|
    ensures |s.taken| - s.released <= |s.pcs|
    ensures !InCritical(s.pcs[h]) && !InLine(s.pcs[h]) ==> |s.taken| - s.released < |s.pcs|
  {
    var line := s.taken[s.released..];
    forall k | 0 <= k < |line| ensures line[k] < |s.pcs| && (InCritical(s.pcs[line[k]]) || InLine(s.pcs[line[k]])) {
      assert TicketOk(s, s.released + k);
    }
    Pigeonhole(line, |s.pcs|, h);
  }

  // ---- Every step keeps it ----

  /** The owner half equals the ticket of a waiting hart exactly when it is that hart's turn. */
  lemma TurnIsExact(s: State, k: nat)
    requires Inv(s) && |s.pcs| <= TICKETS && |s.entered| <= k < |s.taken|
    ensures k % TICKETS == OwnerOf(s.word) <==> k == s.released
    ensures s.taken[k] < |s.pcs|
  {
    assert TicketOk(s, k);
    LineLength(s, s.taken[k]);
    WindowIsExact(s.released, k);
    PackParts(s.released % TICKETS, |s.taken| % TICKETS);
  }

  /** The ticket that hart `h` waits with. */
  lemma TicketOf(s: State, h: nat) returns (k: nat)
    requires Inv(s) && h < |s.pcs| && InLine(s.pcs[h])
    ensures |s.entered| <= k < |s.taken| && s.taken[k] == h && TicketOk(s, k)
  {
    assert HartOk(s, h);
    k :| |s.entered| <= k < |s.taken| && s.taken[k] == h;
  }

  lemma NextTicket(s: State)
    requires Inv(s)
    ensures AddTicket(s.word) == Pack(s.released % TICKETS, (|s.taken| + 1) % TICKETS)
    ensures NextOf(s.word) == |s.taken| % TICKETS && OwnerOf(s.word) == s.released % TICKETS
    ensures LooksFree(s.word) <==> s.released % TICKETS == |s.taken| % TICKETS
  {
    PackParts(s.released % TICKETS, |s.taken| % TICKETS);
    assert (|s.taken| % TICKETS + 1) % TICKETS == (|s.taken| + 1) % TICKETS;
  }

  lemma DrawStep(s: State, h: nat)
    requires Inv(s) && |s.pcs| <= TICKETS && Enabled(s, Draw(h))
    ensures Inv(Do(s, Draw(h)))
  {
    var s' := Do(s, Draw(h));
    NextTicket(s);
    LineLength(s, h);
    WindowIsExact(s.released, |s.taken|);
    DrawnDistinct(s, h);
    forall k | s.released <= k < |s'.taken| ensures TicketOk(s', k) {
      if k < |s.taken| {
        assert TicketOk(s, k);
      }
    }
    forall x | 0 <= x < |s'.pcs| ensures HartOk(s', x) {
      DrawHart(s, h, x);
    }
  }

  /** A hart outside the line holds no ticket. */
  lemma DrawnDistinct(s: State, h: nat)
    requires Inv(s) && h < |s.pcs| && !InCritical(s.pcs[h]) && !InLine(s.pcs[h])
    ensures forall k :: s.released <= k < |s.taken| ==> s.taken[k] != h
  {
    forall k | s.released <= k < |s.taken| ensures s.taken[k] != h {
      assert TicketOk(s, k);
    }
  }

  lemma DrawHart(s: State, h: nat, x: nat)
    requires Inv(s) && Enabled(s, Draw(h)) && x < |s.pcs|
    ensures HartOk(Do(s, Draw(h)), x)
  {
    var s' := Do(s, Draw(h));
    assert HartOk(s, x);
    if x == h {
      assert s'.taken[|s.taken|] == h;
    } else if InLine(s.pcs[x]) {
      var k := TicketOf(s, x);
      assert s'.taken[k] == x;
    }
  }

  /** It is the turn of hart `h`, which enters. */
  lemma EnterStep(s: State, h: nat)
    requires Inv(s) && Enabled(s, Compare(h)) && s.pcs[h].ticket == OwnerOf(s.pcs[h].l0)
    ensures |s.entered| == s.released < |s.taken| && s.taken[s.released] == h
    ensures Inv(Do(s, Compare(h)))
  {
    var s' := Do(s, Compare(h));
    var k := TicketOf(s, h);
    assert k == s.released;
    assert s'.entered == s.taken[..k + 1];
    forall j | s.released <= j < |s'.taken| ensures TicketOk(s', j) {
      assert TicketOk(s, j);
    }
    forall x | 0 <= x < |s'.pcs| ensures HartOk(s', x) {
      assert HartOk(s, x);
      if x != h && InLine(s.pcs[x]) {
        var j := TicketOf(s, x);
      }
    }
  }

  /** A hart in line that stays in line. */
  lemma WaitStep(s: State, a: Action)
    requires Inv(s) && |s.pcs| <= TICKETS && Enabled(s, a)
    requires a.Load? || (a.Compare? && s.pcs[a.hart].ticket != OwnerOf(s.pcs[a.hart].l0))
    ensures Inv(Do(s, a))
  {
    var s', h := Do(s, a), a.hart;
    var k := TicketOf(s, h);
    TurnIsExact(s, k);
    forall j | s.released <= j < |s'.taken| ensures TicketOk(s', j) {
      assert TicketOk(s, j);
    }
    forall x | 0 <= x < |s'.pcs| ensures HartOk(s', x) {
      assert HartOk(s, x);
      if x == h {
        assert s'.taken[k] == h;
      }
    }
  }

  lemma ReadStep(s: State, h: nat)
    requires Inv(s) && Enabled(s, Read(h))
    ensures Inv(Do(s, Read(h)))
  {
    var s' := Do(s, Read(h));
    PackParts(s.released % TICKETS, |s.taken| % TICKETS);
    assert HartOk(s, h);
    forall j | s.released <= j < |s'.taken| ensures TicketOk(s', j) {
      assert TicketOk(s, j);
    }
    forall x | 0 <= x < |s'.pcs| ensures HartOk(s', x) {
      assert HartOk(s, x);
    }
  }

  lemma NextTurn(n: nat)
    ensures (n % 0x1_0000 + 1) % 0x1_0000 == (n + 1) % 0x1_0000
  {
  }

  lemma StoreStep(s: State, h: nat)
    requires Inv(s) && Enabled(s, Store(h))
    ensures Inv(Do(s, Store(h)))
  {
    var s' := Do(s, Store(h));
    PackParts(s.released % TICKETS, |s.taken| % TICKETS);
    assert HartOk(s, h) && TicketOk(s, s.released);
    NextTurn(s.released);
    forall j | s'.released <= j < |s'.taken| ensures TicketOk(s', j) {
      assert TicketOk(s, j);
    }
    forall x | 0 <= x < |s'.pcs| ensures HartOk(s', x) {
      assert HartOk(s, x);
    }
  }

  predicate TrySucceeds(s: State, a: Action)
    requires Enabled(s, a)
  {
    a.StoreConditional? && LooksFree(s.pcs[a.hart].word) && a.hart in s.reserved && !a.spurious
  }

  /** A `spin_trylock` step that leaves the lock alone. */
  lemma AloofStep(s: State, a: Action)
    requires Inv(s) && Enabled(s, a)
    requires a.LoadReserved? || (a.StoreConditional? && !TrySucceeds(s, a))
    ensures Inv(Do(s, a))
  {
    var s' := Do(s, a);
    forall j | s.released <= j < |s'.taken| ensures TicketOk(s', j) {
      assert TicketOk(s, j);
    }
    forall x | 0 <= x < |s'.pcs| ensures HartOk(s', x) {
      assert HartOk(s, x);
    }
  }

  lemma TryFindsFree(s: State, a: Action)
    requires Inv(s) && |s.pcs| <= TICKETS && Enabled(s, a) && TrySucceeds(s, a)
    ensures s.released == |s.entered| == |s.taken| && s.pcs[a.hart].word == s.word
  {
    assert HartOk(s, a.hart);
    NextTicket(s);
    LineLength(s, a.hart);
    WindowIsExact(s.released, |s.taken|);
  }

  /** A successful `spin_trylock` finds the lock free with nobody in line, draws a ticket and enters at once. */
  lemma TryStep(s: State, a: Action)
    requires Inv(s) && |s.pcs| <= TICKETS && Enabled(s, a) && TrySucceeds(s, a)
    ensures s.released == |s.entered| == |s.taken|
    ensures Inv(Do(s, a)) && Do(s, a).entered == Do(s, a).taken == s.taken + [a.hart]
  {
    var s', h := Do(s, a), a.hart;
    TryFindsFree(s, a);
    NextTicket(s);
    assert s'.taken[s.released] == h;
    forall x | 0 <= x < |s'.pcs| ensures HartOk(s', x) {
      assert HartOk(s, x);
    }
  }

  lemma StepKeepsInv(s: State, a: Action)
    requires Inv(s) && |s.pcs| <= TICKETS && Enabled(s, a)
    ensures Inv(Do(s, a)) && |Do(s, a).pcs| == |s.pcs|
  {
    match a
    case Draw(h) => DrawStep(s, h);
    case Compare(h) => if s.pcs[h].ticket == OwnerOf(s.pcs[h].l0) { EnterStep(s, h); } else { WaitStep(s, a); }
    case Load(_) => WaitStep(s, a);
    case Read(h) => ReadStep(s, h);
    case Store(h) => StoreStep(s, h);
    case LoadReserved(_) => AloofStep(s, a);
    case StoreConditional(_, _) => if TrySucceeds(s, a) { TryStep(s, a); } else { AloofStep(s, a); }
  }

  lemma {:induction false} RunKeepsInv(states: seq<State>, actions: seq<Action>, k: nat)
    requires Run(states, actions) && k < |states| && |states[0].pcs| <= TICKETS
    ensures Inv(states[k]) && |states[k].pcs| == |states[0].pcs|
  {
    if k > 0 {
      RunKeepsInv(states, actions, k - 1);
      StepKeepsInv(states[k - 1], actions[k - 1]);
    }
  }

  // ---- The main results ----

  predicate Exclusive(s: State) {
    forall g, h :: 0 <= g < |s.pcs| && 0 <= h < |s.pcs| && InCritical(s.pcs[g]) && InCritical(s.pcs[h]) ==> g == h
  }

  lemma InvExclusive(s: State)
    requires Inv(s)
    ensures Exclusive(s)
  {
    forall g, h | 0 <= g < |s.pcs| && 0 <= h < |s.pcs| && InCritical(s.pcs[g]) && InCritical(s.pcs[h]) ensures g == h {
      assert HartOk(s, g) && HartOk(s, h);
    }
  }

  /** With at most 2^16 harts the lock refines a queue of unbounded tickets: the word is the pair of counters
      modulo 2^16, harts get the lock in the order in which they drew tickets, one at a time. */
  lemma FirstComeFirstServed(states: seq<State>, actions: seq<Action>, k: nat)
    requires Run(states, actions) && k < |states| && |states[0].pcs| <= TICKETS
    ensures var s := states[k];
            && s.word == Pack(s.released % TICKETS, |s.taken| % TICKETS)
            && s.entered <= s.taken && s.released <= |s.entered| <= s.released + 1
            && Exclusive(s)
            && (forall h :: 0 <= h < |s.pcs| ==>
              (InCritical(s.pcs[h]) <==> s.released < |s.entered| && s.entered[s.released] == h))
  {
    RunKeepsInv(states, actions, k);
    var s := states[k];
    InvExclusive(s);
    forall h | 0 <= h < |s.pcs|
      ensures InCritical(s.pcs[h]) <==> s.released < |s.entered| && s.entered[s.released] == h
    {
      assert HartOk(s, h);
      if s.released < |s.entered| {
        assert TicketOk(s, s.released);
      }
    }
  }

  /** Nobody holds the lock and nobody waits for it. */
  predicate Free(s: State) {
    forall h :: 0 <= h < |s.pcs| ==> !InCritical(s.pcs[h]) && !InLine(s.pcs[h])
  }

  lemma FreeIsEmpty(s: State)
    requires Inv(s)
    ensures Free(s) <==> s.released == |s.taken|
  {
    if s.released < |s.taken| {
      assert TicketOk(s, s.released);
    }
    forall h | 0 <= h < |s.pcs| && s.released == |s.taken| ensures !InCritical(s.pcs[h]) && !InLine(s.pcs[h]) {
      assert HartOk(s, h);
    }
  }

  /** `spin_trylock` gives up exactly when, at its LR, somebody held the lock or waited for it; it succeeds only
      while nobody does, and then holds the lock at once. Its result register is zero only after a successful
      SC, since a word that looks taken is not zero. */
  lemma TrylockExact(states: seq<State>, actions: seq<Action>, k: nat)
    requires Run(states, actions) && k < |actions| && |states[0].pcs| <= TICKETS
    ensures actions[k].LoadReserved? ==> (LooksFree(states[k].word) <==> Free(states[k]))
    ensures TrySucceeds(states[k], actions[k]) ==>
              Free(states[k]) && states[k + 1].pcs[actions[k].hart].Holding?
              && states[k + 1].entered == states[k + 1].taken == states[k].taken + [actions[k].hart]
    ensures LooksFree(0)
  {
    var s, a := states[k], actions[k];
    assert Enabled(s, a);
    RunKeepsInv(states, actions, k);
    FreeIsEmpty(s);
    if a.LoadReserved? {
      NextTicket(s);
      LineLength(s, a.hart);
      WindowIsExact(s.released, |s.taken|);
    } else if TrySucceeds(s, a) {
      TryStep(s, a);
    }
  }

  /** No hart waits in vain: when the lock is free and somebody waits, the first in line gets it by its own
      next steps, a stale comparison, a load and a comparison at most. */
  lemma FirstInLineEnters(s: State) returns (s': State)
    requires Inv(s) && |s.pcs| <= TICKETS && |s.entered| == s.released < |s.taken|
    ensures var h := s.taken[s.released];
            && h < |s.pcs|
            && (Enabled(s, Compare(h)) || Enabled(s, Load(h)))
            && (var s1 := if Enabled(s, Compare(h)) then Do(s, Compare(h)) else s;
                if s1.entered != s.entered then s' == s1
                else Enabled(s1, Load(h)) && Enabled(Do(s1, Load(h)), Compare(h)) && s' == Do(Do(s1, Load(h)), Compare(h)))
            && s'.entered == s.entered + [h] && s'.pcs[h].Holding?
  {
    var h := s.taken[s.released];
    assert TicketOk(s, s.released);
    TurnIsExact(s, s.released);
    var s1 := if s.pcs[h].Comparing? then Do(s, Compare(h)) else s;
    s' := if s1.entered != s.entered then s1 else Do(Do(s1, Load(h)), Compare(h));
  }

  // ---- One hart too many ----

  lemma ExtendRun(states: seq<State>, actions: seq<Action>, a: Action)
    requires Run(states, actions) && Enabled(states[|actions|], a)
    ensures Run(states + [Do(states[|actions|], a)], actions + [a])
  {
  }

  /** The first `k` harts have drawn tickets and done nothing else. */
  predicate Drawn(s: State, k: nat) {
    && s.word == Pack(0, k % TICKETS) && k <= |s.pcs|
    && (forall h :: 0 <= h < k ==> s.pcs[h] == Comparing(h % TICKETS, Pack(0, h % TICKETS)))
    && (forall h :: k <= h < |s.pcs| ==> s.pcs[h] == Out)
  }

  lemma OneMoreDraws(s: State, k: nat)
    requires Drawn(s, k) && k < |s.pcs|
    ensures Drawn(Do(s, Draw(k)), k + 1)
  {
    PackParts(0, k % TICKETS);
    CountWraps(k);
    hide Pack;
  }

  lemma CountWraps(k: nat)
    ensures (k % TICKETS + 1) % TICKETS == (k + 1) % TICKETS
  {
  }

  /** The run in which the first `k` of `n` harts each draw a ticket. */
  lemma {:induction false} AllDraw(n: nat, k: nat) returns (states: seq<State>, actions: seq<Action>)
    requires k <= n
    ensures Run(states, actions) && |actions| == k && |states[0].pcs| == n == |states[k].pcs| && Drawn(states[k], k)
  {
    if k == 0 {
      states, actions := [State(0, {}, seq(n, _ => Out), [], [], 0)], [];
    } else {
      states, actions := AllDraw(n, k - 1);
      OneMoreDraws(states[k - 1], k - 1);
      ExtendRun(states, actions, Draw(k - 1));
      states, actions := states + [Do(states[k - 1], Draw(k - 1))], actions + [Draw(k - 1)];
    }
  }

  /** With more than 2^16 harts, two can hold the lock. */
  lemma TooManyHarts(n: nat) returns (states: seq<State>, actions: seq<Action>)
    requires n > TICKETS
    ensures Run(states, actions) && |states[0].pcs| == n && !Exclusive(states[|actions|])
  {
    states, actions := AllDraw(n, TICKETS + 1);
    var s := states[TICKETS + 1];
    assert s.pcs[0] == s.pcs[TICKETS] == Comparing(0, 0);
    ExtendRun(states, actions, Compare(0));
    states, actions := states + [Do(s, Compare(0))], actions + [Compare(0)];
    var s1 := Do(s, Compare(0));
    ExtendRun(states, actions, Compare(TICKETS));
    states, actions := states + [Do(s1, Compare(TICKETS))], actions + [Compare(TICKETS)];
    var s2 := Do(s1, Compare(TICKETS));
    assert s2.pcs[0].Holding? && s2.pcs[TICKETS].Holding?;
  }

  ghost predicate SafeFor(n: nat) {
    forall states: seq<State>, actions: seq<Action> :: Run(states, actions) && |states[0].pcs| == n ==> Exclusive(states[|actions|])
  }

  /** The lock excludes in every run exactly when at most 2^16 harts use it. */
  lemma SafeExactlyWhen(n: nat)
    ensures SafeFor(n) <==> n <= TICKETS
  {
    if n <= TICKETS {
      forall states: seq<State>, actions: seq<Action> | Run(states, actions) && |states[0].pcs| == n ensures Exclusive(states[|actions|]) {
        RunKeepsInv(states, actions, |actions|);
        InvExclusive(states[|actions|]);
      }
    } else {
      var states, actions := TooManyHarts(n);
    }
  }
}
