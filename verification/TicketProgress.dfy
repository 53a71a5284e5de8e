/**
 Progress of the ticket lock of lib/sbi/riscv_locks.c: who waits is served once the harts in front of it have made
 boundedly many steps of their own, `spin_trylock` decides by what it found, and the histories of the model are what
 the runs show.
 */
module TicketProgress {
  import opened TicketLock

  // ---- The histories are those of the run ----

  /** The action takes a ticket for its hart. */
  predicate TakesTicket(s: State, a: Action, s': State) {
    a.Draw? || (a.StoreConditional? && a.hart < |s'.pcs| && s'.pcs[a.hart].Holding?)
  }

  predicate Inside(s: State, h: nat) { h < |s.pcs| && InCritical(s.pcs[h]) }

  /** The harts that took a ticket in the first `k` actions, in this order. */
  function Takers(states: seq<State>, actions: seq<Action>, k: nat): seq<nat>
    requires k <= |actions| < |states|
  {
    if k == 0 then []
    else Takers(states, actions, k - 1) + if TakesTicket(states[k - 1], actions[k - 1], states[k]) then [actions[k - 1].hart] else []
  }

  /** The harts that came into the critical section. */
  function Entrants(states: seq<State>, actions: seq<Action>, k: nat): seq<nat>
    requires k <= |actions| < |states|
  {
    if k == 0 then []
    else
      var h := actions[k - 1].hart;
      Entrants(states, actions, k - 1) + if !Inside(states[k - 1], h) && Inside(states[k], h) then [h] else []
  }

  /** How many left it. */
  function Leavings(states: seq<State>, actions: seq<Action>, k: nat): nat
    requires k <= |actions| < |states|
  {
    if k == 0 then 0
    else
      var h := actions[k - 1].hart;
      Leavings(states, actions, k - 1) + if Inside(states[k - 1], h) && !Inside(states[k], h) then 1 else 0
  }

  /** A step moves one hart. */
  lemma OneMoves(s: State, a: Action, g: nat)
    requires Enabled(s, a)
    ensures |Do(s, a).pcs| == |s.pcs|
    ensures g < |s.pcs| && g != a.hart ==> Do(s, a).pcs[g] == s.pcs[g]
  {
  }

  /** The tickets, the entries and the releases that the results on the lock speak of are those of the run. */
  lemma {:induction false} HistoriesAreRuns(states: seq<State>, actions: seq<Action>, k: nat)
    requires Run(states, actions) && k < |states|
    ensures states[k].taken == Takers(states, actions, k)
    ensures states[k].entered == Entrants(states, actions, k)
    ensures states[k].released == Leavings(states, actions, k)
  {
    if k > 0 {
      HistoriesAreRuns(states, actions, k - 1);
      assert Enabled(states[k - 1], actions[k - 1]);
    }
  }

  /** Who draws a ticket gets in line behind all others. */
  lemma DrawWaits(s: State, h: nat)
    requires Enabled(s, Draw(h))
    ensures var s' := Do(s, Draw(h)); s'.taken == s.taken + [h] && h < |s'.pcs| && InLine(s'.pcs[h]) && s'.released == s.released
  {
  }

  /** A hart outside may ask for the lock in either way, one that has failed to get it by `spin_trylock` tries again. */
  lemma AnybodyMayAsk(s: State, h: nat)
    requires h < |s.pcs|
    ensures s.pcs[h] == Out ==> Enabled(s, Draw(h)) && Enabled(s, LoadReserved(h))
    ensures s.pcs[h] == Retrying ==> Enabled(s, LoadReserved(h))
    ensures s.pcs[h].Trying? ==> Enabled(s, StoreConditional(h, false))
  {
  }

  // ---- The first in line ----

  predicate Busy(s: State) { s.released < |s.taken| }

  /** The hart that holds the lock, or is to get it next. */
  function Head(s: State): nat
    requires Busy(s)
  {
    s.taken[s.released]
  }

  /** How many of its own steps it needs at most until it has released the lock. */
  function HeadDistance(s: State): nat {
    if !Busy(s) || Head(s) >= |s.pcs| then 5
    else match s.pcs[Head(s)]
      case Releasing(_) => 1
      case Holding => 2
      case Comparing(t, l0) => if t == OwnerOf(l0) then 3 else 5
      case Loading(_) => 4
      case _ => 5
  }

  predicate HeadMoves(s: State, a: Action) { Busy(s) && a.hart == Head(s) }

  /** The head of the line always has a step. */
  lemma HeadCanMove(s: State) returns (a: Action)
    requires Inv(s) && Busy(s)
    ensures HeadMoves(s, a) && Enabled(s, a)
  {
    var h := Head(s);
    assert TicketOk(s, s.released);
    a := match s.pcs[h]
         case Comparing(_, _) => Compare(h)
         case Loading(_) => Load(h)
         case Holding => Read(h)
         case _ => Store(h);
  }

  function Height(s: State): int { 5 * s.released - HeadDistance(s) }

  /** Its steps raise the height, and no other step lowers it. */
  lemma StepLifts(s: State, a: Action)
    requires Inv(s) && |s.pcs| <= TICKETS && Enabled(s, a)
    ensures Height(Do(s, a)) >= Height(s) + if HeadMoves(s, a) then 1 else 0
  {
    if Busy(s) {
      assert TicketOk(s, s.released);
      if HeadMoves(s, a) {
        HeadLifts(s, a);
      } else {
        OtherKeeps(s, a);
      }
    } else {
      EmptyLifts(s, a);
    }
  }

  lemma HeadLifts(s: State, a: Action)
    requires Inv(s) && |s.pcs| <= TICKETS && Enabled(s, a) && HeadMoves(s, a)
    ensures Height(Do(s, a)) >= Height(s) + 1
  {
    assert TicketOk(s, s.released);
    if a.Load? {
      TurnIsExact(s, s.released);
    }
  }

  lemma OtherKeeps(s: State, a: Action)
    requires Inv(s) && |s.pcs| <= TICKETS && Enabled(s, a) && Busy(s) && !HeadMoves(s, a)
    ensures Height(Do(s, a)) == Height(s)
  {
    assert TicketOk(s, s.released) && HartOk(s, a.hart);
    OneMoves(s, a, Head(s));
    if a.StoreConditional? && TrySucceeds(s, a) {
      TryFindsFree(s, a);
    }
  }

  lemma EmptyLifts(s: State, a: Action)
    requires Inv(s) && |s.pcs| <= TICKETS && Enabled(s, a) && !Busy(s)
    ensures Height(Do(s, a)) >= Height(s)
  {
    assert HartOk(s, a.hart);
  }

  /** The steps of heads of the line from state `m` up to state `n`. */
  function HeadSteps(states: seq<State>, actions: seq<Action>, m: nat, n: nat): nat
    requires n <= |actions| < |states|
  {
    if n <= m then 0 else HeadSteps(states, actions, m, n - 1) + if HeadMoves(states[n - 1], actions[n - 1]) then 1 else 0
  }

  lemma {:induction false} RunLifts(states: seq<State>, actions: seq<Action>, m: nat, n: nat)
    requires Run(states, actions) && m <= n <= |actions| && |states[0].pcs| <= TICKETS
    ensures Height(states[m]) + HeadSteps(states, actions, m, n) <= Height(states[n])
  {
    hide Height, Inv;
    if m < n {
      RunLifts(states, actions, m, n - 1);
      RunKeepsInv(states, actions, n - 1);
      StepLifts(states[n - 1], actions[n - 1]);
    }
  }

  lemma {:induction false} TakenGrows(states: seq<State>, actions: seq<Action>, m: nat, n: nat)
    requires Run(states, actions) && m <= n <= |actions|
    ensures states[m].taken <= states[n].taken
  {
    if m < n {
      TakenGrows(states, actions, m, n - 1);
      assert Enabled(states[n - 1], actions[n - 1]);
    }
  }

  /** No hart waits in vain: whoever has ticket number `k` has had the lock and has given it back when the heads of the
      line have made five steps for each of the tickets up to it. */
  lemma WaiterServed(states: seq<State>, actions: seq<Action>, m: nat, n: nat, k: nat)
    requires Run(states, actions) && m <= n <= |actions| && |states[0].pcs| <= TICKETS
    requires states[m].released <= k < |states[m].taken|
    requires HeadSteps(states, actions, m, n) >= 5 * (k - states[m].released + 1)
    ensures k < states[n].released && k < |states[n].entered| && states[n].entered[k] == states[m].taken[k]
  {
    RunLifts(states, actions, m, n);
    TakenGrows(states, actions, m, n);
    RunKeepsInv(states, actions, n);
    HeightBounds(states[m]);
    HeightBounds(states[n]);
  }

  lemma HeightBounds(s: State)
    ensures 5 * s.released - 5 <= Height(s) < 5 * s.released
  {
  }

  // ---- spin_trylock ----

  /** The step writes the lock word, by which it breaks the reservations of other harts. */
  predicate Writes(s: State, a: Action, s': State) { a.Store? || TakesTicket(s, a, s') }

  ghost predicate Written(states: seq<State>, actions: seq<Action>, m: nat, n: nat)
    requires n <= |actions| < |states|
  {
    exists k :: m <= k < n && Writes(states[k], actions[k], states[k + 1])
  }

  lemma ReservedStep(s: State, a: Action, h: nat)
    requires Enabled(s, a) && a.hart != h && h < |s.pcs|
    ensures |Do(s, a).pcs| == |s.pcs| && Do(s, a).pcs[h] == s.pcs[h]
    ensures h in Do(s, a).reserved <==> h in s.reserved && !Writes(s, a, Do(s, a))
  {
  }

  /** Between its LR and its SC a hart keeps what it read, and its reservation until somebody writes. */
  lemma {:induction false} ReservedUntilWritten(states: seq<State>, actions: seq<Action>, m: nat, n: nat, h: nat)
    requires Run(states, actions) && m < n <= |actions| && actions[m] == LoadReserved(h)
    requires forall k :: m < k < n ==> actions[k].hart != h
    ensures h < |states[n].pcs| && states[n].pcs[h] == Trying(states[m].word)
    ensures h in states[n].reserved <==> !Written(states, actions, m + 1, n)
    decreases n
  {
    assert Enabled(states[n - 1], actions[n - 1]);
    if m + 1 < n {
      ReservedUntilWritten(states, actions, m, n - 1, h);
      ReservedStep(states[n - 1], actions[n - 1], h);
      WrittenStep(states, actions, m + 1, n);
    }
  }

  lemma WrittenStep(states: seq<State>, actions: seq<Action>, m: nat, n: nat)
    requires m < n <= |actions| < |states|
    ensures Written(states, actions, m, n) <==> Written(states, actions, m, n - 1) || Writes(states[n - 1], actions[n - 1], states[n])
  {
  }

  /** `spin_trylock` gives up exactly if somebody held the lock or waited for it at its LR; otherwise its SC gets it the
      lock, unless it fails spuriously or somebody has written the word since, after which it tries again. */
  lemma TrylockDecides(states: seq<State>, actions: seq<Action>, m: nat, n: nat, h: nat, spurious: bool)
    requires Run(states, actions) && m < n < |actions| && |states[0].pcs| <= TICKETS
    requires actions[m] == LoadReserved(h) && actions[n] == StoreConditional(h, spurious)
    requires forall k :: m < k < n ==> actions[k].hart != h
    ensures h < |states[n + 1].pcs|
    ensures states[n + 1].pcs[h] ==
              if !Free(states[m]) then Out
              else if spurious || Written(states, actions, m + 1, n) then Retrying
              else Holding
  {
    hide LooksFree, Free;
    ReservedUntilWritten(states, actions, m, n, h);
    TrylockExact(states, actions, m);
    assert Enabled(states[n], actions[n]);
  }
}
