/**
 The coldboot handshake of lib/sbi/sbi_init.c over every interleaving: the lottery, the harts that wait for the
 end of the cold boot, and the one that wakes them. The lock is the ticket lock, here one atomic acquisition.
 */
module Coldboot {
  import opened Options

  datatype Pc =
    | Entering                  // `sbi_init` before the lottery
    | Marking                   // `wait_for_coldboot` before its first `spin_lock`
    | Marked                    // inside that lock, before `sbi_hartmask_set_hart`
    | Unlocking                 // before `spin_unlock`
    | Testing                   // before the load of `coldboot_done`
    | Sleeping                  // in the WFI loop
    | Unmarking                 // before the second `spin_lock`
    | Clearing                  // inside it, before `sbi_hartmask_clear_hart`
    | Leaving                   // before the last `spin_unlock`
    | Warm                      // past `wait_for_coldboot`
    | Booting                   // `init_coldboot`, up to the store of `coldboot_done`
    | Waking                    // `wake_coldboot_harts` before its `spin_lock`
    | Scanning(next: nat)       // its loop, at hart `next`
    | Booted                    // past `wake_coldboot_harts`

  /** `winner` is the hart that drew 0 from `coldboot_lottery`, `owner` the one inside `coldboot_lock`; `mask` is
      `coldboot_wait_hmask`, `done` is `coldboot_done`; `msip` are the harts with a pending IPI; `eligible` are the
      harts whose next mode is supported. */
  datatype State = State(winner: Option<nat>, done: bool, owner: Option<nat>, mask: set<nat>, msip: set<nat>, eligible: set<nat>, pcs: seq<Pc>)

  /** A hart's next step, or an IPI for `hart` from elsewhere: the winner starts the boot harts of domains before it
      stores `coldboot_done`, and harts that are through may send what they like. */
  datatype Action = Step(hart: nat) | Send(hart: nat)

  predicate Enabled(s: State, h: nat) {
    && h < |s.pcs|
    && match s.pcs[h]
       case Marking => s.owner.None?
       case Unmarking => s.owner.None?
       case Waking => s.owner.None?
       case Sleeping => h in s.msip
       case Warm => false
       case Booted => false
       case _ => true
  }

  function At(s: State, h: nat, pc: Pc): State
    requires h < |s.pcs|
  {
    s.(pcs := s.pcs[h := pc])
  }

  /** The next step of hart `h`. */
  function Do(s: State, h: nat): State
    requires Enabled(s, h)
  {
    match s.pcs[h]
    case Entering => if h in s.eligible && s.winner.None? then At(s.(winner := Some(h)), h, Booting) else At(s, h, Marking)
    case Marking => At(s.(owner := Some(h)), h, Marked)
    case Marked => At(s.(mask := s.mask + {h}), h, Unlocking)
    case Unlocking => At(s.(owner := None), h, Testing)
    case Testing => At(s, h, if s.done then Unmarking else Sleeping)
    case Sleeping => At(s, h, Testing)
    case Unmarking => At(s.(owner := Some(h)), h, Clearing)
    case Clearing => At(s.(mask := s.mask - {h}), h, Leaving)
    case Leaving => At(s.(owner := None), h, Warm)
    case Booting => At(s.(done := true), h, Waking)
    case Waking => At(s.(owner := Some(h)), h, Scanning(0))
    case Scanning(i) =>
      if i < |s.pcs| then At(if i != h && i in s.mask then s.(msip := s.msip + {i}) else s, h, Scanning(i + 1))
      else At(s.(owner := None), h, Booted)
    case Warm => s
    case Booted => s
  }

  predicate Possible(s: State, a: Action) {
    a.hart < |s.pcs| && (a.Step? ==> Enabled(s, a.hart))
  }

  function Act(s: State, a: Action): State
    requires Possible(s, a)
  {
    match a
    case Step(h) => Do(s, h)
    case Send(h) => s.(msip := s.msip + {h})
  }

  /** IPIs may be pending from before. */
  predicate Initial(s: State) {
    && s == State(None, false, None, {}, s.msip, s.eligible, s.pcs)
    && forall h :: 0 <= h < |s.pcs| ==> s.pcs[h] == Entering
  }

  predicate Run(states: seq<State>, actions: seq<Action>) {
    && |states| == |actions| + 1 && Initial(states[0])
    && forall k :: 0 <= k < |actions| ==> Possible(states[k], actions[k]) && states[k + 1] == Act(states[k], actions[k])
  }

  // ---- The invariant ----

  predicate IsCold(pc: Pc) { pc.Booting? || pc.Waking? || pc.Scanning? || pc.Booted? }

  predicate HoldsLock(pc: Pc) { pc.Marked? || pc.Unlocking? || pc.Clearing? || pc.Leaving? || pc.Scanning? }

  /** The hart has marked itself and not yet unmarked. */
  predicate InMask(pc: Pc) { pc.Unlocking? || pc.Testing? || pc.Sleeping? || pc.Unmarking? || pc.Clearing? }

  /** The winner has stored `coldboot_done`. */
  predicate PastStore(pc: Pc) { pc.Waking? || pc.Scanning? || pc.Booted? }

  /** The winner will still come to hart `h` with its IPIs. */
  predicate Ahead(pc: Pc, h: nat) { pc.Booting? || pc.Waking? || (pc.Scanning? && pc.next <= h) }

  predicate HartInv(s: State, h: nat)
    requires h < |s.pcs|
  {
    var pc := s.pcs[h];
    && (IsCold(pc) <==> s.winner == Some(h)) && (IsCold(pc) ==> h in s.eligible)
    && (HoldsLock(pc) <==> s.owner == Some(h))
    && (h in s.mask <==> InMask(pc))
    && (IsCold(pc) ==> (PastStore(pc) <==> s.done))
    && (pc.Unmarking? || pc.Clearing? || pc.Leaving? || pc.Warm? ==> s.done)
    && (pc.Scanning? ==> pc.next <= |s.pcs|)
  }

  /** A sleeping hart has its IPI pending, or the hart that won the lottery is still to come to it, or the lottery
      is not yet drawn. */
  predicate SleeperCovered(s: State, h: nat)
    requires h < |s.pcs|
  {
    s.pcs[h].Sleeping? ==>
      h in s.msip || (match s.winner case Some(w) => w < |s.pcs| && Ahead(s.pcs[w], h) case None => true)
  }

  /** Until the lottery is drawn, every eligible hart has still to enter it. */
  predicate Drawable(s: State, h: nat)
    requires h < |s.pcs|
  {
    s.winner.None? && h in s.eligible ==> s.pcs[h].Entering?
  }

  predicate Inv(s: State) {
    && (s.winner.Some? ==> s.winner.value < |s.pcs|) && (s.owner.Some? ==> s.owner.value < |s.pcs|)
    && (s.done ==> s.winner.Some?)
    && forall h :: 0 <= h < |s.pcs| ==> HartInv(s, h) && SleeperCovered(s, h) && Drawable(s, h)
  }

  lemma StepKeepsHart(s: State, h: nat, g: nat)
    requires Inv(s) && Enabled(s, h) && g < |s.pcs|
    ensures HartInv(Do(s, h), g)
  {
    if g == h {
      StepKeepsOwn(s, h);
    } else {
      StepKeepsOther(s, h, g);
    }
  }

  lemma StepKeepsOwn(s: State, h: nat)
    requires Inv(s) && Enabled(s, h)
    ensures HartInv(Do(s, h), h)
  {
    assert HartInv(s, h);
  }

  lemma StepKeepsOther(s: State, h: nat, g: nat)
    requires Inv(s) && Enabled(s, h) && g < |s.pcs| && g != h
    ensures HartInv(Do(s, h), g)
  {
    assert HartInv(s, h) && HartInv(s, g);
  }

  lemma StepKeepsCover(s: State, h: nat, g: nat)
    requires Inv(s) && Enabled(s, h) && g < |s.pcs|
    ensures SleeperCovered(Do(s, h), g) && Drawable(Do(s, h), g)
  {
    assert HartInv(s, h) && HartInv(s, g) && SleeperCovered(s, g) && Drawable(s, g);
    if s.winner.Some? {
      assert HartInv(s, s.winner.value);
    }
  }

  lemma StepKeepsInv(s: State, h: nat)
    requires Inv(s) && Enabled(s, h)
    ensures Inv(Do(s, h)) && |Do(s, h).pcs| == |s.pcs|
  {
    var s' := Do(s, h);
    assert HartInv(s, h);
    forall g | 0 <= g < |s.pcs| ensures HartInv(s', g) && SleeperCovered(s', g) && Drawable(s', g) {
      StepKeepsHart(s, h, g);
      StepKeepsCover(s, h, g);
    }
  }

  lemma SendKeepsInv(s: State, h: nat)
    requires Inv(s) && Possible(s, Send(h))
    ensures Inv(Act(s, Send(h)))
  {
    var s' := Act(s, Send(h));
    forall g | 0 <= g < |s.pcs| ensures HartInv(s', g) && SleeperCovered(s', g) && Drawable(s', g) {
      assert HartInv(s, g) && SleeperCovered(s, g) && Drawable(s, g);
    }
  }

  lemma ActKeepsInv(s: State, a: Action)
    requires Inv(s) && Possible(s, a)
    ensures Inv(Act(s, a)) && |Act(s, a).pcs| == |s.pcs| && Act(s, a).eligible == s.eligible
  {
    match a
    case Step(h) => StepKeepsInv(s, h);
    case Send(h) => SendKeepsInv(s, h);
  }

  lemma {:induction false} RunKeepsInv(states: seq<State>, actions: seq<Action>, k: nat)
    requires Run(states, actions) && k < |states|
    ensures Inv(states[k]) && |states[k].pcs| == |states[0].pcs| && states[k].eligible == states[0].eligible
  {
    if k > 0 {
      RunKeepsInv(states, actions, k - 1);
      ActKeepsInv(states[k - 1], actions[k - 1]);
    }
  }

  // ---- The main results ----

  /** At most one hart boots cold; and a hart that read `coldboot_done` as 0 and sleeps has its IPI pending, or
      the hart that will send it is still to come. */
  lemma OneWinnerCoversSleepers(states: seq<State>, actions: seq<Action>, k: nat)
    requires Run(states, actions) && k < |states|
    ensures var s := states[k];
            && (forall g, h :: 0 <= g < |s.pcs| && 0 <= h < |s.pcs| && IsCold(s.pcs[g]) && IsCold(s.pcs[h]) ==> g == h)
            && (forall h :: 0 <= h < |s.pcs| && s.pcs[h].Sleeping? && h !in s.msip ==>
              (exists w :: 0 <= w < |s.pcs| && Ahead(s.pcs[w], h))
              || (s.winner.None? && forall w :: 0 <= w < |s.pcs| && w in s.eligible ==> s.pcs[w].Entering?))
  {
    var s := states[k];
    RunKeepsInv(states, actions, k);
    forall g, h | 0 <= g < |s.pcs| && 0 <= h < |s.pcs| && IsCold(s.pcs[g]) && IsCold(s.pcs[h]) ensures g == h {
      assert HartInv(s, g) && HartInv(s, h);
    }
    forall h | 0 <= h < |s.pcs| && s.pcs[h].Sleeping? && h !in s.msip
      ensures (exists w :: 0 <= w < |s.pcs| && Ahead(s.pcs[w], h))
              || (s.winner.None? && forall w :: 0 <= w < |s.pcs| && w in s.eligible ==> s.pcs[w].Entering?)
    {
      assert SleeperCovered(s, h);
      if s.winner.None? {
        forall w | 0 <= w < |s.pcs| && w in s.eligible ensures s.pcs[w].Entering? {
          assert Drawable(s, w);
        }
      }
    }
  }

  // ---- Whom the winner wakes ----

  /** The harts below `n` that have marked themselves, but for `w`. */
  function MarkedBelow(mask: set<nat>, w: nat, n: nat): set<nat> {
    set h | h in mask && h < n && h != w
  }

  lemma SweepStep(s: State, a: Action, w: nat)
    requires Inv(s) && Possible(s, a) && a.Step? && w < |s.pcs| && s.pcs[w].Scanning?
    ensures w < |Act(s, a).pcs| && Act(s, a).mask == s.mask
    ensures a.hart != w ==> Act(s, a).msip == s.msip && Act(s, a).pcs[w] == s.pcs[w]
    ensures a.hart == w && Act(s, a).pcs[w].Scanning? ==>
              Act(s, a).pcs[w].next == s.pcs[w].next + 1
              && Act(s, a).msip == s.msip + if s.pcs[w].next in s.mask && s.pcs[w].next != w then {s.pcs[w].next} else {}
    ensures a.hart == w && !Act(s, a).pcs[w].Scanning? ==> s.pcs[w].next >= |s.pcs| && Act(s, a).msip == s.msip
  {
    assert HartInv(s, w) && HartInv(s, a.hart);
  }

  /** While it holds the lock nobody marks or unmarks itself, and it sends an IPI to exactly the harts that are marked. */
  lemma {:induction false} SweepSignals(states: seq<State>, actions: seq<Action>, m: nat, n: nat, w: nat)
    requires Run(states, actions) && m <= n <= |actions| && w < |states[0].pcs|
    requires forall k :: m <= k < n ==> actions[k].Step?
    requires forall k :: m <= k <= n ==> w < |states[k].pcs| && states[k].pcs[w].Scanning?
    requires states[m].pcs[w].next == 0
    ensures states[n].mask == states[m].mask
    ensures states[n].msip == states[m].msip + MarkedBelow(states[m].mask, w, states[n].pcs[w].next)
    ensures n < |actions| && actions[n] == Step(w) && |states[n + 1].pcs| == |states[n].pcs| && !states[n + 1].pcs[w].Scanning? ==>
              states[n].pcs[w].next >= |states[n].pcs|
    decreases n
  {
    hide Inv, Possible, Act;
    if m < n {
      SweepSignals(states, actions, m, n - 1, w);
      RunKeepsInv(states, actions, n - 1);
      RunStep(states, actions, n - 1);
      SweepStep(states[n - 1], actions[n - 1], w);
    }
    if n < |actions| && actions[n] == Step(w) {
      RunKeepsInv(states, actions, n);
      RunStep(states, actions, n);
      SweepStep(states[n], actions[n], w);
    }
  }

  lemma RunStep(states: seq<State>, actions: seq<Action>, k: nat)
    requires Run(states, actions) && k < |actions|
    ensures Possible(states[k], actions[k]) && states[k + 1] == Act(states[k], actions[k])
  {
  }

  // ---- Progress ----

  /** A turn of the waiting loop while `coldboot_done` is 0: a test that fails, or the return from WFI that an IPI
      brings about. An IPI that is pending makes these turns endless. */
  predicate Turn(s: State, a: Action) {
    a.Step? && a.hart < |s.pcs| && !s.done && (s.pcs[a.hart].Testing? || s.pcs[a.hart].Sleeping?)
  }

  predicate Useful(s: State, a: Action) { a.Step? && !Turn(s, a) }

  /** How many useful steps a hart has left at most, among `n` harts. */
  function Left(pc: Pc, done: bool, n: nat): nat {
    match pc
    case Entering => n + 20
    case Marking => 9
    case Marked => 8
    case Unlocking => 7
    case Testing => if done then 4 else 5
    case Sleeping => 5
    case Unmarking => 3
    case Clearing => 2
    case Leaving => 1
    case Warm => 0
    case Booting => n + 5
    case Waking => n + 4
    case Scanning(i) => if i <= n then n - i + 1 else 0
    case Booted => 0
  }

  function Total(pcs: seq<Pc>, done: bool, k: nat): nat
    requires k <= |pcs|
  {
    if k == 0 then 0 else Total(pcs, done, k - 1) + Left(pcs[k - 1], done, |pcs|)
  }

  /** The useful steps that are left at most. */
  function Outstanding(s: State): nat { Total(s.pcs, s.done, |s.pcs|) }

  lemma {:induction false} TotalStep(pcs: seq<Pc>, qs: seq<Pc>, done: bool, done': bool, h: nat, k: nat)
    requires |qs| == |pcs| && h < |pcs| && k <= |pcs| && (done ==> done')
    requires forall g :: 0 <= g < |pcs| && g != h ==> qs[g] == pcs[g]
    requires Left(qs[h], done', |qs|) < Left(pcs[h], done, |pcs|)
    ensures if h < k then Total(qs, done', k) < Total(pcs, done, k) else Total(qs, done', k) <= Total(pcs, done, k)
  {
    if k > 0 {
      TotalStep(pcs, qs, done, done', h, k - 1);
    }
  }

  lemma {:induction false} TotalTurn(pcs: seq<Pc>, qs: seq<Pc>, done: bool, k: nat)
    requires |qs| == |pcs| && k <= |pcs|
    requires forall g :: 0 <= g < |pcs| ==> Left(qs[g], done, |qs|) == Left(pcs[g], done, |pcs|)
    ensures Total(qs, done, k) == Total(pcs, done, k)
  {
    if k > 0 {
      TotalTurn(pcs, qs, done, k - 1);
    }
  }

  /** Every useful step uses up one of finitely many; turns of the waiting loop and IPIs use up none. */
  lemma StepLowers(s: State, a: Action)
    requires Inv(s) && Possible(s, a)
    ensures if Useful(s, a) then Outstanding(Act(s, a)) < Outstanding(s) else Outstanding(Act(s, a)) == Outstanding(s)
  {
    var s' := Act(s, a);
    if Useful(s, a) {
      assert HartInv(s, a.hart);
      TotalStep(s.pcs, s'.pcs, s.done, s'.done, a.hart, |s.pcs|);
    } else {
      TotalTurn(s.pcs, s'.pcs, s.done, |s.pcs|);
    }
  }

  /** All harts are past the handshake. */
  predicate AllThrough(s: State) {
    forall h :: 0 <= h < |s.pcs| ==> s.pcs[h].Warm? || s.pcs[h].Booted?
  }

  predicate SomeEligible(s: State) {
    exists e :: 0 <= e < |s.pcs| && e in s.eligible
  }

  predicate Ready(s: State, h: nat) {
    Possible(s, Step(h)) && Useful(s, Step(h))
  }

  /** Until all harts are through, one of them has a useful step. */
  lemma SomebodyReady(s: State) returns (h: nat)
    requires Inv(s) && SomeEligible(s) && !AllThrough(s)
    ensures Ready(s, h)
  {
    var g :| 0 <= g < |s.pcs| && !s.pcs[g].Warm? && !s.pcs[g].Booted?;
    var e :| 0 <= e < |s.pcs| && e in s.eligible;
    assert HartInv(s, g) && SleeperCovered(s, g) && Drawable(s, e);
    if s.winner.None? {
      return e;
    }
    var w := s.winner.value;
    assert HartInv(s, w);
    if s.owner.Some? {
      assert HartInv(s, s.owner.value);
      return s.owner.value;
    }
    h := if s.pcs[w].Booted? then g else w;
  }

  /** So they are, when no hart can take a step. */
  lemma StuckIsDone(s: State)
    requires Inv(s) && SomeEligible(s) && forall h :: !Enabled(s, h)
    ensures AllThrough(s)
  {
    if !AllThrough(s) {
      var _ := SomebodyReady(s);
    }
  }

  /** Other harts' turns of the waiting loop and IPIs do not take it away. */
  lemma ReadyStays(s: State, a: Action, h: nat)
    requires Inv(s) && Ready(s, h) && Possible(s, a) && !Useful(s, a)
    ensures Ready(Act(s, a), h)
  {
  }

  /** Between the two states every hart takes a step or is found waiting, for the lock or for an IPI. */
  predicate Round(states: seq<State>, actions: seq<Action>, from: nat, to: nat) {
    && from <= to <= |actions| < |states|
    && forall h :: 0 <= h < |states[from].pcs| ==> HasTurn(states, actions, from, to, h)
  }

  predicate HasTurn(states: seq<State>, actions: seq<Action>, from: nat, to: nat, h: nat)
    requires from <= to <= |actions| < |states|
  {
    exists k :: from <= k < to && TurnOf(states[k], actions[k], h)
  }

  predicate TurnOf(s: State, a: Action, h: nat) { a == Step(h) || !Enabled(s, h) }

  /** Without a useful step, whoever was ready stays so. */
  lemma {:induction false} ReadyThroughout(states: seq<State>, actions: seq<Action>, from: nat, to: nat, h: nat)
    requires Run(states, actions) && from <= to <= |actions| && Ready(states[from], h)
    requires forall k :: from <= k < to ==> !Useful(states[k], actions[k])
    ensures Ready(states[to], h)
  {
    if from < to {
      ReadyThroughout(states, actions, from, to - 1, h);
      RunKeepsInv(states, actions, to - 1);
      ReadyStays(states[to - 1], actions[to - 1], h);
    }
  }

  /** Nothing that happens raises what is outstanding, and a useful step between lowers it. */
  lemma {:induction false} RunLowers(states: seq<State>, actions: seq<Action>, from: nat, to: nat)
    requires Run(states, actions) && from <= to <= |actions|
    ensures Outstanding(states[to]) <= Outstanding(states[from])
    ensures (exists k :: from <= k < to && Useful(states[k], actions[k])) ==> Outstanding(states[to]) < Outstanding(states[from])
  {
    if from < to {
      RunLowers(states, actions, from, to - 1);
      RunKeepsInv(states, actions, to - 1);
      StepLowers(states[to - 1], actions[to - 1]);
    }
  }

  /** A round in which every hart has its turn contains a useful step, until all harts are through. */
  lemma RoundLowers(states: seq<State>, actions: seq<Action>, from: nat, to: nat)
    requires Run(states, actions) && Round(states, actions, from, to) && SomeEligible(states[0])
    ensures AllThrough(states[from]) || Outstanding(states[to]) < Outstanding(states[from])
  {
    RunKeepsInv(states, actions, from);
    RunLowers(states, actions, from, to);
    if !AllThrough(states[from]) && forall k :: from <= k < to ==> !Useful(states[k], actions[k]) {
      var h := SomebodyReady(states[from]);
      assert HasTurn(states, actions, from, to, h);
      var k :| from <= k < to && TurnOf(states[k], actions[k], h);
      ReadyThroughout(states, actions, from, k, h);
      assert false;
    }
  }

  /** The useful steps of a run. */
  function UsefulSteps(states: seq<State>, actions: seq<Action>, k: nat): nat
    requires k <= |actions| < |states|
  {
    if k == 0 then 0 else UsefulSteps(states, actions, k - 1) + if Useful(states[k - 1], actions[k - 1]) then 1 else 0
  }

  /** They are bounded, whatever IPIs are sent. */
  lemma {:induction false} UsefulBounded(states: seq<State>, actions: seq<Action>, k: nat)
    requires Run(states, actions) && k < |states|
    ensures UsefulSteps(states, actions, k) + Outstanding(states[k]) <= |states[0].pcs| * (|states[0].pcs| + 20)
  {
    if k == 0 {
      InitialTotal(states[0].pcs, |states[0].pcs|);
    } else {
      UsefulBounded(states, actions, k - 1);
      RunKeepsInv(states, actions, k - 1);
      StepLowers(states[k - 1], actions[k - 1]);
    }
  }

  lemma {:induction false} InitialTotal(pcs: seq<Pc>, k: nat)
    requires k <= |pcs| && forall h :: 0 <= h < |pcs| ==> pcs[h] == Entering
    ensures Total(pcs, false, k) == k * (|pcs| + 20)
  {
    if k > 0 {
      InitialTotal(pcs, k - 1);
    }
  }

  /** The marks divide the run into rounds. */
  predicate Rounds(states: seq<State>, actions: seq<Action>, marks: seq<nat>) {
    && (forall i :: 0 <= i < |marks| ==> marks[i] <= |actions|)
    && forall i :: 0 < i < |marks| ==> Round(states, actions, marks[i - 1], marks[i])
  }

  lemma {:induction false} ThroughStays(states: seq<State>, actions: seq<Action>, from: nat, to: nat)
    requires Run(states, actions) && from <= to <= |actions| && AllThrough(states[from])
    ensures AllThrough(states[to])
  {
    if from < to {
      ThroughStays(states, actions, from, to - 1);
    }
  }

  lemma {:induction false} RoundsLower(states: seq<State>, actions: seq<Action>, marks: seq<nat>, i: nat)
    requires Run(states, actions) && Rounds(states, actions, marks) && SomeEligible(states[0]) && i < |marks|
    ensures AllThrough(states[marks[i]])
            || i + Outstanding(states[marks[i]]) <= |states[0].pcs| * (|states[0].pcs| + 20)
  {
    if i == 0 {
      UsefulBounded(states, actions, marks[0]);
    } else {
      RoundsLower(states, actions, marks, i - 1);
      assert Round(states, actions, marks[i - 1], marks[i]);
      RoundLowers(states, actions, marks[i - 1], marks[i]);
      if AllThrough(states[marks[i - 1]]) {
        ThroughStays(states, actions, marks[i - 1], marks[i]);
      }
    }
  }

  /** No hart waits for ever, whatever IPIs are sent and however often a waiting hart tests in vain: when some hart is
      eligible for the lottery, all harts are past the handshake after boundedly many rounds in which each has its
      turn. */
  lemma EverybodyGetsThrough(states: seq<State>, actions: seq<Action>, marks: seq<nat>)
    requires Run(states, actions) && Rounds(states, actions, marks) && SomeEligible(states[0])
    requires |marks| > |states[0].pcs| * (|states[0].pcs| + 20) + 1
    ensures AllThrough(states[marks[|marks| - 1]])
  {
    RoundsLower(states, actions, marks, |marks| - 1);
  }

  /** In every run the hart that boots cold is eligible; any other is on the side of those that wait. */
  lemma ColdIsEligible(states: seq<State>, actions: seq<Action>, k: nat, h: nat)
    requires Run(states, actions) && k < |states| && h < |states[0].pcs|
    ensures |states[k].pcs| == |states[0].pcs|
    ensures IsCold(states[k].pcs[h]) ==> h in states[0].eligible
  {
    RunKeepsInv(states, actions, k);
    assert HartInv(states[k], h);
  }

  /** In the end exactly one hart has booted cold, an eligible one, and it has set `coldboot_done`; all others went
      through the warm boot. */
  lemma OneBootsCold(states: seq<State>, actions: seq<Action>, marks: seq<nat>) returns (w: nat)
    requires Run(states, actions) && Rounds(states, actions, marks) && SomeEligible(states[0])
    requires |marks| > |states[0].pcs| * (|states[0].pcs| + 20) + 1
    ensures var s := states[marks[|marks| - 1]];
            && |s.pcs| == |states[0].pcs| && w < |s.pcs| && w in states[0].eligible && s.done
            && forall h :: 0 <= h < |s.pcs| ==> s.pcs[h] == if h == w then Booted else Warm
  {
    EverybodyGetsThrough(states, actions, marks);
    var k := marks[|marks| - 1];
    var s := states[k];
    RunKeepsInv(states, actions, k);
    var e :| 0 <= e < |states[0].pcs| && e in states[0].eligible;
    assert Drawable(s, e);
    w := s.winner.value;
    assert HartInv(s, w);
    forall h | 0 <= h < |s.pcs| ensures s.pcs[h] == if h == w then Booted else Warm {
      assert HartInv(s, h);
    }
  }

  /** Without such rounds, turns may go on for ever: with an IPI pending and `coldboot_done` still 0, two steps of a waiting
      hart lead back to the same state. */
  lemma WaitingTurns(s: State, h: nat)
    requires h < |s.pcs| && s.pcs[h].Testing? && !s.done && h in s.msip
    ensures Enabled(s, h) && Enabled(Do(s, h), h) && Do(Do(s, h), h) == s
  {
    assert s.pcs[h := Sleeping][h := Testing] == s.pcs;
  }
}
