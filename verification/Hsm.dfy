/**
 The hart state machine of lib/sbi/sbi_hsm.c with the warm-boot dispatch of lib/sbi/sbi_init.c, over every
 interleaving of the harts (the HSM extension, chapter 9 of the RISC-V SBI specification v0.3). One step is one
 compare-and-swap, one read of a state, or a change of a hart's interrupt registers.
 */
module Hsm {

  datatype HartState = Stopped | StartPending | Started | StopPending | Suspended | ResumePending

  /** Where a hart is. Hung is the endless loop of `sbi_hart_hang`. */
  datatype Pc =
    | Off                        // stopped by the platform
    | Dispatch                   // `init_warmboot` before it reads the state
    | Waiting                    // `sbi_hsm_hart_wait`
    | Startup                    // behind it, before `sbi_hsm_prepare_next_jump`
    | Running                    // outside the state machine
    | Exiting                    // `sbi_exit`, up to `sbi_hsm_exit`
    | Asleep(nonRetentive: bool) // `sbi_hsm_hart_suspend` behind its first compare-and-swap
    | Resume                     // `init_warm_resume` before `sbi_hsm_hart_resume_start`
    | Resuming                   // before `sbi_hsm_hart_resume_finish`
    | Hung

  /** MIP, with the two bits that a suspend saves. */
  datatype Mip = Mip(ssip: bool, stip: bool, others: nat)

  datatype Hart = Hart(state: HartState, pc: Pc, mie: nat, mip: Mip, savedMie: nat, savedMip: Mip)

  type State = seq<Hart>

  datatype Action =
    | Start(hart: nat, target: nat)      // `sbi_hsm_hart_start`
    | Stop(hart: nat)                    // `sbi_hsm_hart_stop`, also from a halt IPI
    | Exit(hart: nat, hotplug: bool)     // `sbi_hsm_exit`
    | PowerOn(hart: nat)                 // the platform starts the hart at its warm-boot address
    | ReadState(hart: nat)
    | Poll(hart: nat)                    // one turn of `sbi_hsm_hart_wait`
    | NextJump(hart: nat)                // `sbi_hsm_prepare_next_jump`
    | Suspend(hart: nat, nonRetentive: bool)
    | Wake(hart: nat, warm: bool)        // back from the suspend call, or through the warm-boot address
    | ResumeStart(hart: nat)
    | ResumeFinish(hart: nat)
    | SetCsrs(hart: nat, mie: nat, mip: Mip)

  predicate Enabled(s: State, a: Action) {
    && a.hart < |s|
    && var pc := s[a.hart].pc;
       match a
       case Start(_, t) => t < |s| && (pc.Running? || pc.Startup?)
       case Stop(_) => pc.Running? || pc.Exiting?
       case Exit(_, _) => pc.Exiting?
       case PowerOn(_) => pc.Off? && s[a.hart].state == StartPending
       case ReadState(_) => pc.Dispatch?
       case Poll(_) => pc.Waiting?
       case NextJump(_) => pc.Startup?
       case Suspend(_, _) => pc.Running?
       case Wake(_, warm) => pc.Asleep? && (warm ==> pc.nonRetentive)
       case ResumeStart(_) => pc.Resume?
       case ResumeFinish(_) => pc.Resuming?
       case SetCsrs(_, _, _) => !pc.Asleep?
  }

  /** `atomic_cmpxchg` on the state word, and where the hart goes on success and on failure. */
  function Cas(h: Hart, from: HartState, to: HartState, ok: Pc, failed: Pc): Hart {
    if h.state == from then h.(state := to, pc := ok) else h.(pc := failed)
  }

  /** What `sbi_hsm_hart_suspend` does up to its sleep. */
  function Suspended1(h: Hart, nonRetentive: bool): Hart {
    if h.state != Started then
      // the failure path compares with SUSPENDED before it returns
      Cas(h, Suspended, Started, Running, Hung)
    else
      var h' := h.(state := Suspended, pc := Asleep(nonRetentive));
      if nonRetentive then h'.(savedMie := h.mie, savedMip := Mip(h.mip.ssip, h.mip.stip, 0)) else h'
  }

  /** `__sbi_hsm_suspend_non_ret_restore`. */
  function Restored(h: Hart): Hart {
    h.(mie := h.savedMie, mip := h.mip.(ssip := h.savedMip.ssip, stip := h.savedMip.stip))
  }

  function Do(s: State, a: Action): State
    requires Enabled(s, a)
  {
    var i := a.hart;
    var h := s[i];
    match a
    case Start(_, t) =>
      if s[t].state == Stopped then s[t := s[t].(state := StartPending)] else s
    case Stop(_) => s[i := Cas(h, Started, StopPending, Exiting, h.pc)]
    case Exit(_, hotplug) => s[i := Cas(h, StopPending, Stopped, if hotplug then Off else Dispatch, Hung)]
    case PowerOn(_) => s[i := h.(pc := Dispatch)]
    case ReadState(_) => s[i := h.(pc := if h.state == Suspended then Resume else Waiting)]
    case Poll(_) => s[i := h.(pc := if h.state == StartPending then Startup else Waiting)]
    case NextJump(_) => s[i := Cas(h, StartPending, Started, Running, Hung)]
    case Suspend(_, nonRetentive) => s[i := Suspended1(h, nonRetentive)]
    case Wake(_, warm) => if warm then s[i := h.(pc := Dispatch)] else s[i := Cas(h, Suspended, Started, Running, Hung)]
    case ResumeStart(_) => s[i := Cas(h, Suspended, ResumePending, Resuming, Hung)]
    case ResumeFinish(_) =>
      var h' := Cas(h, ResumePending, Started, Running, Hung);
      s[i := if h'.pc.Running? then Restored(h') else h']
    case SetCsrs(_, mie, mip) => s[i := h.(mie := mie, mip := mip)]
  }

  /** `sbi_hsm_init` on the boot hart: it is START_PENDING, every other hart is STOPPED and comes from reset. */
  predicate Initial(s: State, boot: nat) {
    forall h :: 0 <= h < |s| ==>
      if h == boot then s[h].state == StartPending && s[h].pc == Startup
      else s[h].state == Stopped && (s[h].pc == Off || s[h].pc == Dispatch)
  }

  predicate Run(states: seq<State>, actions: seq<Action>, boot: nat) {
    && |states| == |actions| + 1 && Initial(states[0], boot)
    && forall k :: 0 <= k < |actions| ==> Enabled(states[k], actions[k]) && states[k + 1] == Do(states[k], actions[k])
  }

  // ---- The invariant ----

  /** The states that a hart at `pc` can be in. */
  predicate Agrees(pc: Pc, st: HartState) {
    match pc
    case Off => st == Stopped || st == StartPending
    case Dispatch => st == Stopped || st == StartPending || st == Suspended
    case Waiting => st == Stopped || st == StartPending
    case Startup => st == StartPending
    case Running => st == Started
    case Exiting => st == StopPending
    case Asleep(_) => st == Suspended
    case Resume => st == Suspended
    case Resuming => st == ResumePending
    case Hung => false
  }

  predicate HartInv(h: Hart) { Agrees(h.pc, h.state) }

  predicate Inv(s: State) {
    forall h :: 0 <= h < |s| ==> HartInv(s[h])
  }

  lemma StepKeepsInv(s: State, a: Action)
    requires Inv(s) && Enabled(s, a)
    ensures Inv(Do(s, a)) && |Do(s, a)| == |s|
  {
    assert HartInv(s[a.hart]);
    if a.Start? {
      assert HartInv(s[a.target]);
    }
  }

  lemma {:induction false} RunKeepsInv(states: seq<State>, actions: seq<Action>, boot: nat, k: nat)
    requires Run(states, actions, boot) && k < |states|
    ensures Inv(states[k]) && |states[k]| == |states[0]|
  {
    if k > 0 {
      RunKeepsInv(states, actions, boot, k - 1);
      StepKeepsInv(states[k - 1], actions[k - 1]);
    }
  }

  // ---- The main results ----

  /** The edges of the state machine that the code takes. */
  predicate Edge(from: HartState, to: HartState) {
    || (from == Stopped && to == StartPending)
    || (from == StartPending && to == Started)
    || (from == Started && (to == StopPending || to == Suspended))
    || (from == StopPending && to == Stopped)
    || (from == Suspended && (to == Started || to == ResumePending))
    || (from == ResumePending && to == Started)
  }

  /** What the step `a` may do to the state of hart `h`: move it along an edge, if at all; only the edge out of
      STOPPED is another hart's. */
  predicate OnEdge(from: HartState, to: HartState, a: Action, h: nat) {
    && (from == to || Edge(from, to))
    && (a.hart != h && from != to ==> from == Stopped && to == StartPending)
    && (a.Start? && from != to ==> h == a.target && from == Stopped)
  }

  lemma StepOnEdge(s: State, a: Action, h: nat)
    requires Inv(s) && Enabled(s, a) && h < |s|
    ensures OnEdge(s[h].state, Do(s, a)[h].state, a, h)
  {
    assert HartInv(s[h]) && HartInv(s[a.hart]);
  }

  /** In every run the states of the harts move only along the edges. */
  lemma OnlyEdges(states: seq<State>, actions: seq<Action>, boot: nat, k: nat, h: nat)
    requires Run(states, actions, boot) && k < |actions| && h < |states[0]|
    ensures |states[k]| == |states[k + 1]| == |states[0]|
    ensures OnEdge(states[k][h].state, states[k + 1][h].state, actions[k], h)
  {
    RunKeepsInv(states, actions, boot, k);
    RunKeepsInv(states, actions, boot, k + 1);
    assert Enabled(states[k], actions[k]);
    StepOnEdge(states[k], actions[k], h);
  }

  /** In every run no hart hangs: each compare-and-swap whose failure hangs finds what it expects, also when a halt
      IPI is handled while the hart is already exiting. */
  lemma NobodyHangs(states: seq<State>, actions: seq<Action>, boot: nat, k: nat, h: nat)
    requires Run(states, actions, boot) && k < |states| && h < |states[k]|
    ensures !states[k][h].pc.Hung? && Agrees(states[k][h].pc, states[k][h].state)
    ensures k < |actions| && actions[k] == Stop(h) && states[k][h].pc.Exiting? ==> states[k + 1] == states[k]
  {
    RunKeepsInv(states, actions, boot, k);
    assert HartInv(states[k][h]);
    if k < |actions| && actions[k] == Stop(h) && states[k][h].pc.Exiting? {
      assert Enabled(states[k], actions[k]);
      assert states[k + 1] == states[k][h := states[k][h]];
    }
  }

  // ---- Starts and stops ----

  /** How many of the first `k` actions of a run start hart `h` while it is STOPPED. */
  function Starts(states: seq<State>, actions: seq<Action>, k: nat, h: nat): nat
    requires k <= |actions| < |states| && forall j :: 0 <= j < |states| ==> h < |states[j]|
  {
    if k == 0 then 0
    else Starts(states, actions, k - 1, h)
         + if actions[k - 1].Start? && actions[k - 1].target == h && states[k - 1][h].state == Stopped then 1 else 0
  }

  /** How often the hart has left STOPPED by then. */
  function Exits(states: seq<State>, k: nat, h: nat): nat
    requires k < |states| && forall j :: 0 <= j < |states| ==> h < |states[j]|
  {
    if k == 0 then 0
    else Exits(states, k - 1, h) + if states[k - 1][h].state == Stopped && states[k][h].state != Stopped then 1 else 0
  }

  /** How often it has come there, its beginning there included. */
  function Arrivals(states: seq<State>, k: nat, h: nat): nat
    requires k < |states| && forall j :: 0 <= j < |states| ==> h < |states[j]|
  {
    if k == 0 then (if states[0][h].state == Stopped then 1 else 0)
    else Arrivals(states, k - 1, h) + if states[k - 1][h].state != Stopped && states[k][h].state == Stopped then 1 else 0
  }

  lemma SameHarts(states: seq<State>, actions: seq<Action>, boot: nat)
    requires Run(states, actions, boot)
    ensures forall j :: 0 <= j < |states| ==> |states[j]| == |states[0]|
  {
    forall j | 0 <= j < |states| ensures |states[j]| == |states[0]| {
      RunKeepsInv(states, actions, boot, j);
    }
  }

  /** In every run a start of a STOPPED hart, and nothing else, takes it out of STOPPED; and these starts match its
      arrivals there, less the one it is still in. */
  lemma {:induction false} StartsMatchStops(states: seq<State>, actions: seq<Action>, boot: nat, k: nat, h: nat)
    requires Run(states, actions, boot) && |states| == |actions| + 1 && k < |states| && h < |states[0]|
    ensures forall j :: 0 <= j < |states| ==> h < |states[j]|
    ensures Starts(states, actions, k, h) == Exits(states, k, h)
    ensures Starts(states, actions, k, h) + (if states[k][h].state == Stopped then 1 else 0) == Arrivals(states, k, h)
  {
    hide Do, Enabled, Inv, Run;
    SameHarts(states, actions, boot);
    if k > 0 {
      StartsMatchStops(states, actions, boot, k - 1, h);
      RunKeepsInv(states, actions, boot, k - 1);
      RunStep(states, actions, boot, k - 1);
      if states[k - 1][h].state == Stopped {
        LeavesStopped(states[k - 1], actions[k - 1], h);
      }
    }
  }

  lemma LeavesStopped(s: State, a: Action, h: nat)
    requires Inv(s) && Enabled(s, a) && h < |s| && s[h].state == Stopped
    ensures |Do(s, a)| == |s| && (Do(s, a)[h].state != Stopped <==> a.Start? && a.target == h)
  {
    assert HartInv(s[h]) && HartInv(s[a.hart]);
  }

  // ---- Progress ----

  /** The hart is on its way to another state, which `Goal` is. */
  predicate Pending(h: Hart) { h.state != Started && h.state != Stopped }

  function Goal(h: Hart): HartState { if h.state == StopPending then Stopped else Started }

  /** How many of its moves it still has to make at most. */
  function Distance(h: Hart): nat {
    if !Pending(h) then 0
    else match h.pc
      case Off => 4
      case Dispatch => 3
      case Waiting => 2
      case Startup => 1
      case Exiting => 1
      case Asleep(_) => 4
      case Resume => 2
      case Resuming => 1
      case _ => 0
  }

  /** A step of hart `t` itself, or of the platform for it, on the way to its goal. */
  predicate IsMove(a: Action, t: nat) {
    a.hart == t && (a.PowerOn? || a.ReadState? || a.Poll? || a.NextJump? || a.Exit? || a.Wake? || a.ResumeStart? || a.ResumeFinish?)
  }

  /** The hart has arrived: it runs, or it is off or back at the beginning of the warm boot. */
  predicate Settled(h: Hart, goal: HartState) {
    h.state == goal && if goal == Started then h.pc == Running else h.pc == Off || h.pc == Dispatch
  }

  /** Each move brings a hart nearer to its goal, nothing else does anything to it. */
  lemma MoveLowers(s: State, a: Action, t: nat)
    requires Inv(s) && Enabled(s, a) && t < |s| && Pending(s[t])
    ensures |Do(s, a)| == |s|
    ensures var h := Do(s, a)[t];
            if IsMove(a, t) then
              Distance(h) < Distance(s[t]) && if Pending(h) then Goal(h) == Goal(s[t]) else Settled(h, Goal(s[t]))
            else h.state == s[t].state && h.pc == s[t].pc && Distance(h) == Distance(s[t]) && Goal(h) == Goal(s[t])
  {
    assert HartInv(s[t]) && HartInv(s[a.hart]);
  }

  /** A hart on its way always has a move. */
  lemma MoveEnabled(s: State, t: nat) returns (a: Action)
    requires Inv(s) && t < |s| && Pending(s[t])
    ensures IsMove(a, t) && Enabled(s, a)
  {
    assert HartInv(s[t]);
    a := match s[t].pc
         case Off => PowerOn(t)
         case Dispatch => ReadState(t)
         case Waiting => Poll(t)
         case Startup => NextJump(t)
         case Exiting => Exit(t, false)
         case Asleep(_) => Wake(t, false)
         case Resume => ResumeStart(t)
         case _ => ResumeFinish(t);
  }

  /** A running hart can start any hart, and stop or suspend itself. */
  lemma RunningActs(s: State, i: nat, t: nat, nonRetentive: bool)
    requires Inv(s) && i < |s| && s[i].pc == Running && t < |s|
    ensures Enabled(s, Start(i, t)) && Enabled(s, Stop(i)) && Enabled(s, Suspend(i, nonRetentive))
  {
    assert HartInv(s[i]);
  }

  /** The moves of hart `t` among the actions from `m` up to `n`. */
  function Moves(actions: seq<Action>, m: nat, n: nat, t: nat): nat
    requires n <= |actions|
  {
    if n <= m then 0 else Moves(actions, m, n - 1, t) + if IsMove(actions[n - 1], t) then 1 else 0
  }

  /** In a run a hart reaches its goal with no more moves than its distance. */
  lemma {:induction false} Arrives(states: seq<State>, actions: seq<Action>, boot: nat, m: nat, n: nat, t: nat)
    requires Run(states, actions, boot) && m <= n <= |actions| && t < |states[0]|
    requires t < |states[m]| && Pending(states[m][t])
    ensures t < |states[n]|
    ensures (exists k :: m < k <= n && t < |states[k]| && Settled(states[k][t], Goal(states[m][t])))
            || (Pending(states[n][t]) && Goal(states[n][t]) == Goal(states[m][t])
                && Distance(states[n][t]) + Moves(actions, m, n, t) <= Distance(states[m][t]))
    decreases n
  {
    hide Do, Enabled, Inv, Distance, Goal, Settled;
    RunKeepsInv(states, actions, boot, n);
    if m < n {
      Arrives(states, actions, boot, m, n - 1, t);
      RunKeepsInv(states, actions, boot, n - 1);
      RunStep(states, actions, boot, n - 1);
      if Pending(states[n - 1][t]) {
        MoveLowers(states[n - 1], actions[n - 1], t);
      }
    }
  }

  lemma {:induction false} Served(states: seq<State>, actions: seq<Action>, boot: nat, m: nat, n: nat, t: nat) returns (k: nat)
    requires Run(states, actions, boot) && m <= n <= |actions| && t < |states[0]|
    requires t < |states[m]| && Pending(states[m][t]) && Distance(states[m][t]) <= Moves(actions, m, n, t)
    ensures m < k <= n && t < |states[k]| && Settled(states[k][t], Goal(states[m][t]))
  {
    Arrives(states, actions, boot, m, n, t);
    if Pending(states[n][t]) && Distance(states[n][t]) == 0 {
      RunKeepsInv(states, actions, boot, n);
      assert HartInv(states[n][t]);
    }
    k :| m < k <= n && t < |states[k]| && Settled(states[k][t], Goal(states[m][t]));
  }

  /** A STOPPED hart that is started runs after four moves of its own at most, whatever the other harts do meanwhile. */
  lemma StartServed(states: seq<State>, actions: seq<Action>, boot: nat, m: nat, n: nat, t: nat) returns (k: nat)
    requires Run(states, actions, boot) && m < n <= |actions| && t < |states[0]| && t < |states[m]|
    requires actions[m].Start? && actions[m].target == t && states[m][t].state == Stopped && Moves(actions, m + 1, n, t) >= 4
    ensures m < k <= n && t < |states[k]| && states[k][t].state == Started && states[k][t].pc == Running
  {
    RunKeepsInv(states, actions, boot, m);
    RunStep(states, actions, boot, m);
    StartBegins(states[m], actions[m], t);
    k := Served(states, actions, boot, m + 1, n, t);
  }

  lemma StartBegins(s: State, a: Action, t: nat)
    requires Inv(s) && Enabled(s, a) && t < |s| && a.Start? && a.target == t && s[t].state == Stopped
    ensures t < |Do(s, a)| && Do(s, a)[t].state == StartPending && Do(s, a)[t].pc == s[t].pc && Distance(Do(s, a)[t]) <= 4
  {
    assert HartInv(s[t]);
  }

  /** A hart that stops itself is STOPPED after its next move. */
  lemma StopServed(states: seq<State>, actions: seq<Action>, boot: nat, m: nat, n: nat, t: nat) returns (k: nat)
    requires Run(states, actions, boot) && m < n <= |actions| && t < |states[0]| && t < |states[m]|
    requires actions[m] == Stop(t) && states[m][t].pc == Running && Moves(actions, m + 1, n, t) >= 1
    ensures m < k <= n && t < |states[k]| && states[k][t].state == Stopped && (states[k][t].pc == Off || states[k][t].pc == Dispatch)
  {
    RunKeepsInv(states, actions, boot, m);
    RunStep(states, actions, boot, m);
    StopBegins(states[m], t);
    k := Served(states, actions, boot, m + 1, n, t);
  }

  lemma StopBegins(s: State, t: nat)
    requires Inv(s) && Enabled(s, Stop(t)) && s[t].pc == Running
    ensures t < |Do(s, Stop(t))| && Do(s, Stop(t))[t].state == StopPending && Distance(Do(s, Stop(t))[t]) == 1
  {
    assert HartInv(s[t]);
  }

  /** A hart that suspends runs again after four moves at most, through the warm boot or straight back. */
  lemma SuspendServed(states: seq<State>, actions: seq<Action>, boot: nat, m: nat, n: nat, t: nat, nonRetentive: bool) returns (k: nat)
    requires Run(states, actions, boot) && m < n <= |actions| && t < |states[0]|
    requires actions[m] == Suspend(t, nonRetentive) && Moves(actions, m + 1, n, t) >= 4
    ensures m < k <= n && t < |states[k]| && states[k][t].state == Started && states[k][t].pc == Running
    ensures t < |states[m + 1]| && states[m + 1][t].state == Suspended
  {
    RunKeepsInv(states, actions, boot, m);
    RunStep(states, actions, boot, m);
    SuspendBegins(states[m], t, nonRetentive);
    k := Served(states, actions, boot, m + 1, n, t);
  }

  lemma SuspendBegins(s: State, t: nat, nonRetentive: bool)
    requires Inv(s) && Enabled(s, Suspend(t, nonRetentive))
    ensures var h := Do(s, Suspend(t, nonRetentive));
            t < |h| && h[t].state == Suspended && h[t].pc == Asleep(nonRetentive) && Distance(h[t]) == 4
  {
    assert HartInv(s[t]);
  }

  /** With a platform that can switch harts off a hart that exits is off, otherwise it goes through the warm boot. */
  lemma ExitGoes(s: State, t: nat, hotplug: bool)
    requires Inv(s) && Enabled(s, Exit(t, hotplug))
    ensures var h := Do(s, Exit(t, hotplug)); t < |h| && h[t].state == Stopped && h[t].pc == if hotplug then Off else Dispatch
  {
    assert HartInv(s[t]);
  }

  // ---- The registers over a suspend ----

  /** The hart has woken through the warm-boot address and not yet resumed. */
  predicate OnWarmPath(h: Hart) {
    (h.state == Suspended && (h.pc == Dispatch || h.pc == Resume)) || (h.state == ResumePending && h.pc == Resuming)
  }

  lemma WarmStep(s: State, a: Action, t: nat)
    requires Inv(s) && Enabled(s, a) && t < |s|
    ensures |Do(s, a)| == |s|
    ensures a == Wake(t, true) || (OnWarmPath(s[t]) && a != ResumeFinish(t)) ==> OnWarmPath(Do(s, a)[t])
  {
    assert HartInv(s[t]) && HartInv(s[a.hart]);
  }

  /** A hart that wakes through the warm-boot address runs again only by `sbi_hsm_hart_resume_finish`. */
  lemma {:induction false} WarmWakeResumes(states: seq<State>, actions: seq<Action>, boot: nat, m: nat, n: nat, t: nat)
    requires Run(states, actions, boot) && m < n <= |actions| && t < |states[0]| && actions[m] == Wake(t, true)
    ensures t < |states[n]|
    ensures OnWarmPath(states[n][t]) || exists k :: m < k < n && actions[k] == ResumeFinish(t)
    decreases n
  {
    hide OnWarmPath, Do, Enabled, Inv;
    RunKeepsInv(states, actions, boot, n - 1);
    RunStep(states, actions, boot, n - 1);
    WarmStep(states[n - 1], actions[n - 1], t);
    if m + 1 < n {
      WarmWakeResumes(states, actions, boot, m, n - 1, t);
    }
  }

  /** The saved registers stay until the next suspend of the hart. */
  lemma {:induction false} SavedStays(states: seq<State>, actions: seq<Action>, boot: nat, m: nat, n: nat, h: nat)
    requires Run(states, actions, boot) && m < n < |states| && h < |states[0]|
    requires actions[m] == Suspend(h, true) && forall k :: m < k < n ==> !(actions[k].Suspend? && actions[k].hart == h)
    ensures |states[m]| == |states[n]| == |states[0]|
    ensures states[n][h].savedMie == states[m][h].mie
    ensures states[n][h].savedMip.ssip == states[m][h].mip.ssip && states[n][h].savedMip.stip == states[m][h].mip.stip
    decreases n
  {
    hide *;
    RunKeepsInv(states, actions, boot, m);
    RunKeepsInv(states, actions, boot, n);
    RunStep(states, actions, boot, n - 1);
    if n == m + 1 {
      SavedAtSuspend(states[m], h);
    } else {
      SavedStays(states, actions, boot, m, n - 1, h);
      SavedUnlessSuspend(states[n - 1], actions[n - 1], h);
    }
  }

  lemma RunStep(states: seq<State>, actions: seq<Action>, boot: nat, k: nat)
    requires Run(states, actions, boot) && k + 1 < |states|
    ensures k < |actions| && Enabled(states[k], actions[k]) && states[k + 1] == Do(states[k], actions[k])
  {
  }

  lemma SavedAtSuspend(s: State, h: nat)
    requires h < |s| && Inv(s) && Enabled(s, Suspend(h, true))
    ensures var s' := Do(s, Suspend(h, true));
            && h < |s'| && s'[h].savedMie == s[h].mie && s'[h].savedMip.ssip == s[h].mip.ssip
            && s'[h].savedMip.stip == s[h].mip.stip
  {
    assert HartInv(s[h]);
  }

  lemma SavedUnlessSuspend(s: State, a: Action, h: nat)
    requires Enabled(s, a) && h < |s| && !(a.Suspend? && a.hart == h)
    ensures h < |Do(s, a)| && Do(s, a)[h].savedMie == s[h].savedMie && Do(s, a)[h].savedMip == s[h].savedMip
  {
  }

  /** A hart that resumes from a non-retentive suspend has MIE, and SSIP and STIP in MIP, as they were when it
      suspended, whatever the warm boot did to them. */
  lemma ResumeRestores(states: seq<State>, actions: seq<Action>, boot: nat, m: nat, n: nat, h: nat)
    requires Run(states, actions, boot) && m < n < |actions| && h < |states[0]|
    requires actions[m] == Suspend(h, true) && actions[n] == ResumeFinish(h)
    requires forall k :: m < k < n ==> !(actions[k].Suspend? && actions[k].hart == h)
    ensures |states[m]| == |states[n + 1]| == |states[0]|
    ensures states[n + 1][h].state == Started && states[n + 1][h].pc == Running
    ensures states[n + 1][h].mie == states[m][h].mie
    ensures states[n + 1][h].mip.ssip == states[m][h].mip.ssip && states[n + 1][h].mip.stip == states[m][h].mip.stip
  {
    SavedStays(states, actions, boot, m, n, h);
    RunKeepsInv(states, actions, boot, n);
    assert Enabled(states[n], actions[n]) && HartInv(states[n][h]);
  }
}
