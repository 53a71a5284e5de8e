/**
 The remote fence protocol of lib/sbi/sbi_tlb.c and lib/sbi/sbi_ipi.c as a transition system over a
 fixed set of running harts: one step for each atomic operation, locked queue operation or local flush,
 in a sequentially consistent memory.
 */
module TlbProtocol {
  import opened Fifo
  import opened TlbInfo

  /** SBI_TLB_FIFO_NUM_ENTRIES. */
  const QUEUE_SIZE: nat := 8

  /** Where a hart is inside `tlb_entry_process`: about to flush for a dequeued entry, or setting the sync
      words of the harts in `left`. */
  datatype Work = NoEntry | Flushing(entry: Info) | Acking(left: set<nat>)

  /** Where a caller is inside `sbi_ipi_send` for its current target. The Helping stages are
      `tlb_process_count(scratch, 1)`, called from the full-queue loop or the sync loop; `done` is its
      `deq_count`. */
  datatype Stage =
    | Updating                       // before `sbi_fifo_inplace_update`
    | Enqueuing                      // before `sbi_fifo_enqueue`
    | HelpingEnqueue(done: nat)
    | SettingBit                     // before `atomic_raw_set_bit`
    | Ringing                        // before `ipi_send`
    | Polling                        // before `atomic_raw_xchg_ulong(tlb_sync, 0)`
    | HelpingPoll(done: nat)

  /** A call of `sbi_tlb_request`: the request as given and as possibly upgraded, the targets in order, the
      index of the current one, and for each target how long its flush log was when the request was posted. */
  datatype Call = Call(given: Info, info: Info, targets: seq<nat>, current: nat, stage: Stage, posted: seq<nat>)

  datatype Pc =
    | Idle                           // outside the firmware: interrupts are taken here only
    | ReadingIpi                     // `sbi_ipi_process` after `ipi_clear`, before reading `ipi_type`
    | Draining                       // `tlb_process`
    | Requesting(call: Call)

  /** `queue` and `sync` are the hart's scratch words, `ipiType` the TLB bit of its `ipi_type`, `msip` its
      pending software interrupt; `log` is the history of requests it has flushed for. */
  datatype Hart = Hart(queue: seq<Info>, sync: bool, ipiType: bool, msip: bool, pc: Pc, work: Work, log: seq<Info>)

  type State = seq<Hart>

  datatype Action =
    | Start(hart: nat, request: Info, targets: seq<nat>)
    | TakeIpi(hart: nat)
    | ReadIpi(hart: nat)
    | Fetch(hart: nat)
    | Flush(hart: nat)
    | Ack(hart: nat, waiter: nat)
    | Update(hart: nat)
    | Enqueue(hart: nat)
    | SetBit(hart: nat)
    | Ring(hart: nat)
    | Poll(hart: nat)

  // ---- Views of a hart ----

  predicate InStage(h: Hart, s: Stage) { h.pc.Requesting? && h.pc.call.stage == s }

  predicate Helping(h: Hart) {
    h.pc.Requesting? && (h.pc.call.stage.HelpingEnqueue? || h.pc.call.stage.HelpingPoll?)
  }

  /** The request is posted to the current target and not yet known to be acknowledged. */
  predicate Waiting(h: Hart) {
    && h.pc.Requesting?
    && (h.pc.call.stage.SettingBit? || h.pc.call.stage.Ringing? || h.pc.call.stage.Polling? || h.pc.call.stage.HelpingPoll?)
  }

  function Target(c: Call): nat
    requires c.current < |c.targets|
  {
    c.targets[c.current]
  }

  predicate CallOk(c: Call, n: nat) {
    c.current < |c.targets| && forall i :: 0 <= i < |c.targets| ==> c.targets[i] < n
  }

  /** Every running call has a current target. */
  predicate PcsOk(s: State) {
    forall h :: 0 <= h < |s| && s[h].pc.Requesting? ==> CallOk(s[h].pc.call, |s|)
  }

  // ---- Steps ----

  function AtStage(h: Hart, stage: Stage): Hart
    requires h.pc.Requesting?
  {
    h.(pc := Requesting(h.pc.call.(stage := stage)))
  }

  /** Goes on to the next target, or returns from the call. */
  function NextTarget(h: Hart): Hart
    requires h.pc.Requesting?
  {
    var c := h.pc.call;
    h.(pc := if c.current + 1 < |c.targets| then Requesting(c.(current := c.current + 1, stage := Updating)) else Idle)
  }

  /** The request has just been put into the queue of the current target. */
  function Posted(h: Hart, info: Info, logged: nat): Hart
    requires h.pc.Requesting?
  {
    h.(pc := Requesting(h.pc.call.(info := info, stage := SettingBit, posted := h.pc.call.posted + [logged])))
  }

  /** The caller's side of a request: SBI_TLB_INFO_INIT puts only the caller into the mask. Ranges that
      coalescing does not treat soundly are left to the callers to avoid. */
  ghost predicate Acceptable(request: Info, hart: nat, limit: nat) {
    && WordSized(request) && request.smask == {hart}
    && (Coalescable(request.fn) ==> Plain(Upgrade(request, limit)))
  }

  /** The step can be taken, whatever range a caller asks for. */
  ghost predicate Possible(s: State, a: Action, limit: nat) {
    && PcsOk(s) && a.hart < |s|
    && var h := s[a.hart];
       match a
       case Start(i, request, targets) =>
         && h.pc.Idle? && targets != [] && (forall k :: 0 <= k < |targets| ==> targets[k] < |s|)
         && WordSized(request) && request.smask == {i}
       case TakeIpi(_) => h.pc.Idle? && h.msip
       case ReadIpi(_) => h.pc.ReadingIpi?
       case Fetch(_) => h.work.NoEntry? && (h.pc.Draining? || Helping(h))
       case Flush(_) => h.work.Flushing?
       case Ack(_, t) => h.work.Acking? && t in h.work.left && t < |s|
       case Update(_) => InStage(h, Updating)
       case Enqueue(_) => InStage(h, Enqueuing)
       case SetBit(_) => InStage(h, SettingBit)
       case Ring(_) => InStage(h, Ringing)
       case Poll(_) => InStage(h, Polling)
  }

  /** ... and if it begins a call, the request is acceptable. */
  ghost predicate Enabled(s: State, a: Action, limit: nat) {
    Possible(s, a, limit) && (a.Start? ==> Acceptable(a.request, a.hart, limit))
  }

  /** The queue loop of `tlb_process` and of `tlb_process_count`; the latter stops once it has handled more
      than `count` == 1 entries. */
  function AfterFetch(h: Hart): Hart
    requires h.work.NoEntry? && (h.pc.Draining? || Helping(h))
  {
    if h.pc.Draining? then
      if h.queue == [] then h.(pc := Idle) else Dequeued(h)
    else if h.pc.call.stage.HelpingEnqueue? then
      var done := h.pc.call.stage.done;
      if done > 1 || h.queue == [] then AtStage(h, Enqueuing) else Dequeued(AtStage(h, HelpingEnqueue(done + 1)))
    else
      var done := h.pc.call.stage.done;
      if done > 1 || h.queue == [] then AtStage(h, Polling) else Dequeued(AtStage(h, HelpingPoll(done + 1)))
  }

  function Dequeued(h: Hart): Hart
    requires h.queue != []
  {
    h.(work := Flushing(h.queue[0]), queue := h.queue[1..])
  }

  function AfterAck(left: set<nat>): Work {
    if left == {} then NoEntry else Acking(left)
  }

  function DoUpdate(s: State, i: nat, limit: nat): State
    requires PcsOk(s) && i < |s| && InStage(s[i], Updating)
  {
    var h := s[i];
    var t, info := Target(h.pc.call), Upgrade(h.pc.call.info, limit);
    if t == i then
      // tlb_update flushes locally and answers -1: no IPI is sent and no sync is awaited
      var c := h.pc.call;
      s[i := NextTarget(h.(log := h.log + [info], pc := Requesting(c.(info := info, posted := c.posted + [|h.log|]))))]
    else
      var (ret, queue) := ScanUpdate(s[t].queue, 0, info, UpdateCb);
      if ret == Unchanged then
        s[i := h.(pc := Requesting(h.pc.call.(info := info, stage := Enqueuing)))]
      else
        s[t := s[t].(queue := queue)][i := Posted(h, info, |s[t].log|)]
  }

  function DoEnqueue(s: State, i: nat): State
    requires PcsOk(s) && i < |s| && InStage(s[i], Enqueuing)
  {
    var h := s[i];
    var t, info := Target(h.pc.call), h.pc.call.info;
    if |s[t].queue| < QUEUE_SIZE then
      var s' := s[t := s[t].(queue := s[t].queue + [info])];
      s'[i := Posted(s'[i], info, |s[t].log|)]
    else
      s[i := AtStage(h, HelpingEnqueue(0))]
  }

  function DoPoll(h: Hart): Hart
    requires InStage(h, Polling)
  {
    if h.sync then NextTarget(h.(sync := false)) else AtStage(h, HelpingPoll(0))
  }

  ghost function Do(s: State, a: Action, limit: nat): (s': State)
    requires Possible(s, a, limit)
  {
    var i := a.hart;
    var h := s[i];
    match a
    case Start(_, request, targets) =>
      s[i := h.(pc := Requesting(Call(request, request, targets, 0, Updating, [])))]
    case TakeIpi(_) => s[i := h.(msip := false, pc := ReadingIpi)]
    case ReadIpi(_) => s[i := h.(ipiType := false, pc := if h.ipiType then Draining else Idle)]
    case Fetch(_) => s[i := AfterFetch(h)]
    case Flush(_) => s[i := h.(log := h.log + [h.work.entry], work := AfterAck(h.work.entry.smask))]
    case Ack(_, t) =>
      // atomic_raw_xchg_ulong(rtlb_sync, 1), repeated while the word was already set
      if s[t].sync then s
      else
        var s' := s[i := h.(work := AfterAck(h.work.left - {t}))];
        s'[t := s'[t].(sync := true)]
    case Update(_) => DoUpdate(s, i, limit)
    case Enqueue(_) => DoEnqueue(s, i)
    case SetBit(_) =>
      var t := Target(h.pc.call);
      var s' := s[t := s[t].(ipiType := true)];
      s'[i := AtStage(s'[i], Ringing)]
    case Ring(_) =>
      var t := Target(h.pc.call);
      var s' := s[t := s[t].(msip := true)];
      s'[i := AtStage(s'[i], Polling)]
    case Poll(_) => s[i := DoPoll(h)]
  }

  ghost predicate Initial(s: State) {
    forall i :: 0 <= i < |s| ==> s[i] == Hart([], false, false, false, Idle, NoEntry, [])
  }

  /** A finite run from an initial state. */
  ghost predicate Run(states: seq<State>, actions: seq<Action>, limit: nat) {
    && |states| == |actions| + 1
    && Initial(states[0])
    && forall k :: 0 <= k < |actions| ==> Enabled(states[k], actions[k], limit) && states[k + 1] == Do(states[k], actions[k], limit)
  }

  /** The same without a condition on the ranges that callers ask for. */
  ghost predicate AnyRun(states: seq<State>, actions: seq<Action>, limit: nat) {
    && |states| == |actions| + 1
    && Initial(states[0])
    && forall k :: 0 <= k < |actions| ==> Possible(states[k], actions[k], limit) && states[k + 1] == Do(states[k], actions[k], limit)
  }
}
