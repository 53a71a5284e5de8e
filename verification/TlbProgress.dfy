/**
 Progress of the remote fence protocol: no event is lost, some hart can always go on, and the work that is
 left when no new request starts is bounded.
 */
module TlbProgress {
  import opened Arith
  import opened Fifo
  import opened TlbInfo
  import opened TlbProtocol
  import opened TlbSafety

  // ---- No lost event ----

  predicate Sending(s: State, x: nat, r: nat, stage: Stage) {
    x < |s| && InStage(s[x], stage) && s[x].pc.call.current < |s[x].pc.call.targets| && Target(s[x].pc.call) == r
  }

  /** A non-empty queue is being drained, or its owner has an IPI that it will take, or a sender is about to
      raise one. */
  ghost predicate Attended(s: State, r: nat)
    requires r < |s|
  {
    || s[r].queue == []
    || s[r].pc.Draining?
    || (exists x :: Sending(s, x, r, SettingBit))
    || (s[r].ipiType && (s[r].msip || s[r].pc.ReadingIpi? || exists x :: Sending(s, x, r, Ringing)))
  }

  ghost predicate AllAttended(s: State) {
    forall r :: 0 <= r < |s| ==> Attended(s, r)
  }

  predicate OnlyMoves(s: State, s': State, i: nat) {
    |s'| == |s| && i < |s| && forall x :: 0 <= x < |s| && x != i ==> s'[x].pc == s[x].pc
  }

  predicate SameInbox(h: Hart, h': Hart) {
    (h.queue == [] ==> h'.queue == []) && h'.ipiType == h.ipiType && h'.msip == h.msip
  }

  /** A step of hart `i` that raises no interrupt at `r` and leaves the inbox of `r` alone. */
  lemma AttendedStays(s: State, s': State, i: nat, r: nat)
    requires OnlyMoves(s, s', i) && r < |s| && Attended(s, r) && SameInbox(s[r], s'[r])
    requires !Sending(s, i, r, SettingBit) && !Sending(s, i, r, Ringing)
    requires s'[r].pc == s[r].pc || !(s[r].pc.Draining? || s[r].pc.ReadingIpi?)
    ensures Attended(s', r)
  {
    if exists x :: Sending(s, x, r, SettingBit) {
      var x :| Sending(s, x, r, SettingBit);
      assert Sending(s', x, r, SettingBit);
    } else if exists x :: Sending(s, x, r, Ringing) {
      var x :| Sending(s, x, r, Ringing);
      assert Sending(s', x, r, Ringing);
    }
  }

  lemma StepOnlyMoves(s: State, a: Action, limit: nat)
    requires Enabled(s, a, limit)
    ensures OnlyMoves(s, Do(s, a, limit), a.hart)
  {
  }

  lemma PlainStepAttended(s: State, a: Action, limit: nat, r: nat)
    requires Enabled(s, a, limit) && AllAttended(s) && r < |s|
    requires (a.Start? || a.Flush? || a.Ack? || a.Poll?) && WorkPlaced(s[a.hart])
    ensures Attended(Do(s, a, limit), r)
  {
    StepOnlyMoves(s, a, limit);
    AttendedStays(s, Do(s, a, limit), a.hart, r);
  }

  lemma FetchAttended(s: State, a: Action, limit: nat, r: nat)
    requires Enabled(s, a, limit) && AllAttended(s) && r < |s| && a.Fetch?
    ensures Attended(Do(s, a, limit), r)
  {
    if r != a.hart || !s[r].pc.Draining? {
      AttendedStays(s, Do(s, a, limit), a.hart, r);
    }
  }

  lemma InterruptAttended(s: State, a: Action, limit: nat, r: nat)
    requires Enabled(s, a, limit) && AllAttended(s) && r < |s| && (a.TakeIpi? || a.ReadIpi?)
    ensures Attended(Do(s, a, limit), r)
  {
    var s', i := Do(s, a, limit), a.hart;
    if r != i {
      AttendedStays(s, s', i, r);
    } else if exists x :: Sending(s, x, r, SettingBit) {
      var x :| Sending(s, x, r, SettingBit);
      assert Sending(s', x, r, SettingBit);
    }
  }

  lemma SignalAttended(s: State, a: Action, limit: nat, r: nat)
    requires Enabled(s, a, limit) && AllAttended(s) && r < |s| && (a.SetBit? || a.Ring?)
    requires Target(s[a.hart].pc.call) != a.hart
    ensures Attended(Do(s, a, limit), r)
  {
    var s', i := Do(s, a, limit), a.hart;
    if r != Target(s[i].pc.call) {
      AttendedStays(s, s', i, r);
    } else if a.SetBit? {
      assert Sending(s', i, r, Ringing);
    } else if exists x :: Sending(s, x, r, SettingBit) {
      var x :| Sending(s, x, r, SettingBit);
      assert Sending(s', x, r, SettingBit);
    }
  }

  lemma PostAttended(s: State, a: Action, limit: nat, r: nat)
    requires Enabled(s, a, limit) && AllAttended(s) && r < |s| && (a.Update? || a.Enqueue?)
    requires a.Enqueue? ==> Target(s[a.hart].pc.call) != a.hart
    ensures Attended(Do(s, a, limit), r)
  {
    var s', i := Do(s, a, limit), a.hart;
    if r == Target(s[i].pc.call) && InStage(s'[i], SettingBit) && r != i {
      assert Sending(s', i, r, SettingBit);
    } else {
      AttendedStays(s, s', i, r);
    }
  }

  lemma StepAttended(s: State, a: Action, limit: nat)
    requires Inv(s, limit) && AllAttended(s) && Enabled(s, a, limit)
    ensures AllAttended(Do(s, a, limit))
  {
    assert CallInv(s, a.hart, limit) && HartOk(s, a.hart);
    StepOnlyMoves(s, a, limit);
    forall r: nat | r < |s| ensures Attended(Do(s, a, limit), r) {
      match a
      case Fetch(_) => FetchAttended(s, a, limit, r);
      case TakeIpi(_) => InterruptAttended(s, a, limit, r);
      case ReadIpi(_) => InterruptAttended(s, a, limit, r);
      case SetBit(_) => SignalAttended(s, a, limit, r);
      case Ring(_) => SignalAttended(s, a, limit, r);
      case Update(_) => PostAttended(s, a, limit, r);
      case Enqueue(_) => PostAttended(s, a, limit, r);
      case _ => PlainStepAttended(s, a, limit, r);
    }
  }

  /** In every reachable state, no hart with queued requests is left without a wake-up. */
  lemma {:induction false} NoLostEvent(states: seq<State>, actions: seq<Action>, limit: nat, k: nat)
    requires Run(states, actions, limit) && k < |states|
    ensures AllAttended(states[k])
  {
    if k > 0 {
      hide AllAttended, Enabled, Do, Inv;
      NoLostEvent(states, actions, limit, k - 1);
      RunKeepsInv(states, actions, limit, k - 1);
      assert Enabled(states[k - 1], actions[k - 1], limit);
      StepAttended(states[k - 1], actions[k - 1], limit);
    }
  }

  // ---- Outstanding work ----

  function EntryWork(e: Info): nat { 2 + |e.smask| }

  function QueueWork(queue: seq<Info>, n: nat): nat
    requires n <= |queue|
  {
    if n == 0 then 0 else QueueWork(queue, n - 1) + EntryWork(queue[n - 1])
  }

  function EntryLeft(w: Work): nat {
    match w
    case NoEntry => 0
    case Flushing(e) => 1 + |e.smask|
    case Acking(left) => |left|
  }

  function StageLeft(stage: Stage): nat {
    match stage
    case Updating => 11
    case Enqueuing => 10
    case HelpingEnqueue(_) => 10
    case SettingBit => 6
    case Ringing => 5
    case Polling => 1
    case HelpingPoll(_) => 1
  }

  function PcLeft(pc: Pc): nat {
    match pc
    case Idle => 0
    case ReadingIpi => 2
    case Draining => 1
    case Requesting(c) => StageLeft(c.stage) + (if c.current < |c.targets| then 11 * (|c.targets| - c.current - 1) else 0)
  }

  function HartWork(h: Hart): nat {
    QueueWork(h.queue, |h.queue|) + EntryLeft(h.work) + PcLeft(h.pc) + (if h.msip then 3 else 0)
  }

  /** The work outstanding at the first `n` harts. */
  function WorkLeft(s: State, n: nat): nat
    requires n <= |s|
  {
    if n == 0 then 0 else WorkLeft(s, n - 1) + HartWork(s[n - 1])
  }

  lemma {:induction false} WorkUpdate(s: State, i: nat, h: Hart, n: nat)
    requires i < |s| && n <= |s|
    ensures WorkLeft(s[i := h], n) == if i < n then WorkLeft(s, n) - HartWork(s[i]) + HartWork(h) else WorkLeft(s, n)
    ensures i < n ==> WorkLeft(s, n) >= HartWork(s[i])
  {
    if n > 0 {
      WorkUpdate(s, i, h, n - 1);
    }
  }

  lemma {:induction false} QueueWorkUpdate(queue: seq<Info>, k: nat, e: Info, n: nat)
    requires k < |queue| && n <= |queue|
    ensures QueueWork(queue[k := e], n) ==
              if k < n then QueueWork(queue, n) - EntryWork(queue[k]) + EntryWork(e) else QueueWork(queue, n)
  {
    if n > 0 {
      QueueWorkUpdate(queue, k, e, n - 1);
    }
  }

  lemma {:induction false} QueueWorkAppend(queue: seq<Info>, e: Info, n: nat)
    requires n <= |queue|
    ensures QueueWork(queue + [e], n) == QueueWork(queue, n)
  {
    if n > 0 {
      QueueWorkAppend(queue, e, n - 1);
    }
  }

  lemma {:induction false} QueueWorkTail(queue: seq<Info>, n: nat)
    requires 0 < n <= |queue|
    ensures QueueWork(queue, n) == EntryWork(queue[0]) + QueueWork(queue[1..], n - 1)
  {
    if n > 1 {
      QueueWorkTail(queue, n - 1);
      assert queue[1..][n - 2] == queue[n - 1];
    }
  }

  function Left(s: State): nat { WorkLeft(s, |s|) }

  /** The waiting loops turn: a poll that fails, a full queue found full, the end of a helping round. */
  predicate Spins(s: State, a: Action)
    requires PcsOk(s) && a.hart < |s|
  {
    match a
    case Poll(i) => InStage(s[i], Polling) && !s[i].sync
    case Enqueue(i) => InStage(s[i], Enqueuing) && |s[Target(s[i].pc.call)].queue| >= QUEUE_SIZE
    case Fetch(i) => s[i].work.NoEntry? && Helping(s[i]) && AfterFetch(s[i]).work.NoEntry?
    case _ => false
  }

  /** A step of one hart alone. */
  lemma OwnWork(s: State, a: Action, limit: nat)
    requires Enabled(s, a, limit) && (a.TakeIpi? || a.ReadIpi? || a.Flush? || a.Poll?)
    ensures if Spins(s, a) then Left(Do(s, a, limit)) == Left(s) else Left(Do(s, a, limit)) < Left(s)
  {
    hide WorkLeft, QueueWork, Acceptable;
    WorkUpdate(s, a.hart, Do(s, a, limit)[a.hart], |s|);
  }

  lemma DequeuedWork(h: Hart)
    requires h.work.NoEntry? && h.queue != []
    ensures HartWork(Dequeued(h)) == HartWork(h) - 1
  {
    QueueWorkTail(h.queue, |h.queue|);
  }

  lemma StageWork(h: Hart, stage: Stage)
    requires h.pc.Requesting? && StageLeft(stage) == StageLeft(h.pc.call.stage)
    ensures HartWork(AtStage(h, stage)) == HartWork(h)
  {
  }

  lemma {:induction false} FetchHartWork(h: Hart)
    requires h.work.NoEntry? && (h.pc.Draining? || Helping(h))
    ensures if Helping(h) && AfterFetch(h).work.NoEntry? then HartWork(AfterFetch(h)) == HartWork(h)
            else HartWork(AfterFetch(h)) < HartWork(h)
  {
    if h.pc.Draining? {
      if h.queue != [] {
        DequeuedWork(h);
      }
    } else {
      var stage := h.pc.call.stage;
      var ended := stage.done > 1 || h.queue == [];
      var next := if stage.HelpingEnqueue? then (if ended then Enqueuing else HelpingEnqueue(stage.done + 1))
                  else if ended then Polling else HelpingPoll(stage.done + 1);
      StageWork(h, next);
      if !ended {
        DequeuedWork(AtStage(h, next));
      }
    }
  }

  lemma FetchWork(s: State, a: Action, limit: nat)
    requires Enabled(s, a, limit) && a.Fetch?
    ensures if Spins(s, a) then Left(Do(s, a, limit)) == Left(s) else Left(Do(s, a, limit)) < Left(s)
  {
    WorkUpdate(s, a.hart, AfterFetch(s[a.hart]), |s|);
    FetchHartWork(s[a.hart]);
  }

  lemma AckWork(s: State, a: Action, limit: nat)
    requires Enabled(s, a, limit) && a.Ack? && !s[a.waiter].sync
    ensures Left(Do(s, a, limit)) < Left(s)
  {
    hide WorkLeft, QueueWork, Acceptable;
    var i, t, s' := a.hart, a.waiter, Do(s, a, limit);
    var s1 := s[i := s[i].(work := AfterAck(s[i].work.left - {t}))];
    WorkUpdate(s, i, s1[i], |s|);
    WorkUpdate(s1, t, s'[t], |s|);
  }

  lemma SignalWork(s: State, a: Action, limit: nat)
    requires Enabled(s, a, limit) && (a.SetBit? || a.Ring?)
    ensures Left(Do(s, a, limit)) < Left(s)
  {
    hide WorkLeft, QueueWork, Acceptable;
    var i, s' := a.hart, Do(s, a, limit);
    var t := Target(s[i].pc.call);
    var s1 := s[t := if a.SetBit? then s[t].(ipiType := true) else s[t].(msip := true)];
    WorkUpdate(s, t, s1[t], |s|);
    WorkUpdate(s1, i, s'[i], |s|);
  }

  lemma {:induction false} PostWork(s: State, i: nat, t: nat, info: Info, queue: seq<Info>)
    requires i < |s| && t < |s| && t != i && (InStage(s[i], Updating) || InStage(s[i], Enqueuing))
    requires QueueWork(queue, |queue|) <= QueueWork(s[t].queue, |s[t].queue|) + 3
    ensures Left(AfterPost(s, i, t, info, queue)) < Left(s)
  {
    hide WorkLeft, QueueWork, Acceptable;
    var s1 := s[t := s[t].(queue := queue)];
    WorkUpdate(s, t, s1[t], |s|);
    WorkUpdate(s1, i, AfterPost(s, i, t, info, queue)[i], |s|);
  }

  lemma MergeSize(info: Info, curr: Info)
    requires |info.smask| == 1
    ensures EntryWork(UpdateCb(info, curr).1) <= EntryWork(curr) + 1
  {
  }

  lemma MergeWork(queue: seq<Info>, info: Info)
    requires |info.smask| == 1
    ensures var now := ScanUpdate(queue, 0, info, UpdateCb).1;
            QueueWork(now, |now|) <= QueueWork(queue, |queue|) + 1
  {
    ScanUpdateFirst(queue, 0, info, UpdateCb);
    var (ret, now) := ScanUpdate(queue, 0, info, UpdateCb);
    if ret != Unchanged {
      var k: nat :| FirstAccepted(queue, k, info, UpdateCb) && now == queue[k := UpdateCb(info, queue[k]).1];
      MergeSize(info, queue[k]);
      QueueWorkUpdate(queue, k, UpdateCb(info, queue[k]).1, |queue|);
    }
  }

  lemma UpdateWork(s: State, a: Action, limit: nat)
    requires Enabled(s, a, limit) && a.Update? && |s[a.hart].pc.call.info.smask| == 1
    ensures Left(Do(s, a, limit)) < Left(s)
  {
    hide WorkLeft, QueueWork, Acceptable;
    var i := a.hart;
    var c := s[i].pc.call;
    var t, info := Target(c), Upgrade(c.info, limit);
    if t == i || ScanUpdate(s[t].queue, 0, info, UpdateCb).0 == Unchanged {
      WorkUpdate(s, i, Do(s, a, limit)[i], |s|);
    } else {
      var now := ScanUpdate(s[t].queue, 0, info, UpdateCb).1;
      MergeWork(s[t].queue, info);
      PostWork(s, i, t, info, now);
      assert Do(s, a, limit) == AfterPost(s, i, t, info, now);
    }
  }

  lemma EnqueueWork(s: State, a: Action, limit: nat)
    requires Enabled(s, a, limit) && a.Enqueue? && |s[a.hart].pc.call.info.smask| == 1
    requires Target(s[a.hart].pc.call) != a.hart
    ensures if Spins(s, a) then Left(Do(s, a, limit)) == Left(s) else Left(Do(s, a, limit)) < Left(s)
  {
    var i := a.hart;
    var t, info := Target(s[i].pc.call), s[i].pc.call.info;
    var q := s[t].queue;
    if |q| < QUEUE_SIZE {
      QueueWorkAppend(q, info, |q|);
      PostWork(s, i, t, info, q + [info]);
      assert Do(s, a, limit) == AfterPost(s, i, t, info, q + [info]);
    } else {
      WorkUpdate(s, i, Do(s, a, limit)[i], |s|);
    }
  }

  /** When no new request starts, every step uses up outstanding work, except that the waiting loops may
      turn, which leaves it the same. */
  lemma StepWork(s: State, a: Action, limit: nat)
    requires Inv(s, limit) && Enabled(s, a, limit) && !a.Start?
    ensures if Spins(s, a) then Left(Do(s, a, limit)) == Left(s) else Left(Do(s, a, limit)) < Left(s)
  {
    assert CallInv(s, a.hart, limit);
    match a
    case Fetch(_) => FetchWork(s, a, limit);
    case Ack(_, _) => AckNeverSpins(s, a, limit); AckWork(s, a, limit);
    case Update(_) => UpdateWork(s, a, limit);
    case Enqueue(_) => EnqueueWork(s, a, limit);
    case SetBit(_) => SignalWork(s, a, limit);
    case Ring(_) => SignalWork(s, a, limit);
    case _ => OwnWork(s, a, limit);
  }

  // ---- Some hart can always go on ----

  /** Nothing is left to do. */
  predicate AtRest(s: State) {
    forall h :: 0 <= h < |s| ==> s[h].pc.Idle? && s[h].queue == [] && s[h].work.NoEntry? && !s[h].msip
  }

  /** Hart `r`, running alone and starting no request, reduces the outstanding work within `n` steps. */
  ghost predicate Productive(s: State, r: nat, n: nat, limit: nat)
    decreases n
  {
    n > 0 && exists a: Action ::
      && a.hart == r && !a.Start? && Enabled(s, a, limit)
      && (Left(Do(s, a, limit)) < Left(s) || (Left(Do(s, a, limit)) == Left(s) && Productive(Do(s, a, limit), r, n - 1, limit)))
  }

  lemma InvPcsOk(s: State, limit: nat)
    requires Inv(s, limit)
    ensures PcsOk(s)
  {
    forall h | 0 <= h < |s| && s[h].pc.Requesting? ensures CallOk(s[h].pc.call, |s|) {
      assert CallInv(s, h, limit);
    }
  }

  lemma ByStep(s: State, a: Action, n: nat, limit: nat)
    requires Inv(s, limit) && Enabled(s, a, limit) && !a.Start? && n > 0
    requires Spins(s, a) ==> Productive(Do(s, a, limit), a.hart, n - 1, limit)
    ensures Productive(s, a.hart, n, limit)
  {
    StepWork(s, a, limit);
  }

  ghost predicate Loaded(s: State, r: nat, limit: nat) {
    Inv(s, limit) && r < |s| && s[r].work.NoEntry? && s[r].queue != []
  }

  /** A hart that waits takes an entry out of its own queue within three steps. */
  lemma FreshHelper(s: State, r: nat, n: nat, limit: nat)
    requires Loaded(s, r, limit) && Helping(s[r]) && s[r].pc.call.stage.done <= 1 && n >= 1
    ensures Productive(s, r, n, limit)
  {
    InvPcsOk(s, limit);
    ByStep(s, Fetch(r), n, limit);
  }

  lemma WaiterProductive(s: State, r: nat, n: nat, limit: nat)
    requires Loaded(s, r, limit) && (InStage(s[r], Polling) || InStage(s[r], Enqueuing)) && n >= 2
    ensures Productive(s, r, n, limit)
  {
    InvPcsOk(s, limit);
    var a := if InStage(s[r], Polling) then Poll(r) else Action.Enqueue(r);
    if Spins(s, a) {
      StepKeepsInv(s, a, limit);
      FreshHelper(Do(s, a, limit), r, n - 1, limit);
    }
    ByStep(s, a, n, limit);
  }

  lemma HelperProductive(s: State, r: nat, limit: nat)
    requires Loaded(s, r, limit) && Helping(s[r])
    ensures Productive(s, r, 3, limit)
  {
    InvPcsOk(s, limit);
    if s[r].pc.call.stage.done <= 1 {
      FreshHelper(s, r, 3, limit);
    } else {
      StepKeepsInv(s, Fetch(r), limit);
      WaiterProductive(Do(s, Fetch(r), limit), r, 2, limit);
      ByStep(s, Fetch(r), 3, limit);
    }
  }

  lemma LoadedCaller(s: State, r: nat, limit: nat)
    requires Loaded(s, r, limit) && s[r].pc.Requesting?
    ensures Productive(s, r, 3, limit)
  {
    InvPcsOk(s, limit);
    match s[r].pc.call.stage
    case Updating => ByStep(s, Update(r), 3, limit);
    case Enqueuing => WaiterProductive(s, r, 3, limit);
    case HelpingEnqueue(_) => HelperProductive(s, r, limit);
    case SettingBit => ByStep(s, SetBit(r), 3, limit);
    case Ringing => ByStep(s, Ring(r), 3, limit);
    case Polling => WaiterProductive(s, r, 3, limit);
    case HelpingPoll(_) => HelperProductive(s, r, limit);
  }

  /** A hart with an entry in hand can go on. */
  lemma WorkerProductive(s: State, r: nat, limit: nat)
    requires Inv(s, limit) && r < |s| && !s[r].work.NoEntry?
    ensures Productive(s, r, 3, limit)
  {
    InvPcsOk(s, limit);
    assert HartOk(s, r);
    if s[r].work.Flushing? {
      ByStep(s, Flush(r), 3, limit);
    } else {
      var t :| t in s[r].work.left;
      assert Settled(s, t, r);
      ByStep(s, Ack(r, t), 3, limit);
    }
  }

  ghost predicate SomeProductive(s: State, limit: nat) {
    exists r :: 0 <= r < |s| && Productive(s, r, 3, limit)
  }

  /** A queued request can be brought nearer to its flush. */
  lemma QueueProductive(s: State, r: nat, limit: nat)
    requires Loaded(s, r, limit) && AllAttended(s)
    ensures SomeProductive(s, limit)
  {
    InvPcsOk(s, limit);
    assert Attended(s, r);
    if s[r].pc.Requesting? {
      LoadedCaller(s, r, limit);
    } else if s[r].pc.Draining? {
      ByStep(s, Fetch(r), 3, limit);
    } else if s[r].pc.ReadingIpi? {
      ByStep(s, ReadIpi(r), 3, limit);
    } else if s[r].msip {
      ByStep(s, TakeIpi(r), 3, limit);
    } else if exists x :: Sending(s, x, r, SettingBit) {
      var x :| Sending(s, x, r, SettingBit);
      ByStep(s, SetBit(x), 3, limit);
    } else {
      var x :| Sending(s, x, r, Ringing);
      ByStep(s, Ring(x), 3, limit);
    }
  }

  lemma {:induction false} FindToken(s: State, n: nat, x: nat) returns (r: nat)
    requires n <= |s| && Total(s, n, x) > 0
    ensures r < n && Tokens(s[r], x) > 0
  {
    if Tokens(s[n - 1], x) > 0 {
      r := n - 1;
    } else {
      r := FindToken(s, n - 1, x);
    }
  }

  /** Some hart has a queued entry or one in hand. */
  lemma LoadProductive(s: State, r: nat, limit: nat)
    requires Inv(s, limit) && AllAttended(s) && r < |s| && (s[r].queue != [] || !s[r].work.NoEntry?)
    ensures SomeProductive(s, limit)
  {
    if s[r].work.NoEntry? {
      QueueProductive(s, r, limit);
    } else {
      WorkerProductive(s, r, limit);
    }
  }

  /** A hart whose sync word is set returns from its wait. */
  lemma SyncedProductive(s: State, x: nat, limit: nat)
    requires Inv(s, limit) && x < |s| && s[x].sync && s[x].work.NoEntry? && s[x].queue == []
    requires InStage(s[x], Polling) || (s[x].pc.Requesting? && s[x].pc.call.stage.HelpingPoll?)
    ensures Productive(s, x, 3, limit)
  {
    InvPcsOk(s, limit);
    if InStage(s[x], Polling) {
      ByStep(s, Poll(x), 3, limit);
    } else {
      StepKeepsInv(s, Fetch(x), limit);
      var s' := Do(s, Fetch(x), limit);
      ByStep(s', Poll(x), 2, limit);
      ByStep(s, Fetch(x), 3, limit);
    }
  }

  /** A hart that waits for its sync word: its token leads to a hart that can go on. */
  lemma PollerProductive(s: State, x: nat, limit: nat)
    requires Inv(s, limit) && AllAttended(s) && x < |s|
    requires InStage(s[x], Polling) || (s[x].pc.Requesting? && s[x].pc.call.stage.HelpingPoll?)
    ensures SomeProductive(s, limit)
  {
    assert Total(s, |s|, x) + Synced(s, x) == Expected(s, x);
    if s[x].queue != [] || !s[x].work.NoEntry? {
      LoadProductive(s, x, limit);
    } else if s[x].sync {
      SyncedProductive(s, x, limit);
    } else {
      var r := FindToken(s, |s|, x);
      LoadProductive(s, r, limit);
    }
  }

  lemma EnqueuerProductive(s: State, x: nat, limit: nat)
    requires Inv(s, limit) && AllAttended(s) && x < |s| && s[x].work.NoEntry? && s[x].queue == []
    requires InStage(s[x], Enqueuing) || (s[x].pc.Requesting? && s[x].pc.call.stage.HelpingEnqueue?)
    ensures SomeProductive(s, limit)
  {
    InvPcsOk(s, limit);
    var t := Target(s[x].pc.call);
    if s[t].queue != [] {
      LoadProductive(s, t, limit);
    } else if InStage(s[x], Enqueuing) {
      ByStep(s, Action.Enqueue(x), 3, limit);
    } else {
      StepKeepsInv(s, Fetch(x), limit);
      var s' := Do(s, Fetch(x), limit);
      assert s'[t].queue == [];
      ByStep(s', Action.Enqueue(x), 2, limit);
      ByStep(s, Fetch(x), 3, limit);
    }
  }

  /** Deadlock freedom: unless all harts are at rest, one of them, alone and within three steps, reduces the
      outstanding work. */
  lemma NoDeadlock(states: seq<State>, actions: seq<Action>, limit: nat, k: nat)
    requires Run(states, actions, limit) && k < |states| && !AtRest(states[k])
    ensures exists r :: 0 <= r < |states[k]| && Productive(states[k], r, 3, limit)
  {
    RunKeepsInv(states, actions, limit, k);
    NoLostEvent(states, actions, limit, k);
    RestlessProductive(states[k], limit);
  }

  lemma RestlessProductive(s: State, limit: nat)
    requires Inv(s, limit) && AllAttended(s) && !AtRest(s)
    ensures SomeProductive(s, limit)
  {
    InvPcsOk(s, limit);
    var x :| 0 <= x < |s| && !(s[x].pc.Idle? && s[x].queue == [] && s[x].work.NoEntry? && !s[x].msip);
    if s[x].queue != [] || !s[x].work.NoEntry? {
      LoadProductive(s, x, limit);
    } else {
      match s[x].pc
      case Idle => ByStep(s, TakeIpi(x), 3, limit);
      case ReadingIpi => ByStep(s, ReadIpi(x), 3, limit);
      case Draining => ByStep(s, Fetch(x), 3, limit);
      case Requesting(c) =>
        match c.stage
        case Updating => ByStep(s, Update(x), 3, limit);
        case Enqueuing => EnqueuerProductive(s, x, limit);
        case HelpingEnqueue(_) => EnqueuerProductive(s, x, limit);
        case SettingBit => ByStep(s, SetBit(x), 3, limit);
        case Ringing => ByStep(s, Ring(x), 3, limit);
        case Polling => PollerProductive(s, x, limit);
        case HelpingPoll(_) => PollerProductive(s, x, limit);
    }
  }

  /** How many of the steps from `m` to `n` are not turns of a waiting loop. */
  ghost function Useful(states: seq<State>, actions: seq<Action>, m: nat, n: nat): nat
    requires m <= n <= |actions| <= |states|
    decreases n
  {
    if m == n then 0
    else
      var s, a := states[n - 1], actions[n - 1];
      Useful(states, actions, m, n - 1) + Bit01(!(PcsOk(s) && a.hart < |s| && Spins(s, a)))
  }

  /** While no request starts, the useful steps are bounded by the work outstanding at the beginning. */
  lemma {:induction false} BoundedWork(states: seq<State>, actions: seq<Action>, limit: nat, m: nat, n: nat)
    requires Run(states, actions, limit) && m <= n < |states|
    requires forall k :: m <= k < n ==> !actions[k].Start?
    ensures Useful(states, actions, m, n) + Left(states[n]) <= Left(states[m])
    decreases n
  {
    if m < n {
      BoundedWork(states, actions, limit, m, n - 1);
      RunKeepsInv(states, actions, limit, n - 1);
      assert Enabled(states[n - 1], actions[n - 1], limit);
      StepWork(states[n - 1], actions[n - 1], limit);
    }
  }
}
