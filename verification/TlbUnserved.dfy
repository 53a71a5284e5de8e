/**
 Which requests are served in every run: exactly those that coalesce safely once they are upgraded. Any other one
 takes part in a run of three harts in which a request is absorbed by a queued one that does not cover it, so that
 its call returns although the target has not flushed all that it asked for.
 */
module TlbUnserved {
  import opened Fifo
  import opened TlbInfo
  import opened TlbProtocol
  import opened TlbSafety

  // ---- A run in which a request is lost ----

  /** Hart 0 asks for `a`, and hart 2 for `b`, which `a` absorbs without covering it. */
  ghost predicate Lossy(a: Info, b: Info, limit: nat) {
    && WordSized(a) && WordSized(b) && a.smask == {0} && b.smask == {2}
    && a.size <= limit && b.size <= limit && Loss(b, a)
  }

  /** The entry of the first with both waiters. */
  function Absorbing(a: Info): Info { a.(smask := {0, 2}) }

  function Resting(log: seq<Info>): Hart { Hart([], false, false, false, Idle, NoEntry, log) }

  function Caller(info: Info, stage: Stage, posted: seq<nat>, sync: bool): Hart {
    Hart([], sync, false, false, Requesting(Call(info, info, [1], 0, stage, posted)), NoEntry, [])
  }

  /** The hart that flushes. */
  function Flusher(queue: seq<Info>, ipi: bool, msip: bool, pc: Pc, work: Work, log: seq<Info>): Hart {
    Hart(queue, false, ipi, msip, pc, work, log)
  }

  const LENGTH: nat := 13

  function Deed(a: Info, b: Info, k: nat): Action {
    if k == 0 then Start(0, a, [1]) else if k == 1 then Update(0) else if k == 2 then Enqueue(0)
    else if k == 3 then Start(2, b, [1]) else if k == 4 then Update(2) else if k == 5 then SetBit(2)
    else if k == 6 then Ring(2) else if k == 7 then TakeIpi(1) else if k == 8 then ReadIpi(1)
    else if k == 9 then Fetch(1) else if k == 10 then Flush(1) else if k == 11 then Ack(1, 2) else Poll(2)
  }

  /** The first caller, which stays at its post. */
  function First(a: Info, k: nat): Hart {
    if k == 0 then Resting([])
    else if k == 1 then Caller(a, Updating, [], false)
    else if k == 2 then Caller(a, Enqueuing, [], false)
    else Caller(a, SettingBit, [0], false)
  }

  function Middle(a: Info, k: nat): Hart {
    var both := Absorbing(a);
    if k <= 2 then Resting([])
    else if k <= 4 then Flusher([a], false, false, Idle, NoEntry, [])
    else if k == 5 then Flusher([both], false, false, Idle, NoEntry, [])
    else if k == 6 then Flusher([both], true, false, Idle, NoEntry, [])
    else if k == 7 then Flusher([both], true, true, Idle, NoEntry, [])
    else if k == 8 then Flusher([both], true, false, ReadingIpi, NoEntry, [])
    else if k == 9 then Flusher([both], false, false, Draining, NoEntry, [])
    else if k == 10 then Flusher([], false, false, Draining, Flushing(both), [])
    else if k == 11 then Flusher([], false, false, Draining, Acking({0, 2}), [both])
    else Flusher([], false, false, Draining, Acking({0}), [both])
  }

  /** The second caller, whose request is absorbed. */
  function Second(b: Info, k: nat): Hart {
    if k <= 3 then Resting([])
    else if k == 4 then Caller(b, Updating, [], false)
    else if k == 5 then Caller(b, SettingBit, [0], false)
    else if k == 6 then Caller(b, Ringing, [0], false)
    else if k <= 11 then Caller(b, Polling, [0], false)
    else if k == 12 then Caller(b, Polling, [0], true)
    else Resting([])
  }

  function Moment(a: Info, b: Info, k: nat): State { [First(a, k), Middle(a, k), Second(b, k)] }

  ghost predicate Leads(a: Info, b: Info, k: nat, limit: nat) {
    && Possible(Moment(a, b, k), Deed(a, b, k), limit)
    && Do(Moment(a, b, k), Deed(a, b, k), limit) == Moment(a, b, k + 1)
  }

  lemma FirstSteps(a: Info, b: Info, k: nat, limit: nat)
    requires k <= 2 && Lossy(a, b, limit)
    ensures Leads(a, b, k, limit)
  {
    hide Loss, UpdateCb;
    assert [] + [a] == [a] && [] + [0] == [0];
    if k == 1 {
      assert ScanUpdate([], 0, a, UpdateCb) == (Unchanged, []);
      assert Do(Moment(a, b, 1), Deed(a, b, 1), limit) == Moment(a, b, 2);
    }
  }

  lemma SecondSteps(a: Info, b: Info, k: nat, limit: nat)
    requires 3 <= k <= 4 && Lossy(a, b, limit)
    ensures Leads(a, b, k, limit)
  {
    if k == 4 {
      LossUnsafe(b, a);
      assert UpdateCb(b, a).0 == Skip;
      hide Loss, UpdateCb;
      assert {0} + {2} == {0, 2} && [] + [0] == [0];
      assert UpdateCb(b, a) == (Skip, Absorbing(a));
      assert [a][0 := Absorbing(a)] == [Absorbing(a)];
      assert ScanUpdate([a], 0, b, UpdateCb) == (Skip, [Absorbing(a)]);
    }
  }

  lemma SignalSteps(a: Info, b: Info, k: nat, limit: nat)
    requires 5 <= k <= 8
    ensures Leads(a, b, k, limit)
  {
  }

  lemma FlushSteps(a: Info, b: Info, k: nat, limit: nat)
    requires 9 <= k <= 12
    ensures Leads(a, b, k, limit)
  {
    var both := Absorbing(a);
    assert [both][1..] == [] && [] + [both] == [both] && {0, 2} - {2} == {0};
  }

  /** Hart 2 is in its call from state 4 to state 12, and back from it in state 13. Hart 1 has by then flushed
      nothing that covers what it asked for. */
  lemma Unserved(a: Info, b: Info, limit: nat) returns (states: seq<State>, actions: seq<Action>)
    requires Lossy(a, b, limit)
    ensures AnyRun(states, actions, limit) && |actions| == LENGTH
    ensures forall k :: 0 <= k < LENGTH ==> actions[k] == Deed(a, b, k)
    ensures forall k :: 3 < k < 13 ==> |states[k]| == 3 && states[k][2].pc.Requesting?
    ensures |states[13]| == 3 && states[13][2].pc.Idle?
    ensures |states[13][1].log| == 1 && !Covers(states[13][1].log[0], b)
  {
    states := seq(LENGTH + 1, (k: nat) => Moment(a, b, k));
    actions := seq(LENGTH, (k: nat) => Deed(a, b, k));
    forall k | 0 <= k < LENGTH
      ensures Possible(states[k], actions[k], limit) && states[k + 1] == Do(states[k], actions[k], limit)
    {
      hide Do, Possible, Lossy;
      if k <= 2 {
        FirstSteps(a, b, k, limit);
      } else if k <= 4 {
        SecondSteps(a, b, k, limit);
      } else if k <= 8 {
        SignalSteps(a, b, k, limit);
      } else {
        FlushSteps(a, b, k, limit);
      }
    }
    assert states[13] == Moment(a, b, 13);
    SameFlushes(a, Absorbing(a));
  }

  // ---- Exactly which requests are served ----

  /** A run whose callers ask for acceptable ranges, or for that of `request`. */
  ghost predicate RunWith(states: seq<State>, actions: seq<Action>, limit: nat, request: Info) {
    && AnyRun(states, actions, limit)
    && forall k :: 0 <= k < |actions| && actions[k].Start? ==>
         Acceptable(actions[k].request, actions[k].hart, limit) || actions[k].request == request.(smask := {actions[k].hart})
  }

  /** The call that begins with action `m` returns with state `n`. */
  ghost predicate Returns(states: seq<State>, actions: seq<Action>, m: nat, n: nat) {
    && m < |actions| && m + 1 < n < |states| && actions[m].Start?
    && (forall k :: m < k < n ==> actions[m].hart < |states[k]| && states[k][actions[m].hart].pc.Requesting?)
    && actions[m].hart < |states[n]| && states[n][actions[m].hart].pc.Idle?
  }

  ghost predicate ServedCall(states: seq<State>, actions: seq<Action>, m: nat, n: nat)
    requires Returns(states, actions, m, n)
  {
    forall j :: 0 <= j < |actions[m].targets| ==>
      ServedOncePosted(states, actions[m].hart, m, n, j, actions[m].targets[j], actions[m].request)
  }

  /** Every call that returns is served. */
  ghost predicate AllServed(states: seq<State>, actions: seq<Action>) {
    forall m, n :: Returns(states, actions, m, n) ==> ServedCall(states, actions, m, n)
  }

  ghost predicate Serves(request: Info, limit: nat) {
    forall states, actions :: RunWith(states, actions, limit, request) ==> AllServed(states, actions)
  }

  /** Among callers that are careful otherwise, every call that returns is served in every run exactly when the
      request is plain once it is upgraded. */
  lemma ServedExactly(request: Info, limit: nat)
    requires WordSized(request) && Coalescable(request.fn) && PAGE <= limit
    ensures Serves(request, limit) <==> Plain(Upgrade(request, limit))
  {
    if Plain(Upgrade(request, limit)) {
      forall states, actions | RunWith(states, actions, limit, request) ensures AllServed(states, actions) {
        PlainServed(request, limit, states, actions);
      }
    } else {
      var states, actions := Counterrun(request, limit);
      assert !AllServed(states, actions);
    }
  }

  lemma PlainServed(request: Info, limit: nat, states: seq<State>, actions: seq<Action>)
    requires WordSized(request) && Plain(Upgrade(request, limit)) && RunWith(states, actions, limit, request)
    ensures AllServed(states, actions)
  {
    PlainRuns(request, limit, states, actions);
    hide Run, RunWith, Returns, ServedCall;
    forall m, n | Returns(states, actions, m, n) ensures ServedCall(states, actions, m, n) {
      PlainServedCall(limit, states, actions, m, n);
    }
  }

  lemma PlainServedCall(limit: nat, states: seq<State>, actions: seq<Action>, m: nat, n: nat)
    requires Run(states, actions, limit) && Returns(states, actions, m, n)
    ensures ServedCall(states, actions, m, n)
  {
    hide Run, ServedOncePosted;
    RequestServed(states, actions, limit, m, n);
  }

  lemma PlainRuns(request: Info, limit: nat, states: seq<State>, actions: seq<Action>)
    requires WordSized(request) && Plain(Upgrade(request, limit)) && RunWith(states, actions, limit, request)
    ensures Run(states, actions, limit)
  {
    hide Do, Plain;
    forall k | 0 <= k < |actions| && actions[k].Start? ensures Acceptable(actions[k].request, actions[k].hart, limit) {
      SamePlain(Upgrade(request, limit), {actions[k].hart});
    }
    assert forall k :: 0 <= k < |actions| ==> Enabled(states[k], actions[k], limit);
  }

  lemma SamePlain(i: Info, smask: set<nat>)
    ensures Plain(i.(smask := smask)) <==> Plain(i)
  {
  }

  /** The run for a request that is not plain and the request that it loses or that it makes lose. */
  lemma Counterrun(request: Info, limit: nat) returns (states: seq<State>, actions: seq<Action>)
    requires WordSized(request) && Coalescable(request.fn) && PAGE <= limit && !Plain(Upgrade(request, limit))
    ensures RunWith(states, actions, limit, request) && !AllServed(states, actions)
  {
    var other, queued := Loser(request);
    var a := (if queued then request else other).(smask := {0});
    var b := (if queued then other else request).(smask := {2});
    SameLoss(if queued then other else request, if queued then request else other, b, a);
    states, actions := Unserved(a, b, limit);
    AskedFor(request, other, queued, limit);
    assert RunWith(states, actions, limit, request) by {
      hide AnyRun, Acceptable, Loss;
      forall k | 0 <= k < |actions| && actions[k].Start?
        ensures Acceptable(actions[k].request, actions[k].hart, limit) || actions[k].request == request.(smask := {actions[k].hart})
      {
        assert actions[k] == Deed(a, b, k);
        assert k == 0 || k == 3;
      }
    }
    LostCall(states, actions, b);
  }

  lemma SameLoss(next: Info, curr: Info, next': Info, curr': Info)
    requires Loss(next, curr) && next' == next.(smask := next'.smask) && curr' == curr.(smask := curr'.smask)
    ensures Loss(next', curr')
  {
    SameFlushes(next, next');
    SameFlushes(curr, curr');
    hide Flushes;
    var c :| Flushes(next, c) && !Flushes(curr, c);
    assert Flushes(next', c) && !Flushes(curr', c);
  }

  /** What the two callers ask for. */
  lemma AskedFor(request: Info, other: Info, queued: bool, limit: nat)
    requires Plain(other) && WordSized(other) && other.size <= PAGE <= limit
    ensures forall h: nat :: Acceptable(other.(smask := {h}), h, limit)
  {
    forall h: nat ensures Acceptable(other.(smask := {h}), h, limit) {
      SamePlain(other, {h});
    }
  }

  lemma LostCall(states: seq<State>, actions: seq<Action>, b: Info)
    requires |actions| == LENGTH && |states| == LENGTH + 1 && actions[3] == Start(2, b, [1])
    requires forall k :: 3 < k < 13 ==> |states[k]| == 3 && states[k][2].pc.Requesting?
    requires |states[13]| == 3 && states[13][2].pc.Idle?
    requires |states[13][1].log| == 1 && !Covers(states[13][1].log[0], b)
    ensures !AllServed(states, actions)
  {
    hide Covers;
    assert Returns(states, actions, 3, 13);
    assert !ServedOncePosted(states, 2, 3, 13, 0, [1][0], b);
    assert !ServedCall(states, actions, 3, 13);
  }

  const PAGE_FLUSH: Info := Info(0, PAGE, 0, 0, SfenceVma, {0})
  const WHOLE_FLUSH: Info := Info(0, 0, 0, 0, SfenceVma, {2})

  /** For example, a request of the (0, 0) form is absorbed by one for the first page. */
  lemma WholeFlushUnserved(limit: nat) returns (states: seq<State>, actions: seq<Action>)
    requires PAGE <= limit
    ensures AnyRun(states, actions, limit) && |actions| == LENGTH && actions[3] == Start(2, WHOLE_FLUSH, [1])
    ensures forall k :: 3 < k < 13 ==> |states[k]| == 3 && states[k][2].pc.Requesting?
    ensures |states[13]| == 3 && states[13][2].pc.Idle?
    ensures !FlushedBetween(states[0], states[13], 1, WHOLE_FLUSH)
  {
    assert Loss(WHOLE_FLUSH, PAGE_FLUSH) by {
      assert Flushes(WHOLE_FLUSH, Supervisor(0, 1)) && !Flushes(PAGE_FLUSH, Supervisor(0, 1));
    }
    states, actions := Unserved(PAGE_FLUSH, WHOLE_FLUSH, limit);
  }
}
