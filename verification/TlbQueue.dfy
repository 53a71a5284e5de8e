/**
 What a remote fence request does to the queue of its target, in every run of the protocol: when it is coalesced and
 with which entry, when it is appended, and how many entries a caller handles for itself while it waits.
 */
module TlbQueue {
  import opened Fifo
  import opened TlbInfo
  import opened TlbProtocol
  import opened TlbSafety

  // ---- One request ----

  /** Entry `m` is the first with which the request coalesces. */
  ghost predicate FirstPartner(queue: seq<Info>, m: nat, info: Info) {
    m < |queue| && Coalesces(info, queue[m]) && forall j :: 0 <= j < m ==> !Coalesces(info, queue[j])
  }

  /** A queue of plain entries after the scan for a plain request. */
  lemma ScanExactly(queue: seq<Info>, info: Info)
    requires EntryPlain(info) && forall j :: 0 <= j < |queue| ==> EntryPlain(queue[j])
    ensures var (ret, now) := ScanUpdate(queue, 0, info, UpdateCb);
            && (ret == Unchanged <==> forall j :: 0 <= j < |queue| ==> !Coalesces(info, queue[j]))
            && (ret == Unchanged ==> now == queue)
            && (ret != Unchanged ==> exists m: nat :: FirstPartner(queue, m, info) && now == queue[m := Coalesced(info, queue[m])])
  {
    forall e | e in queue
      ensures UpdateCb(info, e).0 != Unchanged <==> Coalesces(info, e)
      ensures UpdateCb(info, e).1 == if Coalesces(info, e) then Coalesced(info, e) else e
    {
      CoalesceExactly(info, e);
    }
    hide UpdateCb, Coalesces, Coalesced, EntryPlain;
    ScanUpdateFirst(queue, 0, info, UpdateCb);
    var (ret, now) := ScanUpdate(queue, 0, info, UpdateCb);
    if ret != Unchanged {
      var k: nat :| FirstAccepted(queue, k, info, UpdateCb) && UpdateCb(info, queue[k]).0 == ret && now == queue[k := UpdateCb(info, queue[k]).1];
      assert queue[k] in queue;
      forall j | 0 <= j < k ensures !Coalesces(info, queue[j]) {
        assert queue[j] in queue;
      }
      assert FirstPartner(queue, k, info);
    }
  }

  /** The target of a hart's call, and the request as it is posted. */
  function TargetOf(s: State, i: nat): nat
    requires PcsOk(s) && i < |s| && s[i].pc.Requesting?
  {
    Target(s[i].pc.call)
  }

  function Request(s: State, i: nat, limit: nat): Info
    requires i < |s| && s[i].pc.Requesting?
  {
    Upgrade(s[i].pc.call.info, limit)
  }

  /** The caller has posted: it goes on to signal. */
  predicate HasPosted(s: State, i: nat) { i < |s| && InStage(s[i], SettingBit) }

  /** `sbi_fifo_inplace_update` on the queue of another hart. */
  lemma UpdateQueue(s: State, a: Action, limit: nat)
    requires Inv(s, limit) && Enabled(s, a, limit) && a.Update? && TargetOf(s, a.hart) != a.hart
    ensures var i, t, s' := a.hart, TargetOf(s, a.hart), Do(s, a, limit);
            var q, info := s[t].queue, Request(s, i, limit);
            && |s'| == |s|
            && (if exists j :: 0 <= j < |q| && Coalesces(info, q[j]) then
                  HasPosted(s', i) && exists m: nat :: FirstPartner(q, m, info) && s'[t].queue == q[m := Coalesced(info, q[m])]
                else s'[t].queue == q && InStage(s'[i], Enqueuing))
  {
    var i, t := a.hart, TargetOf(s, a.hart);
    assert CallInv(s, i, limit) && HartOk(s, t);
    var q, info := s[t].queue, Request(s, i, limit);
    forall j | 0 <= j < |q| ensures EntryPlain(q[j]) {
      assert EntryOk(s, t, q[j]);
    }
    ScanExactly(q, info);
  }

  /** In every run: a request is coalesced with the first queued entry that it can be coalesced with, so that the queue
      does not grow; without one the caller goes on to append it. */
  lemma RequestCoalesces(states: seq<State>, actions: seq<Action>, limit: nat, k: nat)
    requires Run(states, actions, limit) && k < |actions| && actions[k].Update?
    requires PcsOk(states[k]) && actions[k].hart < |states[k]| && states[k][actions[k].hart].pc.Requesting?
    requires TargetOf(states[k], actions[k].hart) != actions[k].hart
    ensures var i, t, s' := actions[k].hart, TargetOf(states[k], actions[k].hart), states[k + 1];
            var q, info := states[k][t].queue, Request(states[k], i, limit);
            && |s'| == |states[k]| && |s'[t].queue| == |q|
            && (if exists j :: 0 <= j < |q| && Coalesces(info, q[j]) then
                  HasPosted(s', i) && exists m: nat :: FirstPartner(q, m, info) && s'[t].queue == q[m := Coalesced(info, q[m])]
                else s'[t].queue == q && InStage(s'[i], Enqueuing))
  {
    RunKeepsInv(states, actions, limit, k);
    RunStep(states, actions, limit, k);
    UpdateQueue(states[k], actions[k], limit);
  }

  /** In every run: it is appended unless the queue holds 8 entries, and then the caller handles entries of its own. */
  lemma RequestAppends(states: seq<State>, actions: seq<Action>, limit: nat, k: nat)
    requires Run(states, actions, limit) && k < |actions| && actions[k].Enqueue?
    requires PcsOk(states[k]) && actions[k].hart < |states[k]| && states[k][actions[k].hart].pc.Requesting?
    ensures var i, t, s' := actions[k].hart, TargetOf(states[k], actions[k].hart), states[k + 1];
            var q, info := states[k][t].queue, Request(states[k], i, limit);
            && |s'| == |states[k]| && |q| <= 8 && t != i
            && (if |q| < 8 then s'[t].queue == q + [info] && HasPosted(s', i)
                else s'[t].queue == q && InStage(s'[i], HelpingEnqueue(0)))
  {
    RunKeepsInv(states, actions, limit, k);
    RunStep(states, actions, limit, k);
    assert CallInv(states[k], actions[k].hart, limit) && HartOk(states[k], TargetOf(states[k], actions[k].hart));
  }

  /** In every run a hart that is idle may ask for any acceptable flush at any harts, and takes an IPI that is pending. */
  lemma IdleActs(states: seq<State>, actions: seq<Action>, limit: nat, k: nat, i: nat, request: Info, targets: seq<nat>)
    requires Run(states, actions, limit) && k < |states| && i < |states[k]| && states[k][i].pc == Idle
    requires Acceptable(request, i, limit) && targets != [] && forall j :: 0 <= j < |targets| ==> targets[j] < |states[k]|
    ensures Enabled(states[k], Start(i, request, targets), limit)
    ensures states[k][i].msip ==> Enabled(states[k], TakeIpi(i), limit)
  {
    RunKeepsInv(states, actions, limit, k);
    forall h | 0 <= h < |states[k]| && states[k][h].pc.Requesting? ensures CallOk(states[k][h].pc.call, |states[k]|) {
      assert CallInv(states[k], h, limit);
    }
  }

  // ---- Entries handled while waiting ----

  function HelpCount(h: Hart): nat
    requires Helping(h)
  {
    h.pc.call.stage.done
  }

  /** The entries that hart `i` takes from its queue from state `m` up to state `n`. */
  ghost function Taken(states: seq<State>, actions: seq<Action>, m: nat, n: nat, i: nat): nat
    requires m <= n <= |actions| < |states| && forall k :: 0 <= k < |states| ==> i < |states[k]|
    decreases n
  {
    if n == m then 0
    else Taken(states, actions, m, n - 1, i) + if actions[n - 1] == Fetch(i) && states[n - 1][i].queue != [] && states[n][i].work.Flushing? then 1 else 0
  }

  lemma SameHarts(states: seq<State>, actions: seq<Action>, limit: nat, k: nat)
    requires Run(states, actions, limit) && k < |states|
    ensures |states[k]| == |states[0]|
  {
    if k > 0 {
      SameHarts(states, actions, limit, k - 1);
      RunStep(states, actions, limit, k - 1);
      StepGrowsLogs(states[k - 1], actions[k - 1], limit);
    }
  }

  lemma HelpStep(s: State, a: Action, limit: nat, i: nat)
    requires Enabled(s, a, limit) && i < |s| && Helping(s[i])
    ensures |Do(s, a, limit)| == |s|
    ensures HelpMoves(s, a, Do(s, a, limit), i)
  {
    if a.hart == i {
      OwnHelp(s, a, limit);
    } else {
      hide Enabled, Do;
      StepGrowsLogs(s, a, limit);
      OthersKeepPc(s, a, limit, i);
    }
  }

  /** A fetch that finds an entry counts it, the third ends the help, and so does one that finds none. */
  predicate HelpMoves(s: State, a: Action, s': State, i: nat)
    requires i < |s| == |s'| && Helping(s[i])
  {
    if Helping(s'[i]) then
      HelpCount(s'[i]) == HelpCount(s[i]) + (if a == Fetch(i) && s[i].queue != [] && s'[i].work.Flushing? then 1 else 0)
      && (HelpCount(s'[i]) > HelpCount(s[i]) ==> HelpCount(s[i]) <= 1)
    else a == Fetch(i) && (HelpCount(s[i]) > 1 || s[i].queue == [])
  }

  lemma OwnHelp(s: State, a: Action, limit: nat)
    requires Enabled(s, a, limit) && a.hart < |s| && Helping(s[a.hart])
    ensures |Do(s, a, limit)| == |s| && HelpMoves(s, a, Do(s, a, limit), a.hart)
  {
    hide Acceptable;
  }

  /** From the moment when hart `i` begins to help itself until it goes on, it takes two entries, unless it finds its
      queue empty before. */
  lemma {:induction false} HelpsTwice(states: seq<State>, actions: seq<Action>, limit: nat, m: nat, n: nat, i: nat)
    requires Run(states, actions, limit) && m <= n <= |actions| && i < |states[0]|
    requires forall k :: m <= k <= n ==> i < |states[k]| && Helping(states[k][i])
    requires HelpCount(states[m][i]) == 0
    ensures forall k :: 0 <= k < |states| ==> i < |states[k]|
    ensures HelpCount(states[n][i]) == Taken(states, actions, m, n, i) <= 2
    ensures n < |actions| && !Helping(states[n + 1][i]) ==> Taken(states, actions, m, n, i) == 2 || states[n][i].queue == []
    decreases n
  {
    hide Inv, Enabled, Do, Helping;
    forall k | 0 <= k < |states| ensures i < |states[k]| {
      SameHarts(states, actions, limit, k);
    }
    if m < n {
      HelpsTwice(states, actions, limit, m, n - 1, i);
      RunKeepsInv(states, actions, limit, n - 1);
      RunStep(states, actions, limit, n - 1);
      HelpStep(states[n - 1], actions[n - 1], limit, i);
    }
    if n < |actions| {
      RunKeepsInv(states, actions, limit, n);
      RunStep(states, actions, limit, n);
      HelpStep(states[n], actions[n], limit, i);
    }
  }
}
