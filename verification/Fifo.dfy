/**
 The queue of lib/sbi/sbi_fifo.c: a ring buffer whose every operation runs under the queue lock, so
 that each is one step.  The ring refines a bounded sequence.
 */
module Fifo {

  /** `enum sbi_fifo_inplace_update_types`. */
  datatype UpdateResult = Skip | Updated | Unchanged

  /** What `sbi_fifo_inplace_update` does to the queued entries from place `i` on: the callback sees them
      oldest first, may rewrite each in place, and ends the scan by answering anything but Unchanged. */
  function ScanUpdate<T>(entries: seq<T>, i: nat, next: T, f: (T, T) -> (UpdateResult, T)): (r: (UpdateResult, seq<T>))
    requires i <= |entries|
    ensures |r.1| == |entries|
    decreases |entries| - i
  {
    if i == |entries| then (Unchanged, entries)
    else
      var (ret, curr) := f(next, entries[i]);
      if ret != Unchanged then (ret, entries[i := curr])
      else ScanUpdate(entries[i := curr], i + 1, next, f)
  }

  /** Entry `i` is the first that the callback accepts. */
  ghost predicate FirstAccepted<T>(entries: seq<T>, i: nat, next: T, f: (T, T) -> (UpdateResult, T)) {
    && i < |entries|
    && f(next, entries[i]).0 != Unchanged
    && forall j :: 0 <= j < i ==> f(next, entries[j]).0 == Unchanged
  }

  /** When the callback leaves alone what it refuses, the scan rewrites the first entry that it accepts
      and nothing else; with no such entry it changes nothing and answers Unchanged. */
  lemma {:induction false} ScanUpdateFirst<T>(entries: seq<T>, i: nat, next: T, f: (T, T) -> (UpdateResult, T))
    requires i <= |entries|
    requires forall x :: x in entries && f(next, x).0 == Unchanged ==> f(next, x).1 == x
    requires forall j :: 0 <= j < i ==> f(next, entries[j]).0 == Unchanged
    ensures var (ret, now) := ScanUpdate(entries, i, next, f);
            if ret == Unchanged then
              now == entries && forall x :: x in entries ==> f(next, x).0 == Unchanged
            else
              exists k: nat :: FirstAccepted(entries, k, next, f)
                && f(next, entries[k]).0 == ret && now == entries[k := f(next, entries[k]).1]
    decreases |entries| - i
  {
    if i < |entries| {
      if f(next, entries[i]).0 == Unchanged {
        assert entries[i := f(next, entries[i]).1] == entries;
        ScanUpdateFirst(entries, i + 1, next, f);
      } else {
        assert FirstAccepted(entries, i, next, f);
      }
    }
  }

  class Ring<T(0)> {
    const queue: array<T>
    var avail: nat
    var tail: nat

    ghost predicate Valid()
      reads this
    {
      avail <= queue.Length && (tail < queue.Length || tail == 0)
    }

    /** The slot of the entry `i` places behind the oldest. */
    function Slot(i: nat): (s: nat)
      reads this
      requires Valid() && i < queue.Length
      ensures s < queue.Length
    {
      if tail + i >= queue.Length then tail + i - queue.Length else tail + i
    }

    ghost function Contents(): (s: seq<T>)
      reads this, queue
      requires Valid()
      ensures |s| == avail
    {
      seq(avail, i requires 0 <= i < avail reads this, queue requires Valid() => queue[Slot(i)])
    }

    /** `sbi_fifo_init`. */
    constructor (entries: nat)
      ensures Valid() && fresh(queue) && queue.Length == entries && Contents() == []
    {
      queue := new T[entries];
      avail, tail := 0, 0;
    }

    method IsFull() returns (full: bool)
      requires Valid()
      ensures full <==> |Contents()| == queue.Length
    {
      full := avail == queue.Length;
    }

    /** `sbi_fifo_enqueue`: refused, with SBI_ENOSPC, exactly when the queue is full. */
    method Enqueue(data: T) returns (ok: bool)
      requires Valid()
      modifies this, queue
      ensures Valid()
      ensures ok <==> |old(Contents())| < queue.Length
      ensures Contents() == if ok then old(Contents()) + [data] else old(Contents())
    {
      var full := IsFull();
      if full {
        return false;
      }
      var head := Slot(avail);
      queue[head] := data;
      avail := avail + 1;
      return true;
    }

    /** `sbi_fifo_dequeue`: refused, with SBI_ENOENT, exactly when the queue is empty. */
    method Dequeue() returns (ok: bool, data: T)
      requires Valid()
      modifies this
      ensures Valid()
      ensures ok <==> old(Contents()) != []
      ensures if ok then old(Contents()) == [data] + Contents() else Contents() == old(Contents())
    {
      if avail == 0 {
        data := *;
        return false, data;
      }
      data := queue[tail];
      avail := avail - 1;
      tail := tail + 1;
      if tail >= queue.Length {
        tail := 0;
      }
      ok := true;
    }

    /** `sbi_fifo_inplace_update`. */
    method InplaceUpdate(next: T, f: (T, T) -> (UpdateResult, T)) returns (ret: UpdateResult)
      requires Valid()
      modifies queue
      ensures Valid()
      ensures (ret, Contents()) == ScanUpdate(old(Contents()), 0, next, f)
    {
      ghost var was := Contents();
      var i := 0;
      while i < avail
        invariant 0 <= i <= avail && Valid()
        invariant ScanUpdate(Contents(), i, next, f) == ScanUpdate(was, 0, next, f)
      {
        ghost var before := Contents();
        var slot := Slot(i);
        assert queue[slot] == before[i];
        var (r, curr) := f(next, queue[slot]);
        queue[slot] := curr;
        assert Contents() == before[i := curr];
        if r != Unchanged {
          return r;
        }
        i := i + 1;
      }
      ret := Unchanged;
    }
  }
}
