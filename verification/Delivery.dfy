/** How the records of one response reach the user's callback: one task each on the worker, or inline. */
module Delivery {
  import opened Batches

  // What the callback returns when it is invoked for the n-th time.
  type Callback = nat -> bool

  /** The records the callback was invoked with, and the flag `stopped`. */
  datatype Progress = Progress(calls: seq<ReadableRecord>, stopped: bool)

  /** The task that ReadRecord and ReadRecordV2 enqueue for a record. */
  function RunTask(p: Progress, record: ReadableRecord, callback: Callback): Progress {
    if p.stopped then p
    else
      var goOn := callback(|p.calls|);
      Progress(p.calls + [record], !goOn || record.last)
  }

  /** The queued form: every record has a task, and every task is run. */
  function RunTasks(p: Progress, records: seq<ReadableRecord>, callback: Callback): Progress {
    if records == [] then p
    else RunTask(RunTasks(p, records[..|records| - 1], callback), records[|records| - 1], callback)
  }

  /** Where the callback ends a list of records: it refuses, or the record is the last one. */
  predicate EndsAt(records: seq<ReadableRecord>, callback: Callback, first: nat, k: nat)
    requires k < |records|
  {
    !callback(first + k) || records[k].last
  }

  /** The records up to the first end, if there is one, and all of them otherwise. */
  ghost predicate IsDelivered(
    before: Progress, records: seq<ReadableRecord>, callback: Callback, after: Progress)
  {
    if before.stopped then after == before
    else
      exists n :: 0 <= n <= |records| && IsPrefixUpTo(before, records, callback, after, n)
  }

  ghost predicate IsPrefixUpTo(
    before: Progress, records: seq<ReadableRecord>, callback: Callback, after: Progress, n: nat)
    requires n <= |records|
  {
    && after.calls == before.calls + records[..n]
    && (forall k :: 0 <= k < n - 1 ==> !EndsAt(records, callback, |before.calls|, k))
    && (if after.stopped then n > 0 && EndsAt(records, callback, |before.calls|, n - 1)
        else n == |records| && (n > 0 ==> !EndsAt(records, callback, |before.calls|, n - 1)))
  }

  /** RunCallbacksInline; `calls` are the records of earlier responses, and of this one in the end. */
  method RunCallbacksInline(records: seq<ReadableRecord>, callback: Callback, before: Progress)
    returns (calls: seq<ReadableRecord>, stopped: bool)
    ensures IsDelivered(before, records, callback, Progress(calls, stopped))
  {
    calls, stopped := before.calls, before.stopped;
    ghost var n := 0;
    assert before.calls + records[..0] == before.calls;
    for k := 0 to |records|
      invariant n == k
      invariant before.stopped ==> Progress(calls, stopped) == before
      invariant !before.stopped ==>
                  && calls == before.calls + records[..k]
                  && (forall j :: 0 <= j < k - 1 ==> !EndsAt(records, callback, |before.calls|, j))
                  && (stopped <==> k > 0 && EndsAt(records, callback, |before.calls|, k - 1))
    {
      if stopped {
        break;
      }
      assert before.calls + records[..k + 1] == before.calls + records[..k] + [records[k]];
      stopped := !callback(|calls|);
      calls := calls + [records[k]];
      if !stopped {
        stopped := records[k].last;
      }
      n := n + 1;
    }
    assert !before.stopped ==> IsPrefixUpTo(before, records, callback, Progress(calls, stopped), n);
  }

  /** Only one outcome is a delivery. */
  lemma {:induction false} DeliveryIsUnique(
    before: Progress, records: seq<ReadableRecord>, callback: Callback, a: Progress, b: Progress)
    requires IsDelivered(before, records, callback, a) && IsDelivered(before, records, callback, b)
    ensures a == b
  {
    if !before.stopped {
      var m :| 0 <= m <= |records| && IsPrefixUpTo(before, records, callback, a, m);
      var n :| 0 <= n <= |records| && IsPrefixUpTo(before, records, callback, b, n);
    }
  }

  /** The task-per-record form delivers the same records and leaves the same flag. */
  lemma {:induction false} QueuedIsDelivery(before: Progress, records: seq<ReadableRecord>, callback: Callback)
    ensures IsDelivered(before, records, callback, RunTasks(before, records, callback))
  {
    if records == [] {
      assert before.calls + records[..0] == before.calls;
      assert IsPrefixUpTo(before, records, callback, before, 0) || before.stopped;
    } else {
      var m := |records| - 1;
      var mid := RunTasks(before, records[..m], callback);
      QueuedIsDelivery(before, records[..m], callback);
      if !before.stopped {
        var n :| 0 <= n <= m && IsPrefixUpTo(before, records[..m], callback, mid, n);
        OneMoreTask(before, records, callback, mid, n);
      }
    }
  }

  /** Queued and inline delivery invoke the callback on the same records and leave the same flag. */
  lemma {:induction false} QueuedEqualsInline(
    before: Progress, records: seq<ReadableRecord>, callback: Callback, inline: Progress)
    requires IsDelivered(before, records, callback, inline)
    ensures inline == RunTasks(before, records, callback)
  {
    QueuedIsDelivery(before, records, callback);
    DeliveryIsUnique(before, records, callback, inline, RunTasks(before, records, callback));
  }

  lemma {:induction false} OneMoreTask(
    before: Progress, records: seq<ReadableRecord>, callback: Callback, mid: Progress, n: nat)
    requires records != [] && !before.stopped && n < |records|
    requires IsPrefixUpTo(before, records[..|records| - 1], callback, mid, n)
    ensures IsDelivered(before, records, callback, RunTask(mid, records[|records| - 1], callback))
  {
    var m := |records| - 1;
    var after := RunTask(mid, records[m], callback);
    assert records[..m][..n] == records[..n];
    assert forall k :: 0 <= k < m ==>
        EndsAt(records[..m], callback, |before.calls|, k) == EndsAt(records, callback, |before.calls|, k);
    if mid.stopped {
      assert IsPrefixUpTo(before, records, callback, after, n);
    } else {
      assert before.calls + records[..m + 1] == before.calls + records[..m] + [records[m]];
      assert IsPrefixUpTo(before, records, callback, after, m + 1);
    }
  }

  /** Delivering one list after the other is delivering their concatenation. */
  lemma {:induction false} TasksAppend(p: Progress, a: seq<ReadableRecord>, b: seq<ReadableRecord>, callback: Callback)
    ensures RunTasks(p, a + b, callback) == RunTasks(RunTasks(p, a, callback), b, callback)
  {
    if b == [] {
      assert a + b == a;
    } else {
      var n := |b| - 1;
      assert (a + b)[..|a + b| - 1] == a + b[..n];
      assert (a + b)[|a + b| - 1] == b[n];
      TasksAppend(p, a, b[..n], callback);
    }
  }
}
