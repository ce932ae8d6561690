/** The loops of QueryV1 and QueryV2 over the answers of the server. */
module QueryLoop {
  import opened Batches
  import opened Delivery

  // The status of a reply that has nothing yet, or nothing any more.
  const NO_CONTENT := 204

  /** One answer of the server: the records of a batch, or an error code that is not zero. */
  datatype Reply = Batch(records: seq<ReadableRecord>) | Failure(code: int)

  predicate RealReply(reply: Reply) {
    reply.Failure? ==> reply.code != 0
  }

  predicate RealReplies(replies: seq<Reply>) {
    forall i :: 0 <= i < |replies| ==> RealReply(replies[i])
  }

  /** How a query ended: not yet, with Error::kOk, or with the error of a reply. */
  datatype End = Running | Ok | Err(code: int)

  /** The requests sent, and what has happened to the callback. */
  datatype Query = Query(sent: nat, progress: Progress, end: End)

  const FRESH := Query(0, Progress([], false), Running)

  function RecordsIn(reply: Reply): seq<ReadableRecord> {
    if reply.Batch? then reply.records else []
  }

  /** ReadRecord: the flag and the error of one request. A failed request invokes no callback. */
  method ReadReply(reply: Reply, callback: Callback, before: seq<ReadableRecord>)
    returns (calls: seq<ReadableRecord>, stopped: bool, error: int)
    ensures Progress(calls, stopped) == RunTasks(Progress(before, false), RecordsIn(reply), callback)
    ensures error == if reply.Batch? then 0 else reply.code
  {
    if reply.Failure? {
      return before, false, reply.code;
    }
    calls, stopped := RunCallbacksInline(reply.records, callback, Progress(before, false));
    QueuedEqualsInline(Progress(before, false), reply.records, callback, Progress(calls, stopped));
    error := 0;
  }

  /** One round of the loop: the next request, and its place among all. */
  method ReadNext(replies: seq<Reply>, sent: nat, callback: Callback, before: Progress)
    returns (after: Progress, error: int)
    requires sent < |replies| && before == After(replies, sent, callback) && !before.stopped
    ensures after == After(replies, sent + 1, callback)
    ensures error == if replies[sent].Batch? then 0 else replies[sent].code
    ensures replies[sent].Failure? ==> !after.stopped
  {
    AfterOneMore(replies, sent, callback);
    assert before == Progress(before.calls, false);
    var calls, stopped;
    calls, stopped, error := ReadReply(replies[sent], callback, before.calls);
    after := Progress(calls, stopped);
  }

  /** How the loop goes on after a request. */
  method Decide(stopped: bool, error: int, continuous: bool) returns (end: End)
    ensures end == if stopped || (error == NO_CONTENT && !continuous) then Ok
                   else if error != 0 && error != NO_CONTENT then Err(error)
                   else Running
  {
    if stopped {
      return Ok;
    }
    if error != 0 {
      if error == NO_CONTENT {
        if continuous {
          return Running;
        }
        return Ok;
      }
      return Err(error);
    }
    return Running;
  }

  /** The body of the loop of QueryV1 and QueryV2. */
  method SendNext(replies: seq<Reply>, continuous: bool, callback: Callback, before: Query) returns (after: Query)
    requires RealReplies(replies) && before.sent < |replies| && before.end == Running
    requires IsSoFar(replies, callback, before) && EndFits(replies, continuous, before)
    ensures after.sent == before.sent + 1 && IsSoFar(replies, callback, after) && EndFits(replies, continuous, after)
    ensures AllQuiet(replies, before.sent, continuous)
  {
    var sent := before.sent;
    var progress, error := ReadNext(replies, sent, callback, before.progress);
    var end := Decide(progress.stopped, error, continuous);
    assert RealReply(replies[sent]);
    after := Query(sent + 1, progress, end);
  }

  /** The loop over the replies to the requests it sends, for as many replies as are given. */
  method RunQuery(replies: seq<Reply>, continuous: bool, callback: Callback) returns (query: Query)
    requires RealReplies(replies)
    ensures IsQuery(replies, continuous, callback, query)
  {
    query := FRESH;
    while query.sent < |replies| && query.end == Running
      invariant query.sent <= |replies| && IsSoFar(replies, callback, query)
      invariant query.sent > 0 ==> AllQuiet(replies, query.sent - 1, continuous)
      invariant EndFits(replies, continuous, query)
    {
      query := SendNext(replies, continuous, callback, query);
    }
  }

  // ---- What the loop promises ----

  /** The records of the first n replies, one batch after the other. */
  function Concat(replies: seq<Reply>, n: nat): seq<ReadableRecord>
    requires n <= |replies|
  {
    if n == 0 then []
    else Concat(replies, n - 1) + RecordsIn(replies[n - 1])
  }

  /** The callback's progress after the first n replies, as if their batches were one. */
  function After(replies: seq<Reply>, n: nat, callback: Callback): Progress
    requires n <= |replies|
  {
    RunTasks(FRESH.progress, Concat(replies, n), callback)
  }

  lemma {:induction false} AfterOneMore(replies: seq<Reply>, n: nat, callback: Callback)
    requires n < |replies|
    ensures After(replies, n + 1, callback) == RunTasks(After(replies, n, callback), RecordsIn(replies[n]), callback)
  {
    TasksAppend(FRESH.progress, Concat(replies, n), RecordsIn(replies[n]), callback);
  }

  /** A reply after which a query that was not stopped sends its next request. */
  predicate Quiet(reply: Reply, continuous: bool) {
    reply.Batch? || (continuous && reply.code == NO_CONTENT)
  }

  predicate AllQuiet(replies: seq<Reply>, n: nat, continuous: bool)
    requires n <= |replies|
  {
    forall i :: 0 <= i < n ==> Quiet(replies[i], continuous)
  }

  /**
   The callback is invoked exactly as if all batches that were requested were one. Nothing is sent after a stop.
   A query runs as long as replies are quiet; it returns an error only for a failure that is not 204, and without
   continuous it ends with the first 204.
   */
  ghost predicate IsQuery(replies: seq<Reply>, continuous: bool, callback: Callback, query: Query) {
    && query.sent <= |replies| && IsSoFar(replies, callback, query)
    && (query.sent > 0 ==> AllQuiet(replies, query.sent - 1, continuous))
    && EndFits(replies, continuous, query)
    && (query.end == Running ==> query.sent == |replies|)
  }

  /** The progress is that of all batches put together, and no request was sent after a stop. */
  ghost predicate IsSoFar(replies: seq<Reply>, callback: Callback, query: Query)
    requires query.sent <= |replies|
  {
    && query.progress == After(replies, query.sent, callback)
    && (query.sent > 0 ==> !After(replies, query.sent - 1, callback).stopped)
  }

  predicate EndFits(replies: seq<Reply>, continuous: bool, query: Query)
    requires query.sent <= |replies|
  {
    match query.end
    case Running => !query.progress.stopped && AllQuiet(replies, query.sent, continuous)
    case Ok =>
      query.sent > 0
      && (query.progress.stopped || (replies[query.sent - 1] == Failure(NO_CONTENT) && !continuous))
    case Err(code) =>
      query.sent > 0 && !query.progress.stopped && code != NO_CONTENT && replies[query.sent - 1] == Failure(code)
  }

  /** The outcome is determined: any two queries over the same replies agree. */
  lemma {:induction false} QueryIsUnique(replies: seq<Reply>, continuous: bool, callback: Callback, a: Query, b: Query)
    requires RealReplies(replies)
    requires IsQuery(replies, continuous, callback, a) && IsQuery(replies, continuous, callback, b)
    ensures a == b
  {
    NotSentMore(replies, continuous, callback, a, b);
    NotSentMore(replies, continuous, callback, b, a);
  }

  lemma {:induction false} ConcatSplit(replies: seq<Reply>, m: nat, n: nat) returns (rest: seq<ReadableRecord>)
    requires m <= n <= |replies|
    ensures Concat(replies, n) == Concat(replies, m) + rest
  {
    if m == n {
      rest := [];
    } else {
      var middle := ConcatSplit(replies, m, n - 1);
      rest := middle + RecordsIn(replies[n - 1]);
    }
  }

  /** A stop is final, however many more records there would be. */
  lemma {:induction false} StopIsFinal(p: Progress, records: seq<ReadableRecord>, callback: Callback)
    requires p.stopped
    ensures RunTasks(p, records, callback) == p
  {
    if records != [] {
      StopIsFinal(p, records[..|records| - 1], callback);
    }
  }

  lemma {:induction false} StopPersists(replies: seq<Reply>, m: nat, n: nat, callback: Callback)
    requires m <= n <= |replies| && After(replies, m, callback).stopped
    ensures After(replies, n, callback) == After(replies, m, callback)
  {
    var rest := ConcatSplit(replies, m, n);
    TasksAppend(FRESH.progress, Concat(replies, m), rest, callback);
    StopIsFinal(After(replies, m, callback), rest, callback);
  }

  lemma {:induction false} NothingAfterStop(replies: seq<Reply>, callback: Callback, a: Query, b: Query)
    requires a.sent <= |replies| && b.sent <= |replies| && a.progress.stopped
    requires IsSoFar(replies, callback, a) && IsSoFar(replies, callback, b)
    ensures b.sent <= a.sent
  {
    if a.sent < b.sent {
      StopPersists(replies, a.sent, b.sent - 1, callback);
    }
  }

  /** Without a stop only a reply that is not quiet ends a query. */
  lemma {:induction false} EndsNotQuiet(replies: seq<Reply>, continuous: bool, query: Query)
    requires RealReplies(replies) && query.sent <= |replies| && !query.progress.stopped
    requires EndFits(replies, continuous, query)
    ensures query.end != Running ==> query.sent > 0 && !Quiet(replies[query.sent - 1], continuous)
  {
  }

  /** A query that ends has a reason that no other one can ignore. */
  lemma {:induction false} NotSentMore(replies: seq<Reply>, continuous: bool, callback: Callback, a: Query, b: Query)
    requires RealReplies(replies)
    requires IsQuery(replies, continuous, callback, a) && IsQuery(replies, continuous, callback, b)
    ensures b.sent <= a.sent
  {
    if a.progress.stopped {
      NothingAfterStop(replies, callback, a, b);
    } else {
      EndsNotQuiet(replies, continuous, a);
    }
  }

  /**
   The callback sees a prefix of all batches put together, the same however the records are cut into batches: it
   ends with the first record that it refuses or that is the last, and only then the query counts as stopped.
   */
  lemma {:induction false} QueryDeliversPrefix(replies: seq<Reply>, continuous: bool, callback: Callback, query: Query)
    requires IsQuery(replies, continuous, callback, query)
    ensures IsDelivered(FRESH.progress, Concat(replies, query.sent), callback, query.progress)
    ensures query.progress.stopped ==>
              After(replies, |replies|, callback) == query.progress
  {
    QueuedIsDelivery(FRESH.progress, Concat(replies, query.sent), callback);
    if query.progress.stopped {
      StopPersists(replies, query.sent, |replies|, callback);
    }
  }

  /** A reply without records leaves the callback as it is. */
  lemma {:induction false} FailureIsSilent(replies: seq<Reply>, n: nat, callback: Callback)
    requires n < |replies| && replies[n].Failure?
    ensures After(replies, n + 1, callback) == After(replies, n, callback)
  {
    AfterOneMore(replies, n, callback);
  }

  /**
   A reply with status 204 ends a query that is not continuous, without an error, and lets a continuous one go on. Any
   other failure ends both with its own code.
   */
  lemma {:induction false} FailureEnds(
    replies: seq<Reply>, continuous: bool, callback: Callback, query: Query, n: nat)
    requires RealReplies(replies) && IsQuery(replies, continuous, callback, query)
    requires n < query.sent && replies[n].Failure?
    ensures replies[n].code == 204 && !continuous ==> query.sent == n + 1 && query.end == Ok
    ensures replies[n].code == 204 && continuous ==>
              query.sent > n + 1 || (query.end == Running && |replies| == n + 1)
    ensures replies[n].code != 204 ==> query.sent == n + 1 && query.end == Err(replies[n].code)
  {
    if query.sent == n + 1 {
      FailureIsSilent(replies, n, callback);
    } else {
      assert Quiet(replies[n], continuous);
    }
  }
}
