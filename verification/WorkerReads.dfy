/** Which programs of the callers have only reads that come to an end. */
module WorkerReads {
  import opened Wrappers
  import opened Batches
  import opened Stream
  import StreamRuns
  import opened Worker

  /** What a read leaves of a stream that arrives in full, or nothing when the read polls forever. */
  function ReadEnd(stream: Deque, bytes: nat): (left: Option<Deque>)
    ensures left.Some? ==> left.value.bytes <= stream.bytes
  {
    if 0 < bytes <= stream.bytes then Some(stream.(bytes := stream.bytes - bytes))
    else if stream.end && (bytes > 0 || stream.bytes == 0) then Some(Deque(0, false))
    else None
  }

  function ActionEnd(action: Action, stream: Deque): Option<Deque>
    decreases action, 0
  {
    match action
    case Read(bytes) => ReadEnd(stream, bytes)
    case Nested(call) => if ReadableCall(call) then Some(stream) else None
  }

  /** What the actions of a callback leave of the stream of its call, or nothing when one of them never ends. */
  function ActionsEnd(actions: seq<Action>, stream: Deque): Option<Deque>
    decreases actions, 1
  {
    if actions == [] then Some(stream)
    else
      var left := ActionEnd(actions[0], stream);
      if left.Some? then ActionsEnd(actions[1..], left.value) else None
  }

  /** The callbacks of the tasks, up to the first that ends the call, come to an end. */
  predicate ReadableTasks(tasks: seq<Task>, stream: Deque)
    decreases tasks, 3
  {
    tasks == []
    || var left := ActionsEnd(tasks[0].actions, stream);
       left.Some? && (Ends(tasks[0]) || ReadableTasks(tasks[1..], left.value))
  }

  predicate ReadableCall(call: Call)
    decreases call, 4
  {
    ReadableTasks(call.tasks, Deque(Sum(call.body), true))
  }

  predicate ReadableCalls(calls: seq<Call>) {
    forall k :: 0 <= k < |calls| ==> ReadableCall(calls[k])
  }

  /** Programs with only reads that come to an end, also those of nested calls. */
  predicate Readable(s: State) {
    forall t :: 0 <= t < |s.callers| ==> ReadableCalls(s.callers[t].todo)
  }

  // ---- Programs that are readable ----

  /** The bytes that a callback reads of its own record. */
  function ReadsIn(actions: seq<Action>): nat {
    if actions == [] then 0 else (if actions[0].Read? then actions[0].bytes else 0) + ReadsIn(actions[1..])
  }

  function ReadsOf(tasks: seq<Task>): nat {
    if tasks == [] then 0 else ReadsIn(tasks[0].actions) + ReadsOf(tasks[1..])
  }

  predicate Sized(action: Action)
    decreases action, 0
  {
    match action
    case Read(bytes) => bytes > 0
    case Nested(call) => WellSized(call)
  }

  predicate SizedActions(actions: seq<Action>)
    decreases actions, 1
  {
    actions == [] || (Sized(actions[0]) && SizedActions(actions[1..]))
  }

  predicate SizedTasks(tasks: seq<Task>)
    decreases tasks, 3
  {
    tasks == [] || (SizedActions(tasks[0].actions) && SizedTasks(tasks[1..]))
  }

  /** No callback reads an empty record, or more than its own call's body has, also in nested calls. */
  predicate WellSized(call: Call)
    decreases call, 4
  {
    SizedTasks(call.tasks) && ReadsOf(call.tasks) <= Sum(call.body)
  }

  lemma {:induction false} SizedActionEnds(action: Action, stream: Deque)
    requires Sized(action) && (action.Read? ==> action.bytes <= stream.bytes)
    ensures ActionEnd(action, stream)
            == Some(stream.(bytes := stream.bytes - if action.Read? then action.bytes else 0))
    decreases action, 0
  {
    if action.Nested? {
      WellSizedIsReadable(action.call);
    }
  }

  lemma {:induction false} SizedActionsEnd(actions: seq<Action>, stream: Deque)
    requires SizedActions(actions) && ReadsIn(actions) <= stream.bytes
    ensures ActionsEnd(actions, stream) == Some(stream.(bytes := stream.bytes - ReadsIn(actions)))
    decreases actions, 1
  {
    if actions != [] {
      SizedActionEnds(actions[0], stream);
      SizedActionsEnd(actions[1..], ActionEnd(actions[0], stream).value);
    }
  }

  lemma {:induction false} SizedTasksAreReadable(tasks: seq<Task>, stream: Deque)
    requires SizedTasks(tasks) && ReadsOf(tasks) <= stream.bytes
    ensures ReadableTasks(tasks, stream)
    decreases tasks, 3
  {
    if tasks != [] {
      SizedActionsEnd(tasks[0].actions, stream);
      SizedTasksAreReadable(tasks[1..], ActionsEnd(tasks[0].actions, stream).value);
    }
  }

  /** Reading non-empty records, and no more bytes than arrive, comes to an end. */
  lemma {:induction false} WellSizedIsReadable(call: Call)
    requires WellSized(call)
    ensures ReadableCall(call)
    decreases call, 4
  {
    SizedTasksAreReadable(call.tasks, Deque(Sum(call.body), true));
  }

  // ---- Reads of the deque ----

  /** How much waits in the deque, without what it is. */
  function Amount(queue: Queue): Deque {
    Deque(|Pending(queue)|, HasEnd(queue))
  }

  function Last(s: StreamRuns.State): StreamRuns.Call
    requires s.calls != []
  {
    s.calls[|s.calls| - 1]
  }

  lemma {:induction false} RoundLeaves(s: StreamRuns.State)
    requires StreamRuns.Reading(s)
    ensures var t, taken := StreamRuns.Apply(s, StreamRuns.Round(true)), Take(s.queue, StreamRuns.Room(Last(s)));
            && t.queue == taken.rest && t.calls != []
            && Last(t) == StreamRuns.AfterChunk(Last(s), taken.chunk, true)
  {
  }

  /** One round of the loop in Read leaves what the read has to leave in the end. */
  lemma {:induction false} RoundReads(s: StreamRuns.State)
    requires StreamRuns.Inv(s) && StreamRuns.Reading(s) && s.ended && StreamRuns.CanFinish(s)
    ensures var t := StreamRuns.Apply(s, StreamRuns.Round(true));
            ReadEnd(Amount(s.queue), StreamRuns.Room(Last(s)))
            == if StreamRuns.Reading(t) then ReadEnd(Amount(t.queue), StreamRuns.Room(Last(t)))
               else Some(Amount(t.queue))
  {
    var room := StreamRuns.Room(Last(s));
    assert StreamRuns.CallFits(s, |s.calls| - 1);
    var taken := Take(s.queue, room);
    TakeKeepsEnd(s.queue, room);
    TakeConserves(s.queue, room);
    RoundLeaves(s);
    assert |Bytes(taken.chunk)| + |Pending(taken.rest)| == |Pending(s.queue)|;
  }

  lemma {:induction false} RoundsRead(s: StreamRuns.State, goOn: nat -> bool, n: nat)
    requires StreamRuns.Inv(s) && StreamRuns.Reading(s) && s.ended && StreamRuns.CanFinish(s)
    requires forall k :: goOn(k)
    ensures var t := StreamRuns.Rounds(s, goOn, n);
            ReadEnd(Amount(s.queue), StreamRuns.Room(Last(s)))
            == if StreamRuns.Reading(t) then ReadEnd(Amount(t.queue), StreamRuns.Room(Last(t)))
               else Some(Amount(t.queue))
  {
    if n > 0 {
      RoundsRead(s, goOn, n - 1);
      StreamRuns.RoundsKeep(s, goOn, n - 1);
      var t := StreamRuns.Rounds(s, goOn, n - 1);
      if StreamRuns.Reading(t) {
        RoundReads(t);
      }
    }
  }

  /**
   On a stream that has arrived, a read of the deque comes to an end exactly when the read in a program does, and leaves
   what that leaves.
   */
  lemma {:induction false} ReadEndIsRead(s: StreamRuns.State, goOn: nat -> bool)
    requires StreamRuns.Inv(s) && StreamRuns.Reading(s) && s.ended && forall k :: goOn(k)
    ensures var end := ReadEnd(Amount(s.queue), StreamRuns.Room(Last(s)));
            && (end.Some? <==> exists n :: !StreamRuns.Reading(StreamRuns.Rounds(s, goOn, n)))
            && forall n: nat :: !StreamRuns.Reading(StreamRuns.Rounds(s, goOn, n)) ==>
                 end == Some(Amount(StreamRuns.Rounds(s, goOn, n).queue))
  {
    StreamRuns.FinishesExactlyWhen(s, goOn);
    assert StreamRuns.CallFits(s, |s.calls| - 1);
    forall n: nat | !StreamRuns.Reading(StreamRuns.Rounds(s, goOn, n))
      ensures ReadEnd(Amount(s.queue), StreamRuns.Room(Last(s))) == Some(Amount(StreamRuns.Rounds(s, goOn, n).queue))
    {
      assert exists m :: !StreamRuns.Reading(StreamRuns.Rounds(s, goOn, m));
      RoundsRead(s, goOn, n);
    }
  }
}
