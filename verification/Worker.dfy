/**
 The callback worker of a bucket: one thread that takes tasks from a queue, callers that enqueue one task for
 each record, stream the body and wait for the last future, and callbacks that read from the bucket again.
 Threads are interleaved step by step in any order.
 */
module Worker {
  import opened Batches

  // ---- What the threads are going to do ----

  /** A request: the sizes of the chunks in which its body arrives, and a task for each of its records. */
  datatype Call = Call(body: seq<nat>, tasks: seq<Task>)

  /** What the callback does with one record and returns, and whether the record is the last one. */
  datatype Task = Task(actions: seq<Action>, goOn: bool, last: bool)

  /** A callback reads a record of some size, or calls the bucket again. */
  datatype Action = Read(bytes: nat) | Nested(call: Call)

  /** Whether a task ends its call: the callback refuses, or the record is the last one. */
  predicate Ends(task: Task) {
    !task.goOn || task.last
  }

  // ---- State ----

  /** The index-th task of a caller's no-th call. */
  datatype Item = Item(caller: nat, no: nat, index: nat)

  datatype Phase = Idle | Transferring | Waiting

  /** What waits in the deque that the records of a call share: bytes, and then perhaps the end of the stream. */
  datatype Deque = Deque(bytes: nat, end: bool)

  /** A calling thread, with the local variables of ReadRecord and its part of the task queue. */
  datatype Caller = Caller(
    todo: seq<Call>,
    phase: Phase,
    no: nat,
    queue: seq<Item>,
    sent: nat,
    chunks: nat,
    deque: Deque,
    done: nat,
    invoked: nat,
    stopped: bool)

  /** A callback that still has some actions and then ends or does not end its call; a call run inline. */
  datatype Frame =
    | Callback(actions: seq<Action>, ends: bool)
    | Inline(tasks: seq<Task>, stopped: bool, deque: Deque)

  /** The worker: at the loop condition, in wait_dequeue, before a task, inside a callback, or gone. */
  datatype WorkerState = Check | Dequeue | Begin(item: Item) | Run(item: Item, stack: seq<Frame>) | Exited

  datatype Shutdown = NotYet | StopSet | WakeEnqueued | Joined

  /**
   `wake` counts the empty tasks in the queue; `finished` and `log` record which tasks have finished and for which
   ones the callback was invoked; `late` counts tasks taken after the stop flag was set; `dangling` is set when a
   task runs although its call has returned.
   */
  datatype State = State(
    callers: seq<Caller>,
    worker: WorkerState,
    shutdown: Shutdown,
    wake: nat,
    finished: set<Item>,
    log: seq<Item>,
    late: nat,
    dangling: bool)

  function Fresh(todo: seq<Call>, no: nat, queue: seq<Item>): Caller {
    Caller(todo, Idle, no, queue, 0, 0, Deque(0, false), 0, 0, false)
  }

  function Tasks(c: Caller): seq<Task> {
    if c.todo == [] then [] else c.todo[0].tasks
  }

  function Body(c: Caller): seq<nat> {
    if c.todo == [] then [] else c.todo[0].body
  }

  predicate Stopping(s: State) {
    s.shutdown != NotYet
  }

  /** The call of an item is under way. */
  predicate Live(s: State, item: Item) {
    item.caller < |s.callers|
    && var c := s.callers[item.caller];
       c.phase != Idle && c.no == item.no && item.index < |Tasks(c)|
  }

  // ---- Steps ----

  datatype Step =
    // A caller starts a request, enqueues its next task, gets a chunk, sees the end of the transfer, returns.
    | Start(t: nat) | Enqueue(t: nat) | Arrive(t: nat) | End(t: nat) | Return(t: nat)
    // The worker tests stop_, takes a task of some caller or the empty one, begins its task, goes on with it.
    | Loop | TakeTask(t: nat) | TakeWake | BeginTask | Turn
    // The destructor sets stop_, enqueues the empty task, joins the worker.
    | SetStop | Wake | Join

  /**
   A read takes bytes, or the end of the stream when there are none. With nothing in the deque it polls; with bytes
   in front of an empty record it puts them back, and polls too.
   */
  predicate CanRead(deque: Deque, bytes: nat) {
    if deque.bytes > 0 then bytes > 0 else deque.end
  }

  /** The deque that the topmost callback reads from: that of its inline call, or that of the queued task. */
  function Source(deque: Deque, stack: seq<Frame>): Deque {
    if |stack| > 1 && stack[|stack| - 2].Inline? then stack[|stack| - 2].deque else deque
  }

  /** Only a callback whose read polls cannot go on. */
  predicate CanTurn(deque: Deque, stack: seq<Frame>) {
    && stack != []
    && var top := stack[|stack| - 1];
       top.Callback? && top.actions != [] && top.actions[0].Read? ==>
         CanRead(Source(deque, stack), top.actions[0].bytes)
  }

  predicate Enabled(s: State, step: Step) {
    match step
    case Start(t) => t < |s.callers| && s.callers[t].phase == Idle && s.callers[t].todo != []
    case Enqueue(t) =>
      t < |s.callers| && s.callers[t].phase == Transferring && s.callers[t].sent < |Tasks(s.callers[t])|
    case Arrive(t) =>
      t < |s.callers| && s.callers[t].phase == Transferring
      && s.callers[t].sent == |Tasks(s.callers[t])| && s.callers[t].chunks < |Body(s.callers[t])|
    case End(t) =>
      t < |s.callers| && s.callers[t].phase == Transferring
      && s.callers[t].sent == |Tasks(s.callers[t])| && s.callers[t].chunks == |Body(s.callers[t])|
    // future.wait() for the future of the last task, if there was one
    case Return(t) =>
      t < |s.callers| && s.callers[t].phase == Waiting
      && (|Tasks(s.callers[t])| > 0 ==> Item(t, s.callers[t].no, |Tasks(s.callers[t])| - 1) in s.finished)
    case Loop => s.worker == Check
    case TakeTask(t) => s.worker == Dequeue && t < |s.callers| && s.callers[t].queue != []
    case TakeWake => s.worker == Dequeue && s.wake > 0
    case BeginTask => s.worker.Begin?
    case Turn =>
      && s.worker.Run?
      && (Live(s, s.worker.item) ==> CanTurn(s.callers[s.worker.item.caller].deque, s.worker.stack))
    case SetStop => s.shutdown == NotYet
    case Wake => s.shutdown == StopSet
    case Join => s.shutdown == WakeEnqueued && s.worker == Exited
  }

  function SetCaller(s: State, t: nat, c: Caller): State
    requires t < |s.callers|
  {
    s.(callers := s.callers[t := c])
  }

  /** What a read leaves in the deque, and what it still has to read. */
  function ReadOn(deque: Deque, bytes: nat): (Deque, seq<Action>) {
    if deque.bytes > 0 then
      var n := Min(bytes, deque.bytes);
      (deque.(bytes := deque.bytes - n), if n < bytes then [Read(bytes - n)] else [])
    else (deque.(end := false), [])
  }

  /** A callback on top of the stack goes on; one of an inline call reads from the deque of that call. */
  function CallbackTurn(deque: Deque, rest: seq<Frame>, actions: seq<Action>, ends: bool): (Deque, seq<Frame>) {
    var n := |rest| - 1;
    var inline := rest != [] && rest[n].Inline?;
    if actions == [] then (deque, if inline then rest[n := rest[n].(stopped := ends)] else rest)
    else
      match actions[0]
      case Nested(call) =>
        // The data of a nested call has all arrived before its callbacks are run.
        (deque, rest + [Callback(actions[1..], ends), Inline(call.tasks, false, Deque(Sum(call.body), true))])
      case Read(bytes) =>
        var (after, more) := ReadOn(if inline then rest[n].deque else deque, bytes);
        var callback := Callback(more + actions[1..], ends);
        if inline then (deque, rest[n := rest[n].(deque := after)] + [callback]) else (after, rest + [callback])
  }

  /**
   One step of a callback, or of a nested call that runs inline. The stack is empty when the task's callback returns.
   */
  function TurnStack(deque: Deque, stack: seq<Frame>): (Deque, seq<Frame>)
    requires stack != []
  {
    var rest, top := stack[..|stack| - 1], stack[|stack| - 1];
    match top
    case Inline(tasks, stopped, source) =>
      if stopped || tasks == [] then (deque, rest)
      else (deque, rest + [Inline(tasks[1..], stopped, source), Callback(tasks[0].actions, Ends(tasks[0]))])
    case Callback(actions, ends) => CallbackTurn(deque, rest, actions, ends)
  }

  /** The end of a task: its future becomes ready. */
  function Finish(s: State, item: Item, c: Caller): State
    requires item.caller < |s.callers|
  {
    SetCaller(s, item.caller, c.(done := c.done + 1)).(worker := Check, finished := s.finished + {item})
  }

  function BeginApply(s: State): State
    requires s.worker.Begin?
  {
    var item := s.worker.item;
    if !Live(s, item) then s.(worker := Check, dangling := true)
    else
      var c := s.callers[item.caller];
      if c.stopped then Finish(s, item, c)
      else
        var task := Tasks(c)[item.index];
        SetCaller(s, item.caller, c.(invoked := c.invoked + 1))
        .(worker := Run(item, [Callback(task.actions, Ends(task))]), log := s.log + [item])
  }

  function TurnApply(s: State): State
    requires s.worker.Run?
  {
    var item, stack := s.worker.item, s.worker.stack;
    if !Live(s, item) || stack == [] then s.(worker := Check, dangling := true)
    else
      var (deque, after) := TurnStack(s.callers[item.caller].deque, stack);
      var c := s.callers[item.caller].(deque := deque);
      if after == [] then
        Finish(s, item, c.(stopped := stack[0].Callback? && stack[0].ends))
      else
        SetCaller(s, item.caller, c).(worker := Run(item, after))
  }

  function Apply(s: State, step: Step): State
    requires Enabled(s, step)
  {
    match step
    case Start(t) => SetCaller(s, t, s.callers[t].(phase := Transferring))
    case Enqueue(t) =>
      var c := s.callers[t];
      SetCaller(s, t, c.(queue := c.queue + [Item(t, c.no, c.sent)], sent := c.sent + 1))
    case Arrive(t) =>
      var c := s.callers[t];
      SetCaller(s, t, c.(chunks := c.chunks + 1, deque := c.deque.(bytes := c.deque.bytes + Body(c)[c.chunks])))
    case End(t) => SetCaller(s, t, s.callers[t].(deque := s.callers[t].deque.(end := true), phase := Waiting))
    case Return(t) =>
      var c := s.callers[t];
      SetCaller(s, t, Fresh(if c.todo == [] then [] else c.todo[1..], c.no + 1, c.queue))
    case Loop => s.(worker := if Stopping(s) then Exited else Dequeue)
    case TakeTask(t) =>
      var c := s.callers[t];
      SetCaller(s, t, c.(queue := c.queue[1..]))
      .(worker := Begin(c.queue[0]), late := if Stopping(s) then s.late + 1 else s.late)
    case TakeWake => s.(worker := Check, wake := s.wake - 1)
    case BeginTask => BeginApply(s)
    case Turn => TurnApply(s)
    case SetStop => s.(shutdown := StopSet)
    case Wake => s.(shutdown := WakeEnqueued, wake := s.wake + 1)
    case Join => s.(shutdown := Joined)
  }

  ghost predicate Next(s: State, t: State) {
    exists step :: Enabled(s, step) && t == Apply(s, step)
  }

  /** The start: the callers have programs, and nothing has happened yet. */
  ghost predicate IsStart(s: State) {
    && (forall t :: 0 <= t < |s.callers| ==> s.callers[t] == Fresh(s.callers[t].todo, 0, []))
    && s == State(s.callers, Check, NotYet, 0, {}, [], 0, false)
  }

  ghost predicate IsRun(run: seq<State>) {
    && run != [] && IsStart(run[0])
    && forall i :: 0 <= i < |run| - 1 ==> Next(run[i], run[i + 1])
  }

  // ---- Invariant: a call and its tasks ----

  /** The worker is busy with a task of a caller. */
  predicate Busy(s: State, t: nat) {
    (s.worker.Begin? || s.worker.Run?) && s.worker.item.caller == t
  }

  /** The first task of the current call that is still in the queue or not enqueued yet. */
  function First(s: State, t: nat): nat
    requires t < |s.callers|
  {
    s.callers[t].done + if Busy(s, t) then 1 else 0
  }

  predicate Quiet(tasks: seq<Task>, n: nat)
    requires n <= |tasks|
  {
    forall k :: 0 <= k < n ==> !Ends(tasks[k])
  }

  /** The queue holds the enqueued tasks of the current call that have not been taken, in order. */
  predicate QueueInOrder(s: State, t: nat)
    requires t < |s.callers|
  {
    var c := s.callers[t];
    && First(s, t) <= c.sent <= |Tasks(c)|
    && |c.queue| == c.sent - First(s, t)
    && forall i :: 0 <= i < |c.queue| ==> c.queue[i] == Item(t, c.no, First(s, t) + i)
  }

  /** Of the current call exactly the tasks before the running one have finished, and of later calls none. */
  ghost predicate FinishedInOrder(s: State, t: nat)
    requires t < |s.callers|
  {
    var c := s.callers[t];
    && (forall k: nat :: Item(t, c.no, k) in s.finished <==> k < c.done)
    && (forall no: nat, k: nat :: no > c.no ==> Item(t, no, k) !in s.finished)
  }

  /** The flag and the number of invocations are those of the tasks done so far. */
  predicate Delivered(s: State, t: nat)
    requires t < |s.callers|
  {
    var c := s.callers[t];
    && c.done <= |Tasks(c)|
    && (if c.stopped then
          0 < c.invoked <= c.done && Quiet(Tasks(c), c.invoked - 1) && Ends(Tasks(c)[c.invoked - 1])
          && !(s.worker.Run? && Busy(s, t))
        else
          Quiet(Tasks(c), c.done) && c.invoked == c.done + if s.worker.Run? && Busy(s, t) then 1 else 0)
  }

  /** The end of the stream comes after all chunks. */
  predicate TransferInOrder(c: Caller) {
    && c.chunks <= |Body(c)|
    && (c.phase == Waiting ==> c.chunks == |Body(c)|)
    && (c.phase != Waiting ==> !c.deque.end)
  }

  ghost predicate CallerInv(s: State, t: nat)
    requires t < |s.callers|
  {
    var c := s.callers[t];
    && QueueInOrder(s, t) && FinishedInOrder(s, t) && Delivered(s, t) && TransferInOrder(c)
    && (c.phase == Idle ==> c == Fresh(c.todo, c.no, []) && !Busy(s, t))
    && (c.phase != Idle ==> c.todo != [])
    && (c.phase == Waiting ==> c.sent == |Tasks(c)|)
  }

  /** The worker runs the oldest unfinished task of a call that is under way. */
  ghost predicate WorkerInv(s: State) {
    && (s.worker.Begin? || s.worker.Run? ==>
          Live(s, s.worker.item) && s.worker.item.index == s.callers[s.worker.item.caller].done)
    && (s.worker.Run? ==> StackFits(s.worker.stack, Ends(Tasks(s.callers[s.worker.item.caller])[s.worker.item.index])))
  }

  /** Callbacks and inline calls alternate, above the callback of the queued task. */
  predicate StackFits(stack: seq<Frame>, ends: bool) {
    && stack != [] && stack[0].Callback? && stack[0].ends == ends
    && forall i :: 0 <= i < |stack| ==> (stack[i].Inline? <==> i % 2 == 1)
  }

  ghost predicate Inv(s: State) {
    && !s.dangling
    && WorkerInv(s)
    && forall t :: 0 <= t < |s.callers| ==> CallerInv(s, t)
  }

  // ---- Every step keeps the invariant ----

  /** A caller that a step does not touch. */
  lemma {:induction false} OthersKeep(s: State, t: State, u: nat)
    requires u < |s.callers| == |t.callers| && CallerInv(s, u) && t.callers[u] == s.callers[u]
    requires Busy(t, u) == Busy(s, u) && (Busy(s, u) ==> t.worker.Run? == s.worker.Run?)
    requires forall no: nat, k: nat :: Item(u, no, k) in t.finished <==> Item(u, no, k) in s.finished
    ensures CallerInv(t, u)
  {
  }

  lemma {:induction false} CallerStepKeeps(s: State, t: State, u: nat)
    requires Inv(s) && u < |s.callers| == |t.callers| && t == SetCaller(s, u, t.callers[u])
    requires CallerInv(t, u) && !t.dangling
    requires Busy(s, u) ==>
               && Live(t, s.worker.item)
               && t.callers[u].done == s.callers[u].done && Tasks(t.callers[u]) == Tasks(s.callers[u])
    ensures Inv(t)
  {
    forall v | 0 <= v < |t.callers| ensures CallerInv(t, v) {
      if v != u {
        OthersKeep(s, t, v);
      }
    }
  }

  lemma {:induction false} StartKeeps(s: State, u: nat)
    requires Inv(s) && Enabled(s, Start(u))
    ensures Inv(Apply(s, Start(u)))
  {
    assert CallerInv(s, u);
    CallerStepKeeps(s, Apply(s, Start(u)), u);
  }

  lemma {:induction false} EnqueueKeeps(s: State, u: nat)
    requires Inv(s) && Enabled(s, Enqueue(u))
    ensures Inv(Apply(s, Enqueue(u)))
  {
    assert CallerInv(s, u);
    CallerStepKeeps(s, Apply(s, Enqueue(u)), u);
  }

  lemma {:induction false} ArriveKeeps(s: State, u: nat)
    requires Inv(s) && Enabled(s, Arrive(u))
    ensures Inv(Apply(s, Arrive(u)))
  {
    assert CallerInv(s, u);
    CallerStepKeeps(s, Apply(s, Arrive(u)), u);
  }

  lemma {:induction false} EndKeeps(s: State, u: nat)
    requires Inv(s) && Enabled(s, End(u))
    ensures Inv(Apply(s, End(u)))
  {
    assert CallerInv(s, u);
    CallerStepKeeps(s, Apply(s, End(u)), u);
  }

  /** When the last future is ready, no task of the call is left anywhere. */
  lemma {:induction false} AllDoneAtReturn(s: State, u: nat)
    requires Inv(s) && Enabled(s, Return(u))
    ensures var c := s.callers[u];
            c.done == |Tasks(c)| && c.queue == [] && !Busy(s, u)
    ensures var c := s.callers[u]; forall k :: 0 <= k < |Tasks(c)| ==> Item(u, c.no, k) in s.finished
  {
    assert CallerInv(s, u);
  }

  lemma {:induction false} ReturnKeeps(s: State, u: nat)
    requires Inv(s) && Enabled(s, Return(u))
    ensures Inv(Apply(s, Return(u)))
  {
    assert CallerInv(s, u);
    AllDoneAtReturn(s, u);
    CallerStepKeeps(s, Apply(s, Return(u)), u);
  }

  lemma {:induction false} WorkerOnlyKeeps(s: State, t: State)
    requires Inv(s) && t.callers == s.callers && t.finished == s.finished && !t.dangling
    requires t.worker == s.worker || !(s.worker.Begin? || s.worker.Run? || t.worker.Begin? || t.worker.Run?)
    ensures Inv(t)
  {
    forall v | 0 <= v < |t.callers| ensures CallerInv(t, v) {
      OthersKeep(s, t, v);
    }
  }

  lemma {:induction false} TakeTaskKeeps(s: State, u: nat)
    requires Inv(s) && Enabled(s, TakeTask(u))
    ensures Inv(Apply(s, TakeTask(u)))
  {
    var t := Apply(s, TakeTask(u));
    assert CallerInv(s, u);
    forall v | 0 <= v < |t.callers| ensures CallerInv(t, v) {
      if v != u {
        OthersKeep(s, t, v);
      }
    }
  }

  /** The end of the running task, with the flag it leaves. */
  lemma {:induction false} FinishKeeps(s: State, c: Caller)
    requires Inv(s) && (s.worker.Begin? || s.worker.Run?)
    requires var item := s.worker.item; var before := s.callers[item.caller];
             && c == before.(deque := c.deque, stopped := c.stopped)
             && TransferInOrder(c)
             && (if s.worker.Begin? then before.stopped && c.stopped
                 else c.stopped == Ends(Tasks(before)[item.index]))
    ensures Inv(Finish(s, s.worker.item, c))
  {
    var item := s.worker.item;
    var u := item.caller;
    var t := Finish(s, item, c);
    assert CallerInv(s, u);
    forall v | 0 <= v < |t.callers| ensures CallerInv(t, v) {
      if v != u {
        OthersKeep(s, t, v);
      }
    }
  }

  lemma {:induction false} BeginKeeps(s: State)
    requires Inv(s) && Enabled(s, BeginTask)
    ensures Inv(Apply(s, BeginTask))
  {
    var u := s.worker.item.caller;
    assert CallerInv(s, u);
    if s.callers[u].stopped {
      FinishKeeps(s, s.callers[u]);
    } else {
      var t := Apply(s, BeginTask);
      forall v | 0 <= v < |t.callers| ensures CallerInv(t, v) {
        if v != u {
          OthersKeep(s, t, v);
        }
      }
    }
  }

  /** What one step does to the stack: it keeps its form, or empties it when the task's callback returns. */
  lemma {:induction false} TurnStackFits(deque: Deque, stack: seq<Frame>, ends: bool)
    requires StackFits(stack, ends)
    ensures var (after, rest) := TurnStack(deque, stack);
            && after.bytes <= deque.bytes && (after.end ==> deque.end)
            && (rest == [] ==> |stack| == 1)
            && (rest != [] ==> StackFits(rest, ends))
  {
  }

  lemma {:induction false} TurnKeeps(s: State)
    requires Inv(s) && Enabled(s, Turn)
    ensures Inv(Apply(s, Turn))
  {
    var item, stack := s.worker.item, s.worker.stack;
    var u := item.caller;
    assert CallerInv(s, u);
    var ends := Ends(Tasks(s.callers[u])[item.index]);
    TurnStackFits(s.callers[u].deque, stack, ends);
    var (deque, rest) := TurnStack(s.callers[u].deque, stack);
    if rest == [] {
      FinishKeeps(s, s.callers[u].(deque := deque, stopped := ends));
    } else {
      var t := Apply(s, Turn);
      forall v | 0 <= v < |t.callers| ensures CallerInv(t, v) {
        if v != u {
          OthersKeep(s, t, v);
        }
      }
    }
  }

  lemma {:induction false} StepKeeps(s: State, step: Step)
    requires Inv(s) && Enabled(s, step)
    ensures Inv(Apply(s, step))
  {
    match step
    case Start(t) => StartKeeps(s, t);
    case Enqueue(t) => EnqueueKeeps(s, t);
    case Arrive(t) => ArriveKeeps(s, t);
    case End(t) => EndKeeps(s, t);
    case Return(t) => ReturnKeeps(s, t);
    case Loop => WorkerOnlyKeeps(s, Apply(s, step));
    case TakeTask(t) => TakeTaskKeeps(s, t);
    case TakeWake => WorkerOnlyKeeps(s, Apply(s, step));
    case BeginTask => BeginKeeps(s);
    case Turn => TurnKeeps(s);
    case SetStop => WorkerOnlyKeeps(s, Apply(s, step));
    case Wake => WorkerOnlyKeeps(s, Apply(s, step));
    case Join => WorkerOnlyKeeps(s, Apply(s, step));
  }

  lemma {:induction false} StepBetween(s: State, t: State) returns (step: Step)
    requires Next(s, t)
    ensures Enabled(s, step) && t == Apply(s, step)
  {
    step :| Enabled(s, step) && t == Apply(s, step);
  }

  lemma {:induction false} StartIsSound(s: State)
    requires IsStart(s)
    ensures Inv(s)
  {
  }

  lemma {:induction false} NextKeeps(s: State, t: State)
    requires Inv(s) && Next(s, t)
    ensures Inv(t)
  {
    var step := StepBetween(s, t);
    StepKeeps(s, step);
  }

  lemma {:induction false} RunKeeps(run: seq<State>, i: nat)
    requires IsRun(run) && i < |run|
    ensures Inv(run[i])
  {
    if i == 0 {
      StartIsSound(run[0]);
    } else {
      RunKeeps(run, i - 1);
      assert Next(run[i - 1], run[i]);
      NextKeeps(run[i - 1], run[i]);
    }
  }
}
