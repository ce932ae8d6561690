/** Every run of the callers, the worker and the destructor is finite: each step uses up some of the work there is. */
module WorkerEnds {
  import opened Batches
  import opened Worker
  import opened WorkerReads
  import opened WorkerProgress

  // ---- Work in the programs ----

  function ActionWork(action: Action): nat
    decreases action, 0
  {
    match action
    case Read(bytes) => bytes + 1
    case Nested(call) => 2 + TasksWork(call.tasks)
  }

  function ActionsWork(actions: seq<Action>): nat
    decreases actions, 1
  {
    if actions == [] then 0 else ActionWork(actions[0]) + ActionsWork(actions[1..])
  }

  function TaskWork(task: Task): nat
    decreases task, 2
  {
    3 + ActionsWork(task.actions)
  }

  function TasksWork(tasks: seq<Task>): nat
    decreases tasks, 3
  {
    if tasks == [] then 0 else TaskWork(tasks[0]) + TasksWork(tasks[1..])
  }

  /** The work in the tasks of a call from index `from` on, while they are in the queue or not enqueued yet. */
  function QueuedWork(tasks: seq<Task>, from: nat): nat
    requires from <= |tasks|
    decreases |tasks| - from
  {
    if from == |tasks| then 0 else TaskWork(tasks[from]) + 3 + QueuedWork(tasks, from + 1)
  }

  function CallWork(call: Call): nat {
    3 + |call.body| + |call.tasks| + QueuedWork(call.tasks, 0)
  }

  function CallsWork(calls: seq<Call>): nat {
    if calls == [] then 0 else CallWork(calls[0]) + CallsWork(calls[1..])
  }

  // ---- Work left in a state ----

  function CallerWork(s: State, t: nat): nat
    requires t < |s.callers|
  {
    var c := s.callers[t];
    if c.phase == Idle || c.todo == [] then CallsWork(c.todo)
    else
      var queued := if First(s, t) <= |Tasks(c)| then QueuedWork(Tasks(c), First(s, t)) else 0;
      CallsWork(c.todo[1..]) + queued
      + if c.phase == Waiting then 1
        else 2 + Left(|Body(c)|, c.chunks) + Left(|Tasks(c)|, c.sent)
  }

  function Left(all: nat, used: nat): nat {
    if used <= all then all - used else 0
  }

  function FrameWork(frame: Frame): nat {
    match frame
    case Callback(actions, _) => 1 + ActionsWork(actions)
    case Inline(tasks, _, _) => 1 + TasksWork(tasks)
  }

  function StackWork(stack: seq<Frame>): nat {
    if stack == [] then 0 else StackWork(stack[..|stack| - 1]) + FrameWork(stack[|stack| - 1])
  }

  function WorkerWork(s: State): nat {
    match s.worker
    case Check => 1
    case Dequeue => 0
    case Exited => 0
    case Begin(item) => if Live(s, item) then TaskWork(Tasks(s.callers[item.caller])[item.index]) + 2 else 2
    case Run(_, stack) => StackWork(stack) + 2
  }

  function ShutdownWork(s: State): nat {
    2 * s.wake + match s.shutdown
                 case NotYet => 6
                 case StopSet => 5
                 case WakeEnqueued => 1
                 case Joined => 0
  }

  /** The work of the first n callers. */
  function CallersWork(s: State, n: nat): nat
    requires n <= |s.callers|
  {
    if n == 0 then 0 else CallersWork(s, n - 1) + CallerWork(s, n - 1)
  }

  function Work(s: State): nat {
    CallersWork(s, |s.callers|) + WorkerWork(s) + ShutdownWork(s)
  }

  // ---- Every step uses up work ----

  lemma {:induction false} OneCallerWorks(s: State, t: State, u: nat, n: nat)
    requires n <= |s.callers| == |t.callers| && u < |s.callers|
    requires forall v :: 0 <= v < |s.callers| && v != u ==> CallerWork(t, v) == CallerWork(s, v)
    ensures CallersWork(t, n) + (if u < n then CallerWork(s, u) else 0)
            == CallersWork(s, n) + (if u < n then CallerWork(t, u) else 0)
  {
    if n > 0 {
      OneCallerWorks(s, t, u, n - 1);
    }
  }

  lemma {:induction false} OthersWork(s: State, t: State, v: nat)
    requires v < |s.callers| == |t.callers| && t.callers[v] == s.callers[v] && Busy(t, v) == Busy(s, v)
    ensures CallerWork(t, v) == CallerWork(s, v)
  {
  }

  /** A change of caller u that leaves the worker alone. */
  lemma {:induction false} CallerWorks(s: State, t: State, u: nat)
    requires u < |s.callers| == |t.callers| && t == SetCaller(s, u, t.callers[u])
    requires CallerWork(t, u) < CallerWork(s, u) && WorkerWork(t) == WorkerWork(s)
    ensures Work(t) < Work(s)
  {
    forall v | 0 <= v < |s.callers| && v != u ensures CallerWork(t, v) == CallerWork(s, v) {
      OthersWork(s, t, v);
    }
    OneCallerWorks(s, t, u, |s.callers|);
  }

  lemma {:induction false} WorkerUntouched(s: State, t: State, u: nat)
    requires Inv(s) && u < |s.callers| == |t.callers| && t == SetCaller(s, u, t.callers[u])
    requires Busy(s, u) ==> Live(t, s.worker.item) && Tasks(t.callers[u]) == Tasks(s.callers[u])
    ensures WorkerWork(t) == WorkerWork(s)
  {
  }

  lemma {:induction false} StartWorks(s: State, u: nat)
    requires Inv(s) && Enabled(s, Start(u))
    ensures Work(Apply(s, Start(u))) < Work(s)
  {
    var t := Apply(s, Start(u));
    assert CallerInv(s, u);
    WorkerUntouched(s, t, u);
    CallerWorks(s, t, u);
  }

  lemma {:induction false} TransferWorks(s: State, step: Step, u: nat)
    requires Inv(s) && Enabled(s, step)
    requires step == Enqueue(u) || step == Arrive(u) || step == End(u)
    ensures Work(Apply(s, step)) < Work(s)
  {
    var t := Apply(s, step);
    assert CallerInv(s, u);
    WorkerUntouched(s, t, u);
    CallerWorks(s, t, u);
  }

  lemma {:induction false} ReturnWorks(s: State, u: nat)
    requires Inv(s) && Enabled(s, Step.Return(u))
    ensures Work(Apply(s, Step.Return(u))) < Work(s)
  {
    var t := Apply(s, Step.Return(u));
    assert CallerInv(s, u);
    AllDoneAtReturn(s, u);
    WorkerUntouched(s, t, u);
    CallerWorks(s, t, u);
  }

  lemma {:induction false} TakeTaskWorks(s: State, u: nat)
    requires Inv(s) && Enabled(s, TakeTask(u))
    ensures Work(Apply(s, TakeTask(u))) < Work(s)
  {
    var t := Apply(s, TakeTask(u));
    assert CallerInv(s, u);
    var c := s.callers[u];
    assert c.queue[0] == Item(u, c.no, c.done);
    forall v | 0 <= v < |s.callers| && v != u ensures CallerWork(t, v) == CallerWork(s, v) {
      OthersWork(s, t, v);
    }
    OneCallerWorks(s, t, u, |s.callers|);
  }

  /** The end of a task moves its caller from the running task to the next one, so no queued work is counted twice. */
  lemma {:induction false} FinishWorks(s: State, c: Caller)
    requires Inv(s) && (s.worker.Begin? || s.worker.Run?)
    requires var before := s.callers[s.worker.item.caller];
             c == before.(deque := c.deque, stopped := c.stopped)
    ensures Work(Finish(s, s.worker.item, c)) + WorkerWork(s) == Work(s) + 1
  {
    var u := s.worker.item.caller;
    var t := Finish(s, s.worker.item, c);
    assert CallerInv(s, u);
    forall v | 0 <= v < |s.callers| && v != u ensures CallerWork(t, v) == CallerWork(s, v) {
      OthersWork(s, t, v);
    }
    OneCallerWorks(s, t, u, |s.callers|);
  }

  lemma {:induction false} BeginWorks(s: State)
    requires Inv(s) && Enabled(s, BeginTask)
    ensures Work(Apply(s, BeginTask)) < Work(s)
  {
    var item := s.worker.item;
    var u := item.caller;
    var t := Apply(s, BeginTask);
    assert CallerInv(s, u);
    if s.callers[u].stopped {
      FinishWorks(s, s.callers[u]);
    } else {
      forall v | 0 <= v < |s.callers| && v != u ensures CallerWork(t, v) == CallerWork(s, v) {
        OthersWork(s, t, v);
      }
      OneCallerWorks(s, t, u, |s.callers|);
      var task := Tasks(s.callers[u])[item.index];
      var frame := Callback(task.actions, Ends(task));
      assert [frame][..0] == [];
      assert StackWork([frame]) == FrameWork(frame);
    }
  }

  lemma {:induction false} StackWorkOfTwo(rest: seq<Frame>, a: Frame, b: Frame)
    ensures StackWork(rest + [a, b]) == StackWork(rest) + FrameWork(a) + FrameWork(b)
  {
    assert rest + [a, b] == rest + [a] + [b];
  }

  lemma {:induction false} ActionsWorkOf(first: Action, actions: seq<Action>)
    ensures ActionsWork([first] + actions) == ActionWork(first) + ActionsWork(actions)
  {
    assert ([first] + actions)[1..] == actions;
  }

  lemma {:induction false} ReadWorks(deque: Deque, bytes: nat, actions: seq<Action>)
    requires CanRead(deque, bytes)
    ensures ActionsWork(ReadOn(deque, bytes).1 + actions) < ActionsWork([Read(bytes)] + actions)
  {
    var (_, more) := ReadOn(deque, bytes);
    ActionsWorkOf(Read(bytes), actions);
    if more == [] {
      assert more + actions == actions;
    } else {
      ActionsWorkOf(more[0], actions);
      assert more == [more[0]];
    }
  }

  lemma {:induction false} StackWorkOf(rest: seq<Frame>, top: Frame)
    ensures StackWork(rest + [top]) == StackWork(rest) + FrameWork(top)
  {
    assert (rest + [top])[..|rest|] == rest;
  }

  /** A change of the flag or of the deque of an inline call is no work. */
  lemma {:induction false} SameTasksWork(rest: seq<Frame>, inline: Frame)
    requires rest != [] && rest[|rest| - 1].Inline? && inline.Inline? && inline.tasks == rest[|rest| - 1].tasks
    ensures StackWork(rest[|rest| - 1 := inline]) == StackWork(rest)
  {
    var n := |rest| - 1;
    StackWorkOf(rest[..n], inline);
    assert rest[..n] + [inline] == rest[n := inline];
  }

  lemma {:induction false} CallbackTurnWorks(deque: Deque, rest: seq<Frame>, actions: seq<Action>, ends: bool)
    requires CanTurn(deque, rest + [Callback(actions, ends)])
    ensures StackWork(CallbackTurn(deque, rest, actions, ends).1) < StackWork(rest) + 1 + ActionsWork(actions)
  {
    var n := |rest| - 1;
    var inline := rest != [] && rest[n].Inline?;
    if actions == [] {
      if inline {
        SameTasksWork(rest, rest[n].(stopped := ends));
      }
    } else {
      match actions[0]
      case Nested(call) =>
        StackWorkOfTwo(rest, Callback(actions[1..], ends), Inline(call.tasks, false, Deque(Sum(call.body), true)));
      case Read(bytes) =>
        var source := if inline then rest[n].deque else deque;
        var (after, more) := ReadOn(source, bytes);
        var callback := Callback(more + actions[1..], ends);
        assert [Read(bytes)] + actions[1..] == actions;
        assert source == Source(deque, rest + [Callback(actions, ends)]);
        ReadWorks(source, bytes, actions[1..]);
        StackWorkOf(rest, callback);
        if inline {
          SameTasksWork(rest, rest[n].(deque := after));
          StackWorkOf(rest[n := rest[n].(deque := after)], callback);
        }
    }
  }

  lemma {:induction false} TurnStackWorks(deque: Deque, stack: seq<Frame>)
    requires CanTurn(deque, stack)
    ensures StackWork(TurnStack(deque, stack).1) < StackWork(stack)
  {
    var rest, top := stack[..|stack| - 1], stack[|stack| - 1];
    assert stack == rest + [top];
    StackWorkOf(rest, top);
    match top
    case Inline(tasks, stopped, source) =>
      if !stopped && tasks != [] {
        StackWorkOfTwo(rest, Inline(tasks[1..], stopped, source), Callback(tasks[0].actions, Ends(tasks[0])));
        assert TasksWork(tasks) == TaskWork(tasks[0]) + TasksWork(tasks[1..]);
      }
    case Callback(actions, ends) => CallbackTurnWorks(deque, rest, actions, ends);
  }

  /** A callback that goes on with less to do. */
  lemma {:induction false} CallbackWorks(s: State, c: Caller, stack: seq<Frame>)
    requires s.worker.Run? && s.worker.item.caller < |s.callers| && StackWork(stack) < StackWork(s.worker.stack)
    requires var before := s.callers[s.worker.item.caller];
             c == before.(deque := c.deque)
    ensures Work(SetCaller(s, s.worker.item.caller, c).(worker := Run(s.worker.item, stack))) < Work(s)
  {
    var u := s.worker.item.caller;
    var t := SetCaller(s, u, c).(worker := Run(s.worker.item, stack));
    forall v | 0 <= v < |s.callers| && v != u ensures CallerWork(t, v) == CallerWork(s, v) {
      OthersWork(s, t, v);
    }
    OneCallerWorks(s, t, u, |s.callers|);
  }

  lemma {:induction false} TurnWorks(s: State)
    requires Inv(s) && Enabled(s, Turn)
    ensures Work(Apply(s, Turn)) < Work(s)
  {
    var item, stack := s.worker.item, s.worker.stack;
    var u := item.caller;
    var t := Apply(s, Turn);
    assert CallerInv(s, u);
    var ends := Ends(Tasks(s.callers[u])[item.index]);
    var c := s.callers[u];
    TurnStackFits(c.deque, stack, ends);
    TurnStackWorks(c.deque, stack);
    var (deque, rest) := TurnStack(c.deque, stack);
    if rest == [] {
      FinishWorks(s, c.(deque := deque, stopped := ends));
    } else {
      CallbackWorks(s, c.(deque := deque), rest);
    }
  }

  lemma {:induction false} SameCallersWork(s: State, t: State, n: nat)
    requires n <= |s.callers| && t.callers == s.callers
    requires forall v :: 0 <= v < |s.callers| ==> Busy(t, v) == Busy(s, v)
    ensures CallersWork(t, n) == CallersWork(s, n)
  {
    if n > 0 {
      SameCallersWork(s, t, n - 1);
    }
  }

  /** Every step of any thread uses up work. */
  lemma {:induction false} StepWorks(s: State, step: Step)
    requires Inv(s) && Enabled(s, step)
    ensures Work(Apply(s, step)) < Work(s)
  {
    match step
    case Start(t) => StartWorks(s, t);
    case Enqueue(t) => TransferWorks(s, step, t);
    case Arrive(t) => TransferWorks(s, step, t);
    case End(t) => TransferWorks(s, step, t);
    case Return(t) => ReturnWorks(s, t);
    case TakeTask(t) => TakeTaskWorks(s, t);
    case BeginTask => BeginWorks(s);
    case Turn => TurnWorks(s);
    case Loop => SameCallersWork(s, Apply(s, step), |s.callers|);
    case TakeWake => SameCallersWork(s, Apply(s, step), |s.callers|);
    case SetStop => SameCallersWork(s, Apply(s, step), |s.callers|);
    case Wake => SameCallersWork(s, Apply(s, step), |s.callers|);
    case Join => SameCallersWork(s, Apply(s, step), |s.callers|);
  }

  lemma {:induction false} NextWorks(s: State, t: State)
    requires Inv(s) && Next(s, t)
    ensures Work(t) < Work(s)
  {
    var step := StepBetween(s, t);
    StepWorks(s, step);
  }

  /** No run has more steps than there is work at its start. */
  lemma {:induction false} RunsAreFinite(run: seq<State>, i: nat)
    requires IsRun(run) && i < |run|
    ensures Work(run[i]) + i <= Work(run[0])
  {
    if i > 0 {
      RunsAreFinite(run, i - 1);
      RunKeeps(run, i - 1);
      assert Next(run[i - 1], run[i]);
      NextWorks(run[i - 1], run[i]);
    }
  }

  // ---- How runs end ----

  /** No step is enabled but those of the destructor. */
  ghost predicate OnlyShutdownLeft(s: State) {
    forall step :: Enabled(s, step) ==> step.SetStop? || step.Wake? || step.Join?
  }

  function Last(run: seq<State>): State
    requires run != []
  {
    run[|run| - 1]
  }

  predicate AllFinished(s: State) {
    forall t :: 0 <= t < |s.callers| ==> Finished(s.callers[t])
  }

  lemma {:induction false} NothingLeft(s: State)
    requires Inv(s) && AllFinished(s)
    ensures StillReadable(s)
  {
    forall t | 0 <= t < |s.callers| ensures CallerReadable(s, t) {
      assert Finished(s.callers[t]) && CallerInv(s, t);
      BetweenCalls(s, t);
    }
  }

  /**
   A run that cannot be continued, other than by shutting the bucket down, ends with all calls of all callers
   returned exactly when the program has only reads that come to an end.
   */
  lemma {:induction false} AllCallsReturn(run: seq<State>)
    requires IsRun(run) && !Stopping(Last(run)) && OnlyShutdownLeft(Last(run))
    ensures AllFinished(Last(run)) <==> Readable(run[0])
  {
    var last, n := Last(run), |run| - 1;
    RunKeeps(run, n);
    RunSame(run, n);
    if AllFinished(last) {
      NothingLeft(last);
    }
    if Readable(run[0]) {
      forall t | 0 <= t < |last.callers| && !Finished(last.callers[t])
        ensures exists step :: Enabled(last, step) && !step.SetStop? && !step.Wake? && !step.Join?
      {
        var step := NoDeadlock(run, n, t);
      }
    }
  }

  /** With such a program, a run that cannot be continued at all ends with the worker joined. */
  lemma {:induction false} WorkerIsJoined(run: seq<State>)
    requires IsRun(run) && Readable(run[0]) && forall step :: !Enabled(Last(run), step)
    ensures Last(run).shutdown == Joined
  {
    assert !Enabled(Last(run), SetStop) && !Enabled(Last(run), Wake);
    if Last(run).shutdown == WakeEnqueued {
      var step := JoinCompletes(run, |run| - 1);
      assert false;
    }
  }

  /** Without a shutdown every run can be continued to one that nothing continues. */
  lemma {:induction false} RunToEnd(run: seq<State>) returns (full: seq<State>)
    requires IsRun(run) && !Stopping(Last(run))
    ensures IsRun(full) && run <= full && !Stopping(Last(full)) && OnlyShutdownLeft(Last(full))
    decreases Work(Last(run))
  {
    var last := Last(run);
    if step :| Enabled(last, step) && !(step.SetStop? || step.Wake? || step.Join?) {
      RunKeeps(run, |run| - 1);
      StepWorks(last, step);
      full := RunToEnd(run + [Apply(last, step)]);
    } else {
      full := run;
    }
  }

  /** From every start some run leaves a caller waiting for good, unless all reads come to an end. */
  lemma {:induction false} SomeRunBlocks(start: State) returns (run: seq<State>)
    requires IsStart(start) && !Readable(start)
    ensures IsRun(run) && run[0] == start && OnlyShutdownLeft(Last(run)) && !AllFinished(Last(run))
  {
    run := RunToEnd([start]);
    AllCallsReturn(run);
  }
}
