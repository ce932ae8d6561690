/**
 Deadlock freedom: every step keeps, in both directions, that the rest of the programs has only reads that come to an
 end, and then a caller that waits is never alone.
 */
module WorkerProgress {
  import opened Wrappers
  import opened Batches
  import opened Worker
  import opened WorkerReads
  import opened WorkerRuns

  // ---- What is left of a program that is under way ----

  /** What a stack of callbacks and inline calls leaves of the stream of the queued task. */
  function StackEnd(stack: seq<Frame>, stream: Deque): Option<Deque> {
    var n := |stack| - 1;
    if stack == [] then Some(stream)
    else
      match stack[n]
      case Inline(tasks, stopped, source) =>
        if stopped || ReadableTasks(tasks, source) then StackEnd(stack[..n], stream) else None
      case Callback(actions, ends) =>
        if n > 0 && stack[n - 1].Inline? then
          var left := ActionsEnd(actions, stack[n - 1].deque);
          if left.Some? && (ends || ReadableTasks(stack[n - 1].tasks, left.value)) then StackEnd(stack[..n - 1], stream)
          else None
        else ActionsEnd(actions, stream)
  }

  /** What waits in the deque of a call and what is still to arrive. */
  function Stream(c: Caller): Deque
    requires c.chunks <= |Body(c)|
  {
    Deque(c.deque.bytes + Sum(Body(c)[c.chunks..]), c.phase != Waiting || c.deque.end)
  }

  /** The queued callback will end its call. */
  predicate EndsCall(stack: seq<Frame>) {
    stack != [] && stack[0].Callback? && stack[0].ends
  }

  predicate RestReadable(s: State, t: nat)
    requires t < |s.callers|
  {
    var c := s.callers[t];
    && c.chunks <= |Body(c)| && First(s, t) <= |Tasks(c)|
    && if Busy(s, t) && s.worker.Run? then
         var left := StackEnd(s.worker.stack, Stream(c));
         left.Some? && (EndsCall(s.worker.stack) || ReadableTasks(Tasks(c)[c.done + 1..], left.value))
       else c.stopped || ReadableTasks(Tasks(c)[c.done..], Stream(c))
  }

  /** The calls of a caller, from the one under way on, have only reads that come to an end. */
  predicate CallerReadable(s: State, t: nat)
    requires t < |s.callers|
  {
    RestReadable(s, t) && (s.callers[t].todo != [] ==> ReadableCalls(s.callers[t].todo[1..]))
  }

  predicate StillReadable(s: State) {
    forall t :: 0 <= t < |s.callers| ==> CallerReadable(s, t)
  }

  // ---- Every step keeps it, in both directions ----

  lemma {:induction false} OthersSame(s: State, t: State, u: nat)
    requires u < |s.callers| == |t.callers| && t.callers[u] == s.callers[u]
    requires Busy(t, u) == Busy(s, u) && (Busy(s, u) ==> t.worker == s.worker)
    ensures CallerReadable(t, u) <==> CallerReadable(s, u)
  {
  }

  /** A step that changes one caller, and the worker only if it is or gets busy with that caller. */
  lemma {:induction false} OneCallerSame(s: State, t: State, u: nat)
    requires u < |s.callers| == |t.callers| && t.callers == s.callers[u := t.callers[u]]
    requires forall v :: 0 <= v < |s.callers| && v != u ==>
               Busy(t, v) == Busy(s, v) && (Busy(s, v) ==> t.worker == s.worker)
    requires CallerReadable(t, u) <==> CallerReadable(s, u)
    ensures StillReadable(t) <==> StillReadable(s)
  {
    forall v | 0 <= v < |s.callers| ensures CallerReadable(t, v) <==> CallerReadable(s, v) {
      if v != u {
        OthersSame(s, t, v);
      }
    }
  }

  /** A caller between two calls. */
  lemma {:induction false} BetweenCalls(s: State, u: nat)
    requires u < |s.callers| && !Busy(s, u)
    requires var c := s.callers[u]; c == Fresh(c.todo, c.no, c.queue)
    ensures CallerReadable(s, u) <==> ReadableCalls(s.callers[u].todo)
  {
    var c := s.callers[u];
    assert Body(c)[0..] == Body(c) && Tasks(c)[0..] == Tasks(c);
    if c.todo != [] {
      var more := c.todo[1..];
      assert ReadableCall(c.todo[0]) <==> RestReadable(s, u);
      assert forall k :: 0 < k < |c.todo| ==> c.todo[k] == more[k - 1];
      assert ReadableCalls(more) <==> forall k :: 0 < k < |c.todo| ==> ReadableCall(c.todo[k]);
    }
  }

  /** A chunk that arrives, or the end of the stream, is no longer to come. */
  lemma {:induction false} TransferSame(s: State, step: Step, u: nat)
    requires Inv(s) && Enabled(s, step)
    requires step == Start(u) || step == Enqueue(u) || step == Arrive(u) || step == End(u)
    ensures StillReadable(Apply(s, step)) <==> StillReadable(s)
  {
    var t := Apply(s, step);
    var c := s.callers[u];
    assert CallerInv(s, u);
    if step.Arrive? {
      assert Body(c)[c.chunks..][1..] == Body(c)[c.chunks + 1..];
    }
    assert Stream(t.callers[u]) == Stream(c);
    OneCallerSame(s, t, u);
  }

  lemma {:induction false} ReturnSame(s: State, u: nat)
    requires Inv(s) && Enabled(s, Step.Return(u))
    ensures StillReadable(Apply(s, Step.Return(u))) <==> StillReadable(s)
  {
    var t, c := Apply(s, Step.Return(u)), s.callers[u];
    AllDoneAtReturn(s, u);
    assert CallerInv(s, u);
    assert Tasks(c)[c.done..] == [];
    BetweenCalls(t, u);
    OneCallerSame(s, t, u);
  }

  lemma {:induction false} TakeTaskSame(s: State, u: nat)
    requires Inv(s) && Enabled(s, TakeTask(u))
    ensures StillReadable(Apply(s, TakeTask(u))) <==> StillReadable(s)
  {
    assert CallerInv(s, u);
    assert s.callers[u].queue[0] == Item(u, s.callers[u].no, s.callers[u].done);
    OneCallerSame(s, Apply(s, TakeTask(u)), u);
  }

  lemma {:induction false} OneFrame(actions: seq<Action>, ends: bool, stream: Deque)
    ensures StackEnd([Callback(actions, ends)], stream) == ActionsEnd(actions, stream)
  {
  }

  lemma {:induction false} BeginSame(s: State)
    requires Inv(s) && Enabled(s, BeginTask)
    ensures StillReadable(Apply(s, BeginTask)) <==> StillReadable(s)
  {
    var t, u := Apply(s, BeginTask), s.worker.item.caller;
    var c := s.callers[u];
    assert CallerInv(s, u);
    if !c.stopped {
      var task := Tasks(c)[c.done];
      assert Tasks(c)[c.done..][1..] == Tasks(c)[c.done + 1..];
      OneFrame(task.actions, Ends(task), Stream(c));
    }
    OneCallerSame(s, t, u);
  }

  // ---- A step of a callback ----

  /** The deque holds a part of the stream, and the end only if it holds all of it. */
  predicate PartOf(deque: Deque, stream: Deque) {
    deque.bytes <= stream.bytes && (deque.end ==> stream == deque)
  }

  /** What is left of the stream after a read. */
  function After(stream: Deque, before: Deque, after: Deque): Deque {
    Deque(if before.bytes <= stream.bytes + after.bytes then stream.bytes + after.bytes - before.bytes else 0,
          stream.end && (before.end ==> after.end))
  }

  /** A read that goes on will leave what it would have left. */
  lemma {:induction false} ReadSame(deque: Deque, stream: Deque, bytes: nat, actions: seq<Action>)
    requires CanRead(deque, bytes) && PartOf(deque, stream)
    ensures var (after, more) := ReadOn(deque, bytes);
            ActionsEnd(more + actions, After(stream, deque, after)) == ActionsEnd([Read(bytes)] + actions, stream)
  {
    var (after, more) := ReadOn(deque, bytes);
    assert ([Read(bytes)] + actions)[1..] == actions;
    if more == [] {
      assert more + actions == actions;
    } else {
      assert (more + actions)[1..] == actions;
    }
  }

  lemma {:induction false} TopCallback(rest: seq<Frame>, actions: seq<Action>, ends: bool, stream: Deque)
    ensures StackEnd(rest + [Callback(actions, ends)], stream)
            == var n := |rest| - 1;
               if rest != [] && rest[n].Inline? then
                 var left := ActionsEnd(actions, rest[n].deque);
                 if left.Some? && (ends || ReadableTasks(rest[n].tasks, left.value)) then StackEnd(rest[..n], stream)
                 else None
               else ActionsEnd(actions, stream)
  {
    var stack := rest + [Callback(actions, ends)];
    if rest != [] {
      assert stack[..|stack| - 2] == rest[..|rest| - 1];
    }
  }

  lemma {:induction false} TopInline(rest: seq<Frame>, inline: Frame, stream: Deque)
    requires inline.Inline?
    ensures StackEnd(rest + [inline], stream)
            == if inline.stopped || ReadableTasks(inline.tasks, inline.deque) then StackEnd(rest, stream) else None
  {
    assert (rest + [inline])[..|rest|] == rest;
  }

  /** An inline call goes on with its next callback, or is done. */
  lemma {:induction false} InlineSame(deque: Deque, rest: seq<Frame>, inline: Frame, stream: Deque)
    requires inline.Inline?
    ensures StackEnd(TurnStack(deque, rest + [inline]).1, stream) == StackEnd(rest + [inline], stream)
  {
    TopInline(rest, inline, stream);
    assert (rest + [inline])[..|rest|] == rest;
    if !inline.stopped && inline.tasks != [] {
      var next := inline.(tasks := inline.tasks[1..]);
      var task := inline.tasks[0];
      TopCallback(rest + [next], task.actions, Ends(task), stream);
      assert (rest + [next])[..|rest|] == rest;
      assert rest + [next, Callback(task.actions, Ends(task))] == rest + [next] + [Callback(task.actions, Ends(task))];
    }
  }

  /** A callback that returns leaves its flag to its inline call. */
  lemma {:induction false} CallbackEnds(rest: seq<Frame>, ends: bool, stream: Deque)
    requires rest != [] && rest[|rest| - 1].Inline?
    ensures var n := |rest| - 1;
            StackEnd(rest[n := rest[n].(stopped := ends)], stream) == StackEnd(rest + [Callback([], ends)], stream)
  {
    var n := |rest| - 1;
    TopCallback(rest, [], ends, stream);
    TopInline(rest[..n], rest[n].(stopped := ends), stream);
    assert rest[..n] + [rest[n].(stopped := ends)] == rest[n := rest[n].(stopped := ends)];
  }

  /** A callback that calls the bucket again goes on when that call is done. */
  lemma {:induction false} NestedSame(rest: seq<Frame>, actions: seq<Action>, ends: bool, stream: Deque)
    requires actions != [] && actions[0].Nested?
    ensures var call := actions[0].call;
            var above := [Callback(actions[1..], ends), Inline(call.tasks, false, Deque(Sum(call.body), true))];
            StackEnd(rest + above, stream) == StackEnd(rest + [Callback(actions, ends)], stream)
  {
    var call := actions[0].call;
    var below, inline := Callback(actions[1..], ends), Inline(call.tasks, false, Deque(Sum(call.body), true));
    var source := if rest != [] && rest[|rest| - 1].Inline? then rest[|rest| - 1].deque else stream;
    assert ActionsEnd(actions, source) == if ReadableCall(call) then ActionsEnd(actions[1..], source) else None;
    TopCallback(rest, actions, ends, stream);
    TopCallback(rest, actions[1..], ends, stream);
    TopInline(rest + [below], inline, stream);
    assert rest + [below, inline] == rest + [below] + [inline];
  }

  /** A read from the deque of an inline call. */
  lemma {:induction false} InlineReadSame(rest: seq<Frame>, actions: seq<Action>, ends: bool, stream: Deque)
    requires rest != [] && rest[|rest| - 1].Inline?
    requires actions != [] && actions[0].Read? && CanRead(rest[|rest| - 1].deque, actions[0].bytes)
    ensures var n := |rest| - 1;
            var (after, more) := ReadOn(rest[n].deque, actions[0].bytes);
            StackEnd(rest[n := rest[n].(deque := after)] + [Callback(more + actions[1..], ends)], stream)
            == StackEnd(rest + [Callback(actions, ends)], stream)
  {
    var n := |rest| - 1;
    var source := rest[n].deque;
    var (after, more) := ReadOn(source, actions[0].bytes);
    ReadSame(source, source, actions[0].bytes, actions[1..]);
    assert After(source, source, after) == after;
    assert [Read(actions[0].bytes)] + actions[1..] == actions;
    TopCallback(rest, actions, ends, stream);
    var next := rest[n := rest[n].(deque := after)];
    assert next[..n] == rest[..n];
    TopCallback(next, more + actions[1..], ends, stream);
  }

  /** A read of the queued callback. */
  lemma {:induction false} QueuedReadSame(deque: Deque, stream: Deque, actions: seq<Action>, ends: bool)
    requires actions != [] && actions[0].Read? && CanRead(deque, actions[0].bytes) && PartOf(deque, stream)
    ensures var (after, more) := ReadOn(deque, actions[0].bytes);
            StackEnd([] + [Callback(more + actions[1..], ends)], After(stream, deque, after))
            == StackEnd([] + [Callback(actions, ends)], stream)
  {
    var (after, more) := ReadOn(deque, actions[0].bytes);
    ReadSame(deque, stream, actions[0].bytes, actions[1..]);
    assert [Read(actions[0].bytes)] + actions[1..] == actions;
    TopCallback([], more + actions[1..], ends, After(stream, deque, after));
    TopCallback([], actions, ends, stream);
  }

  lemma {:induction false} CallbackTurnSame(
    deque: Deque, stream: Deque, rest: seq<Frame>, actions: seq<Action>, ends: bool)
    requires rest != [] ==> rest[|rest| - 1].Inline?
    requires CanTurn(deque, rest + [Callback(actions, ends)]) && PartOf(deque, stream)
    ensures var (after, next) := CallbackTurn(deque, rest, actions, ends);
            StackEnd(next, After(stream, deque, after)) == StackEnd(rest + [Callback(actions, ends)], stream)
  {
    var stack := rest + [Callback(actions, ends)];
    assert After(stream, deque, deque) == stream;
    if actions == [] {
      if rest != [] {
        CallbackEnds(rest, ends, stream);
      } else {
        TopCallback(rest, actions, ends, stream);
      }
    } else if actions[0].Nested? {
      NestedSame(rest, actions, ends, stream);
    } else if rest != [] {
      assert Source(deque, stack) == rest[|rest| - 1].deque;
      InlineReadSame(rest, actions, ends, stream);
    } else {
      assert Source(deque, stack) == deque;
      QueuedReadSame(deque, stream, actions, ends);
    }
  }

  /** A step of a callback or an inline call leaves, in the end, what would have been left without it. */
  lemma {:induction false} TurnStackSame(deque: Deque, stream: Deque, stack: seq<Frame>, ends: bool)
    requires StackFits(stack, ends) && CanTurn(deque, stack) && PartOf(deque, stream)
    ensures var (after, rest) := TurnStack(deque, stack);
            StackEnd(rest, After(stream, deque, after)) == StackEnd(stack, stream)
  {
    var rest, top := stack[..|stack| - 1], stack[|stack| - 1];
    assert stack == rest + [top];
    assert After(stream, deque, deque) == stream;
    match top
    case Inline(_, _, _) => InlineSame(deque, rest, top, stream);
    case Callback(actions, end) =>
      assert rest != [] ==> rest[|rest| - 1].Inline?;
      CallbackTurnSame(deque, stream, rest, actions, end);
  }

  /** What is still to come when the queued callback has gone on: its deque has changed, or its call. */
  lemma {:induction false} TurnStream(c: Caller, deque: Deque)
    requires TransferInOrder(c) && deque.bytes <= c.deque.bytes && (deque.end ==> c.deque.end)
    ensures PartOf(c.deque, Stream(c))
    ensures Stream(c.(deque := deque)) == After(Stream(c), c.deque, deque)
  {
    if c.phase == Waiting {
      assert Body(c)[c.chunks..] == [];
    }
  }

  lemma {:induction false} TurnLeavesSame(c: Caller, stack: seq<Frame>, ends: bool)
    requires TransferInOrder(c) && StackFits(stack, ends) && CanTurn(c.deque, stack)
    ensures var (deque, rest) := TurnStack(c.deque, stack);
            StackEnd(rest, Stream(c.(deque := deque))) == StackEnd(stack, Stream(c))
  {
    var (deque, _) := TurnStack(c.deque, stack);
    TurnStackFits(c.deque, stack, ends);
    TurnStream(c, deque);
    TurnStackSame(c.deque, Stream(c), stack, ends);
  }

  lemma {:induction false} TurnRest(s: State)
    requires Inv(s) && Enabled(s, Turn)
    ensures RestReadable(Apply(s, Turn), s.worker.item.caller) <==> RestReadable(s, s.worker.item.caller)
  {
    var t, item, stack := Apply(s, Turn), s.worker.item, s.worker.stack;
    var u := item.caller;
    var c := s.callers[u];
    var ends := Ends(Tasks(c)[item.index]);
    assert CallerInv(s, u);
    TurnStackFits(c.deque, stack, ends);
    var (deque, rest) := TurnStack(c.deque, stack);
    TurnLeavesSame(c, stack, ends);
    assert Stream(t.callers[u]) == Stream(c.(deque := deque));
    assert EndsCall(stack) == ends;
    if rest != [] {
      assert EndsCall(rest) == ends;
    }
  }

  lemma {:induction false} TurnSame(s: State)
    requires Inv(s) && Enabled(s, Turn)
    ensures StillReadable(Apply(s, Turn)) <==> StillReadable(s)
  {
    TurnRest(s);
    OneCallerSame(s, Apply(s, Turn), s.worker.item.caller);
  }

  lemma {:induction false} WorkerOnlySame(s: State, t: State)
    requires t.callers == s.callers
    requires t.worker == s.worker || !(s.worker.Begin? || s.worker.Run? || t.worker.Begin? || t.worker.Run?)
    ensures StillReadable(t) <==> StillReadable(s)
  {
    forall v | 0 <= v < |s.callers| ensures CallerReadable(t, v) <==> CallerReadable(s, v) {
      OthersSame(s, t, v);
    }
  }

  /** No step makes a read that ends one that does not, or the other way round. */
  lemma {:induction false} StepSame(s: State, step: Step)
    requires Inv(s) && Enabled(s, step)
    ensures StillReadable(Apply(s, step)) <==> StillReadable(s)
  {
    match step
    case Start(t) => TransferSame(s, step, t);
    case Enqueue(t) => TransferSame(s, step, t);
    case Arrive(t) => TransferSame(s, step, t);
    case End(t) => TransferSame(s, step, t);
    case Return(t) => ReturnSame(s, t);
    case Loop => WorkerOnlySame(s, Apply(s, step));
    case TakeTask(t) => TakeTaskSame(s, t);
    case TakeWake => WorkerOnlySame(s, Apply(s, step));
    case BeginTask => BeginSame(s);
    case Turn => TurnSame(s);
    case SetStop => WorkerOnlySame(s, Apply(s, step));
    case Wake => WorkerOnlySame(s, Apply(s, step));
    case Join => WorkerOnlySame(s, Apply(s, step));
  }

  lemma {:induction false} StartSame(s: State)
    requires IsStart(s)
    ensures StillReadable(s) <==> Readable(s)
  {
    forall t | 0 <= t < |s.callers| ensures CallerReadable(s, t) <==> ReadableCalls(s.callers[t].todo) {
      BetweenCalls(s, t);
    }
  }

  lemma {:induction false} NextSame(s: State, t: State)
    requires Inv(s) && Next(s, t)
    ensures StillReadable(t) <==> StillReadable(s)
  {
    var step := StepBetween(s, t);
    StepSame(s, step);
  }

  /** At any point of a run the rest of the program is readable exactly when the whole program was. */
  lemma {:induction false} RunSame(run: seq<State>, i: nat)
    requires IsRun(run) && i < |run|
    ensures StillReadable(run[i]) <==> Readable(run[0])
  {
    if i == 0 {
      StartSame(run[0]);
    } else {
      RunSame(run, i - 1);
      RunKeeps(run, i - 1);
      assert Next(run[i - 1], run[i]);
      NextSame(run[i - 1], run[i]);
    }
  }

  // ---- Deadlock freedom ----

  /** A caller whose transfer is under way can always go on. */
  lemma {:induction false} TransferGoesOn(s: State, t: nat) returns (step: Step)
    requires t < |s.callers| && CallerInv(s, t) && s.callers[t].phase == Transferring
    ensures Enabled(s, step) && (step == Enqueue(t) || step == Arrive(t) || step == End(t))
  {
    var c := s.callers[t];
    step := if c.sent < |Tasks(c)| then Enqueue(t) else if c.chunks < |Body(c)| then Arrive(t) else End(t);
  }

  /** A stack that comes to an end can go on when all of the stream has arrived. */
  lemma {:induction false} StackGoesOn(stream: Deque, stack: seq<Frame>)
    requires stack != [] && StackEnd(stack, stream).Some?
    ensures CanTurn(stream, stack)
  {
    var rest, top := stack[..|stack| - 1], stack[|stack| - 1];
    assert stack == rest + [top];
    if top.Callback? && top.actions != [] {
      TopCallback(rest, top.actions, top.ends, stream);
      assert ActionsEnd(top.actions, Source(stream, stack)).Some?;
    }
  }

  /**
   A callback that waits for bytes waits for a caller that is still receiving them, never for one that waits for it.
   */
  lemma {:induction false} WorkerGoesOn(s: State) returns (step: Step)
    requires Inv(s) && StillReadable(s) && (s.worker.Begin? || s.worker.Run?)
    ensures Enabled(s, step)
    ensures step == BeginTask || step == Turn
            || step == Enqueue(s.worker.item.caller) || step == Arrive(s.worker.item.caller)
            || step == End(s.worker.item.caller)
  {
    var u := s.worker.item.caller;
    var c := s.callers[u];
    assert CallerInv(s, u) && CallerReadable(s, u);
    if s.worker.Begin? {
      step := BeginTask;
    } else if c.phase == Transferring {
      step := TransferGoesOn(s, u);
    } else {
      assert Body(c)[c.chunks..] == [];
      StackGoesOn(c.deque, s.worker.stack);
      step := Turn;
    }
  }

  predicate Finished(c: Caller) {
    c.phase == Idle && c.todo == []
  }

  /** Whenever some caller has not finished, some thread has an enabled step, as long as the bucket is not shut down. */
  lemma {:induction false} SomeoneGoesOn(s: State, t: nat) returns (step: Step)
    requires Inv(s) && StillReadable(s) && ShutdownInv(s) && !Stopping(s)
    requires t < |s.callers| && !Finished(s.callers[t])
    ensures Enabled(s, step) && !step.SetStop? && !step.Wake? && !step.Join?
  {
    var c := s.callers[t];
    assert CallerInv(s, t);
    match c.phase
    case Idle => step := Start(t);
    case Transferring => step := TransferGoesOn(s, t);
    case Waiting =>
      if s.worker.Begin? || s.worker.Run? {
        step := WorkerGoesOn(s);
      } else if s.worker == Check {
        step := Loop;
      } else {
        step := if c.done == |Tasks(c)| then Step.Return(t) else TakeTask(t);
      }
  }

  /** In every run, with any callers and any nesting of calls in callbacks, there is no deadlock. */
  lemma {:induction false} NoDeadlock(run: seq<State>, i: nat, t: nat) returns (step: Step)
    requires IsRun(run) && i < |run| && Readable(run[0]) && !Stopping(run[i])
    requires t < |run[i].callers| && !Finished(run[i].callers[t])
    ensures Enabled(run[i], step) && !step.SetStop? && !step.Wake? && !step.Join?
  {
    RunKeeps(run, i);
    RunSame(run, i);
    ShutdownIsPrompt(run, i);
    step := SomeoneGoesOn(run[i], t);
  }

  /**
   After the empty task is enqueued the worker gets to its end: it or a caller it waits for can go on until it has
   exited.
   */
  lemma {:induction false} JoinCompletes(run: seq<State>, i: nat) returns (step: Step)
    requires IsRun(run) && i < |run| && Readable(run[0]) && run[i].shutdown == WakeEnqueued
    ensures Enabled(run[i], step)
    ensures if run[i].worker == Exited then step == Join
            else step == Loop || step == TakeWake || step == BeginTask || step == Turn
                 || step.Enqueue? || step.Arrive? || step.End?
  {
    RunKeeps(run, i);
    RunSame(run, i);
    ShutdownIsPrompt(run, i);
    var s := run[i];
    match s.worker
    case Check => step := Loop;
    case Dequeue => step := TakeWake;
    case Exited => step := Join;
    case Begin(_) => step := WorkerGoesOn(s);
    case Run(_, _) => step := WorkerGoesOn(s);
  }
}
