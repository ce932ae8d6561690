/** What holds in every run of the callers, the worker and the destructor. */
module WorkerRuns {
  import opened Batches
  import opened Delivery
  import opened Worker

  // ---- Completion before return ----

  /**
   In every interleaving, when a call returns all its tasks have finished, although it waited for the last one
   only: none of them is in the queue or with the worker, so none can touch the local variables of the call.
   */
  lemma {:induction false} CompletionBeforeReturn(run: seq<State>, i: nat, t: nat)
    requires IsRun(run) && i < |run| && Enabled(run[i], Step.Return(t))
    ensures var s, c := run[i], run[i].callers[t];
            && (forall k :: 0 <= k < |Tasks(c)| ==> Item(t, c.no, k) in s.finished)
            && (forall u, j :: 0 <= u < |s.callers| && 0 <= j < |s.callers[u].queue| ==>
                  s.callers[u].queue[j].caller != t)
            && !Busy(s, t)
  {
    var s := run[i];
    RunKeeps(run, i);
    AllDoneAtReturn(s, t);
    forall u, j | 0 <= u < |s.callers| && 0 <= j < |s.callers[u].queue| ensures s.callers[u].queue[j].caller != t {
      assert CallerInv(s, u);
    }
  }

  /** No task ever runs for a call that has returned. */
  lemma {:induction false} NothingDangles(run: seq<State>, i: nat)
    requires IsRun(run) && i < |run|
    ensures !run[i].dangling
  {
    RunKeeps(run, i);
  }

  /** The records of a call, and a callback that answers as the tasks say. */
  predicate Describes(tasks: seq<Task>, records: seq<ReadableRecord>, callback: nat -> bool) {
    && |records| == |tasks|
    && forall k :: 0 <= k < |tasks| ==> records[k].last == tasks[k].last && callback(k) == tasks[k].goOn
  }

  /** A call that returns has delivered the records that RunCallbacksInline would deliver, and left the same flag. */
  lemma {:induction false} ReturnsInlineResult(
    run: seq<State>, i: nat, t: nat, records: seq<ReadableRecord>, callback: nat -> bool)
    requires IsRun(run) && i < |run| && Enabled(run[i], Step.Return(t))
    requires Describes(Tasks(run[i].callers[t]), records, callback)
    ensures var c := run[i].callers[t];
            && c.invoked <= |records|
            && Progress(records[..c.invoked], c.stopped) == RunTasks(Progress([], false), records, callback)
  {
    var s, c := run[i], run[i].callers[t];
    RunKeeps(run, i);
    AllDoneAtReturn(s, t);
    assert CallerInv(s, t);
    var outcome := Progress(records[..c.invoked], c.stopped);
    assert [] + records[..c.invoked] == records[..c.invoked];
    forall k | 0 <= k < |records| ensures EndsAt(records, callback, 0, k) == Ends(Tasks(c)[k]) {
      assert callback(0 + k) == callback(k);
    }
    assert IsPrefixUpTo(Progress([], false), records, callback, outcome, c.invoked);
    QueuedEqualsInline(Progress([], false), records, callback, outcome);
  }

  // ---- Order of callbacks ----

  /** For which tasks of a call the callback was invoked, in order. */
  function Invocations(log: seq<Item>, t: nat, no: nat): seq<nat> {
    if log == [] then []
    else
      var last := log[|log| - 1];
      Invocations(log[..|log| - 1], t, no) + if last.caller == t && last.no == no then [last.index] else []
  }

  lemma {:induction false} OneMoreInvocation(log: seq<Item>, item: Item, t: nat, no: nat)
    ensures Invocations(log + [item], t, no)
            == Invocations(log, t, no) + if item.caller == t && item.no == no then [item.index] else []
  {
    assert (log + [item])[..|log|] == log;
  }

  ghost predicate InOrderOf(s: State, t: nat)
    requires t < |s.callers|
  {
    var c := s.callers[t];
    && Invocations(s.log, t, c.no) == Indices(c.invoked)
    && (forall no: nat :: no < c.no ==> Invocations(s.log, t, no) == Indices(|Invocations(s.log, t, no)|))
    && (forall no: nat :: no > c.no ==> Invocations(s.log, t, no) == [])
  }

  ghost predicate LogInOrder(s: State) {
    forall t :: 0 <= t < |s.callers| ==> InOrderOf(s, t)
  }

  lemma {:induction false} LogSame(s: State, step: Step)
    requires Inv(s) && LogInOrder(s) && Enabled(s, step)
    requires !step.Return? && !step.BeginTask?
    ensures LogInOrder(Apply(s, step))
  {
    var t := Apply(s, step);
    forall u | 0 <= u < |t.callers| ensures InOrderOf(t, u) {
      assert InOrderOf(s, u);
      SameInvoked(s, step, u);
    }
  }

  lemma {:induction false} SameInvoked(s: State, step: Step, u: nat)
    requires Inv(s) && Enabled(s, step) && !step.Return? && !step.BeginTask? && u < |s.callers|
    ensures var t := Apply(s, step);
            && |t.callers| == |s.callers| && t.log == s.log
            && t.callers[u].no == s.callers[u].no && t.callers[u].invoked == s.callers[u].invoked
  {
  }

  lemma {:induction false} LogAtReturn(s: State, u: nat)
    requires LogInOrder(s) && Enabled(s, Step.Return(u))
    ensures LogInOrder(Apply(s, Step.Return(u)))
  {
    var t := Apply(s, Step.Return(u));
    forall v | 0 <= v < |t.callers| ensures InOrderOf(t, v) {
      assert InOrderOf(s, v);
    }
  }

  lemma {:induction false} IndicesMore(n: nat)
    ensures Indices(n) + [n] == Indices(n + 1)
  {
  }

  lemma {:induction false} LogAtBegin(s: State)
    requires Inv(s) && LogInOrder(s) && Enabled(s, BeginTask)
    ensures LogInOrder(Apply(s, BeginTask))
  {
    var t, item := Apply(s, BeginTask), s.worker.item;
    assert CallerInv(s, item.caller);
    forall u | 0 <= u < |t.callers| ensures InOrderOf(t, u) {
      assert InOrderOf(s, u);
      forall no: nat ensures Invocations(s.log + [item], u, no)
            == Invocations(s.log, u, no) + if item.caller == u && item.no == no then [item.index] else []
      {
        OneMoreInvocation(s.log, item, u, no);
      }
      IndicesMore(s.callers[u].invoked);
    }
  }

  lemma {:induction false} LogAtStart(s: State)
    requires IsStart(s)
    ensures LogInOrder(s)
  {
    assert Indices(0) == [];
  }

  lemma {:induction false} LogNext(s: State, t: State)
    requires Inv(s) && LogInOrder(s) && Next(s, t)
    ensures LogInOrder(t)
  {
    var step := StepBetween(s, t);
    if step.Return? {
      LogAtReturn(s, step.t);
    } else if step.BeginTask? {
      LogAtBegin(s);
    } else {
      LogSame(s, step);
    }
  }

  /** The callback is invoked for the records of a call in their order, without gaps. */
  lemma {:induction false} CallbacksInOrder(run: seq<State>, i: nat)
    requires IsRun(run) && i < |run|
    ensures LogInOrder(run[i])
  {
    if i == 0 {
      LogAtStart(run[0]);
    } else {
      CallbacksInOrder(run, i - 1);
      RunKeeps(run, i - 1);
      assert Next(run[i - 1], run[i]);
      LogNext(run[i - 1], run[i]);
    }
  }

  // ---- Shutdown ----

  ghost predicate ShutdownInv(s: State) {
    && s.late <= 1
    && (!Stopping(s) ==> s.late == 0 && s.worker != Exited)
    && (s.worker == Dequeue ==> s.late == 0)
    && (s.shutdown == WakeEnqueued && s.worker == Dequeue ==> s.wake > 0)
    && (s.shutdown == NotYet || s.shutdown == StopSet ==> s.wake == 0)
    && (s.shutdown == Joined ==> s.worker == Exited)
  }

  lemma {:induction false} ShutdownStep(s: State, step: Step)
    requires ShutdownInv(s) && Enabled(s, step)
    ensures ShutdownInv(Apply(s, step))
  {
  }

  lemma {:induction false} ShutdownAtStart(s: State)
    requires IsStart(s)
    ensures ShutdownInv(s)
  {
  }

  lemma {:induction false} ShutdownNext(s: State, t: State)
    requires ShutdownInv(s) && Next(s, t)
    ensures ShutdownInv(t)
  {
    var step := StepBetween(s, t);
    ShutdownStep(s, step);
  }

  /**
   Once stop_ is set the worker takes at most one more task, and once the empty task is enqueued it does not wait
   on an empty queue.
   */
  lemma {:induction false} ShutdownIsPrompt(run: seq<State>, i: nat)
    requires IsRun(run) && i < |run|
    ensures ShutdownInv(run[i])
  {
    if i == 0 {
      ShutdownAtStart(run[0]);
    } else {
      ShutdownIsPrompt(run, i - 1);
      assert Next(run[i - 1], run[i]);
      ShutdownNext(run[i - 1], run[i]);
    }
  }
}
