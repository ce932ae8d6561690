/**
 The same reading while the body is still arriving: every interleaving of the thread that appends to the
 deque and the thread that reads record after record.
 */
module StreamRuns {
  import opened Wrappers
  import opened Text
  import opened Batches
  import opened Stream

  /** How a read stands: it goes on, has all bytes of its record, was refused by its callback, or saw the end. */
  datatype Status = Open | Full | Refused | AtEnd

  /** One call of Read: the size of its record, and what its callback has been given. */
  datatype Call = Call(size: nat, got: string, status: Status)

  /** The deque; all bytes that have arrived, and whether the stream has ended; and the calls of Read. */
  datatype State = State(queue: Queue, received: string, ended: bool, calls: seq<Call>)

  datatype Step =
    | Arrive(chunk: string)
    | Finish
    | Begin(size: nat)
    // One round of the loop in Read, and what the callback says if it is called.
    | Round(goOn: bool)

  const START := State([], "", false, [])

  predicate Reading(s: State) {
    s.calls != [] && s.calls[|s.calls| - 1].status == Open
  }

  predicate Enabled(s: State, step: Step) {
    match step
    case Arrive(_) => !s.ended
    case Finish => !s.ended
    case Begin(_) => !Reading(s)
    case Round(_) => Reading(s)
  }

  /** What the callback's thread does with a chunk. */
  function AfterChunk(call: Call, chunk: Option<string>, goOn: bool): Call {
    if chunk.None? then call.(status := AtEnd)
    else if chunk.value == "" then call
    else
      var got := call.got + chunk.value;
      Call(call.size, got, if !goOn then Refused else if |got| >= call.size then Full else Open)
  }

  /** The state after a step. The room never gets negative, because a call is given no more than its size. */
  function Apply(s: State, step: Step): State
    requires Enabled(s, step)
  {
    match step
    case Arrive(chunk) => s.(queue := s.queue + [Some(chunk)], received := s.received + chunk)
    case Finish => s.(queue := s.queue + [None], ended := true)
    case Begin(size) => s.(calls := s.calls + [Call(size, "", Open)])
    case Round(goOn) =>
      var n := |s.calls| - 1;
      var taken := Take(s.queue, Room(s.calls[n]));
      s.(queue := taken.rest, calls := s.calls[n := AfterChunk(s.calls[n], taken.chunk, goOn)])
  }

  function Room(call: Call): nat {
    if |call.got| <= call.size then call.size - |call.got| else 0
  }

  ghost predicate Next(s: State, t: State) {
    exists step :: Enabled(s, step) && t == Apply(s, step)
  }

  /** A run: any steps of the two threads, in any order. */
  ghost predicate IsRun(run: seq<State>) {
    && run != [] && run[0] == START
    && forall i :: 0 <= i < |run| - 1 ==> Next(run[i], run[i + 1])
  }

  // ---- What every step keeps ----

  function GotBy(calls: seq<Call>): (parts: seq<string>)
    ensures |parts| == |calls| && forall k :: 0 <= k < |calls| ==> parts[k] == calls[k].got
  {
    seq(|calls|, k requires 0 <= k < |calls| => calls[k].got)
  }

  /** The bytes handed to callbacks, in order. */
  function Handed(s: State): string {
    Flatten(GotBy(s.calls))
  }

  /** The end of the stream stays in the deque until a read takes it, and then nothing is left. */
  predicate EndInPlace(s: State) {
    EndsLast(s.queue) && (HasEnd(s.queue) ==> s.ended) && (s.ended && !HasEnd(s.queue) ==> s.queue == [])
  }

  predicate CallFits(s: State, k: nat)
    requires k < |s.calls|
  {
    var call := s.calls[k];
    match call.status
    case Open => k == |s.calls| - 1 && (|call.got| < call.size || |call.got| == call.size == 0)
    case Full => |call.got| == call.size
    case Refused => |call.got| <= call.size
    case AtEnd => (|call.got| < call.size || |call.got| == call.size == 0) && s.ended && s.queue == []
  }

  ghost predicate Inv(s: State) {
    && s.received == Handed(s) + Pending(s.queue)
    && EndInPlace(s)
    && forall k :: 0 <= k < |s.calls| ==> CallFits(s, k)
  }

  lemma {:induction false} ArriveKeeps(s: State, chunk: string)
    requires Inv(s) && !s.ended
    ensures Inv(Apply(s, Arrive(chunk)))
  {
    var t := Apply(s, Arrive(chunk));
    PendingAppend(s.queue, Some(chunk));
    ConcatAssociative(Handed(s), Pending(s.queue), chunk);
    assert !HasEnd(s.queue);
    forall k | 0 <= k < |t.calls| ensures CallFits(t, k) {
      assert CallFits(s, k);
    }
  }

  lemma {:induction false} FinishKeeps(s: State)
    requires Inv(s) && !s.ended
    ensures Inv(Apply(s, Finish))
  {
    var t := Apply(s, Finish);
    PendingAppend(s.queue, None);
    assert Pending(s.queue) + "" == Pending(s.queue);
    assert !HasEnd(s.queue);
    forall k | 0 <= k < |t.calls| ensures CallFits(t, k) {
      assert CallFits(s, k);
    }
  }

  lemma {:induction false} BeginKeeps(s: State, size: nat)
    requires Inv(s) && !Reading(s)
    ensures Inv(Apply(s, Begin(size)))
  {
    var t := Apply(s, Begin(size));
    assert GotBy(t.calls) == GotBy(s.calls) + [""];
    FlattenOne(GotBy(s.calls), "");
    assert Handed(s) + "" == Handed(s);
    forall k | 0 <= k < |t.calls| ensures CallFits(t, k) {
      if k < |s.calls| {
        assert CallFits(s, k);
      }
    }
  }

  lemma {:induction false} FlattenGrows(calls: seq<Call>, call: Call, chunk: string)
    requires calls != [] && call.got == calls[|calls| - 1].got + chunk
    ensures Flatten(GotBy(calls[|calls| - 1 := call])) == Flatten(GotBy(calls)) + chunk
  {
    var n := |calls| - 1;
    var before := GotBy(calls[..n]);
    assert GotBy(calls) == before + [calls[n].got];
    assert GotBy(calls[n := call]) == before + [call.got];
    FlattenOne(before, calls[n].got);
    FlattenOne(before, call.got);
    ConcatAssociative(Flatten(before), calls[n].got, chunk);
  }

  lemma {:induction false} GotConserves(s: State, call: Call, chunk: string, rest: Queue)
    requires s.received == Handed(s) + Pending(s.queue) && s.calls != []
    requires chunk + Pending(rest) == Pending(s.queue) && call.got == s.calls[|s.calls| - 1].got + chunk
    ensures s.received == Flatten(GotBy(s.calls[|s.calls| - 1 := call])) + Pending(rest)
  {
    FlattenGrows(s.calls, call, chunk);
    ConcatAssociative(Handed(s), chunk, Pending(rest));
  }

  lemma {:induction false} RoundConserves(s: State, goOn: bool)
    requires Inv(s) && Reading(s)
    ensures var t := Apply(s, Round(goOn)); t.received == Handed(t) + Pending(t.queue)
  {
    var n := |s.calls| - 1;
    var taken := Take(s.queue, Room(s.calls[n]));
    TakeConserves(s.queue, Room(s.calls[n]));
    GotConserves(s, AfterChunk(s.calls[n], taken.chunk, goOn), Bytes(taken.chunk), taken.rest);
  }

  lemma {:induction false} RoundKeeps(s: State, goOn: bool)
    requires Inv(s) && Reading(s)
    ensures Inv(Apply(s, Round(goOn)))
  {
    RoundConserves(s, goOn);
    var t := Apply(s, Round(goOn));
    var n := |s.calls| - 1;
    assert CallFits(s, n);
    TakeKeepsEnd(s.queue, Room(s.calls[n]));
    TakeConserves(s.queue, Room(s.calls[n]));
    forall k | 0 <= k < |t.calls| ensures CallFits(t, k) {
      assert CallFits(s, k);
    }
  }

  /** Bytes handed out plus bytes in the deque are the bytes received, in order, after every step. */
  lemma {:induction false} StepKeeps(s: State, t: State)
    requires Inv(s) && Next(s, t)
    ensures Inv(t)
  {
    var step :| Enabled(s, step) && t == Apply(s, step);
    match step
    case Arrive(chunk) => ArriveKeeps(s, chunk);
    case Finish => FinishKeeps(s);
    case Begin(size) => BeginKeeps(s, size);
    case Round(goOn) => RoundKeeps(s, goOn);
  }

  lemma {:induction false} RunKeeps(run: seq<State>, i: nat)
    requires IsRun(run) && i < |run|
    ensures Inv(run[i])
  {
    if i == 0 {
      assert GotBy([]) == [];
    } else {
      RunKeeps(run, i - 1);
      StepKeeps(run[i - 1], run[i]);
    }
  }

  // ---- What each read gets ----

  lemma {:induction false} SumAppend(a: seq<nat>, x: nat)
    ensures Sum(a + [x]) == Sum(a) + x
  {
    if a == [] {
      assert a + [x] == [x] && [x][1..] == [];
    } else {
      assert (a + [x])[1..] == a[1..] + [x];
      SumAppend(a[1..], x);
    }
  }

  /** Where the bytes of the k-th call begin in the stream. */
  function HandedBefore(calls: seq<Call>, k: nat): nat
    requires k <= |calls|
  {
    |Flatten(GotBy(calls[..k]))|
  }

  /** Every call gets the bytes of the stream that follow those of the calls before it. */
  lemma {:induction false} CallsTile(s: State, k: nat)
    requires Inv(s) && k < |s.calls|
    ensures At(s.received, HandedBefore(s.calls, k), s.calls[k].got)
    ensures HandedBefore(s.calls, k + 1) == HandedBefore(s.calls, k) + |s.calls[k].got|
    ensures k + 1 == |s.calls| ==> |s.received| == HandedBefore(s.calls, k + 1) + |Pending(s.queue)|
  {
    var calls := s.calls;
    var before, got, after := GotBy(calls[..k]), calls[k].got, GotBy(calls[k + 1..]);
    assert GotBy(calls[..k + 1]) == before + [got];
    assert GotBy(calls) == before + [got] + after;
    FlattenOne(before, got);
    FlattenAppend(before + [got], after);
    assert s.received == Flatten(before) + got + Flatten(after) + Pending(s.queue);
  }

  /** The calls so far are for records with these sizes, one after the other. */
  predicate ReadsInOrder(s: State, sizes: seq<nat>) {
    |s.calls| <= |sizes| && forall k :: 0 <= k < |s.calls| ==> s.calls[k].size == sizes[k]
  }

  predicate AllFull(s: State, n: nat)
    requires n <= |s.calls|
  {
    forall k :: 0 <= k < n ==> s.calls[k].status == Full
  }

  lemma {:induction false} FullCallsSum(s: State, sizes: seq<nat>, k: nat)
    requires Inv(s) && ReadsInOrder(s, sizes) && k <= |s.calls| && AllFull(s, k)
    ensures HandedBefore(s.calls, k) == Sum(sizes[..k])
  {
    if k == 0 {
      assert GotBy(s.calls[..0]) == [];
    } else {
      FullCallsSum(s, sizes, k - 1);
      CallsTile(s, k - 1);
      assert CallFits(s, k - 1);
      assert sizes[..k] == sizes[..k - 1] + [sizes[k - 1]];
      SumAppend(sizes[..k - 1], sizes[k - 1]);
    }
  }

  /**
   In every run, if the calls before it read their records in full, the k-th call gets bytes of the stream
   from the sum of the earlier sizes on: all bytes of its record once it is done, and fewer only when its
   callback refused or the stream is shorter than that.
   */
  lemma {:induction false} ReadGetsInterval(run: seq<State>, i: nat, sizes: seq<nat>, k: nat)
    requires IsRun(run) && i < |run|
    requires var s := run[i]; ReadsInOrder(s, sizes) && k < |s.calls| && AllFull(s, k)
    ensures var s, start := run[i], Sum(sizes[..k]);
            var call := s.calls[k];
            && At(s.received, start, call.got) && |call.got| <= sizes[k]
            && (call.status == Full ==> |call.got| == sizes[k])
            && (call.status == AtEnd ==>
                  s.ended && |s.received| == start + |call.got| && (|call.got| < sizes[k] || sizes[k] == 0))
  {
    var s := run[i];
    RunKeeps(run, i);
    FullCallsSum(s, sizes, k);
    CallsTile(s, k);
    assert CallFits(s, k);
    if s.calls[k].status == AtEnd {
      NothingAfterEnd(run, i, k);
    }
  }

  /** Calls behind one that saw the end of the stream are given nothing. */
  ghost predicate EndIsFinal(s: State) {
    forall j, k :: 0 <= j < k < |s.calls| && s.calls[j].status == AtEnd ==> s.calls[k].got == ""
  }

  lemma {:induction false} EndStaysFinal(s: State, t: State)
    requires Inv(s) && EndIsFinal(s) && Next(s, t)
    ensures EndIsFinal(t)
  {
    var step :| Enabled(s, step) && t == Apply(s, step);
    if step.Round? {
      var n := |s.calls| - 1;
      assert s.calls[n].status == Open;
      forall j, k | 0 <= j < k < |t.calls| && t.calls[j].status == AtEnd ensures t.calls[k].got == "" {
        assert CallFits(s, j);
      }
    }
  }

  lemma {:induction false} RunEndIsFinal(run: seq<State>, i: nat)
    requires IsRun(run) && i < |run|
    ensures EndIsFinal(run[i])
  {
    if i > 0 {
      RunEndIsFinal(run, i - 1);
      RunKeeps(run, i - 1);
      EndStaysFinal(run[i - 1], run[i]);
    }
  }

  lemma {:induction false} HandedAfterEnd(s: State, k: nat, n: nat)
    requires Inv(s) && EndIsFinal(s) && k < n <= |s.calls| && s.calls[k].status == AtEnd
    ensures HandedBefore(s.calls, n) == HandedBefore(s.calls, k + 1)
  {
    if n > k + 1 {
      HandedAfterEnd(s, k, n - 1);
      CallsTile(s, n - 1);
    }
  }

  /** A call that saw the end took the last bytes of the stream. */
  lemma {:induction false} NothingAfterEnd(run: seq<State>, i: nat, k: nat)
    requires IsRun(run) && i < |run| && k < |run[i].calls| && run[i].calls[k].status == AtEnd
    ensures var s := run[i];
            s.ended && |s.received| == HandedBefore(s.calls, k) + |s.calls[k].got|
  {
    var s := run[i];
    RunKeeps(run, i);
    RunEndIsFinal(run, i);
    assert CallFits(s, k);
    HandedAfterEnd(s, k, |s.calls|);
    CallsTile(s, k);
    CallsTile(s, |s.calls| - 1);
  }

  // ---- When a read comes to an end ----

  /**
   An open read whose stream has ended can finish when the end has not been taken by an earlier read, and
   the record is not empty or no bytes wait.
   */
  predicate CanFinish(s: State)
    requires Reading(s)
  {
    s.queue != [] && (s.calls[|s.calls| - 1].size > 0 || Pending(s.queue) == "")
  }

  /** Once all data has arrived, every round brings a read that can finish closer to its end. */
  lemma {:induction false} RoundProgresses(s: State, goOn: bool)
    requires Inv(s) && Reading(s) && s.ended && CanFinish(s)
    ensures var t := Apply(s, Round(goOn));
            Reading(t) ==> t.ended && CanFinish(t) && |t.queue| < |s.queue|
  {
    var n := |s.calls| - 1;
    assert CallFits(s, n);
    TakeKeepsEnd(s.queue, Room(s.calls[n]));
    TakeConserves(s.queue, Room(s.calls[n]));
  }

  /** One that cannot finish is never given anything again. */
  lemma {:induction false} RoundStutters(s: State, goOn: bool)
    requires Inv(s) && Reading(s) && s.ended && !CanFinish(s)
    ensures var t := Apply(s, Round(goOn));
            t.calls == s.calls && t.ended && !CanFinish(t)
  {
    var n := |s.calls| - 1;
    assert CallFits(s, n);
    TakeKeepsEnd(s.queue, Room(s.calls[n]));
    TakeConserves(s.queue, Room(s.calls[n]));
  }

  /** n rounds of the reading thread alone. */
  function Rounds(s: State, goOn: nat -> bool, n: nat): State {
    if n == 0 then s
    else
      var t := Rounds(s, goOn, n - 1);
      if Reading(t) then Apply(t, Round(goOn(n - 1))) else t
  }

  lemma {:induction false} RoundsKeep(s: State, goOn: nat -> bool, n: nat)
    requires Inv(s) && Reading(s) && s.ended
    ensures var t := Rounds(s, goOn, n);
            && Inv(t)
            && (CanFinish(s) ==> !Reading(t) || (t.ended && CanFinish(t) && |t.queue| + n <= |s.queue|))
            && (!CanFinish(s) ==> t.calls == s.calls && t.ended && !CanFinish(t))
  {
    if n > 0 {
      RoundsKeep(s, goOn, n - 1);
      var t := Rounds(s, goOn, n - 1);
      if Reading(t) {
        RoundKeeps(t, goOn(n - 1));
        if CanFinish(s) {
          RoundProgresses(t, goOn(n - 1));
        } else {
          RoundStutters(t, goOn(n - 1));
        }
      }
    }
  }

  /**
   Once the stream has ended, a read finishes, whatever its callback says and within as many rounds as the
   deque has items, exactly when it can; otherwise it polls forever.
   */
  lemma {:induction false} FinishesExactlyWhen(s: State, goOn: nat -> bool)
    requires Inv(s) && Reading(s) && s.ended
    ensures (exists n :: !Reading(Rounds(s, goOn, n))) <==> CanFinish(s)
    ensures CanFinish(s) ==> !Reading(Rounds(s, goOn, |s.queue|))
  {
    RoundsKeep(s, goOn, |s.queue|);
    if n :| !Reading(Rounds(s, goOn, n)) {
      RoundsKeep(s, goOn, n);
    }
  }

  /** A record that is not empty and whose bytes have all arrived can be read to its end. */
  lemma {:induction false} EnoughCanFinish(run: seq<State>, i: nat, sizes: seq<nat>)
    requires IsRun(run) && i < |run| && Reading(run[i])
    requires var s := run[i]; ReadsInOrder(s, sizes) && AllFull(s, |s.calls| - 1)
    requires var n := |run[i].calls|; sizes[n - 1] > 0 && Sum(sizes[..n]) <= |run[i].received|
    ensures CanFinish(run[i])
  {
    var s := run[i];
    var n := |s.calls|;
    RunKeeps(run, i);
    FullCallsSum(s, sizes, n - 1);
    CallsTile(s, n - 1);
    assert CallFits(s, n - 1);
    assert sizes[..n] == sizes[..n - 1] + [sizes[n - 1]];
    SumAppend(sizes[..n - 1], sizes[n - 1]);
  }

  /** Reading an empty record with bytes in front of it changes nothing at all, arrived or not. */
  lemma {:induction false} EmptyRecordStutters(s: State, goOn: bool)
    requires Reading(s) && s.calls[|s.calls| - 1] == Call(0, "", Open)
    requires s.queue != [] && s.queue[0].Some? && s.queue[0].value != ""
    ensures Apply(s, Round(goOn)) == s
  {
    var n := |s.calls| - 1;
    var whole := s.queue[0].value;
    assert whole[..0] == "" && whole[0..] == whole;
    assert [Some(whole)] + s.queue[1..] == s.queue;
    assert s.calls[n := s.calls[n]] == s.calls;
  }
}
