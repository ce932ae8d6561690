/**
 Attachments refine a map: ReadAttachments gives the map that a run of writes and removals denotes, in whatever
 responses the log arrives, exactly when the keys that are written are good.
 */
module AttachmentRuns {
  import opened Ordering
  import opened Batches
  import opened Labels
  import opened Attachments
  import opened AttachmentKeys
  import opened AttachmentLog

  // ---- Reading a good log in responses ----

  lemma {:induction false} GoodPrefix(log: Log, more: Log, valid: Json)
    requires Inv(log + more, valid)
    ensures Inv(log, valid)
  {
    var all := log + more;
    forall k | 0 <= k < |log| ensures GoodRecord(log[k], valid) {
      assert GoodRecord(all[k], valid) && all[k] == log[k];
    }
    forall i, j | 0 <= i < j < |log| ensures log[i].timestamp < log[j].timestamp {
      assert all[i] == log[i] && all[j] == log[j];
    }
  }

  /** A record in front of the others reads its own payload. */
  lemma {:induction false} OwnPayload(m: AttachmentMap, record: LogRecord, rest: string, valid: Json)
    requires HasKey(record) && record.payload != ""
    ensures ReadFrom(Reading(Found(m), record.payload + rest, true), record, valid)
            == Reading(ReadStep(m, record, valid), rest, true)
  {
    var stream := record.payload + rest;
    assert stream[..|record.payload|] == record.payload && stream[|record.payload|..] == rest;
  }

  lemma {:induction false} FoldedNext(log: Log, valid: Json, n: nat)
    requires n < |log| && Inv(log, valid)
    ensures Folded(log, valid, n).Found? && HasKey(log[n]) && log[n].payload != ""
    ensures Folded(log, valid, n + 1) == ReadStep(Folded(log, valid, n).attachments, log[n], valid)
  {
    GoodLogReads(log, valid, n);
    assert GoodRecord(log[n], valid);
  }

  lemma {:induction false} NextReads(
    before: AttachmentMap, response: Log, m: AttachmentMap, valid: Json, n: nat)
    requires 0 < n <= |response| && HasKey(response[n - 1]) && response[n - 1].payload != ""
    requires ReadResponse(before, response, valid, n - 1) == Reading(Found(m), Waiting(response, n - 1), true)
    ensures ReadResponse(before, response, valid, n)
            == Reading(ReadStep(m, response[n - 1], valid), Waiting(response, n), true)
  {
    OwnPayload(m, response[n - 1], Waiting(response, n), valid);
  }

  /** The first n records of a response that continues a log. */
  lemma {:induction false} ResponseReads(log: Log, response: Log, m: AttachmentMap, valid: Json, n: nat)
    requires Inv(log + response, valid) && n <= |response|
    requires Folded(log + response, valid, |log|) == Found(m)
    ensures ReadResponse(m, response, valid, n)
            == Reading(Folded(log + response, valid, |log| + n), Waiting(response, n), true)
  {
    if n > 0 {
      ResponseReads(log, response, m, valid, n - 1);
      var all, at := log + response, |log| + n - 1;
      FoldedNext(all, valid, at);
      assert all[at] == response[n - 1];
      NextReads(m, response, Folded(all, valid, at).attachments, valid, n);
    }
  }

  lemma {:induction false} OneMoreResponse(log: Log, response: Log, valid: Json)
    requires Inv(log + response, valid) && Inv(log, valid)
    ensures var m, all := Folded(log, valid, |log|), log + response;
            m.Found? && ReadResponse(m.attachments, response, valid, |response|).result == Folded(all, valid, |all|)
  {
    GoodLogReads(log, valid, |log|);
    FoldedPrefix(log, response, valid, |log|);
    ResponseReads(log, response, Folded(log, valid, |log|).attachments, valid, |response|);
    assert |log + response| == |log| + |response|;
  }

  /** In whatever responses a good log arrives, it is read as the fold over it. */
  lemma {:induction false} ResponsesRead(responses: seq<Log>, valid: Json, n: nat)
    requires n <= |responses| && Inv(InResponses(responses, n), valid)
    ensures var log := InResponses(responses, n); ReadResponses(responses, valid, n) == Folded(log, valid, |log|)
  {
    if n > 0 {
      var before, response := InResponses(responses, n - 1), responses[n - 1];
      GoodPrefix(before, response, valid);
      ResponsesRead(responses, valid, n - 1);
      OneMoreResponse(before, response, valid);
    }
  }

  lemma {:induction false} CutReads(responses: seq<Log>, log: Log, m: AttachmentMap, valid: Json)
    requires Reads(log, m, valid) && IsCut(responses, log)
    ensures ReadResponses(responses, valid, |responses|) == Found(m)
  {
    ResponsesRead(responses, valid, |responses|);
  }

  // ---- Keys that are not in the log are not read ----

  predicate Lacks(log: Log, key: string) {
    forall k :: 0 <= k < |log| ==> !HasLabel(log[k].labels, key)
  }

  lemma {:induction false} ResponseLacks(before: AttachmentMap, response: Log, valid: Json, key: string, n: nat)
    requires n <= |response| && Lacks(response, key) && key !in before
    ensures var after := ReadResponse(before, response, valid, n).result; after.Found? ==> key !in after.attachments
  {
    if n > 0 {
      ResponseLacks(before, response, valid, key, n - 1);
      assert !HasLabel(response[n - 1].labels, key);
    }
  }

  lemma {:induction false} ResponsesLack(responses: seq<Log>, valid: Json, key: string, n: nat)
    requires n <= |responses| && Lacks(InResponses(responses, n), key)
    ensures var after := ReadResponses(responses, valid, n); after.Found? ==> key !in after.attachments
  {
    if n > 0 {
      var before, response := InResponses(responses, n - 1), responses[n - 1];
      assert forall k :: 0 <= k < |before| ==> (before + response)[k] == before[k];
      assert forall k :: 0 <= k < |response| ==> (before + response)[|before| + k] == response[k];
      ResponsesLack(responses, valid, key, n - 1);
      var middle := ReadResponses(responses, valid, n - 1);
      if middle.Found? {
        ResponseLacks(middle.attachments, response, valid, key, |response|);
      }
    }
  }

  lemma {:induction false} InsertLacks(log: Log, record: LogRecord, key: string)
    requires Lacks(log, key) && !HasLabel(record.labels, key)
    ensures Lacks(PutInTime(log, record), key)
  {
    if log != [] && log[|log| - 1].timestamp > record.timestamp {
      InsertLacks(log[..|log| - 1], record, key);
    }
  }

  lemma {:induction false} InTimeLacks(log: Log, written: Log, key: string)
    requires Lacks(log, key) && Lacks(written, key)
    ensures Lacks(InTime(log, written), key)
    decreases written
  {
    if written != [] {
      InsertLacks(log, written[0], key);
      assert forall k :: 0 <= k < |written[1..]| ==> written[1..][k] == written[k + 1];
      InTimeLacks(PutInTime(log, written[0]), written[1..], key);
    }
  }

  // ---- A write of a key that is not good ----

  /** Some key of such a write is in no record afterwards. */
  lemma {:induction false} BadKeyIsMissing(
    log: Log, attachments: AttachmentMap, keys: seq<string>, now: Time, entry: string, valid: Json)
    returns (missing: string)
    requires Inv(log, valid) && Enumerates(keys, attachments.Keys)
    requires exists key :: key in attachments && !GoodAttachmentKey(key)
    requires forall key <- keys :: key in attachments
    ensures missing in attachments && Lacks(InTime(log, Written(entry, attachments, keys, now)), missing)
  {
    var key :| key in attachments && !GoodAttachmentKey(key);
    assert key in keys;
    missing := LongestBad(keys, |keys|, GoodAttachmentKey);
    assert keys[..|keys|] == keys;
    var records, written := AttachmentRecords(entry, attachments, keys, now), Written(entry, attachments, keys, now);
    forall k | 0 <= k < |written| ensures !HasLabel(written[k].labels, missing) {
      LongestNeverArrives(records, keys, missing, k);
    }
    forall k | 0 <= k < |log| ensures !HasLabel(log[k].labels, missing) {
      assert GoodRecord(log[k], valid);
    }
    InTimeLacks(log, written, missing);
  }

  lemma {:induction false} BadWriteFails(
    log: Log, m: AttachmentMap, attachments: AttachmentMap, now: Time, entry: string, valid: Json, responses: seq<Log>)
    requires Inv(log, valid) && AllJson(attachments, valid)
    requires exists key :: key in attachments && !GoodAttachmentKey(key)
    requires IsCut(responses, Perform(log, Write(attachments, now), entry, valid))
    ensures ReadResponses(responses, valid, |responses|) != Found(m + attachments)
  {
    SortedKeysAre(attachments.Keys);
    var missing := BadKeyIsMissing(log, attachments, SortedKeys(attachments.Keys), now, entry, valid);
    ResponsesLack(responses, valid, missing, |responses|);
    assert missing in m + attachments;
  }

  // ---- Steps and runs ----

  /**
   In whatever responses the log is read after an operation, it gives what the operation means for the map, exactly when
   the keys that it writes are good. A write with an invalid payload leaves the log as it is.
   */
  lemma {:induction false} StepRefines(
    log: Log, m: AttachmentMap, operation: Operation, entry: string, valid: Json, responses: seq<Log>)
    requires Reads(log, m, valid) && Timely(log, operation) && !valid("")
    requires IsCut(responses, Perform(log, operation, entry, valid))
    ensures ReadResponses(responses, valid, |responses|) == Found(Meaning(m, operation, valid))
            <==> GoodWrite(operation, valid)
    ensures operation.Write? && !AllJson(operation.attachments, valid) ==> Perform(log, operation, entry, valid) == log
  {
    if GoodWrite(operation, valid) {
      OperationRefines(log, m, operation, entry, valid);
      CutReads(responses, Perform(log, operation, entry, valid), Meaning(m, operation, valid), valid);
    } else {
      BadWriteFails(log, m, operation.attachments, operation.now, entry, valid, responses);
    }
  }

  type Performer = (Log, Operation) -> Log

  function PerformerFor(entry: string, valid: Json): Performer {
    (log: Log, operation: Operation) => Perform(log, operation, entry, valid)
  }

  function LogAfter(operations: seq<Operation>, perform: Performer, n: nat): Log
    requires n <= |operations|
  {
    if n == 0 then [] else perform(LogAfter(operations, perform, n - 1), operations[n - 1])
  }

  function MapAfter(operations: seq<Operation>, valid: Json, n: nat): AttachmentMap
    requires n <= |operations|
  {
    if n == 0 then map[] else Meaning(MapAfter(operations, valid, n - 1), operations[n - 1], valid)
  }

  ghost predicate TimelyRun(operations: seq<Operation>, perform: Performer, n: nat)
    requires n <= |operations|
  {
    forall i :: 0 <= i < n ==> Timely(LogAfter(operations, perform, i), operations[i])
  }

  predicate GoodRun(operations: seq<Operation>, valid: Json, n: nat)
    requires n <= |operations|
  {
    forall i :: 0 <= i < n ==> GoodWrite(operations[i], valid)
  }

  /** Every operation on good keys does to any log what it means for the map that is read from it. */
  ghost predicate Refining(perform: Performer, valid: Json) {
    forall log, m, operation :: Reads(log, m, valid) && Timely(log, operation) && GoodWrite(operation, valid)
      ==> Reads(perform(log, operation), Meaning(m, operation, valid), valid)
  }

  lemma {:induction false} RefiningRun(operations: seq<Operation>, perform: Performer, valid: Json, n: nat)
    requires n <= |operations| && TimelyRun(operations, perform, n) && GoodRun(operations, valid, n)
    requires Refining(perform, valid)
    ensures Reads(LogAfter(operations, perform, n), MapAfter(operations, valid, n), valid)
  {
    if n > 0 {
      RefiningRun(operations, perform, valid, n - 1);
      assert Timely(LogAfter(operations, perform, n - 1), operations[n - 1]);
    }
  }

  lemma {:induction false} PerformRefines(entry: string, valid: Json)
    requires !valid("")
    ensures Refining(PerformerFor(entry, valid), valid)
  {
    var perform := PerformerFor(entry, valid);
    forall log, m, operation | Reads(log, m, valid) && Timely(log, operation) && GoodWrite(operation, valid)
      ensures Reads(perform(log, operation), Meaning(m, operation, valid), valid)
    {
      OperationRefines(log, m, operation, entry, valid);
    }
  }

  /** After the first n operations the log is read as the map that they denote, in whatever responses. */
  ghost predicate ReadsAs(operations: seq<Operation>, perform: Performer, valid: Json, n: nat)
    requires n <= |operations|
  {
    forall responses :: IsCut(responses, LogAfter(operations, perform, n)) ==>
      ReadResponses(responses, valid, |responses|) == Found(MapAfter(operations, valid, n))
  }

  /**
   Over every run of writes and removals with increasing windows of timestamps, ReadAttachments gives exactly the map
   that the run denotes, also after a key was removed and written again, at every point of the run exactly when all keys
   that are written are good.
   */
  lemma {:induction false} RunRefinesMap(operations: seq<Operation>, entry: string, valid: Json, n: nat)
    requires n <= |operations| && TimelyRun(operations, PerformerFor(entry, valid), n) && !valid("")
    ensures (forall i :: 0 <= i <= n ==> ReadsAs(operations, PerformerFor(entry, valid), valid, i))
            <==> GoodRun(operations, valid, n)
  {
    var perform := PerformerFor(entry, valid);
    PerformRefines(entry, valid);
    if GoodRun(operations, valid, n) {
      forall i | 0 <= i <= n ensures ReadsAs(operations, perform, valid, i) {
        GoodRunReads(operations, perform, valid, i);
      }
    } else {
      var i := FirstBad(operations, valid, n);
      BadStepShows(operations, entry, valid, i);
    }
  }

  lemma {:induction false} GoodRunReads(operations: seq<Operation>, perform: Performer, valid: Json, n: nat)
    requires n <= |operations| && TimelyRun(operations, perform, n) && GoodRun(operations, valid, n)
    requires Refining(perform, valid)
    ensures ReadsAs(operations, perform, valid, n)
  {
    RefiningRun(operations, perform, valid, n);
    forall responses | IsCut(responses, LogAfter(operations, perform, n))
      ensures ReadResponses(responses, valid, |responses|) == Found(MapAfter(operations, valid, n))
    {
      CutReads(responses, LogAfter(operations, perform, n), MapAfter(operations, valid, n), valid);
    }
  }

  lemma {:induction false} FirstBad(operations: seq<Operation>, valid: Json, n: nat) returns (i: nat)
    requires n <= |operations| && !GoodRun(operations, valid, n)
    ensures i < n && GoodRun(operations, valid, i) && !GoodWrite(operations[i], valid)
  {
    if GoodRun(operations, valid, n - 1) {
      i := n - 1;
    } else {
      i := FirstBad(operations, valid, n - 1);
    }
  }

  lemma {:induction false} BadStepShows(operations: seq<Operation>, entry: string, valid: Json, i: nat)
    requires i < |operations| && TimelyRun(operations, PerformerFor(entry, valid), i + 1) && !valid("")
    requires GoodRun(operations, valid, i) && !GoodWrite(operations[i], valid)
    ensures !ReadsAs(operations, PerformerFor(entry, valid), valid, i + 1)
  {
    var perform := PerformerFor(entry, valid);
    PerformRefines(entry, valid);
    RefiningRun(operations, perform, valid, i);
    var log, after := LogAfter(operations, perform, i), LogAfter(operations, perform, i + 1);
    assert Timely(log, operations[i]) && after == Perform(log, operations[i], entry, valid);
    OneResponse(after);
    StepRefines(log, MapAfter(operations, valid, i), operations[i], entry, valid, [after]);
  }

  lemma {:induction false} OneResponse(log: Log)
    ensures IsCut([log], log)
  {
    assert InResponses([log], 0) == [] && [] + log == log;
  }

  // ---- What goes wrong otherwise ----

  lemma {:induction false} WriteOfOne(log: Log, key: string, payload: string, now: Time, entry: string, valid: Json)
    requires valid(payload) && GoodAttachmentKey(key)
    ensures Perform(log, Write(map[key := payload], now), entry, valid)
            == PutInTime(log, LogRecord(now, map[KEY := key], payload))
  {
    var attachments := map[key := payload];
    assert attachments.Keys == {key};
    OneKey(key);
    GoodKeysAreWritten(entry, attachments, [key], now);
    var record := LogRecord(now, map[KEY := key], payload);
    assert Written(entry, attachments, [key], now) == [record];
    assert [record][1..] == [] && InTime(PutInTime(log, record), []) == PutInTime(log, record);
  }

  lemma {:induction false} FoldedPair(a: LogRecord, b: LogRecord, valid: Json)
    requires ReadStep(map[], a, valid).Found?
    ensures Folded([a, b], valid, 2) == ReadStep(ReadStep(map[], a, valid).attachments, b, valid)
  {
    assert Folded([a, b], valid, 1) == ReadStep(map[], a, valid);
  }

  /** A write that is earlier than one before it is hidden by that one: the times of writes have to increase. */
  lemma {:induction false} EarlierWriteIsHidden(
    key: string, p: string, q: string, entry: string, now: Time, valid: Json, responses: seq<Log>)
    requires valid(p) && valid(q) && !valid("") && GoodAttachmentKey(key)
    requires var log := Perform([], Write(map[key := p], now), entry, valid);
             IsCut(responses, Perform(log, Write(map[key := q], now - 1000), entry, valid))
    ensures ReadResponses(responses, valid, |responses|) == Found(map[key := p])
  {
    var later, earlier := LogRecord(now, map[KEY := key], p), LogRecord(now - 1000, map[KEY := key], q);
    WriteOfOne([], key, p, now, entry, valid);
    WriteOfOne([later], key, q, now - 1000, entry, valid);
    assert PutInTime([later], earlier) == [earlier, later];
    LaterIsRead(key, p, q, now, valid);
    CutReads(responses, [earlier, later], map[key := p], valid);
  }

  lemma {:induction false} LaterIsRead(key: string, p: string, q: string, now: Time, valid: Json)
    requires valid(p) && valid(q) && !valid("") && GoodAttachmentKey(key)
    ensures Reads([LogRecord(now - 1000, map[KEY := key], q), LogRecord(now, map[KEY := key], p)], map[key := p], valid)
  {
    var later, earlier := LogRecord(now, map[KEY := key], p), LogRecord(now - 1000, map[KEY := key], q);
    FreshRecordReads(map[], key, q, now - 1000, valid);
    FreshRecordReads(map[key := q], key, p, now, valid);
    FoldedPair(earlier, later, valid);
    FreshIsGood(key, p, now, valid);
    FreshIsGood(key, q, now - 1000, valid);
  }

  lemma {:induction false} FreshIsGood(key: string, payload: string, now: Time, valid: Json)
    requires valid(payload) && !valid("") && GoodAttachmentKey(key)
    ensures GoodRecord(LogRecord(now, map[KEY := key], payload), valid)
  {
    assert KEY[0] == 'k' && REMOVE[0] == 'r';
  }

  lemma {:induction false} EmptyKeyComesFirst(key: string)
    requires key != ""
    ensures SortedKeys({"", key}) == ["", key]
  {
    assert IsLeast("", {"", key});
    TwoKeys("", key);
  }

  /** The record of an empty key arrives without a label. */
  lemma {:induction false} EmptyKeyIsErased(entry: string, attachments: AttachmentMap, key: string, now: Time)
    requires GoodAttachmentKey(key) && attachments.Keys == {"", key}
    ensures Written(entry, attachments, ["", key], now)
            == [LogRecord(now, map[], attachments[""]), LogRecord(now + 1000, map[KEY := key], attachments[key])]
  {
    EmptyThenKey(AttachmentRecords(entry, attachments, ["", key], now), key);
  }

  lemma {:induction false} EmptyThenKey(records: seq<BatchRecord>, key: string)
    requires AreFor(records, ["", key]) && GoodAttachmentKey(key)
    ensures ArrivedLabels(records, 0) == map[] && ArrivedLabels(records, 1) == map[KEY := key]
  {
    assert ["", key][0] == "" && ["", key][1] == key;
    EmptyKeyReads();
    GoodKeyArrives(key, map[]);
  }

  lemma {:induction false} EmptyKeyReads()
    ensures LabelsRead(LabelsText(map[KEY := ""]), map[]) == map[]
  {
    var m := map[KEY := ""];
    KeyIsGood();
    OneLabelText("");
    assert m.Keys == {KEY} && m[KEY] == "";
    ExactLabels.GoodMapReads(m, [KEY], map[]);
  }

  /**
   Attachments with an empty key and another one: the record without a label is passed over without being read, so that
   the other key gets the bytes in front of its own, which are not JSON or the wrong ones.
   */
  lemma {:induction false} EmptyKeyShiftsPayloads(
    key: string, p: string, q: string, now: Time, entry: string, valid: Json)
    requires valid(p) && valid(q) && !valid("") && GoodAttachmentKey(key)
    ensures var log := Perform([], Write(map["" := p, key := q], now), entry, valid);
            var read := (p + q)[..|q|];
            ReadResponses([log], valid, 1) == if valid(read) then Found(map[key := read]) else NotJson
  {
    var attachments := map["" := p, key := q];
    assert attachments.Keys == {"", key} && attachments[""] == p && attachments[key] == q;
    EmptyKeyComesFirst(key);
    EmptyKeyIsErased(entry, attachments, key, now);
    var first, second := LogRecord(now, map[], p), LogRecord(now + 1000, map[KEY := key], q);
    AppendTwo(first, second);
    assert Perform([], Write(attachments, now), entry, valid) == [first, second];
    ShiftedRead(first, second, valid);
  }

  lemma {:induction false} AppendTwo(first: LogRecord, second: LogRecord)
    requires first.timestamp <= second.timestamp
    ensures InTime([], [first, second]) == [first, second]
  {
    assert [first, second][1..] == [second] && [second][1..] == [];
    assert PutInTime([], first) == [first] && PutInTime([first], second) == [first, second];
    assert InTime([first], [second]) == InTime([first, second], []);
  }

  lemma {:induction false} ShiftedRead(first: LogRecord, second: LogRecord, valid: Json)
    requires first.labels == map[] && HasKey(second) && !IsRemoved(second) && second.payload != ""
    ensures var read := (first.payload + second.payload)[..|second.payload|];
            ReadResponses([[first, second]], valid, 1)
            == if valid(read) then Found(map[second.labels[KEY] := read]) else NotJson
  {
    var response := [first, second];
    assert Waiting(response, 2) == "" && Waiting(response, 1) == second.payload + "";
    assert Waiting(response, 0) == first.payload + second.payload;
    assert ReadResponse(map[], response, valid, 1) == Reading(Found(map[]), first.payload + second.payload, true);
  }
}
