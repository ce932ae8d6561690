/**
 Attachments: a key/value map kept as a log of records in the entry `$meta`, where a label marks what was removed.
 The server is an abstract log in time order that can append records, find them by their key and update labels.
 */
module Attachments {
  import opened Wrappers
  import opened Ordering
  import opened Batches
  import opened Labels
  import Worker
  import WorkerReads

  type AttachmentMap = map<string, string>

  // Whether a payload is JSON.
  type Json = string -> bool

  const KEY := "key"
  const REMOVE := "remove"

  // ---- The server ----

  datatype LogRecord = LogRecord(timestamp: Time, labels: LabelMap, payload: string)

  type Log = seq<LogRecord>

  predicate HasKey(record: LogRecord) {
    KEY in record.labels
  }

  predicate IsRemoved(record: LogRecord) {
    REMOVE in record.labels && record.labels[REMOVE] == "true"
  }

  /**
   The labels of the k-th record of a batch as they arrive: what the text in its header makes of those of the record
   before it.
   */
  function ArrivedLabels(records: seq<BatchRecord>, k: nat): LabelMap
    requires k < |records|
  {
    LabelsRead(LabelsText(records[k].labels), if k == 0 then map[] else ArrivedLabels(records, k - 1))
  }

  /** What the server makes of a batch of new records. */
  function Stored(records: seq<BatchRecord>, body: seq<string>): (stored: Log)
    requires ValidRecords(records, body)
    ensures |stored| == |records|
    ensures forall k :: 0 <= k < |records| ==>
              stored[k] == LogRecord(records[k].timestamp, ArrivedLabels(records, k), Payload(body, records[k]))
  {
    seq(|records|, k requires 0 <= k < |records| =>
      assert HoldsPayload(records[k], body);
      LogRecord(records[k].timestamp, ArrivedLabels(records, k), Payload(body, records[k])))
  }

  /** A string in the filter stands for itself, but a dollar sign starts an operator unless it is doubled. */
  function Literal(s: string): Option<string> {
    if s == "" || s[0] != '$' then Some(s)
    else if |s| > 1 && s[1] == '$' then Some(s[1..])
    else None
  }

  /** The filter `$in` for the label `key`. */
  predicate Matches(record: LogRecord, operands: seq<string>) {
    HasKey(record) && exists k :: 0 <= k < |operands| && Literal(operands[k]) == Some(record.labels[KEY])
  }

  /** The records that a query returns, in time order; without a filter these are all. */
  function Matching(log: Log, operands: Option<seq<string>>): Log {
    if log == [] then []
    else
      Matching(log[..|log| - 1], operands)
      + if operands.None? || Matches(log[|log| - 1], operands.value) then [log[|log| - 1]] else []
  }

  /** A batch update of labels: the text of an update is applied to the labels of the record with its timestamp. */
  function UpdateOne(record: LogRecord, updates: seq<BatchRecord>): LogRecord {
    if updates == [] then record
    else
      var u, before := updates[|updates| - 1], UpdateOne(record, updates[..|updates| - 1]);
      if u.timestamp == record.timestamp then before.(labels := LabelsRead(LabelsText(u.labels), before.labels))
      else before
  }

  function UpdateAll(log: Log, updates: seq<BatchRecord>): (updated: Log)
    ensures |updated| == |log| && forall k :: 0 <= k < |log| ==> updated[k] == UpdateOne(log[k], updates)
  {
    seq(|log|, k requires 0 <= k < |log| => UpdateOne(log[k], updates))
  }

  // ---- WriteAttachments ----

  predicate AllJson(attachments: AttachmentMap, valid: Json) {
    forall key <- attachments :: valid(attachments[key])
  }

  /** The record for the k-th key: one microsecond after the one before. */
  function AttachmentRecord(entry: string, key: string, payload: string, now: Time, k: nat): BatchRecord {
    BatchRecord(entry, now + 1000 * k, |payload|, "application/json", map[KEY := key], Some(k))
  }

  function AttachmentRecords(entry: string, attachments: AttachmentMap, keys: seq<string>, now: Time)
    : (records: seq<BatchRecord>)
    requires forall key <- keys :: key in attachments
    ensures |records| == |keys|
    ensures forall k :: 0 <= k < |keys| ==>
              records[k] == AttachmentRecord(entry, keys[k], attachments[keys[k]], now, k)
  {
    seq(|keys|, k requires 0 <= k < |keys| => AttachmentRecord(entry, keys[k], attachments[keys[k]], now, k))
  }

  function PayloadsOf(attachments: AttachmentMap, keys: seq<string>): (payloads: seq<string>)
    requires forall key <- keys :: key in attachments
    ensures |payloads| == |keys| && forall k :: 0 <= k < |keys| ==> payloads[k] == attachments[keys[k]]
  {
    seq(|keys|, k requires 0 <= k < |keys| => attachments[keys[k]])
  }

  predicate JsonUpTo(payloads: seq<string>, n: nat, valid: Json)
    requires n <= |payloads|
  {
    forall k :: 0 <= k < n ==> valid(payloads[k])
  }

  lemma {:induction false} AllJsonInOrder(attachments: AttachmentMap, keys: seq<string>, valid: Json)
    requires Enumerates(keys, attachments.Keys)
    ensures AllJson(attachments, valid) <==> JsonUpTo(PayloadsOf(attachments, keys), |keys|, valid)
  {
    var payloads := PayloadsOf(attachments, keys);
    forall k | 0 <= k < |keys| && AllJson(attachments, valid) ensures valid(payloads[k]) {
      assert keys[k] in keys;
    }
    forall key | key in attachments && JsonUpTo(payloads, |keys|, valid) ensures valid(attachments[key]) {
      assert key in keys;
      var k :| 0 <= k < |keys| && keys[k] == key;
      assert valid(payloads[k]);
    }
  }

  /** Adds the record for the next key. */
  method AddAttachment(
    batch: Batch, entry: string, key: string, payload: string, timestamp: Time, ghost record: BatchRecord)
    requires batch.Valid()
    requires record == BatchRecord(entry, timestamp, |payload|, "application/json", map[KEY := key], Some(|batch.body|))
    modifies batch
    ensures batch.Valid()
    ensures batch.records == old(batch.records) + [record] && batch.body == old(batch.body) + [payload]
  {
    batch.AddRecord(entry, timestamp, Some(payload), "application/json", map[KEY := key]);
  }

  lemma {:induction false} TakeMore<T>(s: seq<T>, k: nat)
    requires k < |s|
    ensures s[..k] + [s[k]] == s[..k + 1]
  {
  }

  /** Adds the records for all keys, or stops at a payload that is not JSON. */
  method FillBatch(
    batch: Batch, entry: string, keys: seq<string>, attachments: AttachmentMap, now: Time, valid: Json,
    ghost records: seq<BatchRecord>, ghost payloads: seq<string>)
    returns (ok: bool)
    requires batch.Valid() && batch.records == [] && batch.body == []
    requires |records| == |payloads| == |keys|
    requires forall k :: 0 <= k < |keys| ==> keys[k] in attachments && payloads[k] == attachments[keys[k]]
    requires forall k :: 0 <= k < |keys| ==> records[k] == AttachmentRecord(entry, keys[k], payloads[k], now, k)
    modifies batch
    ensures batch.Valid()
    ensures ok <==> JsonUpTo(payloads, |keys|, valid)
    ensures ok ==> batch.records == records && batch.body == payloads
  {
    var timestamp := now;
    for k := 0 to |keys|
      invariant batch.Valid()
      invariant timestamp == now + 1000 * k
      invariant batch.records == records[..k] && batch.body == payloads[..k]
      invariant JsonUpTo(payloads, k, valid)
    {
      var payload := attachments[keys[k]];
      assert payloads[k] == payload && records[k] == AttachmentRecord(entry, keys[k], payloads[k], now, k);
      if !valid(payload) {
        return false;
      }
      AddAttachment(batch, entry, keys[k], payload, timestamp, records[k]);
      TakeMore(records, k);
      TakeMore(payloads, k);
      timestamp := timestamp + 1000;
    }
    ok := true;
  }

  /** Builds the batch of WriteAttachments; with a payload that is not JSON there is none, and nothing is sent. */
  method BuildAttachments(entry: string, attachments: AttachmentMap, now: Time, valid: Json)
    returns (ok: bool, batch: Batch)
    ensures fresh(batch) && batch.Valid()
    ensures ok <==> AllJson(attachments, valid)
    ensures ok ==>
              var keys := SortedKeys(attachments.Keys);
              (forall key <- keys :: key in attachments)
              && batch.records == AttachmentRecords(entry, attachments, keys, now)
              && batch.body == PayloadsOf(attachments, keys)
              && forall k :: 0 <= k < |keys| ==>
                   batch.records[k] == BatchRecord(entry, now + 1000 * k, |attachments[keys[k]]|, "application/json",
                                                   map["key" := keys[k]], Some(k))
  {
    batch := new Batch();
    var keys := SortedKeys(attachments.Keys);
    SortedKeysAre(attachments.Keys);
    AllJsonInOrder(attachments, keys, valid);
    forall k | 0 <= k < |keys| ensures keys[k] in attachments {
      assert keys[k] in keys;
    }
    ok := FillBatch(batch, entry, keys, attachments, now, valid,
                    AttachmentRecords(entry, attachments, keys, now), PayloadsOf(attachments, keys));
  }

  // ---- ReadAttachments ----

  /** NotJson is the error of a live record whose payload does not parse; Polls is a read that never comes to an end. */
  datatype ReadResult = Found(attachments: AttachmentMap) | NotJson | Polls

  /** What the callback does with the payload of a record that has a key. */
  function WithPayload(before: AttachmentMap, record: LogRecord, payload: string, valid: Json): ReadResult
    requires HasKey(record)
  {
    if IsRemoved(record) then Found(before - {record.labels[KEY]})
    else if !valid(payload) then NotJson
    else Found(before[record.labels[KEY] := payload])
  }

  /** The callback, for a record with its own payload. */
  function ReadStep(before: AttachmentMap, record: LogRecord, valid: Json): ReadResult {
    if !HasKey(record) then Found(before) else WithPayload(before, record, record.payload, valid)
  }

  /** The map after the first n records of the log, each of them with its own payload. */
  function Folded(log: Log, valid: Json, n: nat): ReadResult
    requires n <= |log|
  {
    if n == 0 then Found(map[])
    else
      var before := Folded(log, valid, n - 1);
      if before.Found? then ReadStep(before.attachments, log[n - 1], valid) else before
  }

  lemma {:induction false} FoldedPrefix(log: Log, more: Log, valid: Json, n: nat)
    requires n <= |log|
    ensures Folded(log + more, valid, n) == Folded(log, valid, n)
  {
    if n > 0 {
      FoldedPrefix(log, more, valid, n - 1);
    }
  }

  /** What one more record at the end of a log means: its key is removed, or set to its payload, or not there at all. */
  lemma {:induction false} OneMoreRecord(log: Log, record: LogRecord, valid: Json, before: AttachmentMap)
    requires Folded(log, valid, |log|) == Found(before)
    ensures var after, labels := Folded(log + [record], valid, |log| + 1), record.labels;
            if "key" !in labels then after == Found(before)
            else if "remove" in labels && labels["remove"] == "true" then after == Found(before - {labels["key"]})
            else if valid(record.payload) then after == Found(before[labels["key"] := record.payload])
            else after == NotJson
  {
    FoldedPrefix(log, [record], valid, |log|);
  }

  /** While a response is read: the result so far, the bytes that wait in its deque, and whether the end does. */
  datatype Reading = Reading(result: ReadResult, stream: string, end: bool)

  /** The bytes of the records from the n-th on. */
  function Waiting(response: Log, n: nat): string
    requires n <= |response|
    decreases |response| - n
  {
    if n == |response| then "" else response[n].payload + Waiting(response, n + 1)
  }

  /** ReadAll on a record: as many bytes as it has, from the front of the deque; without a key nothing is read. */
  function ReadFrom(before: Reading, record: LogRecord, valid: Json): Reading {
    if !before.result.Found? || !HasKey(record) then before
    else
      var left := WorkerReads.ReadEnd(Worker.Deque(|before.stream|, before.end), |record.payload|);
      if left.None? then before.(result := Polls)
      else
        var n := |before.stream| - left.value.bytes;
        Reading(WithPayload(before.result.attachments, record, before.stream[..n], valid),
                before.stream[n..], left.value.end)
  }

  /** After the first n records of a response. */
  function ReadResponse(before: AttachmentMap, response: Log, valid: Json, n: nat): Reading
    requires n <= |response|
  {
    if n == 0 then Reading(Found(before), Waiting(response, 0), true)
    else ReadFrom(ReadResponse(before, response, valid, n - 1), response[n - 1], valid)
  }

  /** After the first n responses. */
  function ReadResponses(responses: seq<Log>, valid: Json, n: nat): ReadResult
    requires n <= |responses|
  {
    if n == 0 then Found(map[])
    else
      var before := ReadResponses(responses, valid, n - 1);
      if before.Found? then ReadResponse(before.attachments, responses[n - 1], valid, |responses[n - 1]|).result
      else before
  }

  /** The records of the first n responses. */
  function InResponses(responses: seq<Log>, n: nat): Log
    requires n <= |responses|
  {
    if n == 0 then [] else InResponses(responses, n - 1) + responses[n - 1]
  }

  /** The log in one or more responses. */
  predicate IsCut(responses: seq<Log>, log: Log) {
    InResponses(responses, |responses|) == log
  }

  lemma {:induction false} FailureStays(before: AttachmentMap, response: Log, valid: Json, k: nat, n: nat)
    requires k <= n <= |response| && !ReadResponse(before, response, valid, k).result.Found?
    ensures ReadResponse(before, response, valid, n) == ReadResponse(before, response, valid, k)
  {
    if k < n {
      FailureStays(before, response, valid, k, n - 1);
    }
  }

  /** The callback for the records of one response, until it fails. */
  method ReadOneResponse(before: AttachmentMap, response: Log, valid: Json) returns (result: ReadResult)
    ensures result == ReadResponse(before, response, valid, |response|).result
  {
    var attachments, stream, end := before, Waiting(response, 0), true;
    for k := 0 to |response|
      invariant ReadResponse(before, response, valid, k) == Reading(Found(attachments), stream, end)
    {
      var record := response[k];
      if KEY !in record.labels {
        continue;
      }
      var key := record.labels[KEY];
      assert ReadResponse(before, response, valid, k + 1)
          == ReadFrom(Reading(Found(attachments), stream, end), record, valid);
      var left := WorkerReads.ReadEnd(Worker.Deque(|stream|, end), |record.payload|);
      if left.None? {
        FailureStays(before, response, valid, k + 1, |response|);
        return Polls;
      }
      var n := |stream| - left.value.bytes;
      var payload := stream[..n];
      stream, end := stream[n..], left.value.end;
      if REMOVE in record.labels && record.labels[REMOVE] == "true" {
        attachments := attachments - {key};
        continue;
      }
      if !valid(payload) {
        FailureStays(before, response, valid, k + 1, |response|);
        return NotJson;
      }
      attachments := attachments[key := payload];
    }
    return Found(attachments);
  }

  lemma {:induction false} FailedResponsesStay(responses: seq<Log>, valid: Json, k: nat, n: nat)
    requires k <= n <= |responses| && !ReadResponses(responses, valid, k).Found?
    ensures ReadResponses(responses, valid, n) == ReadResponses(responses, valid, k)
  {
    if k < n {
      FailedResponsesStay(responses, valid, k, n - 1);
    }
  }

  /** The log is queried in responses of any size, each with a deque of its own. */
  method ReadAttachments(responses: seq<Log>, valid: Json) returns (result: ReadResult)
    ensures result == ReadResponses(responses, valid, |responses|)
  {
    result := Found(map[]);
    for k := 0 to |responses|
      invariant result.Found? && ReadResponses(responses, valid, k) == result
    {
      result := ReadOneResponse(result.attachments, responses[k], valid);
      if !result.Found? {
        FailedResponsesStay(responses, valid, k + 1, |responses|);
        return;
      }
    }
  }

  // ---- RemoveAttachments ----

  function EscapeKey(key: string): string {
    if key != "" && key[0] == '$' then "$" + key else key
  }

  function EscapedKeys(keys: seq<string>): (escaped: seq<string>)
    ensures |escaped| == |keys| && forall k :: 0 <= k < |keys| ==> escaped[k] == EscapeKey(keys[k])
  {
    seq(|keys|, k requires 0 <= k < |keys| => EscapeKey(keys[k]))
  }

  /** The operands of the filter, or no filter for an empty set of keys. */
  function RemoveFilter(keys: set<string>): Option<seq<string>> {
    if keys == {} then None else Some(EscapedKeys(SortedKeys(keys)))
  }

  function Removal(entry: string, record: LogRecord): BatchRecord {
    BatchRecord(entry, record.timestamp, 0, "", record.labels[REMOVE := "true"], None)
  }

  function Removals(entry: string, found: Log): (updates: seq<BatchRecord>)
    ensures |updates| == |found| && forall k :: 0 <= k < |found| ==> updates[k] == Removal(entry, found[k])
  {
    seq(|found|, k requires 0 <= k < |found| => Removal(entry, found[k]))
  }

  /** The callback of the query collects an update for every record found. */
  method BuildRemovals(entry: string, found: Log) returns (batch: Batch)
    ensures fresh(batch) && batch.Valid() && batch.records == Removals(entry, found)
    ensures forall k :: 0 <= k < |found| ==>
              batch.records[k]
              == BatchRecord(entry, found[k].timestamp, 0, "", found[k].labels["remove" := "true"], None)
  {
    batch := new Batch();
    for k := 0 to |found|
      invariant fresh(batch) && batch.Valid()
      invariant |batch.records| == k && forall j :: 0 <= j < k ==> batch.records[j] == Removal(entry, found[j])
    {
      var labels := found[k].labels;
      labels := labels[REMOVE := "true"];
      batch.AddOnlyLabels(entry, found[k].timestamp, labels);
    }
  }

  /** A key with a dollar sign in front is not taken for an operator. */
  lemma {:induction false} EscapedIsLiteral(key: string)
    ensures Literal(EscapeKey(key)) == Some(key)
  {
    if key != "" && key[0] == '$' {
      assert ("$" + key)[1..] == key && ("$" + key)[0] == "$"[0];
    }
  }

  /** The keys that a removal is about: the given ones, or all. */
  predicate Affects(keys: set<string>, key: string) {
    keys == {} || key in keys
  }

  /** The filter finds exactly the records with one of the keys. */
  lemma {:induction false} FilterFindsKeys(record: LogRecord, keys: set<string>)
    requires keys != {}
    ensures Matches(record, EscapedKeys(SortedKeys(keys))) <==> HasKey(record) && record.labels[KEY] in keys
  {
    var sorted := SortedKeys(keys);
    SortedKeysAre(keys);
    forall k | 0 <= k < |sorted| ensures Literal(EscapedKeys(sorted)[k]) == Some(sorted[k]) && sorted[k] in keys {
      EscapedIsLiteral(sorted[k]);
      assert sorted[k] in sorted;
    }
    if HasKey(record) && record.labels[KEY] in keys {
      assert record.labels[KEY] in sorted;
      var k :| 0 <= k < |sorted| && sorted[k] == record.labels[KEY];
      assert Literal(EscapedKeys(sorted)[k]) == Some(record.labels[KEY]);
    }
  }
}
