/** What writes and removals of attachments do to the log, and to the map that it stands for. */
module AttachmentLog {
  import opened Ordering
  import opened Batches
  import opened Labels
  import opened Attachments
  import opened AttachmentKeys

  datatype Operation =
    | Write(attachments: AttachmentMap, now: Time)
    | Remove(keys: set<string>)

  // ---- What an operation does to the log, and what it means ----

  /** The log records of the attachments for some keys. */
  function Written(entry: string, attachments: AttachmentMap, keys: seq<string>, now: Time): (written: Log)
    requires forall key <- keys :: key in attachments
    ensures |written| == |keys|
    ensures var records := AttachmentRecords(entry, attachments, keys, now);
            forall k :: 0 <= k < |keys| ==>
              written[k] == LogRecord(now + 1000 * k, ArrivedLabels(records, k), attachments[keys[k]])
  {
    Stored(AttachmentRecords(entry, attachments, keys, now), PayloadsOf(attachments, keys))
  }

  /** The server keeps its records in time order. */
  function PutInTime(log: Log, record: LogRecord): Log {
    if log == [] || log[|log| - 1].timestamp <= record.timestamp then log + [record]
    else PutInTime(log[..|log| - 1], record) + [log[|log| - 1]]
  }

  function InTime(log: Log, written: Log): Log
    decreases written
  {
    if written == [] then log else InTime(PutInTime(log, written[0]), written[1..])
  }

  function Perform(log: Log, operation: Operation, entry: string, valid: Json): Log {
    match operation
    case Write(attachments, now) =>
      if !AllJson(attachments, valid) then log
      else
        SortedKeysAre(attachments.Keys);
        InTime(log, Written(entry, attachments, SortedKeys(attachments.Keys), now))
    case Remove(keys) => UpdateAll(log, Removals(entry, Matching(log, RemoveFilter(keys))))
  }

  /** A write overrides; with a payload that is not JSON it does nothing. A removal erases some keys, or all. */
  function Meaning(m: AttachmentMap, operation: Operation, valid: Json): AttachmentMap {
    match operation
    case Write(attachments, _) => if AllJson(attachments, valid) then m + attachments else m
    case Remove(keys) => Without(m, keys)
  }

  function Without(m: AttachmentMap, keys: set<string>): AttachmentMap {
    map key | key in m && !Affects(keys, key) :: m[key]
  }

  /** A write is later than everything in the log. */
  predicate Timely(log: Log, operation: Operation) {
    operation.Write? && log != [] ==> log[|log| - 1].timestamp < operation.now
  }

  /** The keys that are written arrive. */
  predicate GoodWrite(operation: Operation, valid: Json) {
    operation.Write? && AllJson(operation.attachments, valid) ==>
      forall key <- operation.attachments :: GoodAttachmentKey(key)
  }

  // ---- Invariant ----

  predicate InTimeOrder(log: Log) {
    forall i, j :: 0 <= i < j < |log| ==> log[i].timestamp < log[j].timestamp
  }

  /** A record that was written for a good key, and perhaps marked as removed. */
  predicate GoodRecord(record: LogRecord, valid: Json) {
    && IsMarkable(record.labels) && record.payload != ""
    && (!IsRemoved(record) ==> valid(record.payload))
  }

  predicate Inv(log: Log, valid: Json) {
    InTimeOrder(log) && forall k :: 0 <= k < |log| ==> GoodRecord(log[k], valid)
  }

  lemma {:induction false} GoodLogReads(log: Log, valid: Json, n: nat)
    requires Inv(log, valid) && n <= |log|
    ensures Folded(log, valid, n).Found?
  {
    if n > 0 {
      GoodLogReads(log, valid, n - 1);
      assert GoodRecord(log[n - 1], valid);
    }
  }

  // ---- Writing ----

  /** The map with the attachments for the first k keys. */
  function SetKeys(m: AttachmentMap, attachments: AttachmentMap, keys: seq<string>, k: nat): AttachmentMap
    requires k <= |keys| && forall key <- keys :: key in attachments
  {
    if k == 0 then m else SetKeys(m, attachments, keys, k - 1)[keys[k - 1] := attachments[keys[k - 1]]]
  }

  lemma {:induction false} SetKeysAt(
    m: AttachmentMap, attachments: AttachmentMap, keys: seq<string>, k: nat, key: string)
    requires k <= |keys| && forall key <- keys :: key in attachments
    ensures var r := SetKeys(m, attachments, keys, k);
            && (key in r <==> key in m || key in keys[..k])
            && (key in r ==> r[key] == if key in keys[..k] then attachments[key] else m[key])
  {
    if k > 0 {
      SetKeysAt(m, attachments, keys, k - 1, key);
      assert keys[..k] == keys[..k - 1] + [keys[k - 1]];
    }
  }

  lemma {:induction false} SetAllKeys(m: AttachmentMap, attachments: AttachmentMap, keys: seq<string>)
    requires Enumerates(keys, attachments.Keys)
    ensures SetKeys(m, attachments, keys, |keys|) == m + attachments
  {
    assert keys[..|keys|] == keys;
    forall key ensures var r := SetKeys(m, attachments, keys, |keys|);
                       && (key in r <==> key in m + attachments)
                       && (key in r ==> r[key] == (m + attachments)[key])
    {
      SetKeysAt(m, attachments, keys, |keys|, key);
    }
  }

  /** Log records for some keys, in order, a microsecond apart. */
  predicate IsWritten(written: Log, attachments: AttachmentMap, keys: seq<string>, now: Time)
    requires forall key <- keys :: key in attachments
  {
    && |written| == |keys|
    && forall k :: 0 <= k < |keys| ==>
         written[k] == LogRecord(now + 1000 * k, map[KEY := keys[k]], attachments[keys[k]])
  }

  /** Good keys arrive as they are. */
  lemma {:induction false} GoodKeysAreWritten(
    entry: string, attachments: AttachmentMap, keys: seq<string>, now: Time)
    requires forall key <- keys :: key in attachments && GoodAttachmentKey(key)
    ensures IsWritten(Written(entry, attachments, keys, now), attachments, keys, now)
  {
    var records := AttachmentRecords(entry, attachments, keys, now);
    forall k | 0 <= k < |keys| ensures ArrivedLabels(records, k) == map[KEY := keys[k]] {
      forall i | 0 <= i <= k ensures GoodAttachmentKey(keys[i]) {
        assert keys[i] in keys;
      }
      GoodKeysArrive(records, keys, k);
    }
  }

  lemma {:induction false} FreshRecordReads(
    m: AttachmentMap, key: string, payload: string, timestamp: Time, valid: Json)
    requires valid(payload)
    ensures ReadStep(m, LogRecord(timestamp, map[KEY := key], payload), valid) == Found(m[key := payload])
  {
    assert KEY[0] == 'k' && REMOVE[0] == 'r';
  }

  lemma {:induction false} WrittenFolds(
    log: Log, written: Log, attachments: AttachmentMap, keys: seq<string>, now: Time, m: AttachmentMap,
    valid: Json, k: nat)
    requires (forall key <- keys :: key in attachments) && AllJson(attachments, valid) && k <= |keys|
    requires IsWritten(written, attachments, keys, now) && Folded(log, valid, |log|) == Found(m)
    ensures Folded(log + written, valid, |log| + k) == Found(SetKeys(m, attachments, keys, k))
  {
    if k == 0 {
      FoldedPrefix(log, written, valid, |log|);
    } else {
      WrittenFolds(log, written, attachments, keys, now, m, valid, k - 1);
      var key := keys[k - 1];
      assert key in keys;
      assert (log + written)[|log| + k - 1] == written[k - 1];
      FreshRecordReads(SetKeys(m, attachments, keys, k - 1), key, attachments[key], now + 1000 * (k - 1), valid);
    }
  }

  lemma {:induction false} WriteKeeps(
    log: Log, written: Log, attachments: AttachmentMap, keys: seq<string>, now: Time, valid: Json)
    requires Inv(log, valid) && AllJson(attachments, valid) && Timely(log, Write(attachments, now)) && !valid("")
    requires Enumerates(keys, attachments.Keys) && IsWritten(written, attachments, keys, now)
    requires forall key <- attachments :: GoodAttachmentKey(key)
    ensures Inv(log + written, valid)
  {
    var all := log + written;
    forall k | 0 <= k < |all| ensures GoodRecord(all[k], valid) {
      if k >= |log| {
        assert keys[k - |log|] in keys;
        assert all[k] == written[k - |log|];
      }
    }
    forall i, j | 0 <= i < j < |all| ensures all[i].timestamp < all[j].timestamp {
      if i < |log| <= j {
        assert all[i].timestamp <= log[|log| - 1].timestamp;
        assert all[j] == written[j - |log|];
      }
    }
  }

  // ---- Removing ----

  predicate IsAffected(record: LogRecord, keys: set<string>) {
    if keys == {} then true else HasKey(record) && record.labels[KEY] in keys
  }

  /** The record with the label that marks it as removed. */
  function Tombstone(record: LogRecord): LogRecord {
    record.(labels := record.labels[REMOVE := "true"])
  }

  lemma {:induction false} TombstoneReads(record: LogRecord)
    ensures var marked := Tombstone(record);
            && IsRemoved(marked) && (HasKey(marked) <==> HasKey(record))
            && (HasKey(marked) ==> marked.labels[KEY] == record.labels[KEY])
  {
    assert KEY[0] == 'k' && REMOVE[0] == 'r';
  }

  lemma {:induction false} FilterAffects(record: LogRecord, keys: set<string>)
    ensures var filter := RemoveFilter(keys);
            (filter.None? || Matches(record, filter.value)) <==> IsAffected(record, keys)
  {
    if keys != {} {
      FilterFindsKeys(record, keys);
    }
  }

  function RemovalsIn(entry: string, log: Log, keys: set<string>): seq<BatchRecord> {
    Removals(entry, Matching(log, RemoveFilter(keys)))
  }

  lemma {:induction false} RemovalsMore(entry: string, log: Log, keys: set<string>)
    requires log != []
    ensures RemovalsIn(entry, log, keys)
            == RemovalsIn(entry, log[..|log| - 1], keys)
               + if IsAffected(log[|log| - 1], keys) then [Removal(entry, log[|log| - 1])] else []
  {
    FilterAffects(log[|log| - 1], keys);
  }

  lemma {:induction false} UpdateOneMore(record: LogRecord, updates: seq<BatchRecord>, u: BatchRecord)
    ensures UpdateOne(record, updates + [u]) ==
            var before := UpdateOne(record, updates);
            if u.timestamp == record.timestamp then before.(labels := LabelsRead(LabelsText(u.labels), before.labels))
            else before
  {
    assert (updates + [u])[..|updates|] == updates;
  }

  /** What the last record of the log has to do with the update of a record. */
  lemma {:induction false} UpdateWithLast(record: LogRecord, entry: string, log: Log, keys: set<string>)
    requires log != []
    ensures var n := |log| - 1;
            var before := UpdateOne(record, RemovalsIn(entry, log[..n], keys));
            UpdateOne(record, RemovalsIn(entry, log, keys))
            == if IsAffected(log[n], keys) && log[n].timestamp == record.timestamp
               then before.(labels := LabelsRead(LabelsText(Removal(entry, log[n]).labels), before.labels))
               else before
  {
    var n := |log| - 1;
    var before := RemovalsIn(entry, log[..n], keys);
    RemovalsMore(entry, log, keys);
    if IsAffected(log[n], keys) {
      UpdateOneMore(record, before, Removal(entry, log[n]));
    } else {
      assert before + [] == before;
    }
  }

  lemma {:induction false} NoUpdateForOthers(record: LogRecord, entry: string, log: Log, keys: set<string>)
    requires forall k :: 0 <= k < |log| ==> log[k].timestamp != record.timestamp
    ensures UpdateOne(record, RemovalsIn(entry, log, keys)) == record
  {
    if log != [] {
      NoUpdateForOthers(record, entry, log[..|log| - 1], keys);
      UpdateWithLast(record, entry, log, keys);
    }
  }

  /** Exactly the affected records are marked. */
  lemma {:induction false} UpdateMarks(entry: string, log: Log, keys: set<string>, k: nat)
    requires InTimeOrder(log) && k < |log| && IsMarkable(log[k].labels)
    ensures UpdateOne(log[k], RemovalsIn(entry, log, keys))
            == if IsAffected(log[k], keys) then Tombstone(log[k]) else log[k]
  {
    var n := |log| - 1;
    UpdateWithLast(log[k], entry, log, keys);
    if k == n {
      NoUpdateForOthers(log[k], entry, log[..n], keys);
      MarkArrives(log[k].labels);
    } else {
      assert log[..n][k] == log[k];
      UpdateMarks(entry, log[..n], keys, k);
    }
  }

  lemma {:induction false} RemoveKeeps(log: Log, entry: string, keys: set<string>, valid: Json)
    requires Inv(log, valid)
    ensures var after := UpdateAll(log, RemovalsIn(entry, log, keys));
            && Inv(after, valid)
            && forall k :: 0 <= k < |log| ==> after[k] == if IsAffected(log[k], keys) then Tombstone(log[k]) else log[k]
  {
    var after := UpdateAll(log, RemovalsIn(entry, log, keys));
    forall k | 0 <= k < |log|
      ensures after[k] == if IsAffected(log[k], keys) then Tombstone(log[k]) else log[k]
      ensures GoodRecord(after[k], valid)
    {
      assert GoodRecord(log[k], valid);
      UpdateMarks(entry, log, keys, k);
      MarkArrives(log[k].labels);
      TombstoneReads(log[k]);
    }
  }

  /** One record read after a removal: the step and the removal commute. */
  lemma {:induction false} RemovalCommutes(m: AttachmentMap, record: LogRecord, keys: set<string>, valid: Json)
    requires ReadStep(m, record, valid).Found?
    ensures var marked := if IsAffected(record, keys) then Tombstone(record) else record;
            ReadStep(Without(m, keys), marked, valid) == Found(Without(ReadStep(m, record, valid).attachments, keys))
  {
    var marked := if IsAffected(record, keys) then Tombstone(record) else record;
    TombstoneReads(record);
    if HasKey(record) {
      var key := record.labels[KEY];
      var after := ReadStep(m, record, valid).attachments;
      if Affects(keys, key) {
        assert Without(m, keys) - {key} == Without(m, keys) == Without(after, keys);
      } else if IsRemoved(record) {
        assert Without(m, keys) - {key} == Without(m - {key}, keys);
      } else {
        assert Without(m, keys)[key := record.payload] == Without(m[key := record.payload], keys);
      }
    }
  }

  lemma {:induction false} RemoveFolds(log: Log, after: Log, keys: set<string>, valid: Json, n: nat)
    requires |after| == |log| && n <= |log| && Inv(log, valid)
    requires forall k :: 0 <= k < |log| ==> after[k] == if IsAffected(log[k], keys) then Tombstone(log[k]) else log[k]
    ensures Folded(log, valid, n).Found?
    ensures Folded(after, valid, n) == Found(Without(Folded(log, valid, n).attachments, keys))
  {
    GoodLogReads(log, valid, n);
    if n == 0 {
      assert Without(map[], keys) == map[];
    } else {
      RemoveFolds(log, after, keys, valid, n - 1);
      RemovalCommutes(Folded(log, valid, n - 1).attachments, log[n - 1], keys, valid);
    }
  }

  // ---- One operation ----

  /** A log from which a map is read. */
  ghost predicate Reads(log: Log, m: AttachmentMap, valid: Json) {
    Inv(log, valid) && Folded(log, valid, |log|) == Found(m)
  }

  lemma {:induction false} WriteReads(
    log: Log, m: AttachmentMap, written: Log, attachments: AttachmentMap, keys: seq<string>, now: Time, valid: Json)
    requires (forall key <- keys :: key in attachments) && AllJson(attachments, valid)
    requires IsWritten(written, attachments, keys, now) && Folded(log, valid, |log|) == Found(m)
    ensures Folded(log + written, valid, |log + written|) == Found(SetKeys(m, attachments, keys, |keys|))
  {
    WrittenFolds(log, written, attachments, keys, now, m, valid, |keys|);
  }

  lemma {:induction false} WriteStep(
    log: Log, m: AttachmentMap, written: Log, attachments: AttachmentMap, keys: seq<string>, now: Time, valid: Json)
    requires Reads(log, m, valid) && Timely(log, Write(attachments, now)) && AllJson(attachments, valid) && !valid("")
    requires Enumerates(keys, attachments.Keys) && IsWritten(written, attachments, keys, now)
    requires forall key <- attachments :: GoodAttachmentKey(key)
    ensures Reads(log + written, m + attachments, valid)
  {
    WriteKeeps(log, written, attachments, keys, now, valid);
    WriteReads(log, m, written, attachments, keys, now, valid);
    SetAllKeys(m, attachments, keys);
  }

  /** Records that are later than those before them go to the end. */
  lemma {:induction false} LaterIsAppended(log: Log, written: Log, k: nat)
    requires InTimeOrder(log + written) && k <= |written|
    ensures InTime(log + written[..k], written[k..]) == log + written
    decreases |written| - k
  {
    if k < |written| {
      var before := log + written[..k];
      assert before + [written[k]] == log + written[..k + 1];
      assert forall i :: 0 <= i < |before| ==> before[i] == (log + written)[i];
      assert (log + written)[|before|] == written[k];
      assert written[k..][1..] == written[k + 1..];
      LaterIsAppended(log, written, k + 1);
    } else {
      assert written[..k] == written;
    }
  }

  lemma {:induction false} WriteInTime(
    log: Log, m: AttachmentMap, written: Log, attachments: AttachmentMap, keys: seq<string>, now: Time, valid: Json)
    requires Reads(log, m, valid) && Timely(log, Write(attachments, now)) && AllJson(attachments, valid) && !valid("")
    requires Enumerates(keys, attachments.Keys) && IsWritten(written, attachments, keys, now)
    requires forall key <- attachments :: GoodAttachmentKey(key)
    ensures Reads(InTime(log, written), m + attachments, valid)
  {
    WriteStep(log, m, written, attachments, keys, now, valid);
    LaterIsAppended(log, written, 0);
    assert log + written[..0] == log && written[0..] == written;
  }

  lemma {:induction false} RemoveStep(log: Log, m: AttachmentMap, keys: set<string>, entry: string, valid: Json)
    requires Reads(log, m, valid)
    ensures Reads(UpdateAll(log, RemovalsIn(entry, log, keys)), Without(m, keys), valid)
  {
    RemoveKeeps(log, entry, keys, valid);
    RemoveFolds(log, UpdateAll(log, RemovalsIn(entry, log, keys)), keys, valid, |log|);
  }

  /** An operation on good keys does to the log what it means for the map. */
  lemma {:induction false} OperationRefines(
    log: Log, m: AttachmentMap, operation: Operation, entry: string, valid: Json)
    requires Reads(log, m, valid) && Timely(log, operation) && GoodWrite(operation, valid) && !valid("")
    ensures Reads(Perform(log, operation, entry, valid), Meaning(m, operation, valid), valid)
  {
    match operation
    case Write(attachments, now) =>
      if AllJson(attachments, valid) {
        var keys := SortedKeys(attachments.Keys);
        SortedKeysAre(attachments.Keys);
        GoodKeysAreWritten(entry, attachments, keys, now);
        WriteInTime(log, m, Written(entry, attachments, keys, now), attachments, keys, now, valid);
      }
    case Remove(keys) => RemoveStep(log, m, keys, entry, valid);
  }
}
