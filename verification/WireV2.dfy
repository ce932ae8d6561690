/** The headers of a v2 request as text, for each record in the fields of that record alone. */
module WireV2 {
  import opened Text
  import opened Numbers
  import opened Batches
  import opened SendOrder
  import opened EntryNames
  import opened Labels
  import opened HeadersV2
  import opened RequestV2
  import opened MetadataV2
  import opened ArrivalV2

  /** The name of the header of a record: the place of its entry in the list, and its time after the base. */
  ghost predicate NamesRecord(name: string, request: Request, record: BatchRecord, defaultEntry: string) {
    exists idx: nat, delta: nat ::
      && name == "x-reduct-" + (Decimal(idx) + "-" + Decimal(delta))
      && idx < |request.entries| && SentUnder(record, defaultEntry, request.entries[idx])
      && IsSentTime(request.startTs + delta, record)
  }

  /** The unsigned count of whole microseconds of a record's time: 2 to the 64 is added to one before the epoch. */
  predicate IsSentTime(micros: int, record: BatchRecord) {
    if micros < 0x8000_0000_0000_0000 then WholeMicros(1000 * micros, record.timestamp)
    else micros < 0x1_0000_0000_0000_0000 && WholeMicros(1000 * (micros - 0x1_0000_0000_0000_0000), record.timestamp)
  }

  /** What the header of a record says when it is written, when its labels are updated and when it is removed. */
  function WireText(record: BatchRecord, kind: BatchType): string {
    var labels := LabelsText(record.labels);
    match kind
    case Write => Decimal(record.size) + "," + record.contentType + if labels == "" then "" else "," + labels
    case Update => if labels == "" then "0" else "0,," + labels
    case Remove => ""
  }

  /** Times that a signed 64-bit count of nanoseconds can hold. */
  predicate FitTheClock(records: seq<BatchRecord>) {
    forall i :: 0 <= i < |records| ==> -0x8000_0000_0000_0000 <= records[i].timestamp < 0x8000_0000_0000_0000
  }

  lemma {:induction false} ValueOnWire(record: BatchRecord, kind: BatchType)
    ensures HeaderValue(record, kind) == WireText(record, kind)
  {
    if kind == Write && LabelsText(record.labels) != "" {
      var front := Decimal(record.size) + "," + record.contentType;
      ConcatAssociative(front, ",", LabelsText(record.labels));
    }
  }

  lemma {:induction false} SentTime(record: BatchRecord)
    requires -0x8000_0000_0000_0000 <= record.timestamp < 0x8000_0000_0000_0000
    ensures IsSentTime(MicrosOf(record), record)
  {
    var us := ToMicroseconds(record.timestamp);
    assert WholeMicros(1000 * us, record.timestamp);
    assert MicrosOf(record) == if us < 0 then us + U64 else us;
  }

  lemma {:induction false} KeyNames(
    request: Request, names: seq<string>, micros: seq<nat>, k: nat, record: BatchRecord, defaultEntry: string)
    requires Fits(micros) && k < |names| == |micros|
    requires request.entries == EntryList(names) && request.startTs == StartTs(micros)
    requires SentUnder(record, defaultEntry, names[k]) && IsSentTime(micros[k], record)
    ensures NamesRecord(KeyOf(names, micros, k), request, record, defaultEntry)
  {
    var idx, delta := IndexOf(names, k), DeltaOf(micros, k);
    assert KeyOf(names, micros, k) == "x-reduct-" + (Decimal(idx) + "-" + Decimal(delta));
    assert IsSentTime(request.startTs + delta, record);
  }

  lemma {:induction false} KeyNamesRecord(
    request: Request, records: seq<BatchRecord>, defaultEntry: string, kind: BatchType, k: nat)
    requires IsRequest(request, records, defaultEntry, kind) && k < |request.ordered|
    requires -0x8000_0000_0000_0000 <= records[request.ordered[k]].timestamp < 0x8000_0000_0000_0000
    ensures var order := request.ordered;
            var names, micros := Names(records, defaultEntry, order), Micros(records, order);
            Fits(micros) && NamesRecord(KeyOf(names, micros, k), request, records[order[k]], defaultEntry)
  {
    var order := request.ordered;
    var names, micros := Names(records, defaultEntry, order), Micros(records, order);
    var record := records[order[k]];
    SentTime(record);
    KeyNames(request, names, micros, k, record, defaultEntry);
  }

  lemma {:induction false} FirstOf(keys: seq<string>, k: nat) returns (j: nat)
    requires k < |keys|
    ensures j <= k && keys[j] == keys[k] && FirstAt(keys, j)
  {
    if FirstAt(keys, k) {
      j := k;
    } else {
      var i :| 0 <= i < k && keys[i] == keys[k];
      j := FirstOf(keys, i);
    }
  }

  /** The two headers that are not about a record. */
  lemma {:induction false} PreambleOnWire(
    request: Request, records: seq<BatchRecord>, defaultEntry: string, kind: BatchType)
    requires IsRequest(request, records, defaultEntry, kind)
    ensures "x-reduct-entries" in request.headers
    ensures request.headers["x-reduct-entries"] == Join(EncodeAll(request.entries))
    ensures "x-reduct-start-ts" in request.headers
    ensures request.headers["x-reduct-start-ts"] == Decimal(request.startTs)
  {
    var base := BaseHeaders(request.entries, request.startTs);
    assert "x-reduct-entries" in base && "x-reduct-start-ts" in base;
    assert base["x-reduct-entries"] == Join(EncodeAll(request.entries));
    assert base["x-reduct-start-ts"] == Decimal(request.startTs);
  }

  /** Every record of a batch has a header. */
  lemma {:induction false} RecordOnWire(
    request: Request, records: seq<BatchRecord>, defaultEntry: string, kind: BatchType, i: nat)
    returns (name: string)
    requires IsRequest(request, records, defaultEntry, kind) && i < |records|
    requires -0x8000_0000_0000_0000 <= records[i].timestamp < 0x8000_0000_0000_0000
    ensures name in request.headers && NamesRecord(name, request, records[i], defaultEntry)
  {
    SendOrderIsPermutation(records, defaultEntry, true, request.ordered);
    assert i in request.ordered;
    var k :| 0 <= k < |request.ordered| && request.ordered[k] == i;
    KeyNamesRecord(request, records, defaultEntry, kind, k);
    var names, micros := Names(records, defaultEntry, request.ordered), Micros(records, request.ordered);
    name := KeyOf(names, micros, k);
    assert KeysOf(names, micros)[k] == name;
  }

  /** Where a name that was emplaced has its value from. */
  lemma {:induction false} EmplacedAt(
    headers: Headers, base: Headers, keys: seq<string>, values: seq<string>, name: string)
    returns (j: nat)
    requires |keys| == |values| && Emplaced(headers, base, keys, values, |keys|)
    requires name in headers && name !in base
    ensures j < |keys| && keys[j] == name && headers[name] == values[j]
  {
    var k :| 0 <= k < |keys| && keys[k] == name;
    j := FirstOf(keys, k);
  }

  lemma {:induction false} RequestEmplaced(
    request: Request, records: seq<BatchRecord>, defaultEntry: string, kind: BatchType)
    requires IsRequest(request, records, defaultEntry, kind)
    ensures ValidOrder(records, request.ordered) && AllBytes(request.entries)
    ensures var names, micros := Names(records, defaultEntry, request.ordered), Micros(records, request.ordered);
            Fits(micros) && Emplaced(request.headers, BaseHeaders(request.entries, request.startTs),
                                     KeysOf(names, micros), ValuesOf(InOrder(records, request.ordered), kind), |names|)
    ensures BaseHeaders(request.entries, request.startTs).Keys == {"x-reduct-entries", "x-reduct-start-ts"}
  {
  }

  /** Every other header of a request is that of a record, and says what such a record is sent with. */
  lemma {:induction false} HeaderOnWire(
    request: Request, records: seq<BatchRecord>, defaultEntry: string, kind: BatchType, name: string)
    returns (i: nat)
    requires IsRequest(request, records, defaultEntry, kind) && FitTheClock(records)
    requires name in request.headers && name != "x-reduct-entries" && name != "x-reduct-start-ts"
    ensures i < |records| && NamesRecord(name, request, records[i], defaultEntry)
    ensures request.headers[name] == WireText(records[i], kind)
  {
    RequestEmplaced(request, records, defaultEntry, kind);
    var names, micros := Names(records, defaultEntry, request.ordered), Micros(records, request.ordered);
    var values := ValuesOf(InOrder(records, request.ordered), kind);
    var j := EmplacedAt(request.headers, BaseHeaders(request.entries, request.startTs), KeysOf(names, micros), values,
                        name);
    i := request.ordered[j];
    KeyNamesRecord(request, records, defaultEntry, kind, j);
    ValueOnWire(records[i], kind);
  }

  /** The base timestamp is the time of some record, and no record has an earlier one as an unsigned number. */
  lemma {:induction false} BaseIsEarliest(
    request: Request, records: seq<BatchRecord>, defaultEntry: string, kind: BatchType)
    requires IsRequest(request, records, defaultEntry, kind) && records != [] && FitTheClock(records)
    ensures exists i :: 0 <= i < |records| && IsSentTime(request.startTs, records[i])
    ensures forall i, micros: int :: 0 <= i < |records| && micros >= 0 && IsSentTime(micros, records[i])
              ==> request.startTs <= micros
  {
    var order := request.ordered;
    SendOrderIsPermutation(records, defaultEntry, true, order);
    var micros := Micros(records, order);
    var k :| 0 <= k < |micros| && micros[k] == request.startTs;
    SentTime(records[order[k]]);
    forall i, us: int | 0 <= i < |records| && us >= 0 && IsSentTime(us, records[i]) ensures request.startTs <= us {
      assert i in order;
      var k :| 0 <= k < |order| && order[k] == i;
      SentTime(records[i]);
      SameSentTime(us, micros[k], records[i]);
    }
  }

  lemma {:induction false} SameSentTime(a: nat, b: nat, record: BatchRecord)
    requires IsSentTime(a, record) && IsSentTime(b, record)
    ensures a == b
  {
  }
}
