/** The headers of a v1 request, and what a receiver learns of each sent record, in the fields of that record alone. */
module ArrivalV1 {
  import opened Wrappers
  import opened Text
  import opened Numbers
  import opened Ordering
  import opened Batches
  import opened SendOrder
  import opened Labels
  import opened HeadersV2
  import opened RequestV2
  import opened RoundTripV2
  import opened MetadataV2
  import opened BatchV1
  import opened ExchangeV1
  import opened RoundTripV1
  import opened ArrivalV2
  import opened WireV2

  // ---- The request ----

  /** The name of a time header follows from the time: its whole microseconds, with a minus sign before the epoch. */
  ghost predicate NamesTime(name: string, t: Time) {
    exists us: int ::
      && WholeMicros(1000 * us, t)
      && name == "x-reduct-time-" + if us < 0 then "-" + Decimal(-us) else Decimal(us)
  }

  /** What the time header of a record says when it is written, when its labels are updated and when it is removed. */
  function WireTextV1(record: BatchRecord, kind: BatchType): string {
    match kind
    case Write => Decimal(record.size) + "," + record.contentType + "," + LabelsText(record.labels)
    case Update => "0,," + LabelsText(record.labels)
    case Remove => "0,"
  }

  lemma {:induction false} KeyNamesTime(record: BatchRecord)
    ensures NamesTime(TimeKey(record), record.timestamp)
  {
    var us := ToMicroseconds(record.timestamp);
    assert WholeMicros(1000 * us, record.timestamp);
    assert TimeKey(record) == "x-reduct-time-" + if us < 0 then "-" + Decimal(-us) else Decimal(us);
  }

  lemma {:induction false} OneNameForTime(a: string, b: string, t: Time)
    requires NamesTime(a, t) && NamesTime(b, t)
    ensures a == b
  {
  }

  lemma {:induction false} ValueOnWireV1(record: BatchRecord, kind: BatchType)
    ensures TimeValue(record, kind) == WireTextV1(record, kind)
  {
    if kind == Write {
      ConcatAssociative(Decimal(record.size) + ",", record.contentType, "," + LabelsText(record.labels));
    }
  }

  /** Every record of a batch has a header with its time for a name. */
  lemma {:induction false} RecordOnWireV1(
    ordered: seq<nat>, headers: Headers, records: seq<BatchRecord>, entry: string, kind: BatchType, i: nat,
    name: string)
    requires IsRequestV1(ordered, headers, records, entry, kind) && i < |records|
    requires NamesTime(name, records[i].timestamp)
    ensures name in headers
  {
    SendOrderIsPermutation(records, entry, false, ordered);
    assert i in ordered;
    var k :| 0 <= k < |ordered| && ordered[k] == i;
    var keys := TimeKeys(InOrder(records, ordered));
    KeyNamesTime(records[i]);
    OneNameForTime(name, keys[k], records[i].timestamp);
  }

  /** Every header is that of a record with this time, and says what such a record is sent with. */
  lemma {:induction false} HeaderOnWireV1(
    ordered: seq<nat>, headers: Headers, records: seq<BatchRecord>, entry: string, kind: BatchType, name: string)
    returns (i: nat)
    requires IsRequestV1(ordered, headers, records, entry, kind) && name in headers
    ensures i < |records| && NamesTime(name, records[i].timestamp) && headers[name] == WireTextV1(records[i], kind)
  {
    var sent := InOrder(records, ordered);
    var j := EmplacedAt(headers, map[], TimeKeys(sent), TimeValues(sent, kind), name);
    i := ordered[j];
    KeyNamesTime(records[i]);
    ValueOnWireV1(records[i], kind);
  }

  // ---- The response ----

  lemma {:induction false} LastIsSaid(headers: Headers)
    ensures SaysLast(headers) <==> "x-reduct-last" in headers && headers["x-reduct-last"] == "true"
  {
  }

  /** Of any response, a record is marked as the last one exactly when it is the final one and the response says so. */
  lemma {:induction false} FinalIsMarkedV1(headers: Headers, records: seq<ReadableRecord>, k: nat)
    requires DecodedV1(headers) == Some(records) && k < |records|
    ensures records[k].last
            <==> k + 1 == |records| && "x-reduct-last" in headers && headers["x-reduct-last"] == "true"
  {
    var keys := SortedKeys(headers.Keys);
    var names := TimeNames(keys, |keys|);
    MarkedInList(ParserV1(headers), names, |names|, SaysLast(headers));
    LastIsSaid(headers);
  }

  lemma {:induction false} MarkedInList(parse: RecordParser, names: seq<string>, total: int, last: bool)
    ensures var records := RecordsOf(parse, names, total, last);
            records.Some? ==>
              && |records.value| == |names|
              && forall k :: 0 <= k < |names| ==> (records.value[k].last <==> k == total - 1 && last)
    decreases |names|
  {
    if names != [] {
      MarkedInList(parse, names[..|names| - 1], total, last);
    }
  }

  /** A record as it comes back: without an entry, at its time in whole microseconds, and otherwise as it was. */
  predicate ArrivesV1(got: ReadableRecord, sent: BatchRecord) {
    && got.entry == "" && WholeMicros(got.timestamp, sent.timestamp)
    && got.size == sent.size && got.contentType == sent.contentType && got.labels == sent.labels
  }

  lemma {:induction false} ReceivedArrives(record: BatchRecord, last: bool)
    requires FitsClock(record.timestamp)
    ensures ArrivesV1(Received(record).(last := last), record)
  {
    MicrosSigned(record);
  }

  /** A header is that of the m-th sent record, and is read as that. */
  predicate IsHeaderOf(name: string, parse: RecordParser, sent: seq<BatchRecord>, m: nat) {
    m < |sent| && name == TimeKey(sent[m]) && parse(name) == Some(Received(sent[m]))
  }

  predicate AreOriginsV1(names: seq<string>, parse: RecordParser, sent: seq<BatchRecord>, origins: seq<nat>) {
    |origins| <= |names| && forall k :: 0 <= k < |origins| ==> IsHeaderOf(names[k], parse, sent, origins[k])
  }

  lemma {:induction false} HeaderOrigin(headers: Headers, sent: seq<BatchRecord>, k: nat) returns (m: nat)
    requires AllReadableV1(sent) && HasTimes(headers, TimeKeys(sent), TimeValues(sent, Write))
    requires multiset(FoundNames(headers)) == multiset(TimeKeys(sent)) && k < |FoundNames(headers)|
    ensures IsHeaderOf(FoundNames(headers)[k], ParserV1(headers), sent, m)
  {
    m := RoundTripV1.FoundIsSent(headers, sent, k);
  }

  /** Which sent record each of the headers that are found belongs to. */
  lemma {:induction false} FoundOrigins(headers: Headers, sent: seq<BatchRecord>, n: nat) returns (origins: seq<nat>)
    requires AllReadableV1(sent) && HasTimes(headers, TimeKeys(sent), TimeValues(sent, Write))
    requires multiset(FoundNames(headers)) == multiset(TimeKeys(sent)) && n <= |FoundNames(headers)|
    ensures |origins| == n && AreOriginsV1(FoundNames(headers), ParserV1(headers), sent, origins)
  {
    if n == 0 {
      origins := [];
    } else {
      var before := FoundOrigins(headers, sent, n - 1);
      var m := HeaderOrigin(headers, sent, n - 1);
      origins := OneMoreOrigin(FoundNames(headers), ParserV1(headers), sent, before, m);
    }
  }

  lemma {:induction false} OneMoreOrigin(
    names: seq<string>, parse: RecordParser, sent: seq<BatchRecord>, before: seq<nat>, m: nat)
    returns (origins: seq<nat>)
    requires |before| < |names| && AreOriginsV1(names, parse, sent, before)
    requires IsHeaderOf(names[|before|], parse, sent, m)
    ensures |origins| == |before| + 1 && AreOriginsV1(names, parse, sent, origins)
  {
    origins := before + [m];
  }

  lemma {:induction false} FoundOnce(
    names: seq<string>, parse: RecordParser, sent: seq<BatchRecord>, origins: seq<nat>)
    requires |origins| == |names| && NoDuplicates(names) && AreOriginsV1(names, parse, sent, origins)
    ensures NoDuplicates(origins)
  {
    forall i, j | 0 <= i < j < |origins| ensures origins[i] != origins[j] {
      assert names[i] != names[j];
    }
  }

  lemma {:induction false} FoundArrive(headers: Headers, sent: seq<BatchRecord>) returns (origins: seq<nat>)
    requires AllReadableV1(sent) && Increasing(TimesIn(sent))
    requires HasTimes(headers, TimeKeys(sent), TimeValues(sent, Write))
    ensures DecodedV1(headers).Some? && |DecodedV1(headers).value| == |sent| == |origins| && NoDuplicates(origins)
    ensures forall k :: 0 <= k < |sent| ==>
              origins[k] < |sent| && ArrivesV1(DecodedV1(headers).value[k], sent[origins[k]])
  {
    FoundAreRead(headers, sent);
    TimeKeysOf(sent);
    KeysForAreNames(TimesIn(sent));
    RearrangedHasNoDuplicates(TimeKeys(sent), FoundNames(headers));
    origins := FoundOrigins(headers, sent, |FoundNames(headers)|);
    FoundOnce(FoundNames(headers), ParserV1(headers), sent, origins);
    forall k | 0 <= k < |sent|
      ensures origins[k] < |sent| && ArrivesV1(DecodedV1(headers).value[k], sent[origins[k]])
    {
      assert IsHeaderOf(FoundNames(headers)[k], ParserV1(headers), sent, origins[k]);
      assert ReadableV1(sent[origins[k]]);
      ReceivedArrives(sent[origins[k]], DecodedV1(headers).value[k].last);
    }
  }

  /** Each decoded record is what arrives of a sent one, and of a different one each. */
  ghost predicate AllArriveV1(decoded: seq<ReadableRecord>, records: seq<BatchRecord>, from: seq<nat>) {
    && |decoded| == |records| == |from| && NoDuplicates(from) && ValidOrder(records, from)
    && forall k :: 0 <= k < |decoded| ==> ArrivesV1(decoded[k], records[from[k]])
  }

  /** Every record of a batch comes back once from the headers of its request, in whatever order. */
  lemma {:induction false} RecordsArriveV1(
    records: seq<BatchRecord>, entry: string, order: seq<nat>, request: Headers, headers: Headers)
    returns (from: seq<nat>)
    requires IsRequestV1(order, request, records, entry, Write)
    requires AllReadableV1(records) && OneEntry(records, entry) && DistinctMicros(records, entry)
    requires forall name :: IsTimeName(name) ==>
               (name in headers <==> name in request) && (name in headers ==> headers[name] == request[name])
    ensures DecodedV1(headers).Some? && AllArriveV1(DecodedV1(headers).value, records, from)
  {
    var sent := InOrder(records, order);
    assert AllReadableV1(sent);
    SentIncreases(records, entry, order);
    TimeKeysOf(sent);
    KeysForAreNames(TimesIn(sent));
    EmplacedIsTimes(headers, request, TimeKeys(sent), TimeValues(sent, Write));
    var origins := FoundArrive(headers, sent);
    from := Through(order, origins);
    ThroughOnce(order, origins);
  }
}
