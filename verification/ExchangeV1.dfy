/** Requests and responses of batch protocol v1. */
module ExchangeV1 {
  import opened Wrappers
  import opened Text
  import opened Numbers
  import opened Ordering
  import opened Batches
  import opened SendOrder
  import opened Labels
  import opened HeadersV2
  import opened RequestV2
  import opened BatchV1

  // ---- Encoding ----

  /** fmt::format of a signed number. */
  function SignedDecimal(n: int): string {
    if n < 0 then "-" + Decimal(-n) else Decimal(n)
  }

  function TimeKey(record: BatchRecord): string {
    HEADER_TIME_PREFIX + SignedDecimal(ToMicroseconds(record.timestamp))
  }

  function TimeValue(record: BatchRecord, kind: BatchType): string {
    match kind
    case Write => WrittenValue(record.size, record.contentType, record.labels)
    case Update => "0,," + LabelsText(record.labels)
    case Remove => "0,"
  }

  /** The header of a label update is that of an empty record without a content type. */
  lemma {:induction false} UpdateValueComesBack(record: BatchRecord)
    requires Separable(record.labels) && NoQuotedItems("", record.labels)
    ensures ParsedCsv(TimeValue(record, Update)) == Some(Csv(0, "", record.labels))
  {
    var labels := LabelsText(record.labels);
    assert Decimal(0) == "0";
    assert "0,," + labels == Decimal(0) + "," + ("" + "," + labels);
    ValueComesBackV1(0, "", record.labels);
  }

  function TimeKeys(sent: seq<BatchRecord>): (keys: seq<string>)
    ensures |keys| == |sent| && forall k :: 0 <= k < |sent| ==> keys[k] == TimeKey(sent[k])
  {
    seq(|sent|, k requires 0 <= k < |sent| => TimeKey(sent[k]))
  }

  function TimeValues(sent: seq<BatchRecord>, kind: BatchType): (values: seq<string>)
    ensures |values| == |sent| && forall k :: 0 <= k < |sent| ==> values[k] == TimeValue(sent[k], kind)
  {
    seq(|sent|, k requires 0 <= k < |sent| => TimeValue(sent[k], kind))
  }

  /** SeveralEntries is the error with code -1. */
  datatype BuildResultV1 = SeveralEntries | BuiltV1(ordered: seq<nat>, headers: Headers)

  /** Two records for one entry: both name it, or one leaves it to the batch, which is for that entry. */
  predicate SameTarget(a: BatchRecord, b: BatchRecord, entry: string) {
    a.entry == b.entry || (a.entry == "" && b.entry == entry) || (b.entry == "" && a.entry == entry)
  }

  predicate OneEntry(records: seq<BatchRecord>, entry: string) {
    forall i, j :: 0 <= i < j < |records| ==> SameTarget(records[i], records[j], entry)
  }

  ghost predicate IsRequestV1(
    ordered: seq<nat>, headers: Headers, records: seq<BatchRecord>, entry: string, kind: BatchType)
  {
    && IsSendOrder(records, entry, false, ordered) && ValidOrder(records, ordered)
    && var sent := InOrder(records, ordered);
    Emplaced(headers, map[], TimeKeys(sent), TimeValues(sent, kind), |sent|)
  }

  /** The entries of a batch, as the set unique_entries. */
  method UniqueEntries(records: seq<BatchRecord>, order: seq<nat>, entry: string) returns (entries: set<string>)
    requires ValidOrder(records, order)
    ensures forall e :: e in entries <==> exists k :: 0 <= k < |order| && RecordEntry(records[order[k]], entry) == e
  {
    entries := {};
    for k := 0 to |order|
      invariant forall e :: e in entries <==> exists j :: 0 <= j < k && RecordEntry(records[order[j]], entry) == e
    {
      entries := entries + {RecordEntry(records[order[k]], entry)};
    }
  }

  lemma {:induction false} TwoInSet<T>(elements: set<T>) returns (a: T, b: T)
    requires |elements| > 1
    ensures a in elements && b in elements && a != b
  {
    a :| a in elements;
    assert |elements - {a}| > 0;
    b :| b in elements - {a};
  }

  lemma {:induction false} AtLeastTwo<T>(elements: set<T>, a: T, b: T)
    requires a in elements && b in elements && a != b
    ensures |elements| > 1
  {
    assert {a, b} <= elements;
    assert |{a, b}| == 2 && |elements - {a, b}| == |elements| - |{a, b}|;
  }

  lemma {:induction false} OneEntryInSet(
    records: seq<BatchRecord>, order: seq<nat>, entry: string, entries: set<string>)
    requires ValidOrder(records, order) && forall i :: 0 <= i < |records| ==> i in order
    requires forall e :: e in entries <==> exists k :: 0 <= k < |order| && RecordEntry(records[order[k]], entry) == e
    ensures |entries| > 1 <==> !OneEntry(records, entry)
  {
    if |entries| > 1 {
      var a, b := TwoInSet(entries);
      var p :| 0 <= p < |order| && RecordEntry(records[order[p]], entry) == a;
      var q :| 0 <= q < |order| && RecordEntry(records[order[q]], entry) == b;
      assert order[p] < order[q] || order[q] < order[p];
      assert !SameTarget(records[order[p]], records[order[q]], entry);
    }
    if i, j :| 0 <= i < j < |records| && !SameTarget(records[i], records[j], entry) {
      assert i in order && j in order;
      AtLeastTwo(entries, RecordEntry(records[i], entry), RecordEntry(records[j], entry));
    }
  }

  method EmplaceTimes(records: seq<BatchRecord>, order: seq<nat>, kind: BatchType) returns (headers: Headers)
    requires ValidOrder(records, order)
    ensures var sent := InOrder(records, order);
            Emplaced(headers, map[], TimeKeys(sent), TimeValues(sent, kind), |sent|)
  {
    ghost var sent := InOrder(records, order);
    ghost var keys, values := TimeKeys(sent), TimeValues(sent, kind);
    headers := map[];
    for k := 0 to |order|
      invariant Emplaced(headers, map[], keys, values, k)
    {
      EmplaceOne(headers, map[], keys, values, k);
      headers := Emplace(headers, TimeKey(records[order[k]]), TimeValue(records[order[k]], kind));
    }
  }

  /** ProcessBatchV1 up to the request: a batch for more than one entry is an error. */
  method BuildBatchV1Request(records: seq<BatchRecord>, entry: string, kind: BatchType) returns (result: BuildResultV1)
    ensures result.SeveralEntries? <==> !OneEntry(records, entry)
    ensures result.BuiltV1? ==> IsRequestV1(result.ordered, result.headers, records, entry, kind)
  {
    var order := SortRecords(records, entry, false);
    SendOrderIsPermutation(records, entry, false, order);
    var entries := UniqueEntries(records, order, entry);
    OneEntryInSet(records, order, entry, entries);
    if |entries| > 1 {
      return SeveralEntries;
    }
    var headers := EmplaceTimes(records, order, kind);
    return BuiltV1(order, headers);
  }

  // ---- Decoding ----

  predicate IsTimeName(name: string) {
    StartsWith(name, HEADER_TIME_PREFIX)
  }

  function TimeName(name: string): seq<string> {
    if IsTimeName(name) then [name] else []
  }

  /** The names of time headers in a list of names. */
  function TimeNames(names: seq<string>, n: nat): seq<string>
    requires n <= |names|
  {
    Collect(TimeName, names, n)
  }

  type RecordParser = string -> Option<ReadableRecord>

  /** One time header; None is an exception. */
  function RecordV1(name: string, value: string): Option<ReadableRecord>
    requires IsTimeName(name)
  {
    var csv :- ParsedCsv(value);
    var micros :- StoUll(Substr(name, |HEADER_TIME_PREFIX|, |name|));
    Some(ReadableRecord("", FromMicroseconds(micros), csv.size % U64, false, csv.labels, csv.contentType))
  }

  function ParserV1(headers: Headers): RecordParser {
    (name: string) => if name in headers && IsTimeName(name) then RecordV1(name, headers[name]) else None
  }

  function SaysLast(headers: Headers): bool {
    HEADER_LAST in headers && headers[HEADER_LAST] == "true"
  }

  /** The records of some time headers, of which the one that completes the total is marked. */
  function RecordsOf(parse: RecordParser, names: seq<string>, total: int, last: bool): Option<seq<ReadableRecord>> {
    if names == [] then Some([])
    else
      var n := |names| - 1;
      var records :- RecordsOf(parse, names[..n], total, last);
      var record :- parse(names[n]);
      Some(records + [record.(last := |records| == total - 1 && last)])
  }

  /** What decoding returns: the headers in the order of a std::map, that is, of their names as strings. */
  function DecodedV1(headers: Headers): Option<seq<ReadableRecord>> {
    var keys := SortedKeys(headers.Keys);
    var names := TimeNames(keys, |keys|);
    RecordsOf(ParserV1(headers), names, |names|, SaysLast(headers))
  }

  lemma {:induction false} ThrowStays(parse: RecordParser, keys: seq<string>, k: nat, n: nat, total: int, last: bool)
    requires k <= n <= |keys|
    ensures RecordsOf(parse, TimeNames(keys, k), total, last).None?
            ==> RecordsOf(parse, TimeNames(keys, n), total, last).None?
  {
    if k < n {
      ThrowStays(parse, keys, k, n - 1, total, last);
      OneMoreName(parse, keys, n - 1, total, last);
    }
  }

  lemma {:induction false} OneMoreName(parse: RecordParser, keys: seq<string>, n: nat, total: int, last: bool)
    requires n < |keys|
    ensures var before := RecordsOf(parse, TimeNames(keys, n), total, last);
            var after := RecordsOf(parse, TimeNames(keys, n + 1), total, last);
            if !IsTimeName(keys[n]) then after == before
            else if before.None? || parse(keys[n]).None? then after == None
            else after == Some(before.value + [parse(keys[n]).value.(last := |before.value| == total - 1 && last)])
  {
    var names := TimeNames(keys, n);
    if IsTimeName(keys[n]) {
      assert (names + [keys[n]])[..|names|] == names;
    } else {
      assert names + [] == names;
    }
  }

  /** count_if over the unordered map gives the number of time headers. */
  lemma {:induction false} SameCount(keys: seq<string>, iteration: seq<string>, elements: set<string>)
    requires Enumerates(keys, elements) && Enumerates(iteration, elements)
    ensures |TimeNames(keys, |keys|)| == |TimeNames(iteration, |iteration|)|
  {
    var a, b := TimeNames(keys, |keys|), TimeNames(iteration, |iteration|);
    CollectDistinct(TimeName, keys, |keys|);
    CollectDistinct(TimeName, iteration, |iteration|);
    forall x ensures x in a <==> x in b {
      TimeNamesMembers(keys, elements, x);
      TimeNamesMembers(iteration, elements, x);
    }
    SameElementsSameMultiset(a, b);
    assert |multiset(a)| == |multiset(b)|;
  }

  lemma {:induction false} TimeNamesMembers(keys: seq<string>, elements: set<string>, x: string)
    requires Enumerates(keys, elements)
    ensures x in TimeNames(keys, |keys|) <==> x in elements && IsTimeName(x)
  {
    CollectMembers(TimeName, keys, |keys|, x);
    if x in elements && IsTimeName(x) {
      assert x in keys;
      var i :| 0 <= i < |keys| && keys[i] == x;
      assert x in TimeName(keys[i]);
    }
    if i :| 0 <= i < |keys| && x in TimeName(keys[i]) {
      assert keys[i] in keys;
    }
  }

  method CountTimeHeaders(iteration: seq<string>) returns (count: nat)
    ensures count == |TimeNames(iteration, |iteration|)|
  {
    count := 0;
    for k := 0 to |iteration|
      invariant count == |TimeNames(iteration, k)|
    {
      if IsTimeName(iteration[k]) {
        count := count + 1;
      }
    }
  }

  method BuildRecordsV1(parse: RecordParser, keys: seq<string>, total: int, last: bool)
    returns (result: Option<seq<ReadableRecord>>)
    ensures result == RecordsOf(parse, TimeNames(keys, |keys|), total, last)
  {
    var records: seq<ReadableRecord> := [];
    for k := 0 to |keys|
      invariant RecordsOf(parse, TimeNames(keys, k), total, last) == Some(records)
    {
      OneMoreName(parse, keys, k, total, last);
      if !IsTimeName(keys[k]) {
        continue;
      }
      var record := parse(keys[k]);
      if record.None? {
        ThrowStays(parse, keys, k + 1, |keys|, total, last);
        return None;
      }
      records := records + [record.value.(last := |records| == total - 1 && last)];
    }
    return Some(records);
  }

  /** `iteration` is the order in which the unordered header map is iterated; it does not matter. */
  method ParseAndBuildBatchedRecordsV1(headers: Headers, iteration: seq<string>)
    returns (records: Option<seq<ReadableRecord>>)
    requires Enumerates(iteration, headers.Keys)
    ensures records == DecodedV1(headers)
  {
    var total := CountTimeHeaders(iteration);
    var orderedHeaders := SortedKeys(headers.Keys);
    SortedKeysAre(headers.Keys);
    SameCount(orderedHeaders, iteration, headers.Keys);
    records := BuildRecordsV1(ParserV1(headers), orderedHeaders, total, SaysLast(headers));
  }
}
