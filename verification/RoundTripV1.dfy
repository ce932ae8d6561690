/** Decoding what ProcessBatchV1 encoded. */
module RoundTripV1 {
  import opened Wrappers
  import opened Text
  import opened Numbers
  import opened Ordering
  import opened Batches
  import opened SendOrder
  import opened Labels
  import opened HeadersV2
  import opened RequestV2
  import opened RoundTripV2
  import opened MetadataV2
  import opened BatchV1
  import opened ExchangeV1

  // ---- Strings of digits against numbers ----

  lemma {:induction false} LexOfAppended(a: string, b: string, c: char, d: char)
    requires |a| == |b|
    ensures LexLess(a + [c], b + [d]) <==> LexLess(a, b) || (a == b && c < d)
    ensures a + [c] == b + [d] <==> a == b && c == d
  {
    if a != "" {
      assert (a + [c])[1..] == a[1..] + [c] && (b + [d])[1..] == b[1..] + [d];
      LexOfAppended(a[1..], b[1..], c, d);
      assert a == [a[0]] + a[1..] && b == [b[0]] + b[1..];
    } else {
      assert a + [c] == [c] && b + [d] == [d];
      assert [c][1..] == "" && [d][1..] == "";
    }
    assert (a + [c])[|a|] == c && (b + [d])[|b|] == d;
    if a + [c] == b + [d] {
      assert a == (a + [c])[..|a|] == (b + [d])[..|b|] == b;
    }
  }

  /** Decimals of one width are ordered as strings as they are as numbers. */
  lemma {:induction false} EqualWidthOrder(a: nat, b: nat)
    requires |Decimal(a)| == |Decimal(b)|
    ensures LexLess(Decimal(a), Decimal(b)) <==> a < b
  {
    if a < 10 {
      assert b < 10;
      LexOfAppended("", "", Digit(a), Digit(b));
      assert "" + [Digit(a)] == Decimal(a) && "" + [Digit(b)] == Decimal(b);
    } else {
      assert b >= 10;
      EqualWidthOrder(a / 10, b / 10);
      LexOfAppended(Decimal(a / 10), Decimal(b / 10), Digit(a % 10), Digit(b % 10));
      if Decimal(a / 10) == Decimal(b / 10) {
        DecimalInjective(a / 10, b / 10);
      }
    }
  }

  /** As strings, ten comes before nine. */
  lemma {:induction false} TenBeforeNine()
    ensures LexLess(Decimal(10), Decimal(9)) && !LexLess(Decimal(9), Decimal(10))
  {
    assert Decimal(10) == Decimal(1) + [Digit(0)] && Decimal(1) == "1" && Decimal(9) == "9";
    assert Decimal(10)[0] == '1';
  }

  lemma {:induction false} LexOfPrefixed(prefix: string, a: string, b: string)
    ensures LexLess(prefix + a, prefix + b) <==> LexLess(a, b)
  {
    if prefix == "" {
      assert prefix + a == a && prefix + b == b;
    } else {
      assert (prefix + a)[1..] == prefix[1..] + a && (prefix + b)[1..] == prefix[1..] + b;
      LexOfPrefixed(prefix[1..], a, b);
    }
  }

  // ---- The order of the headers ----

  function KeysFor(times: seq<int>): (keys: seq<string>)
    ensures |keys| == |times|
    ensures forall k :: 0 <= k < |times| ==> keys[k] == HEADER_TIME_PREFIX + SignedDecimal(times[k])
  {
    seq(|times|, k requires 0 <= k < |times| => HEADER_TIME_PREFIX + SignedDecimal(times[k]))
  }

  /** The timestamps as they are printed grow as strings. */
  predicate PrintedAscend(times: seq<int>) {
    forall p, q :: 0 <= p < q < |times| ==> LexLess(SignedDecimal(times[p]), SignedDecimal(times[q]))
  }

  predicate EqualWidths(times: seq<int>) {
    forall p, q :: 0 <= p < q < |times| ==> |SignedDecimal(times[p])| == |SignedDecimal(times[q])|
  }

  predicate Increasing(times: seq<int>) {
    forall p, q :: 0 <= p < q < |times| ==> times[p] < times[q]
  }

  /** So for times of one width after the epoch, the order of the headers as strings is the order of the times. */
  lemma {:induction false} EqualWidthsAscend(times: seq<int>)
    requires Increasing(times) && EqualWidths(times) && forall k :: 0 <= k < |times| ==> times[k] >= 0
    ensures PrintedAscend(times)
  {
    forall p, q | 0 <= p < q < |times| ensures LexLess(SignedDecimal(times[p]), SignedDecimal(times[q])) {
      EqualWidthOrder(times[p], times[q]);
    }
  }

  lemma {:induction false} SignedInjective(a: int, b: int)
    requires SignedDecimal(a) == SignedDecimal(b)
    ensures a == b
  {
    var s := SignedDecimal(a);
    assert a >= 0 ==> IsDigit(Decimal(a)[0]);
    assert b >= 0 ==> IsDigit(Decimal(b)[0]);
    if a < 0 {
      assert s[0] == '-' && s[1..] == Decimal(-a) == Decimal(-b);
      DecimalInjective(-a, -b);
    } else {
      DecimalInjective(a, b);
    }
  }

  /** A minus sign wraps around, as the conversion to an unsigned number does. */
  lemma {:induction false} StoUllSigned(n: int)
    requires -I64_MAX <= n < I64_MAX
    ensures StoUll(SignedDecimal(n)) == Some(n % U64)
  {
    if n >= 0 {
      StoUllDecimal(n);
    } else {
      NegativeParts(-n);
      WrapsAround(n);
    }
  }

  lemma {:induction false} WrapsAround(n: int)
    requires -I64_MAX <= n < 0
    ensures n % U64 == U64 + n
  {
  }

  lemma {:induction false} NegativeParts(n: nat)
    ensures var s := "-" + Decimal(n); AfterSign(s) == (true, 1) && Magnitude(s, 1) == Some(n)
  {
    var s, d := "-" + Decimal(n), Decimal(n);
    assert s[0] == '-' && SkipSpaces(s, 0) == 0;
    assert At(s, 1, d);
    MagnitudeAt(s, 1, d);
    ValueOfDecimal(n);
  }

  function LexOrder(): (string, string) -> bool {
    (a: string, b: string) => LexLess(a, b)
  }

  lemma {:induction false} LexSortedIsStrict(names: seq<string>)
    requires forall i, j :: 0 <= i < j < |names| ==> LexLess(names[i], names[j])
    ensures StrictlySorted(names, LexOrder()) && NoDuplicates(names)
  {
    forall i, j | 0 <= i < j < |names|
      ensures LexOrder()(names[i], names[j]) && !LexOrder()(names[j], names[i]) && names[i] != names[j]
    {
      LexIrreflexive(names[i]);
      if LexLess(names[j], names[i]) {
        LexTransitive(names[i], names[j], names[i]);
      }
    }
  }

  /** Filtering keeps the order. */
  lemma {:induction false} TimeNamesSorted(keys: seq<string>, n: nat)
    requires n <= |keys| && forall i, j :: 0 <= i < j < |keys| ==> LexLess(keys[i], keys[j])
    ensures var names := TimeNames(keys, n); forall i, j :: 0 <= i < j < |names| ==> LexLess(names[i], names[j])
  {
    if n > 0 {
      TimeNamesSorted(keys, n - 1);
      var names := TimeNames(keys, n - 1);
      forall i | 0 <= i < |names| ensures LexLess(names[i], keys[n - 1]) {
        CollectMembers(TimeName, keys, n - 1, names[i]);
        var j :| 0 <= j < n - 1 && names[i] in TimeName(keys[j]);
      }
    }
  }

  /** A response whose time headers are those of the request. */
  ghost predicate HasTimes(headers: Headers, keys: seq<string>, values: seq<string>)
    requires |keys| == |values|
  {
    && (forall k :: 0 <= k < |keys| ==> keys[k] in headers && headers[keys[k]] == values[k])
    && (forall name <- headers :: IsTimeName(name) ==> name in keys)
  }

  /** The time headers that the decoder goes through, in its order. */
  function FoundNames(headers: Headers): seq<string> {
    var keys := SortedKeys(headers.Keys);
    TimeNames(keys, |keys|)
  }

  lemma {:induction false} FoundAreSent(headers: Headers, keys: seq<string>, values: seq<string>)
    requires |keys| == |values| && HasTimes(headers, keys, values) && NoDuplicates(keys)
    requires forall k :: 0 <= k < |keys| ==> IsTimeName(keys[k])
    ensures multiset(FoundNames(headers)) == multiset(keys) && |FoundNames(headers)| == |keys|
    ensures forall i, j :: 0 <= i < j < |FoundNames(headers)| ==>
              LexLess(FoundNames(headers)[i], FoundNames(headers)[j])
  {
    var all, found := SortedKeys(headers.Keys), FoundNames(headers);
    SortedKeysAre(headers.Keys);
    TimeNamesSorted(all, |all|);
    LexSortedIsStrict(found);
    forall x ensures x in found <==> x in keys {
      TimeNamesMembers(all, headers.Keys, x);
    }
    SameElementsSameMultiset(found, keys);
    assert |multiset(found)| == |multiset(keys)|;
  }

  /** The decoder finds the headers in send order exactly when the timestamps ascend as strings in that order. */
  lemma {:induction false} HeadersInSendOrder(headers: Headers, times: seq<int>, values: seq<string>)
    requires |times| == |values| && Increasing(times) && HasTimes(headers, KeysFor(times), values)
    ensures FoundNames(headers) == KeysFor(times) <==> PrintedAscend(times)
  {
    var sent, found := KeysFor(times), FoundNames(headers);
    KeysForAreNames(times);
    FoundAreSent(headers, sent, values);
    forall p, q | 0 <= p < q < |times|
      ensures LexLess(sent[p], sent[q]) <==> LexLess(SignedDecimal(times[p]), SignedDecimal(times[q]))
    {
      LexOfPrefixed(HEADER_TIME_PREFIX, SignedDecimal(times[p]), SignedDecimal(times[q]));
    }
    if PrintedAscend(times) {
      LexSortedIsStrict(sent);
      LexSortedIsStrict(found);
      SortUnique(sent, found, LexOrder());
    }
  }

  lemma {:induction false} KeysForAreNames(times: seq<int>)
    requires Increasing(times)
    ensures NoDuplicates(KeysFor(times)) && forall k :: 0 <= k < |times| ==> IsTimeName(KeysFor(times)[k])
  {
    var keys := KeysFor(times);
    forall k | 0 <= k < |keys| ensures IsTimeName(keys[k]) {
      SuffixOfKey(SignedDecimal(times[k]));
    }
    forall p, q | 0 <= p < q < |keys| ensures keys[p] != keys[q] {
      SuffixOfKey(SignedDecimal(times[p]));
      SuffixOfKey(SignedDecimal(times[q]));
      if keys[p] == keys[q] {
        SignedInjective(times[p], times[q]);
      }
    }
  }

  // ---- The records ----

  /** A parser that reads the k-th name as the k-th record. */
  ghost predicate ReadsAs(parse: RecordParser, names: seq<string>, expected: seq<ReadableRecord>)
    requires |names| == |expected|
  {
    forall k :: 0 <= k < |names| ==> parse(names[k]) == Some(expected[k])
  }

  function Marked(expected: seq<ReadableRecord>, total: int, last: bool): (marked: seq<ReadableRecord>)
    ensures |marked| == |expected|
    ensures forall k :: 0 <= k < |expected| ==> marked[k] == expected[k].(last := k == total - 1 && last)
  {
    seq(|expected|, k requires 0 <= k < |expected| => expected[k].(last := k == total - 1 && last))
  }

  lemma {:induction false} RecordsRead(
    parse: RecordParser, names: seq<string>, expected: seq<ReadableRecord>, total: int, last: bool)
    requires |names| == |expected| && ReadsAs(parse, names, expected)
    ensures RecordsOf(parse, names, total, last) == Some(Marked(expected, total, last))
    decreases |names|
  {
    if names != [] {
      var n := |names| - 1;
      RecordsRead(parse, names[..n], expected[..n], total, last);
      assert Marked(expected, total, last)
          == Marked(expected[..n], total, last) + [expected[n].(last := n == total - 1 && last)];
    }
  }

  /** A record whose v1 header can be read back. */
  predicate ReadableV1(record: BatchRecord) {
    && FitsClock(record.timestamp) && record.size < I64_MAX && ',' !in record.contentType
    && NoQuotedItems(record.contentType, record.labels) && Separable(record.labels)
  }

  predicate AllReadableV1(sent: seq<BatchRecord>) {
    forall k :: 0 <= k < |sent| ==> ReadableV1(sent[k])
  }

  /** What a receiver sees of a sent record. */
  function Received(record: BatchRecord): ReadableRecord {
    ReadableRecord("", FromMicroseconds(MicrosOf(record)), record.size, false, record.labels, record.contentType)
  }

  function AllReceived(sent: seq<BatchRecord>): (records: seq<ReadableRecord>)
    ensures |records| == |sent| && forall k :: 0 <= k < |sent| ==> records[k] == Received(sent[k])
  {
    seq(|sent|, k requires 0 <= k < |sent| => Received(sent[k]))
  }

  function TimesIn(sent: seq<BatchRecord>): (times: seq<int>)
    ensures |times| == |sent| && forall k :: 0 <= k < |sent| ==> times[k] == ToMicroseconds(sent[k].timestamp)
  {
    seq(|sent|, k requires 0 <= k < |sent| => ToMicroseconds(sent[k].timestamp))
  }

  lemma {:induction false} TimeKeysOf(sent: seq<BatchRecord>)
    ensures TimeKeys(sent) == KeysFor(TimesIn(sent))
  {
  }

  lemma {:induction false} SuffixOfKey(digits: string)
    ensures var name := HEADER_TIME_PREFIX + digits;
            IsTimeName(name) && Substr(name, |HEADER_TIME_PREFIX|, |name|) == digits
  {
    var name := HEADER_TIME_PREFIX + digits;
    AtSplit(name, 0, HEADER_TIME_PREFIX, digits);
    AtSlice(name, |HEADER_TIME_PREFIX|, digits);
  }

  lemma {:induction false} RecordV1From(name: string, value: string, csv: Csv, micros: nat)
    requires IsTimeName(name) && ParsedCsv(value) == Some(csv) && 0 <= csv.size < U64
    requires StoUll(Substr(name, |HEADER_TIME_PREFIX|, |name|)) == Some(micros)
    ensures RecordV1(name, value)
            == Some(ReadableRecord("", FromMicroseconds(micros), csv.size, false, csv.labels, csv.contentType))
  {
  }

  /** One time header is read as the record it was written for. */
  lemma {:induction false} TimeHeaderComesBack(record: BatchRecord)
    requires ReadableV1(record)
    ensures IsTimeName(TimeKey(record))
    ensures RecordV1(TimeKey(record), TimeValue(record, Write)) == Some(Received(record))
  {
    var micros, time := MicrosOf(record), ToMicroseconds(record.timestamp);
    MicrosSigned(record);
    SuffixOfKey(SignedDecimal(time));
    StoUllSigned(time);
    ValueComesBackV1(record.size, record.contentType, record.labels);
    RecordV1From(TimeKey(record), TimeValue(record, Write),
                 Csv(record.size, record.contentType, record.labels), micros);
  }

  lemma {:induction false} ParserReads(headers: Headers, sent: seq<BatchRecord>)
    requires AllReadableV1(sent) && HasTimes(headers, TimeKeys(sent), TimeValues(sent, Write))
    ensures ReadsAs(ParserV1(headers), TimeKeys(sent), AllReceived(sent))
  {
    var parse, names, expected := ParserV1(headers), TimeKeys(sent), AllReceived(sent);
    forall k | 0 <= k < |names| ensures parse(names[k]) == Some(expected[k]) {
      assert ReadableV1(sent[k]);
      TimeHeaderComesBack(sent[k]);
      assert headers[names[k]] == TimeValues(sent, Write)[k];
    }
  }

  /** What the names that are found are read as. */
  ghost function ReadAs(parse: RecordParser, names: seq<string>): (records: seq<ReadableRecord>)
    requires forall k :: 0 <= k < |names| ==> parse(names[k]).Some?
    ensures |records| == |names| && forall k :: 0 <= k < |names| ==> records[k] == parse(names[k]).value
  {
    seq(|names|, k requires 0 <= k < |names| => parse(names[k]).value)
  }

  /** Every header that is found is that of a sent record. */
  lemma {:induction false} FoundIsSent(headers: Headers, sent: seq<BatchRecord>, k: nat) returns (m: nat)
    requires AllReadableV1(sent) && HasTimes(headers, TimeKeys(sent), TimeValues(sent, Write))
    requires multiset(FoundNames(headers)) == multiset(TimeKeys(sent)) && k < |FoundNames(headers)|
    ensures m < |sent| && FoundNames(headers)[k] == TimeKey(sent[m])
    ensures ParserV1(headers)(FoundNames(headers)[k]) == Some(Received(sent[m]))
  {
    var names, keys := FoundNames(headers), TimeKeys(sent);
    assert names[k] in multiset(names);
    assert names[k] in keys;
    m :| 0 <= m < |keys| && keys[m] == names[k];
    ParserReads(headers, sent);
  }

  /** The records that are decoded, whatever their order. */
  lemma {:induction false} FoundAreRead(headers: Headers, sent: seq<BatchRecord>)
    requires AllReadableV1(sent) && Increasing(TimesIn(sent))
    requires HasTimes(headers, TimeKeys(sent), TimeValues(sent, Write))
    ensures var names := FoundNames(headers);
            && |names| == |sent| && multiset(names) == multiset(TimeKeys(sent))
            && (forall k :: 0 <= k < |names| ==> ParserV1(headers)(names[k]).Some?)
            && DecodedV1(headers) == Some(Marked(ReadAs(ParserV1(headers), names), |sent|, SaysLast(headers)))
  {
    var names, parse := FoundNames(headers), ParserV1(headers);
    TimeKeysOf(sent);
    KeysForAreNames(TimesIn(sent));
    FoundAreSent(headers, TimeKeys(sent), TimeValues(sent, Write));
    forall k | 0 <= k < |names| ensures parse(names[k]).Some? {
      var m := FoundIsSent(headers, sent, k);
    }
    RecordsRead(parse, names, ReadAs(parse, names), |names|, SaysLast(headers));
  }

  lemma {:induction false} SameTimeSameKey(a: BatchRecord, b: BatchRecord)
    requires FitsClock(a.timestamp) && FitsClock(b.timestamp) && Received(a).timestamp == Received(b).timestamp
    ensures TimeKey(a) == TimeKey(b)
  {
    MicrosSigned(a);
    MicrosSigned(b);
  }

  lemma {:induction false} InSendOrderNames(headers: Headers, sent: seq<BatchRecord>)
    requires AllReadableV1(sent) && Increasing(TimesIn(sent))
    requires HasTimes(headers, TimeKeys(sent), TimeValues(sent, Write))
    requires DecodedV1(headers) == Some(Marked(AllReceived(sent), |sent|, SaysLast(headers)))
    ensures FoundNames(headers) == TimeKeys(sent)
  {
    FoundAreRead(headers, sent);
    var names, parse := FoundNames(headers), ParserV1(headers);
    var marked := Marked(ReadAs(parse, names), |sent|, SaysLast(headers));
    forall k | 0 <= k < |names| ensures names[k] == TimeKeys(sent)[k] {
      var m := FoundIsSent(headers, sent, k);
      assert marked[k].timestamp == Received(sent[m]).timestamp;
      assert marked[k] == Marked(AllReceived(sent), |sent|, SaysLast(headers))[k];
      assert ReadableV1(sent[m]) && ReadableV1(sent[k]);
      SameTimeSameKey(sent[m], sent[k]);
    }
  }

  /**
   The v1 round trip: all records come back, and they come back in send order, with the size, content type and labels
   they had, exactly when their timestamps ascend as strings in that order, as those of one width do.
   */
  lemma {:induction false} RoundTrip(headers: Headers, sent: seq<BatchRecord>)
    requires AllReadableV1(sent) && Increasing(TimesIn(sent))
    requires HasTimes(headers, TimeKeys(sent), TimeValues(sent, Write))
    ensures DecodedV1(headers).Some? && |DecodedV1(headers).value| == |sent|
    ensures DecodedV1(headers) == Some(Marked(AllReceived(sent), |sent|, SaysLast(headers)))
            <==> PrintedAscend(TimesIn(sent))
  {
    FoundAreRead(headers, sent);
    TimeKeysOf(sent);
    HeadersInSendOrder(headers, TimesIn(sent), TimeValues(sent, Write));
    if PrintedAscend(TimesIn(sent)) {
      ParserReads(headers, sent);
      RecordsRead(ParserV1(headers), TimeKeys(sent), AllReceived(sent), |sent|, SaysLast(headers));
    }
    if DecodedV1(headers) == Some(Marked(AllReceived(sent), |sent|, SaysLast(headers))) {
      InSendOrderNames(headers, sent);
    }
  }

  // ---- From a batch ----

  /** In time order records of one entry with distinct microseconds have increasing microseconds. */
  lemma {:induction false} SentIncreases(records: seq<BatchRecord>, entry: string, order: seq<nat>)
    requires IsSendOrder(records, entry, false, order) && ValidOrder(records, order)
    requires AllReadableV1(records) && OneEntry(records, entry) && DistinctMicros(records, entry)
    ensures |order| == |records| && NoDuplicates(order)
    ensures Increasing(TimesIn(InOrder(records, order)))
  {
    SendOrderIsPermutation(records, entry, false, order);
    var times := TimesIn(InOrder(records, order));
    forall p, q | 0 <= p < q < |times| ensures times[p] < times[q] {
      SendOrderByTime(records, entry, order, p, q);
      DifferentTimes(records, entry, order[p], order[q]);
    }
  }

  lemma {:induction false} DifferentTimes(records: seq<BatchRecord>, entry: string, i: nat, j: nat)
    requires i < |records| && j < |records| && i != j && OneEntry(records, entry) && DistinctMicros(records, entry)
    ensures ToMicroseconds(records[i].timestamp) != ToMicroseconds(records[j].timestamp)
  {
    var a, b := if i < j then i else j, if i < j then j else i;
    assert SameTarget(records[a], records[b], entry);
    assert MicrosOf(records[a]) != MicrosOf(records[b]);
  }

  lemma {:induction false} EmplacedIsTimes(
    headers: Headers, request: Headers, keys: seq<string>, values: seq<string>)
    requires |keys| == |values| && Emplaced(request, map[], keys, values, |keys|) && NoDuplicates(keys)
    requires forall name :: IsTimeName(name) ==>
               (name in headers <==> name in request) && (name in headers ==> headers[name] == request[name])
    requires forall k :: 0 <= k < |keys| ==> IsTimeName(keys[k])
    ensures HasTimes(headers, keys, values)
  {
    forall k | 0 <= k < |keys| ensures keys[k] in headers && headers[keys[k]] == values[k] {
      assert FirstAt(keys, k);
      assert keys[k] in request;
    }
  }

  /** The records of a batch come back from the headers of its request; in send order under the same condition. */
  lemma {:induction false} BatchRoundTripV1(
    records: seq<BatchRecord>, entry: string, order: seq<nat>, request: Headers, headers: Headers)
    requires IsRequestV1(order, request, records, entry, Write)
    requires AllReadableV1(records) && OneEntry(records, entry) && DistinctMicros(records, entry)
    requires forall name :: IsTimeName(name) ==>
               (name in headers <==> name in request) && (name in headers ==> headers[name] == request[name])
    ensures DecodedV1(headers).Some? && |DecodedV1(headers).value| == |records|
    ensures DecodedV1(headers) == Some(Marked(AllReceived(InOrder(records, order)), |records|, SaysLast(headers)))
            <==> PrintedAscend(TimesIn(InOrder(records, order)))
  {
    var sent := InOrder(records, order);
    assert AllReadableV1(sent);
    SentIncreases(records, entry, order);
    TimeKeysOf(sent);
    KeysForAreNames(TimesIn(sent));
    EmplacedIsTimes(headers, request, TimeKeys(sent), TimeValues(sent, Write));
    RoundTrip(headers, sent);
  }
}
