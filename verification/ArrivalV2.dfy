/** What a v2 request lists, and what a receiver learns of each sent record, said in the fields of that record alone. */
module ArrivalV2 {
  import opened Wrappers
  import opened Text
  import opened Numbers
  import opened Ordering
  import opened Batches
  import opened SendOrder
  import opened EntryNames
  import opened Labels
  import opened HeadersV2
  import opened RequestV2
  import opened ResponseV2
  import opened RoundTripV2
  import opened MetadataV2
  import opened InheritanceV2
  import opened SizesV2

  /** The name that a record was added under: its own one, or that of the batch if it has none. */
  predicate SentUnder(record: BatchRecord, defaultEntry: string, name: string) {
    (record.entry != "" ==> name == record.entry) && (record.entry == "" ==> name == defaultEntry)
  }

  /** The whole microseconds of a time, in nanoseconds: the next ones towards the epoch. */
  predicate WholeMicros(got: Time, t: Time) {
    && got % 1000 == 0
    && (t >= 0 ==> got <= t < got + 1000)
    && (t < 0 ==> got - 1000 < t <= got)
  }

  predicate Arrives(got: ReadableRecord, sent: BatchRecord, defaultEntry: string) {
    SentUnder(sent, defaultEntry, got.entry) && WholeMicros(got.timestamp, sent.timestamp) && got.size == sent.size
  }

  // ---- The request ----

  lemma {:induction false} ListedName(records: seq<BatchRecord>, defaultEntry: string, order: seq<nat>, i: nat)
    requires IsSendOrder(records, defaultEntry, true, order) && ValidOrder(records, order) && i < |records|
    ensures RecordEntry(records[i], defaultEntry) in EntryList(Names(records, defaultEntry, order))
  {
    SendOrderIsPermutation(records, defaultEntry, true, order);
    assert i in order;
    var k :| 0 <= k < |order| && order[k] == i;
    assert Names(records, defaultEntry, order)[k] in EntryList(Names(records, defaultEntry, order));
  }

  lemma {:induction false} NameOfRecord(records: seq<BatchRecord>, defaultEntry: string, order: seq<nat>, name: string)
    returns (i: nat)
    requires ValidOrder(records, order) && name in EntryList(Names(records, defaultEntry, order))
    ensures i < |records| && SentUnder(records[i], defaultEntry, name)
  {
    var names := Names(records, defaultEntry, order);
    DistinctFrom(names, |names|);
    var k :| 0 <= k < |names| && names[k] == name;
    i := order[k];
  }

  /** The entry list of a request has the names of the records, and no others. */
  lemma {:induction false} EntriesListed(
    request: Request, records: seq<BatchRecord>, defaultEntry: string, kind: BatchType)
    requires IsRequest(request, records, defaultEntry, kind)
    ensures forall i :: 0 <= i < |records| && records[i].entry != "" ==> records[i].entry in request.entries
    ensures forall i :: 0 <= i < |records| && records[i].entry == "" ==> defaultEntry in request.entries
    ensures forall name <- request.entries ::
              exists i :: 0 <= i < |records| && SentUnder(records[i], defaultEntry, name)
  {
    forall i | 0 <= i < |records| ensures RecordEntry(records[i], defaultEntry) in request.entries {
      ListedName(records, defaultEntry, request.ordered, i);
    }
    forall name | name in request.entries
      ensures exists i :: 0 <= i < |records| && SentUnder(records[i], defaultEntry, name)
    {
      var i := NameOfRecord(records, defaultEntry, request.ordered, name);
    }
  }

  // ---- The records ----

  /** Each decoded record is what arrives of a sent one, and of a different one each. */
  ghost predicate AllArrive(
    decoded: seq<ReadableRecord>, records: seq<BatchRecord>, defaultEntry: string, from: seq<nat>)
  {
    && |decoded| == |records| == |from| && NoDuplicates(from) && ValidOrder(records, from)
    && forall k :: 0 <= k < |decoded| ==> Arrives(decoded[k], records[from[k]], defaultEntry)
  }

  lemma {:induction false} OriginsOnce(
    origins: seq<nat>, sorted: seq<HeaderEntry>, names: seq<string>, micros: seq<nat>, values: seq<string>)
    requires Fits(micros) && |names| == |micros| == |values| && DistinctKeys(names, micros)
    requires SortedFrom(sorted, names, micros, values) && AreOrigins(origins, sorted, names, micros, values)
    ensures NoDuplicates(origins)
  {
    var sent := SentEntries(names, micros, values);
    SentEntriesDistinct(names, micros, values);
    RearrangedHasNoDuplicates(sent, sorted);
  }

  function Through(order: seq<nat>, origins: seq<nat>): (from: seq<nat>)
    requires forall k :: 0 <= k < |origins| ==> origins[k] < |order|
    ensures |from| == |origins| && forall k :: 0 <= k < |origins| ==> from[k] == order[origins[k]]
  {
    seq(|origins|, k requires 0 <= k < |origins| => order[origins[k]])
  }

  lemma {:induction false} ThroughOnce(order: seq<nat>, origins: seq<nat>)
    requires forall k :: 0 <= k < |origins| ==> origins[k] < |order|
    requires NoDuplicates(order) && NoDuplicates(origins)
    ensures NoDuplicates(Through(order, origins))
  {
    forall i, j | 0 <= i < j < |origins| ensures order[origins[i]] != order[origins[j]] {
      assert origins[i] < origins[j] || origins[j] < origins[i];
    }
  }

  lemma {:induction false} IsForArrives(got: ReadableRecord, sent: BatchRecord, defaultEntry: string)
    requires IsFor(got, sent, defaultEntry) && got.size == sent.size
    ensures Arrives(got, sent, defaultEntry)
  {
  }

  /** What each of the sorted headers is read as. */
  lemma {:induction false} PlainArrives(
    records: seq<BatchRecord>, defaultEntry: string, order: seq<nat>, sorted: seq<HeaderEntry>,
    plain: seq<ReadableRecord>, origins: seq<nat>)
    requires ValidOrder(records, order) && InRange(records)
    requires var names, micros := Names(records, defaultEntry, order), Micros(records, order);
             var values, entries := Values(records, order), EntryList(names);
             && Fits(micros) && SortedFrom(sorted, names, micros, values) && AlwaysParses(values, ParserFor(None))
             && DecodeFrom(sorted, 0, entries, StartTs(micros), ParserFor(None), NoHeaders(|entries|)) == Some(plain)
             && AreOrigins(origins, sorted, names, micros, values)
    ensures |plain| == |sorted| == |origins|
    ensures forall k :: 0 <= k < |plain| ==>
              origins[k] < |order| && Arrives(plain[k], records[order[origins[k]]], defaultEntry)
  {
    var names, micros, values := Names(records, defaultEntry, order), Micros(records, order), Values(records, order);
    SortedDecodes(sorted, names, micros, values, ParserFor(None));
    PlainSizes(sorted, names, micros, values, ParserFor(None), plain);
    forall k | 0 <= k < |plain| ensures Arrives(plain[k], records[order[origins[k]]], defaultEntry) {
      OriginIsFor(records, defaultEntry, order, sorted, plain, origins, k);
      LengthOfWritten(records[order[origins[k]]]);
      assert sorted[k].value == values[origins[k]] == HeaderValue(records[order[origins[k]]], Write);
      IsForArrives(plain[k], records[order[origins[k]]], defaultEntry);
    }
  }

  lemma {:induction false} PlainSizes(
    sorted: seq<HeaderEntry>, names: seq<string>, micros: seq<nat>, values: seq<string>, parse: HeaderParser,
    plain: seq<ReadableRecord>)
    requires Fits(micros) && |names| == |micros| == |values| && SortedFrom(sorted, names, micros, values)
    requires AlwaysParses(values, parse) && parse == ParserFor(None)
    requires var entries := EntryList(names);
             DecodeFrom(sorted, 0, entries, StartTs(micros), parse, NoHeaders(|entries|)) == Some(plain)
    ensures |plain| == |sorted| && forall k :: 0 <= k < |plain| ==> plain[k].size == SizeIn(sorted[k])
  {
    SortedDecodes(sorted, names, micros, values, parse);
    SortedParse(sorted, names, micros, values, parse);
    ParserReadsSizes();
    var entries := EntryList(names);
    DecodedSizes(sorted, 0, entries, StartTs(micros), parse, NoHeaders(|entries|), SizeIn);
    forall k | 0 <= k < |plain| ensures plain[k].size == SizeIn(sorted[k]) {
      assert plain[k] == plain[k - 0];
    }
  }

  /** A batch in send order, no two records of which share a header. */
  ghost predicate Ordered(records: seq<BatchRecord>, defaultEntry: string, order: seq<nat>) {
    && ValidOrder(records, order) && InRange(records) && |order| == |records| && NoDuplicates(order)
    && var names, micros := Names(records, defaultEntry, order), Micros(records, order);
    Fits(micros) && DistinctKeys(names, micros) && AlwaysParses(Values(records, order), ParserFor(None))
  }

  /** The decoder made these records of the headers of such a batch. */
  ghost predicate Made(
    records: seq<BatchRecord>, defaultEntry: string, order: seq<nat>, sorted: seq<HeaderEntry>,
    plain: seq<ReadableRecord>)
  {
    && Ordered(records, defaultEntry, order)
    && var names, micros := Names(records, defaultEntry, order), Micros(records, order);
    var entries := EntryList(names);
    && SortedFrom(sorted, names, micros, Values(records, order))
    && DecodeFrom(sorted, 0, entries, StartTs(micros), ParserFor(None), NoHeaders(|entries|)) == Some(plain)
  }

  lemma {:induction false} OrderedInRange(records: seq<BatchRecord>, defaultEntry: string, order: seq<nat>)
    requires IsSendOrder(records, defaultEntry, true, order) && ValidOrder(records, order)
    requires InRange(records) && DistinctMicros(records, defaultEntry)
    ensures Ordered(records, defaultEntry, order)
  {
    OrderFacts(records, defaultEntry, order);
    DistinctInOrder(records, defaultEntry, order);
  }

  lemma {:induction false} ExchangeOrdered(x: Exchange)
    requires Exchanged(x) && DistinctMicros(x.records, x.defaultEntry)
    ensures Ordered(x.records, x.defaultEntry, x.request.ordered)
  {
    RequestOrder(x.records, x.defaultEntry, x.request);
    OrderedInRange(x.records, x.defaultEntry, x.request.ordered);
  }

  lemma {:induction false} ExchangeMade(x: Exchange) returns (plain: seq<ReadableRecord>)
    requires Exchanged(x) && DistinctMicros(x.records, x.defaultEntry)
    ensures x.decoded == Some(MarkLast(plain, x.headers))
    ensures Made(x.records, x.defaultEntry, x.request.ordered, x.sorted, plain)
  {
    ExchangeOrdered(x);
    ExchangeSorts(x);
    plain := AllComeBack(x);
  }

  /** The places of the decoded records in the send order and in the batch. */
  lemma {:induction false} MadeFrom(
    records: seq<BatchRecord>, defaultEntry: string, order: seq<nat>, sorted: seq<HeaderEntry>,
    plain: seq<ReadableRecord>)
    returns (origins: seq<nat>, from: seq<nat>)
    requires Made(records, defaultEntry, order, sorted, plain)
    ensures var names, micros := Names(records, defaultEntry, order), Micros(records, order);
            AreOrigins(origins, sorted, names, micros, Values(records, order))
    ensures |plain| == |sorted| == |from| && forall k :: 0 <= k < |from| ==>
              origins[k] < |order| && from[k] == order[origins[k]]
    ensures AllArrive(plain, records, defaultEntry, from)
  {
    var names, micros, values := Names(records, defaultEntry, order), Micros(records, order), Values(records, order);
    origins := Origins(sorted, names, micros, values, |sorted|);
    assert sorted[..|sorted|] == sorted;
    OriginsOnce(origins, sorted, names, micros, values);
    PlainArrives(records, defaultEntry, order, sorted, plain, origins);
    SortKeepsLength(sorted, SentEntries(names, micros, values), HeaderOrder());
    from := Through(order, origins);
    ThroughOnce(order, origins);
  }

  lemma {:induction false} MarkedArrive(
    plain: seq<ReadableRecord>, headers: Headers, records: seq<BatchRecord>, defaultEntry: string, from: seq<nat>)
    requires AllArrive(plain, records, defaultEntry, from)
    ensures AllArrive(MarkLast(plain, headers), records, defaultEntry, from)
  {
  }

  /**
   In every exchange every record comes back once, in whatever order: under the name that it was added under, at its
   time in whole microseconds, and with its size.
   */
  lemma {:induction false} RecordsArrive(x: Exchange) returns (from: seq<nat>)
    requires Exchanged(x) && DistinctMicros(x.records, x.defaultEntry)
    ensures x.decoded.Some? && AllArrive(x.decoded.value, x.records, x.defaultEntry, from)
  {
    var plain := ExchangeMade(x);
    var origins;
    origins, from := MadeFrom(x.records, x.defaultEntry, x.request.ordered, x.sorted, plain);
    MarkedArrive(plain, x.headers, x.records, x.defaultEntry, from);
  }

  // ---- Content types ----

  /** A parser that takes the type from the given text, from the header before, or from nowhere. */
  ghost predicate ReadsTypes(parse: HeaderParser, values: seq<string>, texts: seq<string>)
    requires |values| == |texts|
  {
    forall k, previous :: 0 <= k < |values| ==> TakesType(parse(values[k], previous), texts[k], previous)
  }

  predicate TakesType(parsed: ParsedHeader, text: string, previous: Option<RecordHeader>) {
    parsed.Parsed? && parsed.header.contentType == TypeAfter(text, TypeBefore(previous))
  }

  function TypeBefore(previous: Option<RecordHeader>): string {
    if previous.Some? then previous.value.contentType else "application/octet-stream"
  }

  function TypeAfter(text: string, before: string): string {
    if text == "" then before else text
  }

  /** The type in force for an entry after the first n headers: the last one that was named in it. */
  function TypeInForce(sorted: seq<HeaderEntry>, texts: seq<string>, idx: nat, n: nat): string
    requires |sorted| == |texts| && n <= |sorted|
  {
    if n == 0 then "application/octet-stream"
    else if sorted[n - 1].idx == idx then TypeAfter(texts[n - 1], TypeInForce(sorted, texts, idx, n - 1))
    else TypeInForce(sorted, texts, idx, n - 1)
  }

  ghost predicate LastTypes(
    last: seq<Option<RecordHeader>>, sorted: seq<HeaderEntry>, texts: seq<string>, n: nat)
    requires |sorted| == |texts| && n <= |sorted|
  {
    forall i :: 0 <= i < |last| ==> TypeBefore(last[i]) == TypeInForce(sorted, texts, i, n)
  }

  predicate HaveTypes(records: seq<ReadableRecord>, types: seq<string>, pos: nat)
  {
    pos + |records| == |types| && forall j :: pos <= j < |types| ==> records[j - pos].contentType == types[j]
  }

  lemma {:induction false} OneMoreType(record: ReadableRecord, rest: seq<ReadableRecord>, types: seq<string>, pos: nat)
    requires pos < |types| && record.contentType == types[pos] && HaveTypes(rest, types, pos + 1)
    ensures HaveTypes([record] + rest, types, pos)
  {
  }

  function AllInForce(sorted: seq<HeaderEntry>, texts: seq<string>): (types: seq<string>)
    requires |sorted| == |texts|
    ensures |types| == |sorted|
    ensures forall k :: 0 <= k < |sorted| ==> types[k] == TypeInForce(sorted, texts, sorted[k].idx, k + 1)
  {
    seq(|sorted|, k requires 0 <= k < |sorted| => TypeInForce(sorted, texts, sorted[k].idx, k + 1))
  }

  lemma {:induction false} TypesDecoded(
    sorted: seq<HeaderEntry>, pos: nat, entries: seq<string>, startTs: nat, parse: HeaderParser,
    last: seq<Option<RecordHeader>>, texts: seq<string>)
    requires pos <= |sorted| == |texts| && |last| == |entries|
    requires forall k :: 0 <= k < |sorted| ==> sorted[k].idx < |entries|
    requires ReadsTypes(parse, ValuesIn(sorted), texts) && LastTypes(last, sorted, texts, pos)
    ensures var d := DecodeFrom(sorted, pos, entries, startTs, parse, last);
            d.Some? && HaveTypes(d.value, AllInForce(sorted, texts), pos)
    decreases |sorted| - pos
  {
    if pos < |sorted| {
      var h := sorted[pos];
      TypeRead(parse, ValuesIn(sorted), texts, pos, last[h.idx]);
      var header := parse(h.value, last[h.idx]).header;
      LastTypesStep(last, sorted, texts, pos, header);
      TypesDecoded(sorted, pos + 1, entries, startTs, parse, last[h.idx := Some(header)], texts);
      var rest := DecodeFrom(sorted, pos + 1, entries, startTs, parse, last[h.idx := Some(header)]).value;
      RoundTripV2.DecodeStep(sorted, pos, h, entries, startTs, parse, last, header, rest);
      OneMoreType(RecordFor(entries[h.idx], startTs + h.delta, header), rest, AllInForce(sorted, texts), pos);
    }
  }

  lemma {:induction false} TypeRead(
    parse: HeaderParser, values: seq<string>, texts: seq<string>, k: nat, previous: Option<RecordHeader>)
    requires |values| == |texts| && k < |values| && ReadsTypes(parse, values, texts)
    ensures TakesType(parse(values[k], previous), texts[k], previous)
  {
  }

  lemma {:induction false} LastTypesStep(
    last: seq<Option<RecordHeader>>, sorted: seq<HeaderEntry>, texts: seq<string>, n: nat, header: RecordHeader)
    requires |sorted| == |texts| && n < |sorted| && sorted[n].idx < |last| && LastTypes(last, sorted, texts, n)
    requires header.contentType == TypeAfter(texts[n], TypeBefore(last[sorted[n].idx]))
    ensures LastTypes(last[sorted[n].idx := Some(header)], sorted, texts, n + 1)
    ensures header.contentType == TypeInForce(sorted, texts, sorted[n].idx, n + 1)
  {
  }

  /** The j-th header is the nearest one at or before the k-th that names a type in its entry. */
  predicate NearestIn(sorted: seq<HeaderEntry>, texts: seq<string>, idx: nat, j: nat, n: nat)
    requires |sorted| == |texts| && n <= |sorted|
  {
    && j < n && sorted[j].idx == idx && texts[j] != ""
    && forall m :: j < m < n && sorted[m].idx == idx ==> texts[m] == ""
  }

  lemma {:induction false} InForceIsNearest(sorted: seq<HeaderEntry>, texts: seq<string>, idx: nat, n: nat)
    requires |sorted| == |texts| && n <= |sorted|
    ensures forall j: nat :: NearestIn(sorted, texts, idx, j, n) ==> TypeInForce(sorted, texts, idx, n) == texts[j]
    ensures (forall j: nat :: !NearestIn(sorted, texts, idx, j, n))
            ==> TypeInForce(sorted, texts, idx, n) == "application/octet-stream"
  {
    if n > 0 {
      InForceIsNearest(sorted, texts, idx, n - 1);
      if sorted[n - 1].idx == idx && texts[n - 1] != "" {
        assert NearestIn(sorted, texts, idx, n - 1, n);
      } else {
        forall j: nat ensures NearestIn(sorted, texts, idx, j, n) <==> NearestIn(sorted, texts, idx, j, n - 1) {
        }
        if forall j: nat :: !NearestIn(sorted, texts, idx, j, n) {
          var p := n - 1;
          forall j: nat ensures !NearestIn(sorted, texts, idx, j, p) {
            assert !NearestIn(sorted, texts, idx, j, n);
          }
        }
      }
    }
  }

  /** The content types of some records as they are read. */
  function TextsOf(sent: seq<BatchRecord>): (texts: seq<string>)
    ensures |texts| == |sent| && forall k :: 0 <= k < |sent| ==> texts[k] == TypeText(sent[k])
  {
    seq(|sent|, k requires 0 <= k < |sent| => TypeText(sent[k]))
  }

  lemma {:induction false} TypeOfWritten(record: BatchRecord, previous: Option<RecordHeader>)
    requires record.size < U64
    ensures TakesType(ParserFor(None)(HeaderValue(record, Write), previous), TypeText(record), previous)
  {
    assert InheritedType(previous) == TypeBefore(previous);
    HeaderIsRead(record, previous);
  }

  lemma {:induction false} WrittenTypes(sent: seq<BatchRecord>)
    requires forall k :: 0 <= k < |sent| ==> sent[k].size < U64
    ensures ReadsTypes(ParserFor(None), ValuesOf(sent, Write), TextsOf(sent))
  {
    var parse, values, texts := ParserFor(None), ValuesOf(sent, Write), TextsOf(sent);
    forall k, previous | 0 <= k < |values|
      ensures TakesType(parse(values[k], previous), texts[k], previous)
    {
      TypeOfWritten(sent[k], previous);
    }
  }

  /** The j-th decoded record is the nearest at or before the k-th that was sent with a type, in its entry. */
  predicate NearestTyped(decoded: seq<ReadableRecord>, texts: seq<string>, j: nat, k: nat)
    requires |decoded| == |texts| && k < |decoded|
  {
    && j <= k && decoded[j].entry == decoded[k].entry && texts[j] != ""
    && forall m :: j < m <= k && decoded[m].entry == decoded[k].entry ==> texts[m] == ""
  }

  /** The type of a record is that of the nearest typed one; it is the default one if there is none or it says so. */
  ghost predicate TypeIsNearest(decoded: seq<ReadableRecord>, texts: seq<string>, k: nat)
    requires |decoded| == |texts| && k < |decoded|
  {
    && (forall j: nat :: NearestTyped(decoded, texts, j, k) ==> decoded[k].contentType == texts[j])
    && (decoded[k].contentType == "application/octet-stream"
        <==> forall j: nat :: NearestTyped(decoded, texts, j, k) ==> texts[j] == "application/octet-stream")
  }

  lemma {:induction false} TypeInForceIsNearest(
    sorted: seq<HeaderEntry>, entries: seq<string>, texts: seq<string>, plain: seq<ReadableRecord>, k: nat)
    requires |sorted| == |texts| == |plain| && k < |plain|
    requires NoDuplicates(entries) && forall k :: 0 <= k < |sorted| ==> sorted[k].idx < |entries|
    requires forall k :: 0 <= k < |sorted| ==> plain[k].entry == entries[sorted[k].idx]
    requires plain[k].contentType == TypeInForce(sorted, texts, sorted[k].idx, k + 1)
    ensures TypeIsNearest(plain, texts, k)
  {
    InForceIsNearest(sorted, texts, sorted[k].idx, k + 1);
    SameNearest(sorted, entries, texts, plain, k);
    if j: nat :| NearestTyped(plain, texts, j, k) {
      assert NearestIn(sorted, texts, sorted[k].idx, j, k + 1);
    }
  }

  lemma {:induction false} PlainInForce(
    sorted: seq<HeaderEntry>, entries: seq<string>, startTs: nat, parse: HeaderParser, texts: seq<string>,
    plain: seq<ReadableRecord>)
    requires |sorted| == |texts| && ReadsTypes(parse, ValuesIn(sorted), texts)
    requires forall k :: 0 <= k < |sorted| ==> sorted[k].idx < |entries|
    requires DecodeFrom(sorted, 0, entries, startTs, parse, NoHeaders(|entries|)) == Some(plain)
    ensures HaveTypes(plain, AllInForce(sorted, texts), 0)
  {
    NoneInForce(sorted, texts, |entries|);
    TypesDecoded(sorted, 0, entries, startTs, parse, NoHeaders(|entries|), texts);
  }

  lemma {:induction false} NoneInForce(sorted: seq<HeaderEntry>, texts: seq<string>, n: nat)
    requires |sorted| == |texts|
    ensures LastTypes(NoHeaders(n), sorted, texts, 0)
  {
  }

  lemma {:induction false} PlainTypes(
    sorted: seq<HeaderEntry>, entries: seq<string>, texts: seq<string>, plain: seq<ReadableRecord>)
    requires |sorted| == |texts| == |plain|
    requires NoDuplicates(entries) && forall k :: 0 <= k < |sorted| ==> sorted[k].idx < |entries|
    requires forall k :: 0 <= k < |sorted| ==> plain[k].entry == entries[sorted[k].idx]
    requires HaveTypes(plain, AllInForce(sorted, texts), 0)
    ensures forall k :: 0 <= k < |plain| ==> TypeIsNearest(plain, texts, k)
  {
    forall k | 0 <= k < |plain| ensures TypeIsNearest(plain, texts, k) {
      assert plain[k - 0].contentType == AllInForce(sorted, texts)[k];
      TypeInForceIsNearest(sorted, entries, texts, plain, k);
    }
  }

  lemma {:induction false} SameNearest(
    sorted: seq<HeaderEntry>, entries: seq<string>, texts: seq<string>, plain: seq<ReadableRecord>, k: nat)
    requires |sorted| == |texts| == |plain| && k < |plain|
    requires NoDuplicates(entries) && forall k :: 0 <= k < |sorted| ==> sorted[k].idx < |entries|
    requires forall k :: 0 <= k < |sorted| ==> plain[k].entry == entries[sorted[k].idx]
    ensures forall j: nat :: NearestTyped(plain, texts, j, k) <==> NearestIn(sorted, texts, sorted[k].idx, j, k + 1)
  {
    forall m | 0 <= m < |plain| ensures plain[m].entry == plain[k].entry <==> sorted[m].idx == sorted[k].idx {
      var a, b := sorted[m].idx, sorted[k].idx;
      assert a < b || b < a || a == b;
    }
  }

  lemma {:induction false} MarkedTypes(plain: seq<ReadableRecord>, headers: Headers, texts: seq<string>)
    requires |plain| == |texts| && forall k :: 0 <= k < |plain| ==> TypeIsNearest(plain, texts, k)
    ensures var marked := MarkLast(plain, headers);
            |marked| == |texts| && forall k :: 0 <= k < |marked| ==> TypeIsNearest(marked, texts, k)
  {
    MarkLastKeeps(plain, headers);
    MarkLastTypes(plain, headers);
    var marked := MarkLast(plain, headers);
    forall k | 0 <= k < |marked| ensures TypeIsNearest(marked, texts, k) {
      assert TypeIsNearest(plain, texts, k);
      forall j: nat ensures NearestTyped(marked, texts, j, k) <==> NearestTyped(plain, texts, j, k) {
      }
    }
  }

  lemma {:induction false} MadeTypes(
    records: seq<BatchRecord>, defaultEntry: string, order: seq<nat>, sorted: seq<HeaderEntry>,
    plain: seq<ReadableRecord>, origins: seq<nat>, from: seq<nat>)
    requires Made(records, defaultEntry, order, sorted, plain)
    requires var names, micros := Names(records, defaultEntry, order), Micros(records, order);
             AreOrigins(origins, sorted, names, micros, Values(records, order))
    requires |plain| == |sorted| == |from| && forall k :: 0 <= k < |from| ==>
               origins[k] < |order| && from[k] == order[origins[k]]
    ensures ValidOrder(records, from)
    ensures forall k :: 0 <= k < |plain| ==> TypeIsNearest(plain, TextsOf(InOrder(records, from)), k)
  {
    var names, micros, values := Names(records, defaultEntry, order), Micros(records, order), Values(records, order);
    SortedDecodes(sorted, names, micros, values, ParserFor(None));
    OriginsWritten(records, defaultEntry, order, sorted, origins, from);
    var texts, entries := TextsOf(InOrder(records, from)), EntryList(names);
    WrittenTypes(InOrder(records, from));
    PlainInForce(sorted, entries, StartTs(micros), ParserFor(None), texts, plain);
    PlainTypes(sorted, entries, texts, plain);
  }

  lemma {:induction false} OriginsWritten(
    records: seq<BatchRecord>, defaultEntry: string, order: seq<nat>, sorted: seq<HeaderEntry>,
    origins: seq<nat>, from: seq<nat>)
    requires ValidOrder(records, order) && Fits(Micros(records, order))
    requires var names, micros := Names(records, defaultEntry, order), Micros(records, order);
             AreOrigins(origins, sorted, names, micros, Values(records, order))
    requires |sorted| == |from| && forall k :: 0 <= k < |from| ==> origins[k] < |order| && from[k] == order[origins[k]]
    ensures ValidOrder(records, from) && ValuesIn(sorted) == ValuesOf(InOrder(records, from), Write)
  {
    forall k | 0 <= k < |sorted| ensures sorted[k].value == HeaderValue(records[from[k]], Write) {
      assert sorted[k].value == Values(records, order)[origins[k]];
    }
  }

  /**
   In every exchange, in whatever order the records come back, the content type of each is the text of the nearest
   record at or before it in its entry that was sent with one, and the default type if there is no such record.
   */
  lemma {:induction false} TypesArrive(x: Exchange) returns (from: seq<nat>)
    requires Exchanged(x) && DistinctMicros(x.records, x.defaultEntry)
    ensures x.decoded.Some? && AllArrive(x.decoded.value, x.records, x.defaultEntry, from)
    ensures forall k :: 0 <= k < |x.decoded.value| ==>
              TypeIsNearest(x.decoded.value, TextsOf(InOrder(x.records, from)), k)
  {
    var plain := ExchangeMade(x);
    var origins;
    origins, from := MadeFrom(x.records, x.defaultEntry, x.request.ordered, x.sorted, plain);
    MarkedArrive(plain, x.headers, x.records, x.defaultEntry, from);
    MadeTypes(x.records, x.defaultEntry, x.request.ordered, x.sorted, plain, origins, from);
    MarkedTypes(plain, x.headers, TextsOf(InOrder(x.records, from)));
  }

  // ---- The last record ----

  lemma {:induction false} MarkedExactly(plain: seq<ReadableRecord>, headers: Headers, k: nat)
    requires k < |plain| && forall j :: 0 <= j < |plain| ==> !plain[j].last
    ensures |MarkLast(plain, headers)| == |plain|
    ensures MarkLast(plain, headers)[k].last
            <==> k + 1 == |plain| && "x-reduct-last" in headers && headers["x-reduct-last"] == "true"
  {
  }

  lemma {:induction false} DecodedPlain(
    headers: Headers, sorted: seq<HeaderEntry>, entries: seq<string>, startTs: nat, parse: HeaderParser,
    records: seq<ReadableRecord>)
    returns (plain: seq<ReadableRecord>)
    requires var decoded := DecodeFrom(sorted, 0, entries, startTs, parse, NoHeaders(|entries|));
             Some(records) == if decoded.None? then None else Some(MarkLast(decoded.value, headers))
    ensures records == MarkLast(plain, headers) && forall j :: 0 <= j < |plain| ==> !plain[j].last
  {
    NoneMarked(sorted, 0, entries, startTs, parse, NoHeaders(|entries|));
    plain := DecodeFrom(sorted, 0, entries, startTs, parse, NoHeaders(|entries|)).value;
  }

  lemma {:induction false} DecodedUnmarked(
    headers: Headers, iteration: seq<string>, sorted: seq<HeaderEntry>, records: seq<ReadableRecord>)
    returns (plain: seq<ReadableRecord>)
    requires IsDecoded(headers, iteration, sorted, Some(records)) && records != []
    ensures records == MarkLast(plain, headers) && forall j :: 0 <= j < |plain| ==> !plain[j].last
  {
    var (entries, startTs) := Preamble(headers).value;
    plain := DecodedPlain(headers, sorted, entries, startTs, ParserFor(LabelNames(headers)), records);
  }

  /** Of any response, a record is marked as the last one exactly when it is the final one and the response says so. */
  lemma {:induction false} FinalIsMarked(
    headers: Headers, iteration: seq<string>, sorted: seq<HeaderEntry>, records: seq<ReadableRecord>, k: nat)
    requires IsDecoded(headers, iteration, sorted, Some(records)) && k < |records|
    ensures records[k].last
            <==> k + 1 == |records| && "x-reduct-last" in headers && headers["x-reduct-last"] == "true"
  {
    var plain := DecodedUnmarked(headers, iteration, sorted, records);
    MarkedExactly(plain, headers, k);
  }

  lemma {:induction false} NoneMarked(
    sorted: seq<HeaderEntry>, pos: nat, entries: seq<string>, startTs: nat, parse: HeaderParser,
    last: seq<Option<RecordHeader>>)
    requires pos <= |sorted| && |last| == |entries|
    ensures var d := DecodeFrom(sorted, pos, entries, startTs, parse, last);
            d.Some? ==> forall j :: 0 <= j < |d.value| ==> !d.value[j].last
    decreases |sorted| - pos
  {
    if pos < |sorted| {
      var h := sorted[pos];
      NoneMarked(sorted, pos + 1, entries, startTs, parse, last);
      if h.idx < |entries| {
        var parsed := parse(h.value, last[h.idx]);
        if parsed.Parsed? {
          var after := last[h.idx := Some(parsed.header)];
          NoneMarked(sorted, pos + 1, entries, startTs, parse, after);
          var rest := DecodeFrom(sorted, pos + 1, entries, startTs, parse, after);
          if rest.Some? {
            RoundTripV2.DecodeStep(sorted, pos, h, entries, startTs, parse, last, parsed.header, rest.value);
          }
        }
      }
    }
  }
}
