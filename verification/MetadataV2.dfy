/** The metadata round trip of protocol v2: what a receiver learns about the records of a sent batch. */
module MetadataV2 {
  import opened Wrappers
  import opened Text
  import opened Numbers
  import opened Ordering
  import opened Batches
  import opened SendOrder
  import opened EntryNames
  import opened Labels
  import opened HeadersV2
  import opened RequestV2
  import opened ResponseV2
  import opened RoundTripV2

  /**
   A batch, the request it was encoded into, the headers that arrived, the order in which they were iterated and
   sorted, and what they were decoded to.
   */
  datatype Exchange = Exchange(
    records: seq<BatchRecord>,
    defaultEntry: string,
    request: Request,
    headers: Headers,
    iteration: seq<string>,
    sorted: seq<HeaderEntry>,
    decoded: Option<seq<ReadableRecord>>)

  /** The batch was encoded for writing, its headers arrived, and they were decoded. */
  ghost predicate Exchanged(x: Exchange) {
    && x.records != [] && InRange(x.records)
    && IsRequest(x.request, x.records, x.defaultEntry, Write)
    && GoodNames(x.request.entries)
    && Carries(x.headers, x.request.headers)
    && Enumerates(x.iteration, x.headers.Keys)
    && IsDecoded(x.headers, x.iteration, x.sorted, x.decoded)
  }

  /** No two records of a batch agree in entry and microsecond. */
  predicate DistinctMicros(records: seq<BatchRecord>, defaultEntry: string) {
    forall i, j :: 0 <= i < j < |records| ==>
      RecordEntry(records[i], defaultEntry) != RecordEntry(records[j], defaultEntry)
      || MicrosOf(records[i]) != MicrosOf(records[j])
  }

  // Names, microseconds and header texts of the records in send order.
  function Names(records: seq<BatchRecord>, defaultEntry: string, order: seq<nat>): seq<string>
    requires ValidOrder(records, order)
  {
    EntriesOf(InOrder(records, order), defaultEntry)
  }

  function Micros(records: seq<BatchRecord>, order: seq<nat>): seq<nat>
    requires ValidOrder(records, order)
  {
    MicrosIn(InOrder(records, order))
  }

  function Values(records: seq<BatchRecord>, order: seq<nat>): seq<string>
    requires ValidOrder(records, order)
  {
    ValuesOf(InOrder(records, order), Write)
  }

  /** Keys are distinct in send order exactly when they are in the batch. */
  lemma {:induction false} DistinctInOrder(records: seq<BatchRecord>, defaultEntry: string, order: seq<nat>)
    requires ValidOrder(records, order) && NoDuplicates(order)
    requires forall i :: 0 <= i < |records| ==> i in order
    ensures DistinctKeys(Names(records, defaultEntry, order), Micros(records, order))
            <==> DistinctMicros(records, defaultEntry)
  {
    var names, micros := Names(records, defaultEntry, order), Micros(records, order);
    forall p, q | 0 <= p < q < |names| && DistinctMicros(records, defaultEntry)
      ensures names[p] != names[q] || micros[p] != micros[q]
    {
      var i, j := order[p], order[q];
      assert i < j || j < i;
    }
    forall i, j | 0 <= i < j < |records| && DistinctKeys(names, micros)
      ensures RecordEntry(records[i], defaultEntry) != RecordEntry(records[j], defaultEntry)
              || MicrosOf(records[i]) != MicrosOf(records[j])
    {
      assert i in order && j in order;
      var p :| 0 <= p < |order| && order[p] == i;
      var q :| 0 <= q < |order| && order[q] == j;
      assert p < q || q < p;
    }
  }

  /** The receiver finds the entry list and the base timestamp of the request. */
  lemma {:induction false} PreambleComesBack(
    request: Request, names: seq<string>, micros: seq<nat>, headers: Headers)
    requires Fits(micros) && names != []
    requires request.entries == EntryList(names) && request.startTs == StartTs(micros)
    requires AllBytes(request.entries) && GoodNames(request.entries)
    requires HEADER_ENTRIES in headers && headers[HEADER_ENTRIES] == Join(EncodeAll(request.entries))
    requires HEADER_START_TS in headers && headers[HEADER_START_TS] == Decimal(request.startTs)
    ensures Preamble(headers) == Some((EntryList(names), StartTs(micros)))
  {
    EntryListRoundTrip(request.entries);
    StoUllDecimal(request.startTs);
    assert names[0] in EntryList(names);
  }

  lemma {:induction false} WrittenParse(sent: seq<BatchRecord>)
    requires forall k :: 0 <= k < |sent| ==> sent[k].size < U64
    ensures AlwaysParses(ValuesOf(sent, Write), ParserFor(None))
  {
    var values, parse := ValuesOf(sent, Write), ParserFor(None);
    forall k, previous | 0 <= k < |values| ensures parse(values[k], previous).Parsed? {
      LengthComesBack(sent[k], previous);
    }
  }

  /** Whatever the order of the header map, sorting gives the headers in send order. */
  lemma {:induction false} SortedAsSent(
    names: seq<string>, micros: seq<nat>, values: seq<string>, base: Headers,
    request: Headers, headers: Headers, iteration: seq<string>, sorted: seq<HeaderEntry>)
    requires Fits(micros) && |names| == |micros| == |values| < U64
    requires base.Keys == {HEADER_ENTRIES, HEADER_START_TS}
    requires Emplaced(request, base, KeysOf(names, micros), values, |names|)
    requires Carries(headers, request) && DistinctKeys(names, micros) && LexSorted(names) && TimesAscend(names, micros)
    requires Enumerates(iteration, headers.Keys)
    requires IsSortOf(sorted, EntriesIn(headers, iteration), HeaderOrder())
    ensures sorted == SentEntries(names, micros, values)
  {
    var sent := SentEntries(names, micros, values);
    SentEntriesIncrease(names, micros, values);
    SameEntries(names, micros, values, base, request, headers, iteration);
    SortUnique(sent, sorted, HeaderOrder());
  }

  lemma {:induction false} RequestOrder(records: seq<BatchRecord>, defaultEntry: string, request: Request)
    requires IsRequest(request, records, defaultEntry, Write)
    ensures IsSendOrder(records, defaultEntry, true, request.ordered) && ValidOrder(records, request.ordered)
  {
  }

  /** The facts about a send order that the decoder depends on. */
  lemma {:induction false} OrderFacts(records: seq<BatchRecord>, defaultEntry: string, order: seq<nat>)
    requires InRange(records) && IsSendOrder(records, defaultEntry, true, order) && ValidOrder(records, order)
    ensures |order| == |records| && NoDuplicates(order)
    ensures forall i :: 0 <= i < |records| ==> i in order
    ensures var names, micros := Names(records, defaultEntry, order), Micros(records, order);
            && Fits(micros) && LexSorted(names) && |names| == |micros| == |records|
            && AlwaysParses(Values(records, order), ParserFor(None))
            && (TimesAscend(names, micros) <==> OneSided(records, defaultEntry))
  {
    SendOrderIsPermutation(records, defaultEntry, true, order);
    SentIsSorted(records, defaultEntry, order);
    SentTimesAscend(records, defaultEntry, order);
    WrittenParse(InOrder(records, order));
  }

  lemma {:induction false} BaseInRequest(records: seq<BatchRecord>, defaultEntry: string, request: Request)
    requires IsRequest(request, records, defaultEntry, Write)
    ensures HEADER_ENTRIES in request.headers && request.headers[HEADER_ENTRIES] == Join(EncodeAll(request.entries))
    ensures HEADER_START_TS in request.headers && request.headers[HEADER_START_TS] == Decimal(request.startTs)
    ensures BaseHeaders(request.entries, request.startTs).Keys == {HEADER_ENTRIES, HEADER_START_TS}
  {
    var base := BaseHeaders(request.entries, request.startTs);
    assert HEADER_ENTRIES in base && HEADER_START_TS in base;
    assert HEADER_ENTRIES != HEADER_START_TS;
  }

  /** Decoding gives one record for each sent record, in send order. */
  ghost predicate Decodes(
    records: seq<BatchRecord>, defaultEntry: string, order: seq<nat>, headers: Headers,
    decoded: Option<seq<ReadableRecord>>)
  {
    && InRange(records) && ValidOrder(records, order) && |order| == |records| && NoDuplicates(order)
    && AlwaysParses(Values(records, order), ParserFor(None))
    && decoded == Some(MarkLast(
         ExpectedFrom(Names(records, defaultEntry, order), Micros(records, order), Values(records, order),
                      ParserFor(None), 0),
         headers))
  }

  lemma {:induction false} ExchangeDecodes(x: Exchange)
    requires Exchanged(x) && DistinctMicros(x.records, x.defaultEntry) && OneSided(x.records, x.defaultEntry)
    ensures Decodes(x.records, x.defaultEntry, x.request.ordered, x.headers, x.decoded)
  {
    var order := x.request.ordered;
    RequestOrder(x.records, x.defaultEntry, x.request);
    OrderFacts(x.records, x.defaultEntry, order);
    BaseInRequest(x.records, x.defaultEntry, x.request);
    DistinctInOrder(x.records, x.defaultEntry, order);
    var names, micros, values :=
      Names(x.records, x.defaultEntry, order), Micros(x.records, order), Values(x.records, order);
    PreambleComesBack(x.request, names, micros, x.headers);
    SortedAsSent(names, micros, values, BaseHeaders(x.request.entries, x.request.startTs),
                 x.request.headers, x.headers, x.iteration, x.sorted);
    assert LastIs(NoHeaders(|EntryList(names)|), names, values, ParserFor(None), 0);
    DecodeSent(x.sorted, names, micros, values, ParserFor(None), 0, NoHeaders(|EntryList(names)|));
  }

  /** Only the last record is marked, and only when the response says so. */
  predicate IsMarked(headers: Headers, k: nat, count: nat) {
    k + 1 == count && HEADER_LAST in headers && headers[HEADER_LAST] == "true"
  }

  lemma {:induction false} MarkedAt(
    names: seq<string>, micros: seq<nat>, values: seq<string>, parse: HeaderParser, headers: Headers, k: nat)
    requires |names| == |micros| == |values| && k < |names| && AlwaysParses(values, parse)
    ensures var decoded := MarkLast(ExpectedFrom(names, micros, values, parse, 0), headers);
            && |decoded| == |names|
            && decoded[k] == RecordFor(names[k], micros[k], HeaderAt(names, values, parse, k))
                             .(last := IsMarked(headers, k, |names|))
  {
    var expected := ExpectedFrom(names, micros, values, parse, 0);
    assert expected[k] == RecordFor(names[0 + k], micros[0 + k], HeaderAt(names, values, parse, 0 + k));
  }

  /** The k-th decoded record. */
  lemma {:induction false} DecodedAt(
    records: seq<BatchRecord>, defaultEntry: string, order: seq<nat>, headers: Headers,
    decoded: Option<seq<ReadableRecord>>, k: nat)
    requires Decodes(records, defaultEntry, order, headers, decoded) && k < |records|
    ensures decoded.Some? && |decoded.value| == |records|
    ensures var header := HeaderAt(Names(records, defaultEntry, order), Values(records, order), ParserFor(None), k);
            decoded.value[k] ==
              RecordFor(RecordEntry(records[order[k]], defaultEntry), MicrosOf(records[order[k]]), header)
              .(last := IsMarked(headers, k, |records|))
  {
    MarkedAt(Names(records, defaultEntry, order), Micros(records, order), Values(records, order),
             ParserFor(None), headers, k);
  }

  /** Entry, timestamp to the microsecond and size are those of the sent record. */
  predicate SameMetadata(got: ReadableRecord, sent: BatchRecord, defaultEntry: string) {
    && got.entry == RecordEntry(sent, defaultEntry)
    && got.timestamp == 1000 * ToMicroseconds(sent.timestamp)
    && got.size == sent.size
  }

  lemma {:induction false} MetadataFor(sent: BatchRecord, defaultEntry: string, header: RecordHeader, last: bool)
    requires FitsClock(sent.timestamp) && header.contentLength == sent.size
    ensures SameMetadata(RecordFor(RecordEntry(sent, defaultEntry), MicrosOf(sent), header).(last := last),
                         sent, defaultEntry)
  {
    MicrosSigned(sent);
  }

  lemma {:induction false} HeaderLength(records: seq<BatchRecord>, defaultEntry: string, order: seq<nat>, k: nat)
    requires ValidOrder(records, order) && InRange(records) && k < |order|
    requires AlwaysParses(Values(records, order), ParserFor(None))
    ensures HeaderAt(Names(records, defaultEntry, order), Values(records, order), ParserFor(None), k).contentLength
            == records[order[k]].size
  {
    LengthComesBack(records[order[k]],
                    PreviousOf(Names(records, defaultEntry, order), Values(records, order), ParserFor(None), k));
  }

  lemma {:induction false} MetadataAt(
    records: seq<BatchRecord>, defaultEntry: string, order: seq<nat>, headers: Headers,
    decoded: Option<seq<ReadableRecord>>, k: nat)
    requires Decodes(records, defaultEntry, order, headers, decoded) && k < |records|
    ensures decoded.Some? && |decoded.value| == |records|
    ensures SameMetadata(decoded.value[k], records[order[k]], defaultEntry)
    ensures decoded.value[k].last == IsMarked(headers, k, |records|)
  {
    DecodedAt(records, defaultEntry, order, headers, decoded, k);
    HeaderLength(records, defaultEntry, order, k);
    MetadataFor(records[order[k]], defaultEntry,
                HeaderAt(Names(records, defaultEntry, order), Values(records, order), ParserFor(None), k),
                IsMarked(headers, k, |records|));
  }

  /** All records have the metadata of the sent ones, and only the final one is marked. */
  predicate AllMetadata(
    records: seq<BatchRecord>, defaultEntry: string, order: seq<nat>, headers: Headers,
    decoded: seq<ReadableRecord>)
  {
    && ValidOrder(records, order) && |order| == |records| == |decoded|
    && (forall k :: 0 <= k < |records| ==> SameMetadata(decoded[k], records[order[k]], defaultEntry))
    && (forall k :: 0 <= k < |records| ==> decoded[k].last == IsMarked(headers, k, |records|))
  }

  lemma {:induction false} DecodesMetadata(
    records: seq<BatchRecord>, defaultEntry: string, order: seq<nat>, headers: Headers,
    decoded: Option<seq<ReadableRecord>>)
    requires Decodes(records, defaultEntry, order, headers, decoded) && records != []
    ensures decoded.Some? && AllMetadata(records, defaultEntry, order, headers, decoded.value)
  {
    MetadataAt(records, defaultEntry, order, headers, decoded, 0);
    forall k | 0 <= k < |records|
      ensures SameMetadata(decoded.value[k], records[order[k]], defaultEntry)
      ensures decoded.value[k].last == IsMarked(headers, k, |records|)
    {
      MetadataAt(records, defaultEntry, order, headers, decoded, k);
    }
  }

  // ---- Decoding in any order ----

  /** Each of some headers that are never rejected makes one record, with the entry and time it names. */
  lemma {:induction false} DecodeEach(
    sorted: seq<HeaderEntry>, pos: nat, entries: seq<string>, startTs: nat, parse: HeaderParser,
    last: seq<Option<RecordHeader>>)
    requires pos <= |sorted| && |last| == |entries|
    requires forall k :: 0 <= k < |sorted| ==> sorted[k].idx < |entries|
    requires forall k, previous :: 0 <= k < |sorted| ==> parse(sorted[k].value, previous).Parsed?
    ensures var d := DecodeFrom(sorted, pos, entries, startTs, parse, last);
            && d.Some? && |d.value| == |sorted| - pos
            && forall j :: pos <= j < |sorted| ==> ReadsAs(d.value[j - pos], sorted[j], entries, startTs)
    decreases |sorted| - pos
  {
    if pos < |sorted| {
      var h := sorted[pos];
      var header := parse(h.value, last[h.idx]).header;
      DecodeEach(sorted, pos + 1, entries, startTs, parse, last[h.idx := Some(header)]);
      var rest := DecodeFrom(sorted, pos + 1, entries, startTs, parse, last[h.idx := Some(header)]).value;
      RoundTripV2.DecodeStep(sorted, pos, h, entries, startTs, parse, last, header, rest);
      var d := DecodeFrom(sorted, pos, entries, startTs, parse, last).value;
      forall j | pos <= j < |sorted| ensures ReadsAs(d[j - pos], sorted[j], entries, startTs) {
        assert j > pos ==> d[j - pos] == rest[j - (pos + 1)];
      }
    }
  }

  predicate ReadsAs(record: ReadableRecord, h: HeaderEntry, entries: seq<string>, startTs: nat)
    requires h.idx < |entries|
  {
    record.entry == entries[h.idx] && record.timestamp == FromMicroseconds((startTs + h.delta) % U64)
  }

  /** The headers as the decoder sorts them: those of the sent records, in some order. */
  ghost predicate SortedFrom(
    sorted: seq<HeaderEntry>, names: seq<string>, micros: seq<nat>, values: seq<string>)
    requires Fits(micros) && |names| == |micros| == |values|
  {
    IsSortOf(sorted, SentEntries(names, micros, values), HeaderOrder())
  }

  lemma {:induction false} SortedSent(
    sorted: seq<HeaderEntry>, names: seq<string>, micros: seq<nat>, values: seq<string>, k: nat) returns (m: nat)
    requires Fits(micros) && |names| == |micros| == |values| && SortedFrom(sorted, names, micros, values)
    requires k < |sorted|
    ensures m < |names| && sorted[k] == SentEntries(names, micros, values)[m]
  {
    var sent := SentEntries(names, micros, values);
    assert sorted[k] in multiset(sorted);
    assert sorted[k] in sent;
    m :| 0 <= m < |sent| && sent[m] == sorted[k];
  }

  lemma {:induction false} SortedDecodes(
    sorted: seq<HeaderEntry>, names: seq<string>, micros: seq<nat>, values: seq<string>, parse: HeaderParser)
    requires Fits(micros) && |names| == |micros| == |values| && SortedFrom(sorted, names, micros, values)
    requires AlwaysParses(values, parse)
    ensures |sorted| == |names|
    ensures forall k :: 0 <= k < |sorted| ==> sorted[k].idx < |EntryList(names)|
    ensures var entries := EntryList(names);
            var d := DecodeFrom(sorted, 0, entries, StartTs(micros), parse, NoHeaders(|entries|));
            && d.Some? && |d.value| == |names|
            && forall k :: 0 <= k < |names| ==> ReadsAs(d.value[k], sorted[k], entries, StartTs(micros))
  {
    SortKeepsLength(sorted, SentEntries(names, micros, values), HeaderOrder());
    forall k | 0 <= k < |sorted|
      ensures sorted[k].idx < |EntryList(names)|
      ensures forall previous :: parse(sorted[k].value, previous).Parsed?
    {
      var m := SortedSent(sorted, names, micros, values, k);
    }
    DecodeEach(sorted, 0, EntryList(names), StartTs(micros), parse, NoHeaders(|EntryList(names)|));
  }

  /** A header that reads as the entry and the time of the k-th sent record is the k-th sent one. */
  lemma {:induction false} ReadsAsSent(
    h: HeaderEntry, record: ReadableRecord, names: seq<string>, micros: seq<nat>, k: nat)
    requires Fits(micros) && |names| == |micros| && k < |names|
    requires h.idx < |EntryList(names)| && StartTs(micros) + h.delta < U64
    requires ReadsAs(record, h, EntryList(names), StartTs(micros))
    requires record.entry == names[k] && record.timestamp == FromMicroseconds(micros[k])
    ensures h.idx == IndexOf(names, k) && h.delta == DeltaOf(micros, k)
  {
    var entries := EntryList(names);
    assert entries[h.idx] == entries[IndexOf(names, k)];
    SameMicros(StartTs(micros) + h.delta, micros[k]);
  }

  lemma {:induction false} SameMicros(a: nat, b: nat)
    requires a < U64 && b < U64 && FromMicroseconds(a % U64) == FromMicroseconds(b)
    ensures a == b
  {
  }

  /** If the records come back in send order, the times of each entry ascend in it. */
  lemma {:induction false} InOrderAscends(
    sorted: seq<HeaderEntry>, names: seq<string>, micros: seq<nat>, decoded: seq<ReadableRecord>)
    requires Fits(micros) && |names| == |micros| == |sorted| == |decoded| && Sorted(sorted, HeaderOrder())
    requires forall k :: 0 <= k < |sorted| ==>
               sorted[k].idx < |EntryList(names)| && StartTs(micros) + sorted[k].delta < U64
    requires forall k :: 0 <= k < |names| ==> ReadsAs(decoded[k], sorted[k], EntryList(names), StartTs(micros))
    requires forall k :: 0 <= k < |names| ==>
               decoded[k].entry == names[k] && decoded[k].timestamp == FromMicroseconds(micros[k])
    ensures TimesAscend(names, micros)
  {
    forall p, q | 0 <= p < q < |names| && names[p] == names[q] ensures micros[p] <= micros[q] {
      ReadsAsSent(sorted[p], decoded[p], names, micros, p);
      ReadsAsSent(sorted[q], decoded[q], names, micros, q);
      assert !HeaderOrder()(sorted[q], sorted[p]);
    }
  }

  /** What the decoder makes of an exchange with distinct keys, in whatever order it sorts the headers. */
  lemma {:induction false} ExchangeSorts(x: Exchange)
    requires Exchanged(x) && DistinctMicros(x.records, x.defaultEntry)
    ensures ValidOrder(x.records, x.request.ordered) && |x.request.ordered| == |x.records|
    ensures AlwaysParses(Values(x.records, x.request.ordered), ParserFor(None))
    ensures var order := x.request.ordered;
            var names, micros, values :=
              Names(x.records, x.defaultEntry, order), Micros(x.records, order), Values(x.records, order);
            && Fits(micros) && SortedFrom(x.sorted, names, micros, values)
            && (TimesAscend(names, micros) <==> OneSided(x.records, x.defaultEntry))
            && var entries := EntryList(names);
            var d := DecodeFrom(x.sorted, 0, entries, StartTs(micros), ParserFor(None), NoHeaders(|entries|));
            x.decoded == if d.None? then None else Some(MarkLast(d.value, x.headers))
  {
    var order := x.request.ordered;
    RequestOrder(x.records, x.defaultEntry, x.request);
    OrderFacts(x.records, x.defaultEntry, order);
    BaseInRequest(x.records, x.defaultEntry, x.request);
    DistinctInOrder(x.records, x.defaultEntry, order);
    var names, micros, values :=
      Names(x.records, x.defaultEntry, order), Micros(x.records, order), Values(x.records, order);
    PreambleComesBack(x.request, names, micros, x.headers);
    SentEntriesDistinct(names, micros, values);
    SameEntries(names, micros, values, BaseHeaders(x.request.entries, x.request.startTs), x.request.headers, x.headers,
                x.iteration);
  }

  lemma {:induction false} MarkLastKeeps(records: seq<ReadableRecord>, headers: Headers)
    ensures var marked := MarkLast(records, headers);
            && |marked| == |records|
            && forall k :: 0 <= k < |records| ==>
                 marked[k].entry == records[k].entry && marked[k].timestamp == records[k].timestamp
  {
  }

  lemma {:induction false} MetadataNames(
    records: seq<BatchRecord>, defaultEntry: string, order: seq<nat>, got: ReadableRecord, k: nat)
    requires InRange(records) && ValidOrder(records, order) && k < |order|
    requires SameMetadata(got, records[order[k]], defaultEntry)
    ensures got.entry == Names(records, defaultEntry, order)[k]
    ensures got.timestamp == FromMicroseconds(Micros(records, order)[k])
  {
    MicrosSigned(records[order[k]]);
  }

  lemma {:induction false} MetadataInOrder(
    sorted: seq<HeaderEntry>, names: seq<string>, micros: seq<nat>, values: seq<string>,
    plain: seq<ReadableRecord>, decoded: seq<ReadableRecord>)
    requires Fits(micros) && |names| == |micros| == |values| && SortedFrom(sorted, names, micros, values)
    requires AlwaysParses(values, ParserFor(None)) && |decoded| == |names|
    requires var entries := EntryList(names);
             DecodeFrom(sorted, 0, entries, StartTs(micros), ParserFor(None), NoHeaders(|entries|)) == Some(plain)
    requires |plain| == |names| && forall k :: 0 <= k < |names| ==>
               decoded[k].entry == plain[k].entry && decoded[k].timestamp == plain[k].timestamp
    requires forall k :: 0 <= k < |names| ==>
               decoded[k].entry == names[k] && decoded[k].timestamp == FromMicroseconds(micros[k])
    ensures TimesAscend(names, micros)
  {
    SortedDecodes(sorted, names, micros, values, ParserFor(None));
    forall k | 0 <= k < |names| ensures StartTs(micros) + sorted[k].delta < U64 {
      var m := SortedSent(sorted, names, micros, values, k);
    }
    InOrderAscends(sorted, names, micros, decoded);
  }

  /** The records of an exchange before the last one is marked. */
  ghost predicate DecodesTo(x: Exchange, plain: seq<ReadableRecord>) {
    var order := x.request.ordered;
    ValidOrder(x.records, order)
    && var entries, micros := EntryList(Names(x.records, x.defaultEntry, order)), Micros(x.records, order);
    Fits(micros)
    && DecodeFrom(x.sorted, 0, entries, StartTs(micros), ParserFor(None), NoHeaders(|entries|)) == Some(plain)
  }

  /** Every record comes back, in some order. */
  lemma {:induction false} AllComeBack(x: Exchange) returns (plain: seq<ReadableRecord>)
    requires Exchanged(x) && DistinctMicros(x.records, x.defaultEntry)
    ensures x.decoded == Some(MarkLast(plain, x.headers)) && |plain| == |x.records| && DecodesTo(x, plain)
  {
    ExchangeSorts(x);
    var order := x.request.ordered;
    var names, micros := Names(x.records, x.defaultEntry, order), Micros(x.records, order);
    SortedDecodes(x.sorted, names, micros, Values(x.records, order), ParserFor(None));
    var entries := EntryList(names);
    plain := DecodeFrom(x.sorted, 0, entries, StartTs(micros), ParserFor(None), NoHeaders(|entries|)).value;
  }

  lemma {:induction false} InOrderIsOneSided(x: Exchange, plain: seq<ReadableRecord>)
    requires Exchanged(x) && DistinctMicros(x.records, x.defaultEntry)
    requires |plain| == |x.records| && DecodesTo(x, plain)
    requires AllMetadata(x.records, x.defaultEntry, x.request.ordered, x.headers, MarkLast(plain, x.headers))
    ensures OneSided(x.records, x.defaultEntry)
  {
    ExchangeSorts(x);
    var order, decoded := x.request.ordered, MarkLast(plain, x.headers);
    var names, micros := Names(x.records, x.defaultEntry, order), Micros(x.records, order);
    MarkLastKeeps(plain, x.headers);
    forall k | 0 <= k < |names|
      ensures decoded[k].entry == names[k] && decoded[k].timestamp == FromMicroseconds(micros[k])
    {
      MetadataNames(x.records, x.defaultEntry, order, decoded[k], k);
    }
    MetadataInOrder(x.sorted, names, micros, Values(x.records, order), plain, decoded);
  }

  /**
   Entry, timestamp to the microsecond and size of every record come back, for every content type and every labels,
   whatever the order in which the header map is iterated. They come back in send order exactly when no entry has
   records both before and after the epoch.
   */
  lemma {:induction false} MetadataRoundTrip(x: Exchange)
    requires Exchanged(x) && DistinctMicros(x.records, x.defaultEntry)
    ensures x.decoded.Some? && |x.decoded.value| == |x.records|
    ensures AllMetadata(x.records, x.defaultEntry, x.request.ordered, x.headers, x.decoded.value)
            <==> OneSided(x.records, x.defaultEntry)
  {
    var plain := AllComeBack(x);
    MarkLastKeeps(plain, x.headers);
    if AllMetadata(x.records, x.defaultEntry, x.request.ordered, x.headers, x.decoded.value) {
      InOrderIsOneSided(x, plain);
    }
    if OneSided(x.records, x.defaultEntry) {
      ExchangeDecodes(x);
      DecodesMetadata(x.records, x.defaultEntry, x.request.ordered, x.headers, x.decoded);
    }
  }

  // ---- The number of records ----

  lemma {:induction false} NotMoreThan<T>(a: seq<T>, b: seq<T>)
    requires NoDuplicates(a) && forall x <- a :: x in b
    ensures |a| <= |b|
  {
    if a != [] {
      var x := a[|a| - 1];
      assert x in a && x in b;
      var i :| 0 <= i < |b| && b[i] == x;
      var rest := b[..i] + b[i + 1..];
      forall y | y in a[..|a| - 1] ensures y in rest {
        assert y in a && y in b;
        var j :| 0 <= j < |b| && b[j] == y;
        assert rest[if j < i then j else j - 1] == y;
      }
      NotMoreThan(a[..|a| - 1], rest);
    }
  }

  /** No header makes the parser throw. */
  ghost predicate NeverThrows(parse: HeaderParser) {
    forall raw, previous :: !parse(raw, previous).Throws?
  }

  lemma {:induction false} NoNamesNeverThrows()
    ensures NeverThrows(ParserFor(None))
  {
    forall raw, previous ensures !ParserFor(None)(raw, previous).Throws? {
      var parts := TypeAndLabels(raw, Find(raw, ',', 0));
      if parts.1.Some? {
        NoNamesNoThrow(parts.1.value, InheritedLabels(previous));
      }
    }
  }

  /** Each header makes at most one record. */
  lemma {:induction false} DecodedCount(
    sorted: seq<HeaderEntry>, pos: nat, entries: seq<string>, startTs: nat,
    parse: HeaderParser, last: seq<Option<RecordHeader>>)
    requires pos <= |sorted| && |last| == |entries| && NeverThrows(parse)
    ensures var d := DecodeFrom(sorted, pos, entries, startTs, parse, last);
            d.Some? && |d.value| <= |sorted| - pos
    decreases |sorted| - pos
  {
    if pos < |sorted| {
      var h := sorted[pos];
      DecodedCount(sorted, pos + 1, entries, startTs, parse, last);
      if h.idx < |entries| {
        var parsed := parse(h.value, last[h.idx]);
        if parsed.Parsed? {
          DecodedCount(sorted, pos + 1, entries, startTs, parse, last[h.idx := Some(parsed.header)]);
        }
      }
    }
  }

  /** The headers of the sent records as they arrive: of records with one key only the first header does. */
  function Arriving(names: seq<string>, micros: seq<nat>, headers: Headers): (arriving: seq<HeaderEntry>)
    requires Fits(micros) && |names| == |micros|
    requires forall k :: 0 <= k < |names| ==> KeyOf(names, micros, k) in headers
    ensures |arriving| == |names|
    ensures forall k :: 0 <= k < |names| ==>
              arriving[k] == HeaderEntry(IndexOf(names, k), DeltaOf(micros, k), headers[KeyOf(names, micros, k)])
  {
    seq(|names|, k requires 0 <= k < |names| =>
      HeaderEntry(IndexOf(names, k), DeltaOf(micros, k), headers[KeyOf(names, micros, k)]))
  }

  lemma {:induction false} FewerThan<T>(a: seq<T>, b: seq<T>, p: nat, q: nat)
    requires NoDuplicates(a) && forall x <- a :: x in b
    requires p < q < |b| && b[p] == b[q]
    ensures |a| < |b|
  {
    var rest := b[..q] + b[q + 1..];
    forall x | x in a ensures x in rest {
      assert x in b;
      var k :| 0 <= k < |b| && b[k] == x;
      var j := if k == q then p else k;
      assert rest[if j < q then j else j - 1] == b[j];
    }
    NotMoreThan(a, rest);
  }

  lemma {:induction false} FoundAreArriving(
    names: seq<string>, micros: seq<nat>, headers: Headers, iteration: seq<string>)
    requires Fits(micros) && |names| == |micros| && Canonical(headers)
    requires forall k :: 0 <= k < |names| ==> KeyOf(names, micros, k) in headers
    requires forall k :: 0 <= k < |names| ==>
               ParseBatchedHeaderName(KeyOf(names, micros, k)) == Some((IndexOf(names, k), DeltaOf(micros, k)))
    requires forall name <- headers :: ParseBatchedHeaderName(name).Some?
               ==> exists k :: 0 <= k < |names| && name == KeyOf(names, micros, k)
    ensures forall x <- EntriesIn(headers, iteration) :: x in Arriving(names, micros, headers)
  {
    var found, arriving := EntriesIn(headers, iteration), Arriving(names, micros, headers);
    forall x | x in found ensures x in arriving {
      CollectMembers(ReaderOf(headers), iteration, |iteration|, x);
      var i :| 0 <= i < |iteration| && x in ReaderOf(headers)(iteration[i]);
      ReadCanonical(headers, iteration[i], x);
      var k :| 0 <= k < |names| && iteration[i] == KeyOf(names, micros, k);
      assert x == arriving[k];
    }
  }

  /** When two records have one key, fewer headers than records are found. */
  lemma {:induction false} CollisionLosesHeader(
    names: seq<string>, micros: seq<nat>, values: seq<string>, base: Headers,
    request: Headers, headers: Headers, iteration: seq<string>)
    requires Fits(micros) && |names| == |micros| == |values| < U64
    requires base.Keys == {HEADER_ENTRIES, HEADER_START_TS}
    requires Emplaced(request, base, KeysOf(names, micros), values, |names|)
    requires Carries(headers, request) && !DistinctKeys(names, micros)
    requires Enumerates(iteration, headers.Keys)
    ensures |EntriesIn(headers, iteration)| < |names|
  {
    RecordHeaders(names, micros, values, base, request, headers);
    EntriesInDistinct(headers, iteration);
    FoundAreArriving(names, micros, headers, iteration);
    var p, q :| 0 <= p < q < |names| && names[p] == names[q] && micros[p] == micros[q];
    KeysCollide(names, micros, p, q);
    SameKeySameHeader(names, micros, headers, p, q);
    FewerThan(EntriesIn(headers, iteration), Arriving(names, micros, headers), p, q);
  }

  lemma {:induction false} SameKeySameHeader(
    names: seq<string>, micros: seq<nat>, headers: Headers, p: nat, q: nat)
    requires Fits(micros) && |names| == |micros|
    requires forall k :: 0 <= k < |names| ==> KeyOf(names, micros, k) in headers
    requires p < |names| && q < |names| && KeyOf(names, micros, p) == KeyOf(names, micros, q)
    ensures Arriving(names, micros, headers)[p] == Arriving(names, micros, headers)[q]
  {
    HeaderKeyInjective(IndexOf(names, p), DeltaOf(micros, p), IndexOf(names, q), DeltaOf(micros, q));
  }

  lemma {:induction false} SortKeepsLength<T>(out: seq<T>, s: seq<T>, less: (T, T) -> bool)
    requires IsSortOf(out, s, less)
    ensures |out| == |s|
  {
    assert |multiset(out)| == |multiset(s)|;
  }

  lemma {:induction false} DecodedNoMore(
    sorted: seq<HeaderEntry>, found: seq<HeaderEntry>, entries: seq<string>, startTs: nat)
    requires IsSortOf(sorted, found, HeaderOrder())
    ensures var d := DecodeFrom(sorted, 0, entries, startTs, ParserFor(None), NoHeaders(|entries|));
            d.Some? && |d.value| <= |found|
  {
    SortKeepsLength(sorted, found, HeaderOrder());
    NoNamesNeverThrows();
    DecodedCount(sorted, 0, entries, startTs, ParserFor(None), NoHeaders(|entries|));
  }

  /** A batch with colliding keys comes back with fewer records. */
  lemma {:induction false} CollisionLosesRecord(x: Exchange)
    requires Exchanged(x) && !DistinctMicros(x.records, x.defaultEntry)
    ensures x.decoded.Some? && |x.decoded.value| < |x.records|
  {
    var order := x.request.ordered;
    RequestOrder(x.records, x.defaultEntry, x.request);
    OrderFacts(x.records, x.defaultEntry, order);
    BaseInRequest(x.records, x.defaultEntry, x.request);
    DistinctInOrder(x.records, x.defaultEntry, order);
    var names, micros := Names(x.records, x.defaultEntry, order), Micros(x.records, order);
    PreambleComesBack(x.request, names, micros, x.headers);
    CollisionLosesHeader(names, micros, Values(x.records, order), BaseHeaders(x.request.entries, x.request.startTs),
                         x.request.headers, x.headers, x.iteration);
    DecodedNoMore(x.sorted, EntriesIn(x.headers, x.iteration), EntryList(names), StartTs(micros));
  }

  /**
   Every record comes back exactly when no two records of one entry fall into the same microsecond;
   otherwise a header is lost, and with it at least one record.
   */
  lemma {:induction false} AllRecordsComeBack(x: Exchange)
    requires Exchanged(x)
    ensures x.decoded.Some? && |x.decoded.value| <= |x.records|
    ensures |x.decoded.value| == |x.records| <==> DistinctMicros(x.records, x.defaultEntry)
  {
    if DistinctMicros(x.records, x.defaultEntry) {
      MetadataRoundTrip(x);
    } else {
      CollisionLosesRecord(x);
    }
  }

  // ---- Encoder and decoder put together ----

  lemma {:induction false} ListedNamesAreGood(records: seq<BatchRecord>, defaultEntry: string, order: seq<nat>)
    requires ValidOrder(records, order)
    requires forall k :: 0 <= k < |records| ==> GoodName(RecordEntry(records[k], defaultEntry))
    ensures GoodNames(EntryList(Names(records, defaultEntry, order)))
  {
    var names := Names(records, defaultEntry, order);
    DistinctFrom(names, |names|);
    var entries := EntryList(names);
    forall i | 0 <= i < |entries| ensures GoodName(entries[i]) {
      assert entries[i] in entries;
      var k :| 0 <= k < |names| && names[k] == entries[i];
    }
  }

  /** A request carries no list of label names. */
  lemma {:induction false} NoLabelNames(
    names: seq<string>, micros: seq<nat>, values: seq<string>, base: Headers, request: Headers)
    requires Fits(micros) && |names| == |micros| == |values| < U64
    requires base.Keys == {HEADER_ENTRIES, HEADER_START_TS}
    requires Emplaced(request, base, KeysOf(names, micros), values, |names|)
    ensures HEADER_LABELS !in request
  {
    OtherHeadersAreNoRecords();
    forall k | 0 <= k < |names| ensures KeysOf(names, micros)[k] != HEADER_LABELS {
      DistinctShorter(names, |names|);
      HeaderKeyComesBack(IndexOf(names, k), DeltaOf(micros, k));
    }
    assert HEADER_LABELS != HEADER_ENTRIES && HEADER_LABELS != HEADER_START_TS;
  }

  /** The headers of a request are a response that carries them. */
  lemma {:induction false} RequestCarriesItself(records: seq<BatchRecord>, defaultEntry: string, request: Request)
    requires |records| < U64 && IsRequest(request, records, defaultEntry, Write) && |request.ordered| == |records|
    ensures Carries(request.headers, request.headers)
  {
    BaseInRequest(records, defaultEntry, request);
    NoLabelNames(Names(records, defaultEntry, request.ordered), Micros(records, request.ordered),
                 Values(records, request.ordered), BaseHeaders(request.entries, request.startTs), request.headers);
  }

  lemma {:induction false} RequestEntriesGood(records: seq<BatchRecord>, defaultEntry: string, request: Request)
    requires IsRequest(request, records, defaultEntry, Write)
    requires forall k :: 0 <= k < |records| ==> GoodName(RecordEntry(records[k], defaultEntry))
    ensures GoodNames(request.entries)
  {
    ListedNamesAreGood(records, defaultEntry, request.ordered);
  }

  /** Some order of the header map and some outcome of the sort lead from a batch to these records. */
  ghost predicate IsExchange(
    records: seq<BatchRecord>, defaultEntry: string, request: Request, decoded: Option<seq<ReadableRecord>>)
  {
    exists iteration, sorted ::
      Exchanged(Exchange(records, defaultEntry, request, request.headers, iteration, sorted, decoded))
  }

  lemma {:induction false} RequestIsExchanged(x: Exchange)
    requires x.records != [] && InRange(x.records) && IsRequest(x.request, x.records, x.defaultEntry, Write)
    requires forall k :: 0 <= k < |x.records| ==> GoodName(RecordEntry(x.records[k], x.defaultEntry))
    requires x.headers == x.request.headers && Enumerates(x.iteration, x.headers.Keys)
    requires IsDecoded(x.headers, x.iteration, x.sorted, x.decoded)
    ensures Exchanged(x)
  {
    RequestOrder(x.records, x.defaultEntry, x.request);
    OrderFacts(x.records, x.defaultEntry, x.request.ordered);
    RequestCarriesItself(x.records, x.defaultEntry, x.request);
    RequestEntriesGood(x.records, x.defaultEntry, x.request);
  }

  /** What the round trip promises for a batch and what was decoded from the headers of its request. */
  predicate RoundTrips(
    records: seq<BatchRecord>, defaultEntry: string, request: Request, decoded: Option<seq<ReadableRecord>>)
  {
    && decoded.Some? && |decoded.value| <= |records|
    && (|decoded.value| == |records| <==> DistinctMicros(records, defaultEntry))
    && (DistinctMicros(records, defaultEntry) ==>
          (AllMetadata(records, defaultEntry, request.ordered, request.headers, decoded.value)
           <==> OneSided(records, defaultEntry)))
  }

  lemma {:induction false} ExchangeRoundTrips(x: Exchange)
    requires Exchanged(x) && x.headers == x.request.headers
    ensures RoundTrips(x.records, x.defaultEntry, x.request, x.decoded)
  {
    AllRecordsComeBack(x);
    if DistinctMicros(x.records, x.defaultEntry) {
      MetadataRoundTrip(x);
    }
  }

  lemma {:induction false} DecodedRequest(
    records: seq<BatchRecord>, defaultEntry: string, request: Request, iteration: seq<string>,
    decoded: Option<seq<ReadableRecord>>)
    requires records != [] && InRange(records) && IsRequest(request, records, defaultEntry, Write)
    requires forall k :: 0 <= k < |records| ==> GoodName(RecordEntry(records[k], defaultEntry))
    requires Enumerates(iteration, request.headers.Keys)
    requires exists sorted :: IsDecoded(request.headers, iteration, sorted, decoded)
    ensures IsExchange(records, defaultEntry, request, decoded)
    ensures RoundTrips(records, defaultEntry, request, decoded)
  {
    var sorted :| IsDecoded(request.headers, iteration, sorted, decoded);
    var x := Exchange(records, defaultEntry, request, request.headers, iteration, sorted, decoded);
    RequestIsExchanged(x);
    ExchangeRoundTrips(x);
  }

  /**
   Encodes a batch and decodes the headers of the request: such an exchange exists for every batch whose entry
   names survive the list, so the theorems about exchanges speak about all of them.
   */
  method EncodeAndDecode(records: seq<BatchRecord>, defaultEntry: string)
    returns (request: Request, decoded: Option<seq<ReadableRecord>>)
    requires records != [] && InRange(records) && ByteRecords(records, defaultEntry)
    requires forall k :: 0 <= k < |records| ==> GoodName(RecordEntry(records[k], defaultEntry))
    ensures IsExchange(records, defaultEntry, request, decoded)
    ensures RoundTrips(records, defaultEntry, request, decoded)
  {
    var result := BuildBatchV2Request(records, defaultEntry, Write, false);
    request := result.request;
    var iteration := SortedKeys(request.headers.Keys);
    SortedKeysAre(request.headers.Keys);
    decoded := ParseAndBuildBatchedRecordsV2(request.headers, iteration);
    DecodedRequest(records, defaultEntry, request, iteration, decoded);
  }
}
