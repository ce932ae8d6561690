/** ParseAndBuildBatchedRecordsV2: the records that the headers of a v2 response describe. */
module ResponseV2 {
  import opened Wrappers
  import opened Numbers
  import opened Ordering
  import opened Batches
  import opened EntryNames
  import opened HeadersV2

  /** A tuple of parsed_headers. */
  datatype HeaderEntry = HeaderEntry(idx: nat, delta: nat, value: string)

  /** The comparator of parsed_headers: numeric, unlike the order of the header names. */
  predicate HeaderLess(a: HeaderEntry, b: HeaderEntry) {
    if a.idx == b.idx then a.delta < b.delta else a.idx < b.idx
  }

  function HeaderOrder(): (HeaderEntry, HeaderEntry) -> bool {
    (a: HeaderEntry, b: HeaderEntry) => HeaderLess(a, b)
  }

  lemma {:induction false} HeaderOrderIsOrder()
    ensures StrictWeakOrder(HeaderOrder())
  {
  }

  /** What one header contributes to parsed_headers. */
  function EntryOf(name: string, value: string): seq<HeaderEntry> {
    var parsed := ParseBatchedHeaderName(name);
    if parsed.None? then [] else [HeaderEntry(parsed.value.0, parsed.value.1, value)]
  }

  function ReaderOf(headers: Headers): string -> seq<HeaderEntry> {
    (name: string) => if name in headers then EntryOf(name, headers[name]) else []
  }

  /** parsed_headers, in the order in which the map is iterated. */
  function EntriesIn(headers: Headers, names: seq<string>): seq<HeaderEntry> {
    Collect(ReaderOf(headers), names, |names|)
  }

  // ---- The pass over the sorted headers ----

  type HeaderParser = (string, Option<RecordHeader>) -> ParsedHeader

  function ParserFor(names: Option<seq<string>>): HeaderParser {
    (raw: string, previous: Option<RecordHeader>) => ParseRecordHeader(raw, previous, names)
  }

  function RecordFor(entry: string, timestamp: nat, header: RecordHeader): ReadableRecord {
    ReadableRecord(entry, FromMicroseconds(timestamp % U64), header.contentLength, false, header.labels,
                   header.contentType)
  }

  function PrependRecord(record: ReadableRecord, tail: Option<seq<ReadableRecord>>): Option<seq<ReadableRecord>> {
    if tail.None? then None else Some([record] + tail.value)
  }

  /** The records from position `pos` on; None is an exception. `last` is last_header. */
  function DecodeFrom(
    sorted: seq<HeaderEntry>, pos: nat, entries: seq<string>, startTs: nat,
    parse: HeaderParser, last: seq<Option<RecordHeader>>): Option<seq<ReadableRecord>>
    requires pos <= |sorted| && |last| == |entries|
    decreases |sorted| - pos
  {
    if pos == |sorted| then Some([])
    else
      var h := sorted[pos];
      if h.idx >= |entries| then DecodeFrom(sorted, pos + 1, entries, startTs, parse, last)
      else
        match parse(h.value, last[h.idx])
        case Throws => None
        case Rejected => DecodeFrom(sorted, pos + 1, entries, startTs, parse, last)
        case Parsed(header) =>
          PrependRecord(
            RecordFor(entries[h.idx], startTs + h.delta, header),
            DecodeFrom(sorted, pos + 1, entries, startTs, parse, last[h.idx := Some(header)]))
  }

  function NoHeaders(n: nat): (last: seq<Option<RecordHeader>>)
    ensures |last| == n && forall i :: 0 <= i < n ==> last[i] == None
  {
    seq(n, i => None)
  }

  /** records.back().last = true, for a response that says so. */
  function MarkLast(records: seq<ReadableRecord>, headers: Headers): seq<ReadableRecord> {
    if records != [] && HEADER_LAST in headers && headers[HEADER_LAST] == "true"
    then records[|records| - 1 := records[|records| - 1].(last := true)]
    else records
  }

  /** The entry list and the base timestamp, without which there are no records. */
  function Preamble(headers: Headers): Option<(seq<string>, nat)> {
    if HEADER_ENTRIES !in headers || HEADER_START_TS !in headers then None
    else
      var entries := EncodedList(headers[HEADER_ENTRIES]);
      if entries == [] then None
      else
        var startTs :- StoUll(headers[HEADER_START_TS]);
        Some((entries, startTs))
  }

  function LabelNames(headers: Headers): Option<seq<string>> {
    if HEADER_LABELS in headers then Some(EncodedList(headers[HEADER_LABELS])) else None
  }

  /** What decoding may return for a given order of the header map and a given outcome of std::sort. */
  ghost predicate IsDecoded(
    headers: Headers, names: seq<string>, sorted: seq<HeaderEntry>, records: Option<seq<ReadableRecord>>)
  {
    var preamble := Preamble(headers);
    if preamble.None? then records == Some([])
    else
      && IsSortOf(sorted, EntriesIn(headers, names), HeaderOrder())
      && var (entries, startTs) := preamble.value;
      var decoded := DecodeFrom(sorted, 0, entries, startTs, ParserFor(LabelNames(headers)), NoHeaders(|entries|));
      records == if decoded.None? then None else Some(MarkLast(decoded.value, headers))
  }

  /** The loop over the headers, whatever each of them contributes. */
  method CollectAll(read: string -> seq<HeaderEntry>, names: seq<string>) returns (parsed: seq<HeaderEntry>)
    ensures parsed == Collect(read, names, |names|)
  {
    parsed := [];
    for k := 0 to |names|
      invariant parsed == Collect(read, names, k)
    {
      parsed := parsed + read(names[k]);
    }
  }

  method CollectHeaders(headers: Headers, names: seq<string>) returns (parsed: seq<HeaderEntry>)
    requires forall k :: 0 <= k < |names| ==> names[k] in headers
    ensures parsed == EntriesIn(headers, names)
  {
    parsed := CollectAll(ReaderOf(headers), names);
  }

  /** The loop that builds the records. */
  method BuildRecords(
    sorted: seq<HeaderEntry>, entries: seq<string>, startTs: nat, parse: HeaderParser)
    returns (result: Option<seq<ReadableRecord>>)
    ensures result == DecodeFrom(sorted, 0, entries, startTs, parse, NoHeaders(|entries|))
  {
    var records: seq<ReadableRecord> := [];
    var last := NoHeaders(|entries|);
    ghost var all := DecodeFrom(sorted, 0, entries, startTs, parse, last);
    Prefixed([], all);
    for k := 0 to |sorted|
      invariant |last| == |entries|
      invariant all == PrefixedBy(records, DecodeFrom(sorted, k, entries, startTs, parse, last))
    {
      var h := sorted[k];
      if h.idx >= |entries| {
        continue;
      }
      var header := parse(h.value, last[h.idx]);
      if header.Throws? {
        return None;
      }
      if header.Rejected? {
        continue;
      }
      last := last[h.idx := Some(header.header)];
      var record := RecordFor(entries[h.idx], startTs + h.delta, header.header);
      OneMore(records, record, DecodeFrom(sorted, k + 1, entries, startTs, parse, last));
      records := records + [record];
    }
    Prefixed(records, Some([]));
    return Some(records);
  }

  function PrefixedBy(head: seq<ReadableRecord>, tail: Option<seq<ReadableRecord>>): Option<seq<ReadableRecord>> {
    if tail.None? then None else Some(head + tail.value)
  }

  lemma {:induction false} Prefixed(head: seq<ReadableRecord>, tail: Option<seq<ReadableRecord>>)
    ensures PrefixedBy([], tail) == tail
    ensures PrefixedBy(head, Some([])) == Some(head)
  {
    assert head + [] == head;
    if tail.Some? {
      assert [] + tail.value == tail.value;
    }
  }

  lemma {:induction false} OneMore(
    head: seq<ReadableRecord>, record: ReadableRecord, tail: Option<seq<ReadableRecord>>)
    ensures PrefixedBy(head, PrependRecord(record, tail)) == PrefixedBy(head + [record], tail)
  {
    if tail.Some? {
      assert head + ([record] + tail.value) == head + [record] + tail.value;
    }
  }

  /** `names` is the order in which the unordered header map happens to be iterated. */
  method ParseAndBuildBatchedRecordsV2(
    headers: Headers, names: seq<string>) returns (records: Option<seq<ReadableRecord>>)
    requires Enumerates(names, headers.Keys)
    ensures exists sorted :: IsDecoded(headers, names, sorted, records)
  {
    assert forall k :: 0 <= k < |names| ==> names[k] in names;
    if HEADER_ENTRIES !in headers || HEADER_START_TS !in headers {
      assert IsDecoded(headers, names, [], Some([]));
      return Some([]);
    }
    var entries := ParseEncodedList(headers[HEADER_ENTRIES]);
    if entries == [] {
      assert IsDecoded(headers, names, [], Some([]));
      return Some([]);
    }
    var startTs := StoUll(headers[HEADER_START_TS]);
    if startTs.None? {
      assert IsDecoded(headers, names, [], Some([]));
      return Some([]);
    }
    var labelNames := LabelNames(headers);
    var parsed := CollectHeaders(headers, names);
    HeaderOrderIsOrder();
    SortKeepsPromise(parsed, HeaderOrder());
    var sorted := Sort(parsed, HeaderOrder());
    records := BuildRecords(sorted, entries, startTs.value, ParserFor(labelNames));
    if records.Some? {
      records := Some(MarkLast(records.value, headers));
    }
    assert IsDecoded(headers, names, sorted, records);
  }
}
