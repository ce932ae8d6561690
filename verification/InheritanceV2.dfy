/** Content types and labels after an exchange: each header is read on top of the one before it in its entry. */
module InheritanceV2 {
  import opened Wrappers
  import opened Numbers
  import opened Batches
  import opened Labels
  import opened HeadersV2
  import opened RequestV2
  import opened ResponseV2
  import opened RoundTripV2
  import opened MetadataV2

  // ---- Content types ----

  /** A header was read, with a clean content type: the original one exactly when that was clean. */
  predicate TypeIsRead(contentType: string, parsed: ParsedHeader) {
    && parsed.Parsed?
    && CleanType(parsed.header.contentType)
    && (parsed.header.contentType == contentType <==> CleanType(contentType))
  }

  /** Headers that are read with the given types, on top of any clean type. */
  ghost predicate TypesParse(values: seq<string>, types: seq<string>, parse: HeaderParser)
    requires |values| == |types|
  {
    forall k, previous :: 0 <= k < |values| && CleanType(InheritedType(previous))
      ==> TypeIsRead(types[k], parse(values[k], previous))
  }

  predicate CleanSoFar(last: seq<Option<RecordHeader>>) {
    forall i :: 0 <= i < |last| ==> CleanType(InheritedType(last[i]))
  }

  function ValuesIn(sorted: seq<HeaderEntry>): (values: seq<string>)
    ensures |values| == |sorted| && forall k :: 0 <= k < |sorted| ==> values[k] == sorted[k].value
  {
    seq(|sorted|, k requires 0 <= k < |sorted| => sorted[k].value)
  }

  /** A type that was read: always a clean one, and the original one exactly when that was clean. */
  predicate TypeCameBack(got: string, contentType: string) {
    CleanType(got) && (got == contentType <==> CleanType(contentType))
  }

  lemma {:induction false} DecodedTypes(
    sorted: seq<HeaderEntry>, pos: nat, entries: seq<string>, startTs: nat, parse: HeaderParser,
    last: seq<Option<RecordHeader>>, types: seq<string>)
    requires pos <= |sorted| == |types| && |last| == |entries| && CleanSoFar(last)
    requires forall k :: 0 <= k < |sorted| ==> sorted[k].idx < |entries|
    requires TypesParse(ValuesIn(sorted), types, parse)
    ensures var d := DecodeFrom(sorted, pos, entries, startTs, parse, last);
            && d.Some? && |d.value| == |sorted| - pos
            && forall j :: pos <= j < |sorted| ==> TypeCameBack(d.value[j - pos].contentType, types[j])
    decreases |sorted| - pos
  {
    if pos < |sorted| {
      var h := sorted[pos];
      TypeAt(ValuesIn(sorted), types, parse, pos, last[h.idx]);
      var header := parse(h.value, last[h.idx]).header;
      StillClean(last, h.idx, header);
      DecodedTypes(sorted, pos + 1, entries, startTs, parse, last[h.idx := Some(header)], types);
      var rest := DecodeFrom(sorted, pos + 1, entries, startTs, parse, last[h.idx := Some(header)]).value;
      RoundTripV2.DecodeStep(sorted, pos, h, entries, startTs, parse, last, header, rest);
      var d := DecodeFrom(sorted, pos, entries, startTs, parse, last).value;
      assert d == [RecordFor(entries[h.idx], startTs + h.delta, header)] + rest;
      forall j | pos <= j < |sorted| ensures TypeCameBack(d[j - pos].contentType, types[j]) {
        if j > pos {
          assert d[j - pos] == rest[j - (pos + 1)];
        }
      }
    }
  }

  lemma {:induction false} StillClean(last: seq<Option<RecordHeader>>, i: nat, header: RecordHeader)
    requires CleanSoFar(last) && i < |last| && CleanType(header.contentType)
    ensures CleanSoFar(last[i := Some(header)])
  {
  }

  lemma {:induction false} TypeAt(
    values: seq<string>, types: seq<string>, parse: HeaderParser, k: nat, previous: Option<RecordHeader>)
    requires |values| == |types| && k < |values| && TypesParse(values, types, parse)
    requires CleanType(InheritedType(previous))
    ensures parse(values[k], previous).Parsed?
    ensures TypeCameBack(parse(values[k], previous).header.contentType, types[k])
  {
    assert TypeIsRead(types[k], parse(values[k], previous));
  }

  /** Which sent record each of the sorted headers belongs to. */
  lemma {:induction false} Origins(
    sorted: seq<HeaderEntry>, names: seq<string>, micros: seq<nat>, values: seq<string>, n: nat)
    returns (origins: seq<nat>)
    requires Fits(micros) && |names| == |micros| == |values| && SortedFrom(sorted, names, micros, values)
    requires n <= |sorted|
    ensures AreOrigins(origins, sorted[..n], names, micros, values)
  {
    if n == 0 {
      origins := [];
    } else {
      origins := Origins(sorted, names, micros, values, n - 1);
      var m := SortedSent(sorted, names, micros, values, n - 1);
      origins := origins + [m];
    }
  }

  function TypesOf(sent: seq<BatchRecord>, origins: seq<nat>): (types: seq<string>)
    requires forall k :: 0 <= k < |origins| ==> origins[k] < |sent|
    ensures |types| == |origins| && forall k :: 0 <= k < |origins| ==> types[k] == sent[origins[k]].contentType
  {
    seq(|origins|, k requires 0 <= k < |origins| => sent[origins[k]].contentType)
  }

  lemma {:induction false} SortedTypesParse(
    sorted: seq<HeaderEntry>, sent: seq<BatchRecord>, origins: seq<nat>)
    requires |sorted| == |origins| && forall k :: 0 <= k < |origins| ==> origins[k] < |sent|
    requires forall k :: 0 <= k < |sorted| ==>
               sent[origins[k]].size < U64 && sorted[k].value == HeaderValue(sent[origins[k]], Write)
    ensures TypesParse(ValuesIn(sorted), TypesOf(sent, origins), ParserFor(None))
  {
    var values, types, parse := ValuesIn(sorted), TypesOf(sent, origins), ParserFor(None);
    forall k, previous | 0 <= k < |values| && CleanType(InheritedType(previous))
      ensures TypeIsRead(types[k], parse(values[k], previous))
    {
      TypeComesBack(sent[origins[k]], previous);
    }
  }

  lemma {:induction false} MarkLastTypes(records: seq<ReadableRecord>, headers: Headers)
    ensures var marked := MarkLast(records, headers);
            |marked| == |records| && forall k :: 0 <= k < |records| ==> marked[k].contentType == records[k].contentType
  {
  }

  /** The k-th decoded record is the one that was sent as the m-th, as its entry and its time say. */
  predicate IsFor(got: ReadableRecord, sent: BatchRecord, defaultEntry: string) {
    got.entry == RecordEntry(sent, defaultEntry) && got.timestamp == 1000 * ToMicroseconds(sent.timestamp)
  }

  lemma {:induction false} OriginRead(got: ReadableRecord, h: HeaderEntry, names: seq<string>, micros: seq<nat>, m: nat)
    requires Fits(micros) && |names| == |micros| && m < |names| && h.idx < |EntryList(names)|
    requires h.idx == IndexOf(names, m) && h.delta == DeltaOf(micros, m)
    requires ReadsAs(got, h, EntryList(names), StartTs(micros))
    ensures got.entry == names[m] && got.timestamp == FromMicroseconds(micros[m])
  {
  }

  lemma {:induction false} NamedIsFor(
    records: seq<BatchRecord>, defaultEntry: string, order: seq<nat>, got: ReadableRecord, m: nat)
    requires ValidOrder(records, order) && InRange(records) && m < |order|
    requires got.entry == Names(records, defaultEntry, order)[m]
    requires got.timestamp == FromMicroseconds(Micros(records, order)[m])
    ensures IsFor(got, records[order[m]], defaultEntry)
  {
    MicrosSigned(records[order[m]]);
  }

  /** The sorted headers are those of some sent records. */
  ghost predicate AreOrigins(
    origins: seq<nat>, sorted: seq<HeaderEntry>, names: seq<string>, micros: seq<nat>, values: seq<string>)
    requires Fits(micros) && |names| == |micros| == |values|
  {
    && |origins| == |sorted|
    && forall k :: 0 <= k < |sorted| ==>
         && origins[k] < |names|
         && sorted[k] == HeaderEntry(IndexOf(names, origins[k]), DeltaOf(micros, origins[k]), values[origins[k]])
  }

  lemma {:induction false} OriginNames(
    sorted: seq<HeaderEntry>, names: seq<string>, micros: seq<nat>, values: seq<string>, parse: HeaderParser,
    plain: seq<ReadableRecord>, origins: seq<nat>, k: nat)
    requires Fits(micros) && |names| == |micros| == |values| && SortedFrom(sorted, names, micros, values)
    requires AlwaysParses(values, parse) && AreOrigins(origins, sorted, names, micros, values)
    requires var entries := EntryList(names);
             DecodeFrom(sorted, 0, entries, StartTs(micros), parse, NoHeaders(|entries|)) == Some(plain)
    requires k < |plain|
    ensures |plain| == |sorted| == |names|
    ensures plain[k].entry == names[origins[k]] && plain[k].timestamp == FromMicroseconds(micros[origins[k]])
  {
    SortedDecodes(sorted, names, micros, values, parse);
    OriginRead(plain[k], sorted[k], names, micros, origins[k]);
  }

  lemma {:induction false} OriginTypes(
    sorted: seq<HeaderEntry>, names: seq<string>, micros: seq<nat>, sent: seq<BatchRecord>,
    plain: seq<ReadableRecord>, origins: seq<nat>)
    requires Fits(micros) && |names| == |micros| == |sent| && forall k :: 0 <= k < |sent| ==> sent[k].size < U64
    requires AreOrigins(origins, sorted, names, micros, ValuesOf(sent, Write))
    requires var entries := EntryList(names);
             DecodeFrom(sorted, 0, entries, StartTs(micros), ParserFor(None), NoHeaders(|entries|)) == Some(plain)
    ensures |plain| == |sorted|
    ensures forall k :: 0 <= k < |plain| ==> TypeCameBack(plain[k].contentType, sent[origins[k]].contentType)
  {
    OriginValues(origins, sorted, names, micros, sent);
    SortedTypesParse(sorted, sent, origins);
    NoHeadersAreClean(|EntryList(names)|);
    TypesFrom(sorted, EntryList(names), StartTs(micros), ParserFor(None), TypesOf(sent, origins), plain);
  }

  lemma {:induction false} OriginValues(
    origins: seq<nat>, sorted: seq<HeaderEntry>, names: seq<string>, micros: seq<nat>, sent: seq<BatchRecord>)
    requires Fits(micros) && |names| == |micros| == |sent|
    requires AreOrigins(origins, sorted, names, micros, ValuesOf(sent, Write))
    ensures |origins| == |sorted|
    ensures forall k :: 0 <= k < |sorted| ==>
              && origins[k] < |sent| && sorted[k].idx < |EntryList(names)|
              && sorted[k].value == HeaderValue(sent[origins[k]], Write)
  {
  }

  lemma {:induction false} NoHeadersAreClean(n: nat)
    ensures CleanSoFar(NoHeaders(n))
  {
    assert CleanType(InheritedType(None));
  }

  lemma {:induction false} TypesFrom(
    sorted: seq<HeaderEntry>, entries: seq<string>, startTs: nat, parse: HeaderParser, types: seq<string>,
    plain: seq<ReadableRecord>)
    requires |sorted| == |types| && CleanSoFar(NoHeaders(|entries|))
    requires forall k :: 0 <= k < |sorted| ==> sorted[k].idx < |entries|
    requires TypesParse(ValuesIn(sorted), types, parse)
    requires DecodeFrom(sorted, 0, entries, startTs, parse, NoHeaders(|entries|)) == Some(plain)
    ensures |plain| == |sorted| && forall k :: 0 <= k < |plain| ==> TypeCameBack(plain[k].contentType, types[k])
  {
    DecodedTypes(sorted, 0, entries, startTs, parse, NoHeaders(|entries|), types);
    forall k | 0 <= k < |plain| ensures TypeCameBack(plain[k].contentType, types[k]) {
      assert TypeCameBack(plain[k - 0].contentType, types[k]);
    }
  }

  /** Each decoded record is for one of the sent records, and its type came back from that one. */
  predicate ComeFrom(
    decoded: seq<ReadableRecord>, records: seq<BatchRecord>, defaultEntry: string, order: seq<nat>, origins: seq<nat>)
    requires ValidOrder(records, order)
  {
    && |decoded| == |origins|
    && forall k :: 0 <= k < |origins| ==>
         && origins[k] < |order| && IsFor(decoded[k], records[order[origins[k]]], defaultEntry)
         && TypeCameBack(decoded[k].contentType, records[order[origins[k]]].contentType)
  }

  lemma {:induction false} SortedComeFrom(
    records: seq<BatchRecord>, defaultEntry: string, order: seq<nat>, sorted: seq<HeaderEntry>,
    plain: seq<ReadableRecord>)
    returns (origins: seq<nat>)
    requires ValidOrder(records, order) && InRange(records)
    requires var names, micros := Names(records, defaultEntry, order), Micros(records, order);
             var values, entries := Values(records, order), EntryList(names);
             && Fits(micros) && SortedFrom(sorted, names, micros, values) && AlwaysParses(values, ParserFor(None))
             && DecodeFrom(sorted, 0, entries, StartTs(micros), ParserFor(None), NoHeaders(|entries|)) == Some(plain)
    ensures ComeFrom(plain, records, defaultEntry, order, origins)
  {
    var sent := InOrder(records, order);
    var names, micros, values := Names(records, defaultEntry, order), Micros(records, order), Values(records, order);
    origins := Origins(sorted, names, micros, values, |sorted|);
    assert sorted[..|sorted|] == sorted;
    OriginTypes(sorted, names, micros, sent, plain, origins);
    forall k | 0 <= k < |plain| ensures IsFor(plain[k], records[order[origins[k]]], defaultEntry) {
      OriginIsFor(records, defaultEntry, order, sorted, plain, origins, k);
    }
  }

  lemma {:induction false} OriginIsFor(
    records: seq<BatchRecord>, defaultEntry: string, order: seq<nat>, sorted: seq<HeaderEntry>,
    plain: seq<ReadableRecord>, origins: seq<nat>, k: nat)
    requires ValidOrder(records, order) && InRange(records) && k < |plain|
    requires var names, micros := Names(records, defaultEntry, order), Micros(records, order);
             var values, entries := Values(records, order), EntryList(names);
             && Fits(micros) && SortedFrom(sorted, names, micros, values) && AlwaysParses(values, ParserFor(None))
             && DecodeFrom(sorted, 0, entries, StartTs(micros), ParserFor(None), NoHeaders(|entries|)) == Some(plain)
             && AreOrigins(origins, sorted, names, micros, values)
    ensures |origins| == |plain| && origins[k] < |order|
    ensures IsFor(plain[k], records[order[origins[k]]], defaultEntry)
  {
    var names, micros, values := Names(records, defaultEntry, order), Micros(records, order), Values(records, order);
    OriginNames(sorted, names, micros, values, ParserFor(None), plain, origins, k);
    NamedIsFor(records, defaultEntry, order, plain[k], origins[k]);
  }

  lemma {:induction false} MarkedComeFrom(
    plain: seq<ReadableRecord>, headers: Headers, records: seq<BatchRecord>, defaultEntry: string, order: seq<nat>,
    origins: seq<nat>)
    requires ValidOrder(records, order) && ComeFrom(plain, records, defaultEntry, order, origins)
    ensures ComeFrom(MarkLast(plain, headers), records, defaultEntry, order, origins)
  {
    MarkLastKeeps(plain, headers);
    MarkLastTypes(plain, headers);
    var marked := MarkLast(plain, headers);
    forall k | 0 <= k < |origins|
      ensures IsFor(marked[k], records[order[origins[k]]], defaultEntry)
      ensures TypeCameBack(marked[k].contentType, records[order[origins[k]]].contentType)
    {
      assert marked[k].contentType == plain[k].contentType;
    }
  }

  lemma {:induction false} ExchangedTypes(x: Exchange) returns (origins: seq<nat>)
    requires Exchanged(x) && DistinctMicros(x.records, x.defaultEntry)
    ensures ValidOrder(x.records, x.request.ordered) && x.decoded.Some? && |x.decoded.value| == |x.records|
    ensures ComeFrom(x.decoded.value, x.records, x.defaultEntry, x.request.ordered, origins)
  {
    ExchangeSorts(x);
    var plain := AllComeBack(x);
    MarkLastKeeps(plain, x.headers);
    origins := SortedComeFrom(x.records, x.defaultEntry, x.request.ordered, x.sorted, plain);
    MarkedComeFrom(plain, x.headers, x.records, x.defaultEntry, x.request.ordered, origins);
  }

  /**
   The content type of a record comes back exactly when it is not empty, has no comma and no blanks
   around it. In every other case the receiver sees some other type, never an empty one. Entry and time
   tell which record that is, in whatever order they come back.
   */
  lemma {:induction false} TypeRoundTrip(x: Exchange, i: nat, k: nat)
    requires Exchanged(x) && DistinctMicros(x.records, x.defaultEntry) && i < |x.records| && k < |x.records|
    ensures x.decoded.Some? && |x.decoded.value| == |x.records|
    ensures IsFor(x.decoded.value[k], x.records[i], x.defaultEntry) ==>
              TypeCameBack(x.decoded.value[k].contentType, x.records[i].contentType)
  {
    var origins := ExchangedTypes(x);
    var j := x.request.ordered[origins[k]];
    if IsFor(x.decoded.value[k], x.records[i], x.defaultEntry) {
      SameRecord(x.records, x.defaultEntry, i, j);
    }
  }

  lemma {:induction false} SameRecord(records: seq<BatchRecord>, defaultEntry: string, i: nat, j: nat)
    requires DistinctMicros(records, defaultEntry) && i < |records| && j < |records|
    requires RecordEntry(records[i], defaultEntry) == RecordEntry(records[j], defaultEntry)
    requires ToMicroseconds(records[i].timestamp) == ToMicroseconds(records[j].timestamp)
    ensures i == j
  {
    assert MicrosOf(records[i]) == MicrosOf(records[j]);
    assert i < j || j < i || i == j;
  }

  // ---- The left fold ----

  /** What a record is read as on top of the header before it: inherit, override, erase on empty. */
  function FoldStep(record: BatchRecord, previous: Option<RecordHeader>): RecordHeader {
    RecordHeader(
      record.size,
      if TypeText(record) == "" then InheritedType(previous) else TypeText(record),
      TextRead(LabelsIn(record), InheritedLabels(previous)))
  }

  type Fold = (BatchRecord, Option<RecordHeader>) -> RecordHeader

  /** What is learnt about the k-th record by folding over the records of its entry up to it. */
  function FoldOver(fold: Fold, names: seq<string>, sent: seq<BatchRecord>, k: nat): RecordHeader
    requires |names| == |sent| && k < |sent|
    decreases k, 1
  {
    fold(sent[k], FoldedBefore(fold, names, sent, k))
  }

  function FoldedBefore(fold: Fold, names: seq<string>, sent: seq<BatchRecord>, k: nat): Option<RecordHeader>
    requires |names| == |sent| && k < |sent|
    decreases k, 0
  {
    if k > 0 && names[k - 1] == names[k] then Some(FoldOver(fold, names, sent, k - 1)) else None
  }

  /** The left fold over the records of one entry. */
  function Folded(names: seq<string>, sent: seq<BatchRecord>, k: nat): RecordHeader
    requires |names| == |sent| && k < |sent|
  {
    FoldOver(FoldStep, names, sent, k)
  }

  ghost predicate HeadersFold(fold: Fold, values: seq<string>, sent: seq<BatchRecord>, parse: HeaderParser)
    requires |values| == |sent|
  {
    forall k, previous :: 0 <= k < |values| ==> parse(values[k], previous) == Parsed(fold(sent[k], previous))
  }

  lemma {:induction false} WrittenHeadersFold(sent: seq<BatchRecord>)
    requires forall k :: 0 <= k < |sent| ==> sent[k].size < U64
    ensures HeadersFold(FoldStep, ValuesOf(sent, Write), sent, ParserFor(None))
  {
    var values, parse := ValuesOf(sent, Write), ParserFor(None);
    forall k, previous | 0 <= k < |values| ensures parse(values[k], previous) == Parsed(FoldStep(sent[k], previous)) {
      HeaderIsRead(sent[k], previous);
    }
  }

  lemma {:induction false} HeaderIsFolded(
    fold: Fold, names: seq<string>, values: seq<string>, sent: seq<BatchRecord>, parse: HeaderParser, k: nat)
    requires |names| == |values| == |sent| && k < |sent|
    requires AlwaysParses(values, parse) && HeadersFold(fold, values, sent, parse)
    ensures HeaderAt(names, values, parse, k) == FoldOver(fold, names, sent, k)
  {
    if k > 0 && names[k - 1] == names[k] {
      HeaderIsFolded(fold, names, values, sent, parse, k - 1);
    }
  }

  lemma {:induction false} SentHeader(records: seq<BatchRecord>, defaultEntry: string, order: seq<nat>, k: nat)
    requires ValidOrder(records, order) && InRange(records) && k < |order|
    requires AlwaysParses(Values(records, order), ParserFor(None))
    ensures HeaderAt(Names(records, defaultEntry, order), Values(records, order), ParserFor(None), k)
            == Folded(Names(records, defaultEntry, order), InOrder(records, order), k)
  {
    var sent := InOrder(records, order);
    WrittenHeadersFold(sent);
    HeaderIsFolded(FoldStep, Names(records, defaultEntry, order), Values(records, order), sent, ParserFor(None), k);
  }

  lemma {:induction false} DecodesFold(
    records: seq<BatchRecord>, defaultEntry: string, order: seq<nat>, headers: Headers,
    decoded: Option<seq<ReadableRecord>>, k: nat)
    requires Decodes(records, defaultEntry, order, headers, decoded) && k < |records|
    ensures decoded.Some? && |decoded.value| == |records|
    ensures var folded := Folded(Names(records, defaultEntry, order), InOrder(records, order), k);
            decoded.value[k].contentType == folded.contentType && decoded.value[k].labels == folded.labels
  {
    DecodedAt(records, defaultEntry, order, headers, decoded, k);
    SentHeader(records, defaultEntry, order, k);
  }

  /** Content type and labels of every record, whatever they are, are the left fold over its entry. */
  lemma {:induction false} InheritanceRoundTrip(x: Exchange, k: nat)
    requires Exchanged(x) && DistinctMicros(x.records, x.defaultEntry) && OneSided(x.records, x.defaultEntry)
    requires k < |x.records|
    ensures x.decoded.Some? && AllMetadata(x.records, x.defaultEntry, x.request.ordered, x.headers, x.decoded.value)
    ensures var order := x.request.ordered;
            var folded := Folded(Names(x.records, x.defaultEntry, order), InOrder(x.records, order), k);
            x.decoded.value[k].contentType == folded.contentType && x.decoded.value[k].labels == folded.labels
  {
    ExchangeDecodes(x);
    DecodesMetadata(x.records, x.defaultEntry, x.request.ordered, x.headers, x.decoded);
    DecodesFold(x.records, x.defaultEntry, x.request.ordered, x.headers, x.decoded, k);
  }

  // ---- Records that the parser takes apart again ----

  /** A content type without commas and well-formed labels. */
  predicate Readable(record: BatchRecord) {
    record.size < U64 && ',' !in record.contentType && WellFormed(record.labels)
  }

  predicate AllReadable(sent: seq<BatchRecord>) {
    forall k :: 0 <= k < |sent| ==> Readable(sent[k])
  }

  /** They override labels, and erase them on empty. */
  lemma {:induction false} ReadableStep(record: BatchRecord, previous: Option<RecordHeader>)
    requires Readable(record)
    ensures FoldStep(record, previous).labels == Overridden(InheritedLabels(previous), record.labels)
  {
    HeaderIsRead(record, previous);
    RecordHeaderComesBack(record, previous);
  }

  /** No record has an empty label value, or lacks a label of the record before it in its entry. */
  predicate LabelsGrow(names: seq<string>, sent: seq<BatchRecord>)
    requires |names| == |sent|
  {
    forall k :: 0 <= k < |sent| ==>
      && (forall key <- sent[k].labels :: sent[k].labels[key] != "")
      && (k > 0 && names[k - 1] == names[k] ==> sent[k - 1].labels.Keys <= sent[k].labels.Keys)
  }

  /** The labels that the k-th record is read on top of. */
  function LabelsBefore(names: seq<string>, sent: seq<BatchRecord>, k: nat): LabelMap
    requires |names| == |sent| && k < |sent|
  {
    if k > 0 && names[k - 1] == names[k] then Folded(names, sent, k - 1).labels else map[]
  }

  lemma {:induction false} FoldedLabels(names: seq<string>, sent: seq<BatchRecord>, k: nat)
    requires |names| == |sent| && k < |sent| && AllReadable(sent)
    ensures Folded(names, sent, k).labels == Overridden(LabelsBefore(names, sent, k), sent[k].labels)
  {
    var previous := FoldedBefore(FoldStep, names, sent, k);
    assert FoldOver(FoldStep, names, sent, k) == FoldStep(sent[k], previous);
    assert InheritedLabels(previous) == LabelsBefore(names, sent, k);
    assert Readable(sent[k]);
    ReadableStep(sent[k], previous);
  }

  lemma {:induction false} GrowingLabelsFold(names: seq<string>, sent: seq<BatchRecord>, k: nat)
    requires |names| == |sent| && k < |sent| && AllReadable(sent) && LabelsGrow(names, sent)
    ensures Folded(names, sent, k).labels == sent[k].labels
  {
    FoldedLabels(names, sent, k);
    var before := LabelsBefore(names, sent, k);
    if k > 0 && names[k - 1] == names[k] {
      GrowingLabelsFold(names, sent, k - 1);
      assert before == sent[k - 1].labels;
    } else {
      assert before == map[];
    }
    GrownLabels(before, sent[k].labels);
  }

  lemma {:induction false} GrownLabels(before: LabelMap, labels: LabelMap)
    requires (forall key <- labels :: labels[key] != "") && before.Keys <= labels.Keys
    ensures Overridden(before, labels) == labels
  {
    OverriddenIsFull(before, labels);
  }

  /** The fold gives every record its own labels exactly when labels grow. */
  lemma {:induction false} LabelsFold(names: seq<string>, sent: seq<BatchRecord>)
    requires |names| == |sent| && AllReadable(sent)
    ensures (forall k :: 0 <= k < |sent| ==> Folded(names, sent, k).labels == sent[k].labels)
            <==> LabelsGrow(names, sent)
  {
    if LabelsGrow(names, sent) {
      forall k | 0 <= k < |sent| ensures Folded(names, sent, k).labels == sent[k].labels {
        GrowingLabelsFold(names, sent, k);
      }
    }
    if forall k :: 0 <= k < |sent| ==> Folded(names, sent, k).labels == sent[k].labels {
      forall k | 0 <= k < |sent|
        ensures forall key <- sent[k].labels :: sent[k].labels[key] != ""
        ensures k > 0 && names[k - 1] == names[k] ==> sent[k - 1].labels.Keys <= sent[k].labels.Keys
      {
        FoldedLabels(names, sent, k);
        OverriddenIsFull(LabelsBefore(names, sent, k), sent[k].labels);
      }
    }
  }

  predicate LabelsKept(decoded: seq<ReadableRecord>, sent: seq<BatchRecord>)
    requires |decoded| == |sent|
  {
    forall k :: 0 <= k < |sent| ==> decoded[k].labels == sent[k].labels
  }

  lemma {:induction false} LabelsCompared(decoded: seq<ReadableRecord>, names: seq<string>, sent: seq<BatchRecord>)
    requires |decoded| == |names| == |sent| && AllReadable(sent)
    requires forall k :: 0 <= k < |sent| ==> decoded[k].labels == Folded(names, sent, k).labels
    ensures LabelsKept(decoded, sent) <==> LabelsGrow(names, sent)
  {
    LabelsFold(names, sent);
  }

  lemma {:induction false} DecodesLabels(
    records: seq<BatchRecord>, defaultEntry: string, order: seq<nat>, headers: Headers,
    decoded: Option<seq<ReadableRecord>>)
    requires Decodes(records, defaultEntry, order, headers, decoded) && AllReadable(records) && records != []
    ensures decoded.Some? && |decoded.value| == |records|
    ensures LabelsKept(decoded.value, InOrder(records, order))
            <==> LabelsGrow(Names(records, defaultEntry, order), InOrder(records, order))
  {
    MetadataAt(records, defaultEntry, order, headers, decoded, 0);
    var names, sent := Names(records, defaultEntry, order), InOrder(records, order);
    assert AllReadable(sent);
    forall k | 0 <= k < |records| ensures decoded.value[k].labels == Folded(names, sent, k).labels {
      DecodesFold(records, defaultEntry, order, headers, decoded, k);
    }
    LabelsCompared(decoded.value, names, sent);
  }

  /**
   The encoder writes full label sets and the decoder reads them as deltas: all labels come back exactly
   when no value is empty and no record lacks a label of the record sent before it in its entry.
   */
  lemma {:induction false} LabelsRoundTrip(x: Exchange)
    requires Exchanged(x) && DistinctMicros(x.records, x.defaultEntry) && OneSided(x.records, x.defaultEntry)
    requires AllReadable(x.records)
    ensures x.decoded.Some? && AllMetadata(x.records, x.defaultEntry, x.request.ordered, x.headers, x.decoded.value)
    ensures var order := x.request.ordered;
            LabelsKept(x.decoded.value, InOrder(x.records, order))
            <==> LabelsGrow(Names(x.records, x.defaultEntry, order), InOrder(x.records, order))
  {
    ExchangeDecodes(x);
    DecodesMetadata(x.records, x.defaultEntry, x.request.ordered, x.headers, x.decoded);
    DecodesLabels(x.records, x.defaultEntry, x.request.ordered, x.headers, x.decoded);
  }
}
