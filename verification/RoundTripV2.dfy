/** Decoding what BuildBatchV2Request encoded. */
module RoundTripV2 {
  import opened Wrappers
  import opened Numbers
  import opened Ordering
  import opened Batches
  import opened SendOrder
  import opened HeadersV2
  import opened RequestV2
  import opened ResponseV2

  // The range of system_clock in nanoseconds.
  const CLOCK_MAX: int := 0x8000_0000_0000_0000

  predicate FitsClock(t: Time) {
    -CLOCK_MAX <= t < CLOCK_MAX
  }

  /** Timestamps that fit the clock, and lengths and counts that fit their type. */
  predicate InRange(records: seq<BatchRecord>) {
    |records| < U64 && forall k :: 0 <= k < |records| ==> FitsClock(records[k].timestamp) && records[k].size < U64
  }

  /** No entry has records both before and after the epoch, to the microsecond. */
  predicate OneSided(records: seq<BatchRecord>, defaultEntry: string) {
    forall i, j :: 0 <= i < |records| && 0 <= j < |records| ==>
      RecordEntry(records[i], defaultEntry) == RecordEntry(records[j], defaultEntry) ==>
        (ToMicroseconds(records[i].timestamp) < 0 <==> ToMicroseconds(records[j].timestamp) < 0)
  }

  /** The 64-bit timestamps of one entry do not decrease. */
  predicate TimesAscend(names: seq<string>, micros: seq<nat>)
    requires |names| == |micros|
  {
    forall p, q :: 0 <= p < q < |names| && names[p] == names[q] ==> micros[p] <= micros[q]
  }

  /** No two records of one entry fall into the same microsecond. */
  predicate DistinctKeys(names: seq<string>, micros: seq<nat>)
    requires |names| == |micros|
  {
    forall p, q :: 0 <= p < q < |names| ==> names[p] != names[q] || micros[p] != micros[q]
  }

  /** A response with the record headers, the entry list and the base timestamp of a request. */
  ghost predicate Carries(headers: Headers, request: Headers) {
    && HEADER_LABELS !in headers
    && HEADER_ENTRIES in headers && HEADER_ENTRIES in request && headers[HEADER_ENTRIES] == request[HEADER_ENTRIES]
    && HEADER_START_TS in headers && HEADER_START_TS in request && headers[HEADER_START_TS] == request[HEADER_START_TS]
    && forall name :: ParseBatchedHeaderName(name).Some? ==>
         (name in headers <==> name in request) && (name in headers ==> headers[name] == request[name])
  }

  // ---- First-appearance numbering is monotone ----

  predicate LexSorted(names: seq<string>) {
    forall p, q :: 0 <= p < q < |names| ==> names[p] == names[q] || LexLess(names[p], names[q])
  }

  /** Over sorted names the list of distinct names is strictly sorted. */
  lemma {:induction false} DistinctIsSorted(names: seq<string>, n: nat)
    requires LexSorted(names) && n <= |names|
    ensures forall i, j :: 0 <= i < j < |Distinct(names, n)| ==> LexLess(Distinct(names, n)[i], Distinct(names, n)[j])
  {
    if n > 0 {
      DistinctIsSorted(names, n - 1);
      DistinctFrom(names, n - 1);
      var before := Distinct(names, n - 1);
      forall i | 0 <= i < |before| && names[n - 1] !in before ensures LexLess(before[i], names[n - 1]) {
        assert before[i] in before;
        var k :| 0 <= k < n - 1 && names[k] == before[i];
      }
    }
  }

  /** Entry indices follow the order of the names. */
  lemma {:induction false} IndexFollowsNames(names: seq<string>, p: nat, q: nat)
    requires LexSorted(names) && p < q < |names|
    ensures if names[p] == names[q] then IndexOf(names, p) == IndexOf(names, q)
            else IndexOf(names, p) < IndexOf(names, q)
  {
    DistinctIsSorted(names, |names|);
    var entries := EntryList(names);
    var i, j := IndexOf(names, p), IndexOf(names, q);
    LexIrreflexive(names[p]);
    if j < i && names[p] != names[q] {
      LexTransitive(names[p], names[q], names[p]);
    }
  }

  /** In send order the names are sorted. */
  lemma {:induction false} SentIsSorted(records: seq<BatchRecord>, defaultEntry: string, order: seq<nat>)
    requires IsSendOrder(records, defaultEntry, true, order) && ValidOrder(records, order)
    ensures LexSorted(EntriesOf(InOrder(records, order), defaultEntry))
  {
    var names := EntriesOf(InOrder(records, order), defaultEntry);
    forall p, q | 0 <= p < q < |names| ensures names[p] == names[q] || LexLess(names[p], names[q]) {
      SendOrderGroups(records, defaultEntry, order, p, q);
    }
  }

  /** A time before the epoch wraps around to a number larger than that of any time after it. */
  lemma {:induction false} MicrosCompare(a: BatchRecord, b: BatchRecord)
    requires FitsClock(a.timestamp) && FitsClock(b.timestamp) && a.timestamp <= b.timestamp
    ensures MicrosOf(a) <= MicrosOf(b)
            <==> (ToMicroseconds(a.timestamp) < 0 <==> ToMicroseconds(b.timestamp) < 0)
  {
    MicrosSigned(a);
    MicrosSigned(b);
  }

  lemma {:induction false} MicrosSigned(a: BatchRecord)
    requires FitsClock(a.timestamp)
    ensures var us := ToMicroseconds(a.timestamp);
            && -I64_MAX <= us < I64_MAX && MicrosOf(a) == if us < 0 then us + U64 else us
    ensures FromMicroseconds(MicrosOf(a)) == 1000 * ToMicroseconds(a.timestamp)
  {
  }

  /** In send order the 64-bit timestamps ascend exactly when no entry mixes signs. */
  lemma {:induction false} SentTimesAscend(records: seq<BatchRecord>, defaultEntry: string, order: seq<nat>)
    requires IsSendOrder(records, defaultEntry, true, order) && ValidOrder(records, order) && InRange(records)
    requires forall i :: 0 <= i < |records| ==> i in order
    ensures var sent := InOrder(records, order);
            TimesAscend(EntriesOf(sent, defaultEntry), MicrosIn(sent)) <==> OneSided(records, defaultEntry)
  {
    var sent := InOrder(records, order);
    var names, micros := EntriesOf(sent, defaultEntry), MicrosIn(sent);
    forall p, q | 0 <= p < q < |names| && names[p] == names[q]
      ensures micros[p] <= micros[q]
              <==> (ToMicroseconds(sent[p].timestamp) < 0 <==> ToMicroseconds(sent[q].timestamp) < 0)
    {
      SendOrderGroups(records, defaultEntry, order, p, q);
      MicrosCompare(sent[p], sent[q]);
    }
    if TimesAscend(names, micros) {
      AllSidesAgree(records, defaultEntry, order);
    }
  }

  lemma {:induction false} AllSidesAgree(records: seq<BatchRecord>, defaultEntry: string, order: seq<nat>)
    requires ValidOrder(records, order) && forall i :: 0 <= i < |records| ==> i in order
    requires var sent := InOrder(records, order);
             var names := EntriesOf(sent, defaultEntry);
             forall p, q :: 0 <= p < q < |names| && names[p] == names[q] ==>
               (ToMicroseconds(sent[p].timestamp) < 0 <==> ToMicroseconds(sent[q].timestamp) < 0)
    ensures OneSided(records, defaultEntry)
  {
    var sent := InOrder(records, order);
    var names := EntriesOf(sent, defaultEntry);
    forall i, j | 0 <= i < |records| && 0 <= j < |records|
      && RecordEntry(records[i], defaultEntry) == RecordEntry(records[j], defaultEntry)
      ensures ToMicroseconds(records[i].timestamp) < 0 <==> ToMicroseconds(records[j].timestamp) < 0
    {
      assert i in order && j in order;
      var p :| 0 <= p < |order| && order[p] == i;
      var q :| 0 <= q < |order| && order[q] == j;
      assert sent[p] == records[i] && sent[q] == records[j] && names[p] == names[q];
      assert p < q || q < p || i == j;
    }
  }

  // ---- The headers, sorted by the decoder, are those of the records in send order ----

  function SentEntries(names: seq<string>, micros: seq<nat>, values: seq<string>): (entries: seq<HeaderEntry>)
    requires Fits(micros) && |names| == |micros| == |values|
    ensures |entries| == |names|
    ensures forall k :: 0 <= k < |names| ==> entries[k] == HeaderEntry(IndexOf(names, k), DeltaOf(micros, k), values[k])
  {
    seq(|names|, k requires 0 <= k < |names| => HeaderEntry(IndexOf(names, k), DeltaOf(micros, k), values[k]))
  }

  /** Index and delta grow strictly along the send order. */
  lemma {:induction false} SentEntriesIncrease(names: seq<string>, micros: seq<nat>, values: seq<string>)
    requires Fits(micros) && |names| == |micros| == |values|
    requires LexSorted(names) && DistinctKeys(names, micros)
    requires TimesAscend(names, micros)
    ensures StrictlySorted(SentEntries(names, micros, values), HeaderOrder())
  {
    var entries := SentEntries(names, micros, values);
    forall p, q | 0 <= p < q < |entries|
      ensures HeaderOrder()(entries[p], entries[q]) && !HeaderOrder()(entries[q], entries[p])
    {
      IndexFollowsNames(names, p, q);
    }
  }

  lemma {:induction false} SentEntriesDistinct(names: seq<string>, micros: seq<nat>, values: seq<string>)
    requires Fits(micros) && |names| == |micros| == |values| && DistinctKeys(names, micros)
    ensures NoDuplicates(SentEntries(names, micros, values))
  {
    var entries := SentEntries(names, micros, values);
    forall p, q | 0 <= p < q < |entries| ensures entries[p] != entries[q] {
      assert names[p] != names[q] || micros[p] != micros[q];
    }
  }

  /** Every record header has the name that its index and delta print as. */
  ghost predicate Canonical(headers: Headers) {
    forall name <- headers :: var parsed := ParseBatchedHeaderName(name);
      parsed.Some? ==> name == HeaderKey(parsed.value.0, parsed.value.1)
  }

  /** Canonical names make the collected headers distinct. */
  lemma {:induction false} EntriesInDistinct(headers: Headers, it: seq<string>)
    requires NoDuplicates(it) && Canonical(headers)
    ensures NoDuplicates(EntriesIn(headers, it))
  {
    var read := ReaderOf(headers);
    forall i, j, x | 0 <= i < |it| && 0 <= j < |it| && x in read(it[i]) && x in read(it[j]) ensures it[i] == it[j] {
      ReadCanonical(headers, it[i], x);
      ReadCanonical(headers, it[j], x);
    }
    CollectDistinct(read, it, |it|);
  }

  lemma {:induction false} ReadCanonical(headers: Headers, name: string, x: HeaderEntry)
    requires Canonical(headers) && x in ReaderOf(headers)(name)
    ensures name in headers && name == HeaderKey(x.idx, x.delta) && x.value == headers[name]
    ensures ParseBatchedHeaderName(name) == Some((x.idx, x.delta))
  {
  }

  lemma {:induction false} KeyParses(names: seq<string>, micros: seq<nat>, k: nat)
    requires Fits(micros) && |names| == |micros| < U64 && k < |names|
    ensures ParseBatchedHeaderName(KeyOf(names, micros, k)) == Some((IndexOf(names, k), DeltaOf(micros, k)))
  {
    DistinctShorter(names, |names|);
    HeaderKeyComesBack(IndexOf(names, k), DeltaOf(micros, k));
  }

  /** The record headers of a request, and of a response that carries them. */
  lemma {:induction false} RecordHeaders(
    names: seq<string>, micros: seq<nat>, values: seq<string>, base: Headers,
    request: Headers, headers: Headers)
    requires Fits(micros) && |names| == |micros| == |values| < U64
    requires base.Keys == {HEADER_ENTRIES, HEADER_START_TS}
    requires Emplaced(request, base, KeysOf(names, micros), values, |names|)
    requires Carries(headers, request)
    ensures Canonical(headers)
    ensures forall name <- headers :: ParseBatchedHeaderName(name).Some?
              ==> exists k :: 0 <= k < |names| && name == KeyOf(names, micros, k)
    ensures forall k :: 0 <= k < |names| ==> KeyOf(names, micros, k) in headers
    ensures forall k :: 0 <= k < |names| ==>
              ParseBatchedHeaderName(KeyOf(names, micros, k)) == Some((IndexOf(names, k), DeltaOf(micros, k)))
    ensures forall k :: 0 <= k < |names| && FirstAt(KeysOf(names, micros), k)
              ==> headers[KeyOf(names, micros, k)] == values[k]
  {
    var keys := KeysOf(names, micros);
    OtherHeadersAreNoRecords();
    forall k | 0 <= k < |names|
      ensures ParseBatchedHeaderName(keys[k]) == Some((IndexOf(names, k), DeltaOf(micros, k)))
      ensures keys[k] in headers && keys[k] !in base
    {
      KeyParses(names, micros, k);
      assert keys[k] in request;
    }
    forall name | name in headers && ParseBatchedHeaderName(name).Some?
      ensures exists k :: 0 <= k < |names| && name == KeyOf(names, micros, k)
    {
      assert name in request && name !in base;
      var k :| 0 <= k < |names| && keys[k] == name;
    }
  }

  lemma {:induction false} DistinctShorter(names: seq<string>, n: nat)
    requires n <= |names|
    ensures |Distinct(names, n)| <= n
  {
    if n > 0 {
      DistinctShorter(names, n - 1);
    }
  }

  /** Keys collide exactly when entry and microsecond do. */
  lemma {:induction false} KeysCollide(names: seq<string>, micros: seq<nat>, p: nat, q: nat)
    requires Fits(micros) && |names| == |micros| && p < |names| && q < |names|
    ensures KeyOf(names, micros, p) == KeyOf(names, micros, q) <==> names[p] == names[q] && micros[p] == micros[q]
  {
    if KeyOf(names, micros, p) == KeyOf(names, micros, q) {
      HeaderKeyInjective(IndexOf(names, p), DeltaOf(micros, p), IndexOf(names, q), DeltaOf(micros, q));
    }
  }

  lemma {:induction false} FoundIsSent(
    names: seq<string>, micros: seq<nat>, values: seq<string>,
    headers: Headers, it: seq<string>, x: HeaderEntry)
    requires Fits(micros) && |names| == |micros| == |values| && Canonical(headers) && DistinctKeys(names, micros)
    requires forall name <- headers :: ParseBatchedHeaderName(name).Some?
               ==> exists k :: 0 <= k < |names| && name == KeyOf(names, micros, k)
    requires forall k :: 0 <= k < |names| ==>
               && KeyOf(names, micros, k) in headers
               && ParseBatchedHeaderName(KeyOf(names, micros, k)) == Some((IndexOf(names, k), DeltaOf(micros, k)))
    requires forall k :: 0 <= k < |names| && FirstAt(KeysOf(names, micros), k)
               ==> headers[KeyOf(names, micros, k)] == values[k]
    requires x in EntriesIn(headers, it)
    ensures x in SentEntries(names, micros, values)
  {
    var read := ReaderOf(headers);
    CollectMembers(read, it, |it|, x);
    var i :| 0 <= i < |it| && x in read(it[i]);
    ReadCanonical(headers, it[i], x);
    var k :| 0 <= k < |names| && it[i] == KeyOf(names, micros, k);
    AllFirst(names, micros, k);
    assert x == SentEntries(names, micros, values)[k];
  }

  lemma {:induction false} SentIsFound(
    names: seq<string>, micros: seq<nat>, values: seq<string>,
    headers: Headers, it: seq<string>, k: nat)
    requires Fits(micros) && |names| == |micros| == |values| && DistinctKeys(names, micros) && k < |names|
    requires KeyOf(names, micros, k) in headers
    requires ParseBatchedHeaderName(KeyOf(names, micros, k)) == Some((IndexOf(names, k), DeltaOf(micros, k)))
    requires FirstAt(KeysOf(names, micros), k) ==> headers[KeyOf(names, micros, k)] == values[k]
    requires Enumerates(it, headers.Keys)
    ensures SentEntries(names, micros, values)[k] in EntriesIn(headers, it)
  {
    var read, x := ReaderOf(headers), SentEntries(names, micros, values)[k];
    AllFirst(names, micros, k);
    var name := KeyOf(names, micros, k);
    assert name in headers.Keys && name in it;
    var i :| 0 <= i < |it| && it[i] == name;
    assert read(it[i]) == [x];
    CollectMembers(read, it, |it|, x);
  }

  lemma {:induction false} SameEntriesFrom(
    names: seq<string>, micros: seq<nat>, values: seq<string>, headers: Headers, it: seq<string>)
    requires Fits(micros) && |names| == |micros| == |values| && Canonical(headers) && DistinctKeys(names, micros)
    requires forall name <- headers :: ParseBatchedHeaderName(name).Some?
               ==> exists k :: 0 <= k < |names| && name == KeyOf(names, micros, k)
    requires forall k :: 0 <= k < |names| ==>
               && KeyOf(names, micros, k) in headers
               && ParseBatchedHeaderName(KeyOf(names, micros, k)) == Some((IndexOf(names, k), DeltaOf(micros, k)))
    requires forall k :: 0 <= k < |names| && FirstAt(KeysOf(names, micros), k)
               ==> headers[KeyOf(names, micros, k)] == values[k]
    requires Enumerates(it, headers.Keys)
    ensures forall x :: x in EntriesIn(headers, it) <==> x in SentEntries(names, micros, values)
  {
    var sent, found := SentEntries(names, micros, values), EntriesIn(headers, it);
    forall x | x in found ensures x in sent {
      FoundIsSent(names, micros, values, headers, it, x);
    }
    forall k | 0 <= k < |sent| ensures sent[k] in found {
      SentIsFound(names, micros, values, headers, it, k);
    }
  }

  /** The headers found in any order of the map are those of the sent records. */
  lemma {:induction false} SameEntries(
    names: seq<string>, micros: seq<nat>, values: seq<string>, base: Headers,
    request: Headers, headers: Headers, it: seq<string>)
    requires Fits(micros) && |names| == |micros| == |values| < U64
    requires base.Keys == {HEADER_ENTRIES, HEADER_START_TS}
    requires Emplaced(request, base, KeysOf(names, micros), values, |names|)
    requires Carries(headers, request) && DistinctKeys(names, micros)
    requires Enumerates(it, headers.Keys)
    requires NoDuplicates(SentEntries(names, micros, values))
    ensures multiset(EntriesIn(headers, it)) == multiset(SentEntries(names, micros, values))
  {
    RecordHeaders(names, micros, values, base, request, headers);
    EntriesInDistinct(headers, it);
    SameEntriesFrom(names, micros, values, headers, it);
    SameElementsSameMultiset(EntriesIn(headers, it), SentEntries(names, micros, values));
  }

  lemma {:induction false} AllFirst(names: seq<string>, micros: seq<nat>, k: nat)
    requires Fits(micros) && |names| == |micros| && k < |names| && DistinctKeys(names, micros)
    ensures FirstAt(KeysOf(names, micros), k)
  {
    forall j | 0 <= j < k ensures KeysOf(names, micros)[j] != KeysOf(names, micros)[k] {
      KeysCollide(names, micros, j, k);
    }
  }

  // ---- The pass over the sorted headers ----

  /** No header text is rejected or throws. */
  ghost predicate AlwaysParses(values: seq<string>, parse: HeaderParser) {
    forall k, previous :: 0 <= k < |values| ==> parse(values[k], previous).Parsed?
  }

  /** The header of the k-th sent record: a left fold over the records of its entry. */
  ghost function HeaderAt(names: seq<string>, values: seq<string>, parse: HeaderParser, k: nat): RecordHeader
    requires |names| == |values| && k < |names| && AlwaysParses(values, parse)
    decreases k, 1
  {
    parse(values[k], PreviousOf(names, values, parse, k)).header
  }

  /** The header before the k-th one in the same entry. */
  ghost function PreviousOf(names: seq<string>, values: seq<string>, parse: HeaderParser, k: nat): Option<RecordHeader>
    requires |names| == |values| && k <= |names| && AlwaysParses(values, parse)
    decreases k, 0
  {
    if 0 < k < |names| && names[k - 1] == names[k] then Some(HeaderAt(names, values, parse, k - 1)) else None
  }

  /** The records that decoding should give, from the k-th on. */
  ghost function ExpectedFrom(names: seq<string>, micros: seq<nat>, values: seq<string>, parse: HeaderParser, k: nat)
    : (records: seq<ReadableRecord>)
    requires |names| == |micros| == |values| && k <= |names| && AlwaysParses(values, parse)
    ensures |records| == |names| - k
    ensures forall j :: 0 <= j < |records| ==>
              records[j] == RecordFor(names[k + j], micros[k + j], HeaderAt(names, values, parse, k + j))
    decreases |names| - k
  {
    if k == |names| then []
    else [RecordFor(names[k], micros[k], HeaderAt(names, values, parse, k))]
         + ExpectedFrom(names, micros, values, parse, k + 1)
  }

  /** The first entry that no header before the k-th one belongs to. */
  function EntriesBefore(names: seq<string>, k: nat): nat
    requires k <= |names|
  {
    if k == 0 then 0 else IndexOf(names, k - 1) + 1
  }

  /** last_header before the k-th header: nothing yet for entries that come later. */
  ghost predicate LastIs(
    last: seq<Option<RecordHeader>>, names: seq<string>, values: seq<string>, parse: HeaderParser, k: nat)
    requires |names| == |values| && k <= |names| && AlwaysParses(values, parse)
  {
    && |last| == |EntryList(names)|
    && (forall i :: EntriesBefore(names, k) <= i < |last| ==> last[i] == None)
    && (k > 0 ==> last[IndexOf(names, k - 1)] == Some(HeaderAt(names, values, parse, k - 1)))
  }

  lemma {:induction false} LastGivesPrevious(
    last: seq<Option<RecordHeader>>, names: seq<string>, values: seq<string>, parse: HeaderParser, k: nat)
    requires |names| == |values| && k < |names| && AlwaysParses(values, parse) && LexSorted(names)
    requires LastIs(last, names, values, parse, k)
    ensures last[IndexOf(names, k)] == PreviousOf(names, values, parse, k)
    ensures LastIs(last[IndexOf(names, k) := Some(HeaderAt(names, values, parse, k))], names, values, parse, k + 1)
  {
    if k > 0 {
      IndexFollowsNames(names, k - 1, k);
    }
  }

  ghost predicate IsSent(sorted: seq<HeaderEntry>, names: seq<string>, micros: seq<nat>, values: seq<string>)
    requires Fits(micros) && |names| == |micros| == |values|
  {
    && |sorted| == |names|
    && forall k :: 0 <= k < |names| ==> sorted[k] == HeaderEntry(IndexOf(names, k), DeltaOf(micros, k), values[k])
  }

  lemma {:induction false} DecodeStep(
    sorted: seq<HeaderEntry>, pos: nat, entry: HeaderEntry, entries: seq<string>, startTs: nat,
    parse: HeaderParser, last: seq<Option<RecordHeader>>, header: RecordHeader, rest: seq<ReadableRecord>)
    requires pos < |sorted| && sorted[pos] == entry && |last| == |entries| && entry.idx < |entries|
    requires parse(entry.value, last[entry.idx]) == Parsed(header)
    requires DecodeFrom(sorted, pos + 1, entries, startTs, parse, last[entry.idx := Some(header)]) == Some(rest)
    ensures DecodeFrom(sorted, pos, entries, startTs, parse, last)
            == Some([RecordFor(entries[entry.idx], startTs + entry.delta, header)] + rest)
  {
  }

  /** The k-th sorted header, read on top of the header before it, makes the k-th expected record. */
  lemma {:induction false} DecodeOne(
    sorted: seq<HeaderEntry>, names: seq<string>, micros: seq<nat>, values: seq<string>, parse: HeaderParser,
    k: nat, last: seq<Option<RecordHeader>>)
    requires Fits(micros) && |names| == |micros| == |values| && k < |names|
    requires IsSent(sorted, names, micros, values) && AlwaysParses(values, parse)
    requires |last| == |EntryList(names)| && last[IndexOf(names, k)] == PreviousOf(names, values, parse, k)
    requires var after := last[IndexOf(names, k) := Some(HeaderAt(names, values, parse, k))];
             DecodeFrom(sorted, k + 1, EntryList(names), StartTs(micros), parse, after)
             == Some(ExpectedFrom(names, micros, values, parse, k + 1))
    ensures DecodeFrom(sorted, k, EntryList(names), StartTs(micros), parse, last)
            == Some(ExpectedFrom(names, micros, values, parse, k))
  {
    var entry := sorted[k];
    assert entry == HeaderEntry(IndexOf(names, k), DeltaOf(micros, k), values[k]);
    DecodeStep(sorted, k, entry, EntryList(names), StartTs(micros), parse, last, HeaderAt(names, values, parse, k),
               ExpectedFrom(names, micros, values, parse, k + 1));
  }

  lemma {:induction false} DecodeSent(
    sorted: seq<HeaderEntry>, names: seq<string>, micros: seq<nat>, values: seq<string>, parse: HeaderParser,
    k: nat, last: seq<Option<RecordHeader>>)
    requires Fits(micros) && |names| == |micros| == |values| && k <= |names|
    requires IsSent(sorted, names, micros, values)
    requires AlwaysParses(values, parse) && LexSorted(names)
    requires LastIs(last, names, values, parse, k)
    ensures DecodeFrom(sorted, k, EntryList(names), StartTs(micros), parse, last)
            == Some(ExpectedFrom(names, micros, values, parse, k))
    decreases |names| - k
  {
    if k < |names| {
      LastGivesPrevious(last, names, values, parse, k);
      var after := last[IndexOf(names, k) := Some(HeaderAt(names, values, parse, k))];
      DecodeSent(sorted, names, micros, values, parse, k + 1, after);
      DecodeOne(sorted, names, micros, values, parse, k, last);
    }
  }
}
