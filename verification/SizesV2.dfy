/** The sizes of decoded records add up to those of the sent ones, in whatever order the records come back. */
module SizesV2 {
  import opened Wrappers
  import opened Numbers
  import opened Batches
  import opened HeadersV2
  import opened RequestV2
  import opened ResponseV2
  import opened RoundTripV2
  import opened MetadataV2

  function SizesOf(decoded: seq<ReadableRecord>): (sizes: seq<nat>)
    ensures |sizes| == |decoded| && forall k :: 0 <= k < |decoded| ==> sizes[k] == decoded[k].size
  {
    seq(|decoded|, k requires 0 <= k < |decoded| => decoded[k].size)
  }

  // ---- Sums ----

  lemma {:induction false} SumConcat(a: seq<nat>, b: seq<nat>)
    ensures Sum(a + b) == Sum(a) + Sum(b)
  {
    if a == [] {
      assert a + b == b;
    } else {
      assert (a + b)[1..] == a[1..] + b;
      SumConcat(a[1..], b);
    }
  }

  function SizeIn(h: HeaderEntry): nat {
    var length := LengthOf(h.value);
    if length.Some? then length.value else 0
  }

  function HeaderSizes(headers: seq<HeaderEntry>, sizeIn: HeaderEntry -> nat): (sizes: seq<nat>)
    ensures |sizes| == |headers| && forall k :: 0 <= k < |headers| ==> sizes[k] == sizeIn(headers[k])
  {
    seq(|headers|, k requires 0 <= k < |headers| => sizeIn(headers[k]))
  }

  lemma {:induction false} HeaderSizesConcat(a: seq<HeaderEntry>, b: seq<HeaderEntry>, sizeIn: HeaderEntry -> nat)
    ensures Sum(HeaderSizes(a + b, sizeIn)) == Sum(HeaderSizes(a, sizeIn)) + Sum(HeaderSizes(b, sizeIn))
  {
    assert HeaderSizes(a + b, sizeIn) == HeaderSizes(a, sizeIn) + HeaderSizes(b, sizeIn);
    SumConcat(HeaderSizes(a, sizeIn), HeaderSizes(b, sizeIn));
  }

  lemma {:induction false} WithoutOne<T>(a: seq<T>, h: T, before: seq<T>, after: seq<T>)
    requires multiset([h] + a) == multiset(before + ([h] + after))
    ensures multiset(a) == multiset(before + after)
  {
    assert multiset([h] + a) == multiset([h]) + multiset(a);
    assert multiset(before + ([h] + after)) == multiset(before) + (multiset([h]) + multiset(after));
    assert multiset(a) == multiset([h] + a) - multiset([h]);
  }

  /** The order of the headers does not matter for the sum of the sizes in them. */
  lemma {:induction false} SumInAnyOrder(a: seq<HeaderEntry>, b: seq<HeaderEntry>, sizeIn: HeaderEntry -> nat)
    requires multiset(a) == multiset(b)
    ensures Sum(HeaderSizes(a, sizeIn)) == Sum(HeaderSizes(b, sizeIn))
  {
    if a == [] {
      assert |multiset(b)| == 0;
    } else {
      var h, more := a[0], a[1..];
      assert a == [h] + more && h in multiset(b);
      var i :| 0 <= i < |b| && b[i] == h;
      var before, after := b[..i], b[i + 1..];
      assert b == before + ([h] + after);
      WithoutOne(more, h, before, after);
      SumInAnyOrder(more, before + after, sizeIn);
      HeaderSizesConcat([h], more, sizeIn);
      HeaderSizesConcat(before, [h] + after, sizeIn);
      HeaderSizesConcat([h], after, sizeIn);
      HeaderSizesConcat(before, after, sizeIn);
    }
  }

  // ---- Decoding ----

  /** Whenever the parser accepts a header it takes its size from it. */
  ghost predicate ReadsSizes(parse: HeaderParser, sizeIn: HeaderEntry -> nat) {
    forall h: HeaderEntry, previous :: parse(h.value, previous).Parsed? ==>
      parse(h.value, previous).header.contentLength == sizeIn(h)
  }

  lemma {:induction false} DecodedSizes(
    sorted: seq<HeaderEntry>, pos: nat, entries: seq<string>, startTs: nat, parse: HeaderParser,
    last: seq<Option<RecordHeader>>, sizeIn: HeaderEntry -> nat)
    requires pos <= |sorted| && |last| == |entries| && ReadsSizes(parse, sizeIn)
    requires forall k :: 0 <= k < |sorted| ==> sorted[k].idx < |entries|
    requires forall k, previous :: 0 <= k < |sorted| ==> parse(sorted[k].value, previous).Parsed?
    ensures var d := DecodeFrom(sorted, pos, entries, startTs, parse, last);
            && d.Some? && |d.value| == |sorted| - pos
            && forall j :: pos <= j < |sorted| ==> d.value[j - pos].size == sizeIn(sorted[j])
    decreases |sorted| - pos
  {
    if pos < |sorted| {
      var h := sorted[pos];
      var header := parse(h.value, last[h.idx]).header;
      DecodedSizes(sorted, pos + 1, entries, startTs, parse, last[h.idx := Some(header)], sizeIn);
      var rest := DecodeFrom(sorted, pos + 1, entries, startTs, parse, last[h.idx := Some(header)]).value;
      RoundTripV2.DecodeStep(sorted, pos, h, entries, startTs, parse, last, header, rest);
      var d := DecodeFrom(sorted, pos, entries, startTs, parse, last).value;
      forall j | pos <= j < |sorted| ensures d[j - pos].size == sizeIn(sorted[j]) {
        assert j > pos ==> d[j - pos] == rest[j - (pos + 1)];
      }
    }
  }

  lemma {:induction false} ParserReadsSizes()
    ensures ReadsSizes(ParserFor(None), SizeIn)
  {
  }

  lemma {:induction false} SortedParse(
    sorted: seq<HeaderEntry>, names: seq<string>, micros: seq<nat>, values: seq<string>, parse: HeaderParser)
    requires Fits(micros) && |names| == |micros| == |values| && SortedFrom(sorted, names, micros, values)
    requires AlwaysParses(values, parse)
    ensures forall k, previous :: 0 <= k < |sorted| ==> parse(sorted[k].value, previous).Parsed?
  {
    forall k, previous | 0 <= k < |sorted| ensures parse(sorted[k].value, previous).Parsed? {
      var m := SortedSent(sorted, names, micros, values, k);
    }
  }

  lemma {:induction false} SortedTotal(
    sorted: seq<HeaderEntry>, names: seq<string>, micros: seq<nat>, values: seq<string>, parse: HeaderParser,
    sizeIn: HeaderEntry -> nat)
    requires Fits(micros) && |names| == |micros| == |values| && SortedFrom(sorted, names, micros, values)
    requires AlwaysParses(values, parse) && ReadsSizes(parse, sizeIn)
    ensures var entries := EntryList(names);
            var d := DecodeFrom(sorted, 0, entries, StartTs(micros), parse, NoHeaders(|entries|));
            d.Some? && Sum(SizesOf(d.value)) == Sum(HeaderSizes(SentEntries(names, micros, values), sizeIn))
  {
    var entries := EntryList(names);
    SortedDecodes(sorted, names, micros, values, parse);
    SortedParse(sorted, names, micros, values, parse);
    DecodedSizes(sorted, 0, entries, StartTs(micros), parse, NoHeaders(|entries|), sizeIn);
    var d := DecodeFrom(sorted, 0, entries, StartTs(micros), parse, NoHeaders(|entries|)).value;
    assert SizesOf(d) == HeaderSizes(sorted, sizeIn);
    SumInAnyOrder(sorted, SentEntries(names, micros, values), sizeIn);
  }

  lemma {:induction false} SentSizes(records: seq<BatchRecord>, defaultEntry: string, order: seq<nat>, sizes: seq<nat>)
    requires ValidOrder(records, order) && |sizes| == |order|
    requires forall k :: 0 <= k < |order| ==> sizes[k] == records[order[k]].size < U64
    ensures var names, micros := Names(records, defaultEntry, order), Micros(records, order);
            HeaderSizes(SentEntries(names, micros, Values(records, order)), SizeIn) == sizes
  {
    var sent := SentEntries(Names(records, defaultEntry, order), Micros(records, order), Values(records, order));
    forall k | 0 <= k < |order| ensures SizeIn(sent[k]) == sizes[k] {
      LengthOfWritten(records[order[k]]);
    }
  }

  lemma {:induction false} MarkLastSizes(records: seq<ReadableRecord>, headers: Headers)
    ensures SizesOf(MarkLast(records, headers)) == SizesOf(records)
  {
  }

  lemma {:induction false} PlainTotal(
    records: seq<BatchRecord>, defaultEntry: string, order: seq<nat>, sorted: seq<HeaderEntry>, sizes: seq<nat>)
    returns (plain: seq<ReadableRecord>)
    requires ValidOrder(records, order) && InRange(records) && |sizes| == |order|
    requires forall k :: 0 <= k < |sizes| ==> sizes[k] == records[order[k]].size
    requires var names, micros := Names(records, defaultEntry, order), Micros(records, order);
             && Fits(micros) && AlwaysParses(Values(records, order), ParserFor(None))
             && SortedFrom(sorted, names, micros, Values(records, order))
    ensures var names, micros := Names(records, defaultEntry, order), Micros(records, order);
            var entries := EntryList(names);
            DecodeFrom(sorted, 0, entries, StartTs(micros), ParserFor(None), NoHeaders(|entries|)) == Some(plain)
    ensures Sum(SizesOf(plain)) == Sum(sizes)
  {
    var names, micros, values := Names(records, defaultEntry, order), Micros(records, order), Values(records, order);
    ParserReadsSizes();
    SortedTotal(sorted, names, micros, values, ParserFor(None), SizeIn);
    SentSizes(records, defaultEntry, order, sizes);
    var entries := EntryList(names);
    plain := DecodeFrom(sorted, 0, entries, StartTs(micros), ParserFor(None), NoHeaders(|entries|)).value;
  }

  /** Whatever the order in which they come back, the sizes of the decoded records add up to those of the sent ones. */
  lemma {:induction false} SizesAddUp(x: Exchange, sizes: seq<nat>)
    requires Exchanged(x) && DistinctMicros(x.records, x.defaultEntry)
    requires ValidOrder(x.records, x.request.ordered) && |sizes| == |x.request.ordered|
    requires forall k :: 0 <= k < |sizes| ==> sizes[k] == x.records[x.request.ordered[k]].size
    ensures x.decoded.Some? && Sum(SizesOf(x.decoded.value)) == Sum(sizes)
  {
    ExchangeSorts(x);
    RequestOrder(x.records, x.defaultEntry, x.request);
    assert InRange(x.records);
    var plain := PlainTotal(x.records, x.defaultEntry, x.request.ordered, x.sorted, sizes);
    MarkLastSizes(plain, x.headers);
  }
}
