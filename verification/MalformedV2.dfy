/** What the v2 decoders make of headers that no encoder writes. */
module MalformedV2 {
  import opened Wrappers
  import opened Text
  import opened Numbers
  import opened Ordering
  import opened Batches
  import opened EntryNames
  import opened HeadersV2
  import opened ResponseV2
  import opened ErrorsV2

  // ---- Records ----

  /** A response without an entry that decodes, or without a base timestamp that is a number, describes no records. */
  lemma {:induction false} NothingWithoutPreamble(
    headers: Headers, iteration: seq<string>, sorted: seq<HeaderEntry>, records: Option<seq<ReadableRecord>>)
    requires IsDecoded(headers, iteration, sorted, records)
    requires || "x-reduct-entries" !in headers || "x-reduct-start-ts" !in headers
             || EncodedList(headers["x-reduct-entries"]) == [] || StoUll(headers["x-reduct-start-ts"]) == None
    ensures records == Some([])
  {
  }

  /** The same headers, one place further on. */
  lemma {:induction false} SameFrom(
    a: seq<HeaderEntry>, i: nat, b: seq<HeaderEntry>, entries: seq<string>, startTs: nat, parse: HeaderParser,
    last: seq<Option<RecordHeader>>)
    requires i < |a| && |a| == |b| + 1 && |last| == |entries|
    requires forall k :: i < k < |a| ==> a[k] == b[k - 1]
    ensures DecodeFrom(a, i + 1, entries, startTs, parse, last) == DecodeFrom(b, i, entries, startTs, parse, last)
    decreases |a| - i
  {
    if i + 1 < |a| {
      var h := a[i + 1];
      SameFrom(a, i + 1, b, entries, startTs, parse, last);
      if h.idx < |entries| {
        var parsed := parse(h.value, last[h.idx]);
        if parsed.Parsed? {
          SameFrom(a, i + 1, b, entries, startTs, parse, last[h.idx := Some(parsed.header)]);
        }
      }
    }
  }

  /** A header of an entry that is not listed, or one that the parser always rejects. */
  ghost predicate Unusable(h: HeaderEntry, entries: seq<string>, parse: HeaderParser) {
    h.idx >= |entries| || forall previous :: parse(h.value, previous).Rejected?
  }

  lemma {:induction false} SkippedFrom(
    sorted: seq<HeaderEntry>, shorter: seq<HeaderEntry>, p: nat, pos: nat, entries: seq<string>, startTs: nat,
    parse: HeaderParser, last: seq<Option<RecordHeader>>)
    requires pos <= p < |sorted| && |last| == |entries| && Unusable(sorted[p], entries, parse)
    requires shorter == sorted[..p] + sorted[p + 1..]
    ensures DecodeFrom(sorted, pos, entries, startTs, parse, last)
            == DecodeFrom(shorter, pos, entries, startTs, parse, last)
    decreases p - pos
  {
    var h := sorted[pos];
    if pos == p {
      SameFrom(sorted, p, shorter, entries, startTs, parse, last);
    } else {
      assert shorter[pos] == h;
      SkippedFrom(sorted, shorter, p, pos + 1, entries, startTs, parse, last);
      if h.idx < |entries| {
        var parsed := parse(h.value, last[h.idx]);
        if parsed.Parsed? {
          SkippedFrom(sorted, shorter, p, pos + 1, entries, startTs, parse, last[h.idx := Some(parsed.header)]);
        }
      }
    }
  }

  /** A header of an entry that is not listed, or whose length cannot be read, changes nothing for the other ones. */
  lemma {:induction false} UnusableIsSkipped(
    sorted: seq<HeaderEntry>, p: nat, entries: seq<string>, startTs: nat, names: Option<seq<string>>)
    requires p < |sorted|
    requires sorted[p].idx >= |entries| || LengthOf(sorted[p].value) == None
    ensures DecodeFrom(sorted, 0, entries, startTs, ParserFor(names), NoHeaders(|entries|))
            == DecodeFrom(sorted[..p] + sorted[p + 1..], 0, entries, startTs, ParserFor(names), NoHeaders(|entries|))
  {
    if LengthOf(sorted[p].value) == None {
      NoLengthIsRejected(sorted[p].value, names);
    }
    SkippedFrom(sorted, sorted[..p] + sorted[p + 1..], p, 0, entries, startTs, ParserFor(names), NoHeaders(|entries|));
  }

  lemma {:induction false} NoLengthIsRejected(raw: string, names: Option<seq<string>>)
    requires LengthOf(raw) == None
    ensures forall previous :: ParserFor(names)(raw, previous).Rejected?
  {
  }

  // ---- Errors ----

  /** A header that reports no error of a batch with n entries, although it may look like one. */
  ghost predicate NoError(name: string, value: string, n: nat) {
    StartsWith(name, "x-reduct-error-") ==>
      || (exists s :: name == "x-reduct-error-" + s && '-' !in s)
      || exists idx, delta ::
           && 0 <= idx < U64 && 0 <= delta < U64 && name == ErrorKey((idx, delta))
           && (idx >= n || ',' !in value)
  }

  lemma {:induction false} NoDashIsSkipped(name: string, s: string)
    requires name == "x-reduct-error-" + s && '-' !in s
    ensures SplitAtLastDash(name, |HEADER_ERROR_PREFIX|) == None
  {
    RFindSkips(name, '-', |name|);
    forall k | |HEADER_ERROR_PREFIX| <= k < |name| ensures name[k] != '-' {
      assert name[k] == s[k - |HEADER_ERROR_PREFIX|];
    }
  }

  lemma {:induction false} NoErrorIsSkipped(name: string, value: string, entries: seq<string>, startTs: nat)
    requires NoError(name, value, |entries|)
    ensures RecordItem(name, value, entries, startTs) == Skipped
  {
    if StartsWith(name, "x-reduct-error-") {
      if s :| name == "x-reduct-error-" + s && '-' !in s {
        NoDashIsSkipped(name, s);
      } else {
        var idx, delta :| 0 <= idx < U64 && 0 <= delta < U64 && name == ErrorKey((idx, delta))
                          && (idx >= |entries| || ',' !in value);
        ErrorKeyParts((idx, delta));
        if ',' !in value {
          PlainType(value);
        }
      }
    }
  }

  /** A response with such headers only reports no errors. */
  lemma {:induction false} NothingReported(
    headers: Headers, iteration: seq<string>, requestEntries: seq<string>, requestStartTs: nat,
    entries: seq<string>, startTs: nat)
    requires Enumerates(iteration, headers.Keys)
    requires RefersToEntries(headers, requestEntries, entries) && RefersToBase(headers, requestStartTs, startTs)
    requires forall name <- headers :: NoError(name, headers[name], |entries|)
    ensures RecordErrors(headers, iteration, requestEntries, requestStartTs) == Some(map[])
  {
    ReferredExactly(headers, requestEntries, requestStartTs, entries, startTs);
    var read := RecordReader(headers, entries, startTs);
    forall i | 0 <= i < |iteration| ensures read(iteration[i]) == Skipped {
      assert iteration[i] in iteration;
      NoErrorIsSkipped(iteration[i], headers[iteration[i]], entries, startTs);
    }
    AllSkipped(read, iteration, |iteration|);
  }

  lemma {:induction false} AllSkipped(read: Reader, iteration: seq<string>, n: nat)
    requires n <= |iteration| && forall i :: 0 <= i < |iteration| ==> read(iteration[i]) == Skipped
    ensures ErrorsAfter(read, iteration, n) == Some(map[]) && FlatErrorsAfter(read, iteration, n) == Some(map[])
  {
    if n > 0 {
      AllSkipped(read, iteration, n - 1);
    }
  }

  /** A header whose index is no number; or one for a listed entry, whose delta is none, or whose status is none. */
  ghost predicate Breaks(name: string, value: string, n: nat) {
    || (exists idx, b ::
          && 0 <= idx < n && idx < U64 && name == "x-reduct-error-" + (Decimal(idx) + "-" + b)
          && '-' !in b && StoUll(b) == None)
    || (exists idx, delta, status, message ::
          && 0 <= idx < n && idx < U64 && 0 <= delta < U64 && name == ErrorKey((idx, delta))
          && IsBrokenStatus(value, status, message))
    || (exists a, b :: name == "x-reduct-error-" + (a + "-" + b) && '-' !in b && StoUll(a) == None)
  }

  predicate IsBrokenStatus(value: string, status: string, message: string) {
    value == status + "," + message && ',' !in status && StoI(status) == None
  }

  lemma {:induction false} StatusCut(value: string, status: string, message: string)
    requires value == status + "," + message && ',' !in status
    ensures Find(value, ',', 0) == |status| < |value| && Substr(value, 0, |status|) == status
  {
    AtSplit(value, 0, status + ",", message);
    AtSplit(value, 0, status, ",");
    assert value[|status|] == ","[0];
    FindAfterPiece(value, 0, status, ',', 0);
    AtSlice(value, 0, status);
  }

  lemma {:induction false} BadStatus(
    place: (nat, nat), value: string, status: string, message: string, entries: seq<string>, startTs: nat)
    requires place.0 < |entries| && place.0 < U64 && place.1 < U64 && IsBrokenStatus(value, status, message)
    ensures RecordItem(ErrorKey(place), value, entries, startTs) == Uncaught
  {
    ErrorKeyParts(place);
    RecordItemOf(ErrorKey(place), value, entries, startTs, (Decimal(place.0), Decimal(place.1)), place);
    StatusCut(value, status, message);
  }

  lemma {:induction false} BadIndex(a: string, b: string, value: string, entries: seq<string>, startTs: nat)
    requires '-' !in b && StoUll(a) == None
    ensures RecordItem("x-reduct-error-" + (a + "-" + b), value, entries, startTs) == Uncaught
  {
    SplitParts(HEADER_ERROR_PREFIX, a, b);
  }

  lemma {:induction false} BadDelta(idx: nat, b: string, value: string, entries: seq<string>, startTs: nat)
    requires idx < |entries| && idx < U64 && '-' !in b && StoUll(b) == None
    ensures RecordItem("x-reduct-error-" + (Decimal(idx) + "-" + b), value, entries, startTs) == Uncaught
  {
    SplitParts(HEADER_ERROR_PREFIX, Decimal(idx), b);
    StoUllDecimal(idx);
  }

  lemma {:induction false} BreaksIsUncaught(name: string, value: string, entries: seq<string>, startTs: nat)
    requires Breaks(name, value, |entries|)
    ensures RecordItem(name, value, entries, startTs) == Uncaught
  {
    if a, b :| name == "x-reduct-error-" + (a + "-" + b) && '-' !in b && StoUll(a) == None {
      BadIndex(a, b, value, entries, startTs);
    } else if idx, b :| 0 <= idx < |entries| && idx < U64 && name == "x-reduct-error-" + (Decimal(idx) + "-" + b)
                         && '-' !in b && StoUll(b) == None {
      BadDelta(idx, b, value, entries, startTs);
    } else {
      var idx, delta, status, message :|
        && 0 <= idx < |entries| && idx < U64 && 0 <= delta < U64 && name == ErrorKey((idx, delta))
        && IsBrokenStatus(value, status, message);
      BadStatus((idx, delta), value, status, message, entries, startTs);
    }
  }

  lemma {:induction false} UncaughtEnds(read: Reader, names: set<string>, iteration: seq<string>, name: string)
    requires Enumerates(iteration, names) && name in names && read(name) == Uncaught
    ensures ErrorsAfter(read, iteration, |iteration|) == None
    ensures FlatErrorsAfter(read, iteration, |iteration|) == None
  {
    assert name in iteration;
    var i :| 0 <= i < |iteration| && iteration[i] == name;
    ThrowsStays(read, iteration, i + 1, |iteration|);
  }

  /** One such header makes the whole call throw, whatever else is reported. */
  lemma {:induction false} BrokenErrorThrows(
    headers: Headers, iteration: seq<string>, requestEntries: seq<string>, requestStartTs: nat,
    entries: seq<string>, startTs: nat, name: string)
    requires Enumerates(iteration, headers.Keys)
    requires RefersToEntries(headers, requestEntries, entries) && RefersToBase(headers, requestStartTs, startTs)
    requires name in headers && Breaks(name, headers[name], |entries|)
    ensures RecordErrors(headers, iteration, requestEntries, requestStartTs) == None
  {
    ReferredExactly(headers, requestEntries, requestStartTs, entries, startTs);
    BreaksIsUncaught(name, headers[name], entries, startTs);
    UncaughtEnds(RecordReader(headers, entries, startTs), headers.Keys, iteration, name);
  }

  // ---- The flat form ----

  /** What the flat form passes over: it does not look at the entry. */
  ghost predicate NoFlatError(name: string, value: string) {
    StartsWith(name, "x-reduct-error-") ==>
      || (exists s :: name == "x-reduct-error-" + s && '-' !in s)
      || exists a, delta :: 0 <= delta < U64 && name == "x-reduct-error-" + (a + "-" + Decimal(delta)) && ',' !in value
  }

  lemma {:induction false} NoFlatErrorIsSkipped(name: string, value: string, startTs: nat)
    requires NoFlatError(name, value)
    ensures FlatItem(name, value, startTs) == Skipped
  {
    if StartsWith(name, "x-reduct-error-") {
      if s :| name == "x-reduct-error-" + s && '-' !in s {
        NoDashIsSkipped(name, s);
      } else {
        var a, delta :| 0 <= delta < U64 && name == "x-reduct-error-" + (a + "-" + Decimal(delta)) && ',' !in value;
        SplitParts(HEADER_ERROR_PREFIX, a, Decimal(delta));
        StoUllDecimal(delta);
        PlainType(value);
      }
    }
  }

  /** A header whose delta is no number, or whose status is none. */
  ghost predicate BreaksFlat(name: string, value: string) {
    || (exists a, b :: name == "x-reduct-error-" + (a + "-" + b) && '-' !in b && StoUll(b) == None)
    || exists a, delta, status, message ::
         && 0 <= delta < U64 && name == "x-reduct-error-" + (a + "-" + Decimal(delta))
         && IsBrokenStatus(value, status, message)
  }

  lemma {:induction false} BadFlatStatus(
    a: string, delta: nat, value: string, status: string, message: string, startTs: nat)
    requires delta < U64 && IsBrokenStatus(value, status, message)
    ensures FlatItem("x-reduct-error-" + (a + "-" + Decimal(delta)), value, startTs) == Uncaught
  {
    SplitParts(HEADER_ERROR_PREFIX, a, Decimal(delta));
    StoUllDecimal(delta);
    FlatItemOf("x-reduct-error-" + (a + "-" + Decimal(delta)), value, startTs, (a, Decimal(delta)), delta);
    StatusCut(value, status, message);
  }

  lemma {:induction false} BreaksFlatIsUncaught(name: string, value: string, startTs: nat)
    requires BreaksFlat(name, value)
    ensures FlatItem(name, value, startTs) == Uncaught
  {
    if a, b :| name == "x-reduct-error-" + (a + "-" + b) && '-' !in b && StoUll(b) == None {
      SplitParts(HEADER_ERROR_PREFIX, a, b);
    } else {
      var a, delta, status, message :|
        && 0 <= delta < U64 && name == "x-reduct-error-" + (a + "-" + Decimal(delta))
        && IsBrokenStatus(value, status, message);
      BadFlatStatus(a, delta, value, status, message, startTs);
    }
  }

  /** The flat form reports nothing for headers that it passes over, and throws for one that breaks it. */
  lemma {:induction false} FlatMalformed(headers: Headers, iteration: seq<string>, startTs: nat)
    requires Enumerates(iteration, headers.Keys)
    ensures (forall name <- headers :: NoFlatError(name, headers[name])) ==>
              FlatErrorsAfter(FlatReader(headers, startTs), iteration, |iteration|) == Some(map[])
    ensures (exists name <- headers :: BreaksFlat(name, headers[name])) ==>
              FlatErrorsAfter(FlatReader(headers, startTs), iteration, |iteration|) == None
  {
    var read := FlatReader(headers, startTs);
    if forall name <- headers :: NoFlatError(name, headers[name]) {
      forall i | 0 <= i < |iteration| ensures read(iteration[i]) == Skipped {
        assert iteration[i] in iteration;
        NoFlatErrorIsSkipped(iteration[i], headers[iteration[i]], startTs);
      }
      AllSkipped(read, iteration, |iteration|);
    }
    if name :| name in headers && BreaksFlat(name, headers[name]) {
      BreaksFlatIsUncaught(name, headers[name], startTs);
      UncaughtEnds(read, headers.Keys, iteration, name);
    }
  }
}
