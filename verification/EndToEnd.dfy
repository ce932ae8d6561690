/** Records from one batch to another program: encoded, sent, received and read. */
module EndToEnd {
  import opened Wrappers
  import opened Text
  import opened Ordering
  import opened Batches
  import opened HeadersV2
  import opened RequestV2
  import opened RoundTripV2
  import opened MetadataV2
  import opened SizesV2
  import opened ExchangeV1
  import opened RoundTripV1
  import opened Upload
  import opened Stream
  import opened StreamRuns

  // ---- The pieces of a stream ----

  lemma {:induction false} SumSplit(sizes: seq<nat>, k: nat)
    requires k < |sizes|
    ensures Sum(sizes[..k + 1]) == Sum(sizes[..k]) + sizes[k]
    ensures Sum(sizes[..k + 1]) <= Sum(sizes)
    decreases |sizes| - k
  {
    assert sizes[..k + 1] == sizes[..k] + [sizes[k]];
    SumAppend(sizes[..k], sizes[k]);
    if k + 1 < |sizes| {
      SumSplit(sizes, k + 1);
    } else {
      assert sizes[..k + 1] == sizes;
    }
  }

  lemma {:induction false} PieceAt(parts: seq<string>, k: nat)
    requires k < |parts|
    ensures At(Flatten(parts), Sum(Lengths(parts)[..k]), parts[k])
  {
    var before := parts[..k];
    assert parts == before + [parts[k]] + parts[k + 1..];
    FlattenAppend(before + [parts[k]], parts[k + 1..]);
    FlattenOne(before, parts[k]);
    FlattenLength(before);
    assert Lengths(before) == Lengths(parts)[..k];
    assert Flatten(before) + parts[k] + Flatten(parts[k + 1..]) + "" == Flatten(parts);
  }

  /** The stream carries the body: no more than that ever arrives, and all of it before the end. */
  predicate CarriesBody(s: State, whole: string) {
    s.received <= whole && (s.ended ==> s.received == whole)
  }

  /** Every callback takes what it is given, as that of ReadAll does. */
  predicate NoneRefused(s: State) {
    forall k :: 0 <= k < |s.calls| ==> s.calls[k].status != Refused
  }

  /** A read is under way or has got its part in full; in particular it did not take the end of the stream. */
  predicate GotPart(call: Call, part: string) {
    if call.status == Open then call.got <= part else call.status == Full && call.got == part
  }

  /** Up to any call all are complete, when records are read in order and in full. */
  lemma {:induction false} CallsComplete(run: seq<State>, i: nat, parts: seq<string>, k: nat)
    requires IsRun(run) && i < |run| && k <= |run[i].calls|
    requires CarriesBody(run[i], Flatten(parts)) && NoneRefused(run[i]) && ReadsInOrder(run[i], Lengths(parts))
    requires forall j :: 0 <= j < |parts| ==> parts[j] != ""
    requires k < |run[i].calls| || !Reading(run[i])
    ensures AllFull(run[i], k)
  {
    if k > 0 {
      var s, j := run[i], k - 1;
      CallsComplete(run, i, parts, j);
      ReadGetsInterval(run, i, Lengths(parts), j);
      RunKeeps(run, i);
      assert CallFits(s, j);
      FlattenLength(parts);
      SumSplit(Lengths(parts), j);
      assert s.calls[j].status != Refused;
    }
  }

  /**
   In every interleaving of arrival and reading, each finished read has got exactly its own part of the
   body, and the open one the beginning of its part; and once the stream has ended the open one can finish.
   */
  lemma {:induction false} StreamDelivers(run: seq<State>, i: nat, parts: seq<string>)
    requires IsRun(run) && i < |run|
    requires CarriesBody(run[i], Flatten(parts)) && NoneRefused(run[i]) && ReadsInOrder(run[i], Lengths(parts))
    requires forall j :: 0 <= j < |parts| ==> parts[j] != ""
    ensures forall k :: 0 <= k < |run[i].calls| ==> GotPart(run[i].calls[k], parts[k])
    ensures Reading(run[i]) && run[i].ended ==> CanFinish(run[i])
  {
    var s, sizes := run[i], Lengths(parts);
    forall k | 0 <= k < |s.calls| ensures GotPart(s.calls[k], parts[k]) {
      CallsComplete(run, i, parts, k);
      ReadGetsInterval(run, i, sizes, k);
      PieceAt(parts, k);
      if s.calls[k].status != Open {
        RunKeeps(run, i);
        assert CallFits(s, k);
        if k + 1 < |s.calls| {
          CallsComplete(run, i, parts, k + 1);
        } else {
          CallsComplete(run, i, parts, |s.calls|);
        }
        assert s.calls[k].status == Full;
      }
    }
    if Reading(s) && s.ended {
      var n := |s.calls|;
      CallsComplete(run, i, parts, n - 1);
      FlattenLength(parts);
      SumSplit(sizes, n - 1);
      EnoughCanFinish(run, i, sizes);
    }
  }

  // ---- Records that are not empty ----

  /** The places of the first n sizes that are not zero. */
  function NonEmptyUpTo(sizes: seq<nat>, n: nat): (places: seq<nat>)
    requires n <= |sizes|
    ensures |places| <= n
    ensures forall j :: 0 <= j < |places| ==> places[j] < n && sizes[places[j]] > 0
  {
    if n == 0 then []
    else if sizes[n - 1] > 0 then NonEmptyUpTo(sizes, n - 1) + [n - 1]
    else NonEmptyUpTo(sizes, n - 1)
  }

  function NonEmpty(sizes: seq<nat>): seq<nat> {
    NonEmptyUpTo(sizes, |sizes|)
  }

  function Select<T>(s: seq<T>, places: seq<nat>): (picked: seq<T>)
    requires forall j :: 0 <= j < |places| ==> places[j] < |s|
    ensures |picked| == |places| && forall j :: 0 <= j < |places| ==> picked[j] == s[places[j]]
  {
    seq(|places|, j requires 0 <= j < |places| => s[places[j]])
  }

  lemma {:induction false} SelectOneMore<T>(s: seq<T>, places: seq<nat>, k: nat)
    requires k < |s| && forall j :: 0 <= j < |places| ==> places[j] < |s|
    ensures Select(s, places + [k]) == Select(s, places) + [s[k]]
  {
  }

  lemma {:induction false} OneMorePiece(parts: seq<string>, places: seq<nat>, n: nat)
    requires n < |parts| && forall j :: 0 <= j < |places| ==> places[j] < |parts|
    requires Flatten(Select(parts, places)) == Flatten(parts[..n])
    ensures Flatten(Select(parts, if parts[n] == "" then places else places + [n])) == Flatten(parts[..n + 1])
  {
    assert parts[..n + 1] == parts[..n] + [parts[n]];
    FlattenOne(parts[..n], parts[n]);
    if parts[n] == "" {
      assert Flatten(parts[..n]) + "" == Flatten(parts[..n]);
    } else {
      SelectOneMore(parts, places, n);
      FlattenOne(Select(parts, places), parts[n]);
    }
  }

  /** Empty pieces contribute nothing to the whole. */
  lemma {:induction false} EmptyPiecesVanish(parts: seq<string>, sizes: seq<nat>, n: nat)
    requires sizes == Lengths(parts) && n <= |parts|
    ensures Flatten(Select(parts, NonEmptyUpTo(sizes, n))) == Flatten(parts[..n])
  {
    if n == 0 {
      assert NonEmptyUpTo(sizes, 0) == [] && parts[..0] == [];
    } else {
      EmptyPiecesVanish(parts, sizes, n - 1);
      var before := NonEmptyUpTo(sizes, n - 1);
      OneMorePiece(parts, before, n - 1);
      assert NonEmptyUpTo(sizes, n) == if parts[n - 1] == "" then before else before + [n - 1];
    }
  }

  lemma {:induction false} LengthsOfSelected(parts: seq<string>, places: seq<nat>)
    requires forall j :: 0 <= j < |places| ==> places[j] < |parts|
    ensures Lengths(Select(parts, places)) == Select(Lengths(parts), places)
  {
  }

  /** Reading only the pieces that are not empty, in order, gives each of them. */
  lemma {:induction false} PiecesDelivered(run: seq<State>, i: nat, parts: seq<string>, sizes: seq<nat>)
    requires sizes == Lengths(parts) && IsRun(run) && i < |run|
    requires CarriesBody(run[i], Flatten(parts)) && NoneRefused(run[i])
    requires ReadsInOrder(run[i], Select(sizes, NonEmpty(sizes)))
    ensures var s, places := run[i], NonEmpty(sizes);
            && |s.calls| <= |places|
            && (forall k :: 0 <= k < |s.calls| ==> GotPart(s.calls[k], parts[places[k]]))
            && (Reading(s) && s.ended ==> CanFinish(s))
  {
    assert parts[..|parts|] == parts;
    EmptyPiecesVanish(parts, sizes, |parts|);
    LengthsOfSelected(parts, NonEmpty(sizes));
    StreamDelivers(run, i, Select(parts, NonEmpty(sizes)));
  }

  // ---- From one batch to the other side ----

  lemma {:induction false} DecodesSizes(
    records: seq<BatchRecord>, body: seq<string>, defaultEntry: string, order: seq<nat>, headers: Headers,
    decoded: Option<seq<ReadableRecord>>)
    requires Decodes(records, defaultEntry, order, headers, decoded) && ValidRecords(records, body) && records != []
    ensures decoded.Some? && SizesOf(decoded.value) == Lengths(PayloadsIn(records, body, order))
  {
    DecodesMetadata(records, defaultEntry, order, headers, decoded);
  }

  /** What is decoded, and what is sent as the body of the request. */
  ghost predicate AddsUp(
    records: seq<BatchRecord>, body: seq<string>, order: seq<nat>, decoded: Option<seq<ReadableRecord>>, asks: Asks)
    requires ValidRecords(records, body) && ValidOrder(records, order) && FairAsks(asks, TotalSize(records))
  {
    && decoded.Some? && Sum(SizesOf(decoded.value)) == TotalSize(records)
    && var outcome := Transfer(BatchCallback(records, body, order), asks, TotalSize(records), 0);
    outcome.complete && |outcome.sent| == TotalSize(records)
  }

  /** The lengths in the headers add up to the content length, and to the length of the body that is sent. */
  lemma {:induction false} LengthsAddUp(x: Exchange, body: seq<string>, asks: Asks)
    requires Exchanged(x) && DistinctMicros(x.records, x.defaultEntry)
    requires ValidRecords(x.records, body) && FairAsks(asks, TotalSize(x.records))
    ensures ValidOrder(x.records, x.request.ordered)
    ensures AddsUp(x.records, body, x.request.ordered, x.decoded, asks)
  {
    var order := x.request.ordered;
    RequestOrder(x.records, x.defaultEntry, x.request);
    OrderFacts(x.records, x.defaultEntry, order);
    var parts := PayloadsIn(x.records, body, order);
    forall k | 0 <= k < |order| ensures Lengths(parts)[k] == x.records[order[k]].size {
      assert HoldsPayload(x.records[order[k]], body);
    }
    SizesAddUp(x, Lengths(parts));
    BatchSendsAll(x.records, body, order, asks);
    SliceIsInterval(x.records, body, order, 0, 0);
    FlattenLength(parts);
  }

  /** The records that are read: those that are not empty, in order. */
  function ReadPlaces(records: seq<BatchRecord>, body: seq<string>, order: seq<nat>): seq<nat>
    requires ValidRecords(records, body) && ValidOrder(records, order)
  {
    NonEmpty(Lengths(PayloadsIn(records, body, order)))
  }

  ghost predicate GotPayloads(s: State, records: seq<BatchRecord>, body: seq<string>, order: seq<nat>)
    requires ValidRecords(records, body) && ValidOrder(records, order)
  {
    var places := ReadPlaces(records, body, order);
    && |s.calls| <= |places|
    && (forall k :: 0 <= k < |s.calls| ==> GotPart(s.calls[k], Payload(body, records[order[places[k]]])))
    && (Reading(s) && s.ended ==> CanFinish(s))
  }

  /** The same for sizes that are known to be right. */
  lemma {:induction false} PayloadsDelivered(
    records: seq<BatchRecord>, body: seq<string>, order: seq<nat>, sizes: seq<nat>, asks: Asks, run: seq<State>, i: nat)
    requires ValidRecords(records, body) && ValidOrder(records, order)
    requires NoDuplicates(order) && |order| == |records| && sizes == Lengths(PayloadsIn(records, body, order))
    requires FairAsks(asks, TotalSize(records))
    requires IsRun(run) && i < |run| && NoneRefused(run[i])
    requires CarriesBody(run[i], Transfer(BatchCallback(records, body, order), asks, TotalSize(records), 0).sent)
    requires ReadsInOrder(run[i], Select(sizes, NonEmpty(sizes)))
    ensures GotPayloads(run[i], records, body, order)
  {
    BatchSendsAll(records, body, order, asks);
    PiecesDelivered(run, i, PayloadsIn(records, body, order), sizes);
  }

  /**
   For every batch of records with distinct keys, any sizes of uploaded chunks, any cut of the received body and any
   interleaving of its arrival with the reading: ReadAll on the decoded records that are not empty, in order, gives
   each of them its own payload, and never waits for bytes that do not come.
   */
  lemma {:induction false} PayloadsAligned(x: Exchange, body: seq<string>, asks: Asks, run: seq<State>, i: nat)
    requires Exchanged(x) && DistinctMicros(x.records, x.defaultEntry) && OneSided(x.records, x.defaultEntry)
    requires ValidRecords(x.records, body) && ValidOrder(x.records, x.request.ordered)
    requires FairAsks(asks, TotalSize(x.records))
    requires IsRun(run) && i < |run| && NoneRefused(run[i])
    requires CarriesBody(run[i],
               Transfer(BatchCallback(x.records, body, x.request.ordered), asks, TotalSize(x.records), 0).sent)
    requires x.decoded.Some? ==>
               var sizes := SizesOf(x.decoded.value); ReadsInOrder(run[i], Select(sizes, NonEmpty(sizes)))
    ensures GotPayloads(run[i], x.records, body, x.request.ordered)
  {
    ExchangeDecodes(x);
    DecodesSizes(x.records, body, x.defaultEntry, x.request.ordered, x.headers, x.decoded);
    PayloadsDelivered(x.records, body, x.request.ordered, SizesOf(x.decoded.value), asks, run, i);
  }

  lemma {:induction false} ReceivedSizesV1(
    records: seq<BatchRecord>, body: seq<string>, entry: string, order: seq<nat>,
    request: Headers, headers: Headers)
    requires IsRequestV1(order, request, records, entry, Write) && ValidRecords(records, body)
    requires AllReadableV1(records) && OneEntry(records, entry) && DistinctMicros(records, entry)
    requires PrintedAscend(TimesIn(InOrder(records, order)))
    requires forall name :: IsTimeName(name) ==>
               (name in headers <==> name in request) && (name in headers ==> headers[name] == request[name])
    ensures NoDuplicates(order) && |order| == |records|
    ensures DecodedV1(headers).Some?
    ensures SizesOf(DecodedV1(headers).value) == Lengths(PayloadsIn(records, body, order))
  {
    BatchRoundTripV1(records, entry, order, request, headers);
    SentIncreases(records, entry, order);
  }

  /** The same for a batch of protocol v1. */
  lemma {:induction false} PayloadsAlignedV1(
    records: seq<BatchRecord>, body: seq<string>, entry: string, order: seq<nat>,
    request: Headers, headers: Headers, asks: Asks, run: seq<State>, i: nat)
    requires IsRequestV1(order, request, records, entry, Write) && ValidRecords(records, body)
    requires AllReadableV1(records) && OneEntry(records, entry) && DistinctMicros(records, entry)
    requires PrintedAscend(TimesIn(InOrder(records, order)))
    requires forall name :: IsTimeName(name) ==>
               (name in headers <==> name in request) && (name in headers ==> headers[name] == request[name])
    requires FairAsks(asks, TotalSize(records))
    requires IsRun(run) && i < |run| && NoneRefused(run[i])
    requires CarriesBody(run[i], Transfer(BatchCallback(records, body, order), asks, TotalSize(records), 0).sent)
    requires DecodedV1(headers).Some? ==>
               var sizes := SizesOf(DecodedV1(headers).value); ReadsInOrder(run[i], Select(sizes, NonEmpty(sizes)))
    ensures GotPayloads(run[i], records, body, order)
  {
    ReceivedSizesV1(records, body, entry, order, request, headers);
    PayloadsDelivered(records, body, order, SizesOf(DecodedV1(headers).value), asks, run, i);
  }
}
