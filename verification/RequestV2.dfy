/** BuildBatchV2Request: the order, the entry list, the base timestamp and the headers of one v2 request. */
module RequestV2 {
  import opened Text
  import opened Numbers
  import opened Ordering
  import opened Batches
  import opened SendOrder
  import opened EntryNames
  import opened HeadersV2

  datatype Request = Request(ordered: seq<nat>, entries: seq<string>, startTs: nat, headers: Headers)

  /** EntryRequired is the error with code 400. */
  datatype BuildResult = Built(request: Request) | EntryRequired

  // ---- The batch in send order ----

  /** static_cast<uint64_t> of the microseconds of a record. */
  function MicrosOf(record: BatchRecord): nat {
    ToMicroseconds(record.timestamp) % U64
  }

  function InOrder(records: seq<BatchRecord>, order: seq<nat>): (sent: seq<BatchRecord>)
    requires ValidOrder(records, order)
    ensures |sent| == |order| && forall k :: 0 <= k < |order| ==> sent[k] == records[order[k]]
  {
    seq(|order|, k requires 0 <= k < |order| => records[order[k]])
  }

  function EntriesOf(sent: seq<BatchRecord>, defaultEntry: string): (names: seq<string>)
    ensures |names| == |sent| && forall k :: 0 <= k < |sent| ==> names[k] == RecordEntry(sent[k], defaultEntry)
  {
    seq(|sent|, k requires 0 <= k < |sent| => RecordEntry(sent[k], defaultEntry))
  }

  function MicrosIn(sent: seq<BatchRecord>): (micros: seq<nat>)
    ensures |micros| == |sent| && forall k :: 0 <= k < |sent| ==> micros[k] == MicrosOf(sent[k]) < U64
  {
    seq(|sent|, k requires 0 <= k < |sent| => MicrosOf(sent[k]))
  }

  /** The names among the first n, in the order of first appearance. */
  function Distinct(names: seq<string>, n: nat): (entries: seq<string>)
    requires n <= |names|
    ensures NoDuplicates(entries)
    ensures forall k :: 0 <= k < n ==> names[k] in entries
  {
    if n == 0 then []
    else
      var before := Distinct(names, n - 1);
      if names[n - 1] in before then before else before + [names[n - 1]]
  }

  function EntryList(names: seq<string>): seq<string> {
    Distinct(names, |names|)
  }

  function PositionOf(entries: seq<string>, entry: string, from: nat): (i: nat)
    requires from <= |entries| && exists j :: from <= j < |entries| && entries[j] == entry
    ensures i < |entries| && entries[i] == entry
    decreases |entries| - from
  {
    if entries[from] == entry then from else PositionOf(entries, entry, from + 1)
  }

  /** The place of a sent record in the request: the index of its entry, and its delta. */
  function IndexOf(names: seq<string>, k: nat): (idx: nat)
    requires k < |names|
    ensures idx < |EntryList(names)| && EntryList(names)[idx] == names[k]
  {
    assert names[k] in EntryList(names);
    PositionOf(EntryList(names), names[k], 0)
  }

  /** The smallest of the first n timestamps, starting from the largest 64-bit number. */
  function Earliest(micros: seq<nat>, n: nat): (ts: nat)
    requires n <= |micros| && forall k :: 0 <= k < |micros| ==> micros[k] < U64
    ensures ts < U64
    ensures forall k :: 0 <= k < n ==> ts <= micros[k]
    ensures n > 0 ==> exists k :: 0 <= k < n && ts == micros[k]
  {
    if n == 0 then U64 - 1 else Min(Earliest(micros, n - 1), micros[n - 1])
  }

  predicate Fits(micros: seq<nat>) {
    forall k :: 0 <= k < |micros| ==> micros[k] < U64
  }

  function StartTs(micros: seq<nat>): nat
    requires Fits(micros)
  {
    Earliest(micros, |micros|)
  }

  /** The subtraction does not wrap, because the base timestamp is the smallest one. */
  function DeltaOf(micros: seq<nat>, k: nat): (delta: nat)
    requires Fits(micros) && k < |micros|
    ensures delta < U64 && StartTs(micros) + delta == micros[k]
  {
    micros[k] - StartTs(micros)
  }

  function KeyOf(names: seq<string>, micros: seq<nat>, k: nat): string
    requires Fits(micros) && k < |names| == |micros|
  {
    HeaderKey(IndexOf(names, k), DeltaOf(micros, k))
  }

  function KeysOf(names: seq<string>, micros: seq<nat>): (keys: seq<string>)
    requires Fits(micros) && |names| == |micros|
    ensures |keys| == |names| && forall k :: 0 <= k < |names| ==> keys[k] == KeyOf(names, micros, k)
  {
    seq(|names|, k requires 0 <= k < |names| => KeyOf(names, micros, k))
  }

  function ValuesOf(sent: seq<BatchRecord>, kind: BatchType): (values: seq<string>)
    ensures |values| == |sent| && forall k :: 0 <= k < |sent| ==> values[k] == HeaderValue(sent[k], kind)
  {
    seq(|sent|, k requires 0 <= k < |sent| => HeaderValue(sent[k], kind))
  }

  // ---- Headers ----

  /** unordered_map::emplace. */
  function Emplace(headers: Headers, name: string, value: string): Headers {
    if name in headers then headers else headers[name := value]
  }

  predicate FirstAt(keys: seq<string>, k: nat)
    requires k < |keys|
  {
    forall j :: 0 <= j < k ==> keys[j] != keys[k]
  }

  /** The state after emplacing the first n pairs: of several values for one name the first one stays. */
  ghost predicate Emplaced(headers: Headers, base: Headers, keys: seq<string>, values: seq<string>, n: nat)
    requires n <= |keys| == |values|
  {
    && (forall name :: name in headers <==> name in base || exists k :: 0 <= k < n && keys[k] == name)
    && (forall name <- base :: headers[name] == base[name])
    && (forall k :: 0 <= k < n && keys[k] !in base && FirstAt(keys, k) ==> headers[keys[k]] == values[k])
  }

  /** The headers that come before those of the records. */
  function BaseHeaders(entries: seq<string>, startTs: nat): Headers
    requires AllBytes(entries)
  {
    map[HEADER_ENTRIES := Join(EncodeAll(entries)), HEADER_START_TS := Decimal(startTs)]
  }

  lemma {:induction false} EmplaceOne(headers: Headers, base: Headers, keys: seq<string>, values: seq<string>, n: nat)
    requires n < |keys| == |values| && Emplaced(headers, base, keys, values, n)
    ensures Emplaced(Emplace(headers, keys[n], values[n]), base, keys, values, n + 1)
  {
    var after := Emplace(headers, keys[n], values[n]);
    forall name ensures name in after <==> name in base || exists k :: 0 <= k < n + 1 && keys[k] == name {
      if k :| 0 <= k < n + 1 && keys[k] == name {
        if k < n {
          assert name in headers;
        }
      }
    }
    forall k | 0 <= k < n + 1 && keys[k] !in base && FirstAt(keys, k) ensures after[keys[k]] == values[k] {
      if k < n {
        assert keys[k] in headers;
      }
    }
  }

  /** What BuildBatchV2Request promises for a batch that is not empty. */
  ghost predicate IsRequest(request: Request, records: seq<BatchRecord>, defaultEntry: string, kind: BatchType) {
    && IsSendOrder(records, defaultEntry, true, request.ordered)
    && ValidOrder(records, request.ordered)
    && var sent := InOrder(records, request.ordered);
    && var names, micros := EntriesOf(sent, defaultEntry), MicrosIn(sent);
    && request.entries == EntryList(names)
    && request.startTs == StartTs(micros)
    && AllBytes(request.entries)
    && Emplaced(request.headers, BaseHeaders(request.entries, request.startTs),
                KeysOf(names, micros), ValuesOf(sent, kind), |sent|)
  }

  predicate ByteRecords(records: seq<BatchRecord>, defaultEntry: string) {
    IsBytes(defaultEntry) && forall k :: 0 <= k < |records| ==> IsBytes(records[k].entry)
  }

  /** The pass over the sorted records that finds the base timestamp and numbers the entries. */
  method CollectEntries(names: seq<string>, micros: seq<nat>, requireEntry: bool)
    returns (ok: bool, startTs: nat, entries: seq<string>, indices: map<string, nat>)
    requires Fits(micros) && |names| == |micros|
    ensures ok <==> !(requireEntry && exists k :: 0 <= k < |names| && names[k] == "")
    ensures ok ==> startTs == StartTs(micros) && entries == EntryList(names)
    ensures ok ==> forall k :: 0 <= k < |names| ==> names[k] in indices && indices[names[k]] == IndexOf(names, k)
  {
    startTs := U64 - 1;
    entries := [];
    indices := map[];
    for k := 0 to |names|
      invariant startTs == Earliest(micros, k) && entries == Distinct(names, k)
      invariant forall e :: e in indices <==> e in entries
      invariant forall i :: 0 <= i < |entries| ==> indices[entries[i]] == i
      invariant requireEntry ==> forall j :: 0 <= j < k ==> names[j] != ""
    {
      if requireEntry && names[k] == "" {
        return false, 0, [], map[];
      }
      startTs := Min(startTs, micros[k]);
      if names[k] !in indices {
        indices := indices[names[k] := |entries|];
        entries := entries + [names[k]];
      }
    }
    ok := true;
    forall k | 0 <= k < |names| ensures names[k] in indices && indices[names[k]] == IndexOf(names, k) {
      assert entries[IndexOf(names, k)] == names[k];
    }
  }

  method EncodeEntries(entries: seq<string>) returns (encoded: seq<string>)
    requires AllBytes(entries)
    ensures encoded == EncodeAll(entries)
  {
    encoded := [];
    for i := 0 to |entries|
      invariant |encoded| == i && forall j :: 0 <= j < i ==> encoded[j] == EncodeName(entries[j])
    {
      var e := EncodeEntryName(entries[i]);
      encoded := encoded + [e];
    }
  }

  /** The pass that emplaces one header for each sorted record. */
  method EmplaceRecords(
    sent: seq<BatchRecord>, names: seq<string>, micros: seq<nat>, kind: BatchType,
    base: Headers, startTs: nat, indices: map<string, nat>)
    returns (headers: Headers)
    requires |names| == |micros| == |sent| && Fits(micros) && startTs == StartTs(micros)
    requires forall k :: 0 <= k < |names| ==> names[k] in indices && indices[names[k]] == IndexOf(names, k)
    ensures Emplaced(headers, base, KeysOf(names, micros), ValuesOf(sent, kind), |sent|)
  {
    ghost var keys, values := KeysOf(names, micros), ValuesOf(sent, kind);
    headers := base;
    for k := 0 to |sent|
      invariant Emplaced(headers, base, keys, values, k)
    {
      EmplaceOne(headers, base, keys, values, k);
      var key := HeaderKey(indices[names[k]], micros[k] - startTs);
      assert key == keys[k];
      headers := Emplace(headers, key, HeaderValue(sent[k], kind));
    }
  }

  method BuildBatchV2Request(
    records: seq<BatchRecord>, defaultEntry: string, kind: BatchType, requireEntry: bool)
    returns (result: BuildResult)
    requires ByteRecords(records, defaultEntry)
    ensures result.EntryRequired?
            <==> requireEntry && defaultEntry == "" && exists k :: 0 <= k < |records| && records[k].entry == ""
    ensures records == [] ==> result == Built(Request([], [], 0, map[]))
    ensures records != [] && result.Built? ==> IsRequest(result.request, records, defaultEntry, kind)
  {
    var order := SortRecords(records, defaultEntry, true);
    SendOrderIsPermutation(records, defaultEntry, true, order);
    if order == [] {
      return Built(Request([], [], 0, map[]));
    }
    var sent := InOrder(records, order);
    var names, micros := EntriesOf(sent, defaultEntry), MicrosIn(sent);
    EntryMissing(records, defaultEntry, order);
    var ok, startTs, entries, indices := CollectEntries(names, micros, requireEntry);
    if !ok {
      return EntryRequired;
    }
    EntryListIsBytes(records, defaultEntry, order);
    var encoded := EncodeEntries(entries);
    var base: Headers := map[HEADER_ENTRIES := Join(encoded), HEADER_START_TS := Decimal(startTs)];
    var headers := EmplaceRecords(sent, names, micros, kind, base, startTs, indices);
    return Built(Request(order, entries, startTs, headers));
  }

  lemma {:induction false} EntryMissing(records: seq<BatchRecord>, defaultEntry: string, order: seq<nat>)
    requires ValidOrder(records, order) && forall i :: 0 <= i < |records| ==> i in order
    ensures var names := EntriesOf(InOrder(records, order), defaultEntry);
            (exists k :: 0 <= k < |names| && names[k] == "")
            <==> defaultEntry == "" && exists i :: 0 <= i < |records| && records[i].entry == ""
  {
    var names := EntriesOf(InOrder(records, order), defaultEntry);
    if i :| 0 <= i < |records| && records[i].entry == "" && defaultEntry == "" {
      assert i in order;
      var k :| 0 <= k < |order| && order[k] == i;
      assert names[k] == "";
    }
    if k :| 0 <= k < |names| && names[k] == "" {
      assert records[order[k]].entry == "" && defaultEntry == "";
    }
  }

  lemma {:induction false} DistinctFrom(names: seq<string>, n: nat)
    requires n <= |names|
    ensures forall e <- Distinct(names, n) :: exists k :: 0 <= k < n && names[k] == e
  {
    if n > 0 {
      DistinctFrom(names, n - 1);
    }
  }

  lemma {:induction false} EntryListIsBytes(records: seq<BatchRecord>, defaultEntry: string, order: seq<nat>)
    requires ByteRecords(records, defaultEntry) && ValidOrder(records, order)
    ensures AllBytes(EntryList(EntriesOf(InOrder(records, order), defaultEntry)))
  {
    var names := EntriesOf(InOrder(records, order), defaultEntry);
    DistinctFrom(names, |names|);
    var entries := EntryList(names);
    forall i | 0 <= i < |entries| ensures IsBytes(entries[i]) {
      assert entries[i] in entries;
      var k :| 0 <= k < |names| && names[k] == entries[i];
    }
  }
}
