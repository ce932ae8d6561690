/** Records, and the class Batch that collects what one request carries. */
module Batches {
  import opened Wrappers
  import opened Text
  import opened Numbers
  import opened Ordering

  type LabelMap = map<string, string>

  // IHttpClient::Headers
  type Headers = map<string, string>

  // IBucket::Time as the signed count of nanoseconds that system_clock keeps.
  type Time = int

  /** IBucket::Batch::Record. */
  datatype BatchRecord = BatchRecord(
    entry: string,
    timestamp: Time,
    size: nat,
    contentType: string,
    labels: LabelMap,
    dataIndex: Option<nat>)

  /** IBucket::ReadableRecord without its Read closure. */
  datatype ReadableRecord = ReadableRecord(
    entry: string,
    timestamp: Time,
    size: nat,
    last: bool,
    labels: LabelMap,
    contentType: string)

  /** ToMicroseconds: duration_cast truncates toward zero. */
  function ToMicroseconds(t: Time): int {
    if t >= 0 then t / 1000 else -((-t) / 1000)
  }

  /** FromMicroseconds applied to a parsed count, and `Time() + microseconds(us)`: the count is stored as int64_t. */
  function FromMicroseconds(us: nat): Time {
    1000 * if us < I64_MAX then us else us - U64
  }

  function RecordEntry(record: BatchRecord, defaultEntry: string): string {
    if record.entry == "" then defaultEntry else record.entry
  }

  // ---- The flat sequence that Slice walks ----

  function Flatten(parts: seq<string>): string {
    if parts == [] then "" else parts[0] + Flatten(parts[1..])
  }

  /** The payload of a record; a record without data contributes nothing. */
  function Payload(body: seq<string>, record: BatchRecord): string
    requires record.dataIndex.Some? ==> record.dataIndex.value < |body|
  {
    if record.dataIndex.Some? then body[record.dataIndex.value] else ""
  }

  predicate ValidOrder(records: seq<BatchRecord>, order: seq<nat>) {
    forall k :: 0 <= k < |order| ==> order[k] < |records|
  }

  predicate HoldsPayload(record: BatchRecord, body: seq<string>) {
    (record.dataIndex.Some? ==> record.dataIndex.value < |body|) && record.size == |Payload(body, record)|
  }

  predicate ValidRecords(records: seq<BatchRecord>, body: seq<string>) {
    forall k :: 0 <= k < |records| ==> HoldsPayload(records[k], body)
  }

  /** The payloads in the given order, which the source never concatenates. */
  function PayloadsIn(records: seq<BatchRecord>, body: seq<string>, order: seq<nat>): (parts: seq<string>)
    requires ValidRecords(records, body) && ValidOrder(records, order)
    ensures |parts| == |order|
    ensures forall k :: 0 <= k < |order| ==> parts[k] == Payload(body, records[order[k]])
  {
    seq(|order|, k requires 0 <= k < |order| => Payload(body, records[order[k]]))
  }

  function Min(a: nat, b: nat): nat {
    if a <= b then a else b
  }

  /** The interval [offset, offset + size) of a string, clipped to its end. */
  function Clip(s: string, offset: nat, size: nat): string {
    if offset >= |s| then "" else s[offset..Min(offset + size, |s|)]
  }

  function TotalSize(records: seq<BatchRecord>): nat {
    if records == [] then 0 else TotalSize(records[..|records| - 1]) + records[|records| - 1].size
  }

  /** The data indices of the records, in the order the records were added. */
  function DataIndices(records: seq<BatchRecord>): seq<nat> {
    if records == [] then []
    else
      var r := records[|records| - 1];
      DataIndices(records[..|records| - 1]) + if r.dataIndex.Some? then [r.dataIndex.value] else []
  }

  function Indices(n: nat): (s: seq<nat>)
    ensures |s| == n && forall i :: 0 <= i < n ==> s[i] == i
  {
    seq(n, i => i)
  }

  // ---- The class ----

  class Batch {
    var records: seq<BatchRecord>
    var body: seq<string>
    var size: nat

    /** Sizes add up, and the data indices number the payloads without gaps or repeats. */
    ghost predicate Valid()
      reads this
    {
      && ValidRecords(records, body)
      && size == TotalSize(records)
      && DataIndices(records) == Indices(|body|)
    }

    constructor ()
      ensures Valid() && records == [] && body == [] && size == 0
    {
      records := [];
      body := [];
      size := 0;
    }

    /** `shared` is the payload, or None for a null pointer, which stands for an empty payload. */
    method AddRecord(entry: string, timestamp: Time, shared: Option<string>, contentType: string, labels: LabelMap)
      requires Valid()
      modifies this
      ensures Valid()
      ensures var data := if shared.Some? then shared.value else "";
              && records == old(records)
                            + [BatchRecord(entry, timestamp, |data|, contentType, labels, Some(|old(body)|))]
              && body == old(body) + [data] && size == old(size) + |data|
    {
      var data := "";
      if shared.Some? {
        data := shared.value;
      }
      var index := |body|;
      body := body + [data];
      size := size + |data|;
      records := records + [BatchRecord(entry, timestamp, |data|, contentType, labels, Some(index))];
      assert records[..|records| - 1] == old(records);
      assert Indices(|body|) == Indices(index) + [index];
      forall k | 0 <= k < |records| ensures HoldsPayload(records[k], body) {
        if k < |old(records)| {
          assert HoldsPayload(old(records)[k], old(body));
        }
      }
    }

    method AddEmptyRecord(entry: string, timestamp: Time)
      requires Valid()
      modifies this
      ensures Valid()
      ensures records == old(records) + [BatchRecord(entry, timestamp, 0, "", map[], None)]
      ensures body == old(body) && size == old(size)
    {
      records := records + [BatchRecord(entry, timestamp, 0, "", map[], None)];
      assert records[..|records| - 1] == old(records);
    }

    method AddOnlyLabels(entry: string, timestamp: Time, labels: LabelMap)
      requires Valid()
      modifies this
      ensures Valid()
      ensures records == old(records) + [BatchRecord(entry, timestamp, 0, "", labels, None)]
      ensures body == old(body) && size == old(size)
    {
      records := records + [BatchRecord(entry, timestamp, 0, "", labels, None)];
      assert records[..|records| - 1] == old(records);
    }

    /** Slice with an explicit order: walks the payloads without building their concatenation. */
    method SliceInOrder(order: seq<nat>, offset: nat, length: nat) returns (result: string)
      requires Valid() && ValidOrder(records, order)
      ensures result == if offset >= size then "" else Clip(Flatten(PayloadsIn(records, body, order)), offset, length)
    {
      if offset >= size {
        return "";
      }
      ghost var parts := PayloadsIn(records, body, order);
      ghost var all := Flatten(parts);
      var at := Cursor(offset, length, "");
      assert parts[0..] == parts;
      for k := 0 to |order|
        invariant at.result + Clip(Flatten(parts[k..]), at.offset, at.size) == Clip(all, offset, length)
      {
        assert parts[k..] == [parts[k]] + parts[k + 1..];
        var record := records[order[k]];
        if record.dataIndex.None? {
          assert parts[k] == "" && Flatten(parts[k..]) == Flatten(parts[k + 1..]);
          continue;
        }
        ghost var before := at;
        at := ProcessData(at, body[record.dataIndex.value]);
        ProcessDataAdvances(before, parts[k], Flatten(parts[k + 1..]));
        if at.size == 0 {
          assert Clip(Flatten(parts[k + 1..]), at.offset, 0) == "";
          return at.result;
        }
      }
      assert parts[|order|..] == [];
      return at.result;
    }

    /** Slice without an order: the payloads as they were added. */
    method Slice(offset: nat, length: nat) returns (result: string)
      requires Valid()
      ensures result == Clip(Flatten(body), offset, length)
    {
      assert records[..|records|] == records && body[..|body|] == body;
      BodySize(records, body, |records|);
      if offset >= size {
        return "";
      }
      var at := Cursor(offset, length, "");
      assert body[0..] == body;
      for k := 0 to |body|
        invariant at.result + Clip(Flatten(body[k..]), at.offset, at.size) == Clip(Flatten(body), offset, length)
      {
        assert body[k..] == [body[k]] + body[k + 1..];
        ghost var before := at;
        at := ProcessData(at, body[k]);
        ProcessDataAdvances(before, body[k], Flatten(body[k + 1..]));
        if at.size == 0 {
          assert Clip(Flatten(body[k + 1..]), at.offset, 0) == "";
          return at.result;
        }
      }
      assert body[|body|..] == [];
      return at.result;
    }
  }

  // ---- The step of Slice ----

  datatype Cursor = Cursor(offset: nat, size: nat, result: string)

  /** The lambda process_data. */
  function ProcessData(at: Cursor, data: string): Cursor {
    if at.offset < |data| then
      var n := Min(at.size, |data| - at.offset);
      Cursor(0, at.size - n, at.result + data[at.offset..at.offset + n])
    else
      Cursor(at.offset - |data|, at.size, at.result)
  }

  /** An interval that begins in the first of two pieces. */
  lemma {:induction false} ClipAcross(data: string, rest: string, offset: nat, size: nat)
    requires offset < |data|
    ensures var n := Min(size, |data| - offset);
            Clip(data + rest, offset, size) == data[offset..offset + n] + Clip(rest, 0, size - n)
  {
    var n := Min(size, |data| - offset);
    var l, r := Clip(data + rest, offset, size), data[offset..offset + n] + Clip(rest, 0, size - n);
    assert |l| == |r|;
    forall i | 0 <= i < |l| ensures l[i] == r[i] {
      assert l[i] == (data + rest)[offset + i];
      if i >= n {
        assert n == |data| - offset && r[i] == rest[i - n];
      }
    }
  }

  /** One that begins in the second. */
  lemma {:induction false} ClipBehind(data: string, rest: string, offset: nat, size: nat)
    requires offset >= |data|
    ensures Clip(data + rest, offset, size) == Clip(rest, offset - |data|, size)
  {
    var l, r := Clip(data + rest, offset, size), Clip(rest, offset - |data|, size);
    assert |l| == |r|;
    forall i | 0 <= i < |l| ensures l[i] == r[i] {
      assert l[i] == (data + rest)[offset + i] == rest[offset - |data| + i];
    }
  }

  lemma {:induction false} ProcessDataAdvances(at: Cursor, data: string, rest: string)
    ensures var next := ProcessData(at, data);
            next.result + Clip(rest, next.offset, next.size) == at.result + Clip(data + rest, at.offset, at.size)
  {
    if at.offset < |data| {
      var n := Min(at.size, |data| - at.offset);
      ClipAcross(data, rest, at.offset, at.size);
      ConcatAssociative(at.result, data[at.offset..at.offset + n], Clip(rest, 0, at.size - n));
    } else {
      ClipBehind(data, rest, at.offset, at.size);
    }
  }

  // ---- Sizes ----

  function Sum(sizes: seq<nat>): nat {
    if sizes == [] then 0 else sizes[0] + Sum(sizes[1..])
  }

  function Lengths(parts: seq<string>): (sizes: seq<nat>)
    ensures |sizes| == |parts| && forall k :: 0 <= k < |parts| ==> sizes[k] == |parts[k]|
  {
    seq(|parts|, k requires 0 <= k < |parts| => |parts[k]|)
  }

  lemma {:induction false} FlattenLength(parts: seq<string>)
    ensures |Flatten(parts)| == Sum(Lengths(parts))
  {
    if parts != [] {
      FlattenLength(parts[1..]);
      assert Lengths(parts)[1..] == Lengths(parts[1..]);
    }
  }

  lemma {:induction false} FlattenAppend(a: seq<string>, b: seq<string>)
    ensures Flatten(a + b) == Flatten(a) + Flatten(b)
  {
    if a == [] {
      assert a + b == b;
    } else {
      assert (a + b)[1..] == a[1..] + b;
      FlattenAppend(a[1..], b);
    }
  }

  /** The first n records hold exactly the payloads numbered by their data indices. */
  lemma {:induction false} BodySize(records: seq<BatchRecord>, body: seq<string>, n: nat)
    requires ValidRecords(records, body) && n <= |records|
    requires DataIndices(records[..n]) == Indices(|DataIndices(records[..n])|)
    requires |DataIndices(records[..n])| <= |body|
    ensures |Flatten(body[..|DataIndices(records[..n])|])| == TotalSize(records[..n])
  {
    if n == 0 {
      assert body[..0] == [];
    } else {
      var head := records[..n - 1];
      var r := records[n - 1];
      assert records[..n][..n - 1] == head && HoldsPayload(r, body);
      var d := |DataIndices(head)|;
      var all := DataIndices(records[..n]);
      assert DataIndices(head) == all[..d];
      assert forall i :: 0 <= i < d ==> all[i] == i;
      assert DataIndices(head) == Indices(d);
      BodySize(records, body, n - 1);
      if r.dataIndex.Some? {
        assert all[d] == r.dataIndex.value == d;
        assert body[..d + 1] == body[..d] + [body[d]];
        FlattenAppend(body[..d], [body[d]]);
        assert Flatten([body[d]]) == body[d];
      }
    }
  }

  function SumOf(records: seq<BatchRecord>, order: seq<nat>): nat
    requires ValidOrder(records, order)
  {
    if order == [] then 0 else records[order[0]].size + SumOf(records, order[1..])
  }

  lemma {:induction false} SumOfAppend(records: seq<BatchRecord>, a: seq<nat>, b: seq<nat>)
    requires ValidOrder(records, a) && ValidOrder(records, b)
    ensures SumOf(records, a + b) == SumOf(records, a) + SumOf(records, b)
  {
    if a == [] {
      assert a + b == b;
    } else {
      assert (a + b)[1..] == a[1..] + b;
      SumOfAppend(records, a[1..], b);
    }
  }

  lemma {:induction false} SumOfWithout(records: seq<BatchRecord>, order: seq<nat>, p: nat)
    requires ValidOrder(records, order) && p < |order|
    ensures SumOf(records, order) == records[order[p]].size + SumOf(records, order[..p] + order[p + 1..])
  {
    assert order == order[..p] + ([order[p]] + order[p + 1..]);
    SumOfAppend(records, order[..p], [order[p]] + order[p + 1..]);
    SumOfAppend(records, [order[p]], order[p + 1..]);
    SumOfAppend(records, order[..p], order[p + 1..]);
  }

  /** An order without repeats never covers more than the whole batch; covering all of it, it covers exactly that. */
  lemma {:induction false} OrderedSize(records: seq<BatchRecord>, order: seq<nat>, n: nat)
    requires n <= |records| && NoDuplicates(order)
    requires forall k :: 0 <= k < |order| ==> order[k] < n
    ensures SumOf(records, order) <= TotalSize(records[..n])
    ensures |order| == n ==> SumOf(records, order) == TotalSize(records[..n])
    ensures |order| <= n
  {
    if n == 0 {
      assert order == [];
    } else {
      assert records[..n][..n - 1] == records[..n - 1];
      if p :| 0 <= p < |order| && order[p] == n - 1 {
        var rest := order[..p] + order[p + 1..];
        SumOfWithout(records, order, p);
        assert forall q :: 0 <= q < |rest| ==> rest[q] == order[if q < p then q else q + 1];
        OrderedSize(records, rest, n - 1);
      } else {
        OrderedSize(records, order, n - 1);
      }
    }
  }

  lemma {:induction false} FlattenInOrderLength(records: seq<BatchRecord>, body: seq<string>, order: seq<nat>)
    requires ValidRecords(records, body) && ValidOrder(records, order)
    ensures |Flatten(PayloadsIn(records, body, order))| == SumOf(records, order)
  {
    if order != [] {
      var parts := PayloadsIn(records, body, order);
      assert parts[1..] == PayloadsIn(records, body, order[1..]);
      assert HoldsPayload(records[order[0]], body);
      FlattenInOrderLength(records, body, order[1..]);
    }
  }

  /** For every duplicate-free order the early exit on `size` is invisible: Slice is the clipped interval. */
  lemma {:induction false} SliceIsInterval(
    records: seq<BatchRecord>, body: seq<string>, order: seq<nat>, offset: nat, length: nat)
    requires ValidRecords(records, body) && ValidOrder(records, order) && NoDuplicates(order)
    ensures var flat := Flatten(PayloadsIn(records, body, order));
            && |flat| <= TotalSize(records)
            && (|order| == |records| ==> |flat| == TotalSize(records))
            && (if offset >= TotalSize(records) then "" else Clip(flat, offset, length)) == Clip(flat, offset, length)
  {
    FlattenInOrderLength(records, body, order);
    OrderedSize(records, order, |records|);
    assert records[..|records|] == records;
  }

  /**
   The early exit is invisible, at every offset and length, exactly when the order covers no more bytes than the batch
   has: otherwise the tail of the concatenation is never sent.
   */
  lemma {:induction false} EarlyExitIsInvisible(records: seq<BatchRecord>, body: seq<string>, order: seq<nat>)
    requires ValidRecords(records, body) && ValidOrder(records, order)
    ensures var flat := Flatten(PayloadsIn(records, body, order));
            (forall offset: nat, length: nat ::
               (if offset >= TotalSize(records) then "" else Clip(flat, offset, length)) == Clip(flat, offset, length))
            <==> SumOf(records, order) <= TotalSize(records)
  {
    var flat := Flatten(PayloadsIn(records, body, order));
    FlattenInOrderLength(records, body, order);
    if |flat| > TotalSize(records) {
      assert Clip(flat, TotalSize(records), 1) != "";
    }
  }

  /** Slices of the given sizes, each from where the one before ended. */
  function Tiles(s: string, offset: nat, sizes: seq<nat>): seq<string>
    decreases |sizes|
  {
    if sizes == [] then [] else [Clip(s, offset, sizes[0])] + Tiles(s, offset + sizes[0], sizes[1..])
  }

  /** Consecutive slices tile the sequence. */
  lemma {:induction false} SlicesTile(s: string, offset: nat, sizes: seq<nat>)
    ensures Flatten(Tiles(s, offset, sizes)) == Clip(s, offset, Sum(sizes))
    decreases |sizes|
  {
    if sizes != [] {
      var first, rest := Clip(s, offset, sizes[0]), Tiles(s, offset + sizes[0], sizes[1..]);
      assert ([first] + rest)[1..] == rest;
      SlicesTile(s, offset + sizes[0], sizes[1..]);
    } else {
      assert Clip(s, offset, 0) == "";
    }
  }
}
