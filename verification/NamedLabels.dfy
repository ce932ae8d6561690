/** Responses with a list of label names: a numeric label key stands for the name at that place. */
module NamedLabels {
  import opened Wrappers
  import opened Text
  import opened Numbers
  import opened Ordering
  import opened Batches
  import opened EntryNames
  import opened Labels
  import opened HeadersV2
  import opened ResponseV2
  import RoundTripV2

  predicate IsNumber(key: string) {
    key != "" && AllDigits(key)
  }

  /** The label that a key stands for. */
  function Named(key: string, names: seq<string>): string {
    if IsNumber(key) && Value(key) < |names| then names[Value(key)] else key
  }

  /** Some number in the text does not fit 64 bits. */
  predicate HasHugeNumber(raw: string) {
    exists from, to :: 0 <= from <= to <= |raw| && IsHuge(Substr(raw, from, to))
  }

  predicate IsHuge(key: string) {
    IsNumber(key) && Value(key) >= U64
  }

  lemma {:induction false} NumberParses(key: string)
    requires IsNumber(key)
    ensures StoUll(key) == if Value(key) < U64 then Some(Value(key)) else None
  {
    assert SkipSpaces(key, 0) == 0;
    MagnitudeAt(key, 0, key);
  }

  lemma {:induction false} KeyIsNamed(key: string, names: seq<string>)
    ensures LabelKey(key, Some(names)) == if IsHuge(key) then None else Some(Named(key, names))
  {
    if IsNumber(key) {
      NumberParses(key);
    }
  }

  // ---- One round, and all rounds ----

  /** A round with a list of names, against the same one without it. */
  predicate SameButNamed(step: Step, plain: Step, names: seq<string>) {
    match step
    case Throws => true
    case Ends => plain == Ends
    case Next(op, pos) => plain.Next? && plain.pos == pos && op == LabelOp(Named(plain.op.key, names), plain.op.value)
  }

  lemma {:induction false} RoundIsNamed(raw: string, pos: nat, names: seq<string>)
    requires pos <= |raw|
    ensures SameButNamed(NextOp(raw, pos, Some(names)), NextOp(raw, pos, None), names)
    ensures NextOp(raw, pos, Some(names)).Throws? ==> HasHugeNumber(raw)
  {
    var eq := Find(raw, '=', pos);
    if eq < |raw| {
      KeyIsNamed(TrimRange(raw, pos, eq), names);
      var start := SkipBlanks(raw, pos, eq);
      assert TrimRange(raw, pos, eq) == Substr(raw, start, DropBlanks(raw, start, eq));
    }
  }

  /** The operations with a list of names are those without it, on the labels that their keys stand for. */
  predicate OpsAreNamed(ops: seq<LabelOp>, plain: seq<LabelOp>, names: seq<string>) {
    && |ops| == |plain|
    && forall i :: 0 <= i < |ops| ==> ops[i] == LabelOp(Named(plain[i].key, names), plain[i].value)
  }

  lemma {:induction false} ScanIsNamed(round: Rounds, plain: Rounds, names: seq<string>, pos: nat, size: nat)
    requires pos <= size
    requires forall p: nat :: p <= size ==> SameButNamed(round(p), plain(p), names)
    ensures var ops, without := Scan(round, pos, size), Scan(plain, pos, size);
            ops.Some? ==> without.Some? && OpsAreNamed(ops.value, without.value, names)
    ensures (forall p: nat :: p <= size ==> !round(p).Throws?) ==> Scan(round, pos, size).Some?
    decreases size - pos
  {
    var step := round(pos);
    assert SameButNamed(step, plain(pos), names);
    if step.Next? && pos < step.pos <= size {
      ScanIsNamed(round, plain, names, step.pos, size);
    }
  }

  /** Any label text has with a list of names the same operations, on the labels that its keys stand for. */
  lemma {:induction false} OpsNamed(raw: string, names: seq<string>)
    ensures var ops, plain := ParseOps(raw, Some(names)), ParseOps(raw, None);
            ops.Some? ==> plain.Some? && OpsAreNamed(ops.value, plain.value, names)
    ensures ParseOps(raw, Some(names)).None? ==> HasHugeNumber(raw)
  {
    var round, plain := RoundsOf(raw, Some(names)), RoundsOf(raw, None);
    forall p: nat | p <= |raw|
      ensures SameButNamed(round(p), plain(p), names)
      ensures round(p).Throws? ==> HasHugeNumber(raw)
    {
      RoundIsNamed(raw, p, names);
    }
    ScanIsNamed(round, plain, names, 0, |raw|);
  }

  // ---- A response ----

  function NamedOps(plain: seq<LabelOp>, names: seq<string>): (ops: seq<LabelOp>)
    ensures OpsAreNamed(ops, plain, names)
  {
    seq(|plain|, i requires 0 <= i < |plain| => LabelOp(Named(plain[i].key, names), plain[i].value))
  }

  /** What a label text makes of the labels of the record before. */
  lemma {:induction false} LabelsNamed(raw: string, base: LabelMap, names: seq<string>)
    requires !HasHugeNumber(raw)
    ensures ParseOps(raw, None).Some?
    ensures LabelDelta(raw, base, Some(names)) == Some(ApplyOps(base, NamedOps(ParseOps(raw, None).value, names)))
  {
    OpsNamed(raw, names);
    assert ParseOps(raw, Some(names)).value == NamedOps(ParseOps(raw, None).value, names);
  }

  lemma {:induction false} NamesComeBack(headers: Headers, names: seq<string>)
    requires AllBytes(names) && GoodNames(names)
    requires "x-reduct-labels" in headers && headers["x-reduct-labels"] == Join(EncodeAll(names))
    ensures LabelNames(headers) == Some(names)
  {
    EntryListRoundTrip(names);
  }

  /** A header with three parts, of which the last is a label text. */
  lemma {:induction false} HeaderNamed(
    raw: string, size: nat, contentType: string, text: string, previous: Option<RecordHeader>, names: seq<string>)
    requires raw == Decimal(size) + "," + (contentType + ("," + text)) && size < U64
    requires ',' !in contentType && !HasHugeNumber(text)
    ensures ParseOps(text, None).Some?
    ensures var parsed := ParserFor(Some(names))(raw, previous);
            && parsed.Parsed? && parsed.header.contentLength == size
            && parsed.header.labels
               == ApplyOps(InheritedLabels(previous), NamedOps(ParseOps(text, None).value, names))
  {
    var d := Decimal(size);
    FirstOfThree(raw, d, contentType, text);
    LengthInFront(raw, size);
    ThreeParts(raw, d, contentType, text);
    LabelsNamed(text, InheritedLabels(previous), names);
  }

  lemma {:induction false} FirstOfThree(raw: string, a: string, b: string, c: string)
    requires raw == a + "," + (b + ("," + c)) && AllDigits(a)
    ensures At(raw, 0, a) && Find(raw, ',', 0) == |a|
  {
    AtSplit(raw, 0, a + ",", b + ("," + c));
    AtSplit(raw, 0, a, ",");
    assert raw[|a|] == ","[0];
    FindAfterPiece(raw, 0, a, ',', 0);
  }

  lemma {:induction false} OneInMultiset<T>(s: seq<T>, x: T)
    requires multiset(s) == multiset{x}
    ensures s == [x]
  {
    assert |multiset(s)| == 1;
    assert s[0] in multiset(s);
  }

  lemma {:induction false} OneFound(
    read: string -> seq<HeaderEntry>, names: set<string>, iteration: seq<string>, name: string, x: HeaderEntry)
    requires Enumerates(iteration, names) && name in names && read(name) == [x]
    requires forall other <- names :: other != name ==> read(other) == []
    ensures Collect(read, iteration, |iteration|) == [x]
  {
    assert name in iteration;
    var i :| 0 <= i < |iteration| && iteration[i] == name;
    forall j | 0 <= j < |iteration| && j != i ensures read(iteration[j]) == [] {
      assert iteration[j] in iteration;
      assert i < j || j < i;
    }
    OneCollected(read, iteration, |iteration|, i, x);
  }

  /** With one record header there is one header to sort. */
  lemma {:induction false} OneHeader(
    headers: Headers, iteration: seq<string>, sorted: seq<HeaderEntry>, idx: nat, delta: nat)
    requires idx < U64 && delta < U64 && HeaderKey(idx, delta) in headers
    requires forall name <- headers :: ParseBatchedHeaderName(name).Some? ==> name == HeaderKey(idx, delta)
    requires Enumerates(iteration, headers.Keys)
    requires multiset(sorted) == multiset(EntriesIn(headers, iteration))
    ensures sorted == [HeaderEntry(idx, delta, headers[HeaderKey(idx, delta)])]
  {
    var name := HeaderKey(idx, delta);
    HeaderKeyComesBack(idx, delta);
    var x := HeaderEntry(idx, delta, headers[name]);
    OneFound(ReaderOf(headers), headers.Keys, iteration, name, x);
    OneInMultiset(sorted, x);
  }

  lemma {:induction false} OneCollected<A, B>(f: A -> seq<B>, items: seq<A>, n: nat, i: nat, x: B)
    requires i < |items| && n <= |items| && f(items[i]) == [x]
    requires forall j :: 0 <= j < |items| && j != i ==> f(items[j]) == []
    ensures Collect(f, items, n) == if i < n then [x] else []
  {
    if n > 0 {
      OneCollected(f, items, n - 1, i, x);
    }
  }

  /** A response for one entry with a list of label names and one record header. */
  ghost predicate IsNamedResponse(headers: Headers, entry: string, startTs: nat, names: seq<string>, delta: nat) {
    && IsBytes(entry) && GoodName(entry) && startTs < U64 && delta < U64 && AllBytes(names) && GoodNames(names)
    && "x-reduct-entries" in headers && headers["x-reduct-entries"] == EncodeName(entry)
    && "x-reduct-start-ts" in headers && headers["x-reduct-start-ts"] == Decimal(startTs)
    && "x-reduct-labels" in headers && headers["x-reduct-labels"] == Join(EncodeAll(names))
    && HeaderKey(0, delta) in headers
    && forall name <- headers :: ParseBatchedHeaderName(name).Some? ==> name == HeaderKey(0, delta)
  }

  lemma {:induction false} NamedPreamble(
    headers: Headers, entry: string, startTs: nat, names: seq<string>, delta: nat)
    requires IsNamedResponse(headers, entry, startTs, names, delta)
    ensures Preamble(headers) == Some(([entry], startTs)) && LabelNames(headers) == Some(names)
  {
    EntryListRoundTrip([entry]);
    assert Join(EncodeAll([entry])) == EncodeName(entry);
    StoUllDecimal(startTs);
    NamesComeBack(headers, names);
  }

  lemma {:induction false} DecodeOneHeader(
    h: HeaderEntry, entry: string, startTs: nat, parse: HeaderParser, header: RecordHeader)
    requires h.idx == 0 && parse(h.value, None) == Parsed(header)
    ensures DecodeFrom([h], 0, [entry], startTs, parse, NoHeaders(1))
            == Some([RecordFor(entry, startTs + h.delta, header)])
  {
    RoundTripV2.DecodeStep([h], 0, h, [entry], startTs, parse, NoHeaders(1), header, []);
    var record := RecordFor(entry, startTs + h.delta, header);
    assert [record] + [] == [record];
  }

  /**
   The record of such a response has the labels that its text sets, where a number stands for the name at that place in
   the list; a number that is too large for the list stands for itself.
   */
  lemma {:induction false} NamedLabelsArrive(
    headers: Headers, iteration: seq<string>, sorted: seq<HeaderEntry>, records: Option<seq<ReadableRecord>>,
    entry: string, startTs: nat, names: seq<string>, delta: nat, size: nat, contentType: string, text: string)
    requires IsNamedResponse(headers, entry, startTs, names, delta)
    requires headers[HeaderKey(0, delta)] == Decimal(size) + "," + (contentType + ("," + text)) && size < U64
    requires ',' !in contentType && !HasHugeNumber(text)
    requires Enumerates(iteration, headers.Keys) && IsDecoded(headers, iteration, sorted, records)
    ensures records.Some? && |records.value| == 1 && ParseOps(text, None).Some?
    ensures records.value[0].entry == entry && records.value[0].size == size
    ensures records.value[0].labels == ApplyOps(map[], NamedOps(ParseOps(text, None).value, names))
  {
    NamedPreamble(headers, entry, startTs, names, delta);
    OneHeader(headers, iteration, sorted, 0, delta);
    var raw, parse := headers[HeaderKey(0, delta)], ParserFor(Some(names));
    HeaderNamed(raw, size, contentType, text, None, names);
    DecodeOneHeader(HeaderEntry(0, delta, raw), entry, startTs, parse, parse(raw, None).header);
  }

  lemma {:induction false} NumberKey(i: nat)
    ensures IsNumber(Decimal(i)) && GoodKey(Decimal(i), true)
  {
    var key := Decimal(i);
    assert IsDigit(key[0]) && IsDigit(key[|key| - 1]);
  }

  /** A text with one label has one operation. */
  lemma {:induction false} OneLabel(key: string, value: string)
    requires GoodKey(key, true) && GoodValue(value)
    ensures ParseOps(LabelItem(key, value), None) == Some([OpOf(key, value)])
  {
    var raw := LabelItem(key, value);
    LabelComesBack(raw, 0, key, value, true);
    ScanOnce(RoundsOf(raw, None), OpOf(key, value), |raw|);
  }

  lemma {:induction false} ScanOnce(round: Rounds, op: LabelOp, size: nat)
    requires size > 0 && round(0) == Next(op, size) && round(size) == Ends
    ensures Scan(round, 0, size) == Some([op])
  {
    assert Scan(round, size, size) == Some([]);
    assert [op] + [] == [op];
  }

  /** In particular a number below the length of the list is read as the name at that place. */
  lemma {:induction false} NumberIsName(i: nat, value: string, names: seq<string>)
    requires value != "" && GoodValue(value)
    ensures var ops := ParseOps(LabelItem(Decimal(i), value), None);
            && ops.Some?
            && ApplyOps(map[], NamedOps(ops.value, names))
               == map[(if i < |names| then names[i] else Decimal(i)) := value]
  {
    NumberKey(i);
    OneLabel(Decimal(i), value);
    ValueOfDecimal(i);
    var ops := NamedOps([OpOf(Decimal(i), value)], names);
    assert ops == [LabelOp(Named(Decimal(i), names), Some(value))];
    assert ops[1..] == [];
  }
}
