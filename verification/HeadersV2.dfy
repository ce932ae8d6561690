/** One batch header of protocol v2: its name says which entry and when, its value describes the record. */
module HeadersV2 {
  import opened Wrappers
  import opened Text
  import opened Numbers
  import opened Batches
  import opened Labels

  const HEADER_PREFIX := "x-reduct-"
  const HEADER_ERROR_PREFIX := "x-reduct-error-"
  const HEADER_LAST := "x-reduct-last"
  const HEADER_ENTRIES := "x-reduct-entries"
  const HEADER_START_TS := "x-reduct-start-ts"
  const HEADER_LABELS := "x-reduct-labels"
  const DEFAULT_CONTENT_TYPE := "application/octet-stream"

  datatype BatchType = Write | Update | Remove

  // ---- Names ----

  /** Entry index and delta as they stand in a header name. */
  function IndexAndDelta(idx: nat, delta: nat): string {
    Decimal(idx) + "-" + Decimal(delta)
  }

  function HeaderKey(idx: nat, delta: nat): string {
    HEADER_PREFIX + IndexAndDelta(idx, delta)
  }

  /**
   The texts before and after the last dash behind a prefix of the given length, which itself ends in
   a dash: so the suffix has a dash exactly when the last dash of the name is not in the prefix.
   */
  function SplitAtLastDash(name: string, prefix: nat): Option<(string, string)>
    requires prefix <= |name|
  {
    var dash := RFind(name, '-');
    if dash < prefix then None
    else Some((Substr(name, prefix, dash), Substr(name, dash + 1, |name|)))
  }

  function ParseBatchedHeaderName(name: string): Option<(nat, nat)> {
    if !StartsWith(name, HEADER_PREFIX) || StartsWith(name, HEADER_ERROR_PREFIX) then None
    else
      var parts :- SplitAtLastDash(name, |HEADER_PREFIX|);
      var idx :- StoUll(parts.0);
      var delta :- StoUll(parts.1);
      Some((idx, delta))
  }

  lemma {:induction false} SplitAtDash(name: string, prefix: nat, a: string, b: string)
    requires At(name, prefix, a) && prefix + |a| < |name| && name[prefix + |a|] == '-'
    requires At(name, prefix + |a| + 1, b) && |name| == prefix + |a| + 1 + |b| && '-' !in b
    ensures SplitAtLastDash(name, prefix) == Some((a, b))
  {
    var at := prefix + |a|;
    var dash := RFind(name, '-');
    RFindSkips(name, '-', |name|);
    forall k | at < k < |name| ensures name[k] != '-' {
      assert b[k - at - 1] in b;
    }
    AtSlice(name, prefix, a);
    AtSlice(name, at + 1, b);
  }

  lemma {:induction false} PartsOfPrinted(prefix: string, a: string, b: string)
    ensures var name := prefix + (a + "-" + b);
            && At(name, |prefix|, a) && name[|prefix| + |a|] == '-' && At(name, |prefix| + |a| + 1, b)
  {
    var name := prefix + (a + "-" + b);
    AtSplit(name, 0, prefix, a + "-" + b);
    AtSplit(name, |prefix|, a + "-", b);
    AtSplit(name, |prefix|, a, "-");
    assert name[|prefix| + |a|] == "-"[0];
  }

  lemma {:induction false} SplitParts(prefix: string, a: string, b: string)
    requires '-' !in b
    ensures SplitAtLastDash(prefix + (a + "-" + b), |prefix|) == Some((a, b))
  {
    PartsOfPrinted(prefix, a, b);
    SplitAtDash(prefix + (a + "-" + b), |prefix|, a, b);
  }

  /** Index and delta of a printed name are found again behind any prefix that ends in a dash. */
  lemma {:induction false} SplitPrinted(prefix: string, idx: nat, delta: nat)
    ensures SplitAtLastDash(prefix + IndexAndDelta(idx, delta), |prefix|) == Some((Decimal(idx), Decimal(delta)))
  {
    SplitParts(prefix, Decimal(idx), Decimal(delta));
  }

  lemma {:induction false} KeyIsNoError(idx: nat, delta: nat)
    ensures StartsWith(HeaderKey(idx, delta), HEADER_PREFIX)
    ensures !StartsWith(HeaderKey(idx, delta), HEADER_ERROR_PREFIX)
  {
    var name := HeaderKey(idx, delta);
    PartsOfPrinted(HEADER_PREFIX, Decimal(idx), Decimal(delta));
    assert name[9] == Decimal(idx)[0] && IsDigit(Decimal(idx)[0]);
    assert HEADER_ERROR_PREFIX[9] == 'e';
  }

  /** A header name read by the decoder gives back the entry index and the delta it was built from. */
  lemma {:induction false} HeaderKeyComesBack(idx: nat, delta: nat)
    requires idx < U64 && delta < U64
    ensures ParseBatchedHeaderName(HeaderKey(idx, delta)) == Some((idx, delta))
  {
    KeyIsNoError(idx, delta);
    SplitPrinted(HEADER_PREFIX, idx, delta);
    StoUllDecimal(idx);
    StoUllDecimal(delta);
  }

  lemma {:induction false} HeaderKeyInjective(i: nat, d: nat, i': nat, d': nat)
    requires HeaderKey(i, d) == HeaderKey(i', d')
    ensures i == i' && d == d'
  {
    SplitPrinted(HEADER_PREFIX, i, d);
    SplitPrinted(HEADER_PREFIX, i', d');
    DecimalInjective(i, i');
    DecimalInjective(d, d');
  }

  /** The other headers of a batch are not taken for records, and no record header has their names. */
  lemma {:induction false} OtherHeadersAreNoRecords()
    ensures ParseBatchedHeaderName(HEADER_ENTRIES) == None
    ensures ParseBatchedHeaderName(HEADER_START_TS) == None
    ensures ParseBatchedHeaderName(HEADER_LAST) == None
    ensures ParseBatchedHeaderName(HEADER_LABELS) == None
  {
    NoDashBehindPrefix(HEADER_ENTRIES);
    NoDashBehindPrefix(HEADER_LAST);
    NoDashBehindPrefix(HEADER_LABELS);
    var s := HEADER_START_TS;
    assert At(s, 9, "start") && s[14] == '-' && At(s, 15, "ts");
    SplitAtDash(s, 9, "start", "ts");
    NoNumber("start");
  }

  lemma {:induction false} NoNumber(s: string)
    requires s != "" && 'a' <= s[0] <= 'z'
    ensures StoUll(s) == None
  {
    assert SkipSpaces(s, 0) == 0;
    assert DigitsEnd(s, 0) == 0;
  }

  lemma {:induction false} NoDashBehindPrefix(s: string)
    requires |s| >= 9 && forall i :: 9 <= i < |s| ==> s[i] != '-'
    ensures ParseBatchedHeaderName(s) == None
  {
  }

  // ---- Values ----

  datatype RecordHeader = RecordHeader(contentLength: nat, contentType: string, labels: LabelMap)

  /** Throws is an exception that nobody catches, Rejected the nullopt for which the record is skipped. */
  datatype ParsedHeader = Throws | Rejected | Parsed(header: RecordHeader)

  /** The content type of a record whose header does not name one. */
  function InheritedType(previous: Option<RecordHeader>): string {
    if previous.Some? then previous.value.contentType else DEFAULT_CONTENT_TYPE
  }

  function InheritedLabels(previous: Option<RecordHeader>): LabelMap {
    if previous.Some? then previous.value.labels else map[]
  }

  /** The text of the content type in a header value, and that of the labels if there is one. */
  function TypeAndLabels(raw: string, firstComma: nat): (string, Option<string>)
    requires firstComma <= |raw|
  {
    if firstComma == |raw| then ("", None)
    else
      var secondComma := Find(raw, ',', firstComma + 1);
      (TrimRange(raw, firstComma + 1, secondComma),
       if secondComma == |raw| then None else Some(Substr(raw, secondComma + 1, |raw|)))
  }

  /** The length at the start of a header value. */
  function LengthOf(raw: string): Option<nat> {
    StoUll(TrimRange(raw, 0, Find(raw, ',', 0)))
  }

  function LabelsAfter(labelsRaw: Option<string>, base: LabelMap, names: Option<seq<string>>): Option<LabelMap> {
    if labelsRaw.None? then Some(base) else LabelDelta(labelsRaw.value, base, names)
  }

  function HeaderOf(
    length: nat, parts: (string, Option<string>),
    previous: Option<RecordHeader>, names: Option<seq<string>>): ParsedHeader
  {
    var contentType := if parts.0 == "" then InheritedType(previous) else parts.0;
    var labels := LabelsAfter(parts.1, InheritedLabels(previous), names);
    if labels.None? then ParsedHeader.Throws else Parsed(RecordHeader(length, contentType, labels.value))
  }

  function ParseRecordHeader(
    raw: string, previous: Option<RecordHeader>, names: Option<seq<string>>): ParsedHeader
  {
    var length := LengthOf(raw);
    if length.None? then Rejected
    else HeaderOf(length.value, TypeAndLabels(raw, Find(raw, ',', 0)), previous, names)
  }

  function HeaderValue(record: BatchRecord, kind: BatchType): string {
    var labels := LabelsText(record.labels);
    match kind
    case Remove => ""
    case Update => if labels == "" then "0" else "0,," + labels
    case Write =>
      if labels == "" then Decimal(record.size) + "," + record.contentType
      else Decimal(record.size) + "," + record.contentType + "," + labels
  }

  /** A content type that is written and read back as it is. */
  predicate CleanType(t: string) {
    t != "" && ',' !in t && Trimmed(t)
  }

  lemma {:induction false} FirstCommaOfWritten(record: BatchRecord)
    ensures Find(HeaderValue(record, Write), ',', 0) == |Decimal(record.size)|
  {
    FindAfterPiece(HeaderValue(record, Write), 0, Decimal(record.size), ',', 0);
  }

  /** A printed length at the front of a text is read up to the first comma. */
  lemma {:induction false} LengthInFront(raw: string, n: nat)
    requires n < U64 && At(raw, 0, Decimal(n)) && Find(raw, ',', 0) == |Decimal(n)|
    ensures LengthOf(raw) == Some(n)
  {
    var d := Decimal(n);
    assert IsDigit(d[0]) && IsDigit(d[|d| - 1]);
    TrimAt(raw, 0, d);
    StoUllDecimal(n);
  }

  lemma {:induction false} LengthOfWritten(record: BatchRecord)
    requires record.size < U64
    ensures LengthOf(HeaderValue(record, Write)) == Some(record.size)
  {
    FirstCommaOfWritten(record);
    LengthInFront(HeaderValue(record, Write), record.size);
  }

  lemma {:induction false} TypeAndLabelsAt(raw: string, comma: nat, t: string, labels: Option<string>)
    requires comma < |raw| && At(raw, comma + 1, t) && ',' !in t
    requires var end := comma + 1 + |t|;
             if labels.None? then end == |raw|
             else end < |raw| && raw[end] == ',' && At(raw, end + 1, labels.value) && end + 1 + |labels.value| == |raw|
    ensures TypeAndLabels(raw, comma) == (Trim(t), labels)
  {
    FindAfterPiece(raw, comma + 1, t, ',', comma + 1);
    TrimPiece(raw, comma + 1, t);
    if labels.Some? {
      AtSlice(raw, comma + 2 + |t|, labels.value);
    }
  }

  /** Content type and labels are separated where they were joined, unless the type has a comma. */
  lemma {:induction false} PartsOfWritten(record: BatchRecord)
    requires ',' !in record.contentType
    ensures var labels := LabelsText(record.labels);
            TypeAndLabels(HeaderValue(record, Write), |Decimal(record.size)|)
            == (Trim(record.contentType), if labels == "" then None else Some(labels))
  {
    var raw := HeaderValue(record, Write);
    var labels := LabelsText(record.labels);
    var comma := |Decimal(record.size)|;
    var end := comma + 1 + |record.contentType|;
    if labels != "" {
      AtSplit(raw, end, ",", labels);
      assert raw[end] == ","[0];
    }
    TypeAndLabelsAt(raw, comma, record.contentType, if labels == "" then None else Some(labels));
  }

  /** The content type as it is read: up to its first comma, and trimmed. */
  function TypeText(record: BatchRecord): string {
    Trim(Substr(record.contentType, 0, Find(record.contentType, ',', 0)))
  }

  /** What is read as labels: the label text, behind the rest of the content type if that has a comma. */
  function LabelsIn(record: BatchRecord): Option<string> {
    var t, labels := record.contentType, LabelsText(record.labels);
    var comma := Find(t, ',', 0);
    if comma == |t| then if labels == "" then None else Some(labels)
    else Some(Substr(t, comma + 1, |t|) + if labels == "" then "" else "," + labels)
  }

  lemma {:induction false} CutAtComma(t: string)
    requires ',' in t
    ensures var comma := Find(t, ',', 0);
            comma < |t| && ',' !in Substr(t, 0, comma)
            && t == Substr(t, 0, comma) + ("," + Substr(t, comma + 1, |t|))
  {
    FindSkips(t, ',', 0);
    var i :| 0 <= i < |t| && t[i] == ',';
    FindAtMost(t, ',', 0, i);
  }

  lemma {:induction false} PlainType(t: string)
    requires ',' !in t
    ensures Find(t, ',', 0) == |t| && Substr(t, 0, |t|) == t
  {
    FindAfterPiece(t, 0, t, ',', 0);
    AtSlice(t, 0, t);
  }

  /** A header of three parts, the middle one without a comma. */
  lemma {:induction false} ThreeParts(raw: string, size: string, t: string, labels: string)
    requires raw == size + "," + (t + ("," + labels)) && ',' !in t
    ensures TypeAndLabels(raw, |size|) == (Trim(t), Some(labels))
  {
    ThreeAt(raw, size, t, labels);
    TypeAndLabelsAt(raw, |size|, t, Some(labels));
  }

  lemma {:induction false} ThreeAt(raw: string, size: string, t: string, labels: string)
    requires raw == size + "," + (t + ("," + labels))
    ensures var end := |size| + 1 + |t|;
            At(raw, |size| + 1, t) && end < |raw| && raw[end] == ',' && At(raw, end + 1, labels)
            && |raw| == end + 1 + |labels|
  {
    FiveAt(raw, size, ",", t, ",", labels);
    assert raw[|size| + 1 + |t| + 0] == ","[0];
  }

  lemma {:induction false} FiveAt(raw: string, a: string, b: string, c: string, d: string, e: string)
    requires raw == a + b + (c + (d + e))
    ensures At(raw, |a| + |b|, c) && At(raw, |a| + |b| + |c|, d) && At(raw, |a| + |b| + |c| + |d|, e)
    ensures |raw| == |a| + |b| + |c| + |d| + |e|
  {
    AtSplit(raw, 0, a + b, c + (d + e));
    AtSplit(raw, |a| + |b|, c, d + e);
    AtSplit(raw, |a| + |b| + |c|, d, e);
  }

  lemma {:induction false} WrittenWithComma(record: BatchRecord, size: string, t: string, rest: string)
    requires size == Decimal(record.size) && record.contentType == t + ("," + rest)
    ensures var labels := LabelsText(record.labels);
            HeaderValue(record, Write) == size + "," + (t + ("," + (rest + if labels == "" then "" else "," + labels)))
  {
    var labels := LabelsText(record.labels);
    var all := if labels == "" then "" else "," + labels;
    assert HeaderValue(record, Write) == size + "," + record.contentType + all;
    assert t + ("," + rest) + all == t + ("," + (rest + all));
    ConcatAssociative(size + ",", record.contentType, all);
  }

  /** Where any content type and any labels are taken apart. */
  lemma {:induction false} PartsOfAny(record: BatchRecord)
    ensures TypeAndLabels(HeaderValue(record, Write), |Decimal(record.size)|) == (TypeText(record), LabelsIn(record))
  {
    var t := record.contentType;
    if ',' in t {
      CutAtComma(t);
      var comma := Find(t, ',', 0);
      var first, rest := Substr(t, 0, comma), Substr(t, comma + 1, |t|);
      WrittenWithComma(record, Decimal(record.size), first, rest);
      ThreeParts(HeaderValue(record, Write), Decimal(record.size), first, LabelsIn(record).value);
    } else {
      PlainType(t);
      PartsOfWritten(record);
    }
  }

  /** The length is read back whatever content type and labels are, and no exception is thrown. */
  lemma {:induction false} LengthComesBack(record: BatchRecord, previous: Option<RecordHeader>)
    requires record.size < U64
    ensures var h := ParseRecordHeader(HeaderValue(record, Write), previous, None);
            h.Parsed? && h.header.contentLength == record.size
  {
    LengthOfWritten(record);
    FirstCommaOfWritten(record);
    var parts := TypeAndLabels(HeaderValue(record, Write), |Decimal(record.size)|);
    if parts.1.Some? {
      NoNamesNoThrow(parts.1.value, InheritedLabels(previous));
    }
  }

  lemma {:induction false} TypeTextIsClean(raw: string, firstComma: nat)
    requires firstComma <= |raw|
    ensures var t := TypeAndLabels(raw, firstComma).0; t == "" || CleanType(t)
  {
    if firstComma < |raw| {
      FindSkips(raw, ',', firstComma + 1);
    }
  }

  /**
   The decoder always ends up with a clean content type, and it is the one that was written exactly
   when that one was clean; otherwise a part of it, or an inherited one.
   */
  lemma {:induction false} TypeComesBack(record: BatchRecord, previous: Option<RecordHeader>)
    requires record.size < U64
    requires CleanType(InheritedType(previous))
    ensures var h := ParseRecordHeader(HeaderValue(record, Write), previous, None);
            && h.Parsed?
            && CleanType(h.header.contentType)
            && (h.header.contentType == record.contentType <==> CleanType(record.contentType))
  {
    LengthComesBack(record, previous);
    FirstCommaOfWritten(record);
    TypeTextIsClean(HeaderValue(record, Write), |Decimal(record.size)|);
    if CleanType(record.contentType) {
      PartsOfWritten(record);
      TrimOfTrimmed(record.contentType);
    }
  }

  function TextRead(text: Option<string>, base: LabelMap): LabelMap {
    if text.None? then base else LabelsRead(text.value, base)
  }

  /**
   What any written record is read as, on top of any header before it: the type up to a comma, inherited when it is
   empty, and the labels of that header as the text behind the type changes them.
   */
  lemma {:induction false} HeaderIsRead(record: BatchRecord, previous: Option<RecordHeader>)
    requires record.size < U64
    ensures ParseRecordHeader(HeaderValue(record, Write), previous, None) ==
            Parsed(RecordHeader(
              record.size,
              if TypeText(record) == "" then InheritedType(previous) else TypeText(record),
              TextRead(LabelsIn(record), InheritedLabels(previous))))
  {
    LengthOfWritten(record);
    FirstCommaOfWritten(record);
    PartsOfAny(record);
    if LabelsIn(record).Some? {
      NoNamesNoThrow(LabelsIn(record).value, InheritedLabels(previous));
    }
  }

  /**
   The metadata of a written record: with a comma-free content type and well-formed labels the decoder
   inherits or trims the type, and overrides or erases the labels of the previous record.
   */
  lemma {:induction false} RecordHeaderComesBack(record: BatchRecord, previous: Option<RecordHeader>)
    requires record.size < U64 && ',' !in record.contentType && WellFormed(record.labels)
    ensures ParseRecordHeader(HeaderValue(record, Write), previous, None) ==
            Parsed(RecordHeader(
              record.size,
              if Trim(record.contentType) == "" then InheritedType(previous) else Trim(record.contentType),
              Overridden(InheritedLabels(previous), record.labels)))
  {
    LengthOfWritten(record);
    FirstCommaOfWritten(record);
    PartsOfWritten(record);
    WrittenLabels(record.labels, InheritedLabels(previous));
  }

  lemma {:induction false} WrittenLabels(m: LabelMap, base: LabelMap)
    requires WellFormed(m)
    ensures var labels := LabelsText(m);
            LabelsAfter(if labels == "" then None else Some(labels), base, None) == Some(Overridden(base, m))
  {
    var keys := SortedKeys(m.Keys);
    SortedKeysAre(m.Keys);
    if m == map[] {
      assert Overridden(base, m) == base;
    } else {
      LabelCodec(m, keys, base);
    }
  }

  lemma {:induction false} HeaderFromParts(
    raw: string, length: nat, comma: nat, parts: (string, Option<string>), labels: LabelMap,
    previous: Option<RecordHeader>)
    requires LengthOf(raw) == Some(length) && Find(raw, ',', 0) == comma && TypeAndLabels(raw, comma) == parts
    requires LabelsAfter(parts.1, InheritedLabels(previous), None) == Some(labels)
    ensures ParseRecordHeader(raw, previous, None)
            == Parsed(RecordHeader(length, if parts.0 == "" then InheritedType(previous) else parts.0, labels))
  {
  }

  /** The parts of an update header: no data, no type, and the labels if there are any. */
  lemma {:induction false} UpdateHeaderParts(labels: string)
    ensures var raw := if labels == "" then "0" else "0,," + labels;
            && Find(raw, ',', 0) == 1 && LengthOf(raw) == Some(0)
            && TypeAndLabels(raw, 1) == ("", if labels == "" then None else Some(labels))
  {
    var raw := if labels == "" then "0" else "0,," + labels;
    assert Decimal(0) == "0" && raw[0] == '0';
    if labels != "" {
      assert raw[1] == ',' && raw[2] == ',';
      UpdateLabelsAt(raw, labels);
    }
    FindAfterPiece(raw, 0, Decimal(0), ',', 0);
    LengthInFront(raw, 0);
  }

  lemma {:induction false} UpdateLabelsAt(raw: string, labels: string)
    requires raw == "0,," + labels
    ensures TypeAndLabels(raw, 1) == ("", Some(labels))
  {
    AtSplit(raw, 0, "0,,", labels);
    assert raw[1] == ',' && raw[2] == ',';
    TypeAndLabelsAt(raw, 1, "", Some(labels));
    assert Trim("") == "";
  }

  /**
   The header of a label update stands for no data: read like the header of a record it keeps the content type and
   overrides or erases labels. That of a removal is no record header at all.
   */
  lemma {:induction false} UpdateHeaderComesBack(record: BatchRecord, previous: Option<RecordHeader>)
    requires WellFormed(record.labels)
    ensures ParseRecordHeader(HeaderValue(record, Update), previous, None) ==
            Parsed(RecordHeader(0, InheritedType(previous), Overridden(InheritedLabels(previous), record.labels)))
    ensures ParseRecordHeader(HeaderValue(record, Remove), previous, None) == Rejected
  {
    var text := LabelsText(record.labels);
    WrittenLabels(record.labels, InheritedLabels(previous));
    UpdateIsRead(text, Overridden(InheritedLabels(previous), record.labels), previous);
    RemovalIsRejected(previous);
    assert HeaderValue(record, Update) == if text == "" then "0" else "0,," + text;
    assert HeaderValue(record, Remove) == "";
  }

  lemma {:induction false} UpdateIsRead(text: string, labels: LabelMap, previous: Option<RecordHeader>)
    requires LabelsAfter(if text == "" then None else Some(text), InheritedLabels(previous), None) == Some(labels)
    ensures ParseRecordHeader(if text == "" then "0" else "0,," + text, previous, None)
            == Parsed(RecordHeader(0, InheritedType(previous), labels))
  {
    UpdateHeaderParts(text);
    HeaderFromParts(if text == "" then "0" else "0,," + text, 0, 1, ("", if text == "" then None else Some(text)),
                    labels, previous);
  }

  lemma {:induction false} RemovalIsRejected(previous: Option<RecordHeader>)
    ensures ParseRecordHeader("", previous, None) == Rejected
  {
  }
}
