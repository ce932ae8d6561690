/** Batch protocol v1: one entry for each request, one header for each timestamp, values as comma-separated items. */
module BatchV1 {
  import opened Wrappers
  import opened Text
  import opened Numbers
  import opened Ordering
  import opened Batches
  import opened Labels

  const HEADER_TIME_PREFIX := "x-reduct-time-"

  // ---- parse_csv ----

  datatype CsvState = CsvState(items: seq<string>, escaped: string)

  predicate StartsWithQuote(item: string) {
    item != "" && item[0] == '"'
  }

  /** escaped.substr(0, escaped.size() - 2), where the difference wraps around for a single character. */
  function WithoutTwo(escaped: string): string {
    if |escaped| < 2 then escaped else escaped[..|escaped| - 2]
  }

  /** The body of the loop in parse_csv. */
  function CsvStep(s: CsvState, item: string): CsvState {
    var escaped := if StartsWithQuote(item) && s.escaped == "" then item[1..] else s.escaped;
    if escaped == "" then CsvState(s.items + [item], "")
    else if EndsWith(item, '"') then CsvState(s.items + [WithoutTwo(escaped)], "")
    else CsvState(s.items, escaped + item)
  }

  function CsvAfter(lines: seq<string>, n: nat): CsvState
    requires n <= |lines|
  {
    if n == 0 then CsvState([], "") else CsvStep(CsvAfter(lines, n - 1), lines[n - 1])
  }

  function CsvItems(csv: string): seq<string> {
    var lines := GetLines(csv);
    CsvAfter(lines, |lines|).items
  }

  /** items[i] without an equal sign is skipped; the first equal sign ends the key. */
  function SetLabel(labels: LabelMap, item: string): LabelMap {
    var pos := Find(item, '=', 0);
    if pos == |item| then labels
    else labels[Substr(item, 0, pos) := Substr(item, pos + 1, |item|)]
  }

  /** The labels in the items from `from` up to n. */
  function CsvLabels(items: seq<string>, from: nat, n: nat): LabelMap
    requires from <= n <= |items|
  {
    if n == from then map[] else SetLabel(CsvLabels(items, from, n - 1), items[n - 1])
  }

  datatype Csv = Csv(size: int, contentType: string, labels: LabelMap)

  /** None is an exception of std::stoll, or an access behind the end of the items. */
  function ParsedCsv(csv: string): Option<Csv> {
    var items := CsvItems(csv);
    if |items| < 2 then None
    else
      var size :- StoLl(items[0]);
      Some(Csv(size, items[1], CsvLabels(items, 2, |items|)))
  }

  method SplitCsv(csv: string) returns (items: seq<string>)
    ensures items == CsvItems(csv)
  {
    var lines := GetLines(csv);
    items := [];
    var escaped := "";
    for k := 0 to |lines|
      invariant CsvState(items, escaped) == CsvAfter(lines, k)
    {
      var item := lines[k];
      if StartsWithQuote(item) && escaped == "" {
        escaped := item[1..];
      }
      if escaped != "" {
        if EndsWith(item, '"') {
          escaped := WithoutTwo(escaped);
          items := items + [escaped];
          escaped := "";
        } else {
          escaped := escaped + item;
        }
      } else {
        items := items + [item];
      }
    }
  }

  method ParseCsv(csv: string) returns (parsed: Option<Csv>)
    ensures parsed == ParsedCsv(csv)
  {
    var items := SplitCsv(csv);
    if |items| < 2 {
      return None;
    }
    var size := StoLl(items[0]);
    if size.None? {
      return None;
    }
    var labels: LabelMap := map[];
    for i := 2 to |items|
      invariant labels == CsvLabels(items, 2, i)
    {
      var pos := Find(items[i], '=', 0);
      if pos == |items[i]| {
        continue;
      }
      labels := labels[Substr(items[i], 0, pos) := Substr(items[i], pos + 1, |items[i]|)];
    }
    return Some(Csv(size.value, items[1], labels));
  }

  // ---- When items are left as they are ----

  /** An item that parse_csv does not take for a quoted one. */
  predicate Plain(item: string) {
    StartsWithQuote(item) ==> item == "\""
  }

  lemma {:induction false} CsvCount(lines: seq<string>, n: nat)
    requires n <= |lines|
    ensures var s := CsvAfter(lines, n);
            |s.items| <= n && (s.escaped != "" ==> |s.items| < n)
  {
    if n > 0 {
      CsvCount(lines, n - 1);
    }
  }

  /** The items are the first n lines. */
  predicate SameItems(items: seq<string>, lines: seq<string>, n: nat)
    requires n <= |lines|
  {
    |items| == n && forall i :: 0 <= i < n ==> items[i] == lines[i]
  }

  lemma {:induction false} PlainStep(s: CsvState, lines: seq<string>, n: nat)
    requires n < |lines| && |s.items| <= n && (s.escaped != "" ==> |s.items| < n)
    ensures SameItems(CsvStep(s, lines[n]).items, lines, n + 1) <==> SameItems(s.items, lines, n) && Plain(lines[n])
  {
    var t := CsvStep(s, lines[n]);
    if |t.items| == n + 1 {
      assert forall i :: 0 <= i < n ==> t.items[i] == s.items[i];
    }
  }

  predicate AllPlain(lines: seq<string>, n: nat)
    requires n <= |lines|
  {
    forall i :: 0 <= i < n ==> Plain(lines[i])
  }

  /** The items are the pieces between the commas exactly when no piece looks quoted. */
  lemma {:induction false} PlainItemsStay(lines: seq<string>, n: nat)
    requires n <= |lines|
    ensures SameItems(CsvAfter(lines, n).items, lines, n) <==> AllPlain(lines, n)
  {
    if n > 0 {
      PlainItemsStay(lines, n - 1);
      CsvCount(lines, n - 1);
      PlainStep(CsvAfter(lines, n - 1), lines, n - 1);
      assert AllPlain(lines, n) <==> AllPlain(lines, n - 1) && Plain(lines[n - 1]);
    }
  }

  // ---- What quotes do ----

  /** The lines from p up to q put together, without the commas that were between them. */
  function Together(lines: seq<string>, p: nat, q: nat): string
    requires p <= q <= |lines|
  {
    if p == q then "" else Together(lines, p, q - 1) + lines[q - 1]
  }

  /** An opening quote, and no closing one up to q: nothing becomes an item. */
  lemma {:induction false} QuoteIsOpen(lines: seq<string>, p: nat, q: nat)
    requires p < q <= |lines| && CsvAfter(lines, p).escaped == ""
    requires |lines[p]| > 1 && lines[p][0] == '"'
    requires forall i :: p <= i < q ==> !EndsWith(lines[i], '"')
    ensures CsvAfter(lines, q) == CsvState(CsvAfter(lines, p).items, lines[p][1..] + Together(lines, p, q))
  {
    var s := CsvAfter(lines, p);
    if q > p + 1 {
      QuoteIsOpen(lines, p, q - 1);
      OpenStep(s.items, lines[p][1..] + Together(lines, p, q - 1), lines[q - 1]);
      ConcatAssociative(lines[p][1..], Together(lines, p, q - 1), lines[q - 1]);
    } else {
      FirstStep(s, lines[p]);
      assert Together(lines, p, q) == "" + lines[p] == lines[p];
    }
  }

  lemma {:induction false} FirstStep(s: CsvState, line: string)
    requires s.escaped == "" && |line| > 1 && line[0] == '"' && !EndsWith(line, '"')
    ensures CsvStep(s, line) == CsvState(s.items, line[1..] + line)
  {
  }

  lemma {:induction false} OpenStep(items: seq<string>, escaped: string, line: string)
    requires escaped != "" && !EndsWith(line, '"')
    ensures CsvStep(CsvState(items, escaped), line) == CsvState(items, escaped + line)
  {
  }

  /**
   What becomes of pieces in quotes: the first one without its quote, then all of them but the last, which only closes
   the quote, without commas, and of this the last two characters are cut off.
   */
  lemma {:induction false} QuotedPieces(lines: seq<string>, p: nat, q: nat)
    requires p < q < |lines| && CsvAfter(lines, p).escaped == ""
    requires |lines[p]| > 1 && lines[p][0] == '"' && EndsWith(lines[q], '"')
    requires forall i :: p <= i < q ==> !EndsWith(lines[i], '"')
    ensures var all := lines[p][1..] + Together(lines, p, q);
            && |all| > 2
            && CsvAfter(lines, q + 1) == CsvState(CsvAfter(lines, p).items + [all[..|all| - 2]], "")
  {
    QuoteIsOpen(lines, p, q);
    TogetherLength(lines, p, q);
  }

  lemma {:induction false} TogetherLength(lines: seq<string>, p: nat, q: nat)
    requires p < q <= |lines|
    ensures |Together(lines, p, q)| >= |lines[p]|
  {
    if q > p + 1 {
      TogetherLength(lines, p, q - 1);
    }
  }

  /** A piece that is in quotes by itself loses both, and one more character at the end. */
  lemma {:induction false} QuotedPiece(lines: seq<string>, p: nat)
    requires p < |lines| && CsvAfter(lines, p).escaped == ""
    requires |lines[p]| > 2 && lines[p][0] == '"' && EndsWith(lines[p], '"')
    ensures CsvAfter(lines, p + 1) == CsvState(CsvAfter(lines, p).items + [lines[p][1..|lines[p]| - 2]], "")
  {
    assert lines[p][1..][..|lines[p]| - 3] == lines[p][1..|lines[p]| - 2];
  }

  // ---- Labels ----

  /** No piece of a decoded label has a comma, and no key an equal sign, whatever the header says. */
  predicate Separable(labels: LabelMap) {
    forall k <- labels :: ',' !in k && '=' !in k && ',' !in labels[k]
  }

  predicate NoCommaItems(items: seq<string>) {
    forall i :: 0 <= i < |items| ==> ',' !in items[i]
  }

  lemma {:induction false} CsvItemsHaveNoCommas(lines: seq<string>, n: nat)
    requires n <= |lines| && NoCommaItems(lines)
    ensures var s := CsvAfter(lines, n); NoCommaItems(s.items) && ',' !in s.escaped
  {
    if n > 0 {
      CsvItemsHaveNoCommas(lines, n - 1);
    }
  }

  lemma {:induction false} LabelsAreSeparable(items: seq<string>, from: nat, n: nat)
    requires from <= n <= |items| && NoCommaItems(items)
    ensures Separable(CsvLabels(items, from, n))
  {
    if n > from {
      LabelsAreSeparable(items, from, n - 1);
      var item := items[n - 1];
      FindSkips(item, '=', 0);
      assert ',' !in item;
    }
  }

  lemma {:induction false} DecodedLabelsAreSeparable(csv: string)
    ensures var parsed := ParsedCsv(csv);
            parsed.Some? ==> Separable(parsed.value.labels) && ',' !in parsed.value.contentType
  {
    var lines := GetLines(csv);
    assert forall i :: 0 <= i < |lines| ==> lines[i] in lines;
    CsvItemsHaveNoCommas(lines, |lines|);
    var items := CsvItems(csv);
    if |items| >= 2 {
      LabelsAreSeparable(items, 2, |items|);
    }
  }

  // ---- One record ----

  lemma {:induction false} JoinedLines(items: seq<string>)
    requires NoCommaItems(items) && forall i :: 0 <= i < |items| ==> items[i] != ""
    ensures GetLines(Join(items)) == items
  {
    GetLinesOfJoin(items);
  }

  /** The value of a time header. */
  function WrittenValue(size: nat, contentType: string, labels: LabelMap): string {
    Decimal(size) + "," + (contentType + "," + LabelsText(labels))
  }

  lemma {:induction false} TwoLines(a: string, b: string, tail: string)
    requires ',' !in a && ',' !in b
    ensures GetLines(a + "," + (b + "," + tail)) == [a, b] + GetLines(tail)
  {
    GetLinesCons(a, b + "," + tail);
    GetLinesCons(b, tail);
    assert [a] + ([b] + GetLines(tail)) == [a, b] + GetLines(tail);
  }

  /** The pieces of a value whose content type and labels have no commas. */
  lemma {:induction false} WrittenLines(size: nat, contentType: string, items: seq<string>)
    requires ',' !in contentType && NoCommaItems(items) && forall i :: 0 <= i < |items| ==> items[i] != ""
    ensures GetLines(Decimal(size) + "," + (contentType + "," + Join(items))) == [Decimal(size), contentType] + items
  {
    TwoLines(Decimal(size), contentType, Join(items));
    JoinedLines(items);
  }

  lemma {:induction false} LabelItemAt(m: LabelMap, keys: seq<string>, i: nat)
    requires (forall k <- keys :: k in m) && i < |keys|
    ensures LabelItems(m, keys)[i] == LabelItem(keys[i], m[keys[i]])
  {
    if i > 0 {
      LabelItemAt(m, keys[1..], i - 1);
    }
  }

  lemma {:induction false} PiecesSetLabel(labels: LabelMap, item: string, key: string, value: string)
    requires At(item, 0, key) && |key| < |item| && item[|key|] == '=' && '=' !in key
    requires At(item, |key| + 1, value) && |item| == |key| + 1 + |value|
    ensures SetLabel(labels, item) == labels[key := value]
  {
    FindAfterPiece(item, 0, key, '=', 0);
    AtSlice(item, 0, key);
    AtSlice(item, |key| + 1, value);
  }

  /** A label is read back from its own item when its key has no equal sign. */
  lemma {:induction false} ItemSetsLabel(labels: LabelMap, key: string, value: string)
    requires '=' !in key && ',' !in value
    ensures SetLabel(labels, LabelItem(key, value)) == labels[key := value]
  {
    var item := LabelItem(key, value);
    AtSplit(item, 0, key + "=", value);
    AtSplit(item, 0, key, "=");
    assert item[|key|] == "="[0];
    PiecesSetLabel(labels, item, key, value);
  }

  predicate ItemsOf(items: seq<string>, m: LabelMap, keys: seq<string>)
    requires forall k <- keys :: k in m
  {
    |items| == 2 + |keys| && forall i :: 0 <= i < |keys| ==> items[2 + i] == LabelItem(keys[i], m[keys[i]])
  }

  lemma {:induction false} RestrictMore(m: LabelMap, keys: seq<string>, n: nat)
    requires n < |keys| && keys[n] in m
    ensures Restrict(m, keys[..n + 1]) == Restrict(m, keys[..n])[keys[n] := m[keys[n]]]
  {
    assert keys[..n + 1] == keys[..n] + [keys[n]];
  }

  lemma {:induction false} LabelsReadBack(m: LabelMap, keys: seq<string>, items: seq<string>, n: nat)
    requires Enumerates(keys, m.Keys) && Separable(m) && n <= |keys| && ItemsOf(items, m, keys)
    ensures CsvLabels(items, 2, 2 + n) == Restrict(m, keys[..n])
  {
    if n == 0 {
      assert Restrict(m, keys[..0]) == map[];
    } else {
      LabelsReadBack(m, keys, items, n - 1);
      assert keys[n - 1] in keys;
      assert items[2 + (n - 1)] == LabelItem(keys[n - 1], m[keys[n - 1]]);
      ItemSetsLabel(CsvLabels(items, 2, 2 + n - 1), keys[n - 1], m[keys[n - 1]]);
      RestrictMore(m, keys, n - 1);
    }
  }

  /** No item of the value looks quoted. */
  predicate NoQuotedItems(contentType: string, labels: LabelMap) {
    Plain(contentType) && forall k <- labels :: !StartsWithQuote(k)
  }

  lemma {:induction false} LabelItemsArePlain(m: LabelMap, keys: seq<string>, i: nat)
    requires Enumerates(keys, m.Keys) && Separable(m) && i < |keys|
    requires forall k <- m :: !StartsWithQuote(k)
    ensures var item := LabelItems(m, keys)[i]; ',' !in item && item != "" && Plain(item)
  {
    var k := keys[i];
    assert k in keys && k in m;
    LabelItemAt(m, keys, i);
    var item := LabelItem(k, m[k]);
    assert item == k + "=" + m[k];
    if k != "" {
      assert item[0] == k[0];
    } else {
      assert item[0] == "="[0];
    }
  }

  lemma {:induction false} WrittenItems(size: nat, contentType: string, m: LabelMap)
    requires ',' !in contentType && NoQuotedItems(contentType, m) && Separable(m)
    ensures var keys, items := SortedKeys(m.Keys), CsvItems(WrittenValue(size, contentType, m));
            Enumerates(keys, m.Keys) && ItemsOf(items, m, keys) && items[0] == Decimal(size) && items[1] == contentType
  {
    SortedKeysAre(m.Keys);
    var keys := SortedKeys(m.Keys);
    var items := LabelItems(m, keys);
    GoodItems(m, keys);
    WrittenLines(size, contentType, items);
    PlainItemsStayAfter(size, contentType, items);
    LinesAreItems(Decimal(size), contentType, m, keys, CsvItems(WrittenValue(size, contentType, m)));
  }

  lemma {:induction false} GoodItems(m: LabelMap, keys: seq<string>)
    requires Enumerates(keys, m.Keys) && Separable(m) && forall k <- m :: !StartsWithQuote(k)
    ensures var items := LabelItems(m, keys);
            NoCommaItems(items) && AllPlain(items, |items|) && forall i :: 0 <= i < |items| ==> items[i] != ""
  {
    var items := LabelItems(m, keys);
    forall i | 0 <= i < |items| ensures ',' !in items[i] && items[i] != "" && Plain(items[i]) {
      LabelItemsArePlain(m, keys, i);
    }
  }

  lemma {:induction false} LinesAreItems(
    size: string, contentType: string, m: LabelMap, keys: seq<string>, items: seq<string>)
    requires forall k <- keys :: k in m
    requires var lines := [size, contentType] + LabelItems(m, keys); SameItems(items, lines, |lines|)
    ensures ItemsOf(items, m, keys) && items[0] == size && items[1] == contentType
  {
    var labels := LabelItems(m, keys);
    var lines := [size, contentType] + labels;
    forall i | 0 <= i < |keys| ensures items[2 + i] == LabelItem(keys[i], m[keys[i]]) {
      assert lines[2 + i] == labels[i];
      LabelItemAt(m, keys, i);
    }
  }

  lemma {:induction false} PlainItemsStayAfter(size: nat, contentType: string, items: seq<string>)
    requires Plain(contentType) && AllPlain(items, |items|)
    ensures var lines := [Decimal(size), contentType] + items;
            SameItems(CsvAfter(lines, |lines|).items, lines, |lines|)
  {
    var lines := [Decimal(size), contentType] + items;
    assert forall i :: 2 <= i < |lines| ==> lines[i] == items[i - 2];
    PlainItemsStay(lines, |lines|);
  }

  /** Size, content type and labels of a written record come back. */
  lemma {:induction false} ValueComesBackV1(size: nat, contentType: string, m: LabelMap)
    requires size < I64_MAX && ',' !in contentType && NoQuotedItems(contentType, m) && Separable(m)
    ensures ParsedCsv(WrittenValue(size, contentType, m)) == Some(Csv(size, contentType, m))
  {
    var keys := SortedKeys(m.Keys);
    WrittenItems(size, contentType, m);
    StoLlDecimal(size);
    LabelsReadBack(m, keys, CsvItems(WrittenValue(size, contentType, m)), |keys|);
    assert keys[..|keys|] == keys;
    AllKeysRestrict(m, keys);
  }

  lemma {:induction false} AllKeysRestrict(m: LabelMap, keys: seq<string>)
    requires Enumerates(keys, m.Keys)
    ensures Restrict(m, keys) == m
  {
  }

  // ---- What never comes back ----

  /** The item that a line makes if it makes one by itself. */
  function OwnItem(line: string): string {
    if Plain(line) then line else WithoutTwo(line[1..])
  }

  lemma {:induction false} ItemsGrowByOne(s: CsvState, line: string)
    ensures |CsvStep(s, line).items| <= |s.items| + 1
  {
  }

  lemma {:induction false} OwnStep(items: seq<string>, line: string)
    ensures var t := CsvStep(CsvState(items, ""), line);
            |t.items| == |items| + 1 ==> t == CsvState(items + [OwnItem(line)], "")
  {
  }

  /** When there are as many items as lines, every line has made its own. */
  lemma {:induction false} EachLineOwnItem(lines: seq<string>, n: nat)
    requires n <= |lines| && |CsvAfter(lines, n).items| == n
    ensures CsvAfter(lines, n).escaped == ""
    ensures forall i :: 0 <= i < n ==> CsvAfter(lines, n).items[i] == OwnItem(lines[i])
  {
    if n > 0 {
      var before := CsvAfter(lines, n - 1);
      CsvCount(lines, n - 1);
      ItemsGrowByOne(before, lines[n - 1]);
      EachLineOwnItem(lines, n - 1);
      assert before == CsvState(before.items, "");
      OwnStep(before.items, lines[n - 1]);
    }
  }

  lemma {:induction false} LabelCount(items: seq<string>, from: nat, n: nat)
    requires from <= n <= |items|
    ensures |CsvLabels(items, from, n)| <= n - from
  {
    if n > from {
      LabelCount(items, from, n - 1);
    }
  }

  /** Every label stands in some item, in front of the first equal sign. */
  lemma {:induction false} LabelFrom(items: seq<string>, from: nat, n: nat, key: string) returns (i: nat)
    requires from <= n <= |items| && key in CsvLabels(items, from, n)
    ensures from <= i < n && Find(items[i], '=', 0) < |items[i]|
    ensures key == Substr(items[i], 0, Find(items[i], '=', 0))
  {
    if key in CsvLabels(items, from, n - 1) {
      i := LabelFrom(items, from, n - 1, key);
    } else {
      i := n - 1;
    }
  }

  /** The item of a label whose key starts with a quote has a shorter key, if it has one. */
  lemma {:induction false} QuotedKeyShrinks(key: string, value: string)
    requires StartsWithQuote(key) && '=' !in key && ',' !in value
    ensures var own := OwnItem(LabelItem(key, value));
            var eq := Find(own, '=', 0);
            eq < |own| ==> eq < |key|
  {
    var item := LabelItem(key, value);
    assert item == key + "=" + value && item[0] == key[0] && item[|key|] == "="[0];
    var own := OwnItem(item);
    FindSkips(own, '=', 0);
    if |key| <= |own| {
      assert own[|key| - 1] == item[1..][|key| - 1] == item[|key|];
    }
  }

  lemma {:induction false} KeyOfItem(key: string, value: string)
    requires '=' !in key && ',' !in value
    ensures Substr(LabelItem(key, value), 0, Find(LabelItem(key, value), '=', 0)) == key
  {
    var item := LabelItem(key, value);
    AtSplit(item, 0, key + "=", value);
    AtSplit(item, 0, key, "=");
    assert item[|key|] == "="[0];
    FindAfterPiece(item, 0, key, '=', 0);
    AtSlice(item, 0, key);
  }

  lemma {:induction false} LongestQuoted(keys: seq<string>, n: nat) returns (longest: string)
    requires n <= |keys| && exists i :: 0 <= i < n && StartsWithQuote(keys[i])
    ensures longest in keys && StartsWithQuote(longest)
    ensures forall i :: 0 <= i < n && StartsWithQuote(keys[i]) ==> |keys[i]| <= |longest|
  {
    if exists i :: 0 <= i < n - 1 && StartsWithQuote(keys[i]) {
      longest := LongestQuoted(keys, n - 1);
      if StartsWithQuote(keys[n - 1]) && |keys[n - 1]| > |longest| {
        longest := keys[n - 1];
      }
    } else {
      longest := keys[n - 1];
    }
  }

  /** A longest key that starts with a quote stands in no item. */
  lemma {:induction false} LongestIsLost(m: LabelMap, keys: seq<string>, items: seq<string>, longest: string)
    requires Enumerates(keys, m.Keys) && Separable(m) && StartsWithQuote(longest)
    requires forall i :: 0 <= i < |keys| && StartsWithQuote(keys[i]) ==> |keys[i]| <= |longest|
    requires |items| == 2 + |keys|
    requires forall i :: 0 <= i < |keys| ==> items[2 + i] == OwnItem(LabelItem(keys[i], m[keys[i]]))
    ensures longest !in CsvLabels(items, 2, |items|)
  {
    if longest in CsvLabels(items, 2, |items|) {
      var i := LabelFrom(items, 2, |items|, longest);
      var key := keys[i - 2];
      assert key in keys && items[2 + (i - 2)] == OwnItem(LabelItem(key, m[key]));
      if StartsWithQuote(key) {
        QuotedKeyShrinks(key, m[key]);
      } else {
        KeyOfItem(key, m[key]);
        LabelItemIsPlain(key, m[key]);
      }
      assert false;
    }
  }

  lemma {:induction false} LabelItemIsPlain(key: string, value: string)
    requires !StartsWithQuote(key) && ',' !in value
    ensures Plain(LabelItem(key, value))
  {
    var item := LabelItem(key, value);
    assert item == key + "=" + value;
    assert item[0] == if key == "" then "="[0] else key[0];
  }

  /** If all labels are found, no line was swallowed by another. */
  lemma {:induction false} NothingSwallowed(lines: seq<string>, m: LabelMap)
    requires |lines| == 2 + |m|
    requires var items := CsvAfter(lines, |lines|).items; |items| >= 2 && CsvLabels(items, 2, |items|) == m
    ensures var items := CsvAfter(lines, |lines|).items;
            |items| == |lines| && forall i :: 0 <= i < |lines| ==> items[i] == OwnItem(lines[i])
  {
    var items := CsvAfter(lines, |lines|).items;
    CsvCount(lines, |lines|);
    LabelCount(items, 2, |items|);
    EachLineOwnItem(lines, |lines|);
  }

  /** A value that comes back has as many items as pieces, each made by its own piece. */
  lemma {:induction false} PiecesAreItems(size: nat, contentType: string, m: LabelMap, keys: seq<string>)
    requires ',' !in contentType && Separable(m) && keys == SortedKeys(m.Keys) && Enumerates(keys, m.Keys)
    requires var parsed := ParsedCsv(WrittenValue(size, contentType, m)); parsed.Some? && parsed.value.labels == m
    ensures var lines := [Decimal(size), contentType] + LabelItems(m, keys);
            var items := CsvItems(WrittenValue(size, contentType, m));
            |items| == |lines| == 2 + |keys| && forall i :: 0 <= i < |lines| ==> items[i] == OwnItem(lines[i])
  {
    var labels := LabelItems(m, keys);
    ItemsHaveNoCommas(m, keys);
    WrittenLines(size, contentType, labels);
    KeysAreCounted(keys, m);
    NothingSwallowed([Decimal(size), contentType] + labels, m);
  }

  lemma {:induction false} LinesAreOwn(
    size: string, contentType: string, m: LabelMap, keys: seq<string>, items: seq<string>)
    requires forall k <- keys :: k in m
    requires var lines := [size, contentType] + LabelItems(m, keys);
             |items| == |lines| && forall i :: 0 <= i < |lines| ==> items[i] == OwnItem(lines[i])
    ensures |items| == 2 + |keys| && items[1] == OwnItem(contentType)
    ensures forall i :: 0 <= i < |keys| ==> items[2 + i] == OwnItem(LabelItem(keys[i], m[keys[i]]))
  {
    var labels := LabelItems(m, keys);
    var lines := [size, contentType] + labels;
    assert lines[1] == contentType;
    forall i | 0 <= i < |keys| ensures items[2 + i] == OwnItem(LabelItem(keys[i], m[keys[i]])) {
      assert lines[2 + i] == labels[i];
      LabelItemAt(m, keys, i);
    }
  }

  lemma {:induction false} ItemsHaveNoCommas(m: LabelMap, keys: seq<string>)
    requires Enumerates(keys, m.Keys) && Separable(m)
    ensures var items := LabelItems(m, keys);
            NoCommaItems(items) && forall i :: 0 <= i < |items| ==> items[i] != ""
  {
    var items := LabelItems(m, keys);
    forall i | 0 <= i < |items| ensures ',' !in items[i] && items[i] != "" {
      assert keys[i] in keys;
      LabelItemAt(m, keys, i);
      assert items[i] == keys[i] + "=" + m[keys[i]];
    }
  }

  lemma {:induction false} KeysAreCounted(keys: seq<string>, m: LabelMap)
    requires Enumerates(keys, m.Keys)
    ensures |keys| == |m|
  {
    assert m.Keys == set k | k in keys;
    DistinctCount(keys);
  }

  lemma {:induction false} DistinctCount(keys: seq<string>)
    requires NoDuplicates(keys)
    ensures |set k | k in keys| == |keys|
  {
    if keys != [] {
      var n := |keys| - 1;
      DistinctCount(keys[..n]);
      assert (set k | k in keys) == (set k | k in keys[..n]) + {keys[n]};
    }
  }

  lemma {:induction false} QuotedIsLost(size: nat, contentType: string, m: LabelMap)
    requires ',' !in contentType && Separable(m) && !NoQuotedItems(contentType, m)
    ensures ParsedCsv(WrittenValue(size, contentType, m)) != Some(Csv(size, contentType, m))
  {
    if ParsedCsv(WrittenValue(size, contentType, m)) == Some(Csv(size, contentType, m)) {
      SortedKeysAre(m.Keys);
      var keys, items := SortedKeys(m.Keys), CsvItems(WrittenValue(size, contentType, m));
      PiecesAreItems(size, contentType, m, keys);
      LinesAreOwn(Decimal(size), contentType, m, keys, items);
      if Plain(contentType) {
        var k :| k in m && StartsWithQuote(k);
        assert k in keys;
        var longest := LongestQuoted(keys, |keys|);
        LongestIsLost(m, keys, items, longest);
      }
      assert false;
    }
  }

  /**
   Size, content type and labels of a record come back exactly when there are no commas in them, no equal sign in a
   key, and neither the content type nor a key starts with a quote, but for a type that is only a quote. The quotes
   that FormatLabels puts around a value with commas do not keep it together.
   */
  lemma {:induction false} LabelsComeBackV1(size: nat, contentType: string, m: LabelMap)
    requires size < I64_MAX
    ensures ParsedCsv(WrittenValue(size, contentType, m)) == Some(Csv(size, contentType, m))
            <==> ',' !in contentType && NoQuotedItems(contentType, m) && Separable(m)
  {
    var csv := WrittenValue(size, contentType, m);
    DecodedLabelsAreSeparable(csv);
    if ',' !in contentType && Separable(m) {
      if NoQuotedItems(contentType, m) {
        ValueComesBackV1(size, contentType, m);
      } else {
        QuotedIsLost(size, contentType, m);
      }
    }
  }
}
