/** Labels as text: FormatLabels, and the label deltas that the v2 decoder applies. */
module Labels {
  import opened Wrappers
  import opened Text
  import opened Numbers
  import opened Ordering
  import opened Batches

  // ---- Iteration over a std::map ----

  lemma {:induction false} LeastExists(s: set<string>) returns (k: string)
    requires s != {}
    ensures k in s && forall o <- s :: o == k || LexLess(k, o)
  {
    k :| k in s;
    if s != {k} {
      var rest := s - {k};
      var l := LeastExists(rest);
      LexTotal(k, l);
      if LexLess(k, l) {
        forall o | o in s && o != k ensures LexLess(k, o) {
          if o != l {
            LexTransitive(k, l, o);
          }
        }
      } else {
        k := l;
      }
    }
  }

  predicate IsLeast(k: string, s: set<string>) {
    k in s && forall o <- s :: o == k || LexLess(k, o)
  }

  lemma {:induction false} LeastIsUnique(s: set<string>)
    requires s != {}
    ensures exists k :: IsLeast(k, s)
    ensures forall a, b :: IsLeast(a, s) && IsLeast(b, s) ==> a == b
  {
    var k := LeastExists(s);
    assert IsLeast(k, s);
    forall a, b | IsLeast(a, s) && IsLeast(b, s) ensures a == b {
      LexIrreflexive(a);
      if a != b {
        LexTransitive(a, b, a);
      }
    }
  }

  /** The keys of a std::map in iteration order. */
  function SortedKeys(s: set<string>): seq<string> {
    if s == {} then []
    else
      LeastIsUnique(s);
      var k :| IsLeast(k, s);
      [k] + SortedKeys(s - {k})
  }

  predicate LexIncreasing(keys: seq<string>) {
    forall i, j :: 0 <= i < j < |keys| ==> LexLess(keys[i], keys[j])
  }

  /** They are all keys, each once, in increasing order. */
  lemma {:induction false} SortedKeysAre(s: set<string>)
    ensures Enumerates(SortedKeys(s), s) && LexIncreasing(SortedKeys(s))
  {
    if s != {} {
      LeastIsUnique(s);
      var k :| IsLeast(k, s);
      SortedKeysAre(s - {k});
      assert SortedKeys(s) == [k] + SortedKeys(s - {k});
    }
  }

  // ---- Printing ----

  function PrintedValue(value: string): string {
    if ',' in value then "\"" + value + "\"" else value
  }

  function LabelItem(key: string, value: string): string {
    key + "=" + PrintedValue(value)
  }

  function LabelItems(m: LabelMap, keys: seq<string>): (items: seq<string>)
    requires forall k <- keys :: k in m
    ensures |items| == |keys|
  {
    if keys == [] then [] else [LabelItem(keys[0], m[keys[0]])] + LabelItems(m, keys[1..])
  }

  /** FormatLabels, for the iteration order of the map. */
  function LabelsText(m: LabelMap): string {
    SortedKeysAre(m.Keys);
    Join(LabelItems(m, SortedKeys(m.Keys)))
  }

  lemma {:induction false} LabelItemsAppend(m: LabelMap, keys: seq<string>, k: string)
    requires (forall x <- keys :: x in m) && k in m
    ensures LabelItems(m, keys + [k]) == LabelItems(m, keys) + [LabelItem(k, m[k])]
  {
    if keys != [] {
      assert (keys + [k])[1..] == keys[1..] + [k];
      LabelItemsAppend(m, keys[1..], k);
    }
  }

  method FormatLabels(labels: LabelMap) returns (text: string)
    ensures text == LabelsText(labels)
  {
    var keys := SortedKeys(labels.Keys);
    SortedKeysAre(labels.Keys);
    var formatted := [];
    for i := 0 to |keys|
      invariant formatted == LabelItems(labels, keys[..i])
    {
      assert keys[i] in labels.Keys;
      var value := labels[keys[i]];
      if ',' in value {
        value := "\"" + value + "\"";
      }
      formatted := formatted + [keys[i] + "=" + value];
      LabelItemsAppend(labels, keys[..i], keys[i]);
      assert keys[..i + 1] == keys[..i] + [keys[i]];
    }
    assert keys[..|keys|] == keys;
    text := Join(formatted);
  }

  lemma {:induction false} LeastComesFirst(keys: set<string>, k: string)
    requires IsLeast(k, keys)
    ensures SortedKeys(keys) == [k] + SortedKeys(keys - {k})
  {
    LeastIsUnique(keys);
  }

  lemma {:induction false} SameLabelItems(m: LabelMap, rest: LabelMap, keys: seq<string>)
    requires forall k <- keys :: k in m && k in rest && m[k] == rest[k]
    ensures LabelItems(m, keys) == LabelItems(rest, keys)
  {
    if keys != [] {
      SameLabelItems(m, rest, keys[1..]);
    }
  }

  /** The labels as text: the one with the least key, with quotes if its value has a comma, a comma, and the others. */
  lemma {:induction false} LeastLabelFirst(m: LabelMap, k: string)
    requires IsLeast(k, m.Keys)
    ensures var item := k + "=" + if ',' in m[k] then "\"" + m[k] + "\"" else m[k];
            LabelsText(m) == if m.Keys == {k} then item else item + "," + LabelsText(m - {k})
  {
    var rest := m - {k};
    assert rest.Keys == m.Keys - {k};
    LeastComesFirst(m.Keys, k);
    SortedKeysAre(m.Keys);
    SortedKeysAre(rest.Keys);
    var keys, others := SortedKeys(m.Keys), SortedKeys(rest.Keys);
    assert keys[0] == k && keys[1..] == others;
    forall x | x in others ensures x in m && m[x] == rest[x] {
      assert x in rest.Keys;
    }
    SameLabelItems(m, rest, others);
    assert LabelItems(m, keys) == [LabelItem(k, m[k])] + LabelItems(rest, others);
    assert LabelItems(m, keys)[1..] == LabelItems(rest, others);
    if m.Keys == {k} {
      assert others == [];
    } else {
      var x :| x in m.Keys && x != k;
      assert x in rest.Keys && x in others;
    }
  }

  // ---- Parsing ----

  /** A label to set, or without a value to erase. */
  datatype LabelOp = LabelOp(key: string, value: Option<string>)

  /** A number stands for the name with that index; None is the out_of_range that std::stoul throws. */
  function LabelKey(key: string, names: Option<seq<string>>): Option<string> {
    if names.None? then Some(key) else NumberedKey(key, names.value)
  }

  function NumberedKey(key: string, names: seq<string>): Option<string> {
    if key == "" || !AllDigits(key) then Some(key)
    else
      var idx := StoUll(key);
      if idx.None? then None
      else if idx.value < |names| then Some(names[idx.value])
      else Some(key)
  }

  /** Steps over one comma, if there is one. */
  function AfterComma(s: string, pos: nat): (next: nat)
    requires pos <= |s|
    ensures pos <= next <= |s|
  {
    if pos < |s| && s[pos] == ',' then pos + 1 else pos
  }

  function PrependOps(head: seq<LabelOp>, tail: Option<seq<LabelOp>>): Option<seq<LabelOp>> {
    if tail.None? then None else Some(head + tail.value)
  }

  /** A value, and the position behind it; None when a quote is not closed. */
  function ScanValue(s: string, pos: nat): (r: Option<(Option<string>, nat)>)
    requires pos <= |s|
    ensures r.Some? ==> pos <= r.value.1 <= |s|
  {
    if pos < |s| && s[pos] == '"' then
      var quote := Find(s, '"', pos + 1);
      if quote == |s| then None else Some((Some(Substr(s, pos + 1, quote)), quote + 1))
    else
      var comma := Find(s, ',', pos);
      var value := TrimRange(s, pos, comma);
      Some((if value == "" then None else Some(value), comma))
  }

  /** One round of the scan: an exception, the end, or an operation and the position after it. */
  datatype Step = Throws | Ends | Next(op: LabelOp, pos: nat)

  /** The scan position grows in every round, whatever the input is. */
  function NextOp(raw: string, pos: nat, names: Option<seq<string>>): (step: Step)
    requires pos <= |raw|
    ensures step.Next? ==> pos < step.pos <= |raw|
  {
    var eq := Find(raw, '=', pos);
    if eq == |raw| then Ends
    else
      var key := LabelKey(TrimRange(raw, pos, eq), names);
      if key.None? then Throws else OpWith(raw, key.value, ScanValue(raw, eq + 1))
  }

  function OpWith(raw: string, key: string, value: Option<(Option<string>, nat)>): (step: Step)
    requires value.Some? ==> value.value.1 <= |raw|
    ensures step.Next? ==> value.Some? && value.value.1 <= step.pos <= |raw|
  {
    if value.None? then Ends
    else Next(LabelOp(key, value.value.0), SkipSpaces(raw, AfterComma(raw, value.value.1)))
  }

  type Rounds = nat -> Step

  function RoundsOf(raw: string, names: Option<seq<string>>): Rounds {
    (pos: nat) => if pos <= |raw| then NextOp(raw, pos, names) else Ends
  }

  /** The scan loop over any rounds. One that did not move forward would end it; those of NextOp always do. */
  function Scan(round: Rounds, pos: nat, size: nat): Option<seq<LabelOp>>
    requires pos <= size
    decreases size - pos
  {
    var step := round(pos);
    if step.Throws? then None
    else if step.Ends? || !(pos < step.pos <= size) then Some([])
    else PrependOps([step.op], Scan(round, step.pos, size))
  }

  /** The operations in a label text, or None for an exception. */
  function ParseOps(raw: string, names: Option<seq<string>>): Option<seq<LabelOp>> {
    Scan(RoundsOf(raw, names), 0, |raw|)
  }

  method ReadValue(raw: string, start: nat) returns (read: Option<(Option<string>, nat)>)
    requires start <= |raw|
    ensures read == ScanValue(raw, start)
  {
    var pos := start;
    if pos < |raw| && raw[pos] == '"' {
      pos := pos + 1;
      var quote := Find(raw, '"', pos);
      if quote == |raw| {
        return None;
      }
      return Some((Some(Substr(raw, pos, quote)), quote + 1));
    } else {
      var comma := Find(raw, ',', pos);
      var trimmed := TrimRange(raw, pos, comma);
      return Some((if trimmed == "" then None else Some(trimmed), comma));
    }
  }

  /** Steps over a comma and the white space behind it. */
  method SkipSeparator(raw: string, start: nat) returns (pos: nat)
    requires start <= |raw|
    ensures pos == SkipSpaces(raw, AfterComma(raw, start)) <= |raw|
  {
    pos := start;
    if pos < |raw| && raw[pos] == ',' {
      pos := pos + 1;
    }
    ghost var from := pos;
    while pos < |raw| && IsSpace(raw[pos])
      invariant from <= pos <= |raw|
      invariant SkipSpaces(raw, pos) == SkipSpaces(raw, from)
    {
      pos := pos + 1;
    }
  }

  /** One round of the loop in ParseLabelDeltaOps. */
  method ReadOp(raw: string, pos: nat, names: Option<seq<string>>) returns (step: Step)
    requires pos <= |raw|
    ensures step == NextOp(raw, pos, names)
  {
    var eq := Find(raw, '=', pos);
    if eq == |raw| {
      return Ends;
    }
    var key := LabelKey(TrimRange(raw, pos, eq), names);
    if key.None? {
      return Throws;
    }
    var value := ReadValue(raw, eq + 1);
    if value.None? {
      return Ends;
    }
    var next := SkipSeparator(raw, value.value.1);
    return Next(LabelOp(key.value, value.value.0), next);
  }

  method ParseLabelDeltaOps(raw: string, names: Option<seq<string>>) returns (result: Option<seq<LabelOp>>)
    ensures result == ParseOps(raw, names)
  {
    ghost var round := RoundsOf(raw, names);
    var ops: seq<LabelOp> := [];
    var pos := 0;
    NoOps(Scan(round, 0, |raw|));
    while pos < |raw|
      invariant pos <= |raw|
      invariant ParseOps(raw, names) == PrependOps(ops, Scan(round, pos, |raw|))
    {
      var step := ReadOp(raw, pos, names);
      assert round(pos) == step;
      if step.Throws? {
        return None;
      }
      if step.Ends? {
        break;
      }
      MoreOps(ops, step.op, Scan(round, step.pos, |raw|));
      ops := ops + [step.op];
      pos := step.pos;
    }
    assert Scan(round, pos, |raw|) == Some([]);
    NoMoreOps(ops);
    return Some(ops);
  }

  lemma {:induction false} NoOps(tail: Option<seq<LabelOp>>)
    ensures PrependOps([], tail) == tail
  {
    if tail.Some? {
      assert [] + tail.value == tail.value;
    }
  }

  lemma {:induction false} MoreOps(head: seq<LabelOp>, op: LabelOp, tail: Option<seq<LabelOp>>)
    ensures PrependOps(head, PrependOps([op], tail)) == PrependOps(head + [op], tail)
  {
    if tail.Some? {
      assert head + ([op] + tail.value) == head + [op] + tail.value;
    }
  }

  lemma {:induction false} NoMoreOps(ops: seq<LabelOp>)
    ensures PrependOps(ops, Some([])) == Some(ops)
  {
    assert ops + [] == ops;
  }

  function ApplyOp(base: LabelMap, op: LabelOp): LabelMap {
    if op.value.Some? then base[op.key := op.value.value] else base - {op.key}
  }

  function ApplyOps(base: LabelMap, ops: seq<LabelOp>): LabelMap
    decreases ops
  {
    if ops == [] then base else ApplyOps(ApplyOp(base, ops[0]), ops[1..])
  }

  function LabelDelta(raw: string, base: LabelMap, names: Option<seq<string>>): Option<LabelMap> {
    var ops := ParseOps(raw, names);
    if ops.None? then None else Some(ApplyOps(base, ops.value))
  }

  /** Without a label-name list no label text throws. */
  lemma {:induction false} NoNamesNoThrow(raw: string, base: LabelMap)
    ensures LabelDelta(raw, base, None).Some?
  {
    ScanNoThrow(raw, 0);
  }

  lemma {:induction false} ScanNoThrow(raw: string, pos: nat)
    requires pos <= |raw|
    ensures Scan(RoundsOf(raw, None), pos, |raw|).Some?
    decreases |raw| - pos
  {
    var step := RoundsOf(raw, None)(pos);
    assert step == NextOp(raw, pos, None);
    if step.Next? {
      ScanNoThrow(raw, step.pos);
    }
  }

  /** What a label text makes of a base when there is no label-name list. */
  function LabelsRead(raw: string, base: LabelMap): LabelMap {
    NoNamesNoThrow(raw, base);
    LabelDelta(raw, base, None).value
  }

  method ApplyLabelDelta(raw: string, base: LabelMap, names: Option<seq<string>>) returns (result: Option<LabelMap>)
    ensures result == LabelDelta(raw, base, names)
  {
    var ops := ParseLabelDeltaOps(raw, names);
    if ops.None? {
      return None;
    }
    var labels := base;
    assert ops.value[0..] == ops.value;
    for i := 0 to |ops.value|
      invariant ApplyOps(labels, ops.value[i..]) == ApplyOps(base, ops.value)
    {
      assert ops.value[i..][1..] == ops.value[i + 1..];
      var op := ops.value[i];
      if op.value.Some? {
        labels := labels[op.key := op.value.value];
      } else {
        labels := labels - {op.key};
      }
    }
    return Some(labels);
  }

  // ---- What the parser makes of printed labels ----

  /** The operation that a printed label is meant to be read as. */
  function OpOf(key: string, value: string): LabelOp {
    LabelOp(key, if value == "" then None else Some(value))
  }

  function OpsOf(m: LabelMap, keys: seq<string>): (ops: seq<LabelOp>)
    requires forall k <- keys :: k in m
    ensures |ops| == |keys|
  {
    if keys == [] then [] else [OpOf(keys[0], m[keys[0]])] + OpsOf(m, keys[1..])
  }

  predicate GoodKey(key: string, first: bool) {
    '=' !in key && Trimmed(key) && (first || key == "" || (key[0] != ' ' && !(9 <= key[0] as int <= 13)))
  }

  predicate GoodValue(value: string) {
    if ',' in value then '"' !in value else Trimmed(value) && (value == "" || value[0] != '"')
  }

  /** Where the parser stands before a label: the separator before it has taken white space along. */
  function LabelStart(raw: string, pos: nat, first: bool): (start: nat)
    requires pos <= |raw|
    ensures pos <= start <= |raw|
  {
    if first then pos else SkipSpaces(raw, pos)
  }

  /** A key comes back exactly when it is good; a key with an equal sign is cut at that sign. */
  lemma {:induction false} KeyComesBack(raw: string, pos: nat, key: string, first: bool)
    requires At(raw, pos, key + "=")
    ensures var start := LabelStart(raw, pos, first);
            var eq := Find(raw, '=', start);
            && eq < |raw|
            && (TrimRange(raw, start, eq) == key <==> GoodKey(key, first))
            && (GoodKey(key, first) ==> eq == pos + |key|)
  {
    AtSplit(raw, pos, key, "=");
    var end := pos + |key|;
    assert raw[end] == "="[0];
    SkipSpacesStops(raw, pos, end);
    var start := LabelStart(raw, pos, first);
    FindAtMost(raw, '=', start, end);
    var eq := Find(raw, '=', start);
    if '=' in key {
      FindSkips(raw, '=', start);
    } else {
      FindAfterPiece(raw, pos, key, '=', start);
      TrimAt(raw, pos, key);
      assert key != "" ==> raw[pos] == key[0];
    }
  }

  lemma {:induction false} QuotedValueComesBack(raw: string, pos: nat, value: string)
    requires At(raw, pos, "\"" + value + "\"")
    ensures var v := ScanValue(raw, pos);
            && (v.Some? && v.value.0 == Some(value) <==> '"' !in value)
            && ('"' !in value ==> v.value.1 == pos + |value| + 2)
  {
    AtSplit(raw, pos, "\"" + value, "\"");
    AtSplit(raw, pos, "\"", value);
    var end := pos + 1 + |value|;
    assert raw[pos] == "\""[0] && raw[end] == "\""[0];
    var quote := Find(raw, '"', pos + 1);
    if '"' in value {
      var i :| 0 <= i < |value| && value[i] == '"';
      FindAtMost(raw, '"', pos + 1, pos + 1 + i);
    } else {
      FindAfterPiece(raw, pos + 1, value, '"', pos + 1);
      AtSlice(raw, pos + 1, value);
    }
  }

  lemma {:induction false} PlainValueComesBack(raw: string, pos: nat, value: string)
    requires ',' !in value
    requires At(raw, pos, value)
    requires pos + |value| == |raw| || raw[pos + |value|] == ','
    ensures var v := ScanValue(raw, pos);
            && (v.Some? && v.value.0 == OpOf("", value).value <==> GoodValue(value))
            && (GoodValue(value) ==> v.value.1 == pos + |value|)
  {
    if value != "" {
      assert raw[pos] == value[0];
    }
    if value != "" && value[0] == '"' {
      FindSkips(raw, '"', pos + 1);
      var quote := Find(raw, '"', pos + 1);
      assert '"' !in Substr(raw, pos + 1, quote);
    } else {
      FindAfterPiece(raw, pos, value, ',', pos);
      TrimAt(raw, pos, value);
    }
  }

  /** The printed value of a label is read back exactly when it is good. */
  lemma {:induction false} ValueComesBack(raw: string, pos: nat, value: string)
    requires At(raw, pos, PrintedValue(value))
    requires var end := pos + |PrintedValue(value)|; end == |raw| || raw[end] == ','
    ensures var v := ScanValue(raw, pos);
            if GoodValue(value) then v == Some((OpOf("", value).value, pos + |PrintedValue(value)|))
            else v.Some? ==> v.value.0 != OpOf("", value).value
  {
    if ',' in value {
      QuotedValueComesBack(raw, pos, value);
    } else {
      PlainValueComesBack(raw, pos, value);
    }
  }

  /** One label: its operation is read back exactly when key and value are good. */
  lemma {:induction false} LabelComesBack(
    raw: string, pos: nat, key: string, value: string, first: bool)
    requires At(raw, pos, LabelItem(key, value))
    requires var end := pos + |LabelItem(key, value)|; end == |raw| || raw[end] == ','
    ensures var end := pos + |LabelItem(key, value)|;
            var step := NextOp(raw, LabelStart(raw, pos, first), None);
            if GoodKey(key, first) && GoodValue(value)
            then step == Next(OpOf(key, value), SkipSpaces(raw, AfterComma(raw, end)))
            else step.Next? ==> step.op != OpOf(key, value)
  {
    AtSplit(raw, pos, key + "=", PrintedValue(value));
    KeyComesBack(raw, pos, key, first);
    ValueComesBack(raw, pos + |key + "="|, value);
  }

  predicate GoodLabels(m: LabelMap, keys: seq<string>, first: bool)
    requires forall k <- keys :: k in m
  {
    forall i :: 0 <= i < |keys| ==> GoodKey(keys[i], first && i == 0) && GoodValue(m[keys[i]])
  }

  ghost predicate ReadsBack(round: Rounds, pos: nat, size: nat, m: LabelMap, keys: seq<string>)
    requires pos <= size && forall k <- keys :: k in m
  {
    Scan(round, pos, size) == Some(OpsOf(m, keys))
  }

  /** The scan reads a list back exactly when its first round reads the first label and the rest reads the others. */
  lemma {:induction false} ReadsBackStep(round: Rounds, pos: nat, size: nat, m: LabelMap, keys: seq<string>)
    requires pos <= size && keys != [] && forall k <- keys :: k in m
    ensures ReadsBack(round, pos, size, m, keys)
            <==> round(pos).Next? && round(pos).op == OpOf(keys[0], m[keys[0]]) && pos < round(pos).pos <= size
                 && ReadsBack(round, round(pos).pos, size, m, keys[1..])
  {
    var step := round(pos);
    var op := OpOf(keys[0], m[keys[0]]);
    assert OpsOf(m, keys) == [op] + OpsOf(m, keys[1..]);
    if step.Next? && pos < step.pos <= size {
      var more := Scan(round, step.pos, size);
      if more.Some? {
        assert ([step.op] + more.value)[1..] == more.value && ([step.op] + more.value)[0] == step.op;
        assert ([op] + OpsOf(m, keys[1..]))[1..] == OpsOf(m, keys[1..]);
      }
    }
  }

  /** A printed list of labels is read back, label by label, exactly when every label is good. */
  lemma {:induction false} LabelsComeBack(raw: string, pos: nat, m: LabelMap, keys: seq<string>, first: bool)
    requires forall k <- keys :: k in m
    requires At(raw, pos, Join(LabelItems(m, keys))) && pos + |Join(LabelItems(m, keys))| == |raw|
    ensures ReadsBack(RoundsOf(raw, None), LabelStart(raw, pos, first), |raw|, m, keys) <==> GoodLabels(m, keys, first)
    decreases keys
  {
    var round := RoundsOf(raw, None);
    if keys != [] {
      var k, rest := keys[0], keys[1..];
      var start, end := LabelStart(raw, pos, first), pos + |LabelItem(k, m[k])|;
      LabelsSplit(raw, pos, m, keys);
      GoodLabelsSplit(m, keys, first);
      LabelComesBack(raw, pos, k, m[k], first);
      assert round(start) == NextOp(raw, start, None);
      ReadsBackStep(round, start, |raw|, m, keys);
      if GoodKey(k, first) && GoodValue(m[k]) {
        if rest != [] {
          LabelsComeBack(raw, end + 1, m, rest, false);
        }
      }
    }
  }

  lemma {:induction false} LabelsSplit(raw: string, pos: nat, m: LabelMap, keys: seq<string>)
    requires keys != [] && forall k <- keys :: k in m
    requires At(raw, pos, Join(LabelItems(m, keys))) && pos + |Join(LabelItems(m, keys))| == |raw|
    ensures var item := LabelItem(keys[0], m[keys[0]]);
            var end := pos + |item|;
            && At(raw, pos, item)
            && (if keys[1..] == [] then end == |raw|
                else end < |raw| && raw[end] == ','
                     && At(raw, end + 1, Join(LabelItems(m, keys[1..])))
                     && end + 1 + |Join(LabelItems(m, keys[1..]))| == |raw|)
  {
    var items := LabelItems(m, keys);
    var item := items[0];
    assert items[1..] == LabelItems(m, keys[1..]);
    if keys[1..] != [] {
      AtSplit(raw, pos, item + ",", Join(items[1..]));
      AtSplit(raw, pos, item, ",");
      assert raw[pos + |item|] == ","[0];
    }
  }

  lemma {:induction false} GoodLabelsSplit(m: LabelMap, keys: seq<string>, first: bool)
    requires keys != [] && forall k <- keys :: k in m
    ensures GoodLabels(m, keys, first)
            <==> GoodKey(keys[0], first) && GoodValue(m[keys[0]]) && GoodLabels(m, keys[1..], false)
  {
    var rest := keys[1..];
    assert forall i :: 0 <= i < |rest| ==> rest[i] == keys[i + 1];
    if GoodLabels(m, keys, first) {
      forall i | 0 <= i < |rest| ensures GoodKey(rest[i], false) && GoodValue(m[rest[i]]) {
        assert GoodKey(keys[i + 1], first && i + 1 == 0);
      }
    }
    if GoodKey(keys[0], first) && GoodValue(m[keys[0]]) && GoodLabels(m, rest, false) {
      forall i | 0 <= i < |keys| ensures GoodKey(keys[i], first && i == 0) && GoodValue(m[keys[i]]) {
        if i > 0 {
          assert GoodKey(rest[i - 1], false && i - 1 == 0);
        }
      }
    }
  }

  // ---- The effect on a label map ----

  /** `base` overridden by the non-empty values of `m`, with its empty-valued keys erased. */
  function Overridden(base: LabelMap, m: LabelMap): LabelMap {
    map k | k in base.Keys + m.Keys && !(k in m && m[k] == "") :: if k in m then m[k] else base[k]
  }

  function Restrict(m: LabelMap, keys: seq<string>): LabelMap {
    map k | k in m && k in keys :: m[k]
  }

  lemma {:induction false} OverrideFirst(base: LabelMap, m: LabelMap, k: string, rest: seq<string>)
    requires k in m && k !in rest
    ensures Overridden(ApplyOp(base, OpOf(k, m[k])), Restrict(m, rest)) == Overridden(base, Restrict(m, [k] + rest))
  {
    var base1 := ApplyOp(base, OpOf(k, m[k]));
    var l, r := Overridden(base1, Restrict(m, rest)), Overridden(base, Restrict(m, [k] + rest));
    forall x ensures x in l <==> x in r
             ensures x in l && x in r ==> l[x] == r[x]
    {
      assert x in [k] + rest <==> x == k || x in rest;
    }
    assert l.Keys == r.Keys;
  }

  lemma {:induction false} ApplyOpsOverrides(base: LabelMap, m: LabelMap, keys: seq<string>)
    requires NoDuplicates(keys) && forall k <- keys :: k in m
    ensures ApplyOps(base, OpsOf(m, keys)) == Overridden(base, Restrict(m, keys))
    decreases keys
  {
    if keys == [] {
      assert Overridden(base, Restrict(m, keys)) == base;
    } else {
      var k, rest := keys[0], keys[1..];
      var op := OpOf(k, m[k]);
      var ops := OpsOf(m, keys);
      assert ops[0] == op && ops[1..] == OpsOf(m, rest);
      ApplyOpsOverrides(ApplyOp(base, op), m, rest);
      OverrideFirst(base, m, k, rest);
      assert keys == [k] + rest;
    }
  }

  predicate WellFormed(m: LabelMap) {
    forall k <- m :: GoodKey(k, false) && GoodValue(m[k])
  }

  /** The label codec, for every iteration order of the printed map and every base. */
  lemma {:induction false} LabelCodec(m: LabelMap, keys: seq<string>, base: LabelMap)
    requires Enumerates(keys, m.Keys) && WellFormed(m)
    ensures LabelDelta(Join(LabelItems(m, keys)), base, None) == Some(Overridden(base, m))
  {
    forall i | 0 <= i < |keys| ensures GoodKey(keys[i], true && i == 0) && GoodValue(m[keys[i]]) {
      assert keys[i] in m;
    }
    LabelsComeBack(Join(LabelItems(m, keys)), 0, m, keys, true);
    ApplyOpsOverrides(base, m, keys);
    assert Restrict(m, keys) == m;
  }

  /** The full label set replaces the base exactly when nothing is erased and no key of the base is missing. */
  lemma {:induction false} OverriddenIsFull(base: LabelMap, m: LabelMap)
    ensures Overridden(base, m) == m <==> (forall k <- m :: m[k] != "") && base.Keys <= m.Keys
  {
    var r := Overridden(base, m);
    assert forall k :: k in r <==> (k in base || k in m) && !(k in m && m[k] == "");
    if (forall k <- m :: m[k] != "") && base.Keys <= m.Keys {
      assert r == m;
    }
  }

}
