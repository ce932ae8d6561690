/** Which attachment keys arrive as labels: exactly the good ones, and a longest one that is not good never does. */
module AttachmentKeys {
  import opened Wrappers
  import opened Text
  import opened Batches
  import opened Labels
  import opened ExactLabels
  import opened Attachments

  /** A key that can be printed as a label value, and is not empty. */
  predicate GoodAttachmentKey(key: string) {
    key != "" && GoodValue(key)
  }

  // ---- The text of a key ----

  lemma {:induction false} OneKey(k: string)
    ensures SortedKeys({k}) == [k]
  {
    assert IsLeast(k, {k});
    LeastIsUnique({k});
    assert {k} - {k} == {};
  }

  lemma {:induction false} OneLabelText(key: string)
    ensures LabelsText(map[KEY := key]) == LabelItem(KEY, key) == Join(LabelItems(map[KEY := key], [KEY]))
  {
    OneKey(KEY);
    assert map[KEY := key].Keys == {KEY};
  }

  lemma {:induction false} KeyIsGood()
    ensures GoodKey(KEY, true) && '=' !in KEY && |KEY| == 3
  {
    assert KEY[0] == 'k' && KEY[1] == 'e' && KEY[2] == 'y';
  }

  /** A good key replaces the key that was there before. */
  lemma {:induction false} GoodKeyArrives(key: string, base: LabelMap)
    requires GoodAttachmentKey(key) && base.Keys <= {KEY}
    ensures LabelsRead(LabelsText(map[KEY := key]), base) == map[KEY := key]
  {
    var m := map[KEY := key];
    KeyIsGood();
    OneLabelText(key);
    assert m.Keys == {KEY} && m[KEY] == key;
    GoodMapReads(m, [KEY], base);
    OverriddenIsFull(base, m);
  }

  // ---- One that is not good ----

  lemma {:induction false} KeyText(raw: string, value: string)
    requires raw == LabelItem(KEY, value)
    ensures |raw| == 4 + |PrintedValue(value)| && At(raw, 4, PrintedValue(value)) && Find(raw, '=', 0) == 3
  {
    KeyIsGood();
    ItemParts(raw, KEY, PrintedValue(value));
  }

  lemma {:induction false} ItemParts(raw: string, key: string, printed: string)
    requires raw == key + "=" + printed && '=' !in key
    ensures |raw| == |key| + 1 + |printed| && At(raw, |key| + 1, printed) && Find(raw, '=', 0) == |key|
  {
    AtSplit(raw, 0, key + "=", printed);
    AtSplit(raw, 0, key, "=");
    assert raw[|key| + 0] == "="[0];
    FindAfterPiece(raw, 0, key, '=', 0);
  }

  /** In the first round its own text is read, and not to its end. */
  lemma {:induction false} FirstRoundIsShorter(raw: string, value: string)
    requires |raw| == 4 + |PrintedValue(value)| && At(raw, 4, PrintedValue(value)) && Find(raw, '=', 0) == 3
    requires !GoodAttachmentKey(value) && NextOp(raw, 0, None).Next?
    ensures var step := NextOp(raw, 0, None);
            step.pos >= 4 && (step.op.value.Some? ==> |step.op.value.value| < |value|)
  {
    var at, start := RoundParts(raw, 0);
    if ',' in value {
      QuotedIsShorter(raw, value);
    } else {
      PlainIsShorter(raw, value);
    }
  }

  lemma {:induction false} QuotedIsShorter(raw: string, value: string)
    requires At(raw, 4, "\"" + value + "\"") && |raw| == |value| + 6 && '"' in value && ScanValue(raw, 4).Some?
    ensures var v := ScanValue(raw, 4).value.0; v.Some? && |v.value| < |value|
  {
    AtSplit(raw, 4, "\"" + value, "\"");
    AtSplit(raw, 4, "\"", value);
    assert raw[4 + 0] == "\""[0];
    var i :| 0 <= i < |value| && value[i] == '"';
    assert raw[5 + i] == value[i];
    FindAtMost(raw, '"', 5, 5 + i);
  }

  lemma {:induction false} LongIsWhole(raw: string, value: string, from: nat, read: string)
    requires At(raw, 4, value) && |raw| == |value| + 4 && 4 <= from && At(raw, from, read) && |read| >= |value|
    ensures read == value && (value != "" ==> raw[4] == value[0])
  {
    assert forall i :: 0 <= i < |value| ==> read[i] == raw[4 + i] == value[i];
  }

  lemma {:induction false} PlainIsShorter(raw: string, value: string)
    requires At(raw, 4, value) && |raw| == |value| + 4 && ',' !in value && !GoodAttachmentKey(value)
    requires ScanValue(raw, 4).Some?
    ensures var v := ScanValue(raw, 4).value.0; v.Some? ==> |v.value| < |value|
  {
    if 4 < |raw| && raw[4] == '"' {
      QuotedParts(raw, 4);
    } else {
      var from := PlainParts(raw, 4);
      var v := ScanValue(raw, 4).value.0;
      if v.Some? && |v.value| >= |value| {
        LongIsWhole(raw, value, from, v.value);
      }
    }
  }

  /** In a later round, what is left of the text after a key is too short. */
  lemma {:induction false} LaterRoundIsShorter(raw: string, value: string, pos: nat)
    requires |raw| <= |value| + 6 && 4 <= pos <= |raw| && NextOp(raw, pos, None).Next?
    ensures var op := NextOp(raw, pos, None).op;
            op.key == KEY && op.value.Some? ==> |op.value.value| < |value|
  {
    KeyIsGood();
    var at, start := RoundParts(raw, pos);
    if start < |raw| && raw[start] == '"' {
      QuotedParts(raw, start);
    } else {
      var from := PlainParts(raw, start);
    }
  }

  predicate ShorterKeys(ops: seq<LabelOp>, value: string) {
    forall i :: 0 <= i < |ops| && ops[i].key == KEY && ops[i].value.Some? ==> |ops[i].value.value| < |value|
  }

  lemma {:induction false} LaterOpsAreShorter(raw: string, value: string, pos: nat, ops: seq<LabelOp>)
    requires |raw| <= |value| + 6 && 4 <= pos <= |raw| && ReadsFrom(raw, pos, ops)
    ensures ShorterKeys(ops, value)
    decreases |ops|
  {
    if ops != [] {
      FirstOp(raw, pos, ops);
      LaterRoundIsShorter(raw, value, pos);
      LaterOpsAreShorter(raw, value, NextOp(raw, pos, None).pos, ops[1..]);
      assert forall i :: 0 < i < |ops| ==> ops[i] == ops[1..][i - 1];
    }
  }

  lemma {:induction false} OpsAreShorter(raw: string, value: string, ops: seq<LabelOp>)
    requires raw == LabelItem(KEY, value) && !GoodAttachmentKey(value) && ReadsFrom(raw, 0, ops)
    ensures ShorterKeys(ops, value)
  {
    if ops != [] {
      KeyText(raw, value);
      FirstOp(raw, 0, ops);
      FirstRoundIsShorter(raw, value);
      LaterOpsAreShorter(raw, value, NextOp(raw, 0, None).pos, ops[1..]);
      assert forall i :: 0 < i < |ops| ==> ops[i] == ops[1..][i - 1];
    }
  }

  /** A key that is not good is read as a shorter one, if as any, or as the one that was there before. */
  lemma {:induction false} BadKeyShrinks(key: string, base: LabelMap)
    requires !GoodAttachmentKey(key)
    ensures var labels := LabelsRead(LabelsText(map[KEY := key]), base);
            KEY in labels && !(KEY in base && base[KEY] == labels[KEY]) ==> |labels[KEY]| < |key|
  {
    var raw := LabelsText(map[KEY := key]);
    OneLabelText(key);
    NoNamesNoThrow(raw, base);
    var ops := ParseOps(raw, None).value;
    OpsAreShorter(raw, key, ops);
    var labels := LabelsRead(raw, base);
    if KEY in labels && !(KEY in base && base[KEY] == labels[KEY]) {
      var i := SetByOp(base, ops, KEY);
    }
  }

  // ---- The records of a batch ----

  /** The records that are written for some keys. */
  predicate AreFor(records: seq<BatchRecord>, keys: seq<string>) {
    |records| == |keys| && forall k :: 0 <= k < |keys| ==> records[k].labels == map[KEY := keys[k]]
  }

  lemma {:induction false} GoodKeysArrive(records: seq<BatchRecord>, keys: seq<string>, k: nat)
    requires AreFor(records, keys) && k < |keys| && forall i :: 0 <= i <= k ==> GoodAttachmentKey(keys[i])
    ensures ArrivedLabels(records, k) == map[KEY := keys[k]]
  {
    if k > 0 {
      GoodKeysArrive(records, keys, k - 1);
      GoodKeyArrives(keys[k], ArrivedLabels(records, k - 1));
    } else {
      GoodKeyArrives(keys[k], map[]);
    }
  }

  predicate HasLabel(labels: LabelMap, key: string) {
    KEY in labels && labels[KEY] == key
  }

  /** No text of a key brings in one that is not good and not shorter. */
  lemma {:induction false} NeverBroughtIn(key: string, base: LabelMap, longest: string)
    requires !GoodAttachmentKey(longest) && !HasLabel(base, longest)
    requires !GoodAttachmentKey(key) ==> |key| <= |longest|
    ensures !HasLabel(LabelsRead(LabelsText(map[KEY := key]), base), longest)
  {
    if GoodAttachmentKey(key) {
      GoodKeyReplaces(key, base);
    } else {
      BadKeyShrinks(key, base);
    }
  }

  // What the text of a key makes of the labels before it, and which keys are good.
  type NextLabels = (string, LabelMap) -> LabelMap
  type Goodness = string -> bool

  function ReadNext(): NextLabels {
    (key: string, base: LabelMap) => LabelsRead(LabelsText(map[KEY := key]), base)
  }

  /** Labels that arrive one after the other. */
  predicate ArriveInTurn(arrived: seq<LabelMap>, keys: seq<string>, next: NextLabels) {
    && |arrived| == |keys|
    && forall k :: 0 <= k < |keys| ==> arrived[k] == next(keys[k], if k == 0 then map[] else arrived[k - 1])
  }

  /** No key that is not good is longer. */
  predicate IsLongest(keys: seq<string>, good: Goodness, longest: string) {
    forall i :: 0 <= i < |keys| ==> good(keys[i]) || |keys[i]| <= |longest|
  }

  ghost predicate NeverBrings(next: NextLabels, good: Goodness, longest: string) {
    forall key, base :: (good(key) || |key| <= |longest|) && !HasLabel(base, longest) ==>
      !HasLabel(next(key, base), longest)
  }

  lemma {:induction false} NeverInTurn(
    arrived: seq<LabelMap>, keys: seq<string>, next: NextLabels, good: Goodness, longest: string, k: nat)
    requires ArriveInTurn(arrived, keys, next) && k < |keys|
    requires IsLongest(keys, good, longest) && NeverBrings(next, good, longest)
    ensures !HasLabel(arrived[k], longest)
  {
    if k > 0 {
      NeverInTurn(arrived, keys, next, good, longest, k - 1);
    }
    assert !HasLabel(if k == 0 then map[] else arrived[k - 1], longest);
  }

  function AllArrived(records: seq<BatchRecord>): (arrived: seq<LabelMap>)
    ensures |arrived| == |records| && forall k :: 0 <= k < |records| ==> arrived[k] == ArrivedLabels(records, k)
  {
    seq(|records|, k requires 0 <= k < |records| => ArrivedLabels(records, k))
  }

  lemma {:induction false} RecordsArriveInTurn(records: seq<BatchRecord>, keys: seq<string>)
    requires AreFor(records, keys)
    ensures ArriveInTurn(AllArrived(records), keys, ReadNext())
  {
  }

  lemma {:induction false} NothingBrings(longest: string)
    requires !GoodAttachmentKey(longest)
    ensures NeverBrings(ReadNext(), GoodAttachmentKey, longest)
  {
    forall key, base | (GoodAttachmentKey(key) || |key| <= |longest|) && !HasLabel(base, longest)
      ensures !HasLabel(ReadNext()(key, base), longest)
    {
      NeverBroughtIn(key, base, longest);
    }
  }

  /** A longest key that is not good arrives with no record. */
  lemma {:induction false} LongestNeverArrives(records: seq<BatchRecord>, keys: seq<string>, longest: string, k: nat)
    requires AreFor(records, keys) && k < |keys| && !GoodAttachmentKey(longest)
    requires IsLongest(keys, GoodAttachmentKey, longest)
    ensures !HasLabel(ArrivedLabels(records, k), longest)
  {
    RecordsArriveInTurn(records, keys);
    NothingBrings(longest);
    NeverInTurn(AllArrived(records), keys, ReadNext(), GoodAttachmentKey, longest, k);
  }

  lemma {:induction false} GoodKeyReplaces(key: string, base: LabelMap)
    requires GoodAttachmentKey(key)
    ensures HasLabel(LabelsRead(LabelsText(map[KEY := key]), base), key)
  {
    var m := map[KEY := key];
    KeyIsGood();
    OneLabelText(key);
    assert m.Keys == {KEY} && m[KEY] == key;
    GoodMapReads(m, [KEY], base);
  }

  lemma {:induction false} LongestBad(keys: seq<string>, n: nat, good: Goodness) returns (longest: string)
    requires n <= |keys| && exists i :: 0 <= i < n && !good(keys[i])
    ensures longest in keys && !good(longest) && IsLongest(keys[..n], good, longest)
  {
    if exists i :: 0 <= i < n - 1 && !good(keys[i]) {
      longest := LongestBad(keys, n - 1, good);
      if !good(keys[n - 1]) && |keys[n - 1]| > |longest| {
        longest := keys[n - 1];
      }
    } else {
      longest := keys[n - 1];
    }
    assert forall i :: 0 <= i < n - 1 ==> keys[..n][i] == keys[..n - 1][i];
  }

  // ---- The mark of a removal ----

  /** The labels of a record with a good key, marked or not. */
  predicate IsMarkable(labels: LabelMap) {
    && KEY in labels && GoodAttachmentKey(labels[KEY]) && labels.Keys <= {KEY, REMOVE}
    && (REMOVE in labels ==> labels[REMOVE] == "true")
  }

  /** The update of its own labels marks it. */
  lemma {:induction false} MarkArrives(labels: LabelMap)
    requires IsMarkable(labels)
    ensures LabelsRead(LabelsText(labels[REMOVE := "true"]), labels) == labels[REMOVE := "true"]
    ensures IsMarkable(labels[REMOVE := "true"])
  {
    var m := labels[REMOVE := "true"];
    assert KEY[0] == 'k' && REMOVE[0] == 'r';
    TwoKeys(KEY, REMOVE);
    assert m.Keys == {KEY, REMOVE};
    MarkedIsGood(m, labels[KEY]);
    SortedKeysAre(m.Keys);
    GoodMapReads(m, [KEY, REMOVE], labels);
    OverriddenIsFull(labels, m);
  }

  // ---- One key on its own ----

  lemma {:induction false} KeyAlone(key: string)
    ensures LabelsRead(LabelsText(map[KEY := key]), map[]) == map[KEY := key] <==> GoodAttachmentKey(key)
  {
    if GoodAttachmentKey(key) {
      GoodKeyArrives(key, map[]);
    } else {
      BadKeyShrinks(key, map[]);
    }
  }

  lemma {:induction false} TwoKeys(j: string, k: string)
    requires j != k && IsLeast(j, {j, k})
    ensures SortedKeys({j, k}) == [j, k]
  {
    LeastIsUnique({j, k});
    assert {j, k} - {j} == {k};
    OneKey(k);
  }

  lemma {:induction false} KeyBesideMark(key: string)
    ensures var m := map[KEY := key, REMOVE := "true"];
            LabelsRead(LabelsText(m), map[]) == m <==> GoodAttachmentKey(key)
  {
    var m := map[KEY := key, REMOVE := "true"];
    MapComesBack(m);
    assert KEY[0] == 'k' && REMOVE[0] == 'r';
    TwoKeys(KEY, REMOVE);
    assert m.Keys == {KEY, REMOVE};
    MarkedIsGood(m, key);
  }

  lemma {:induction false} MarkedIsGood(m: LabelMap, key: string)
    requires m.Keys == {KEY, REMOVE} && m[KEY] == key && m[REMOVE] == "true"
    ensures GoodLabels(m, [KEY, REMOVE], true) && (forall k <- m :: m[k] != "") <==> GoodAttachmentKey(key)
  {
    var keys := [KEY, REMOVE];
    KeyIsGood();
    assert REMOVE[0] == 'r';
    assert GoodKey(REMOVE, false) && GoodValue("true");
    assert keys[0] == KEY && keys[1] == REMOVE;
  }

  /**
   The key of an attachment arrives, as the label of a written record and beside the mark of a removed one, exactly when
   it is good.
   */
  lemma {:induction false} KeySurvives(key: string)
    ensures LabelsRead(LabelsText(map[KEY := key]), map[]) == map[KEY := key] <==> GoodAttachmentKey(key)
    ensures var m := map[KEY := key, REMOVE := "true"];
            LabelsRead(LabelsText(m), map[]) == m <==> GoodAttachmentKey(key)
  {
    KeyAlone(key);
    KeyBesideMark(key);
  }
}
