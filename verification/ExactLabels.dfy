/**
 When a whole label map comes back from its text. Every label that is read uses up its own quotes and blanks, and the
 text has no others: so none of its labels can be read from the text of another one.
 */
module ExactLabels {
  import opened Wrappers
  import opened Text
  import opened Ordering
  import opened Batches
  import opened Labels

  // ---- Counting characters ----

  function Count(s: string, from: nat, upTo: nat, c: char): nat
    requires from <= upTo <= |s|
    decreases upTo
  {
    if from == upTo then 0 else Count(s, from, upTo - 1, c) + if s[upTo - 1] == c then 1 else 0
  }

  function All(s: string, c: char): nat {
    Count(s, 0, |s|, c)
  }

  lemma {:induction false} CountSplit(s: string, from: nat, mid: nat, upTo: nat, c: char)
    requires from <= mid <= upTo <= |s|
    ensures Count(s, from, upTo, c) == Count(s, from, mid, c) + Count(s, mid, upTo, c)
    decreases upTo - mid
  {
    if mid < upTo {
      CountSplit(s, from, mid, upTo - 1, c);
    }
  }

  lemma {:induction false} CountAt(s: string, pos: nat, piece: string, n: nat, c: char)
    requires At(s, pos, piece) && n <= |piece|
    ensures Count(s, pos, pos + n, c) == Count(piece, 0, n, c)
  {
    if n > 0 {
      CountAt(s, pos, piece, n - 1, c);
    }
  }

  /** Three parts of a range that do not overlap. */
  lemma {:induction false} CountParts(
    s: string, from: nat, a: nat, a': nat, b: nat, b': nat, d: nat, d': nat, upTo: nat, c: char)
    requires from <= a <= a' <= b <= b' <= d <= d' <= upTo <= |s|
    ensures Count(s, from, upTo, c) >= Count(s, a, a', c) + Count(s, b, b', c) + Count(s, d, d', c)
  {
    CountSplit(s, from, a, upTo, c);
    CountSplit(s, a, a', upTo, c);
    CountSplit(s, a', b, upTo, c);
    CountSplit(s, b, b', upTo, c);
    CountSplit(s, b', d, upTo, c);
    CountSplit(s, d, d', upTo, c);
  }

  lemma {:induction false} AllOfTwo(s: string, a: string, b: string, c: char)
    requires At(s, 0, a) && At(s, |a|, b) && |s| == |a| + |b|
    ensures All(s, c) == All(a, c) + All(b, c)
  {
    CountSplit(s, 0, |a|, |s|, c);
    CountAt(s, 0, a, |a|, c);
    CountAt(s, |a|, b, |b|, c);
  }

  lemma {:induction false} AllAppend(a: string, b: string, c: char)
    ensures All(a + b, c) == All(a, c) + All(b, c)
  {
    AtSplit(a + b, 0, a, b);
    AllOfTwo(a + b, a, b, c);
  }

  lemma {:induction false} AllNone(s: string, c: char, n: nat)
    requires c !in s && n <= |s|
    ensures Count(s, 0, n, c) == 0
  {
    if n > 0 {
      AllNone(s, c, n - 1);
      assert s[n - 1] in s;
    }
  }

  // ---- What a label weighs in its text, and in what is read ----

  /** How often a quote or a blank stands in the text of a label. */
  function Weight(key: string, value: string, c: char): nat {
    All(key, c) + All(value, c) + if c == '"' && ',' in value then 2 else 0
  }

  /** The labels of a map for some keys. */
  function WeightIn(m: LabelMap, keys: seq<string>, c: char): nat {
    if keys == [] then 0
    else (if keys[0] in m then Weight(keys[0], m[keys[0]], c) else 0) + WeightIn(m, keys[1..], c)
  }

  function OpWeight(op: LabelOp, c: char): nat {
    Weight(op.key, if op.value.Some? then op.value.value else "", c)
  }

  function OpsWeight(ops: seq<LabelOp>, c: char): nat {
    if ops == [] then 0 else OpWeight(ops[0], c) + OpsWeight(ops[1..], c)
  }

  predicate Counted(c: char) {
    c == '"' || IsBlank(c)
  }

  lemma {:induction false} ItemWeight(key: string, value: string, c: char)
    requires Counted(c)
    ensures All(LabelItem(key, value), c) == Weight(key, value, c)
  {
    AllAppend(key + "=", PrintedValue(value), c);
    AllAppend(key, "=", c);
    AllNone("=", c, 1);
    if ',' in value {
      AllAppend("\"" + value, "\"", c);
      AllAppend("\"", value, c);
      OneQuote(c);
    }
  }

  lemma {:induction false} OneQuote(c: char)
    ensures All("\"", c) == if c == '"' then 1 else 0
  {
    assert Count("\"", 0, 0, c) == 0;
  }

  /** The text of a map has the quotes and blanks of its labels and no others. */
  lemma {:induction false} TextWeight(m: LabelMap, keys: seq<string>, c: char)
    requires Counted(c) && forall k <- keys :: k in m
    ensures All(Join(LabelItems(m, keys)), c) == WeightIn(m, keys, c)
  {
    if keys != [] {
      var items, rest := LabelItems(m, keys), keys[1..];
      assert items[1..] == LabelItems(m, rest);
      ItemWeight(keys[0], m[keys[0]], c);
      TextWeight(m, rest, c);
      if rest != [] {
        AllAppend(items[0] + ",", Join(items[1..]), c);
        AllAppend(items[0], ",", c);
        AllNone(",", c, 1);
      }
    }
  }

  lemma {:induction false} WeightSame(a: LabelMap, b: LabelMap, keys: seq<string>, c: char)
    requires forall k <- keys :: (k in a <==> k in b) && (k in a ==> a[k] == b[k])
    ensures WeightIn(a, keys, c) == WeightIn(b, keys, c)
  {
    if keys != [] {
      assert keys[0] in keys;
      WeightSame(a, b, keys[1..], c);
    }
  }

  lemma {:induction false} OneOpWeight(base: LabelMap, op: LabelOp, keys: seq<string>, c: char)
    requires NoDuplicates(keys)
    ensures WeightIn(ApplyOp(base, op), keys, c) <= WeightIn(base, keys, c) + OpWeight(op, c)
  {
    if keys != [] {
      var rest := keys[1..];
      if keys[0] == op.key {
        assert op.key !in rest;
        WeightSame(ApplyOp(base, op), base, rest, c);
      } else {
        OneOpWeight(base, op, rest, c);
      }
    }
  }

  /** What some operations leave weighs no more than they do, and what they started from. */
  lemma {:induction false} OpsLeave(base: LabelMap, ops: seq<LabelOp>, keys: seq<string>, c: char)
    requires NoDuplicates(keys)
    ensures WeightIn(ApplyOps(base, ops), keys, c) <= WeightIn(base, keys, c) + OpsWeight(ops, c)
    decreases ops
  {
    if ops != [] {
      OpsLeave(ApplyOp(base, ops[0]), ops[1..], keys, c);
      OneOpWeight(base, ops[0], keys, c);
    }
  }

  lemma {:induction false} NothingWeighsNothing(keys: seq<string>, c: char)
    ensures WeightIn(map[], keys, c) == 0
  {
    if keys != [] {
      NothingWeighsNothing(keys[1..], c);
    }
  }

  // ---- One round of the scan ----

  /** Where the parts of the operation of one round stand. */
  lemma {:induction false} RoundParts(raw: string, pos: nat) returns (key: nat, start: nat)
    requires pos <= |raw| && NextOp(raw, pos, None).Next?
    ensures var step := NextOp(raw, pos, None);
            && pos <= key && key + |step.op.key| < start <= step.pos && At(raw, key, step.op.key)
            && start == Find(raw, '=', pos) + 1
            && '=' !in step.op.key && Trimmed(step.op.key)
            && ScanValue(raw, start).Some? && ScanValue(raw, start).value.0 == step.op.value
            && ScanValue(raw, start).value.1 <= step.pos
  {
    var eq := Find(raw, '=', pos);
    FindSkips(raw, '=', pos);
    key, start := SkipBlanks(raw, pos, eq), eq + 1;
    var text := TrimRange(raw, pos, eq);
    assert forall i :: 0 <= i < |text| ==> text[i] == raw[key + i];
  }

  /** A quoted value: two quotes around a text without any. */
  lemma {:induction false} QuotedParts(raw: string, start: nat)
    requires start < |raw| && raw[start] == '"' && ScanValue(raw, start).Some?
    ensures var v := ScanValue(raw, start).value;
            && v.0.Some? && '"' !in v.0.value && At(raw, start + 1, v.0.value)
            && v.1 == start + |v.0.value| + 2 && raw[v.1 - 1] == '"'
  {
    FindSkips(raw, '"', start + 1);
    var quote := Find(raw, '"', start + 1);
    var value := Substr(raw, start + 1, quote);
    assert forall i :: 0 <= i < |value| ==> value[i] == raw[start + 1 + i];
  }

  /** A value without quotes around it: trimmed, without commas and not empty, behind some blanks. */
  lemma {:induction false} PlainParts(raw: string, start: nat) returns (from: nat)
    requires start <= |raw| && (start < |raw| ==> raw[start] != '"')
    ensures var v := ScanValue(raw, start);
            && v.Some? && start <= from
            && (v.value.0.Some? ==>
                  && v.value.0.value != "" && ',' !in v.value.0.value && Trimmed(v.value.0.value)
                  && At(raw, from, v.value.0.value) && from + |v.value.0.value| <= v.value.1
                  && (from > start ==> IsBlank(raw[start])))
  {
    FindSkips(raw, ',', start);
    var comma := Find(raw, ',', start);
    from := SkipBlanks(raw, start, comma);
    var text := TrimRange(raw, start, comma);
    assert forall i :: 0 <= i < |text| ==> text[i] == raw[from + i];
  }

  lemma {:induction false} CountOne(s: string, at: nat, c: char)
    requires at < |s|
    ensures Count(s, at, at + 1, c) == if s[at] == c then 1 else 0
  {
    assert Count(s, at, at, c) == 0;
  }

  /** A round with a value in quotes uses up the quotes and blanks of its label, and two quotes. */
  lemma {:induction false} QuotedWeight(raw: string, key: string, at: nat, pos: nat, start: nat, upTo: nat, c: char)
    requires pos <= at && at + |key| < start < |raw| && At(raw, at, key) && raw[start] == '"'
    requires ScanValue(raw, start).Some? && ScanValue(raw, start).value.1 <= upTo <= |raw|
    ensures Count(raw, pos, upTo, c)
            >= All(key, c) + All(ScanValue(raw, start).value.0.value, c) + if c == '"' then 2 else 0
  {
    QuotedParts(raw, start);
    var (value, end) := ScanValue(raw, start).value;
    var from := start + 1;
    CountParts(raw, pos, at, at + |key|, start, end, end, end, upTo, c);
    CountAt(raw, at, key, |key|, c);
    CountAt(raw, from, value.value, |value.value|, c);
    CountSplit(raw, start, from, end, c);
    CountSplit(raw, from, end - 1, end, c);
    CountOne(raw, start, c);
    CountOne(raw, end - 1, c);
  }

  /** One without uses up those of its label, and a blank in front of the value if there is one. */
  lemma {:induction false} PlainWeight(
    raw: string, key: string, at: nat, pos: nat, start: nat, from: nat, value: string, upTo: nat, c: char)
    requires pos <= at && at + |key| < start <= from && At(raw, at, key) && At(raw, from, value)
    requires from + |value| <= upTo <= |raw|
    ensures Count(raw, pos, upTo, c) >= All(key, c) + All(value, c) + if from > start && raw[start] == c then 1 else 0
  {
    CountAt(raw, at, key, |key|, c);
    CountAt(raw, from, value, |value|, c);
    if from > start {
      CountParts(raw, pos, at, at + |key|, start, start + 1, from, from + |value|, upTo, c);
      CountOne(raw, start, c);
    } else {
      CountParts(raw, pos, at, at + |key|, from, from, from, from + |value|, upTo, c);
    }
  }

  /** A round uses up at least the quotes and blanks of its label; if not more, its value is good. */
  lemma {:induction false} RoundWeight(raw: string, pos: nat, c: char)
    requires pos <= |raw| && NextOp(raw, pos, None).Next? && Counted(c)
    ensures var step := NextOp(raw, pos, None); Count(raw, pos, step.pos, c) >= OpWeight(step.op, c)
  {
    var step := NextOp(raw, pos, None);
    var at, start := RoundParts(raw, pos);
    if start < |raw| && raw[start] == '"' {
      QuotedWeight(raw, step.op.key, at, pos, start, step.pos, c);
    } else {
      var from := PlainParts(raw, start);
      if step.op.value.Some? {
        PlainWeight(raw, step.op.key, at, pos, start, from, step.op.value.value, step.pos, c);
      } else {
        PlainWeight(raw, step.op.key, at, pos, start, start, "", step.pos, c);
      }
    }
  }

  predicate TightRound(raw: string, pos: nat)
    requires pos <= |raw| && NextOp(raw, pos, None).Next?
  {
    var step := NextOp(raw, pos, None);
    && Count(raw, pos, step.pos, '"') == OpWeight(step.op, '"')
    && Count(raw, pos, step.pos, ' ') == OpWeight(step.op, ' ')
    && Count(raw, pos, step.pos, '\t') == OpWeight(step.op, '\t')
  }

  /** What a good label is read from: a value that is good, and not empty. */
  predicate GoodOp(op: LabelOp) {
    op.value.Some? ==> op.value.value != "" && GoodValue(op.value.value)
  }

  lemma {:induction false} TightRoundIsGood(raw: string, pos: nat)
    requires pos <= |raw| && NextOp(raw, pos, None).Next? && TightRound(raw, pos)
    ensures GoodOp(NextOp(raw, pos, None).op)
  {
    var step := NextOp(raw, pos, None);
    var at, start := RoundParts(raw, pos);
    if start < |raw| && raw[start] == '"' {
      QuotedParts(raw, start);
      QuotedWeight(raw, step.op.key, at, pos, start, step.pos, '"');
    } else {
      var from := PlainParts(raw, start);
      if step.op.value.Some? {
        var value := step.op.value.value;
        if value[0] == '"' {
          assert raw[from + 0] == value[0];
          PlainWeight(raw, step.op.key, at, pos, start, from, value, step.pos, raw[start]);
        }
      }
    }
  }

  // ---- The whole scan ----

  /** The operations from a position on, if the scan does not throw there. */
  predicate ReadsFrom(raw: string, pos: nat, ops: seq<LabelOp>)
    requires pos <= |raw|
  {
    Scan(RoundsOf(raw, None), pos, |raw|) == Some(ops)
  }

  /** What the first operation of a scan leaves for the others. */
  lemma {:induction false} FirstOp(raw: string, pos: nat, ops: seq<LabelOp>)
    requires pos <= |raw| && ReadsFrom(raw, pos, ops) && ops != []
    ensures var step := NextOp(raw, pos, None);
            && step.Next? && pos < step.pos <= |raw| && step.op == ops[0] && ReadsFrom(raw, step.pos, ops[1..])
            && (step.pos < |raw| ==> !IsSpace(raw[step.pos]))
  {
    var round := RoundsOf(raw, None);
    assert round(pos) == NextOp(raw, pos, None);
    var step := NextOp(raw, pos, None);
    assert step.Next?;
    var more := Scan(round, step.pos, |raw|);
    assert ops == [step.op] + more.value && ops[1..] == more.value;
  }

  lemma {:induction false} ScanWeight(raw: string, pos: nat, ops: seq<LabelOp>, c: char)
    requires pos <= |raw| && ReadsFrom(raw, pos, ops) && Counted(c)
    ensures OpsWeight(ops, c) <= Count(raw, pos, |raw|, c)
    decreases |ops|
  {
    if ops != [] {
      FirstOp(raw, pos, ops);
      var next := NextOp(raw, pos, None).pos;
      ScanWeight(raw, next, ops[1..], c);
      RoundWeight(raw, pos, c);
      CountSplit(raw, pos, next, |raw|, c);
    }
  }

  predicate Tight(raw: string, pos: nat, ops: seq<LabelOp>, c: char)
    requires pos <= |raw|
  {
    Count(raw, pos, |raw|, c) <= OpsWeight(ops, c)
  }

  lemma {:induction false} TightFirst(raw: string, pos: nat, ops: seq<LabelOp>, c: char)
    requires pos <= |raw| && ReadsFrom(raw, pos, ops) && ops != [] && Counted(c) && Tight(raw, pos, ops, c)
    ensures var step := NextOp(raw, pos, None);
            && step.Next? && step.pos <= |raw|
            && Count(raw, pos, step.pos, c) == OpWeight(step.op, c) && Tight(raw, step.pos, ops[1..], c)
  {
    FirstOp(raw, pos, ops);
    var next := NextOp(raw, pos, None).pos;
    ScanWeight(raw, next, ops[1..], c);
    RoundWeight(raw, pos, c);
    CountSplit(raw, pos, next, |raw|, c);
  }

  /** If the operations use up all quotes and blanks of a text, they all have good values. */
  lemma {:induction false} TightScanIsGood(raw: string, pos: nat, ops: seq<LabelOp>)
    requires pos <= |raw| && ReadsFrom(raw, pos, ops)
    requires Tight(raw, pos, ops, '"') && Tight(raw, pos, ops, ' ') && Tight(raw, pos, ops, '\t')
    ensures forall i :: 0 <= i < |ops| ==> GoodOp(ops[i])
    decreases |ops|
  {
    if ops != [] {
      FirstOp(raw, pos, ops);
      TightFirst(raw, pos, ops, '"');
      TightFirst(raw, pos, ops, ' ');
      TightFirst(raw, pos, ops, '\t');
      TightRoundIsGood(raw, pos);
      TightScanIsGood(raw, NextOp(raw, pos, None).pos, ops[1..]);
      assert forall i :: 0 < i < |ops| ==> ops[i] == ops[1..][i - 1];
    }
  }

  /** Keys are read without blanks and equal signs, and behind a separator without any white space in front. */
  lemma {:induction false} KeysRead(raw: string, pos: nat, ops: seq<LabelOp>)
    requires pos <= |raw| && ReadsFrom(raw, pos, ops)
    ensures forall i :: 0 <= i < |ops| ==> GoodKey(ops[i].key, true)
    ensures forall i :: 0 < i < |ops| ==> GoodKey(ops[i].key, false)
    ensures pos < |raw| && !IsSpace(raw[pos]) && ops != [] ==> GoodKey(ops[0].key, false)
    decreases |ops|
  {
    if ops != [] {
      FirstOp(raw, pos, ops);
      var at, start := RoundParts(raw, pos);
      if !IsSpace(raw[pos]) {
        KeyStart(raw, pos);
      }
      var next, more := NextOp(raw, pos, None).pos, ops[1..];
      KeysRead(raw, next, more);
      if more != [] {
        FirstOp(raw, next, more);
      }
      forall i | 0 < i < |ops| ensures GoodKey(ops[i].key, false) {
        assert ops[i] == more[i - 1];
      }
    }
  }

  lemma {:induction false} KeyStart(raw: string, pos: nat)
    requires pos < |raw| && NextOp(raw, pos, None).Next? && !IsSpace(raw[pos])
    ensures GoodKey(NextOp(raw, pos, None).op.key, false)
  {
    var at, start := RoundParts(raw, pos);
    var key := NextOp(raw, pos, None).op.key;
    if key != "" {
      assert raw[at + 0] == key[0];
    }
  }

  // ---- Whole maps ----

  /** A label that was not there before was set by an operation. */
  lemma {:induction false} SetByOp(base: LabelMap, ops: seq<LabelOp>, key: string) returns (i: nat)
    requires key in ApplyOps(base, ops) && !(key in base && base[key] == ApplyOps(base, ops)[key])
    ensures i < |ops| && ops[i] == LabelOp(key, Some(ApplyOps(base, ops)[key]))
    decreases ops
  {
    var next := ApplyOp(base, ops[0]);
    if key in next && next[key] == ApplyOps(base, ops)[key] {
      i := 0;
    } else {
      var j := SetByOp(next, ops[1..], key);
      i := j + 1;
    }
  }

  /** The first key of a text, when it has no equal sign. */
  lemma {:induction false} FirstKeyIsRead(raw: string, ops: seq<LabelOp>, key: string)
    requires ReadsFrom(raw, 0, ops) && ops != []
    requires At(raw, 0, key) && |key| < |raw| && raw[|key|] == '=' && '=' !in key && Trimmed(key)
    ensures ops[0].key == key
  {
    FirstOp(raw, 0, ops);
    FindAfterPiece(raw, 0, key, '=', 0);
    TrimAt(raw, 0, key);
  }

  lemma {:induction false} TextStarts(m: LabelMap, keys: seq<string>)
    requires keys != [] && forall k <- keys :: k in m
    ensures var raw := Join(LabelItems(m, keys)); At(raw, 0, keys[0]) && |keys[0]| < |raw| && raw[|keys[0]|] == '='
  {
    var raw := Join(LabelItems(m, keys));
    LabelsSplit(raw, 0, m, keys);
    AtSplit(raw, 0, keys[0] + "=", PrintedValue(m[keys[0]]));
    AtSplit(raw, 0, keys[0], "=");
    assert raw[|keys[0]| + 0] == "="[0];
  }

  /** The operations that give a whole map back use up all quotes and blanks of its text. */
  lemma {:induction false} AllUsedUp(m: LabelMap, keys: seq<string>, ops: seq<LabelOp>, c: char)
    requires Enumerates(keys, m.Keys) && ApplyOps(map[], ops) == m && Counted(c)
    requires ReadsFrom(Join(LabelItems(m, keys)), 0, ops)
    ensures Tight(Join(LabelItems(m, keys)), 0, ops, c)
  {
    TextWeight(m, keys, c);
    OpsLeave(map[], ops, keys, c);
    NothingWeighsNothing(keys, c);
  }

  lemma {:induction false} OnlyGoodComesBack(m: LabelMap, keys: seq<string>, ops: seq<LabelOp>, k: nat)
    requires Enumerates(keys, m.Keys) && ApplyOps(map[], ops) == m && k < |keys|
    requires ReadsFrom(Join(LabelItems(m, keys)), 0, ops)
    ensures m[keys[k]] != "" && GoodValue(m[keys[k]]) && GoodKey(keys[k], k == 0)
  {
    var raw := Join(LabelItems(m, keys));
    AllUsedUp(m, keys, ops, '"');
    AllUsedUp(m, keys, ops, ' ');
    AllUsedUp(m, keys, ops, '\t');
    TightScanIsGood(raw, 0, ops);
    KeysRead(raw, 0, ops);
    assert keys[k] in keys && keys[0] in keys;
    var i := SetByOp(map[], ops, keys[k]);
    assert GoodOp(ops[i]);
    if i == 0 && k > 0 {
      var j := SetByOp(map[], ops, keys[0]);
      assert GoodKey(ops[j].key, true);
      TextStarts(m, keys);
      FirstKeyIsRead(raw, ops, keys[0]);
      assert false;
    }
  }

  lemma {:induction false} GoodMapReads(m: LabelMap, keys: seq<string>, base: LabelMap)
    requires Enumerates(keys, m.Keys) && GoodLabels(m, keys, true)
    ensures LabelsRead(Join(LabelItems(m, keys)), base) == Overridden(base, m)
  {
    LabelsComeBack(Join(LabelItems(m, keys)), 0, m, keys, true);
    ApplyOpsOverrides(base, m, keys);
    assert Restrict(m, keys) == m;
  }

  lemma {:induction false} OnlyGoodMapReads(m: LabelMap, keys: seq<string>)
    requires Enumerates(keys, m.Keys) && LabelsRead(Join(LabelItems(m, keys)), map[]) == m
    ensures GoodLabels(m, keys, true) && forall k <- m :: m[k] != ""
  {
    var raw := Join(LabelItems(m, keys));
    NoNamesNoThrow(raw, map[]);
    var ops := ParseOps(raw, None).value;
    forall k | 0 <= k < |keys|
      ensures m[keys[k]] != "" && GoodKey(keys[k], true && k == 0) && GoodValue(m[keys[k]])
    {
      OnlyGoodComesBack(m, keys, ops, k);
    }
    forall k | k in m ensures m[k] != "" {
      assert k in keys;
    }
  }

  /**
   A label map comes back from its text, whatever is in it, exactly when all keys and values are good and no value is
   empty.
   */
  lemma {:induction false} MapComesBack(m: LabelMap)
    ensures Enumerates(SortedKeys(m.Keys), m.Keys)
    ensures LabelsRead(LabelsText(m), map[]) == m
            <==> GoodLabels(m, SortedKeys(m.Keys), true) && forall k <- m :: m[k] != ""
  {
    SortedKeysAre(m.Keys);
    var keys := SortedKeys(m.Keys);
    if GoodLabels(m, keys, true) {
      GoodMapReads(m, keys, map[]);
      OverriddenIsFull(map[], m);
    }
    if LabelsRead(LabelsText(m), map[]) == m {
      OnlyGoodMapReads(m, keys);
    }
  }

  // ---- On top of other labels ----

  /** One round, from where its parts stand. */
  lemma {:induction false} RoundIs(
    raw: string, pos: nat, key: string, value: Option<string>, end: nat, next: nat)
    requires pos <= |raw| && At(raw, pos, key) && '=' !in key && Trimmed(key)
    requires pos + |key| < |raw| && raw[pos + |key|] == '=' && ScanValue(raw, pos + |key| + 1) == Some((value, end))
    requires end <= |raw| && next == AfterComma(raw, end) && (next < |raw| ==> !IsSpace(raw[next]))
    ensures NextOp(raw, pos, None) == Next(LabelOp(key, value), next)
  {
    FindAfterPiece(raw, pos, key, '=', pos);
    TrimAt(raw, pos, key);
  }

  lemma {:induction false} QuotedValue(raw: string, start: nat, value: string)
    requires start + |value| + 1 < |raw| && raw[start] == '"' && At(raw, start + 1, value)
    requires '"' !in value && raw[start + |value| + 1] == '"'
    ensures ScanValue(raw, start) == Some((Some(value), start + |value| + 2))
  {
    FindAfterPiece(raw, start + 1, value, '"', start + 1);
    AtSlice(raw, start + 1, value);
  }

  lemma {:induction false} BlankValue(raw: string, start: nat, value: string)
    requires start < |raw| && raw[start] == ' ' && At(raw, start + 1, value)
    requires value != "" && Trimmed(value) && ',' !in value
    requires var end := start + 1 + |value|; end == |raw| || raw[end] == ','
    ensures ScanValue(raw, start) == Some((Some(value), start + 1 + |value|))
  {
    var end := start + 1 + |value|;
    FindAfterPiece(raw, start + 1, value, ',', start + 1);
    assert Find(raw, ',', start) == end;
    TrimAt(raw, start + 1, value);
    assert SkipBlanks(raw, start, end) == SkipBlanks(raw, start + 1, end);
  }

  lemma {:induction false} OneMoreOp(raw: string, pos: nat, op: LabelOp, next: nat, more: seq<LabelOp>)
    requires pos <= |raw| && NextOp(raw, pos, None) == Next(op, next) && ReadsFrom(raw, next, more)
    ensures ReadsFrom(raw, pos, [op] + more)
  {
    assert RoundsOf(raw, None)(pos) == NextOp(raw, pos, None);
  }

  predicate IsTwisted(raw: string) {
    && |raw| == 25
    && raw[0] == 'c' && raw[1] == '=' && raw[2] == ' ' && raw[3] == 'v' && raw[4] == ','
    && raw[5] == 'e' && raw[6] == '=' && raw[7] == '"' && raw[8] == 'z' && raw[9] == ','
    && raw[10] == 'f' && raw[11] == '=' && raw[12] == 'y' && raw[13] == '"'
    && raw[14] == 'c' && raw[15] == '=' && raw[16] == '"' && raw[17] == ' ' && raw[18] == 'v' && raw[19] == '"'
    && raw[20] == 'e' && raw[21] == '=' && raw[22] == ' ' && raw[23] == '"' && raw[24] == 'z'
  }

  lemma {:induction false} FirstRound(raw: string)
    requires IsTwisted(raw)
    ensures NextOp(raw, 0, None) == Next(LabelOp("c", Some("v")), 5)
  {
    BlankValue(raw, 2, "v");
    RoundIs(raw, 0, "c", Some("v"), 4, 5);
  }

  lemma {:induction false} SecondRound(raw: string)
    requires IsTwisted(raw)
    ensures NextOp(raw, 5, None) == Next(LabelOp("e", Some("z,f=y")), 14)
  {
    QuotedValue(raw, 7, "z,f=y");
    RoundIs(raw, 5, "e", Some("z,f=y"), 14, 14);
  }

  lemma {:induction false} ThirdRound(raw: string)
    requires IsTwisted(raw)
    ensures NextOp(raw, 14, None) == Next(LabelOp("c", Some(" v")), 20)
  {
    QuotedValue(raw, 16, " v");
    RoundIs(raw, 14, "c", Some(" v"), 20, 20);
  }

  lemma {:induction false} FourthRound(raw: string)
    requires IsTwisted(raw)
    ensures NextOp(raw, 20, None) == Next(LabelOp("e", Some("\"z")), 25)
  {
    BlankValue(raw, 22, "\"z");
    RoundIs(raw, 20, "e", Some("\"z"), 25, 25);
  }

  lemma {:induction false} FourOps(raw: string, one: LabelOp, two: LabelOp, three: LabelOp, four: LabelOp)
    requires |raw| == 25
    requires NextOp(raw, 0, None) == Next(one, 5) && NextOp(raw, 5, None) == Next(two, 14)
    requires NextOp(raw, 14, None) == Next(three, 20) && NextOp(raw, 20, None) == Next(four, 25)
    ensures ReadsFrom(raw, 0, [one, two, three, four])
  {
    assert ReadsFrom(raw, 25, []);
    OneMoreOp(raw, 20, four, 25, []);
    OneMoreOp(raw, 14, three, 20, [four] + []);
    OneMoreOp(raw, 5, two, 14, [three] + ([four] + []));
    OneMoreOp(raw, 0, one, 5, [two] + ([three] + ([four] + [])));
    assert [one] + ([two] + ([three] + ([four] + []))) == [one, two, three, four];
  }

  lemma {:induction false} TwistedText(third: string, raw: string)
    requires third == "y\"c=\" v\"e= \"z"
    requires raw == ("c" + "=" + " v") + "," + (("e" + "=" + "\"z") + "," + ("f" + "=" + third))
    ensures IsTwisted(raw)
  {
  }

  lemma {:induction false} JoinThree(a: string, b: string, c: string)
    ensures Join([a, b, c]) == a + "," + (b + "," + c)
  {
    assert [a, b, c][1..] == [b, c] && [b, c][1..] == [c];
    assert Join([b, c]) == b + "," + Join([c]);
  }

  lemma {:induction false} ItemsOfThree(m: LabelMap, a: string, b: string, c: string)
    requires a in m && b in m && c in m
    ensures LabelItems(m, [a, b, c]) == [LabelItem(a, m[a]), LabelItem(b, m[b]), LabelItem(c, m[c])]
  {
    assert [a, b, c][1..] == [b, c] && [b, c][1..] == [c] && [c][1..] == [];
    assert LabelItems(m, [c]) == [LabelItem(c, m[c])] + [];
    assert LabelItems(m, [b, c]) == [LabelItem(b, m[b])] + LabelItems(m, [c]);
  }

  lemma {:induction false} ApplyFour(base: LabelMap, a: LabelOp, b: LabelOp, c: LabelOp, d: LabelOp)
    ensures ApplyOps(base, [a, b, c, d]) == ApplyOp(ApplyOp(ApplyOp(ApplyOp(base, a), b), c), d)
  {
    assert [a, b, c, d][1..] == [b, c, d] && [b, c, d][1..] == [c, d] && [c, d][1..] == [d] && [d][1..] == [];
    var x := ApplyOp(base, a);
    var y := ApplyOp(x, b);
    var z := ApplyOp(y, c);
    assert ApplyOps(base, [a, b, c, d]) == ApplyOps(x, [b, c, d]);
    assert ApplyOps(x, [b, c, d]) == ApplyOps(y, [c, d]);
    assert ApplyOps(y, [c, d]) == ApplyOps(z, [d]);
    assert ApplyOps(z, [d]) == ApplyOps(ApplyOp(z, d), []);
  }

  lemma {:induction false} TwistedItems(third: string, m: LabelMap)
    requires third == "y\"c=\" v\"e= \"z" && m == map["c" := " v", "e" := "\"z", "f" := third]
    ensures IsTwisted(Join(LabelItems(m, ["c", "e", "f"])))
  {
    ItemsOfThree(m, "c", "e", "f");
    JoinThree(LabelItem("c", " v"), LabelItem("e", "\"z"), LabelItem("f", third));
    TwistedText(third, Join(LabelItems(m, ["c", "e", "f"])));
  }

  lemma {:induction false} ThreeKeys(keys: set<string>)
    requires keys == {"c", "e", "f"}
    ensures LexIncreasing(["c", "e", "f"]) && Enumerates(["c", "e", "f"], keys)
  {
  }

  lemma {:induction false} TwistedReads(raw: string, base: LabelMap)
    requires IsTwisted(raw)
    ensures LabelsRead(raw, base) == base["c" := "v"]["e" := "z,f=y"]["c" := " v"]["e" := "\"z"]
  {
    FirstRound(raw);
    SecondRound(raw);
    ThirdRound(raw);
    FourthRound(raw);
    var one, two := LabelOp("c", Some("v")), LabelOp("e", Some("z,f=y"));
    var three, four := LabelOp("c", Some(" v")), LabelOp("e", Some("\"z"));
    FourOps(raw, one, two, three, four);
    ApplyFour(base, one, two, three, four);
  }

  /**
   On top of labels that are there already this is not so: here two bad values are read from the text of a third label,
   which is lost itself but was there before.
   */
  lemma {:induction false} BadLabelsOnTop(third: string, m: LabelMap)
    requires third == "y\"c=\" v\"e= \"z" && m == map["c" := " v", "e" := "\"z", "f" := third]
    ensures !GoodValue(m["c"]) && !GoodValue(m["e"])
    ensures LexIncreasing(["c", "e", "f"]) && Enumerates(["c", "e", "f"], m.Keys)
    ensures LabelsRead(Join(LabelItems(m, ["c", "e", "f"])), map["f" := third]) == m
  {
    ThreeKeys(m.Keys);
    TwistedItems(third, m);
    TwistedReads(Join(LabelItems(m, ["c", "e", "f"])), map["f" := third]);
  }
}
