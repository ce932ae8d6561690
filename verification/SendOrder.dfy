/** SortRecords: the order in which the records of a batch are sent. */
module SendOrder {
  import opened Ordering
  import opened Batches

  datatype SortKey = SortKey(entry: string, timestamp: Time)

  /** The comparator of SortRecords on the two fields that it looks at. */
  predicate KeyLess(byEntry: bool, left: SortKey, right: SortKey) {
    if byEntry && left.entry != right.entry then LexLess(left.entry, right.entry)
    else if left.timestamp == right.timestamp then LexLess(left.entry, right.entry)
    else left.timestamp < right.timestamp
  }

  function KeyAt(records: seq<BatchRecord>, defaultEntry: string, i: nat): SortKey {
    if i < |records| then SortKey(RecordEntry(records[i], defaultEntry), records[i].timestamp) else SortKey("", 0)
  }

  function IndexLess(records: seq<BatchRecord>, defaultEntry: string, byEntry: bool): (nat, nat) -> bool {
    (i: nat, j: nat) => KeyLess(byEntry, KeyAt(records, defaultEntry, i), KeyAt(records, defaultEntry, j))
  }

  /** Whatever std::sort may return for SortRecords. */
  ghost predicate IsSendOrder(records: seq<BatchRecord>, defaultEntry: string, byEntry: bool, order: seq<nat>) {
    IsSortOf(order, Indices(|records|), IndexLess(records, defaultEntry, byEntry))
  }

  method SortRecords(records: seq<BatchRecord>, defaultEntry: string, byEntry: bool) returns (order: seq<nat>)
    ensures IsSendOrder(records, defaultEntry, byEntry, order)
  {
    order := [];
    for i := 0 to |records|
      invariant order == Indices(i)
    {
      order := order + [i];
    }
    IndexLessIsOrder(records, defaultEntry, byEntry);
    SortKeepsPromise(order, IndexLess(records, defaultEntry, byEntry));
    order := Sort(order, IndexLess(records, defaultEntry, byEntry));
  }

  // ---- Both comparator modes are strict weak orders ----

  lemma {:induction false} KeyLessIrreflexive(byEntry: bool, a: SortKey)
    ensures !KeyLess(byEntry, a, a)
  {
    LexIrreflexive(a.entry);
  }

  lemma {:induction false} KeyLessTransitive(byEntry: bool, a: SortKey, b: SortKey, c: SortKey)
    requires KeyLess(byEntry, a, b) && KeyLess(byEntry, b, c)
    ensures KeyLess(byEntry, a, c)
  {
    LexIrreflexive(a.entry);
    LexIrreflexive(b.entry);
    if LexLess(a.entry, b.entry) && LexLess(b.entry, c.entry) {
      LexTransitive(a.entry, b.entry, c.entry);
      LexIrreflexive(c.entry);
    }
    if LexLess(a.entry, b.entry) && LexLess(b.entry, a.entry) {
      LexTransitive(a.entry, b.entry, a.entry);
    }
  }

  lemma {:induction false} KeyLessTotal(byEntry: bool, a: SortKey, b: SortKey)
    ensures a == b || KeyLess(byEntry, a, b) || KeyLess(byEntry, b, a)
  {
    LexTotal(a.entry, b.entry);
  }

  lemma {:induction false} KeyLessIsOrder(byEntry: bool)
    ensures StrictWeakOrder((a: SortKey, b: SortKey) => KeyLess(byEntry, a, b))
  {
    forall a: SortKey ensures !KeyLess(byEntry, a, a) {
      KeyLessIrreflexive(byEntry, a);
    }
    forall a: SortKey, b: SortKey, c: SortKey | KeyLess(byEntry, a, b) && KeyLess(byEntry, b, c)
      ensures KeyLess(byEntry, a, c)
    {
      KeyLessTransitive(byEntry, a, b, c);
    }
    forall a: SortKey, b: SortKey, c: SortKey | !KeyLess(byEntry, a, b) && !KeyLess(byEntry, b, c)
      ensures !KeyLess(byEntry, a, c)
    {
      KeyLessTotal(byEntry, a, b);
      KeyLessTotal(byEntry, b, c);
      if KeyLess(byEntry, a, c) {
        if a != b {
          KeyLessTransitive(byEntry, b, a, c);
        }
      }
    }
  }

  lemma {:induction false} IndexLessIsOrder(records: seq<BatchRecord>, defaultEntry: string, byEntry: bool)
    ensures StrictWeakOrder(IndexLess(records, defaultEntry, byEntry))
  {
    KeyLessIsOrder(byEntry);
    var keyLess := (a: SortKey, b: SortKey) => KeyLess(byEntry, a, b);
    var less := IndexLess(records, defaultEntry, byEntry);
    assert forall i: nat, j: nat ::
        less(i, j) == keyLess(KeyAt(records, defaultEntry, i), KeyAt(records, defaultEntry, j));
  }

  // ---- What a send order gives its users ----

  /** A send order is a permutation of the record indices. */
  lemma {:induction false} SendOrderIsPermutation(
    records: seq<BatchRecord>, defaultEntry: string, byEntry: bool, order: seq<nat>)
    requires IsSendOrder(records, defaultEntry, byEntry, order)
    ensures |order| == |records| && ValidOrder(records, order) && NoDuplicates(order)
    ensures forall i :: 0 <= i < |records| ==> i in order
  {
    var n := |records|;
    var all := Indices(n);
    RearrangedHasNoDuplicates(all, order);
    forall k | 0 <= k < |order| ensures order[k] < n {
      assert order[k] in multiset(order) && order[k] in all;
    }
    forall i | 0 <= i < n ensures i in order {
      assert all[i] == i && i in multiset(all) && i in multiset(order);
    }
  }

  /** In entry mode the records are grouped by entry, and by time within an entry. */
  lemma {:induction false} SendOrderGroups(
    records: seq<BatchRecord>, defaultEntry: string, order: seq<nat>, p: nat, q: nat)
    requires IsSendOrder(records, defaultEntry, true, order)
    requires p < q < |order|
    ensures var a := KeyAt(records, defaultEntry, order[p]);
            var b := KeyAt(records, defaultEntry, order[q]);
            if a.entry == b.entry then a.timestamp <= b.timestamp else LexLess(a.entry, b.entry)
  {
    var a := KeyAt(records, defaultEntry, order[p]);
    var b := KeyAt(records, defaultEntry, order[q]);
    assert !IndexLess(records, defaultEntry, true)(order[q], order[p]);
    KeyLessTotal(true, a, b);
  }

  /** In time mode the records go by time, and by entry at equal times. */
  lemma {:induction false} SendOrderByTime(
    records: seq<BatchRecord>, defaultEntry: string, order: seq<nat>, p: nat, q: nat)
    requires IsSendOrder(records, defaultEntry, false, order)
    requires p < q < |order|
    ensures var a := KeyAt(records, defaultEntry, order[p]);
            var b := KeyAt(records, defaultEntry, order[q]);
            a.timestamp < b.timestamp
            || (a.timestamp == b.timestamp && (a.entry == b.entry || LexLess(a.entry, b.entry)))
  {
    assert !IndexLess(records, defaultEntry, false)(order[q], order[p]);
    KeyLessTotal(false, KeyAt(records, defaultEntry, order[p]), KeyAt(records, defaultEntry, order[q]));
  }
}
