/**
 Orders on strings and what std::sort and a key-ordered std::map promise.
 A call of std::sort is modelled by its promise: some sorted rearrangement of its input.
 */
module Ordering {

  /** operator< on std::string. */
  predicate LexLess(a: string, b: string) {
    if b == "" then false
    else if a == "" then true
    else a[0] < b[0] || (a[0] == b[0] && LexLess(a[1..], b[1..]))
  }

  lemma {:induction false} LexIrreflexive(a: string)
    ensures !LexLess(a, a)
  {
    if a != "" {
      LexIrreflexive(a[1..]);
    }
  }

  lemma {:induction false} LexTransitive(a: string, b: string, c: string)
    requires LexLess(a, b) && LexLess(b, c)
    ensures LexLess(a, c)
  {
    if a != "" && a[0] == b[0] == c[0] {
      LexTransitive(a[1..], b[1..], c[1..]);
    }
  }

  lemma {:induction false} LexTotal(a: string, b: string)
    ensures a == b || LexLess(a, b) || LexLess(b, a)
  {
    if a != "" && b != "" && a[0] == b[0] {
      LexTotal(a[1..], b[1..]);
      assert a == [a[0]] + a[1..] && b == [b[0]] + b[1..];
    }
  }

  /** The first difference decides, and a string comes after its prefixes. */
  lemma {:induction false} FirstDifferenceDecides(a: string, b: string, n: nat)
    requires n <= |a| && n <= |b| && a[..n] == b[..n]
    ensures n == |a| < |b| ==> LexLess(a, b)
    ensures n == |b| ==> !LexLess(a, b)
    ensures n < |a| && n < |b| && a[n] != b[n] ==> (LexLess(a, b) <==> a[n] < b[n])
  {
    if n > 0 {
      assert a[0] == a[..n][0] && b[0] == b[..n][0];
      assert a[1..][..n - 1] == a[..n][1..] && b[1..][..n - 1] == b[..n][1..];
      FirstDifferenceDecides(a[1..], b[1..], n - 1);
    }
  }

  ghost predicate StrictWeakOrder<T(!new)>(less: (T, T) -> bool) {
    && (forall x :: !less(x, x))
    && (forall x, y, z :: less(x, y) && less(y, z) ==> less(x, z))
    && (forall x, y, z :: !less(x, y) && !less(y, z) ==> !less(x, z))
  }

  predicate NoDuplicates<T(==)>(s: seq<T>) {
    forall i, j :: 0 <= i < j < |s| ==> s[i] != s[j]
  }

  ghost predicate Sorted<T>(s: seq<T>, less: (T, T) -> bool) {
    forall i, j :: 0 <= i < j < |s| ==> !less(s[j], s[i])
  }

  ghost predicate StrictlySorted<T>(s: seq<T>, less: (T, T) -> bool) {
    forall i, j :: 0 <= i < j < |s| ==> less(s[i], s[j]) && !less(s[j], s[i])
  }

  /** The promise of std::sort(first, last, less). */
  ghost predicate IsSortOf<T>(out: seq<T>, s: seq<T>, less: (T, T) -> bool) {
    multiset(out) == multiset(s) && Sorted(out, less)
  }

  /** Position at which `x` goes into a sorted sequence, after the elements that do not exceed it. */
  function Insert<T>(x: T, s: seq<T>, less: (T, T) -> bool): (r: seq<T>)
    ensures multiset(r) == multiset(s) + multiset{x}
  {
    if s == [] then [x]
    else if less(x, s[0]) then
      [x] + s
    else
      assert s == [s[0]] + s[1..];
      [s[0]] + Insert(x, s[1..], less)
  }

  /** One way to keep the promise of std::sort. */
  function Sort<T>(s: seq<T>, less: (T, T) -> bool): (r: seq<T>)
    ensures multiset(r) == multiset(s)
  {
    if s == [] then []
    else
      assert s == [s[0]] + s[1..];
      Insert(s[0], Sort(s[1..], less), less)
  }

  lemma {:induction false} InsertSorted<T(!new)>(x: T, s: seq<T>, less: (T, T) -> bool)
    requires StrictWeakOrder(less) && Sorted(s, less)
    ensures Sorted(Insert(x, s, less), less)
  {
    if s != [] {
      var r := Insert(x, s, less);
      if less(x, s[0]) {
        forall i, j | 0 <= i < j < |r| ensures !less(r[j], r[i]) {
          if i == 0 && j > 1 {
            assert !less(s[j - 1], s[0]);
          }
        }
      } else {
        var t := s[1..];
        InsertSorted(x, t, less);
        forall i, j | 0 <= i < j < |r| ensures !less(r[j], r[i]) {
          if i == 0 {
            assert r[j] in multiset(Insert(x, t, less));
            if r[j] != x {
              assert r[j] in multiset(t) && r[j] in t;
            }
          }
        }
      }
    }
  }

  lemma {:induction false} SortKeepsPromise<T(!new)>(s: seq<T>, less: (T, T) -> bool)
    requires StrictWeakOrder(less)
    ensures IsSortOf(Sort(s, less), s, less)
  {
    if s != [] {
      SortKeepsPromise(s[1..], less);
      InsertSorted(s[0], Sort(s[1..], less), less);
    }
  }

  lemma {:induction false} SortHead<T>(expected: seq<T>, out: seq<T>, less: (T, T) -> bool)
    requires expected != [] && StrictlySorted(expected, less)
    requires Sorted(out, less)
    requires multiset(out) == multiset(expected)
    ensures out != [] && out[0] == expected[0]
  {
    assert expected[0] in multiset(out);
    var i :| 0 <= i < |out| && out[i] == expected[0];
    assert out[0] in multiset(expected);
    var j :| 0 <= j < |expected| && expected[j] == out[0];
  }

  lemma {:induction false} WithoutHead<T>(s: seq<T>)
    requires s != []
    ensures multiset(s[1..]) == multiset(s) - multiset{s[0]}
  {
    assert s == [s[0]] + s[1..];
  }

  /** When no two elements are equivalent, every sort gives the same sequence. */
  lemma {:induction false} SortUnique<T>(expected: seq<T>, out: seq<T>, less: (T, T) -> bool)
    requires StrictlySorted(expected, less)
    requires Sorted(out, less)
    requires multiset(out) == multiset(expected)
    ensures out == expected
  {
    if expected == [] {
      assert |multiset(out)| == 0;
    } else {
      SortHead(expected, out, less);
      WithoutHead(expected);
      WithoutHead(out);
      SortUnique(expected[1..], out[1..], less);
      assert expected == [expected[0]] + expected[1..] && out == [out[0]] + out[1..];
    }
  }

  lemma {:induction false} CountWithoutDuplicates<T>(s: seq<T>, x: T)
    requires NoDuplicates(s)
    ensures multiset(s)[x] == if x in s then 1 else 0
  {
    if s != [] {
      assert s == [s[0]] + s[1..];
      CountWithoutDuplicates(s[1..], x);
    }
  }

  /** Rearranging a sequence without duplicates gives one without duplicates. */
  lemma {:induction false} RearrangedHasNoDuplicates<T>(a: seq<T>, b: seq<T>)
    requires NoDuplicates(a) && multiset(b) == multiset(a)
    ensures NoDuplicates(b) && |a| == |b|
  {
    assert |multiset(a)| == |a| && |multiset(b)| == |b|;
    forall i, j | 0 <= i < j < |b| ensures b[i] != b[j] {
      CountWithoutDuplicates(a, b[i]);
      TwiceCounted(b, i, j);
    }
  }

  lemma {:induction false} TwiceCounted<T>(s: seq<T>, i: nat, j: nat)
    requires i < j < |s|
    ensures s[i] == s[j] ==> multiset(s)[s[i]] >= 2
  {
    assert s == s[..i] + [s[i]] + s[i + 1..j] + [s[j]] + s[j + 1..];
  }

  lemma {:induction false} SameElementsSameMultiset<T>(a: seq<T>, b: seq<T>)
    requires NoDuplicates(a) && NoDuplicates(b)
    requires forall x :: x in a <==> x in b
    ensures multiset(a) == multiset(b)
  {
    forall x ensures multiset(a)[x] == multiset(b)[x] {
      CountWithoutDuplicates(a, x);
      CountWithoutDuplicates(b, x);
    }
  }

  /** `keys` lists a set in some order, as an unordered_map iterator does. */
  ghost predicate Enumerates<T>(keys: seq<T>, elements: set<T>) {
    NoDuplicates(keys) && (forall k <- keys :: k in elements) && (forall k <- elements :: k in keys)
  }

  // ---- Collecting over a list ----

  /** What a loop over the first n items collects when each item contributes f(item). */
  function Collect<A, B>(f: A -> seq<B>, items: seq<A>, n: nat): seq<B>
    requires n <= |items|
  {
    if n == 0 then [] else Collect(f, items, n - 1) + f(items[n - 1])
  }

  lemma {:induction false} CollectMembers<A, B>(f: A -> seq<B>, items: seq<A>, n: nat, x: B)
    requires n <= |items|
    ensures x in Collect(f, items, n) <==> exists i :: 0 <= i < n && x in f(items[i])
  {
    if n > 0 {
      CollectMembers(f, items, n - 1, x);
    }
  }

  /** Contributions without duplicates that do not overlap make a collection without duplicates. */
  lemma {:induction false} CollectDistinct<A, B>(f: A -> seq<B>, items: seq<A>, n: nat)
    requires n <= |items| && NoDuplicates(items)
    requires forall i :: 0 <= i < |items| ==> |f(items[i])| <= 1
    requires forall i, j, x :: 0 <= i < |items| && 0 <= j < |items| && x in f(items[i]) && x in f(items[j])
               ==> items[i] == items[j]
    ensures NoDuplicates(Collect(f, items, n))
  {
    if n > 0 {
      CollectDistinct(f, items, n - 1);
      var before, here := Collect(f, items, n - 1), f(items[n - 1]);
      forall p | 0 <= p < |before| && here != [] ensures before[p] != here[0] {
        CollectMembers(f, items, n - 1, before[p]);
        var i :| 0 <= i < n - 1 && before[p] in f(items[i]);
        assert here[0] in f(items[n - 1]);
      }
    }
  }
}
