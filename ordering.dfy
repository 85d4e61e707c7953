/**
 * Python's `sorted(..., key=..., reverse=True)` on the sort keys the article
 * code builds: integers, strings, `None` and `datetime`s, alone or in a
 * `(preference, date)` tuple. The sort is stable, and it raises `TypeError`
 * when it has to compare values Python cannot order.
 */
module Ordering {
  import opened Selection
  import opened Records

  /** The date part of a sort key: `None`, a string, a naive or an aware `datetime`. */
  datatype DateKey = KNone | KText(text: string) | KNaive(wall: int) | KAware(utc: int)

  function KindRank(k: DateKey): int {
    match k
    case KNone => 0
    case KText(_) => 1
    case KNaive(_) => 2
    case KAware(_) => 3
  }

  /** Python can order two date keys with `<` only when they have the same kind. */
  predicate SameKind(a: DateKey, b: DateKey) {
    KindRank(a) == KindRank(b)
  }

  /** `a < b` on Python strings: lexicographic by code point. */
  predicate StrLess(a: string, b: string)
    decreases |a|
  {
    if a == [] then b != []
    else b != [] && (a[0] < b[0] || (a[0] == b[0] && StrLess(a[1..], b[1..])))
  }

  lemma {:induction false} StrLessIrreflexive(a: string)
    ensures !StrLess(a, a)
    decreases |a|
  {
    if a != [] {
      StrLessIrreflexive(a[1..]);
    }
  }

  lemma {:induction false} StrLessTransitive(a: string, b: string, c: string)
    requires StrLess(a, b) && StrLess(b, c)
    ensures StrLess(a, c)
    decreases |a|
  {
    if a != [] && a[0] == b[0] && b[0] == c[0] {
      StrLessTransitive(a[1..], b[1..], c[1..]);
    }
  }

  lemma {:induction false} StrLessTotal(a: string, b: string)
    ensures a == b || StrLess(a, b) || StrLess(b, a)
    decreases |a|
  {
    if a != [] && b != [] && a[0] == b[0] {
      StrLessTotal(a[1..], b[1..]);
      if a[1..] == b[1..] {
        assert a == [a[0]] + a[1..] && b == [b[0]] + b[1..];
      }
    }
  }

  /**
   * `a < b` on date keys of the same kind. Across kinds Python raises instead
   * (see `TupleSortRaises`, `BareSortRaises`); there a fixed kind order stands in.
   */
  predicate DateLess(a: DateKey, b: DateKey) {
    if KindRank(a) != KindRank(b) then KindRank(a) < KindRank(b)
    else match (a, b)
      case (KText(x), KText(y)) => StrLess(x, y)
      case (KNaive(x), KNaive(y)) => x < y
      case (KAware(x), KAware(y)) => x < y
      case _ => false
  }

  /** The sort key a date value gives; an absent key reads as the string `absent`. */
  function WhenKey(w: When, absent: string): DateKey {
    match w
    case Absent => KText(absent)
    case NoneValue => KNone
    case Text(t) => KText(t)
    case Time(Naive(x)) => KNaive(x)
    case Time(Aware(u)) => KAware(u)
  }

  /** A sort key `(pref, date)`; a sort on the date alone uses one fixed `pref`. */
  datatype SortKey = SortKey(pref: int, date: DateKey)

  /** Tuple `<`: by `pref`, then by `date`. */
  predicate KeyLess(a: SortKey, b: SortKey) {
    a.pref < b.pref || (a.pref == b.pref && DateLess(a.date, b.date))
  }

  lemma KeyLessIrreflexive(a: SortKey)
    ensures !KeyLess(a, a)
  {
    if a.date.KText? {
      StrLessIrreflexive(a.date.text);
    }
  }

  lemma KeyLessTransitive(a: SortKey, b: SortKey, c: SortKey)
    requires KeyLess(a, b) && KeyLess(b, c)
    ensures KeyLess(a, c)
  {
    if a.date.KText? && b.date.KText? && c.date.KText? {
      if StrLess(a.date.text, b.date.text) && StrLess(b.date.text, c.date.text) {
        StrLessTransitive(a.date.text, b.date.text, c.date.text);
      }
    }
  }

  /** Distinct keys are always ordered one way or the other. */
  lemma KeyLessTotal(a: SortKey, b: SortKey)
    ensures a == b || KeyLess(a, b) || KeyLess(b, a)
  {
    if a.date.KText? && b.date.KText? {
      StrLessTotal(a.date.text, b.date.text);
    }
  }

  lemma KeyNotLessTransitive(a: SortKey, b: SortKey, c: SortKey)
    requires !KeyLess(a, b) && !KeyLess(b, c)
    ensures !KeyLess(a, c)
  {
    KeyLessTotal(a, b);
    KeyLessTotal(b, c);
    KeyLessIrreflexive(a);
    if KeyLess(a, c) {
      if a != b {
        KeyLessTransitive(b, a, c);
      }
    }
  }

  // ---------------------------------------------------------------- the sort

  /** Place `x` before the first element whose key is not greater than its own. */
  function Insert<T>(x: T, r: seq<T>, key: T -> SortKey): seq<T> {
    if r == [] || !KeyLess(key(x), key(r[0])) then [x] + r
    else [r[0]] + Insert(x, r[1..], key)
  }

  lemma {:induction false} InsertPermutation<T>(x: T, r: seq<T>, key: T -> SortKey)
    ensures |Insert(x, r, key)| == |r| + 1
    ensures multiset(Insert(x, r, key)) == multiset(r) + multiset{x}
  {
    if r != [] && KeyLess(key(x), key(r[0])) {
      InsertPermutation(x, r[1..], key);
      assert r == [r[0]] + r[1..];
    }
  }

  /**
   * `sorted(s, key=key, reverse=True)`. Inserting each element, last to first,
   * ahead of the equal keys already placed keeps equal keys in input order.
   */
  function SortDesc<T>(s: seq<T>, key: T -> SortKey): seq<T> {
    if s == [] then [] else Insert(s[0], SortDesc(s[1..], key), key)
  }

  /** Sorting permutes its input. */
  lemma {:induction false} SortDescPermutation<T>(s: seq<T>, key: T -> SortKey)
    ensures |SortDesc(s, key)| == |s|
    ensures multiset(SortDesc(s, key)) == multiset(s)
  {
    if s != [] {
      SortDescPermutation(s[1..], key);
      InsertPermutation(s[0], SortDesc(s[1..], key), key);
      assert s == [s[0]] + s[1..];
    }
  }

  /** Newest (greatest key) first. */
  predicate SortedDesc<T>(s: seq<T>, key: T -> SortKey) {
    forall i, j :: 0 <= i < j < |s| ==> !KeyLess(key(s[i]), key(s[j]))
  }

  lemma {:induction false} InsertSorted<T>(x: T, r: seq<T>, key: T -> SortKey)
    requires SortedDesc(r, key)
    ensures SortedDesc(Insert(x, r, key), key)
  {
    var o := Insert(x, r, key);
    if r == [] || !KeyLess(key(x), key(r[0])) {
      forall i, j | 0 <= i < j < |o|
        ensures !KeyLess(key(o[i]), key(o[j]))
      {
        if i == 0 {
          if j > 1 {
            KeyNotLessTransitive(key(x), key(r[0]), key(r[j - 1]));
          }
        } else {
          assert o[i] == r[i - 1] && o[j] == r[j - 1];
        }
      }
    } else {
      var rest := Insert(x, r[1..], key);
      InsertSorted(x, r[1..], key);
      InsertPermutation(x, r[1..], key);
      assert o == [r[0]] + rest;
      forall i, j | 0 <= i < j < |o|
        ensures !KeyLess(key(o[i]), key(o[j]))
      {
        if i == 0 {
          var y := o[j];
          assert y in multiset(rest);
          if y == x {
            KeyLessIrreflexive(key(x));
            if KeyLess(key(r[0]), key(x)) {
              KeyLessTransitive(key(x), key(r[0]), key(x));
            }
          } else {
            assert y in multiset(r[1..]);
            var k :| 0 <= k < |r[1..]| && r[1..][k] == y;
            assert r[k + 1] == y;
          }
        } else {
          assert o[i] == rest[i - 1] && o[j] == rest[j - 1];
        }
      }
    }
  }

  /** The sort's output is ordered newest first. */
  lemma {:induction false} SortDescSorted<T>(s: seq<T>, key: T -> SortKey)
    ensures SortedDesc(SortDesc(s, key), key)
  {
    if s != [] {
      SortDescSorted(s[1..], key);
      InsertSorted(s[0], SortDesc(s[1..], key), key);
    }
  }

  /** The elements of `s` whose key is exactly `k`, in order. */
  function KeyClass<T>(s: seq<T>, key: T -> SortKey, k: SortKey): seq<T> {
    if s == [] then [] else (if key(s[0]) == k then [s[0]] else []) + KeyClass(s[1..], key, k)
  }

  lemma KeyClassCons<T>(x: T, r: seq<T>, key: T -> SortKey, k: SortKey)
    ensures KeyClass([x] + r, key, k) == (if key(x) == k then [x] else []) + KeyClass(r, key, k)
  {
    assert ([x] + r)[1..] == r;
  }

  lemma SwapDisjoint<T>(a: seq<T>, b: seq<T>, rest: seq<T>)
    requires a == [] || b == []
    ensures a + (b + rest) == b + (a + rest)
  {
    if a == [] {
      assert a + (b + rest) == b + rest;
      assert a + rest == rest;
    } else {
      assert b + rest == rest;
      assert b + (a + rest) == a + rest;
    }
  }

  lemma {:induction false} InsertClass<T>(x: T, r: seq<T>, key: T -> SortKey, k: SortKey)
    ensures KeyClass(Insert(x, r, key), key, k) == (if key(x) == k then [x] else []) + KeyClass(r, key, k)
  {
    if r == [] || !KeyLess(key(x), key(r[0])) {
      KeyClassCons(x, r, key, k);
    } else {
      var r0, r1 := r[0], r[1..];
      var ins := Insert(x, r1, key);
      assert Insert(x, r, key) == [r0] + ins;
      var cx: seq<T> := if key(x) == k then [x] else [];
      var c0: seq<T> := if key(r0) == k then [r0] else [];
      var rest := KeyClass(r1, key, k);
      InsertClass(x, r1, key, k);
      assert KeyClass(ins, key, k) == cx + rest;
      KeyClassCons(r0, ins, key, k);
      assert KeyClass(Insert(x, r, key), key, k) == c0 + (cx + rest);
      assert r == [r0] + r1;
      KeyClassCons(r0, r1, key, k);
      assert KeyClass(r, key, k) == c0 + rest;
      KeyLessIrreflexive(key(x));
      SwapDisjoint(c0, cx, rest);
    }
  }

  /** Stability: the elements sharing any one key keep their input order. */
  lemma {:induction false} SortDescStable<T>(s: seq<T>, key: T -> SortKey, k: SortKey)
    ensures KeyClass(SortDesc(s, key), key, k) == KeyClass(s, key, k)
  {
    if s != [] {
      SortDescStable(s[1..], key, k);
      InsertClass(s[0], SortDesc(s[1..], key), key, k);
      KeyClassCons(s[0], s[1..], key, k);
      assert s == [s[0]] + s[1..];
    }
  }

  /** Sorting an already sorted list changes nothing. */
  lemma {:induction false} SortDescOfSorted<T>(s: seq<T>, key: T -> SortKey)
    requires SortedDesc(s, key)
    ensures SortDesc(s, key) == s
  {
    if s != [] {
      assert SortedDesc(s[1..], key) by {
        forall i, j | 0 <= i < j < |s[1..]|
          ensures !KeyLess(key(s[1..][i]), key(s[1..][j]))
        {
          assert s[1..][i] == s[i + 1] && s[1..][j] == s[j + 1];
        }
      }
      SortDescOfSorted(s[1..], key);
      assert s == [s[0]] + s[1..];
    }
  }

  /** A subsequence of a sorted list is sorted. */
  lemma SubsequenceSorted<T>(t: seq<T>, s: seq<T>, key: T -> SortKey)
    requires IsSubsequence(t, s) && SortedDesc(s, key)
    ensures SortedDesc(t, key)
  {
    SubsequencePairs(t, s, (x, y) => !KeyLess(key(x), key(y)));
  }

  // ---------------------------------------------------------------- when the sort raises

  /**
   * Sorting by `(pref, date)` tuples raises `TypeError` iff two elements tie on
   * `pref` while their dates have different kinds. Tuples compare their first
   * unequal component, so only such a tie reaches an unorderable `<`; and a
   * comparison sort must compare every pair it leaves adjacent, which such a
   * tie produces somewhere in the block of equal `pref`s.
   */
  predicate TupleSortRaises<T>(s: seq<T>, key: T -> SortKey) {
    exists i, j :: 0 <= i < |s| && 0 <= j < |s| && key(s[i]).pref == key(s[j]).pref
      && !SameKind(key(s[i]).date, key(s[j]).date)
  }

  /**
   * Sorting by bare date keys raises `TypeError` iff there are two or more
   * elements and either two keys have different kinds or some key is `None`
   * (`None < None` raises too). A single element is never compared.
   */
  predicate BareSortRaises<T>(s: seq<T>, key: T -> SortKey) {
    |s| >= 2 && !(!key(s[0]).date.KNone? && forall i :: 0 <= i < |s| ==> SameKind(key(s[i]).date, key(s[0]).date))
  }

  /** Fewer elements cannot make a tuple sort raise that did not raise before. */
  lemma TupleSortRaisesSub<T>(t: seq<T>, s: seq<T>, key: T -> SortKey)
    requires multiset(t) <= multiset(s)
    requires !TupleSortRaises(s, key)
    ensures !TupleSortRaises(t, key)
  {
    forall i, j | 0 <= i < |t| && 0 <= j < |t| && key(t[i]).pref == key(t[j]).pref
      ensures SameKind(key(t[i]).date, key(t[j]).date)
    {
      assert t[i] in multiset(t) && t[j] in multiset(t);
      var i' :| 0 <= i' < |s| && s[i'] == t[i];
      var j' :| 0 <= j' < |s| && s[j'] == t[j];
    }
  }
}
