/**
 * The two list-building loops the article code repeats: "append the item unless
 * what was kept so far rules it out" (the dedup and merge loops) and "append the
 * item if it passes a test" (the filters), stated as functions on sequences.
 */
module Selection {
  import opened Wrappers

  /**
   * The list a loop builds when it walks `s` in order and appends an item iff
   * `admits(kept, item)` holds for the items `kept` appended before it.
   */
  function KeepFirst<T(==)>(s: seq<T>, admits: (seq<T>, T) -> bool): (k: seq<T>)
    ensures |k| <= |s|
  {
    if s == [] then []
    else
      var k := KeepFirst(s[..|s| - 1], admits);
      if admits(k, s[|s| - 1]) then k + [s[|s| - 1]] else k
  }

  /** One step of the loop: the kept list of a longer prefix. */
  lemma KeepFirstStep<T>(s: seq<T>, i: int, admits: (seq<T>, T) -> bool)
    requires 0 <= i < |s|
    ensures KeepFirst(s[..i + 1], admits)
         == var k := KeepFirst(s[..i], admits); if admits(k, s[i]) then k + [s[i]] else k
  {
    assert s[..i + 1][..i] == s[..i];
  }

  /** `idx` picks the items of `t` out of `s` at strictly increasing positions. */
  predicate Embeds<T(==)>(t: seq<T>, s: seq<T>, idx: seq<int>) {
    |idx| == |t|
    && (forall i :: 0 <= i < |idx| ==> 0 <= idx[i] < |s| && t[i] == s[idx[i]])
    && (forall i, j :: 0 <= i < j < |idx| ==> idx[i] < idx[j])
  }

  /** `t` is `s` with some items left out, the rest in their original order. */
  ghost predicate IsSubsequence<T>(t: seq<T>, s: seq<T>) {
    exists idx :: Embeds(t, s, idx)
  }

  lemma {:induction false} KeepFirstEmbeds<T>(s: seq<T>, admits: (seq<T>, T) -> bool) returns (idx: seq<int>)
    ensures Embeds(KeepFirst(s, admits), s, idx)
    ensures forall i :: 0 <= i < |idx| ==> idx[i] < |s|
  {
    if s == [] {
      idx := [];
    } else {
      var front := s[..|s| - 1];
      var idx0 := KeepFirstEmbeds(front, admits);
      var k := KeepFirst(front, admits);
      if admits(k, s[|s| - 1]) {
        idx := idx0 + [|s| - 1];
        assert forall i :: 0 <= i < |idx0| ==> k[i] == front[idx0[i]] == s[idx0[i]];
      } else {
        idx := idx0;
        assert forall i :: 0 <= i < |idx0| ==> k[i] == front[idx0[i]] == s[idx0[i]];
      }
    }
  }

  /** What the keep-first loop returns is a subsequence of its input. */
  lemma KeepFirstIsSubsequence<T>(s: seq<T>, admits: (seq<T>, T) -> bool)
    ensures IsSubsequence(KeepFirst(s, admits), s)
  {
    var idx := KeepFirstEmbeds(s, admits);
  }

  /** Each item of `k` is admitted by the items before it. */
  predicate AllAdmitted<T>(k: seq<T>, admits: (seq<T>, T) -> bool) {
    forall i :: 0 <= i < |k| ==> admits(k[..i], k[i])
  }

  /** Every kept item was admitted by the items kept before it. */
  lemma {:induction false} KeepFirstAdmitted<T>(s: seq<T>, admits: (seq<T>, T) -> bool)
    ensures AllAdmitted(KeepFirst(s, admits), admits)
  {
    if s != [] {
      var front := s[..|s| - 1];
      KeepFirstAdmitted(front, admits);
      var k0 := KeepFirst(front, admits);
      if admits(k0, s[|s| - 1]) {
        var k := k0 + [s[|s| - 1]];
        assert KeepFirst(s, admits) == k;
        forall i | 0 <= i < |k|
          ensures admits(k[..i], k[i])
        {
          if i < |k0| {
            assert admits(k0[..i], k0[i]);
            assert k[..i] == k0[..i] && k[i] == k0[i];
          } else {
            assert k[..i] == k0;
          }
        }
      }
    }
  }

  /** A list each of whose items is admitted by the items before it is kept whole. */
  lemma {:induction false} KeepFirstFixpoint<T>(s: seq<T>, admits: (seq<T>, T) -> bool)
    requires AllAdmitted(s, admits)
    ensures KeepFirst(s, admits) == s
  {
    if s != [] {
      var front := s[..|s| - 1];
      assert forall i :: 0 <= i < |front| ==> front[..i] == s[..i] && front[i] == s[i];
      KeepFirstFixpoint(front, admits);
      assert admits(s[..|s| - 1], s[|s| - 1]);
      assert front + [s[|s| - 1]] == s;
    }
  }

  lemma SubsequenceMembers<T>(t: seq<T>, s: seq<T>)
    requires IsSubsequence(t, s)
    ensures forall x :: x in t ==> x in s
  {
    var idx :| Embeds(t, s, idx);
    forall x | x in t
      ensures x in s
    {
      var i :| 0 <= i < |t| && t[i] == x;
      assert s[idx[i]] == x;
    }
  }

  /** Positions in a subsequence keep their relative order in the original. */
  lemma SubsequencePairs<T>(t: seq<T>, s: seq<T>, P: (T, T) -> bool)
    requires IsSubsequence(t, s)
    requires forall i, j :: 0 <= i < j < |s| ==> P(s[i], s[j])
    ensures forall i, j :: 0 <= i < j < |t| ==> P(t[i], t[j])
  {
    var idx :| Embeds(t, s, idx);
    forall i, j | 0 <= i < j < |t|
      ensures P(t[i], t[j])
    {
      assert t[i] == s[idx[i]] && t[j] == s[idx[j]];
    }
  }

  lemma {:induction false} SubsequenceMultiset<T>(t: seq<T>, s: seq<T>)
    requires IsSubsequence(t, s)
    ensures multiset(t) <= multiset(s)
    decreases |s|
  {
    var idx :| Embeds(t, s, idx);
    if t != [] {
      var last := idx[|idx| - 1];
      var t0, s0 := t[..|t| - 1], s[..last];
      assert Embeds(t0, s0, idx[..|idx| - 1]);
      SubsequenceMultiset(t0, s0);
      assert t == t0 + [t[|t| - 1]];
      assert s[..last + 1] == s0 + [s[last]];
      assert s == s[..last + 1] + s[last + 1..];
      assert multiset(s) == multiset(s0) + multiset{s[last]} + multiset(s[last + 1..]);
    }
  }

  // ---------------------------------------------------------------- filtering

  /** `[x for x in s if p(x)]`. */
  function Filter<T>(s: seq<T>, p: T -> bool): (r: seq<T>)
    ensures |r| <= |s|
    ensures forall i :: 0 <= i < |r| ==> p(r[i])
  {
    if s == [] then []
    else Filter(s[..|s| - 1], p) + (if p(s[|s| - 1]) then [s[|s| - 1]] else [])
  }

  /** One step of a filtering loop. */
  lemma FilterStep<T>(s: seq<T>, i: int, p: T -> bool)
    requires 0 <= i < |s|
    ensures Filter(s[..i + 1], p) == Filter(s[..i], p) + (if p(s[i]) then [s[i]] else [])
  {
    assert s[..i + 1][..i] == s[..i];
  }

  lemma {:induction false} FilterEmbeds<T>(s: seq<T>, p: T -> bool) returns (idx: seq<int>)
    ensures Embeds(Filter(s, p), s, idx)
  {
    if s == [] {
      idx := [];
    } else {
      var front := s[..|s| - 1];
      var idx0 := FilterEmbeds(front, p);
      var k := Filter(front, p);
      assert forall i :: 0 <= i < |idx0| ==> k[i] == front[idx0[i]] == s[idx0[i]];
      if p(s[|s| - 1]) {
        idx := idx0 + [|s| - 1];
      } else {
        idx := idx0;
      }
    }
  }

  /** A filter keeps a subsequence of its input. */
  lemma FilterIsSubsequence<T>(s: seq<T>, p: T -> bool)
    ensures IsSubsequence(Filter(s, p), s)
  {
    var idx := FilterEmbeds(s, p);
  }

  lemma {:induction false} FilterAll<T>(s: seq<T>, p: T -> bool)
    requires forall i :: 0 <= i < |s| ==> p(s[i])
    ensures Filter(s, p) == s
  {
    if s != [] {
      FilterAll(s[..|s| - 1], p);
      assert s[..|s| - 1] + [s[|s| - 1]] == s;
    }
  }

  lemma {:induction false} FilterAppend<T>(a: seq<T>, b: seq<T>, p: T -> bool)
    ensures Filter(a + b, p) == Filter(a, p) + Filter(b, p)
    decreases |b|
  {
    if b == [] {
      assert a + b == a;
    } else {
      var b0 := b[..|b| - 1];
      assert (a + b)[..|a + b| - 1] == a + b0;
      FilterAppend(a, b0, p);
    }
  }

  /** A filter keeps something iff some item passes. */
  lemma {:induction false} FilterNonEmpty<T>(s: seq<T>, p: T -> bool)
    ensures Filter(s, p) != [] <==> exists i :: 0 <= i < |s| && p(s[i])
  {
    if s != [] {
      var init := s[..|s| - 1];
      FilterNonEmpty(init, p);
      if exists i :: 0 <= i < |init| && p(init[i]) {
        var i :| 0 <= i < |init| && p(init[i]);
        assert s[i] == init[i];
      }
      if exists i :: 0 <= i < |s| && p(s[i]) {
        var i :| 0 <= i < |s| && p(s[i]);
        if i < |init| {
          assert init[i] == s[i];
        }
      }
    }
  }

  /** A filter keeps two or more items iff two different positions pass. */
  lemma {:induction false} FilterTwo<T>(s: seq<T>, p: T -> bool)
    ensures |Filter(s, p)| >= 2 <==> exists i, j :: 0 <= i < j < |s| && p(s[i]) && p(s[j])
  {
    if s != [] {
      var init, last := s[..|s| - 1], s[|s| - 1];
      FilterTwo(init, p);
      FilterNonEmpty(init, p);
      if exists i, j :: 0 <= i < j < |s| && p(s[i]) && p(s[j]) {
        var i, j :| 0 <= i < j < |s| && p(s[i]) && p(s[j]);
        assert init[i] == s[i];
        if j < |init| {
          assert init[j] == s[j];
        }
      }
      if |Filter(s, p)| >= 2 {
        if p(last) && Filter(init, p) != [] {
          var i :| 0 <= i < |init| && p(init[i]);
          assert s[i] == init[i];
          assert p(s[|s| - 1]);
        } else {
          var i, j :| 0 <= i < j < |init| && p(init[i]) && p(init[j]);
          assert s[i] == init[i] && s[j] == init[j];
        }
      }
    }
  }

  /** How often a filter keeps a value: as often as the input has it, if it passes. */
  lemma {:induction false} FilterCount<T>(s: seq<T>, p: T -> bool, x: T)
    ensures multiset(Filter(s, p))[x] == if p(x) then multiset(s)[x] else 0
  {
    if s != [] {
      var front := s[..|s| - 1];
      FilterCount(front, p, x);
      assert s == front + [s[|s| - 1]];
    }
  }

  /** Filtering two permutations of each other gives permutations of each other. */
  lemma FilterPermutation<T(!new)>(a: seq<T>, b: seq<T>, p: T -> bool)
    requires multiset(a) == multiset(b)
    ensures multiset(Filter(a, p)) == multiset(Filter(b, p))
  {
    forall x
      ensures multiset(Filter(a, p))[x] == multiset(Filter(b, p))[x]
    {
      FilterCount(a, p, x);
      FilterCount(b, p, x);
    }
  }

  lemma {:induction false} FilterNone<T>(s: seq<T>, p: T -> bool)
    requires forall i :: 0 <= i < |s| ==> !p(s[i])
    ensures Filter(s, p) == []
  {
    if s != [] {
      FilterNone(s[..|s| - 1], p);
    }
  }

  // ---------------------------------------------------------------- filter and map

  /** A loop that appends `f(x)`'s value for each `x` whose `f(x)` is not `None`. */
  function Choose<T, U>(s: seq<T>, f: T -> Option<U>): (r: seq<U>)
    ensures |r| <= |s|
  {
    if s == [] then []
    else Choose(s[..|s| - 1], f) + (if f(s[|s| - 1]).Some? then [f(s[|s| - 1]).value] else [])
  }

  /** The items `Choose` takes a value from. */
  function Chosen<T, U>(f: T -> Option<U>): T -> bool {
    (x: T) => f(x).Some?
  }

  lemma ChooseStep<T, U>(s: seq<T>, i: int, f: T -> Option<U>)
    requires 0 <= i < |s|
    ensures Choose(s[..i + 1], f) == Choose(s[..i], f) + (if f(s[i]).Some? then [f(s[i]).value] else [])
  {
    assert s[..i + 1][..i] == s[..i];
  }

  /** `Choose` is mapping `f` over the items `Filter` keeps. */
  lemma {:induction false} ChooseMeans<T, U>(s: seq<T>, f: T -> Option<U>)
    ensures |Choose(s, f)| == |Filter(s, Chosen(f))|
    ensures forall i :: 0 <= i < |Choose(s, f)| ==> f(Filter(s, Chosen(f))[i]) == Some(Choose(s, f)[i])
  {
    if s != [] {
      var init, last := s[..|s| - 1], s[|s| - 1];
      ChooseMeans(init, f);
      var r, g := Choose(s, f), Filter(s, Chosen(f));
      var c, h := Choose(init, f), Filter(init, Chosen(f));
      assert g == h + (if Chosen(f)(last) then [last] else []);
      forall i | 0 <= i < |r|
        ensures f(g[i]) == Some(r[i])
      {
        if i < |c| {
          assert r[i] == c[i] && g[i] == h[i];
        } else {
          assert g[i] == last;
        }
      }
    }
  }

  /** No value occurs twice (built from the back, the way append-if-new loops build lists). */
  predicate NoRepeats<T(==)>(s: seq<T>) {
    s == [] || (NoRepeats(s[..|s| - 1]) && s[|s| - 1] !in s[..|s| - 1])
  }

  lemma {:induction false} NoRepeatsAt<T>(s: seq<T>, k: int)
    requires NoRepeats(s) && 0 <= k < |s|
    ensures s[k] !in s[..k]
  {
    if k < |s| - 1 {
      var front := s[..|s| - 1];
      NoRepeatsAt(front, k);
      assert front[..k] == s[..k];
    }
  }

  // ---------------------------------------------------------------- blocks

  /** The blocks of the keys, concatenated in key order. */
  function Concat<K, T>(keys: seq<K>, block: K -> seq<T>): seq<T> {
    if keys == [] then [] else Concat(keys[..|keys| - 1], block) + block(keys[|keys| - 1])
  }

  lemma {:induction false} ConcatSameBlocks<K, T>(keys: seq<K>, b1: K -> seq<T>, b2: K -> seq<T>)
    requires forall j :: 0 <= j < |keys| ==> b1(keys[j]) == b2(keys[j])
    ensures Concat(keys, b1) == Concat(keys, b2)
  {
    if keys != [] {
      ConcatSameBlocks(keys[..|keys| - 1], b1, b2);
    }
  }

  /** Blocks whose items all pass a test concatenate to a list whose items all pass it. */
  lemma {:induction false} ConcatAll<K, T>(keys: seq<K>, block: K -> seq<T>, p: T -> bool)
    requires forall j, i :: 0 <= j < |keys| && 0 <= i < |block(keys[j])| ==> p(block(keys[j])[i])
    ensures forall i :: 0 <= i < |Concat(keys, block)| ==> p(Concat(keys, block)[i])
  {
    if keys != [] {
      var front, last := keys[..|keys| - 1], keys[|keys| - 1];
      ConcatAll(front, block, p);
      var c0, b := Concat(front, block), block(last);
      assert forall i :: 0 <= i < |b| ==> p(b[i]);
      assert forall i :: 0 <= i < |c0 + b| ==> (c0 + b)[i] == if i < |c0| then c0[i] else b[i - |c0|];
    }
  }

  /**
   * When each item of a key's block carries that key's tag, and an item tagged
   * with a key has that key as its label (so no item carries two tags),
   * filtering the concatenation by one key's tag gives back its block.
   */
  lemma TaggedLabel<K, T>(tagged: K -> (T -> bool), labelOf: T -> K, a: K, y: T)
    requires forall a, x :: tagged(a)(x) ==> labelOf(x) == a
    ensures tagged(a)(y) ==> labelOf(y) == a
  {
  }

  lemma {:induction false} FilterConcat<K, T>(keys: seq<K>, block: K -> seq<T>, tagged: K -> (T -> bool), labelOf: T -> K, k: K)
    requires NoRepeats(keys)
    requires forall j, i :: 0 <= j < |keys| && 0 <= i < |block(keys[j])| ==> tagged(keys[j])(block(keys[j])[i])
    requires forall a, x :: tagged(a)(x) ==> labelOf(x) == a
    ensures Filter(Concat(keys, block), tagged(k)) == if k in keys then block(k) else []
  {
    if keys != [] {
      var front, last := keys[..|keys| - 1], keys[|keys| - 1];
      assert forall j :: 0 <= j < |front| ==> front[j] == keys[j];
      FilterConcat(front, block, tagged, labelOf, k);
      FilterAppend(Concat(front, block), block(last), tagged(k));
      assert forall i :: 0 <= i < |block(last)| ==> tagged(last)(block(last)[i]);
      FilterBlock(block(last), tagged, labelOf, last, k);
      assert k in keys <==> k in front || k == last;
    }
  }

  /** One key's block, filtered by a key's tag: all of it for its own key, nothing for another. */
  lemma FilterBlock<K, T>(b: seq<T>, tagged: K -> (T -> bool), labelOf: T -> K, last: K, k: K)
    requires forall i :: 0 <= i < |b| ==> tagged(last)(b[i])
    requires forall a, x :: tagged(a)(x) ==> labelOf(x) == a
    ensures Filter(b, tagged(k)) == if last == k then b else []
  {
    if last == k {
      FilterAll(b, tagged(k));
    } else {
      forall i | 0 <= i < |b|
        ensures !tagged(k)(b[i])
      {
        TaggedLabel(tagged, labelOf, last, b[i]);
        TaggedLabel(tagged, labelOf, k, b[i]);
      }
      FilterNone(b, tagged(k));
    }
  }
}
