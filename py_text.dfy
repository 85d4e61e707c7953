/**
 * The handful of Python `str` operations the article code relies on:
 * `lower()`, `strip()`, `split()`, `" ".join(...)`, `re.sub(r'\s+', ' ', ...)`,
 * the substring test `p in s` and the slice `s[:n]`.
 */
module PyText {
  import opened Wrappers

  /** `c.isspace()` in Python: the characters `\s`, `strip()` and `split()` treat as whitespace. */
  predicate IsSpace(c: char) {
    ('\t' <= c <= '\r') || ('\U{1C}' <= c <= '\U{1F}') || c == ' ' || c == '\U{85}' || c == '\U{A0}'
    || c == '\U{1680}' || ('\U{2000}' <= c <= '\U{200A}') || c == '\U{2028}' || c == '\U{2029}'
    || c == '\U{202F}' || c == '\U{205F}' || c == '\U{3000}'
  }

  /** Lower-casing of one character; only the ASCII letters are mapped. */
  function LowerChar(c: char): char {
    if 'A' <= c <= 'Z' then (c as int + 32) as char else c
  }

  /** `s.lower()`. */
  function Lower(s: string): (r: string)
    ensures |r| == |s|
    ensures forall i :: 0 <= i < |s| ==> r[i] == LowerChar(s[i])
  {
    if s == [] then [] else [LowerChar(s[0])] + Lower(s[1..])
  }

  /** A string that `lower()` leaves as it is. */
  predicate IsLowered(s: string) {
    forall i :: 0 <= i < |s| ==> LowerChar(s[i]) == s[i]
  }

  lemma LowerOfLowered(s: string)
    requires IsLowered(s)
    ensures Lower(s) == s
  {
  }

  lemma LowerIsLowered(s: string)
    ensures IsLowered(Lower(s))
  {
  }

  lemma LowerAppend(a: string, b: string)
    ensures Lower(a + b) == Lower(a) + Lower(b)
  {
    assert forall i :: 0 <= i < |a + b| ==> Lower(a + b)[i] == (Lower(a) + Lower(b))[i];
  }

  lemma LowerKeepsSpaces(s: string, i: int)
    requires 0 <= i < |s|
    ensures IsSpace(Lower(s)[i]) <==> IsSpace(s[i])
  {
  }

  // ---------------------------------------------------------------- strip

  /** `s.lstrip()`. */
  function StripLeft(s: string): (r: string)
    ensures |r| <= |s| && r == s[|s| - |r|..]
    ensures r != [] ==> !IsSpace(r[0])
    ensures forall i :: 0 <= i < |s| - |r| ==> IsSpace(s[i])
    decreases |s|
  {
    if s != [] && IsSpace(s[0]) then StripLeft(s[1..]) else s
  }

  /** `s.rstrip()`. */
  function StripRight(s: string): (r: string)
    ensures |r| <= |s| && r == s[..|r|]
    ensures r != [] ==> !IsSpace(r[|r| - 1])
    ensures forall i :: |r| <= i < |s| ==> IsSpace(s[i])
    decreases |s|
  {
    if s != [] && IsSpace(s[|s| - 1]) then StripRight(s[..|s| - 1]) else s
  }

  /** `s.strip()`. */
  function Strip(s: string): (r: string)
    ensures r != [] ==> !IsSpace(r[0]) && !IsSpace(r[|r| - 1])
  {
    StripRight(StripLeft(s))
  }

  /** A string only made of whitespace (possibly empty). */
  predicate AllSpace(s: string) {
    forall i :: 0 <= i < |s| ==> IsSpace(s[i])
  }

  /** Stripping removes exactly a whitespace prefix and a whitespace suffix. */
  lemma StripShape(s: string)
    ensures exists i, j :: 0 <= i <= j <= |s| && Strip(s) == s[i..j] && AllSpace(s[..i]) && AllSpace(s[j..])
  {
    var i, j := StripCut(s);
  }

  /** Where `strip()` cuts: the bounds of the kept slice. */
  lemma StripCut(s: string) returns (i: nat, j: nat)
    ensures i <= j <= |s| && Strip(s) == s[i..j]
    ensures AllSpace(s[..i]) && AllSpace(s[j..])
  {
    var l := StripLeft(s);
    i := |s| - |l|;
    var r := StripRight(l);
    j := i + |r|;
    assert s[i..j] == l[..|r|];
    assert s[j..] == l[|r|..];
  }

  /** `strip()` of a string with no surrounding whitespace changes nothing. */
  lemma StripClean(s: string)
    requires s != [] ==> !IsSpace(s[0]) && !IsSpace(s[|s| - 1])
    ensures Strip(s) == s
  {
  }

  lemma StripIdempotent(s: string)
    ensures Strip(Strip(s)) == Strip(s)
  {
    StripClean(Strip(s));
  }

  // ---------------------------------------------------------------- split / join

  /** An element of `s.split()`: non-empty and free of whitespace. */
  predicate IsWord(w: string) {
    w != [] && forall i :: 0 <= i < |w| ==> !IsSpace(w[i])
  }

  /** The longest whitespace-free prefix of `s`. */
  function TakeWord(s: string): (w: string)
    ensures |w| <= |s| && w == s[..|w|]
    ensures forall i :: 0 <= i < |w| ==> !IsSpace(s[i])
    ensures |w| < |s| ==> IsSpace(s[|w|])
    decreases |s|
  {
    if s == [] || IsSpace(s[0]) then [] else [s[0]] + TakeWord(s[1..])
  }

  /** `s.split()` with no separator: the maximal runs of non-whitespace, in order. */
  function Split(s: string): (ws: seq<string>)
    ensures forall i :: 0 <= i < |ws| ==> IsWord(ws[i])
    decreases |s|
  {
    if s == [] then []
    else if IsSpace(s[0]) then Split(s[1..])
    else
      var w := TakeWord(s);
      [w] + Split(s[|w|..])
  }

  /** `sep.join(parts)`. */
  function Join(sep: string, parts: seq<string>): string {
    if parts == [] then ""
    else if |parts| == 1 then parts[0]
    else parts[0] + sep + Join(sep, parts[1..])
  }

  lemma TakeWordOfWord(s: string, t: string)
    requires forall i :: 0 <= i < |s| ==> !IsSpace(s[i])
    requires t == [] || IsSpace(t[0])
    ensures TakeWord(s + t) == s
    decreases |s|
  {
    if s != [] {
      assert (s + t)[1..] == s[1..] + t;
      TakeWordOfWord(s[1..], t);
    } else {
      assert s + t == t;
    }
  }

  lemma TakeWordAppend(s: string, t: string)
    requires t == [] || IsSpace(t[0])
    ensures TakeWord(s + t) == TakeWord(s)
    decreases |s|
  {
    if s == [] {
      assert s + t == t;
    } else if !IsSpace(s[0]) {
      assert (s + t)[1..] == s[1..] + t;
      TakeWordAppend(s[1..], t);
    }
  }

  lemma SplitAllSpace(s: string)
    requires AllSpace(s)
    ensures Split(s) == []
    decreases |s|
  {
    if s != [] {
      SplitAllSpace(s[1..]);
    }
  }

  /** Leading whitespace does not change `split()`. */
  lemma SplitStripLeft(s: string)
    ensures Split(StripLeft(s)) == Split(s)
    decreases |s|
  {
    if s != [] && IsSpace(s[0]) {
      SplitStripLeft(s[1..]);
    }
  }

  /** Trailing whitespace does not change `split()`. */
  lemma {:induction false} SplitAppendSpace(s: string, t: string)
    requires AllSpace(t)
    ensures Split(s + t) == Split(s)
    decreases |s|
  {
    if s == [] {
      assert s + t == t;
      SplitAllSpace(t);
    } else if IsSpace(s[0]) {
      assert (s + t)[1..] == s[1..] + t;
      SplitAppendSpace(s[1..], t);
    } else {
      var w := TakeWord(s);
      if |w| < |s| {
        TakeWordAppend(s, t);
      } else {
        assert s == w + [];
        TakeWordOfWord(s, t);
      }
      assert TakeWord(s + t) == w;
      assert (s + t)[|w|..] == s[|w|..] + t;
      SplitAppendSpace(s[|w|..], t);
    }
  }

  lemma SplitStrip(s: string)
    ensures Split(Strip(s)) == Split(s)
  {
    var l := StripLeft(s);
    var r := StripRight(l);
    assert l == r + l[|r|..];
    SplitAppendSpace(r, l[|r|..]);
    SplitStripLeft(s);
  }

  /** Splitting what was joined with single spaces gives the words back. */
  lemma {:induction false} SplitJoin(ws: seq<string>)
    requires forall i :: 0 <= i < |ws| ==> IsWord(ws[i])
    ensures Split(Join(" ", ws)) == ws
  {
    if ws == [] {
    } else if |ws| == 1 {
      TakeWordOfWord(ws[0], []);
      assert ws[0] + [] == ws[0];
      assert ws[0][|ws[0]|..] == [];
    } else {
      var w, rest := ws[0], Join(" ", ws[1..]);
      var j := w + " " + rest;
      assert j == w + (" " + rest);
      TakeWordOfWord(w, " " + rest);
      assert j[|w|..] == " " + rest;
      assert (" " + rest)[1..] == rest;
      SplitJoin(ws[1..]);
      assert Split(j) == [w] + Split(" " + rest);
    }
  }

  // ---------------------------------------------------------------- re.sub(r'\s+', ' ', s)

  /**
   * `re.sub(r'\s+', ' ', s)`: every maximal whitespace run becomes one space.
   * `inRun` records that the previous character was whitespace, already replaced.
   */
  function CollapseFrom(s: string, inRun: bool): string
    decreases |s|
  {
    if s == [] then []
    else if IsSpace(s[0]) then (if inRun then "" else " ") + CollapseFrom(s[1..], true)
    else [s[0]] + CollapseFrom(s[1..], false)
  }

  function Collapse(s: string): string {
    CollapseFrom(s, false)
  }

  lemma {:induction false} CollapseWord(w: string, z: string, inRun: bool)
    requires w != [] && forall i :: 0 <= i < |w| ==> !IsSpace(w[i])
    ensures CollapseFrom(w + z, inRun) == w + CollapseFrom(z, false)
    decreases |w|
  {
    assert (w + z)[1..] == w[1..] + z;
    if |w| == 1 {
      assert w[1..] + z == z;
    } else {
      CollapseWord(w[1..], z, false);
      assert w == [w[0]] + w[1..];
    }
  }

  lemma {:induction false} CollapseSpaces(sp: string, z: string, inRun: bool)
    requires sp != [] && AllSpace(sp)
    requires z != [] && !IsSpace(z[0])
    ensures CollapseFrom(sp + z, inRun) == (if inRun then "" else " ") + CollapseFrom(z, false)
    decreases |sp|
  {
    assert (sp + z)[1..] == sp[1..] + z;
    if |sp| == 1 {
      assert sp[1..] + z == z;
    } else {
      CollapseSpaces(sp[1..], z, true);
    }
  }

  /** The first word of a string that starts with a word, and what follows it. */
  lemma SplitFirstWord(y: string)
    requires y != [] && !IsSpace(y[0])
    ensures var w := TakeWord(y);
      w != [] && Split(y) == [w] + Split(y[|w|..]) && Collapse(y) == w + Collapse(y[|w|..])
  {
    var w := TakeWord(y);
    assert y == w + y[|w|..];
    CollapseWord(w, y[|w|..], false);
  }

  /** A whitespace run followed by more text collapses to one space. */
  lemma CollapseSpaceRun(rest: string)
    requires rest != [] && IsSpace(rest[0])
    requires StripLeft(rest) != []
    ensures Collapse(rest) == " " + Collapse(StripLeft(rest))
    ensures Split(rest) == Split(StripLeft(rest))
  {
    var z := StripLeft(rest);
    var sp := LeadingSpace(rest);
    CollapseSpaces(sp, z, false);
    SplitStripLeft(rest);
  }

  /** The whitespace `lstrip()` removes from a string that starts with whitespace: not empty. */
  lemma LeadingSpace(s: string) returns (sp: string)
    requires s != [] && IsSpace(s[0])
    ensures sp != [] && AllSpace(sp) && s == sp + StripLeft(s)
  {
    sp := s[..|s| - |StripLeft(s)|];
  }

  lemma JoinCons(w: string, ws: seq<string>)
    requires ws != []
    ensures Join(" ", [w] + ws) == w + " " + Join(" ", ws)
  {
    assert ([w] + ws)[1..] == ws;
  }

  /** What follows the first word of a clean text is whitespace and then clean text again. */
  lemma AfterFirstWord(y: string, rest: string)
    requires y != [] && !IsSpace(y[0]) && !IsSpace(y[|y| - 1])
    requires rest == y[|TakeWord(y)|..] && rest != []
    ensures IsSpace(rest[0])
    ensures var z := StripLeft(rest);
      z != [] && !IsSpace(z[0]) && !IsSpace(z[|z| - 1]) && |z| < |y| && Split(z) != []
  {
    var z := StripLeft(rest);
    assert y[|y| - 1] == rest[|rest| - 1];
    if z == [] {
      assert false;
    }
    assert z[|z| - 1] == rest[|rest| - 1];
  }

  /** On text without surrounding whitespace, collapsing runs is joining the words. */
  lemma {:induction false} CollapseClean(y: string)
    requires y != [] ==> !IsSpace(y[0]) && !IsSpace(y[|y| - 1])
    ensures Collapse(y) == Join(" ", Split(y))
    decreases |y|
  {
    if y != [] {
      SplitFirstWord(y);
      var w := TakeWord(y);
      var rest := y[|w|..];
      if rest == [] {
        assert Split(rest) == [];
      } else {
        AfterFirstWord(y, rest);
        var z := StripLeft(rest);
        CollapseSpaceRun(rest);
        CollapseClean(z);
        JoinCons(w, Split(z));
      }
    }
  }

  /** `re.sub(r'\s+', ' ', s.strip())` and `" ".join(s.split())` agree on every string. */
  lemma CollapseStripIsJoinSplit(s: string)
    ensures Collapse(Strip(s)) == Join(" ", Split(s))
  {
    CollapseClean(Strip(s));
    SplitStrip(s);
  }

  lemma JoinLowered(ws: seq<string>)
    requires forall i :: 0 <= i < |ws| ==> IsLowered(ws[i])
    ensures IsLowered(Join(" ", ws))
  {
    if |ws| > 1 {
      JoinLowered(ws[1..]);
      var j := Join(" ", ws[1..]);
      assert Join(" ", ws) == ws[0] + " " + j;
    }
  }

  lemma {:induction false} SplitLowered(s: string)
    requires IsLowered(s)
    ensures forall i :: 0 <= i < |Split(s)| ==> IsLowered(Split(s)[i])
    decreases |s|
  {
    if s != [] {
      if IsSpace(s[0]) {
        SplitLowered(s[1..]);
      } else {
        SplitLowered(s[|TakeWord(s)|..]);
      }
    }
  }

  /** Joining the words of lower-cased text is stable under lower-case, split and join. */
  lemma NormalizeStable(s: string)
    ensures Join(" ", Split(Lower(Join(" ", Split(Lower(s)))))) == Join(" ", Split(Lower(s)))
  {
    var ws := Split(Lower(s));
    LowerIsLowered(s);
    SplitLowered(Lower(s));
    JoinLowered(ws);
    LowerOfLowered(Join(" ", ws));
    SplitJoin(ws);
  }

  // ---------------------------------------------------------------- substring test

  predicate StartsWith(s: string, p: string) {
    |p| <= |s| && s[..|p|] == p
  }

  /** Python's `p in s` for strings. */
  predicate Contains(s: string, p: string)
    decreases |s|
  {
    StartsWith(s, p) || (s != [] && Contains(s[1..], p))
  }

  lemma {:induction false} ContainsAt(s: string, p: string, i: int)
    requires 0 <= i && i + |p| <= |s| && s[i..i + |p|] == p
    ensures Contains(s, p)
    decreases i
  {
    if i > 0 {
      assert s[1..][i - 1..i - 1 + |p|] == s[i..i + |p|];
      ContainsAt(s[1..], p, i - 1);
    } else {
      assert s[..|p|] == p;
    }
  }

  lemma {:induction false} ContainsIndex(s: string, p: string) returns (i: int)
    requires Contains(s, p)
    ensures 0 <= i && i + |p| <= |s| && s[i..i + |p|] == p
    decreases |s|
  {
    if StartsWith(s, p) {
      i := 0;
    } else {
      var k := ContainsIndex(s[1..], p);
      i := k + 1;
      assert s[i..i + |p|] == s[1..][k..k + |p|];
    }
  }

  lemma SliceOfSlice<T>(s: seq<T>, i: int, n: int, j: int, m: int)
    requires 0 <= i && 0 <= j && 0 <= m && j + m <= n && i + n <= |s|
    ensures s[i..i + n][j..j + m] == s[i + j..i + j + m]
  {
    var a, b := s[i..i + n][j..j + m], s[i + j..i + j + m];
    assert |a| == |b|;
    forall k | 0 <= k < m
      ensures a[k] == b[k]
    {
      assert a[k] == s[i..i + n][j + k];
    }
  }

  /** A substring of a substring is a substring. */
  lemma ContainsTrans(s: string, p: string, q: string)
    requires Contains(s, p) && Contains(p, q)
    ensures Contains(s, q)
  {
    var i := ContainsIndex(s, p);
    var j := ContainsIndex(p, q);
    SliceOfSlice(s, i, |p|, j, |q|);
    ContainsAt(s, q, i + j);
  }

  lemma ContainsLeft(a: string, b: string, p: string)
    requires Contains(a, p)
    ensures Contains(a + b, p)
  {
    var i := ContainsIndex(a, p);
    assert (a + b)[i..i + |p|] == a[i..i + |p|];
    ContainsAt(a + b, p, i);
  }

  lemma ContainsRight(a: string, b: string, p: string)
    requires Contains(b, p)
    ensures Contains(a + b, p)
  {
    var i := ContainsIndex(b, p);
    assert (a + b)[|a| + i..|a| + i + |p|] == b[i..i + |p|];
    ContainsAt(a + b, p, |a| + i);
  }

  /** Whatever the stripped string contains, the string contains. */
  lemma ContainsOfStrip(s: string, p: string)
    requires Contains(Strip(s), p)
    ensures Contains(s, p)
  {
    StripShape(s);
    var i, j :| 0 <= i <= j <= |s| && Strip(s) == s[i..j];
    ContainsAt(s, s[i..j], i);
    ContainsTrans(s, Strip(s), p);
  }

  /** `any(k in text for k in keys)`. */
  predicate AnyIn(text: string, keys: seq<string>) {
    exists i :: 0 <= i < |keys| && Contains(text, keys[i])
  }

  // ---------------------------------------------------------------- slices

  /** `s[:n]` for an int `n`, negative `n` counting from the end. */
  function PyPrefix<T>(s: seq<T>, n: int): (r: seq<T>)
    ensures |r| <= |s| && r == s[..|r|]
    ensures n >= 0 ==> |r| <= n
  {
    if n >= 0 then s[..Min(n, |s|)] else s[..Max(0, |s| + n)]
  }

  // ---------------------------------------------------------------- replace

  /** `s.replace(c, r)` for a one-character `c`. */
  function ReplaceChar(s: string, c: char, r: string): (t: string)
    ensures c !in s ==> t == s
    ensures c !in r ==> c !in t
  {
    if s == [] then []
    else (if s[0] == c then r else [s[0]]) + ReplaceChar(s[1..], c, r)
  }
}
