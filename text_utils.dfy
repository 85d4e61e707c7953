/**
 * `get_key_takeaways`: the first two or three sentences of an article's
 * summary, as bullet points. The HTML around the bullets is fixed text and is
 * represented here by which of the three blocks is produced.
 */
module TextUtils {
  import opened Wrappers
  import opened PyText

  const NoContentText: string := "No content available to summarize."
  const NoSummaryText: string := "Summary not available."

  /** Longer first sentences than this leave room for only two bullets. */
  const LongSentence: int := 100

  /**
   * The block returned: the no-content notice, the bullet list (its items
   * already stripped), or the fallback notice when there are no items.
   */
  datatype Takeaways = NoContentNotice | Bullets(points: seq<string>) | NoPointsNotice

  // ---------------------------------------------------------------- sentence split

  /** A character that ends a sentence for the pattern `(?<=[.!?])\s+`. */
  predicate IsStop(c: char) {
    c == '.' || c == '!' || c == '?'
  }

  /** The pattern matches at `i`: a whitespace character right after a sentence stop. */
  predicate SplitsAt(s: string, i: int) {
    0 < i < |s| && IsStop(s[i - 1]) && IsSpace(s[i])
  }

  /** The end of the whitespace run that starts at `i` (the greedy `\s+`). */
  function RunEnd(s: string, i: nat): (j: nat)
    requires i <= |s|
    ensures i <= j <= |s|
    ensures forall k :: i <= k < j ==> IsSpace(s[k])
    ensures j == |s| || !IsSpace(s[j])
    decreases |s| - i
  {
    if i < |s| && IsSpace(s[i]) then RunEnd(s, i + 1) else i
  }

  /** The first match position from `i` on, or `|s|` when the pattern does not match again. */
  function NextSplit(s: string, i: nat): (j: nat)
    requires i <= |s|
    ensures i <= j <= |s|
    ensures j < |s| ==> SplitsAt(s, j)
    ensures forall k :: i <= k < j ==> !SplitsAt(s, k)
    decreases |s| - i
  {
    if i == |s| || SplitsAt(s, i) then i else NextSplit(s, i + 1)
  }

  /**
   * `re.split(r'(?<=[.!?])\s+', s)`: the text up to the first match, then the
   * split of what follows the matched run. The scan resumes after the run,
   * where the look-behind sees whitespace and cannot match, so splitting the
   * remainder on its own gives the same pieces.
   */
  function Sentences(s: string): (r: seq<string>)
    ensures |r| >= 1
    decreases |s|
  {
    var i := NextSplit(s, 0);
    if i == |s| then [s]
    else [s[..i]] + Sentences(s[RunEnd(s, i)..])
  }

  /** `s` as the pieces with, between each two, the whitespace run the split removed. */
  function Interleave(pieces: seq<string>, gaps: seq<string>): string
    requires |pieces| == |gaps| + 1
    decreases |gaps|
  {
    if gaps == [] then pieces[0] else pieces[0] + gaps[0] + Interleave(pieces[1..], gaps[1..])
  }

  /** A run the split removes: non-empty whitespace. */
  predicate IsGap(g: string) {
    g != "" && AllSpace(g)
  }

  /** The split loses nothing but the whitespace runs it splits at. */
  lemma {:induction false} SentencesRebuild(s: string) returns (gaps: seq<string>)
    ensures |gaps| + 1 == |Sentences(s)|
    ensures forall k :: 0 <= k < |gaps| ==> IsGap(gaps[k])
    ensures Interleave(Sentences(s), gaps) == s
    decreases |s|
  {
    var i := NextSplit(s, 0);
    if i == |s| {
      gaps := [];
    } else {
      var j := RunEnd(s, i);
      var gap := SplitGap(s, i);
      var rest := SentencesRebuild(s[j..]);
      gaps := [gap] + rest;
      InterleaveCons(s[..i], Sentences(s[j..]), gap, rest);
    }
  }

  /** The run matched at a split: non-empty whitespace, between the text before it and the text after it. */
  lemma SplitGap(s: string, i: nat) returns (gap: string)
    requires i < |s| && SplitsAt(s, i)
    ensures IsGap(gap) && gap == s[i..RunEnd(s, i)]
    ensures s == s[..i] + gap + s[RunEnd(s, i)..]
  {
    var j := RunEnd(s, i);
    gap := s[i..j];
    forall m | 0 <= m < |gap|
      ensures IsSpace(gap[m])
    {
      assert gap[m] == s[i + m];
    }
  }

  lemma InterleaveCons(p: string, ps: seq<string>, g: string, gs: seq<string>)
    requires |ps| == |gs| + 1
    ensures Interleave([p] + ps, [g] + gs) == p + g + Interleave(ps, gs)
  {
    assert ([p] + ps)[1..] == ps && ([g] + gs)[1..] == gs;
  }

  /** No piece contains a match, and every piece but the last ends with a sentence stop. */
  lemma {:induction false} SentencesMeans(s: string)
    ensures forall k, i :: 0 <= k < |Sentences(s)| ==> !SplitsAt(Sentences(s)[k], i)
    ensures forall k :: 0 <= k < |Sentences(s)| - 1 ==>
              Sentences(s)[k] != "" && IsStop(Sentences(s)[k][|Sentences(s)[k]| - 1])
    decreases |s|
  {
    var i := NextSplit(s, 0);
    if i < |s| {
      SentencesMeans(s[RunEnd(s, i)..]);
      var r := Sentences(s);
      assert r[1..] == Sentences(s[RunEnd(s, i)..]);
      forall k, m | 0 <= k < |r|
        ensures !SplitsAt(r[k], m)
      {
        if k == 0 {
          if SplitsAt(s[..i], m) {
            assert SplitsAt(s, m);
          }
        } else {
          assert r[k] == r[1..][k - 1];
        }
      }
      forall k | 0 <= k < |r| - 1
        ensures r[k] != "" && IsStop(r[k][|r[k]| - 1])
      {
        if k > 0 {
          assert r[k] == r[1..][k - 1];
        }
      }
    }
  }

  // ---------------------------------------------------------------- takeaways

  /** The content `get_key_takeaways` refuses: empty, or one of the two placeholder summaries. */
  predicate NoContent(content: string) {
    content == "" || Strip(content) == NoContentText || Strip(content) == NoSummaryText
  }

  /** How many sentences become bullets: three, or two after a long first sentence, and never more than there are. */
  function BulletCount(sentences: seq<string>): (n: int)
    requires |sentences| >= 1
    ensures 1 <= n <= |sentences|
    ensures n <= (if |sentences[0]| > LongSentence then 2 else 3)
    ensures n == |sentences| || n == (if |sentences[0]| > LongSentence then 2 else 3)
  {
    if |sentences[0]| > LongSentence then Min(2, |sentences|) else Min(3, |sentences|)
  }

  /** The items of the bullet list: each sentence stripped. */
  function StripAll(ss: seq<string>): (r: seq<string>)
    ensures |r| == |ss|
    ensures forall k :: 0 <= k < |ss| ==> r[k] == Strip(ss[k])
  {
    seq(|ss|, k requires 0 <= k < |ss| => Strip(ss[k]))
  }

  /**
   * The notice for refused content; otherwise the first `BulletCount`
   * sentences, stripped, as bullets. There is always a first sentence, so the
   * final fallback notice is never produced.
   */
  function GetKeyTakeaways(content: string): (t: Takeaways)
    ensures t.NoContentNotice? <==> NoContent(content)
    ensures t != NoPointsNotice
    ensures t.Bullets? ==> 1 <= |t.points| <= 3
    ensures t.Bullets? ==> |t.points| == BulletCount(Sentences(content))
    ensures t.Bullets? ==> forall k :: 0 <= k < |t.points| ==> t.points[k] == Strip(Sentences(content)[k])
  {
    if NoContent(content) then NoContentNotice
    else
      var sentences := Sentences(content);
      var takeaways := sentences[..BulletCount(sentences)];
      if takeaways != [] then Bullets(StripAll(takeaways)) else NoPointsNotice
  }

  lemma {:induction false} NextSplitFirst(s: string, i: nat, j: nat)
    requires i <= j < |s| && SplitsAt(s, j)
    requires forall k :: i <= k < j ==> !SplitsAt(s, k)
    ensures NextSplit(s, i) == j
    decreases j - i
  {
    if i < j {
      NextSplitFirst(s, i + 1, j);
    }
  }

  lemma {:induction false} RunEndAt(s: string, i: nat, j: nat)
    requires i <= j <= |s|
    requires forall k :: i <= k < j ==> IsSpace(s[k])
    requires j == |s| || !IsSpace(s[j])
    ensures RunEnd(s, i) == j
    decreases j - i
  {
    if i < j {
      RunEndAt(s, i + 1, j);
    }
  }

  /** Content with no sentence break is a single bullet: the stripped content. */
  lemma TakeawaysSingleSentence(content: string)
    requires !NoContent(content)
    requires forall i :: 0 <= i < |content| ==> !SplitsAt(content, i)
    ensures GetKeyTakeaways(content) == Bullets([Strip(content)])
  {
    assert NextSplit(content, 0) == |content|;
    assert Sentences(content) == [content];
  }

  /** A break after the first sentence makes it the first bullet, stripped. */
  lemma TakeawaysFirstSentence(first: string, gap: string, rest: string)
    requires forall i :: 0 <= i < |first| ==> !SplitsAt(first, i)
    requires first != "" && IsStop(first[|first| - 1])
    requires IsGap(gap) && (rest == "" || !IsSpace(rest[0]))
    ensures Sentences(first + gap + rest) == [first] + Sentences(rest)
    ensures GetKeyTakeaways(first + gap + rest).Bullets? ==> GetKeyTakeaways(first + gap + rest).points[0] == Strip(first)
  {
    var s := first + gap + rest;
    assert SplitsAt(s, |first|);
    forall i | 0 < i < |first|
      ensures !SplitsAt(s, i)
    {
      assert !SplitsAt(first, i);
      assert s[i - 1] == first[i - 1] && s[i] == first[i];
    }
    NextSplitFirst(s, 0, |first|);
    var j := |first| + |gap|;
    forall k | |first| <= k < j
      ensures IsSpace(s[k])
    {
      assert s[k] == gap[k - |first|];
    }
    assert j < |s| ==> s[j] == rest[0];
    RunEndAt(s, |first|, j);
    assert s[..|first|] == first && s[j..] == rest;
    assert Sentences(s) == [first] + Sentences(rest);
  }
}
