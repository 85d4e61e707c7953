/**
 * `summarize_articles`: every article with a title or a description gets one
 * summary request (three attempts, one-second linear backoff); the reply
 * becomes its summary, else its description does; articles with neither
 * field are dropped. The run's statistics, which the source only logs, are
 * returned.
 *
 * The completion service is the oracle of `LlmSummarize`, numbered by call
 * across the whole batch.
 */
module Summarize {
  import opened Wrappers
  import opened PyText
  import opened Records
  import opened Selection
  import opened LlmSummarize

  /** `summarize_with_openai`'s defaults, which `summarize_articles` relies on. */
  const MaxRetries: int := 3
  const RetryDelay: int := 1

  const OpenAiMethod: string := "openai"
  const FallbackMethod: string := "description_fallback"

  /** The `summarization_stats` table. */
  datatype SummaryStats = SummaryStats(total: nat, success: nat, failed: nat, skipped: nat)

  /** What happens to one article: the article as appended (if it is), the calls it used, and whether it counts as a success. */
  datatype Step = Step(kept: Option<Article>, calls: nat, success: bool)

  /** An article with something to be summarized: a title or a description that is not blank. */
  predicate Summarizable(a: Article) {
    Strip(TitleOf(a)) != "" || Strip(DescriptionOf(a)) != ""
  }

  /** The article with its summary fields cleared: the part summarization never changes. */
  function Unsummarized(a: Article): Article {
    a.(summary := None, summaryMethod := None)
  }

  /** One pass of the loop body, for an article whose request starts at call number `base`. */
  function SummarizeOne(a: Article, base: nat, complete: Completion): Step {
    var title, description := Strip(TitleOf(a)), Strip(DescriptionOf(a));
    if title == "" && description == "" then Step(None, 0, false)
    else
      var r := Attempt(complete, base, Prompt(CombinedText(title, description), title), MaxRetries, RetryDelay);
      if r.summary.Some? then
        Step(Some(a.(summary := r.summary, summaryMethod := Some(OpenAiMethod))), r.calls, true)
      else if description != "" then
        Step(Some(a.(summary := Some(description), summaryMethod := Some(FallbackMethod))), r.calls, true)
      else
        Step(Some(a), r.calls, false)
  }

  /**
   * One article: dropped exactly when it has nothing to summarize; otherwise
   * kept with only its summary fields changed, after at most three calls; a
   * success carries a non-empty summary, a fallback summary is the stripped
   * description, and a failure leaves the article as it was.
   */
  lemma SummarizeOneMeans(a: Article, base: nat, complete: Completion)
    ensures var s := SummarizeOne(a, base, complete);
      && (s.kept.None? <==> !Summarizable(a))
      && (s.kept.None? ==> s.calls == 0 && !s.success)
      && (s.kept.Some? ==> Unsummarized(s.kept.value) == Unsummarized(a))
      && s.calls <= MaxRetries
      && (s.success ==> s.kept.Some? && s.kept.value.summary.Some? && s.kept.value.summary.value != "")
      && (s.kept.Some? && !s.success ==> s.kept.value == a && Strip(DescriptionOf(a)) == "")
      && (s.kept.Some? && s.kept.value.summaryMethod == Some(FallbackMethod) && a.summaryMethod != Some(FallbackMethod) ==>
            s.kept.value.summary == Some(Strip(DescriptionOf(a))))
  {
  }

  /** The loop's running state: the list built so far, the calls made, the two counters. */
  datatype Batch = Batch(summarized: seq<Article>, calls: nat, success: nat, failed: nat)

  /** The state after the loop has run over `articles`, in order. */
  function SummarizeAll(articles: seq<Article>, complete: Completion): Batch
    decreases |articles|
  {
    if articles == [] then Batch([], 0, 0, 0)
    else
      var b := SummarizeAll(articles[..|articles| - 1], complete);
      Next(b, SummarizeOne(articles[|articles| - 1], b.calls, complete))
  }

  /** The loop's state after one more pass: the article appended if kept, its calls added, one counter bumped. */
  function Next(b: Batch, s: Step): Batch {
    Batch(b.summarized + (if s.kept.Some? then [s.kept.value] else []),
          b.calls + s.calls,
          b.success + (if s.success then 1 else 0),
          b.failed + (if s.success then 0 else 1))
  }

  /** Every article counts once, as a success or a failure. */
  lemma {:induction false} SummarizeAllCounts(articles: seq<Article>, complete: Completion)
    ensures SummarizeAll(articles, complete).success + SummarizeAll(articles, complete).failed == |articles|
    ensures SummarizeAll(articles, complete).calls <= MaxRetries * |articles|
    ensures |SummarizeAll(articles, complete).summarized| <= SummarizeAll(articles, complete).success
                                                              + SummarizeAll(articles, complete).failed
  {
    if articles != [] {
      SummarizeAllCounts(articles[..|articles| - 1], complete);
      SummarizeOneMeans(articles[|articles| - 1], SummarizeAll(articles[..|articles| - 1], complete).calls, complete);
    }
  }

  /** Each article of a list with its summary fields cleared. */
  function UnsummarizedAll(s: seq<Article>): (r: seq<Article>)
    ensures |r| == |s|
  {
    if s == [] then [] else UnsummarizedAll(s[..|s| - 1]) + [Unsummarized(s[|s| - 1])]
  }

  /** One more loop pass keeps the output equal, up to summary fields, to the filtered input. */
  lemma KeepsStep(out0: seq<Article>, f0: seq<Article>, kept: Option<Article>, last: Article, admitted: bool)
    requires UnsummarizedAll(out0) == UnsummarizedAll(f0)
    requires kept.Some? <==> admitted
    requires kept.Some? ==> Unsummarized(kept.value) == Unsummarized(last)
    ensures UnsummarizedAll(out0 + (if kept.Some? then [kept.value] else []))
         == UnsummarizedAll(f0 + (if admitted then [last] else []))
  {
    if admitted {
      assert (out0 + [kept.value])[..|out0|] == out0;
      assert (f0 + [last])[..|f0|] == f0;
    } else {
      assert out0 + [] == out0 && f0 + [] == f0;
    }
  }

  /** The summary fields aside, the output is the input's summarizable articles, in their order. */
  lemma {:induction false} SummarizeAllKeeps(articles: seq<Article>, complete: Completion)
    ensures UnsummarizedAll(SummarizeAll(articles, complete).summarized)
         == UnsummarizedAll(Filter(articles, Summarizable))
  {
    if articles != [] {
      var front, last := articles[..|articles| - 1], articles[|articles| - 1];
      SummarizeAllKeeps(front, complete);
      var b := SummarizeAll(front, complete);
      SummarizeOneMeans(last, b.calls, complete);
      KeepsStep(b.summarized, Filter(front, Summarizable), SummarizeOne(last, b.calls, complete).kept, last, Summarizable(last));
    }
  }

  /** The state after one more article: the step for it, from the calls made so far. */
  lemma SummarizeAllSnoc(articles: seq<Article>, i: nat, complete: Completion)
    requires i < |articles|
    ensures var b := SummarizeAll(articles[..i], complete);
      SummarizeAll(articles[..i + 1], complete) == Next(b, SummarizeOne(articles[i], b.calls, complete))
  {
    assert articles[..i + 1][..i] == articles[..i];
  }

  /**
   * The body of the loop of `summarize_articles` for one article, whose
   * request starts at call number `base`: the article to append (none when
   * it is skipped), the calls used, and which counter it bumps.
   */
  method SummarizeStep(article: Article, base: nat, complete: Completion)
    returns (kept: Option<Article>, used: nat, success: bool)
    ensures Step(kept, used, success) == SummarizeOne(article, base, complete)
  {
    var title := Strip(TitleOf(article));
    var description := Strip(DescriptionOf(article));
    if title == "" && description == "" {
      return None, 0, false;
    }
    var combined := CombinedText(title, description);
    var summary, waits;
    summary, used, waits := RequestSummary(combined, title, MaxRetries, RetryDelay, complete, base);
    if summary.Some? {
      kept, success := Some(article.(summary := summary, summaryMethod := Some(OpenAiMethod))), true;
    } else if description != "" {
      kept, success := Some(article.(summary := Some(description), summaryMethod := Some(FallbackMethod))), true;
    } else {
      kept, success := Some(article), false;
    }
  }

  /**
   * The loop of `summarize_articles`. The articles are updated as values;
   * `stats` is the table the source logs at the end.
   */
  method SummarizeArticles(articles: seq<Article>, complete: Completion)
    returns (summarized: seq<Article>, stats: SummaryStats)
    ensures summarized == SummarizeAll(articles, complete).summarized
    ensures stats.total == |articles| && stats.skipped == 0
    ensures stats.success == SummarizeAll(articles, complete).success
    ensures stats.failed == SummarizeAll(articles, complete).failed
    ensures stats.success + stats.failed == stats.total
  {
    summarized := [];
    var calls: nat, successes: nat, failures: nat := 0, 0, 0;
    for i := 0 to |articles|
      invariant Batch(summarized, calls, successes, failures) == SummarizeAll(articles[..i], complete)
    {
      SummarizeAllSnoc(articles, i, complete);
      ghost var b := Batch(summarized, calls, successes, failures);
      var kept, used, success := SummarizeStep(articles[i], calls, complete);
      calls := calls + used;
      if success {
        successes := successes + 1;
      } else {
        failures := failures + 1;
      }
      if kept.Some? {
        summarized := summarized + [kept.value];
      }
      assert Batch(summarized, calls, successes, failures) == Next(b, Step(kept, used, success));
    }
    assert articles[..|articles|] == articles;
    stats := SummaryStats(|articles|, successes, failures, 0);
    SummarizeAllCounts(articles, complete);
  }
}
