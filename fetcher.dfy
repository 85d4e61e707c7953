/**
 * The category fetch of `feeds/fetcher.py`: every enabled category's queries
 * go to `search_news` until the daily request limit is reached, the results
 * are tagged and counted into the global `FETCH_METRICS`, and each article is
 * given an age bucket.
 */
module Fetcher {
  import opened Wrappers
  import opened PyText
  import opened Records
  import opened Selection
  import GNewsApi

  // ---------------------------------------------------------------- age buckets

  /** The bucket labels, youngest first. */
  const AgeLabels: seq<string> := ["Breaking", "Today", "Yesterday", "This Week", "Older"]

  /** The bounds of `categorize_article_age`, in seconds: 6 hours, 24 hours, 2 days, 7 days. */
  const SixHours := 6 * 3600
  const OneDay := 24 * 3600
  const TwoDays := 2 * 86400
  const OneWeek := 7 * 86400

  /** The bucket of an age in seconds; every bound is strict, and a negative age (a future date) is 'Breaking'. */
  function AgeBucket(age: int): (bucket: string)
    ensures bucket in AgeLabels
    ensures bucket == "Breaking" <==> age < SixHours
    ensures bucket == "Today" <==> SixHours <= age < OneDay
    ensures bucket == "Yesterday" <==> OneDay <= age < TwoDays
    ensures bucket == "This Week" <==> TwoDays <= age < OneWeek
    ensures bucket == "Older" <==> OneWeek <= age
  {
    if age < SixHours then "Breaking"
    else if age < OneDay then "Today"
    else if age < TwoDays then "Yesterday"
    else if age < OneWeek then "This Week"
    else "Older"
  }

  /** The position of a label among `AgeLabels`. */
  function Rank(bucket: string): int {
    if bucket == "Breaking" then 0
    else if bucket == "Today" then 1
    else if bucket == "Yesterday" then 2
    else if bucket == "This Week" then 3
    else 4
  }

  /** An older article never gets a younger bucket. */
  lemma AgeBucketMonotone(age1: int, age2: int)
    requires age1 <= age2
    ensures Rank(AgeBucket(age1)) <= Rank(AgeBucket(age2))
    ensures AgeLabels[Rank(AgeBucket(age1))] == AgeBucket(age1)
  {
  }

  /**
   * `categorize_article_age(published_date)` with `now` the aware UTC clock
   * reading: subtracting a naive `datetime` from an aware one raises
   * `TypeError`.
   */
  function CategorizeArticleAge(published: Moment, now: int): (r: Outcome<string>)
    ensures r.Raised? <==> published.Naive?
    ensures r.Raised? ==> r.error == TypeError
    ensures published.Aware? && published.utc >= now ==> r == Ok("Breaking")
    ensures published.Aware? && now - published.utc >= OneWeek ==> r == Ok("Older")
    ensures r.Ok? ==> r.value in AgeLabels
  {
    match published
    case Naive(_) => Raised(TypeError)
    case Aware(u) => Ok(AgeBucket(now - u))
  }

  /** The label stored for a parsed date: a raising age computation is caught and stored as 'Unknown'. */
  function AgeOf(m: Moment, now: int): string {
    match CategorizeArticleAge(m, now)
    case Ok(b) => b
    case Raised(_) => "Unknown"
  }

  /**
   * The `age_category` loop as written: a truthy `published_at` is sent
   * through `.replace('Z', '+00:00')` and `fromisoformat`. On a string that
   * works; on a `datetime`, `replace` takes date fields, not strings, and
   * raises `TypeError`, which is caught and stored as 'Unknown'.
   */
  function AgeCategoryAsWritten(publishedAt: When, now: int, iso: string -> Option<Moment>): string {
    if !Truthy(publishedAt) then "Unknown"
    else match publishedAt
      case Text(t) => (match iso(ReplaceChar(t, 'Z', "+00:00")) case Some(m) => AgeOf(m, now) case None => "Unknown")
      case _ => "Unknown"
  }

  /** The bucket the loop evidently means to compute: a `datetime` is used as it is, a string is parsed first. */
  function AgeCategory(publishedAt: When, now: int, iso: string -> Option<Moment>): (bucket: string)
    ensures bucket in AgeLabels || bucket == "Unknown"
    ensures !Truthy(publishedAt) ==> bucket == "Unknown"
    ensures publishedAt.Time? ==> bucket == AgeOf(publishedAt.moment, now)
    ensures publishedAt.Time? && publishedAt.moment.Aware? ==> bucket == AgeBucket(now - publishedAt.moment.utc)
    ensures publishedAt.Text? ==> bucket == AgeCategoryAsWritten(publishedAt, now, iso)
  {
    match publishedAt
    case Time(m) => AgeOf(m, now)
    case _ => AgeCategoryAsWritten(publishedAt, now, iso)
  }

  /** As written, an article without a string `published_at` is always 'Unknown'. */
  lemma AgeAsWrittenIgnoresDatetimes(publishedAt: When, now: int, iso: string -> Option<Moment>)
    requires !publishedAt.Text?
    ensures AgeCategoryAsWritten(publishedAt, now, iso) == "Unknown"
  {
  }

  /**
   * And `search_news` only returns `datetime` or `None` dates, so as written
   * every fetched article is 'Unknown', whatever its date.
   */
  lemma AgeAsWrittenAlwaysUnknown(query: string, http: GNewsApi.Request -> GNewsApi.Transport, iso: string -> Option<Moment>,
                                  now: int, i: int)
    requires GNewsApi.SearchNews(query, "en", None, 3, [], http, iso).Ok?
    requires 0 <= i < |GNewsApi.SearchNews(query, "en", None, 3, [], http, iso).value|
    ensures AgeCategoryAsWritten(GNewsApi.SearchNews(query, "en", None, 3, [], http, iso).value[i].publishedAt, now, iso) == "Unknown"
  {
    GNewsApi.SearchNewsDates(query, "en", None, 3, [], http, iso);
  }

  /** An article published at `now` is 'Unknown' as written and 'Breaking' as intended. */
  lemma AgeAsWrittenLosesBreaking(now: int, iso: string -> Option<Moment>)
    ensures AgeCategoryAsWritten(Time(Aware(now)), now, iso) == "Unknown"
    ensures AgeCategory(Time(Aware(now)), now, iso) == "Breaking"
  {
  }

  /** The article after the loop, as written, has set `age_category`. */
  function WithAge(a: Article, now: int, iso: string -> Option<Moment>): Article {
    a.(ageCategory := Some(AgeCategoryAsWritten(a.publishedAt, now, iso)))
  }

  /** Every article of the list with its age set as written, the `k`-th against the clock reading `clock(k)`. */
  function Aged(articles: seq<Article>, iso: string -> Option<Moment>, clock: nat -> int): seq<Article> {
    seq(|articles|, k requires 0 <= k < |articles| => WithAge(articles[k], clock(k), iso))
  }

  /** The list with the ages the loop evidently means to set. */
  function AgedIntended(articles: seq<Article>, iso: string -> Option<Moment>, clock: nat -> int): seq<Article> {
    seq(|articles|, k requires 0 <= k < |articles| => articles[k].(ageCategory := Some(AgeCategory(articles[k].publishedAt, clock(k), iso))))
  }

  /**
   * The two lists differ only in the ages, and only for articles holding a
   * `datetime`: a string date gets the same label from both, and an article
   * published at or after its clock reading is 'Breaking' as intended but
   * 'Unknown' as written.
   */
  lemma AgedVersusIntended(articles: seq<Article>, iso: string -> Option<Moment>, clock: nat -> int, k: int)
    requires 0 <= k < |articles|
    ensures |AgedIntended(articles, iso, clock)| == |Aged(articles, iso, clock)| == |articles|
    ensures AgedIntended(articles, iso, clock)[k].(ageCategory := None) == Aged(articles, iso, clock)[k].(ageCategory := None)
    ensures !articles[k].publishedAt.Time? ==> AgedIntended(articles, iso, clock)[k] == Aged(articles, iso, clock)[k]
    ensures articles[k].publishedAt.Time? ==> Aged(articles, iso, clock)[k].ageCategory == Some("Unknown")
    ensures articles[k].publishedAt.Time? && articles[k].publishedAt.moment.Aware? && articles[k].publishedAt.moment.utc >= clock(k) ==>
      AgedIntended(articles, iso, clock)[k].ageCategory == Some("Breaking")
  {
    var a := articles[k];
    assert Aged(articles, iso, clock)[k] == WithAge(a, clock(k), iso);
    if a.publishedAt.Time? {
      AgeAsWrittenIgnoresDatetimes(a.publishedAt, clock(k), iso);
    }
  }

  /** Setting the ages keeps the list and every other field, and leaves every article with a bucket or 'Unknown'. */
  lemma AgedMeans(articles: seq<Article>, iso: string -> Option<Moment>, clock: nat -> int)
    ensures |Aged(articles, iso, clock)| == |articles|
    ensures forall k :: 0 <= k < |articles| ==>
      Aged(articles, iso, clock)[k].(ageCategory := articles[k].ageCategory) == articles[k]
    ensures forall k :: 0 <= k < |articles| ==> (Aged(articles, iso, clock)[k].ageCategory.Some?
      && (Aged(articles, iso, clock)[k].ageCategory.value in AgeLabels || Aged(articles, iso, clock)[k].ageCategory.value == "Unknown"))
  {
    forall k | 0 <= k < |articles|
      ensures Aged(articles, iso, clock)[k].(ageCategory := articles[k].ageCategory) == articles[k]
      ensures Aged(articles, iso, clock)[k].ageCategory.Some?
      ensures Aged(articles, iso, clock)[k].ageCategory.value in AgeLabels || Aged(articles, iso, clock)[k].ageCategory.value == "Unknown"
    {
      assert Aged(articles, iso, clock)[k] == WithAge(articles[k], clock(k), iso);
    }
  }

  // ---------------------------------------------------------------- the query loop

  /** An entry of `NEWS_CATEGORIES`: its key, `config.get('enabled', True)` and `config.get('queries', [])`. */
  datatype CategoryConfig = CategoryConfig(name: string, enabled: bool, queries: seq<string>)

  /** One `search_news` call: for which category and query, with how many requests made before it, and what it did. */
  datatype Search = Search(category: string, query: string, used: int, result: Outcome<seq<Article>>)

  /**
   * The state of the loop: the gathered articles, `requests_made`, the calls
   * issued so far, and the three entries of `FETCH_METRICS` it updates.
   */
  datatype Run = Run(articles: seq<Article>, requests: int, issued: seq<Search>,
                     perCategory: map<string, int>, failed: seq<string>, empty: seq<string>)

  /** The state at the start of a fetch: nothing gathered, no request made, the metrics as left by earlier fetches. */
  function Started(perCategory: map<string, int>, failed: seq<string>, empty: seq<string>): Run {
    Run([], 0, [], perCategory, failed, empty)
  }

  /** `search_news(query=query, language="en", max_results=3)` as the `k`-th call, over that call's transport. */
  function Searcher(http: nat -> GNewsApi.Request -> GNewsApi.Transport, iso: string -> Option<Moment>): (nat, string) -> Outcome<seq<Article>> {
    (k: nat, query: string) => GNewsApi.SearchNews(query, "en", None, 3, [], http(k), iso)
  }

  function Tag(a: Article, category: string, query: string): Article {
    a.(newsletterCategory := Some(category), queryMatched := Some(query))
  }

  /** The returned articles with `newsletter_category` and `query_matched` set. */
  function Tagged(found: seq<Article>, category: string, query: string): seq<Article> {
    seq(|found|, i requires 0 <= i < |found| => Tag(found[i], category, query))
  }

  /** The `f"{category}:{query}"` entries of the failed and empty lists. */
  function QueryLabel(category: string, query: string): string {
    category + ":" + query
  }

  /**
   * One query of the inner loop: the `k`-th call to `search_news`. A call that
   * raises is recorded as failed and costs no request; a call that returns
   * costs one, and its articles are tagged, appended and counted, or the
   * query is recorded as empty.
   */
  function AfterSearch(st: Run, category: string, query: string, search: (nat, string) -> Outcome<seq<Article>>): (r: Run)
    requires category in st.perCategory
    ensures r.perCategory.Keys == st.perCategory.Keys
  {
    var result := search(|st.issued|, query);
    var issued := st.issued + [Search(category, query, st.requests, result)];
    match result
    case Raised(_) =>
      st.(issued := issued, failed := st.failed + [QueryLabel(category, query)])
    case Ok(found) =>
      if found == [] then
        st.(issued := issued, requests := st.requests + 1, empty := st.empty + [QueryLabel(category, query)])
      else
        st.(issued := issued, requests := st.requests + 1, articles := st.articles + Tagged(found, category, query),
            perCategory := st.perCategory[category := st.perCategory[category] + |found|])
  }

  /** The inner loop over one category's queries; it breaks once `requests_made` has reached the limit. */
  function RunQueries(st: Run, category: string, queries: seq<string>, search: (nat, string) -> Outcome<seq<Article>>, limit: int): (r: Run)
    requires category in st.perCategory
    ensures r.perCategory.Keys == st.perCategory.Keys
    decreases |queries|
  {
    if queries == [] || st.requests >= limit then st
    else RunQueries(AfterSearch(st, category, queries[0], search), category, queries[1..], search, limit)
  }

  /**
   * The outer loop over the categories: a disabled one is skipped; an enabled
   * one has its counter set to 0 and its queries run; the loop breaks once the
   * limit has been reached.
   */
  function RunCategories(st: Run, categories: seq<CategoryConfig>, search: (nat, string) -> Outcome<seq<Article>>, limit: int): Run
    decreases |categories|
  {
    if categories == [] then st
    else if !categories[0].enabled then RunCategories(st, categories[1..], search, limit)
    else
      var c := categories[0];
      var st2 := RunQueries(st.(perCategory := st.perCategory[c.name := 0]), c.name, c.queries, search, limit);
      if st2.requests >= limit then st2 else RunCategories(st2, categories[1..], search, limit)
  }

  // ---------------------------------------------------------------- what the loop records

  /** The articles a call contributes: its results, tagged; nothing when it raised. */
  function Contribution(e: Search): seq<Article> {
    if e.result.Ok? then Tagged(e.result.value, e.category, e.query) else []
  }

  /** The `failed_queries` entry of a call that raised. */
  function FailedLabel(e: Search): Option<string> {
    if e.result.Raised? then Some(QueryLabel(e.category, e.query)) else None
  }

  /** The `empty_queries` entry of a call that returned an empty list. */
  function EmptyLabel(e: Search): Option<string> {
    if e.result == Ok([]) then Some(QueryLabel(e.category, e.query)) else None
  }

  /** A call that returned, and so counted against the daily limit. */
  predicate Succeeded(e: Search) {
    e.result.Ok?
  }

  /**
   * From `st0` to `st` the loop only issued calls: each was the `k`-th call to
   * the oracle, made with fewer than `limit` requests used; the articles,
   * the failed and the empty lists grew by what those calls contributed, in
   * call order; `requests_made` grew by the number that returned, and stays
   * within the limit.
   */
  ghost predicate Traced(st0: Run, st: Run, search: (nat, string) -> Outcome<seq<Article>>, limit: int) {
    && |st0.issued| <= |st.issued| && st.issued[..|st0.issued|] == st0.issued
    && (forall k :: |st0.issued| <= k < |st.issued| ==>
          st.issued[k].used < limit && st.issued[k].result == search(k, st.issued[k].query))
    && st.articles == st0.articles + Concat(st.issued[|st0.issued|..], Contribution)
    && st.failed == st0.failed + Choose(st.issued[|st0.issued|..], FailedLabel)
    && st.empty == st0.empty + Choose(st.issued[|st0.issued|..], EmptyLabel)
    && st.requests == st0.requests + |Filter(st.issued[|st0.issued|..], Succeeded)|
    && st.requests <= Max(limit, st0.requests)
  }

  lemma TracedStart(st: Run, search: (nat, string) -> Outcome<seq<Article>>, limit: int)
    ensures Traced(st, st, search, limit)
  {
    assert st.issued[..|st.issued|] == st.issued;
    assert st.issued[|st.issued|..] == [];
  }

  /** Appending one call to a trace appends its contribution to each of the accumulated lists. */
  lemma TraceSnoc(es: seq<Search>, e: Search)
    ensures Concat(es + [e], Contribution) == Concat(es, Contribution) + Contribution(e)
    ensures Choose(es + [e], FailedLabel) == Choose(es, FailedLabel) + (if FailedLabel(e).Some? then [FailedLabel(e).value] else [])
    ensures Choose(es + [e], EmptyLabel) == Choose(es, EmptyLabel) + (if EmptyLabel(e).Some? then [EmptyLabel(e).value] else [])
    ensures Filter(es + [e], Succeeded) == Filter(es, Succeeded) + (if Succeeded(e) then [e] else [])
  {
    assert (es + [e])[..|es|] == es;
  }

  /** Appending to a sequence keeps its prefix and extends its suffix. */
  lemma PrefixExtend(front: seq<Search>, es: seq<Search>, e: Search)
    requires |front| <= |es| && es[..|front|] == front
    ensures (es + [e])[..|front|] == front
    ensures (es + [e])[|front|..] == es[|front|..] + [e]
  {
  }

  /** Every call of the trace from `n` on, one more included, was made below the limit with the search's reply. */
  lemma ExtendCalls(n: nat, es: seq<Search>, e: Search, search: (nat, string) -> Outcome<seq<Article>>, limit: int)
    requires n <= |es|
    requires forall k :: n <= k < |es| ==> es[k].used < limit && es[k].result == search(k, es[k].query)
    requires e.used < limit && e.result == search(|es|, e.query)
    ensures forall k :: n <= k < |es + [e]| ==> (es + [e])[k].used < limit && (es + [e])[k].result == search(k, (es + [e])[k].query)
  {
    forall k | n <= k < |es + [e]|
      ensures (es + [e])[k].used < limit && (es + [e])[k].result == search(k, (es + [e])[k].query)
    {
      if k < |es| {
        assert (es + [e])[k] == es[k];
      }
    }
  }

  lemma Associate<T>(a: seq<T>, b: seq<T>, c: seq<T>)
    ensures a + b + c == a + (b + c)
  {
  }

  /** The call `AfterSearch` records, and how each list and counter grows by it. */
  lemma AfterSearchGrows(st: Run, category: string, query: string, search: (nat, string) -> Outcome<seq<Article>>)
    requires category in st.perCategory
    ensures var r, e := AfterSearch(st, category, query, search), Search(category, query, st.requests, search(|st.issued|, query));
      && r.issued == st.issued + [e]
      && r.articles == st.articles + Contribution(e)
      && r.failed == st.failed + (if FailedLabel(e).Some? then [FailedLabel(e).value] else [])
      && r.empty == st.empty + (if EmptyLabel(e).Some? then [EmptyLabel(e).value] else [])
      && r.requests == st.requests + (if Succeeded(e) then 1 else 0)
  {
    var result := search(|st.issued|, query);
    if result.Ok? && result.value == [] {
      assert Tagged(result.value, category, query) == [];
    }
  }

  /** A trace extended by one call made below the limit is still a trace. */
  lemma TracedExtend(st0: Run, st: Run, r: Run, e: Search, search: (nat, string) -> Outcome<seq<Article>>, limit: int)
    requires Traced(st0, st, search, limit)
    requires e.used == st.requests < limit && e.result == search(|st.issued|, e.query)
    requires r.issued == st.issued + [e]
    requires r.articles == st.articles + Contribution(e)
    requires r.failed == st.failed + (if FailedLabel(e).Some? then [FailedLabel(e).value] else [])
    requires r.empty == st.empty + (if EmptyLabel(e).Some? then [EmptyLabel(e).value] else [])
    requires r.requests == st.requests + (if Succeeded(e) then 1 else 0)
    ensures Traced(st0, r, search, limit)
  {
    var es := st.issued[|st0.issued|..];
    PrefixExtend(st0.issued, st.issued, e);
    TraceSnoc(es, e);
    ExtendCalls(|st0.issued|, st.issued, e, search, limit);
    Associate(st0.articles, Concat(es, Contribution), Contribution(e));
    Associate(st0.failed, Choose(es, FailedLabel), if FailedLabel(e).Some? then [FailedLabel(e).value] else []);
    Associate(st0.empty, Choose(es, EmptyLabel), if EmptyLabel(e).Some? then [EmptyLabel(e).value] else []);
  }

  /** One call below the limit keeps the trace. */
  lemma TracedStep(st0: Run, st: Run, category: string, query: string, search: (nat, string) -> Outcome<seq<Article>>, limit: int)
    requires Traced(st0, st, search, limit) && category in st.perCategory && st.requests < limit
    ensures Traced(st0, AfterSearch(st, category, query, search), search, limit)
  {
    AfterSearchGrows(st, category, query, search);
    TracedExtend(st0, st, AfterSearch(st, category, query, search),
                 Search(category, query, st.requests, search(|st.issued|, query)), search, limit);
  }

  lemma {:induction false} RunQueriesTraced(st0: Run, st: Run, category: string, queries: seq<string>,
                                            search: (nat, string) -> Outcome<seq<Article>>, limit: int)
    requires Traced(st0, st, search, limit) && category in st.perCategory
    ensures Traced(st0, RunQueries(st, category, queries, search, limit), search, limit)
    decreases |queries|
  {
    if queries != [] && st.requests < limit {
      TracedStep(st0, st, category, queries[0], search, limit);
      RunQueriesTraced(st0, AfterSearch(st, category, queries[0], search), category, queries[1..], search, limit);
    }
  }

  lemma {:induction false} RunCategoriesTraced(st0: Run, st: Run, categories: seq<CategoryConfig>,
                                               search: (nat, string) -> Outcome<seq<Article>>, limit: int)
    requires Traced(st0, st, search, limit)
    ensures Traced(st0, RunCategories(st, categories, search, limit), search, limit)
    decreases |categories|
  {
    if categories != [] {
      var c := categories[0];
      if !c.enabled {
        RunCategoriesTraced(st0, st, categories[1..], search, limit);
      } else {
        var st1 := st.(perCategory := st.perCategory[c.name := 0]);
        RunQueriesTraced(st0, st1, c.name, c.queries, search, limit);
        var st2 := RunQueries(st1, c.name, c.queries, search, limit);
        if st2.requests < limit {
          RunCategoriesTraced(st0, st2, categories[1..], search, limit);
        }
      }
    }
  }

  /**
   * A whole fetch: the `k`-th call went to the oracle as call `k`, each with
   * fewer than `limit` requests used, so none was issued once the limit was
   * reached; `requests_made` counts only the calls that returned, and never
   * passes the limit; the articles are the tagged results in call order, and
   * each raising call appends one `failed_queries` entry, each empty result
   * one `empty_queries` entry, after those of earlier fetches.
   */
  lemma FetchTrace(perCategory: map<string, int>, failed: seq<string>, empty: seq<string>, categories: seq<CategoryConfig>,
                   search: (nat, string) -> Outcome<seq<Article>>, limit: int)
    ensures var r := RunCategories(Started(perCategory, failed, empty), categories, search, limit);
      && (forall k :: 0 <= k < |r.issued| ==> r.issued[k].used < limit && r.issued[k].result == search(k, r.issued[k].query))
      && r.articles == Concat(r.issued, Contribution)
      && r.failed == failed + Choose(r.issued, FailedLabel)
      && r.empty == empty + Choose(r.issued, EmptyLabel)
      && r.requests == |Filter(r.issued, Succeeded)| && r.requests <= Max(limit, 0)
  {
    var st0 := Started(perCategory, failed, empty);
    TracedStart(st0, search, limit);
    RunCategoriesTraced(st0, st0, categories, search, limit);
    var r := RunCategories(st0, categories, search, limit);
    assert r.issued[0..] == r.issued;
  }

  /** The articles whose `newsletter_category` is `name`. */
  function TaggedWith(name: string): Article -> bool {
    (a: Article) => a.newsletterCategory == Some(name)
  }

  /** One call: it is recorded last, for the category and query; its tagged articles follow the old ones and its counter grows by their number. */
  lemma SearchEffect(st: Run, category: string, query: string, search: (nat, string) -> Outcome<seq<Article>>)
    requires category in st.perCategory
    ensures var s1 := AfterSearch(st, category, query, search);
      && |s1.issued| == |st.issued| + 1 && s1.issued[..|st.issued|] == st.issued
      && s1.issued[|st.issued|].category == category && s1.issued[|st.issued|].query == query
      && |st.articles| <= |s1.articles| && s1.articles[..|st.articles|] == st.articles
      && (forall i :: |st.articles| <= i < |s1.articles| ==> TaggedWith(category)(s1.articles[i]))
      && s1.perCategory == st.perCategory[category := st.perCategory[category] + (|s1.articles| - |st.articles|)]
  {
    var s1 := AfterSearch(st, category, query, search);
    assert s1.issued[..|st.issued|] == st.issued;
    assert s1.articles[..|st.articles|] == st.articles;
    assert forall i :: |st.articles| <= i < |s1.articles| ==> TaggedWith(category)(s1.articles[i]);
  }

  /**
   * One category's queries: every call is for that category and one of its
   * queries; the new articles, all tagged with it, follow the old ones; and
   * its counter grows by their number, no other counter changing.
   */
  lemma {:induction false} QueriesEffect(st: Run, category: string, queries: seq<string>,
                                         search: (nat, string) -> Outcome<seq<Article>>, limit: int)
    requires category in st.perCategory
    ensures var r := RunQueries(st, category, queries, search, limit);
      && |st.issued| <= |r.issued| && r.issued[..|st.issued|] == st.issued
      && (forall k :: |st.issued| <= k < |r.issued| ==> r.issued[k].category == category && r.issued[k].query in queries)
      && |st.articles| <= |r.articles| && r.articles[..|st.articles|] == st.articles
      && (forall i :: |st.articles| <= i < |r.articles| ==> TaggedWith(category)(r.articles[i]))
      && r.perCategory == st.perCategory[category := st.perCategory[category] + (|r.articles| - |st.articles|)]
    decreases |queries|
  {
    var r := RunQueries(st, category, queries, search, limit);
    if queries == [] || st.requests >= limit {
      assert r == st;
      assert st.perCategory == st.perCategory[category := st.perCategory[category]];
    } else {
      var s1 := AfterSearch(st, category, queries[0], search);
      QueriesEffect(s1, category, queries[1..], search, limit);
      assert r == RunQueries(s1, category, queries[1..], search, limit);
      SearchEffect(st, category, queries[0], search);
      forall k | |st.issued| <= k < |r.issued|
        ensures r.issued[k].category == category && r.issued[k].query in queries
      {
        if k == |st.issued| {
          assert r.issued[k] == s1.issued[k];
        } else {
          assert r.issued[k].query in queries[1..];
        }
      }
      assert r.issued[..|st.issued|] == r.issued[..|s1.issued|][..|st.issued|];
      assert r.articles[..|st.articles|] == r.articles[..|s1.articles|][..|st.articles|];
      forall i | |st.articles| <= i < |r.articles|
        ensures TaggedWith(category)(r.articles[i])
      {
        if i < |s1.articles| {
          assert r.articles[i] == s1.articles[i];
        }
      }
    }
  }

  /**
   * A name that belongs to no enabled category: no call is issued for it,
   * no new article is tagged with it, and its counter is neither added nor
   * changed. So a disabled category is never queried and gets no entry.
   */
  lemma {:induction false} CategoriesUntouched(st: Run, categories: seq<CategoryConfig>, search: (nat, string) -> Outcome<seq<Article>>,
                                               limit: int, name: string)
    requires forall k :: 0 <= k < |categories| && categories[k].enabled ==> categories[k].name != name
    ensures var r := RunCategories(st, categories, search, limit);
      && (name in r.perCategory <==> name in st.perCategory)
      && (name in st.perCategory ==> r.perCategory[name] == st.perCategory[name])
      && |st.issued| <= |r.issued| && r.issued[..|st.issued|] == st.issued
      && (forall k :: |st.issued| <= k < |r.issued| ==> r.issued[k].category != name)
      && |st.articles| <= |r.articles| && r.articles[..|st.articles|] == st.articles
      && (forall i :: |st.articles| <= i < |r.articles| ==> !TaggedWith(name)(r.articles[i]))
    decreases |categories|
  {
    if categories != [] {
      var c := categories[0];
      assert forall k :: 0 <= k < |categories[1..]| ==> categories[1..][k] == categories[k + 1];
      if !c.enabled {
        CategoriesUntouched(st, categories[1..], search, limit, name);
      } else {
        var st1 := st.(perCategory := st.perCategory[c.name := 0]);
        QueriesEffect(st1, c.name, c.queries, search, limit);
        var st2 := RunQueries(st1, c.name, c.queries, search, limit);
        if st2.requests < limit {
          CategoriesUntouched(st2, categories[1..], search, limit, name);
          var r := RunCategories(st2, categories[1..], search, limit);
          assert r.issued[..|st.issued|] == r.issued[..|st2.issued|][..|st.issued|];
          assert r.articles[..|st.articles|] == r.articles[..|st2.articles|][..|st.articles|];
          forall k | |st.issued| <= k < |r.issued|
            ensures r.issued[k].category != name
          {
            if k < |st2.issued| {
              assert r.issued[k] == st2.issued[k];
            }
          }
          forall i | |st.articles| <= i < |r.articles|
            ensures !TaggedWith(name)(r.articles[i])
          {
            if i < |st2.articles| {
              assert r.articles[i] == st2.articles[i];
            }
          }
        }
      }
    }
  }

  /** The call is for an enabled category and one of that category's queries. */
  ghost predicate QueriedFrom(categories: seq<CategoryConfig>, e: Search) {
    exists j :: 0 <= j < |categories| && categories[j].enabled && categories[j].name == e.category && e.query in categories[j].queries
  }

  /** Every call of a fetch is for an enabled category and one of its own queries. */
  lemma {:induction false} CategoriesQueried(st: Run, categories: seq<CategoryConfig>, search: (nat, string) -> Outcome<seq<Article>>,
                                             limit: int)
    ensures var r := RunCategories(st, categories, search, limit);
      && |st.issued| <= |r.issued| && r.issued[..|st.issued|] == st.issued
      && forall k :: |st.issued| <= k < |r.issued| ==> QueriedFrom(categories, r.issued[k])
    decreases |categories|
  {
    if categories != [] {
      var c := categories[0];
      var r := RunCategories(st, categories, search, limit);
      if !c.enabled {
        CategoriesQueried(st, categories[1..], search, limit);
        assert r == RunCategories(st, categories[1..], search, limit);
        forall k | |st.issued| <= k < |r.issued|
          ensures QueriedFrom(categories, r.issued[k])
        {
          var j :| 0 <= j < |categories[1..]| && categories[1..][j].enabled
            && categories[1..][j].name == r.issued[k].category && r.issued[k].query in categories[1..][j].queries;
          assert categories[j + 1] == categories[1..][j];
        }
      } else {
        var st1 := st.(perCategory := st.perCategory[c.name := 0]);
        QueriesEffect(st1, c.name, c.queries, search, limit);
        var st2 := RunQueries(st1, c.name, c.queries, search, limit);
        if st2.requests < limit {
          CategoriesQueried(st2, categories[1..], search, limit);
          assert r.issued[..|st.issued|] == r.issued[..|st2.issued|][..|st.issued|];
        }
        forall k | |st.issued| <= k < |r.issued|
          ensures QueriedFrom(categories, r.issued[k])
        {
          if k < |st2.issued| {
            assert r.issued[k] == st2.issued[k];
            assert categories[0].name == r.issued[k].category;
          } else {
            var j :| 0 <= j < |categories[1..]| && categories[1..][j].enabled
              && categories[1..][j].name == r.issued[k].category && r.issued[k].query in categories[1..][j].queries;
            assert categories[j + 1] == categories[1..][j];
          }
        }
      }
    }
  }

  /** The article is tagged with an enabled category and one of that category's queries. */
  function FromEnabled(categories: seq<CategoryConfig>): Article -> bool {
    (a: Article) =>
      exists j :: 0 <= j < |categories| && categories[j].enabled
        && a.newsletterCategory == Some(categories[j].name) && a.queryMatched.Some? && a.queryMatched.value in categories[j].queries
  }

  /** Every article a fetch gathers is tagged with the enabled category and the query that found it. */
  lemma FetchTagged(perCategory: map<string, int>, failed: seq<string>, empty: seq<string>, categories: seq<CategoryConfig>,
                    search: (nat, string) -> Outcome<seq<Article>>, limit: int)
    ensures var r := RunCategories(Started(perCategory, failed, empty), categories, search, limit);
      forall i :: 0 <= i < |r.articles| ==> FromEnabled(categories)(r.articles[i])
  {
    var st := Started(perCategory, failed, empty);
    var r := RunCategories(st, categories, search, limit);
    FetchTrace(perCategory, failed, empty, categories, search, limit);
    CategoriesQueried(st, categories, search, limit);
    forall k, i | 0 <= k < |r.issued| && 0 <= i < |Contribution(r.issued[k])|
      ensures FromEnabled(categories)(Contribution(r.issued[k])[i])
    {
      assert QueriedFrom(categories, r.issued[k]);
      var j :| 0 <= j < |categories| && categories[j].enabled && categories[j].name == r.issued[k].category
        && r.issued[k].query in categories[j].queries;
      assert Contribution(r.issued[k])[i] == Tag(r.issued[k].result.value[i], r.issued[k].category, r.issued[k].query);
    }
    ConcatAll(r.issued, Contribution, FromEnabled(categories));
  }

  /** Every article a fetch gathers holds the `datetime` or `None` that `search_news` parsed. */
  lemma FetchDates(perCategory: map<string, int>, failed: seq<string>, empty: seq<string>, categories: seq<CategoryConfig>,
                   http: nat -> GNewsApi.Request -> GNewsApi.Transport, iso: string -> Option<Moment>, limit: int)
    ensures var r := RunCategories(Started(perCategory, failed, empty), categories, Searcher(http, iso), limit);
      forall i :: 0 <= i < |r.articles| ==> !r.articles[i].publishedAt.Text?
  {
    var search := Searcher(http, iso);
    var r := RunCategories(Started(perCategory, failed, empty), categories, search, limit);
    FetchTrace(perCategory, failed, empty, categories, search, limit);
    forall k, i | 0 <= k < |r.issued| && 0 <= i < |Contribution(r.issued[k])|
      ensures NotText(Contribution(r.issued[k])[i])
    {
      var e := r.issued[k];
      assert e.result == GNewsApi.SearchNews(e.query, "en", None, 3, [], http(k), iso);
      GNewsApi.SearchNewsDates(e.query, "en", None, 3, [], http(k), iso);
      assert Contribution(e)[i] == Tag(e.result.value[i], e.category, e.query);
    }
    ConcatAll(r.issued, Contribution, NotText);
  }

  /** An article whose date is not a string. */
  function NotText(a: Article): bool {
    !a.publishedAt.Text?
  }

  /**
   * So, as written, `fetch_articles_by_category` labels every article it
   * returns 'Unknown', whatever its date.
   */
  lemma FetchedAgesUnknown(perCategory: map<string, int>, failed: seq<string>, empty: seq<string>, categories: seq<CategoryConfig>,
                           http: nat -> GNewsApi.Request -> GNewsApi.Transport, iso: string -> Option<Moment>, limit: int,
                           clock: nat -> int)
    ensures var r := RunCategories(Started(perCategory, failed, empty), categories, Searcher(http, iso), limit);
      forall i :: 0 <= i < |r.articles| ==> Aged(r.articles, iso, clock)[i].ageCategory == Some("Unknown")
  {
    var r := RunCategories(Started(perCategory, failed, empty), categories, Searcher(http, iso), limit);
    FetchDates(perCategory, failed, empty, categories, http, iso, limit);
    forall i | 0 <= i < |r.articles|
      ensures Aged(r.articles, iso, clock)[i].ageCategory == Some("Unknown")
    {
      assert Aged(r.articles, iso, clock)[i] == WithAge(r.articles[i], clock(i), iso);
      AgeAsWrittenIgnoresDatetimes(r.articles[i].publishedAt, clock(i), iso);
    }
  }

  /** How many of the articles carry the category `name`. */
  function TaggedCount(articles: seq<Article>, name: string): nat {
    |Filter(articles, TaggedWith(name))|
  }

  /** The category names, as dict keys, are pairwise different. */
  predicate DistinctNames(categories: seq<CategoryConfig>) {
    forall i, j :: 0 <= i < j < |categories| ==> categories[i].name != categories[j].name
  }

  /** One enabled category: its counter ends as the number of articles it tagged, and only its counter changes. */
  lemma VisitCount(st: Run, c: CategoryConfig, search: (nat, string) -> Outcome<seq<Article>>, limit: int, name: string)
    ensures var r := RunQueries(st.(perCategory := st.perCategory[c.name := 0]), c.name, c.queries, search, limit);
      |st.articles| <= |r.articles| && r.articles[..|st.articles|] == st.articles
    ensures var r := RunQueries(st.(perCategory := st.perCategory[c.name := 0]), c.name, c.queries, search, limit);
      var x := r.articles[|st.articles|..];
      && (name == c.name ==> name in r.perCategory && r.perCategory[name] == TaggedCount(x, name))
      && (name != c.name ==> (TaggedCount(x, name) == 0 && (name in r.perCategory <==> name in st.perCategory)
            && (name in st.perCategory ==> r.perCategory[name] == st.perCategory[name])))
  {
    var st1 := st.(perCategory := st.perCategory[c.name := 0]);
    QueriesEffect(st1, c.name, c.queries, search, limit);
    var r := RunQueries(st1, c.name, c.queries, search, limit);
    var x := r.articles[|st.articles|..];
    assert forall i :: 0 <= i < |x| ==> x[i] == r.articles[|st.articles| + i];
    if name == c.name {
      FilterAll(x, TaggedWith(name));
    } else {
      FilterNone(x, TaggedWith(name));
    }
  }

  /** The part of `c` after `a` is the part of `b` after `a`, then the part of `c` after `b`, when each extends the one before. */
  lemma SliceSplit<T>(a: seq<T>, b: seq<T>, c: seq<T>)
    requires |a| <= |b| <= |c| && b[..|a|] == a && c[..|b|] == b
    ensures c[|a|..] == b[|a|..] + c[|b|..]
  {
    forall i | 0 <= i < |c| - |a|
      ensures c[|a|..][i] == (b[|a|..] + c[|b|..])[i]
    {
      if |a| + i < |b| {
        assert c[|a| + i] == c[..|b|][|a| + i];
      }
    }
  }

  /**
   * Every counter after a fetch is either the number of articles the fetch
   * tagged with that category, or one left from an earlier fetch, for a
   * category this fetch did not reach and tagged nothing with.
   */
  lemma {:induction false} CategoriesCount(st: Run, categories: seq<CategoryConfig>, search: (nat, string) -> Outcome<seq<Article>>,
                                           limit: int, name: string)
    requires DistinctNames(categories)
    ensures var r := RunCategories(st, categories, search, limit);
      && |st.articles| <= |r.articles|
      && (name in r.perCategory ==>
            r.perCategory[name] == TaggedCount(r.articles[|st.articles|..], name)
            || (name in st.perCategory && r.perCategory[name] == st.perCategory[name]
                && TaggedCount(r.articles[|st.articles|..], name) == 0))
    decreases |categories|
  {
    if categories == [] {
      assert st.articles[|st.articles|..] == [];
    } else if !categories[0].enabled {
      assert DistinctNames(categories[1..]) by {
        assert forall k :: 0 <= k < |categories[1..]| ==> categories[1..][k] == categories[k + 1];
      }
      CategoriesCount(st, categories[1..], search, limit, name);
    } else {
      EnabledCount(st, categories, search, limit, name);
    }
  }

  /** `CategoriesCount` when the first category is enabled. */
  lemma {:induction false} EnabledCount(st: Run, categories: seq<CategoryConfig>, search: (nat, string) -> Outcome<seq<Article>>,
                                        limit: int, name: string)
    requires DistinctNames(categories) && categories != [] && categories[0].enabled
    ensures var r := RunCategories(st, categories, search, limit);
      && |st.articles| <= |r.articles|
      && (name in r.perCategory ==>
            r.perCategory[name] == TaggedCount(r.articles[|st.articles|..], name)
            || (name in st.perCategory && r.perCategory[name] == st.perCategory[name]
                && TaggedCount(r.articles[|st.articles|..], name) == 0))
    decreases |categories|, 0
  {
    var c := categories[0];
    var rest := categories[1..];
    VisitCount(st, c, search, limit, name);
    var st2 := RunQueries(st.(perCategory := st.perCategory[c.name := 0]), c.name, c.queries, search, limit);
    var x := st2.articles[|st.articles|..];
    if st2.requests < limit {
      assert forall k :: 0 <= k < |rest| ==> rest[k] == categories[k + 1];
      CategoriesCount(st2, rest, search, limit, name);
      CategoriesUntouched(st2, rest, search, limit, c.name);
      var r := RunCategories(st2, rest, search, limit);
      CountCombine(st.articles, st2.articles, r.articles, st.perCategory, st2.perCategory, r.perCategory, name, c.name);
    }
  }

  /**
   * The counters after one enabled category and then the rest, from the
   * counters after each part: articles `a`, then `b`, then `c`, each a
   * prefix of the next, with the counter maps `m0`, `m2`, `m`.
   */
  lemma CountCombine(a: seq<Article>, b: seq<Article>, c: seq<Article>,
                     m0: map<string, int>, m2: map<string, int>, m: map<string, int>, name: string, cname: string)
    requires |a| <= |b| && b[..|a|] == a
    requires |b| <= |c| && c[..|b|] == b
    requires name == cname ==> name in m2 && m2[name] == TaggedCount(b[|a|..], name)
    requires name != cname ==> TaggedCount(b[|a|..], name) == 0 && (name in m2 <==> name in m0)
                               && (name in m0 ==> m2[name] == m0[name])
    requires name in m ==> m[name] == TaggedCount(c[|b|..], name)
                           || (name in m2 && m[name] == m2[name] && TaggedCount(c[|b|..], name) == 0)
    requires name == cname ==> forall i :: |b| <= i < |c| ==> !TaggedWith(name)(c[i])
    requires name == cname ==> name in m && m[name] == m2[name]
    ensures |a| <= |c|
    ensures name in m ==> m[name] == TaggedCount(c[|a|..], name)
                          || (name in m0 && m[name] == m0[name] && TaggedCount(c[|a|..], name) == 0)
  {
    var x, y := b[|a|..], c[|b|..];
    SliceSplit(a, b, c);
    FilterAppend(x, y, TaggedWith(name));
    if name == cname {
      forall i | 0 <= i < |y|
        ensures !TaggedWith(name)(y[i])
      {
        assert y[i] == c[|b| + i];
      }
      FilterNone(y, TaggedWith(name));
    }
  }

  /**
   * For one fetch from the start state: a counter the fetch set equals the
   * number of returned articles tagged with its category; a disabled
   * category (its name unique) is never queried, tags nothing, and its
   * counter is left as earlier fetches left it, absent if they never set it.
   */
  lemma FetchCounts(perCategory: map<string, int>, failed: seq<string>, empty: seq<string>, categories: seq<CategoryConfig>,
                    search: (nat, string) -> Outcome<seq<Article>>, limit: int, k: int)
    requires DistinctNames(categories) && 0 <= k < |categories|
    ensures var r := RunCategories(Started(perCategory, failed, empty), categories, search, limit);
      var name := categories[k].name;
      && (name in r.perCategory ==>
            r.perCategory[name] == TaggedCount(r.articles, name)
            || (name in perCategory && r.perCategory[name] == perCategory[name] && TaggedCount(r.articles, name) == 0))
      && (!categories[k].enabled ==>
            (name in r.perCategory <==> name in perCategory)
            && (name in perCategory ==> r.perCategory[name] == perCategory[name])
            && TaggedCount(r.articles, name) == 0
            && forall t :: 0 <= t < |r.issued| ==> r.issued[t].category != name)
  {
    var st := Started(perCategory, failed, empty);
    var r := RunCategories(st, categories, search, limit);
    var name := categories[k].name;
    CategoriesCount(st, categories, search, limit, name);
    assert r.articles[0..] == r.articles;
    if !categories[k].enabled {
      CategoriesUntouched(st, categories, search, limit, name);
      FilterNone(r.articles, TaggedWith(name));
    }
  }

  /** The global `FETCH_METRICS` dict, never reset between fetches. */
  class FetchMetrics {
    var startTime: Option<int>
    var processingTime: int
    var totalArticles: int
    var articlesPerCategory: map<string, int>
    var failedQueries: seq<string>
    var emptyQueries: seq<string>

    /** The values at import time. */
    constructor ()
      ensures startTime == None && processingTime == 0 && totalArticles == 0
      ensures articlesPerCategory == map[] && failedQueries == [] && emptyQueries == []
    {
      startTime := None;
      processingTime := 0;
      totalArticles := 0;
      articlesPerCategory := map[];
      failedQueries := [];
      emptyQueries := [];
    }
  }

  /** The statistics `fetch_articles_from_all_feeds` returns beside the articles. */
  datatype FetchStats = FetchStats(totalArticles: int, processingTime: int, articlesPerCategory: map<string, int>,
                                   failedQueries: seq<string>, emptyQueries: seq<string>)

  /**
   * `fetch_articles_by_category()`: without an API key the client cannot be
   * built and the fetch returns `[]` before touching the metrics; otherwise
   * the loops run as `RunCategories` says and each gathered article is given
   * its age.
   */
  method FetchArticlesByCategory(metrics: FetchMetrics, apiKey: Option<string>, categories: seq<CategoryConfig>, dailyLimit: int,
                                 http: nat -> GNewsApi.Request -> GNewsApi.Transport, iso: string -> Option<Moment>,
                                 clock: nat -> int)
    returns (articles: seq<Article>)
    modifies metrics
    ensures GNewsApi.CheckApiKey(apiKey).Raised? ==>
      articles == [] && metrics.articlesPerCategory == old(metrics.articlesPerCategory)
      && metrics.failedQueries == old(metrics.failedQueries) && metrics.emptyQueries == old(metrics.emptyQueries)
    ensures GNewsApi.CheckApiKey(apiKey).Ok? ==>
      var run := RunCategories(Started(old(metrics.articlesPerCategory), old(metrics.failedQueries), old(metrics.emptyQueries)),
                               categories, Searcher(http, iso), dailyLimit);
      articles == Aged(run.articles, iso, clock) && metrics.articlesPerCategory == run.perCategory
      && metrics.failedQueries == run.failed && metrics.emptyQueries == run.empty
    ensures metrics.startTime == old(metrics.startTime) && metrics.processingTime == old(metrics.processingTime)
      && metrics.totalArticles == old(metrics.totalArticles)
  {
    if GNewsApi.CheckApiKey(apiKey).Raised? {
      return [];
    }
    var allArticles := GatherArticles(metrics, categories, dailyLimit, Searcher(http, iso));
    if allArticles == [] {
      return [];
    }
    articles := AssignAges(allArticles, iso, clock);
  }

  /** The two loops of `fetch_articles_by_category`, over the categories and their queries. */
  method GatherArticles(metrics: FetchMetrics, categories: seq<CategoryConfig>, dailyLimit: int,
                        search: (nat, string) -> Outcome<seq<Article>>)
    returns (allArticles: seq<Article>)
    modifies metrics
    ensures var run := RunCategories(Started(old(metrics.articlesPerCategory), old(metrics.failedQueries), old(metrics.emptyQueries)),
                                     categories, search, dailyLimit);
      allArticles == run.articles && metrics.articlesPerCategory == run.perCategory
      && metrics.failedQueries == run.failed && metrics.emptyQueries == run.empty
    ensures metrics.startTime == old(metrics.startTime) && metrics.processingTime == old(metrics.processingTime)
      && metrics.totalArticles == old(metrics.totalArticles)
  {
    allArticles := [];
    var requestsMade := 0;
    var calls: nat := 0;
    ghost var issued: seq<Search> := [];
    ghost var goal := RunCategories(Started(metrics.articlesPerCategory, metrics.failedQueries, metrics.emptyQueries),
                                    categories, search, dailyLimit);
    var i := 0;
    while i < |categories|
      invariant 0 <= i <= |categories| && calls == |issued|
      invariant RunCategories(Run(allArticles, requestsMade, issued, metrics.articlesPerCategory, metrics.failedQueries, metrics.emptyQueries),
                              categories[i..], search, dailyLimit) == goal
      invariant metrics.startTime == old(metrics.startTime) && metrics.processingTime == old(metrics.processingTime)
      invariant metrics.totalArticles == old(metrics.totalArticles)
    {
      var config := categories[i];
      assert categories[i..][0] == config && categories[i..][1..] == categories[i + 1..];
      if !config.enabled {
        i := i + 1;
        continue;
      }
      metrics.articlesPerCategory := metrics.articlesPerCategory[config.name := 0];
      ghost var start := Run(allArticles, requestsMade, issued, metrics.articlesPerCategory, metrics.failedQueries, metrics.emptyQueries);
      allArticles, requestsMade, calls, issued := QueryCategory(metrics, config.name, config.queries, dailyLimit, search,
                                                                allArticles, requestsMade, calls, issued);
      ghost var after := Run(allArticles, requestsMade, issued, metrics.articlesPerCategory, metrics.failedQueries, metrics.emptyQueries);
      assert after == RunQueries(start, config.name, config.queries, search, dailyLimit);
      if requestsMade >= dailyLimit {
        assert after == goal;
        break;
      }
      i := i + 1;
    }
    assert Run(allArticles, requestsMade, issued, metrics.articlesPerCategory, metrics.failedQueries, metrics.emptyQueries) == goal;
  }

  /** The inner loop of `fetch_articles_by_category`, over one category's queries. */
  method QueryCategory(metrics: FetchMetrics, category: string, queries: seq<string>, dailyLimit: int,
                       search: (nat, string) -> Outcome<seq<Article>>,
                       articles0: seq<Article>, requests0: int, calls0: nat, ghost issued0: seq<Search>)
    returns (allArticles: seq<Article>, requestsMade: int, calls: nat, ghost issued: seq<Search>)
    requires category in metrics.articlesPerCategory && calls0 == |issued0|
    modifies metrics
    ensures calls == |issued|
    ensures Run(allArticles, requestsMade, issued, metrics.articlesPerCategory, metrics.failedQueries, metrics.emptyQueries)
      == RunQueries(Run(articles0, requests0, issued0, old(metrics.articlesPerCategory), old(metrics.failedQueries),
                        old(metrics.emptyQueries)), category, queries, search, dailyLimit)
    ensures metrics.startTime == old(metrics.startTime) && metrics.processingTime == old(metrics.processingTime)
      && metrics.totalArticles == old(metrics.totalArticles)
  {
    allArticles, requestsMade, calls, issued := articles0, requests0, calls0, issued0;
    ghost var start := Run(allArticles, requestsMade, issued, metrics.articlesPerCategory, metrics.failedQueries, metrics.emptyQueries);
    var j := 0;
    while j < |queries|
      invariant 0 <= j <= |queries| && calls == |issued|
      invariant category in metrics.articlesPerCategory
      invariant RunQueries(Run(allArticles, requestsMade, issued, metrics.articlesPerCategory, metrics.failedQueries, metrics.emptyQueries),
                           category, queries[j..], search, dailyLimit)
             == RunQueries(start, category, queries, search, dailyLimit)
      invariant metrics.startTime == old(metrics.startTime) && metrics.processingTime == old(metrics.processingTime)
      invariant metrics.totalArticles == old(metrics.totalArticles)
    {
      if requestsMade >= dailyLimit {
        break;
      }
      var query := queries[j];
      ghost var before := Run(allArticles, requestsMade, issued, metrics.articlesPerCategory, metrics.failedQueries, metrics.emptyQueries);
      var result := search(calls, query);
      issued := issued + [Search(category, query, requestsMade, result)];
      calls := calls + 1;
      match result {
        case Raised(_) =>
          metrics.failedQueries := metrics.failedQueries + [QueryLabel(category, query)];
        case Ok(found) =>
          requestsMade := requestsMade + 1;
          if found != [] {
            allArticles := allArticles + Tagged(found, category, query);
            metrics.articlesPerCategory := metrics.articlesPerCategory[category := metrics.articlesPerCategory[category] + |found|];
          } else {
            metrics.emptyQueries := metrics.emptyQueries + [QueryLabel(category, query)];
          }
      }
      assert Run(allArticles, requestsMade, issued, metrics.articlesPerCategory, metrics.failedQueries, metrics.emptyQueries)
          == AfterSearch(before, category, query, search);
      RunQueriesStep(before, category, queries[j..], search, dailyLimit);
      assert queries[j..][1..] == queries[j + 1..];
      j := j + 1;
    }
  }

  /** Below the limit, the loop makes the first call and goes on with the other queries. */
  lemma RunQueriesStep(st: Run, category: string, queries: seq<string>, search: (nat, string) -> Outcome<seq<Article>>, limit: int)
    requires category in st.perCategory && queries != [] && st.requests < limit
    ensures RunQueries(st, category, queries, search, limit)
         == RunQueries(AfterSearch(st, category, queries[0], search), category, queries[1..], search, limit)
  {
  }

  /** The `age_category` loop, setting each article's field in place. */
  method AssignAges(allArticles: seq<Article>, iso: string -> Option<Moment>, clock: nat -> int) returns (articles: seq<Article>)
    ensures articles == Aged(allArticles, iso, clock)
  {
    articles := allArticles;
    for k := 0 to |articles|
      invariant |articles| == |allArticles|
      invariant forall t :: 0 <= t < k ==> articles[t] == WithAge(allArticles[t], clock(t), iso)
      invariant forall t :: k <= t < |articles| ==> articles[t] == allArticles[t]
    {
      articles := articles[k := WithAge(articles[k], clock(k), iso)];
    }
  }

  /**
   * `fetch_articles_from_all_feeds()`: the fetch between two clock readings,
   * then `processing_time` and `total_articles` in the metrics and the
   * statistics. The category fetch catches everything itself, so its
   * `except` branch is never taken.
   */
  method FetchArticlesFromAllFeeds(metrics: FetchMetrics, maxArticlesPerSource: int, apiKey: Option<string>,
                                   categories: seq<CategoryConfig>, dailyLimit: int,
                                   http: nat -> GNewsApi.Request -> GNewsApi.Transport, iso: string -> Option<Moment>,
                                   clock: nat -> int, startTime: int, endTime: int)
    returns (articles: seq<Article>, stats: FetchStats)
    modifies metrics
    ensures GNewsApi.CheckApiKey(apiKey).Raised? ==>
      articles == [] && metrics.articlesPerCategory == old(metrics.articlesPerCategory)
      && metrics.failedQueries == old(metrics.failedQueries) && metrics.emptyQueries == old(metrics.emptyQueries)
    ensures GNewsApi.CheckApiKey(apiKey).Ok? ==>
      var run := RunCategories(Started(old(metrics.articlesPerCategory), old(metrics.failedQueries), old(metrics.emptyQueries)),
                               categories, Searcher(http, iso), dailyLimit);
      articles == Aged(run.articles, iso, clock) && metrics.articlesPerCategory == run.perCategory
      && metrics.failedQueries == run.failed && metrics.emptyQueries == run.empty
    ensures metrics.startTime == Some(startTime) && metrics.processingTime == endTime - startTime
      && metrics.totalArticles == |articles|
    ensures stats == FetchStats(|articles|, endTime - startTime, metrics.articlesPerCategory,
                                metrics.failedQueries, metrics.emptyQueries)
  {
    metrics.startTime := Some(startTime);
    articles := FetchArticlesByCategory(metrics, apiKey, categories, dailyLimit, http, iso, clock);
    var processingTime := endTime - startTime;
    metrics.processingTime := processingTime;
    metrics.totalArticles := |articles|;
    stats := FetchStats(|articles|, processingTime, metrics.articlesPerCategory, metrics.failedQueries, metrics.emptyQueries);
  }
}
