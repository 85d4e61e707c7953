/**
 * The `gnews`-library client (`feeds/gnews_client.py`): the test for a major
 * international story, and the merge of the top headlines with the major
 * stories of the day — drop repeated or missing urls, sort newest first by the
 * parsed `published_at`, cap at `max_results`. The two library calls are their
 * outcomes, the country names are a parameter `countries` and
 * `dateutil.parser.parse` is a parameter `parse` (`None` for a string it
 * rejects).
 */
module GNewsClient {
  import opened Wrappers
  import opened PyText
  import opened Records
  import opened Selection
  import opened Ordering
  import Categorization

  /** `self.major_keywords`, as written (mixed case). */
  const MajorKeywords: seq<string> := [
    "global crisis", "world summit", "international conflict", "global economy",
    "climate change", "pandemic", "worldwide", "international agreement",
    "global market", "United Nations", "NATO", "WHO", "global impact"]

  /** The keywords as the test uses them, each lower-cased. */
  function Lowered(keys: seq<string>): (r: seq<string>)
    ensures |r| == |keys|
    ensures forall i :: 0 <= i < |keys| ==> r[i] == Lower(keys[i])
  {
    if keys == [] then [] else [Lower(keys[0])] + Lowered(keys[1..])
  }

  /** Whether a country name, lower-cased, occurs in the text. */
  function MentionedIn(content: string): string -> bool {
    (c: string) => Contains(content, Lower(c))
  }

  /**
   * The test of `is_major_story` on the lower-cased "title description"
   * `content`: a keyword, lower-cased, occurs in it, or at least two countries
   * of the list are mentioned there.
   */
  predicate MajorIn(content: string, keywords: seq<string>, countries: seq<string>) {
    AnyIn(content, Lowered(keywords)) || |Filter(countries, MentionedIn(content))| >= 2
  }

  /** The client's state that `fetch_news` reads: `self.gnews.max_results` and `self.major_keywords`. */
  datatype Client = Client(maxResults: int, majorKeywords: seq<string>)

  /** `GNewsAPI(max_results=...)`: the constructor fixes the keyword list. */
  function NewClient(maxResults: int): Client {
    Client(maxResults, MajorKeywords)
  }

  /** `self.is_major_story(article)`. */
  predicate IsMajorStory(client: Client, a: Article, countries: seq<string>) {
    MajorIn(Categorization.CombinedText(a), client.majorKeywords, countries)
  }

  /** The keyword half of the test: some keyword, lower-cased, occurs in the text. */
  lemma KeywordMeans(content: string, keywords: seq<string>)
    ensures AnyIn(content, Lowered(keywords)) <==> exists k :: 0 <= k < |keywords| && Contains(content, Lower(keywords[k]))
  {
  }

  /** The country half: at least two mentions iff two different entries of the list occur in the text. */
  lemma CountriesMeans(content: string, countries: seq<string>)
    ensures |Filter(countries, MentionedIn(content))| >= 2 <==>
      exists i, j :: 0 <= i < j < |countries| && Contains(content, Lower(countries[i])) && Contains(content, Lower(countries[j]))
  {
    FilterTwo(countries, MentionedIn(content));
  }

  /** Lower-cased, `'WHO'` is `'who'`: the plain question "Who won" reads as a major story. */
  lemma WhoIsMajor(maxResults: int)
    ensures IsMajorStory(NewClient(maxResults), Basic("Who won", "", ""), [])
  {
    var a := Basic("Who won", "", "");
    assert Lower("Who won") == "who won";
    assert Categorization.CombinedText(a) == "who won ";
    assert Lower(MajorKeywords[11]) == "who";
    assert StartsWith("who won ", "who");
    KeywordMeans("who won ", MajorKeywords);
  }

  // ---------------------------------------------------------------- the merge

  /** `url in seen_urls`, where `seen_urls` holds the urls kept so far. */
  predicate UrlKept(kept: seq<Article>, url: string) {
    exists i :: 0 <= i < |kept| && kept[i].url == Some(url)
  }

  lemma UrlKeptAppend(kept: seq<Article>, a: Article, url: string)
    ensures UrlKept(kept + [a], url) <==> UrlKept(kept, url) || a.url == Some(url)
  {
    if UrlKept(kept + [a], url) {
      var i :| 0 <= i < |kept| + 1 && (kept + [a])[i].url == Some(url);
      if i < |kept| {
        assert (kept + [a])[i] == kept[i];
      }
    }
    if UrlKept(kept, url) {
      var i :| 0 <= i < |kept| && kept[i].url == Some(url);
      assert (kept + [a])[i] == kept[i];
    }
    if a.url == Some(url) {
      assert (kept + [a])[|kept|] == a;
    }
  }

  /** The merge loop's test: `url and url not in seen_urls`. */
  function MergeAdmits(): (seq<Article>, Article) -> bool {
    (kept: seq<Article>, a: Article) => TruthyText(a.url) && !UrlKept(kept, a.url.value)
  }

  /** The international stories that pass `is_major_story`. */
  function MajorOnly(client: Client, countries: seq<string>): Article -> bool {
    (a: Article) => IsMajorStory(client, a, countries)
  }

  /** `major_international`: the international stories that pass `is_major_story`, in order. */
  function Majors(client: Client, international: seq<Article>, countries: seq<string>): seq<Article> {
    if international == [] then []
    else
      var last := international[|international| - 1];
      Majors(client, international[..|international| - 1], countries) + (if IsMajorStory(client, last, countries) then [last] else [])
  }

  /** `Majors` is the comprehension `[a for a in international if self.is_major_story(a)]`. */
  lemma {:induction false} MajorsIsFilter(client: Client, international: seq<Article>, countries: seq<string>)
    ensures Majors(client, international, countries) == Filter(international, MajorOnly(client, countries))
  {
    if international != [] {
      MajorsIsFilter(client, international[..|international| - 1], countries);
    }
  }

  /** `all_articles` after the loop over `top_headlines + major_international`. */
  function Merged(top: seq<Article>, majors: seq<Article>): seq<Article> {
    KeepFirst(top + majors, MergeAdmits())
  }

  /** `s[i]` has a truthy url that no earlier item of `s` has. */
  predicate FirstWithUrl(s: seq<Article>, i: int)
    requires 0 <= i < |s|
  {
    TruthyText(s[i].url) && forall j :: 0 <= j < i ==> s[j].url != s[i].url
  }

  /**
   * The merge keeps exactly the first item of each truthy url, in order: a url
   * is kept iff some item has it, and an item is kept iff it is the first with
   * its url.
   */
  lemma {:induction false} KeptFirsts(s: seq<Article>)
    ensures forall u :: UrlKept(KeepFirst(s, MergeAdmits()), u) <==> u != "" && exists i :: 0 <= i < |s| && s[i].url == Some(u)
    ensures forall i :: 0 <= i < |s| && FirstWithUrl(s, i) ==> s[i] in KeepFirst(s, MergeAdmits())
    ensures forall x :: x in KeepFirst(s, MergeAdmits()) ==> exists i :: 0 <= i < |s| && s[i] == x && FirstWithUrl(s, i)
  {
    if s != [] {
      var init, last := s[..|s| - 1], s[|s| - 1];
      KeptFirsts(init);
      var k0 := KeepFirst(init, MergeAdmits());
      var k := KeepFirst(s, MergeAdmits());
      assert k == if MergeAdmits()(k0, last) then k0 + [last] else k0;
      forall u
        ensures UrlKept(k, u) <==> u != "" && exists i :: 0 <= i < |s| && s[i].url == Some(u)
      {
        UrlKeptAppend(k0, last, u);
        if exists i :: 0 <= i < |init| && init[i].url == Some(u) {
          var i :| 0 <= i < |init| && init[i].url == Some(u);
          assert s[i] == init[i];
        }
        if exists i :: 0 <= i < |s| && s[i].url == Some(u) {
          var i :| 0 <= i < |s| && s[i].url == Some(u);
          if i < |init| {
            assert init[i] == s[i];
          }
        }
      }
      forall i | 0 <= i < |s| && FirstWithUrl(s, i)
        ensures s[i] in k
      {
        if i < |init| {
          assert init[i] == s[i];
          assert forall j :: 0 <= j < i ==> init[j] == s[j];
          assert FirstWithUrl(init, i);
        } else {
          forall j | 0 <= j < |init|
            ensures init[j].url != Some(last.url.value)
          {
            assert init[j] == s[j];
          }
          assert !UrlKept(k0, last.url.value);
        }
      }
      forall x | x in k
        ensures exists i :: 0 <= i < |s| && s[i] == x && FirstWithUrl(s, i)
      {
        if x in k0 {
          var i :| 0 <= i < |init| && init[i] == x && FirstWithUrl(init, i);
          assert s[i] == x;
          assert forall j :: 0 <= j < i ==> init[j] == s[j];
        } else {
          assert x == last && MergeAdmits()(k0, last);
          forall j | 0 <= j < |s| - 1
            ensures s[j].url != last.url
          {
            assert init[j] == s[j];
          }
          assert FirstWithUrl(s, |s| - 1);
        }
      }
    }
  }

  /** Every article has a truthy url, and no two share one. */
  predicate DistinctUrls(s: seq<Article>) {
    (forall i :: 0 <= i < |s| ==> TruthyText(s[i].url))
    && forall i, j :: 0 <= i < j < |s| ==> s[i].url != s[j].url
  }

  /** The kept articles have truthy, pairwise different urls. */
  lemma MergedDistinct(s: seq<Article>)
    ensures DistinctUrls(KeepFirst(s, MergeAdmits()))
  {
    var k := KeepFirst(s, MergeAdmits());
    KeepFirstAdmitted(s, MergeAdmits());
    forall i | 0 <= i < |k|
      ensures TruthyText(k[i].url)
    {
      assert MergeAdmits()(k[..i], k[i]);
    }
    forall i, j | 0 <= i < j < |k|
      ensures k[i].url != k[j].url
    {
      assert MergeAdmits()(k[..j], k[j]);
      assert k[..j][i] == k[i];
    }
  }

  // ---------------------------------------------------------------- the sort

  function DateKeyOf(m: Moment): DateKey {
    match m
    case Naive(w) => KNaive(w)
    case Aware(u) => KAware(u)
  }

  /**
   * The sort key `dateutil_parser.parse(x.get('published_at', ''))`: a string
   * (a missing key reads as `''`) goes to the parser, which raises a
   * `ValueError` for a string it rejects; `None` or a `datetime` is not a
   * string and raises `TypeError`.
   */
  function PublishedKey(a: Article, parse: string -> Option<Moment>): (r: Outcome<Moment>)
    ensures a.publishedAt.NoneValue? || a.publishedAt.Time? ==> r == Raised(TypeError)
    ensures r.Ok? ==> parse(TextOf(a.publishedAt)) == Some(r.value)
  {
    match a.publishedAt
    case NoneValue => Raised(TypeError)
    case Time(_) => Raised(TypeError)
    case Absent => (match parse("") case Some(m) => Ok(m) case None => Raised(ValueError))
    case Text(t) => (match parse(t) case Some(m) => Ok(m) case None => Raised(ValueError))
  }

  /** The string the key function hands to the parser. */
  function TextOf(w: When): string {
    if w.Text? then w.text else ""
  }

  /** The sort computes every key, in list order, before comparing: the first key that raises ends it. */
  function FirstKeyError(s: seq<Article>, parse: string -> Option<Moment>): (r: Option<PyError>)
    ensures r.None? <==> forall i :: 0 <= i < |s| ==> PublishedKey(s[i], parse).Ok?
  {
    if s == [] then None
    else if PublishedKey(s[0], parse).Raised? then Some(PublishedKey(s[0], parse).error)
    else
      var r := FirstKeyError(s[1..], parse);
      assert forall i :: 1 <= i < |s| ==> s[i] == s[1..][i - 1];
      r
  }

  /** The key as `SortDesc` compares it; only consulted once every key parsed. */
  function MergeSortKey(parse: string -> Option<Moment>): Article -> SortKey {
    (a: Article) => SortKey(0, match PublishedKey(a, parse) case Ok(m) => DateKeyOf(m) case Raised(_) => KNone)
  }

  /**
   * The sort and the cap of `fetch_news` over the merged list: a key that
   * raises, or a naive and an aware `datetime` compared, ends the sort.
   */
  function SortedCapped(merged: seq<Article>, parse: string -> Option<Moment>, max: int): (r: Outcome<seq<Article>>)
    ensures r.Ok? && max >= 0 ==> |r.value| <= max
  {
    match FirstKeyError(merged, parse)
    case Some(e) => Raised(e)
    case None =>
      if BareSortRaises(merged, MergeSortKey(parse)) then Raised(TypeError)
      else Ok(PyPrefix(SortDesc(merged, MergeSortKey(parse)), max))
  }

  /**
   * The merge, sort and cap of `fetch_news`: either library call raising
   * becomes `GNewsAPIError`.
   */
  function FetchedNews(client: Client, top: Outcome<seq<Article>>, international: Outcome<seq<Article>>, countries: seq<string>,
                       parse: string -> Option<Moment>): (r: Outcome<seq<Article>>)
    ensures top.Raised? || international.Raised? ==> r == Raised(GNewsApiError)
    ensures r.Ok? && client.maxResults >= 0 ==> |r.value| <= client.maxResults
  {
    if top.Raised? || international.Raised? then Raised(GNewsApiError)
    else SortedCapped(Merged(top.value, Majors(client, international.value, countries)), parse, client.maxResults)
  }

  /** `fetch_news()`: the dedup loop over the combined list, then the sort and the slice. */
  method FetchNews(client: Client, top: Outcome<seq<Article>>, international: Outcome<seq<Article>>, countries: seq<string>,
                   parse: string -> Option<Moment>) returns (r: Outcome<seq<Article>>)
    ensures r == FetchedNews(client, top, international, countries, parse)
  {
    if top.Raised? || international.Raised? {
      return Raised(GNewsApiError);
    }
    var majorInternational := Majors(client, international.value, countries);
    var allArticles := MergeByUrl(top.value + majorInternational);
    var failure := FirstKeyError(allArticles, parse);
    if failure.Some? {
      return Raised(failure.value);
    }
    if BareSortRaises(allArticles, MergeSortKey(parse)) {
      return Raised(TypeError);
    }
    var sorted := SortDesc(allArticles, MergeSortKey(parse));
    r := Ok(PyPrefix(sorted, client.maxResults));
  }

  /** The loop of `fetch_news` that keeps each article whose truthy url is not yet in `seen_urls`. */
  method MergeByUrl(combined: seq<Article>) returns (allArticles: seq<Article>)
    ensures allArticles == KeepFirst(combined, MergeAdmits())
  {
    allArticles := [];
    var seenUrls: set<string> := {};
    for i := 0 to |combined|
      invariant allArticles == KeepFirst(combined[..i], MergeAdmits())
      invariant forall u :: u in seenUrls <==> UrlKept(allArticles, u)
    {
      KeepFirstStep(combined, i, MergeAdmits());
      var article := combined[i];
      var url := article.url;
      if TruthyText(url) && url.value !in seenUrls {
        forall u
          ensures u in seenUrls + {url.value} <==> UrlKept(allArticles + [article], u)
        {
          UrlKeptAppend(allArticles, article, u);
        }
        seenUrls := seenUrls + {url.value};
        allArticles := allArticles + [article];
      }
    }
    assert combined[..|combined|] == combined;
  }

  // ---------------------------------------------------------------- properties

  /** When the sort returned, every key parsed and the result is a prefix of a permutation of the merge. */
  lemma SortedCappedOk(merged: seq<Article>, parse: string -> Option<Moment>, max: int)
    requires SortedCapped(merged, parse, max).Ok?
    ensures var sorted := SortDesc(merged, MergeSortKey(parse));
      var r := SortedCapped(merged, parse, max).value;
      && (forall i :: 0 <= i < |merged| ==> PublishedKey(merged[i], parse).Ok?)
      && multiset(sorted) == multiset(merged)
      && |r| <= |sorted| && r == sorted[..|r|]
  {
    SortDescPermutation(merged, MergeSortKey(parse));
  }

  /** What `fetch_news` returned, when it returned: a prefix of the sorted merge. */
  lemma FetchedNewsOk(client: Client, top: Outcome<seq<Article>>, international: Outcome<seq<Article>>, countries: seq<string>,
                      parse: string -> Option<Moment>)
    requires FetchedNews(client, top, international, countries, parse).Ok?
    ensures top.Ok? && international.Ok?
    ensures var merged := Merged(top.value, Majors(client, international.value, countries));
      var sorted := SortDesc(merged, MergeSortKey(parse));
      var r := FetchedNews(client, top, international, countries, parse).value;
      && (forall i :: 0 <= i < |merged| ==> PublishedKey(merged[i], parse).Ok?)
      && multiset(sorted) == multiset(merged)
      && r == sorted[..|r|]
  {
    SortedCappedOk(Merged(top.value, Majors(client, international.value, countries)), parse, client.maxResults);
  }

  /** The result is newest first. */
  lemma FetchedNewsSorted(client: Client, top: Outcome<seq<Article>>, international: Outcome<seq<Article>>, countries: seq<string>,
                          parse: string -> Option<Moment>)
    requires FetchedNews(client, top, international, countries, parse).Ok?
    ensures SortedDesc(FetchedNews(client, top, international, countries, parse).value, MergeSortKey(parse))
  {
    var merged := Merged(top.value, Majors(client, international.value, countries));
    SortedCappedOk(merged, parse, client.maxResults);
    SortDescSorted(merged, MergeSortKey(parse));
  }

  /** The result has truthy, pairwise different urls. */
  lemma FetchedNewsDistinct(client: Client, top: Outcome<seq<Article>>, international: Outcome<seq<Article>>, countries: seq<string>,
                            parse: string -> Option<Moment>)
    requires FetchedNews(client, top, international, countries, parse).Ok?
    ensures DistinctUrls(FetchedNews(client, top, international, countries, parse).value)
  {
    var merged := Merged(top.value, Majors(client, international.value, countries));
    MergedDistinct(top.value + Majors(client, international.value, countries));
    assert merged == KeepFirst(top.value + Majors(client, international.value, countries), MergeAdmits());
    SortedCappedOk(merged, parse, client.maxResults);
    DistinctUrlsKept(merged, SortDesc(merged, MergeSortKey(parse)), SortedCapped(merged, parse, client.maxResults).value);
  }

  /** A prefix of a permutation of a list with truthy, pairwise different urls has them too. */
  lemma DistinctUrlsKept(merged: seq<Article>, sorted: seq<Article>, r: seq<Article>)
    requires DistinctUrls(merged)
    requires multiset(sorted) == multiset(merged) && |r| <= |sorted| && r == sorted[..|r|]
    ensures DistinctUrls(r)
  {
    forall u: Option<string>
      ensures |Filter(r, HasUrl(u))| <= 1
    {
      FilterTwo(merged, HasUrl(u));
      FilterPermutation(merged, sorted, HasUrl(u));
      assert |Filter(sorted, HasUrl(u))| == |multiset(Filter(sorted, HasUrl(u)))|;
      assert |Filter(merged, HasUrl(u))| == |multiset(Filter(merged, HasUrl(u)))|;
      assert sorted == r + sorted[|r|..];
      FilterAppend(r, sorted[|r|..], HasUrl(u));
    }
    forall i | 0 <= i < |r|
      ensures TruthyText(r[i].url)
    {
      assert r[i] == sorted[i];
      assert r[i] in multiset(merged);
      var k :| 0 <= k < |merged| && merged[k] == r[i];
    }
    forall i, j | 0 <= i < j < |r|
      ensures r[i].url != r[j].url
    {
      FilterTwo(r, HasUrl(r[i].url));
      assert |Filter(r, HasUrl(r[i].url))| <= 1;
      assert HasUrl(r[i].url)(r[i]);
    }
  }

  /** Items with the given url value. */
  function HasUrl(u: Option<string>): Article -> bool {
    (a: Article) => a.url == u
  }

  /**
   * Headlines take precedence: the first headline with a given truthy url is
   * in the merge, so no international story with that url is.
   */
  lemma HeadlinesFirst(client: Client, top: seq<Article>, international: seq<Article>, countries: seq<string>, i: int)
    requires 0 <= i < |top| && FirstWithUrl(top, i)
    ensures top[i] in Merged(top, Majors(client, international, countries))
  {
    var s := top + Majors(client, international, countries);
    KeptFirsts(s);
    assert s[i] == top[i];
    assert forall j :: 0 <= j < i ==> s[j] == top[j];
    assert FirstWithUrl(s, i);
  }

  /** Every article of the merge is a headline or a major international story. */
  lemma MergedFromSources(client: Client, top: seq<Article>, international: seq<Article>, countries: seq<string>, x: Article)
    requires x in Merged(top, Majors(client, international, countries))
    ensures x in top || (x in international && IsMajorStory(client, x, countries))
  {
    var majors := Majors(client, international, countries);
    MajorsIsFilter(client, international, countries);
    KeepFirstIsSubsequence(top + majors, MergeAdmits());
    SubsequenceMembers(Merged(top, majors), top + majors);
    if x !in top {
      assert x in majors;
      FilterIsSubsequence(international, MajorOnly(client, countries));
      SubsequenceMembers(majors, international);
      var k :| 0 <= k < |majors| && majors[k] == x;
      assert MajorOnly(client, countries)(majors[k]);
    }
  }
}
