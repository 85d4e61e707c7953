/**
 * The feed-side filters (`feeds/filters.py`): the date window on
 * `published_at`, and a second copy of duplicate detection and deduplication
 * whose duplicate test first compares the `url` fields.
 */
module Filters {
  import opened Wrappers
  import opened PyText
  import opened Records
  import opened Selection
  import opened Ordering
  import Deduplication

  // ---------------------------------------------------------------- filter_articles_by_date

  /**
   * The instant of an article's `published_at`, or `None` when the loop skips
   * the article: the value is missing or falsy, or `parse` (standing for
   * `dateutil.parser.parse`) rejects the string. A naive `datetime` is read as UTC.
   */
  function PublishedAtInstant(w: When, parse: string -> Option<Moment>): (t: Option<int>)
    ensures !Truthy(w) ==> t.None?
    ensures w.Time? ==> t == Some(ArticleInstant(w.moment))
    ensures w.Text? && w.text != "" ==> (t.Some? <==> parse(w.text).Some?)
  {
    match w
    case Time(m) => Some(ArticleInstant(m))
    case Text(s) =>
      if s == "" then None
      else (match parse(s)
        case None => None
        case Some(m) => Some(ArticleInstant(m)))
    case Absent => None
    case NoneValue => None
  }

  /** The test the loop applies: a parsed publication instant inside the window. */
  function InDateWindow(start: Option<Moment>, end: Option<Moment>, parse: string -> Option<Moment>, central: int -> int): Article -> bool {
    (a: Article) => var t := PublishedAtInstant(a.publishedAt, parse);
      t.Some? && InWindow(t.value, BoundInstants(start, central), BoundInstants(end, central))
  }

  /**
   * What `filter_articles_by_date(articles, start_date, end_date)` returns. A
   * naive bound is read as America/Chicago wall time through `central`.
   */
  function FilteredByDate(articles: seq<Article>, start: Option<Moment>, end: Option<Moment>,
                          parse: string -> Option<Moment>, central: int -> int): seq<Article> {
    if start.None? && end.None? then articles
    else Filter(articles, InDateWindow(start, end, parse, central))
  }

  method FilterArticlesByDate(articles: seq<Article>, start: Option<Moment>, end: Option<Moment>,
                              parse: string -> Option<Moment>, central: int -> int)
    returns (filtered: seq<Article>)
    ensures filtered == FilteredByDate(articles, start, end, parse, central)
  {
    if start.None? && end.None? {
      return articles;
    }
    var startAt := BoundInstants(start, central);
    var endAt := BoundInstants(end, central);
    filtered := [];
    for i := 0 to |articles|
      invariant filtered == Filter(articles[..i], InDateWindow(start, end, parse, central))
    {
      FilterStep(articles, i, InDateWindow(start, end, parse, central));
      var publishDate := PublishedAtInstant(articles[i].publishedAt, parse);
      if publishDate.None? {
        continue;
      }
      if startAt.Some? && publishDate.value < startAt.value {
        continue;
      }
      if endAt.Some? && publishDate.value > endAt.value {
        continue;
      }
      filtered := filtered + [articles[i]];
    }
    assert articles[..|articles|] == articles;
  }

  /**
   * With a bound, an article is kept (as often as it occurs) iff its parsed
   * `published_at` lies in the inclusive window, and the kept articles keep
   * their input order.
   */
  lemma FilteredByDateMeans(articles: seq<Article>, start: Option<Moment>, end: Option<Moment>,
                            parse: string -> Option<Moment>, central: int -> int, x: Article)
    requires start.Some? || end.Some?
    ensures IsSubsequence(FilteredByDate(articles, start, end, parse, central), articles)
    ensures multiset(FilteredByDate(articles, start, end, parse, central))[x]
         == if PublishedAtInstant(x.publishedAt, parse).Some?
               && InWindow(PublishedAtInstant(x.publishedAt, parse).value, BoundInstants(start, central), BoundInstants(end, central))
            then multiset(articles)[x] else 0
  {
    FilterIsSubsequence(articles, InDateWindow(start, end, parse, central));
    FilterCount(articles, InDateWindow(start, end, parse, central), x);
  }

  /** Every kept article was published inside the window; one without a usable date never is. */
  lemma FilteredByDateInWindow(articles: seq<Article>, start: Option<Moment>, end: Option<Moment>,
                               parse: string -> Option<Moment>, central: int -> int)
    requires start.Some? || end.Some?
    ensures forall i :: 0 <= i < |FilteredByDate(articles, start, end, parse, central)| ==>
      var a := FilteredByDate(articles, start, end, parse, central)[i];
      Truthy(a.publishedAt) && PublishedAtInstant(a.publishedAt, parse).Some?
      && InWindow(PublishedAtInstant(a.publishedAt, parse).value, BoundInstants(start, central), BoundInstants(end, central))
  {
    var r := FilteredByDate(articles, start, end, parse, central);
    forall i | 0 <= i < |r|
      ensures InDateWindow(start, end, parse, central)(r[i])
    {
    }
  }

  // ---------------------------------------------------------------- is_duplicate

  /** This file's `normalize_text`: `" ".join(text.lower().split())`. */
  function NormalizeText(text: string): string {
    if text == "" then "" else Join(" ", Split(Lower(text)))
  }

  /** Both copies of `normalize_text` compute the same text. */
  lemma NormalizeTextAgrees(text: string)
    ensures NormalizeText(text) == Deduplication.NormalizeText(text)
  {
    Deduplication.NormalizeTextWords(text);
  }

  /** `is_duplicate(article1, article2, title_threshold)` of this file. */
  function IsDuplicate(a1: Article, a2: Article, sim: (string, string) -> real, threshold: real): bool {
    if a1.url == a2.url then true
    else
      var title1 := NormalizeText(TitleOf(a1));
      var title2 := NormalizeText(TitleOf(a2));
      if title1 == "" || title2 == "" then false
      else if title1 == title2 then true
      else if sim(title1, title2) > threshold then
        var desc1 := NormalizeText(DescriptionOf(a1));
        var desc2 := NormalizeText(DescriptionOf(a2));
        if desc1 != "" && desc2 != "" then sim(desc1, desc2) > Deduplication.DescriptionThreshold else true
      else false
  }

  /**
   * Equal `url` fields, both absent included, make a duplicate; otherwise the
   * test is the content test of `formatting/deduplication.py`.
   */
  lemma IsDuplicateMeans(a1: Article, a2: Article, sim: (string, string) -> real, threshold: real)
    ensures a1.url == a2.url ==> IsDuplicate(a1, a2, sim, threshold)
    ensures a1.url != a2.url ==>
      IsDuplicate(a1, a2, sim, threshold) == Deduplication.IsDuplicate(a1, a2, sim, threshold)
  {
    NormalizeTextAgrees(TitleOf(a1));
    NormalizeTextAgrees(TitleOf(a2));
    NormalizeTextAgrees(DescriptionOf(a1));
    NormalizeTextAgrees(DescriptionOf(a2));
  }

  /**
   * With different urls: no title words on either side gives `False`; the same
   * title words give `True`; otherwise title similarity above the threshold,
   * gated by description similarity when both descriptions have words.
   */
  lemma IsDuplicateByContent(a1: Article, a2: Article, sim: (string, string) -> real, threshold: real)
    requires a1.url != a2.url
    ensures Deduplication.Words(TitleOf(a1)) == [] || Deduplication.Words(TitleOf(a2)) == []
      ==> !IsDuplicate(a1, a2, sim, threshold)
    ensures Deduplication.Words(TitleOf(a1)) != [] && Deduplication.Words(TitleOf(a1)) == Deduplication.Words(TitleOf(a2))
      ==> IsDuplicate(a1, a2, sim, threshold)
    ensures Deduplication.Words(TitleOf(a1)) != [] && Deduplication.Words(TitleOf(a2)) != []
      && Deduplication.Words(TitleOf(a1)) != Deduplication.Words(TitleOf(a2))
      ==> (IsDuplicate(a1, a2, sim, threshold)
           <==> sim(NormalizeText(TitleOf(a1)), NormalizeText(TitleOf(a2))) > threshold
                && (Deduplication.Words(DescriptionOf(a1)) != [] && Deduplication.Words(DescriptionOf(a2)) != []
                    ==> sim(NormalizeText(DescriptionOf(a1)), NormalizeText(DescriptionOf(a2))) > Deduplication.DescriptionThreshold))
  {
    IsDuplicateMeans(a1, a2, sim, threshold);
    Deduplication.IsDuplicateByTitle(a1, a2, sim, threshold);
    if Deduplication.Words(TitleOf(a1)) != [] && Deduplication.Words(TitleOf(a2)) != []
      && Deduplication.Words(TitleOf(a1)) != Deduplication.Words(TitleOf(a2))
    {
      Deduplication.IsDuplicateBySimilarity(a1, a2, sim, threshold);
      NormalizeTextAgrees(TitleOf(a1));
      NormalizeTextAgrees(TitleOf(a2));
      NormalizeTextAgrees(DescriptionOf(a1));
      NormalizeTextAgrees(DescriptionOf(a2));
    }
  }

  // ---------------------------------------------------------------- deduplicate_articles

  /** This file's `source_preference`: higher is better. */
  const SourcePreference: map<string, int> := map[
    "Associated Press" := 10,
    "Reuters" := 9,
    "NPR" := 8,
    "PBS" := 8,
    "BBC News" := 8,
    "The Wall Street Journal" := 7,
    "The New York Times" := 7,
    "The Washington Post" := 7,
    "Bloomberg" := 7]

  /** `source_preference.get(name, 5)`. */
  function Preference(name: string): (p: int)
    ensures name in SourcePreference ==> p == SourcePreference[name] && p > 5
    ensures name !in SourcePreference ==> p == 5
  {
    if name in SourcePreference then SourcePreference[name] else 5
  }

  /**
   * The sort key `(preference of a.get('source', {}).get('name', ''),
   * a.get('published_at', '0'))`. A plain source has no `.get` and raises;
   * see `Deduplicated`.
   */
  function DedupKey(a: Article): SortKey {
    var name := match a.source
      case Record(n, _) => n.GetOr("")
      case _ => "";
    SortKey(Preference(name), WhenKey(a.publishedAt, "0"))
  }

  /** `article.get('url', '')`. */
  function UrlOf(a: Article): string {
    a.url.GetOr("")
  }

  /** `url in seen_urls`, where `seen_urls` holds the non-empty urls kept so far. */
  predicate UrlSeen(kept: seq<Article>, url: string) {
    url != "" && exists i :: 0 <= i < |kept| && UrlOf(kept[i]) == url
  }

  lemma UrlSeenAppend(kept: seq<Article>, a: Article, url: string)
    ensures UrlSeen(kept + [a], url) <==> UrlSeen(kept, url) || (url != "" && UrlOf(a) == url)
  {
    if UrlSeen(kept + [a], url) {
      var i :| 0 <= i < |kept| + 1 && UrlOf((kept + [a])[i]) == url;
      if i < |kept| {
        assert (kept + [a])[i] == kept[i];
      }
    }
    if UrlSeen(kept, url) {
      var i :| 0 <= i < |kept| && UrlOf(kept[i]) == url;
      assert (kept + [a])[i] == kept[i];
    }
    if url != "" && UrlOf(a) == url {
      assert (kept + [a])[|kept|] == a;
    }
  }

  predicate DuplicateOfAny(kept: seq<Article>, a: Article, sim: (string, string) -> real) {
    exists i :: 0 <= i < |kept| && IsDuplicate(a, kept[i], sim, Deduplication.TitleThreshold)
  }

  function DedupAdmits(sim: (string, string) -> real): (seq<Article>, Article) -> bool {
    (kept: seq<Article>, a: Article) => !UrlSeen(kept, UrlOf(a)) && !DuplicateOfAny(kept, a, sim)
  }

  predicate HasPlainSource(s: seq<Article>) {
    exists i :: 0 <= i < |s| && s[i].source.Plain?
  }

  /** What `deduplicate_articles` of this file returns. */
  function Deduplicated(articles: seq<Article>, sim: (string, string) -> real): Outcome<seq<Article>> {
    if articles == [] then Ok([])
    else if HasPlainSource(articles) then Raised(AttributeError)
    else if TupleSortRaises(articles, DedupKey) then Raised(TypeError)
    else Ok(KeepFirst(SortDesc(articles, DedupKey), DedupAdmits(sim)))
  }

  /** The inner loop over the kept articles. */
  method DuplicateFound(kept: seq<Article>, a: Article, sim: (string, string) -> real) returns (isDup: bool)
    ensures isDup == DuplicateOfAny(kept, a, sim)
  {
    var j := 0;
    while j < |kept|
      invariant 0 <= j <= |kept|
      invariant !DuplicateOfAny(kept[..j], a, sim)
    {
      var d := IsDuplicate(a, kept[j], sim, Deduplication.TitleThreshold);
      if d {
        return true;
      }
      assert kept[..j + 1] == kept[..j] + [kept[j]];
      j := j + 1;
    }
    assert kept[..j] == kept;
    return false;
  }

  /** `deduplicate_articles(articles)`, also returning `duplicates_found`. */
  method DeduplicateArticles(articles: seq<Article>, sim: (string, string) -> real)
    returns (r: Outcome<seq<Article>>, duplicatesFound: nat)
    ensures r == Deduplicated(articles, sim)
    ensures r.Ok? ==> |r.value| + duplicatesFound == |articles|
  {
    duplicatesFound := 0;
    if articles == [] {
      return Ok([]), 0;
    }
    if HasPlainSource(articles) {
      return Raised(AttributeError), 0;
    }
    if TupleSortRaises(articles, DedupKey) {
      return Raised(TypeError), 0;
    }
    var sorted := SortDesc(articles, DedupKey);
    SortDescPermutation(articles, DedupKey);
    var unique: seq<Article> := [];
    var seenUrls: set<string> := {};
    for i := 0 to |sorted|
      invariant unique == KeepFirst(sorted[..i], DedupAdmits(sim))
      invariant forall u :: u in seenUrls <==> UrlSeen(unique, u)
      invariant |unique| + duplicatesFound == i
    {
      KeepFirstStep(sorted, i, DedupAdmits(sim));
      var article := sorted[i];
      var url := UrlOf(article);
      if url in seenUrls {
        assert !DedupAdmits(sim)(unique, article);
        duplicatesFound := duplicatesFound + 1;
        continue;
      }
      var isDup := DuplicateFound(unique, article, sim);
      if isDup {
        assert !DedupAdmits(sim)(unique, article);
        duplicatesFound := duplicatesFound + 1;
      } else {
        assert DedupAdmits(sim)(unique, article);
        forall u
          ensures u in (if url != "" then seenUrls + {url} else seenUrls) <==> UrlSeen(unique + [article], u)
        {
          UrlSeenAppend(unique, article, u);
        }
        if url != "" {
          seenUrls := seenUrls + {url};
        }
        unique := unique + [article];
      }
    }
    assert sorted[..|sorted|] == sorted;
    r := Ok(unique);
  }

  /** The result is sorted by preference and date and keeps the sorted order. */
  lemma DeduplicatedSorted(articles: seq<Article>, sim: (string, string) -> real)
    requires Deduplicated(articles, sim).Ok?
    ensures IsSubsequence(Deduplicated(articles, sim).value, SortDesc(articles, DedupKey))
    ensures SortedDesc(Deduplicated(articles, sim).value, DedupKey)
    ensures multiset(Deduplicated(articles, sim).value) <= multiset(articles)
  {
    var s := SortDesc(articles, DedupKey);
    var k := Deduplicated(articles, sim).value;
    if articles == [] {
      assert k == [];
      assert Embeds(k, s, []);
    } else {
      KeepFirstIsSubsequence(s, DedupAdmits(sim));
      SortDescSorted(articles, DedupKey);
      SortDescPermutation(articles, DedupKey);
      SubsequenceSorted(k, s, DedupKey);
      SubsequenceMultiset(k, s);
    }
  }

  /**
   * The kept articles have pairwise different `url` fields (so at most one
   * lacks a url), and none duplicates an article kept before it.
   */
  lemma DeduplicatedDistinct(articles: seq<Article>, sim: (string, string) -> real)
    requires Deduplicated(articles, sim).Ok?
    ensures var k := Deduplicated(articles, sim).value;
      forall i, j :: 0 <= i < j < |k| ==> k[i].url != k[j].url
    ensures var k := Deduplicated(articles, sim).value;
      forall i, j :: 0 <= i < j < |k| ==> !IsDuplicate(k[j], k[i], sim, Deduplication.TitleThreshold)
  {
    var k := Deduplicated(articles, sim).value;
    if articles != [] {
      KeepFirstAdmitted(SortDesc(articles, DedupKey), DedupAdmits(sim));
      forall i, j | 0 <= i < j < |k|
        ensures !IsDuplicate(k[j], k[i], sim, Deduplication.TitleThreshold)
        ensures k[i].url != k[j].url
      {
        assert DedupAdmits(sim)(k[..j], k[j]);
        assert k[..j][i] == k[i];
      }
    }
  }

  /** Deduplicating a deduplicated list returns it unchanged. */
  lemma DeduplicatedIdempotent(articles: seq<Article>, sim: (string, string) -> real)
    requires Deduplicated(articles, sim).Ok?
    ensures Deduplicated(Deduplicated(articles, sim).value, sim) == Deduplicated(articles, sim)
  {
    var k := Deduplicated(articles, sim).value;
    if k != [] {
      var s := SortDesc(articles, DedupKey);
      DeduplicatedSorted(articles, sim);
      assert !HasPlainSource(k) by {
        forall i | 0 <= i < |k|
          ensures !k[i].source.Plain?
        {
          assert k[i] in multiset(articles);
        }
      }
      TupleSortRaisesSub(k, articles, DedupKey);
      SortDescOfSorted(k, DedupKey);
      KeepFirstAdmitted(s, DedupAdmits(sim));
      KeepFirstFixpoint(k, DedupAdmits(sim));
    }
  }
}
