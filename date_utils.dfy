/**
 * The display-side date window (`formatting/date_utils.py`): it reads
 * `published`, which must already hold a `datetime`; strings are skipped,
 * not parsed.
 */
module DateUtils {
  import opened Wrappers
  import opened Records
  import opened Selection

  /**
   * The instant of an article's `published`, or `None` when the loop skips the
   * article: the value is missing, falsy, or a string. A naive `datetime` is
   * read as UTC.
   */
  function PublishedInstant(w: When): (t: Option<int>)
    ensures t.Some? <==> w.Time?
    ensures w.Time? ==> t.value == ArticleInstant(w.moment)
  {
    match w
    case Time(m) => Some(ArticleInstant(m))
    case Absent => None
    case NoneValue => None
    case Text(_) => None
  }

  function InDateWindow(start: Option<Moment>, end: Option<Moment>, central: int -> int): Article -> bool {
    (a: Article) => var t := PublishedInstant(a.published);
      t.Some? && InWindow(t.value, BoundInstants(start, central), BoundInstants(end, central))
  }

  /** What `filter_articles_by_date(articles, start_date, end_date)` returns. */
  function FilteredByDate(articles: seq<Article>, start: Option<Moment>, end: Option<Moment>, central: int -> int): seq<Article> {
    if start.None? && end.None? then articles
    else Filter(articles, InDateWindow(start, end, central))
  }

  method FilterArticlesByDate(articles: seq<Article>, start: Option<Moment>, end: Option<Moment>, central: int -> int)
    returns (filtered: seq<Article>)
    ensures filtered == FilteredByDate(articles, start, end, central)
  {
    if start.None? && end.None? {
      return articles;
    }
    var startAt := BoundInstants(start, central);
    var endAt := BoundInstants(end, central);
    filtered := [];
    for i := 0 to |articles|
      invariant filtered == Filter(articles[..i], InDateWindow(start, end, central))
    {
      FilterStep(articles, i, InDateWindow(start, end, central));
      var publishDate := articles[i].published;
      if !Truthy(publishDate) {
        continue;
      }
      if publishDate.Text? {
        continue;
      }
      var t := ArticleInstant(publishDate.moment);
      if startAt.Some? && t < startAt.value {
        continue;
      }
      if endAt.Some? && t > endAt.value {
        continue;
      }
      filtered := filtered + [articles[i]];
    }
    assert articles[..|articles|] == articles;
  }

  /**
   * With a bound, an article is kept (as often as it occurs) iff its
   * `published` is a `datetime` inside the inclusive window; order is kept.
   */
  lemma FilteredByDateMeans(articles: seq<Article>, start: Option<Moment>, end: Option<Moment>, central: int -> int, x: Article)
    requires start.Some? || end.Some?
    ensures IsSubsequence(FilteredByDate(articles, start, end, central), articles)
    ensures multiset(FilteredByDate(articles, start, end, central))[x]
         == if x.published.Time?
               && InWindow(ArticleInstant(x.published.moment), BoundInstants(start, central), BoundInstants(end, central))
            then multiset(articles)[x] else 0
  {
    FilterIsSubsequence(articles, InDateWindow(start, end, central));
    FilterCount(articles, InDateWindow(start, end, central), x);
  }

  /** A string-valued or missing `published` never passes a bounded filter. */
  lemma FilteredByDateNeedsTime(articles: seq<Article>, start: Option<Moment>, end: Option<Moment>, central: int -> int)
    requires start.Some? || end.Some?
    ensures forall i :: 0 <= i < |FilteredByDate(articles, start, end, central)| ==>
      FilteredByDate(articles, start, end, central)[i].published.Time?
  {
    var r := FilteredByDate(articles, start, end, central);
    forall i | 0 <= i < |r|
      ensures InDateWindow(start, end, central)(r[i])
    {
    }
  }
}
