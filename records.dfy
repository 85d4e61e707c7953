/**
 * Article records as the newsletter code passes them around: Python dicts with
 * optional keys, here one datatype whose `Option` fields are the keys that may
 * be absent.
 */
module Records {
  import opened Wrappers

  /** A `datetime`: naive (a wall-clock reading, no zone) or aware (an instant). Both in seconds. */
  datatype Moment = Naive(wall: int) | Aware(utc: int)

  /** The value found under a date key: absent, `None`, a string, or a `datetime`. */
  datatype When = Absent | NoneValue | Text(text: string) | Time(moment: Moment)

  /** The `source` entry: absent, a plain value (held as its `str()`), or a dict with `name` and `url`. */
  datatype Source = NoSource | Plain(text: string) | Record(name: Option<string>, url: Option<string>)

  datatype Article = Article(
    title: Option<string>,
    description: Option<string>,
    url: Option<string>,
    link: Option<string>,
    source: Source,
    published: When,
    publishedAt: When,
    newsletterCategory: Option<string>,
    queryMatched: Option<string>,
    ageCategory: Option<string>,
    summary: Option<string>,
    summaryMethod: Option<string>)

  /** An article with only a title, a description and a url, as a test would build one. */
  function Basic(title: string, description: string, url: string): Article {
    Article(Some(title), Some(description), Some(url), None, NoSource, Absent, Absent, None, None, None, None, None)
  }

  /** `article.get('title', '')`. */
  function TitleOf(a: Article): string {
    a.title.GetOr("")
  }

  /** `article.get('description', '')`. */
  function DescriptionOf(a: Article): string {
    a.description.GetOr("")
  }

  /** Python truthiness of a date value: a non-empty string or any `datetime`. */
  predicate Truthy(w: When) {
    (w.Text? && w.text != "") || w.Time?
  }

  /** A non-empty string is truthy; an absent key reads as `None`. */
  predicate TruthyText(o: Option<string>) {
    o.Some? && o.value != ""
  }

  // ---------------------------------------------------------------- date windows

  /**
   * The instant a filter bound denotes once made aware in Central time: a naive
   * bound is read through `central`, the wall-clock-to-instant conversion of
   * America/Chicago; an aware bound keeps its instant.
   */
  function BoundInstant(b: Moment, central: int -> int): int {
    match b
    case Naive(w) => central(w)
    case Aware(u) => u
  }

  /** The instant of an article's `datetime`, a naive one being read as UTC. */
  function ArticleInstant(m: Moment): int {
    match m
    case Naive(w) => w
    case Aware(u) => u
  }

  /** `start <= t <= end`, an absent bound imposing nothing. */
  predicate InWindow(t: int, start: Option<int>, end: Option<int>) {
    (start.Some? ==> start.value <= t) && (end.Some? ==> t <= end.value)
  }

  function BoundInstants(b: Option<Moment>, central: int -> int): Option<int> {
    match b
    case None => None
    case Some(m) => Some(BoundInstant(m, central))
  }
}
