/**
 * The GNews client (`feeds/gnews_api.py`): the request it builds, the checks on
 * the decoded JSON response, the optional domain exclusion, the truncation to
 * `max_results`, and the normalisation of each raw article into the record the
 * rest of the pipeline reads. The HTTP session is a parameter `http` from the
 * request to what came back; `datetime.fromisoformat` is a parameter `iso`.
 */
module GNewsApi {
  import opened Wrappers
  import opened PyText
  import opened Records
  import opened Selection

  /**
   * A JSON value under some key of a raw article: the key is missing, holds
   * `null`, a string, a number or boolean (`Scalar`), or a list or object
   * (`Container`), the last two with their Python truthiness. For a container,
   * `members` are the strings `in` can find in it: the string elements of a
   * list, the keys of an object.
   */
  datatype Json = Missing | Null | Str(s: string) | Scalar(truthy: bool) | Container(truthy: bool, members: seq<string>)
  {
    /** A value that is neither absent, `null` nor a string. */
    predicate NonString() {
      Scalar? || Container?
    }
  }

  /** The raw `source` entry: missing, an object, or any other value held as its `str()`. */
  datatype RawSource = SourceMissing | SourceDict(name: Json, url: Json) | SourceOther(shown: string)

  /** A raw article object; `url` is `None` when the key is missing or `null`. */
  datatype RawArticle = RawArticle(title: Json, description: Json, url: Option<string>, source: RawSource, publishedAt: Json)

  /** An element of the response's `articles` list: an object, or anything else. */
  datatype RawItem = NotDict | Item(article: RawArticle)

  /** The `articles` entry of a response object. */
  datatype ArticlesField = NoArticles | ArticleList(items: seq<RawItem>) | NotList

  /** The decoded response body: an object (whether it has an `errors` key, and its `articles`) or not. */
  datatype Response = NotDictResponse | DictResponse(hasErrors: bool, articles: ArticlesField)

  /**
   * What the session returned: a `RequestException` (connection failure, a bad
   * HTTP status, or a body that is not JSON) or a decoded response.
   */
  datatype Transport = RequestFailed | Received(data: Response)

  /** The endpoint and query parameters of one GET; the API key is left out. */
  datatype Request = Request(endpoint: string, query: Option<string>, lang: string, max: int, country: Option<string>, category: Option<string>)

  /** The largest `max` the API accepts. */
  const ApiLimit := 100

  /** The constructor's check: a missing or empty `GNEWS_API_KEY` raises. */
  function CheckApiKey(key: Option<string>): (r: Outcome<string>)
    ensures r.Ok? <==> TruthyText(key)
    ensures r.Ok? ==> Some(r.value) == key
    ensures r.Raised? ==> r.error == GNewsApiError
  {
    if TruthyText(key) then Ok(key.value) else Raised(GNewsApiError)
  }

  // ---------------------------------------------------------------- validation

  /** `_validate_response`: the article list of a well-formed response, or `GNewsAPIError`. */
  function ValidateResponse(data: Response): (r: Outcome<seq<RawItem>>)
    ensures r.Ok? <==> data.DictResponse? && !data.hasErrors && data.articles.ArticleList?
    ensures r.Ok? ==> r.value == data.articles.items
    ensures r.Raised? ==> r.error == GNewsApiError
  {
    if !data.DictResponse? then Raised(GNewsApiError)
    else if data.hasErrors then Raised(GNewsApiError)
    else if data.articles.NoArticles? then Raised(GNewsApiError)
    else if data.articles.NotList? then Raised(GNewsApiError)
    else Ok(data.articles.items)
  }

  // ---------------------------------------------------------------- one article

  /**
   * `obj.get(key, '').strip()`: a missing key reads as `''`; `null` and
   * non-strings have no `strip` and raise.
   */
  function StrippedField(j: Json): (r: Outcome<string>)
    ensures r.Ok? <==> j.Missing? || j.Str?
    ensures r.Ok? ==> Strip(r.value) == r.value
    ensures r.Raised? ==> r.error == AttributeError
  {
    match j
    case Missing => Ok("")
    case Str(s) => StripIdempotent(s); Ok(Strip(s))
    case Null => Raised(AttributeError)
    case Scalar(_) => Raised(AttributeError)
    case Container(_, _) => Raised(AttributeError)
  }

  /**
   * `_parse_date(article.get('publishedAt', ''))`: a falsy value gives `None`;
   * a string has each `Z` replaced by `+00:00` and goes to `fromisoformat`,
   * whose `ValueError` becomes `None`; a truthy non-string has no `replace`.
   */
  function ParseDate(j: Json, iso: string -> Option<Moment>): (r: Outcome<Option<Moment>>)
    ensures r.Raised? <==> j.NonString() && j.truthy
    ensures r.Raised? ==> r.error == AttributeError
    ensures j.Missing? || j.Null? || j == Str("") ==> r == Ok(None)
    ensures r.Ok? && r.value.Some? ==> j.Str? && j.s != "" && r.value == iso(ReplaceChar(j.s, 'Z', "+00:00"))
  {
    match j
    case Missing => Ok(None)
    case Null => Ok(None)
    case Scalar(t) => if t then Raised(AttributeError) else Ok(None)
    case Container(t, _) => if t then Raised(AttributeError) else Ok(None)
    case Str(s) => if s == "" then Ok(None) else Ok(iso(ReplaceChar(s, 'Z', "+00:00")))
  }

  /**
   * The normalised `source`: an object gives its stripped `name` and `url`;
   * anything else gives its stripped `str()` as the name and `''` as the url.
   */
  function NormalizedSource(s: RawSource): (r: Outcome<Source>)
    ensures r.Ok? ==> r.value.Record? && r.value.name.Some? && r.value.url.Some?
    ensures r.Ok? ==> Strip(r.value.name.value) == r.value.name.value
    ensures !s.SourceDict? ==> r.Ok? && r.value.url == Some("")
    ensures r.Raised? <==> s.SourceDict? && (StrippedField(s.name).Raised? || StrippedField(s.url).Raised?)
  {
    match s
    case SourceMissing => Ok(Record(Some(""), Some("")))
    case SourceOther(shown) => StripIdempotent(shown); Ok(Record(Some(Strip(shown)), Some("")))
    case SourceDict(n, u) =>
      (match (StrippedField(n), StrippedField(u))
       case (Ok(name), Ok(url)) => Ok(Record(Some(name), Some(url)))
       case (Raised(e), _) => Raised(e)
       case (_, Raised(e)) => Raised(e))
  }

  /** The record `_process_articles` appends for an article it keeps. */
  function ProcessedRecord(title: string, description: string, url: string, source: Source, published: Option<Moment>): Article {
    Article(Some(title), Some(description), Some(url), Some(url), source, Absent,
            if published.Some? then Time(published.value) else NoneValue,
            None, None, None, None, None)
  }

  /**
   * What `_process_articles` makes of one item: `None` when the item is
   * skipped (not an object, no truthy `url`, a field that raises inside the
   * `try`, or an empty stripped title), else the normalised record.
   */
  function Normalize(item: RawItem, iso: string -> Option<Moment>): Option<Article> {
    if item.NotDict? then None
    else
      var a := item.article;
      var title := StrippedField(a.title);
      var description := StrippedField(a.description);
      var source := NormalizedSource(a.source);
      var published := ParseDate(a.publishedAt, iso);
      if !TruthyText(a.url) then None
      else if title.Raised? || description.Raised? || source.Raised? || published.Raised? then None
      else if title.value == "" then None
      else Some(ProcessedRecord(title.value, description.value, a.url.value, source.value, published.value))
  }

  /**
   * An item is kept iff it is an object with a truthy `url`, none of its
   * fields raises, and its stripped title is non-empty; the record then has
   * `url == link ==` the item's url, a stripped non-empty title, a stripped
   * description, a `{name, url}` source and a parsed date or `None`.
   */
  lemma NormalizeMeans(item: RawItem, iso: string -> Option<Moment>)
    ensures Normalize(item, iso).Some? <==>
      item.Item? && TruthyText(item.article.url)
      && StrippedField(item.article.title).Ok? && StrippedField(item.article.description).Ok?
      && NormalizedSource(item.article.source).Ok? && ParseDate(item.article.publishedAt, iso).Ok?
      && StrippedField(item.article.title).value != ""
    ensures Normalize(item, iso).Some? ==> var r := Normalize(item, iso).value;
      && r.url == r.link == item.article.url
      && r.title.Some? && r.title.value != "" && Strip(r.title.value) == r.title.value
      && r.description.Some? && Strip(r.description.value) == r.description.value
      && r.source == NormalizedSource(item.article.source).value
      && (r.publishedAt.Time? || r.publishedAt.NoneValue?)
  {
  }

  function NormalizeBy(iso: string -> Option<Moment>): RawItem -> Option<Article> {
    (x: RawItem) => Normalize(x, iso)
  }

  /** `_process_articles(items)`: the records of the kept items, in order. */
  function Processed(items: seq<RawItem>, iso: string -> Option<Moment>): (r: seq<Article>)
    ensures |r| <= |items|
  {
    Choose(items, NormalizeBy(iso))
  }

  /**
   * The loop of `_process_articles`: the type check, the url check, the
   * fields built inside the `try` (an exception skips the item) and the
   * empty-title check.
   */
  method ProcessArticles(items: seq<RawItem>, iso: string -> Option<Moment>) returns (processed: seq<Article>)
    ensures processed == Processed(items, iso)
  {
    processed := [];
    for i := 0 to |items|
      invariant processed == Processed(items[..i], iso)
    {
      ChooseStep(items, i, NormalizeBy(iso));
      var item := items[i];
      if item.NotDict? {
        continue;
      }
      var url := item.article.url;
      if !TruthyText(url) {
        continue;
      }
      var title := StrippedField(item.article.title);
      var description := StrippedField(item.article.description);
      var source := NormalizedSource(item.article.source);
      var published := ParseDate(item.article.publishedAt, iso);
      if title.Raised? || description.Raised? || source.Raised? || published.Raised? {
        continue;
      }
      if title.value == "" {
        continue;
      }
      processed := processed + [ProcessedRecord(title.value, description.value, url.value, source.value, published.value)];
    }
    assert items[..|items|] == items;
  }

  /**
   * The output is the records of exactly the kept items, in input order
   * (with `FilterCount`: an item appears as often as it occurs and is kept).
   */
  lemma ProcessedMeans(items: seq<RawItem>, iso: string -> Option<Moment>)
    ensures |Processed(items, iso)| == |Filter(items, Chosen(NormalizeBy(iso)))|
    ensures forall i :: 0 <= i < |Processed(items, iso)| ==>
      Normalize(Filter(items, Chosen(NormalizeBy(iso)))[i], iso) == Some(Processed(items, iso)[i])
  {
    ChooseMeans(items, NormalizeBy(iso));
  }

  /** Every record `_process_articles` returns holds a parsed `datetime` or `None` under `published_at`, never a string. */
  lemma ProcessedDates(items: seq<RawItem>, iso: string -> Option<Moment>)
    ensures forall i :: 0 <= i < |Processed(items, iso)| ==>
      Processed(items, iso)[i].publishedAt.Time? || Processed(items, iso)[i].publishedAt.NoneValue?
  {
    ProcessedMeans(items, iso);
    var f := Filter(items, Chosen(NormalizeBy(iso)));
    forall i | 0 <= i < |Processed(items, iso)|
      ensures Processed(items, iso)[i].publishedAt.Time? || Processed(items, iso)[i].publishedAt.NoneValue?
    {
      NormalizeMeans(f[i], iso);
    }
  }

  // ---------------------------------------------------------------- domain exclusion

  /**
   * `article.get('source', {}).get('url', '')` as the exclusion test reads it:
   * a non-object item or a non-object source has no `get`; a missing url
   * reads as `''`.
   */
  function ExclusionUrl(item: RawItem): (r: Outcome<Json>)
    ensures r.Raised? <==> item.NotDict? || item.article.source.SourceOther?
    ensures r.Raised? ==> r.error == AttributeError
    ensures r.Ok? ==> !r.value.Missing?
    ensures r.Ok? && item.article.source.SourceDict? && !item.article.source.url.Missing? ==> r.value == item.article.source.url
  {
    match item
    case NotDict => Raised(AttributeError)
    case Item(a) =>
      (match a.source
       case SourceMissing => Ok(Str(""))
       case SourceOther(_) => Raised(AttributeError)
       case SourceDict(_, u) => if u.Missing? then Ok(Str("")) else Ok(u))
  }

  /**
   * `domain in url`: a substring test on a string, a membership test on a
   * list or an object; `null`, a number or a boolean cannot be searched.
   */
  function DomainIn(domain: string, url: Json): (r: Outcome<bool>)
    ensures r.Raised? <==> url.Null? || url.Scalar?
    ensures r.Raised? ==> r.error == TypeError
    ensures url.Str? ==> r == Ok(Contains(url.s, domain))
    ensures url.Container? ==> r == Ok(domain in url.members)
  {
    match url
    case Missing => Ok(Contains("", domain))
    case Str(s) => Ok(Contains(s, domain))
    case Container(_, members) => Ok(domain in members)
    case Null => Raised(TypeError)
    case Scalar(_) => Raised(TypeError)
  }

  /**
   * `any(domain in url for domain in domains)`: stops at the first domain
   * found, and raises at the first test that raises.
   */
  function AnyDomainIn(domains: seq<string>, url: Json): (r: Outcome<bool>)
    ensures r.Raised? <==> domains != [] && (url.Null? || url.Scalar?)
    ensures r.Raised? ==> r.error == TypeError
    ensures r.Ok? ==> (r.value <==> exists k :: 0 <= k < |domains| && DomainIn(domains[k], url) == Ok(true))
  {
    if domains == [] then Ok(false)
    else
      match DomainIn(domains[0], url)
      case Raised(e) => Raised(e)
      case Ok(found) =>
        if found then Ok(true)
        else
          var rest := AnyDomainIn(domains[1..], url);
          assert forall k :: 1 <= k < |domains| ==> domains[k] == domains[1..][k - 1];
          rest
  }

  /** No domain of a search that found nothing is in the url. */
  lemma NotFoundAt(domains: seq<string>, url: Json, k: int)
    requires AnyDomainIn(domains, url) == Ok(false) && 0 <= k < |domains|
    ensures DomainIn(domains[k], url) == Ok(false)
  {
  }

  /** The comprehension's test on one item: whether some excluded domain is in its source url. */
  function ExclusionTest(domains: seq<string>, item: RawItem): (r: Outcome<bool>)
    ensures r.Raised? <==>
      item.NotDict? || item.article.source.SourceOther?
      || (domains != [] && item.article.source.SourceDict? && (item.article.source.url.Null? || item.article.source.url.Scalar?))
    ensures r.Raised? ==> r.error in {AttributeError, TypeError}
  {
    match ExclusionUrl(item)
    case Raised(e) => Raised(e)
    case Ok(u) => AnyDomainIn(domains, u)
  }

  /** The item survives iff its test neither raises nor finds an excluded domain. */
  function Admitted(domains: seq<string>): RawItem -> bool {
    (x: RawItem) => ExclusionTest(domains, x) == Ok(false)
  }

  /**
   * A list- or object-valued source url does not make the exclusion raise: the
   * item survives iff no excluded domain is among its members, and is then
   * dropped by `_process_articles`, whose `strip` fails on it.
   */
  lemma ContainerUrlAdmitted(x: RawItem, domains: seq<string>, iso: string -> Option<Moment>)
    requires x.Item? && x.article.source.SourceDict? && x.article.source.url.Container?
    ensures ExclusionTest(domains, x).Ok?
    ensures Admitted(domains)(x) <==> forall k :: 0 <= k < |domains| ==> domains[k] !in x.article.source.url.members
    ensures Normalize(x, iso).None?
  {
    var url := x.article.source.url;
    assert ExclusionUrl(x) == Ok(url);
    if !Admitted(domains)(x) {
      var k :| 0 <= k < |domains| && DomainIn(domains[k], url) == Ok(true);
      assert domains[k] in url.members;
    }
  }

  /**
   * The list comprehension over the articles with an `exclude_domains` list;
   * the first item whose test raises ends it with that exception.
   */
  function ExcludeDomains(items: seq<RawItem>, domains: seq<string>): Outcome<seq<RawItem>> {
    if items == [] then Ok([])
    else
      var last := items[|items| - 1];
      match ExcludeDomains(items[..|items| - 1], domains)
      case Raised(e) => Raised(e)
      case Ok(kept) =>
        (match ExclusionTest(domains, last)
         case Raised(e) => Raised(e)
         case Ok(found) => Ok(kept + (if found then [] else [last])))
  }

  /**
   * The exclusion raises iff some item's test raises; otherwise it keeps, in
   * order, exactly the items none of whose excluded domains occurs in the
   * source url.
   */
  lemma {:induction false} ExcludeDomainsMeans(items: seq<RawItem>, domains: seq<string>)
    ensures ExcludeDomains(items, domains).Ok? <==> forall i :: 0 <= i < |items| ==> ExclusionTest(domains, items[i]).Ok?
    ensures ExcludeDomains(items, domains).Ok? ==> ExcludeDomains(items, domains).value == Filter(items, Admitted(domains))
    ensures ExcludeDomains(items, domains).Raised? ==> ExcludeDomains(items, domains).error in {AttributeError, TypeError}
  {
    if items != [] {
      var init := items[..|items| - 1];
      ExcludeDomainsMeans(init, domains);
      if ExcludeDomains(init, domains).Raised? {
        var i :| 0 <= i < |init| && !ExclusionTest(domains, init[i]).Ok?;
        assert items[i] == init[i];
      } else {
        assert forall i :: 0 <= i < |init| ==> init[i] == items[i];
      }
    }
  }

  // ---------------------------------------------------------------- the two endpoints

  /** The parameters of `search_news`: `max` clamped to the API limit, `country` only when truthy. */
  function SearchRequest(query: string, language: string, country: Option<string>, maxResults: int): (p: Request)
    ensures p.max <= ApiLimit && (maxResults <= ApiLimit ==> p.max == maxResults)
    ensures p.country.Some? <==> TruthyText(country)
    ensures p.country.Some? ==> p.country == country
  {
    Request("/search", Some(query), language, Min(maxResults, ApiLimit),
            if TruthyText(country) then country else None, None)
  }

  /** `search_news(query, language, country, max_results, exclude_domains)`. */
  function SearchNews(query: string, language: string, country: Option<string>, maxResults: int, excludeDomains: seq<string>,
                      http: Request -> Transport, iso: string -> Option<Moment>): (r: Outcome<seq<Article>>)
    ensures http(SearchRequest(query, language, country, maxResults)).RequestFailed? ==> r == Raised(GNewsApiError)
    ensures r.Ok? && maxResults >= 0 ==> |r.value| <= maxResults
  {
    match http(SearchRequest(query, language, country, maxResults))
    case RequestFailed => Raised(GNewsApiError)
    case Received(data) =>
      (match ValidateResponse(data)
       case Raised(e) => Raised(e)
       case Ok(items) =>
         (match (if excludeDomains == [] then Ok(items) else ExcludeDomains(items, excludeDomains))
          case Raised(e) => Raised(e)
          case Ok(kept) => Ok(Processed(PyPrefix(kept, maxResults), iso))))
  }

  /** Every article of a successful search holds a `datetime` or `None` under `published_at`. */
  lemma SearchNewsDates(query: string, language: string, country: Option<string>, maxResults: int, excludeDomains: seq<string>,
                        http: Request -> Transport, iso: string -> Option<Moment>)
    requires SearchNews(query, language, country, maxResults, excludeDomains, http, iso).Ok?
    ensures var r := SearchNews(query, language, country, maxResults, excludeDomains, http, iso).value;
      forall i :: 0 <= i < |r| ==> r[i].publishedAt.Time? || r[i].publishedAt.NoneValue?
  {
    var items := ValidateResponse(http(SearchRequest(query, language, country, maxResults)).data).value;
    var kept := if excludeDomains == [] then items else ExcludeDomains(items, excludeDomains).value;
    ProcessedDates(PyPrefix(kept, maxResults), iso);
  }

  /** An item that passed the exclusion test has no excluded domain in its normalised source url. */
  lemma SourceAdmitted(x: RawItem, domains: seq<string>, k: int)
    requires Admitted(domains)(x) && NormalizedSource(x.article.source).Ok? && 0 <= k < |domains|
    ensures !Contains(NormalizedSource(x.article.source).value.url.value, domains[k])
  {
    var url := ExclusionUrl(x).value;
    assert ExclusionTest(domains, x) == Ok(false);
    NotFoundAt(domains, url, k);
    match x.article.source
    case SourceMissing =>
      assert NormalizedSource(x.article.source) == Ok(Record(Some(""), Some("")));
    case SourceOther(_) =>
    case SourceDict(_, u) =>
      match u
      case Missing =>
        assert StrippedField(u) == Ok("");
      case Str(t) =>
        assert url == Str(t);
        assert !Contains(t, domains[k]);
        assert StrippedField(u) == Ok(Strip(t));
        if Contains(Strip(t), domains[k]) {
          ContainsOfStrip(t, domains[k]);
        }
  }

  /** What a successful search returns: the records of the first `max_results` items that passed the exclusion. */
  lemma SearchNewsOk(query: string, language: string, country: Option<string>, maxResults: int, excludeDomains: seq<string>,
                     http: Request -> Transport, iso: string -> Option<Moment>)
    requires SearchNews(query, language, country, maxResults, excludeDomains, http, iso).Ok?
    requires excludeDomains != []
    ensures var items := ValidateResponse(http(SearchRequest(query, language, country, maxResults)).data).value;
      SearchNews(query, language, country, maxResults, excludeDomains, http, iso).value
      == Processed(PyPrefix(Filter(items, Admitted(excludeDomains)), maxResults), iso)
  {
    var items := ValidateResponse(http(SearchRequest(query, language, country, maxResults)).data).value;
    ExcludeDomainsMeans(items, excludeDomains);
  }

  /**
   * No article `search_news` returns has an excluded domain in its source
   * url, and every one of them has a truthy url and a non-empty title.
   */
  lemma SearchNewsExcludes(query: string, language: string, country: Option<string>, maxResults: int, excludeDomains: seq<string>,
                           http: Request -> Transport, iso: string -> Option<Moment>, i: int, k: int)
    requires SearchNews(query, language, country, maxResults, excludeDomains, http, iso).Ok?
    requires 0 <= i < |SearchNews(query, language, country, maxResults, excludeDomains, http, iso).value|
    requires 0 <= k < |excludeDomains|
    ensures var a := SearchNews(query, language, country, maxResults, excludeDomains, http, iso).value[i];
      a.source.Record? && a.source.url.Some? && !Contains(a.source.url.value, excludeDomains[k])
      && TruthyText(a.url) && a.title.Some? && a.title.value != ""
  {
    var items := ValidateResponse(http(SearchRequest(query, language, country, maxResults)).data).value;
    SearchNewsOk(query, language, country, maxResults, excludeDomains, http, iso);
    var kept := Filter(items, Admitted(excludeDomains));
    var prefix := PyPrefix(kept, maxResults);
    var j := ProcessedOrigin(prefix, iso, i);
    var x := kept[j];
    NormalizeMeans(x, iso);
    SourceAdmitted(x, excludeDomains, k);
  }

  /** The item a processed record was made from. */
  lemma ProcessedOrigin(items: seq<RawItem>, iso: string -> Option<Moment>, i: int) returns (j: int)
    requires 0 <= i < |Processed(items, iso)|
    ensures 0 <= j < |items| && Normalize(items[j], iso) == Some(Processed(items, iso)[i])
  {
    ProcessedMeans(items, iso);
    var f := Filter(items, Chosen(NormalizeBy(iso)));
    FilterIsSubsequence(items, Chosen(NormalizeBy(iso)));
    SubsequenceMembers(f, items);
    assert f[i] in f;
    j :| 0 <= j < |items| && items[j] == f[i];
  }

  /** The parameters of `get_top_headlines`: as for a search, plus `category` only when truthy. */
  function HeadlinesRequest(language: string, country: Option<string>, category: Option<string>, maxResults: int): (p: Request)
    ensures p.max <= ApiLimit && (maxResults <= ApiLimit ==> p.max == maxResults)
    ensures p.country.Some? <==> TruthyText(country)
    ensures p.category.Some? <==> TruthyText(category)
  {
    Request("/top-headlines", None, language, Min(maxResults, ApiLimit),
            if TruthyText(country) then country else None,
            if TruthyText(category) then category else None)
  }

  /** `get_top_headlines(language, country, category, max_results)`: no domain exclusion. */
  function TopHeadlines(language: string, country: Option<string>, category: Option<string>, maxResults: int,
                        http: Request -> Transport, iso: string -> Option<Moment>): (r: Outcome<seq<Article>>)
    ensures http(HeadlinesRequest(language, country, category, maxResults)).RequestFailed? ==> r == Raised(GNewsApiError)
    ensures r.Raised? ==> r.error == GNewsApiError
    ensures r.Ok? && maxResults >= 0 ==> |r.value| <= maxResults
  {
    match http(HeadlinesRequest(language, country, category, maxResults))
    case RequestFailed => Raised(GNewsApiError)
    case Received(data) =>
      (match ValidateResponse(data)
       case Raised(e) => Raised(e)
       case Ok(items) => Ok(Processed(PyPrefix(items, maxResults), iso)))
  }
}
