/**
 * Duplicate detection, per-source limiting and deduplication of article lists
 * (`formatting/deduplication.py`).
 */
module Deduplication {
  import opened Wrappers
  import opened PyText
  import opened Records
  import opened Selection
  import opened Ordering

  /** Titles more similar than this are duplicate candidates (the default `title_threshold`). */
  const TitleThreshold: real := 0.8
  /** Two candidates with descriptions must have descriptions more similar than this. */
  const DescriptionThreshold: real := 0.6

  /** The lower-cased words of a text. */
  function Words(text: string): seq<string> {
    Split(Lower(text))
  }

  /**
   * `normalize_text`: lower-case, strip, and collapse every whitespace run into
   * one space. The result is the words of the text joined by single spaces.
   */
  function NormalizeText(text: string): string {
    if text == "" then "" else Collapse(Strip(Lower(text)))
  }

  /** A normalized text is its lower-cased words joined by single spaces. */
  lemma NormalizeTextWords(text: string)
    ensures NormalizeText(text) == Join(" ", Words(text))
  {
    if text != "" {
      CollapseStripIsJoinSplit(Lower(text));
    }
  }

  /** Normalizing twice is normalizing once. */
  lemma NormalizeIdempotent(text: string)
    ensures NormalizeText(NormalizeText(text)) == NormalizeText(text)
  {
    NormalizeTextWords(text);
    NormalizeTextWords(NormalizeText(text));
    NormalizeStable(text);
  }

  /** Joined word lists are empty exactly when there are no words. */
  lemma JoinEmpty(ws: seq<string>)
    requires forall i :: 0 <= i < |ws| ==> IsWord(ws[i])
    ensures Join(" ", ws) == "" <==> ws == []
  {
    if ws != [] {
      assert ws[0] != [];
      assert |Join(" ", ws)| >= |ws[0]|;
    }
  }

  /** Normalized texts are equal exactly when their word lists are. */
  lemma NormalizeEqual(a: string, b: string)
    ensures NormalizeText(a) == NormalizeText(b) <==> Words(a) == Words(b)
    ensures NormalizeText(a) == "" <==> Words(a) == []
  {
    NormalizeTextWords(a);
    NormalizeTextWords(b);
    SplitJoin(Words(a));
    SplitJoin(Words(b));
    JoinEmpty(Words(a));
  }

  /**
   * `is_duplicate(article1, article2, title_threshold)`. `sim` stands for
   * `SequenceMatcher(None, x, y).ratio()`.
   */
  function IsDuplicate(a1: Article, a2: Article, sim: (string, string) -> real, threshold: real): bool {
    var title1 := NormalizeText(TitleOf(a1));
    var title2 := NormalizeText(TitleOf(a2));
    var desc1 := NormalizeText(DescriptionOf(a1));
    var desc2 := NormalizeText(DescriptionOf(a2));
    if title1 == "" || title2 == "" then false
    else if title1 == title2 then true
    else if sim(title1, title2) > threshold then
      if desc1 != "" && desc2 != "" then sim(desc1, desc2) > DescriptionThreshold else true
    else false
  }

  /** An article without title words duplicates nothing; the same title words always duplicate. */
  lemma IsDuplicateByTitle(a1: Article, a2: Article, sim: (string, string) -> real, threshold: real)
    ensures Words(TitleOf(a1)) == [] || Words(TitleOf(a2)) == [] ==> !IsDuplicate(a1, a2, sim, threshold)
    ensures Words(TitleOf(a1)) != [] && Words(TitleOf(a1)) == Words(TitleOf(a2)) ==> IsDuplicate(a1, a2, sim, threshold)
  {
    NormalizeEqual(TitleOf(a1), TitleOf(a2));
    NormalizeEqual(TitleOf(a2), TitleOf(a1));
  }

  /**
   * Titles with different words are duplicates iff their normalized titles are
   * more similar than the threshold and, when both have a description, so are
   * the normalized descriptions.
   */
  lemma IsDuplicateBySimilarity(a1: Article, a2: Article, sim: (string, string) -> real, threshold: real)
    requires Words(TitleOf(a1)) != [] && Words(TitleOf(a2)) != []
    requires Words(TitleOf(a1)) != Words(TitleOf(a2))
    ensures IsDuplicate(a1, a2, sim, threshold)
        <==> sim(NormalizeText(TitleOf(a1)), NormalizeText(TitleOf(a2))) > threshold
             && (Words(DescriptionOf(a1)) != [] && Words(DescriptionOf(a2)) != []
                 ==> sim(NormalizeText(DescriptionOf(a1)), NormalizeText(DescriptionOf(a2))) > DescriptionThreshold)
  {
    NormalizeEqual(TitleOf(a1), TitleOf(a2));
    NormalizeEqual(TitleOf(a2), TitleOf(a1));
    NormalizeEqual(DescriptionOf(a1), DescriptionOf(a2));
    NormalizeEqual(DescriptionOf(a2), DescriptionOf(a1));
  }

  /** With a symmetric similarity measure, duplication is symmetric. */
  lemma IsDuplicateSymmetric(a1: Article, a2: Article, sim: (string, string) -> real, threshold: real)
    requires forall x, y :: sim(x, y) == sim(y, x)
    ensures IsDuplicate(a1, a2, sim, threshold) == IsDuplicate(a2, a1, sim, threshold)
  {
  }

  // ---------------------------------------------------------------- deduplicate_articles

  /** `source_preference`: higher is better. */
  const SourcePreference: map<string, int> := map[
    "Associated Press" := 10,
    "Reuters" := 9,
    "NPR" := 8,
    "PBS" := 8,
    "BBC News" := 8,
    "The Wall Street Journal" := 7,
    "The New York Times" := 7,
    "The Washington Post" := 7,
    "Bloomberg" := 7,
    "CNS News" := 6,
    "National Review" := 6]

  const DefaultPreference: int := 5

  /** `source_preference.get(name, default_preference)`. */
  function Preference(name: string): (p: int)
    ensures name in SourcePreference ==> p == SourcePreference[name] && p > DefaultPreference
    ensures name !in SourcePreference ==> p == DefaultPreference
  {
    if name in SourcePreference then SourcePreference[name] else DefaultPreference
  }

  /**
   * The sort key `(preference of a.get('source', ''), a.get('published', '0'))`.
   * A dict source is unhashable and makes the lookup raise; see `Deduplicated`.
   */
  function DedupKey(a: Article): SortKey {
    var pref := match a.source
      case NoSource => Preference("")
      case Plain(t) => Preference(t)
      case Record(_, _) => DefaultPreference;
    SortKey(pref, WhenKey(a.published, "0"))
  }

  /** `article.get('url', article.get('link', ''))`. */
  function UrlOf(a: Article): string {
    a.url.GetOr(a.link.GetOr(""))
  }

  /** `url and url in seen_urls`, where `seen_urls` holds the non-empty urls kept so far. */
  predicate UrlSeen(kept: seq<Article>, url: string) {
    url != "" && exists i :: 0 <= i < |kept| && UrlOf(kept[i]) == url
  }

  lemma UrlSeenAppend(kept: seq<Article>, a: Article, url: string)
    ensures UrlSeen(kept + [a], url) <==> UrlSeen(kept, url) || (url != "" && UrlOf(a) == url)
  {
    if UrlSeen(kept + [a], url) {
      var i :| 0 <= i < |kept| + 1 && UrlOf((kept + [a])[i]) == url;
      if i < |kept| {
        assert (kept + [a])[i] == kept[i];
      }
    }
    if UrlSeen(kept, url) {
      var i :| 0 <= i < |kept| && UrlOf(kept[i]) == url;
      assert (kept + [a])[i] == kept[i];
    }
    if url != "" && UrlOf(a) == url {
      assert (kept + [a])[|kept|] == a;
    }
  }

  /** Some article kept so far makes `a` a duplicate. */
  predicate DuplicateOfAny(kept: seq<Article>, a: Article, sim: (string, string) -> real) {
    exists i :: 0 <= i < |kept| && IsDuplicate(a, kept[i], sim, TitleThreshold)
  }

  /** The test the dedup loop applies to each article against the articles it has kept. */
  function DedupAdmits(sim: (string, string) -> real): (seq<Article>, Article) -> bool {
    (kept: seq<Article>, a: Article) => !UrlSeen(kept, UrlOf(a)) && !DuplicateOfAny(kept, a, sim)
  }

  predicate HasRecordSource(s: seq<Article>) {
    exists i :: 0 <= i < |s| && s[i].source.Record?
  }

  /**
   * What `deduplicate_articles` returns: sort by preference and date, newest
   * first, then keep each article whose url and content are new.
   */
  function Deduplicated(articles: seq<Article>, sim: (string, string) -> real): Outcome<seq<Article>> {
    if articles == [] then Ok([])
    else if HasRecordSource(articles) || TupleSortRaises(articles, DedupKey) then Raised(TypeError)
    else Ok(KeepFirst(SortDesc(articles, DedupKey), DedupAdmits(sim)))
  }

  /** The inner loop over the kept articles: does any of them make `a` a duplicate? */
  method DuplicateFound(kept: seq<Article>, a: Article, sim: (string, string) -> real) returns (isDup: bool)
    ensures isDup == DuplicateOfAny(kept, a, sim)
  {
    var j := 0;
    while j < |kept|
      invariant 0 <= j <= |kept|
      invariant !DuplicateOfAny(kept[..j], a, sim)
    {
      var d := IsDuplicate(a, kept[j], sim, TitleThreshold);
      if d {
        return true;
      }
      assert kept[..j + 1] == kept[..j] + [kept[j]];
      j := j + 1;
    }
    assert kept[..j] == kept;
    return false;
  }

  /** `deduplicate_articles(articles)`, also returning `duplicate_count`. */
  method DeduplicateArticles(articles: seq<Article>, sim: (string, string) -> real)
    returns (r: Outcome<seq<Article>>, duplicateCount: nat)
    ensures r == Deduplicated(articles, sim)
    ensures r.Ok? ==> |r.value| + duplicateCount == |articles|
  {
    duplicateCount := 0;
    if articles == [] {
      return Ok([]), 0;
    }
    if HasRecordSource(articles) || TupleSortRaises(articles, DedupKey) {
      return Raised(TypeError), 0;
    }
    var sorted := SortDesc(articles, DedupKey);
    SortDescPermutation(articles, DedupKey);
    var unique: seq<Article> := [];
    var seenUrls: set<string> := {};
    for i := 0 to |sorted|
      invariant unique == KeepFirst(sorted[..i], DedupAdmits(sim))
      invariant forall u :: u in seenUrls <==> UrlSeen(unique, u)
      invariant |unique| + duplicateCount == i
    {
      KeepFirstStep(sorted, i, DedupAdmits(sim));
      var article := sorted[i];
      var url := UrlOf(article);
      if url != "" && url in seenUrls {
        assert !DedupAdmits(sim)(unique, article);
        duplicateCount := duplicateCount + 1;
        continue;
      }
      var isDup := DuplicateFound(unique, article, sim);
      if isDup {
        duplicateCount := duplicateCount + 1;
      }
      if !isDup {
        assert DedupAdmits(sim)(unique, article);
        forall u
          ensures u in (if url != "" then seenUrls + {url} else seenUrls) <==> UrlSeen(unique + [article], u)
        {
          UrlSeenAppend(unique, article, u);
        }
        if url != "" {
          seenUrls := seenUrls + {url};
        }
        unique := unique + [article];
      } else {
        assert !DedupAdmits(sim)(unique, article);
      }
    }
    assert sorted[..|sorted|] == sorted;
    r := Ok(unique);
  }

  /** The result is sorted newest first and keeps the sorted order. */
  lemma DeduplicatedSorted(articles: seq<Article>, sim: (string, string) -> real)
    requires Deduplicated(articles, sim).Ok?
    ensures IsSubsequence(Deduplicated(articles, sim).value, SortDesc(articles, DedupKey))
    ensures SortedDesc(Deduplicated(articles, sim).value, DedupKey)
    ensures multiset(Deduplicated(articles, sim).value) <= multiset(articles)
  {
    var s := SortDesc(articles, DedupKey);
    var k := Deduplicated(articles, sim).value;
    if articles == [] {
      assert k == [];
      assert Embeds(k, s, []);
    } else {
      KeepFirstIsSubsequence(s, DedupAdmits(sim));
      SortDescSorted(articles, DedupKey);
      SortDescPermutation(articles, DedupKey);
      SubsequenceSorted(k, s, DedupKey);
      SubsequenceMultiset(k, s);
    }
  }

  /** No two kept articles share a non-empty url, and no kept article duplicates an earlier one. */
  lemma DeduplicatedDistinct(articles: seq<Article>, sim: (string, string) -> real)
    requires Deduplicated(articles, sim).Ok?
    ensures var k := Deduplicated(articles, sim).value;
      forall i, j :: 0 <= i < j < |k| && UrlOf(k[j]) != "" ==> UrlOf(k[i]) != UrlOf(k[j])
    ensures var k := Deduplicated(articles, sim).value;
      forall i, j :: 0 <= i < j < |k| ==> !IsDuplicate(k[j], k[i], sim, TitleThreshold)
  {
    var k := Deduplicated(articles, sim).value;
    if articles != [] {
      KeepFirstAdmitted(SortDesc(articles, DedupKey), DedupAdmits(sim));
      forall i, j | 0 <= i < j < |k|
        ensures UrlOf(k[j]) != "" ==> UrlOf(k[i]) != UrlOf(k[j])
        ensures !IsDuplicate(k[j], k[i], sim, TitleThreshold)
      {
        assert DedupAdmits(sim)(k[..j], k[j]);
        assert k[..j][i] == k[i];
      }
    }
  }

  /** Deduplicating a deduplicated list returns it unchanged. */
  lemma DeduplicatedIdempotent(articles: seq<Article>, sim: (string, string) -> real)
    requires Deduplicated(articles, sim).Ok?
    ensures Deduplicated(Deduplicated(articles, sim).value, sim) == Deduplicated(articles, sim)
  {
    var k := Deduplicated(articles, sim).value;
    if k != [] {
      var s := SortDesc(articles, DedupKey);
      DeduplicatedSorted(articles, sim);
      assert !HasRecordSource(k) by {
        forall i | 0 <= i < |k|
          ensures !k[i].source.Record?
        {
          assert k[i] in multiset(articles);
        }
      }
      TupleSortRaisesSub(k, articles, DedupKey);
      SortDescOfSorted(k, DedupKey);
      KeepFirstAdmitted(s, DedupAdmits(sim));
      KeepFirstFixpoint(k, DedupAdmits(sim));
    }
  }

  // ---------------------------------------------------------------- limit_articles_by_source

  /**
   * The group a source falls in: a dict's `name`, or the dict itself when it has
   * none; `str()` of any other value; `'Unknown'` for a falsy one. A non-empty
   * dict without a name is unhashable and raises as a group key.
   */
  function GroupName(a: Article): (r: Outcome<string>)
    ensures r.Ok? ==> r.value != ""
    ensures r.Raised? <==> a.source.Record? && a.source.name.None? && a.source.url.Some?
  {
    match a.source
    case NoSource => Ok("Unknown")
    case Plain(t) => Ok(if t == "" then "Unknown" else t)
    case Record(name, url) =>
      match name
      case Some(n) => Ok(if n == "" then "Unknown" else n)
      case None => if url.None? then Ok("Unknown") else Raised(TypeError)
  }

  /** `a.get('published_at') or a.get('published', '0')`, the key of both sorts. */
  function LimitKey(a: Article): SortKey {
    SortKey(0, if Truthy(a.publishedAt) then WhenKey(a.publishedAt, "0") else WhenKey(a.published, "0"))
  }

  predicate HasUnhashableSource(s: seq<Article>) {
    exists i :: 0 <= i < |s| && GroupName(s[i]).Raised?
  }

  /** The group names in order of first appearance (the dict's insertion order). */
  function SourceOrder(s: seq<Article>): seq<string> {
    if s == [] then []
    else
      var names := SourceOrder(s[..|s| - 1]);
      var g := GroupName(s[|s| - 1]);
      if g.Ok? && g.value !in names then names + [g.value] else names
  }

  /** The group-membership test for one name. */
  function InGroup(name: string): Article -> bool {
    a => GroupName(a) == Ok(name)
  }

  /** The name of the group an article falls in, `""` for the unhashable source no group takes. */
  function GroupKey(a: Article): string {
    match GroupName(a)
    case Ok(name) => name
    case Raised(_) => ""
  }

  lemma InGroupMeans(name: string, a: Article)
    ensures InGroup(name)(a) <==> GroupName(a) == Ok(name)
  {
  }

  /** `source_groups[name]` after the grouping loop. */
  function Group(s: seq<Article>, name: string): seq<Article> {
    Filter(s, InGroup(name))
  }

  /** Some group's own sort raises. */
  predicate GroupSortRaises(s: seq<Article>, names: seq<string>) {
    exists i :: 0 <= i < |names| && BareSortRaises(Group(s, names[i]), LimitKey)
  }

  /** `group[:max]` of a source's group sorted newest first. */
  function Newest(s: seq<Article>, max: int): string -> seq<Article> {
    name => PyPrefix(SortDesc(Group(s, name), LimitKey), max)
  }

  /** The newest `max` of each group, concatenated in group order. */
  function LimitedGroups(s: seq<Article>, names: seq<string>, max: int): seq<Article> {
    Concat(names, Newest(s, max))
  }

  /** What `limit_articles_by_source(articles, max_per_source)` returns. */
  function LimitedBySource(articles: seq<Article>, max: int): Outcome<seq<Article>> {
    if articles == [] then Ok([])
    else if HasUnhashableSource(articles) then Raised(TypeError)
    else
      var names := SourceOrder(articles);
      if GroupSortRaises(articles, names) then Raised(TypeError)
      else
        var limited := LimitedGroups(articles, names, max);
        if BareSortRaises(limited, LimitKey) then Raised(TypeError)
        else Ok(SortDesc(limited, LimitKey))
  }

  /** Each group name is listed once. */
  lemma {:induction false} SourceOrderDistinct(s: seq<Article>)
    ensures NoRepeats(SourceOrder(s))
  {
    if s != [] {
      var names := SourceOrder(s[..|s| - 1]);
      SourceOrderDistinct(s[..|s| - 1]);
      var g := GroupName(s[|s| - 1]);
      if g.Ok? && g.value !in names {
        assert (names + [g.value])[..|names|] == names;
      }
    }
  }

  /** The grouping loop's step on a longer prefix. */
  lemma SourceOrderStep(s: seq<Article>, i: int)
    requires 0 <= i < |s|
    ensures SourceOrder(s[..i + 1])
         == var names := SourceOrder(s[..i]); var g := GroupName(s[i]);
            if g.Ok? && g.value !in names then names + [g.value] else names
  {
    assert s[..i + 1][..i] == s[..i];
  }

  /** Every group name of an article is in the order list, and each listed name has an article. */
  lemma {:induction false} SourceOrderMembers(s: seq<Article>, name: string)
    ensures name in SourceOrder(s) <==> exists i :: 0 <= i < |s| && GroupName(s[i]) == Ok(name)
  {
    if s != [] {
      var front := s[..|s| - 1];
      SourceOrderMembers(front, name);
      if exists i :: 0 <= i < |front| && GroupName(front[i]) == Ok(name) {
        var i :| 0 <= i < |front| && GroupName(front[i]) == Ok(name);
        assert s[i] == front[i];
      }
      if exists i :: 0 <= i < |s| && GroupName(s[i]) == Ok(name) {
        var i :| 0 <= i < |s| && GroupName(s[i]) == Ok(name);
        if i < |front| {
          assert front[i] == s[i];
        }
      }
    }
  }

  /** The grouping loop: every article appended to the list of its source's name. */
  method GroupBySource(articles: seq<Article>)
    returns (ok: bool, groups: map<string, seq<Article>>, order: seq<string>)
    ensures ok == !HasUnhashableSource(articles)
    ensures ok ==> order == SourceOrder(articles)
    ensures ok ==> forall name :: name in groups <==> name in order
    ensures ok ==> forall name :: name in groups ==> groups[name] == Group(articles, name)
  {
    groups, order := map[], [];
    for i := 0 to |articles|
      invariant !HasUnhashableSource(articles[..i])
      invariant order == SourceOrder(articles[..i])
      invariant forall name :: name in groups <==> name in order
      invariant forall name :: name in groups ==> groups[name] == Group(articles[..i], name)
    {
      UnhashableStep(articles, i);
      match GroupName(articles[i])
      case Raised(_) =>
        assert HasUnhashableSource(articles);
        return false, groups, order;
      case Ok(name) =>
        GroupsStep(articles, i, groups, order, name);
        if name !in groups {
          groups := groups[name := []];
          order := order + [name];
        }
        groups := groups[name := groups[name] + [articles[i]]];
    }
    assert articles[..|articles|] == articles;
    ok := true;
  }

  lemma UnhashableStep(s: seq<Article>, i: int)
    requires 0 <= i < |s|
    ensures HasUnhashableSource(s[..i + 1]) <==> HasUnhashableSource(s[..i]) || GroupName(s[i]).Raised?
  {
    assert s[..i + 1][i] == s[i];
    assert forall k :: 0 <= k < i ==> s[..i + 1][k] == s[..i][k];
  }

  /** One pass of the grouping loop keeps the groups and their order equal to those of the articles seen. */
  lemma GroupsStep(articles: seq<Article>, i: int, groups: map<string, seq<Article>>, order: seq<string>, name: string)
    requires 0 <= i < |articles| && GroupName(articles[i]) == Ok(name)
    requires order == SourceOrder(articles[..i])
    requires forall n :: n in groups <==> n in order
    requires forall n :: n in groups ==> groups[n] == Group(articles[..i], n)
    ensures var g := if name in groups then groups else groups[name := []];
      var g2 := g[name := g[name] + [articles[i]]];
      var o2 := if name in groups then order else order + [name];
      && o2 == SourceOrder(articles[..i + 1])
      && (forall n :: n in g2 <==> n in o2)
      && (forall n :: n in g2 ==> g2[n] == Group(articles[..i + 1], n))
  {
    SourceOrderStep(articles, i);
    forall other | other in groups
      ensures Group(articles[..i + 1], other)
           == groups[other] + (if InGroup(other)(articles[i]) then [articles[i]] else [])
    {
      FilterStep(articles, i, InGroup(other));
    }
    FilterStep(articles, i, InGroup(name));
    if name !in groups {
      GroupOutsideOrder(articles[..i], name);
    }
  }

  /** Two positions of a list without repeats hold different values. */
  lemma NoRepeatsDistinct<T>(s: seq<T>, i: int, j: int)
    requires NoRepeats(s) && 0 <= i < j < |s|
    ensures s[i] != s[j]
  {
    NoRepeatsAt(s, j);
    assert s[i] == s[..j][i];
  }

  /** The loop that sorts each group newest first, in group order. */
  method SortGroups<T>(names: seq<string>, groups: map<string, seq<T>>, key: T -> SortKey)
    returns (ok: bool, sorted: map<string, seq<T>>)
    requires NoRepeats(names)
    requires forall name :: name in groups <==> name in names
    ensures ok == forall m :: 0 <= m < |names| ==> !BareSortRaises(groups[names[m]], key)
    ensures ok ==> forall name :: name in sorted <==> name in groups
    ensures ok ==> forall name :: name in sorted ==> sorted[name] == SortDesc(groups[name], key)
  {
    sorted := groups;
    for k := 0 to |names|
      invariant forall m :: 0 <= m < k ==> !BareSortRaises(groups[names[m]], key)
      invariant sorted.Keys == groups.Keys
      invariant forall m :: 0 <= m < k ==> sorted[names[m]] == SortDesc(groups[names[m]], key)
      invariant forall m :: k <= m < |names| ==> sorted[names[m]] == groups[names[m]]
    {
      var name := names[k];
      forall m | 0 <= m < |names| && m != k
        ensures names[m] != name
      {
        if m < k {
          NoRepeatsDistinct(names, m, k);
        } else {
          NoRepeatsDistinct(names, k, m);
        }
      }
      var group := sorted[name];
      if BareSortRaises(group, key) {
        return false, sorted;
      }
      sorted := sorted[name := SortDesc(group, key)];
    }
    forall name | name in sorted
      ensures sorted[name] == SortDesc(groups[name], key)
    {
      var m :| 0 <= m < |names| && names[m] == name;
    }
    ok := true;
  }

  /** `group[:max]` of a group held in the map. */
  function TakeFrom(groups: map<string, seq<Article>>, max: int): string -> seq<Article> {
    name => if name in groups then PyPrefix(groups[name], max) else []
  }

  /** The loop that extends the result with the first `max` articles of each sorted group. */
  method TakeFromGroups(names: seq<string>, groups: map<string, seq<Article>>, max: int) returns (limited: seq<Article>)
    requires forall name :: name in names ==> name in groups
    ensures limited == Concat(names, TakeFrom(groups, max))
  {
    limited := [];
    for k := 0 to |names|
      invariant limited == Concat(names[..k], TakeFrom(groups, max))
    {
      assert names[..k + 1][..k] == names[..k];
      limited := limited + PyPrefix(groups[names[k]], max);
    }
    assert names[..|names|] == names;
  }

  /** A name that no article's source gives has an empty group. */
  lemma GroupOutsideOrder(s: seq<Article>, name: string)
    requires name !in SourceOrder(s)
    ensures Group(s, name) == []
  {
    SourceOrderMembers(s, name);
    FilterNone(s, InGroup(name));
  }

  /** The newest `max` of a source's articles all belong to that source. */
  lemma NewestInGroup(s: seq<Article>, name: string, max: int)
    ensures forall i :: 0 <= i < |Newest(s, max)(name)| ==> InGroup(name)(Newest(s, max)(name)[i])
  {
    var g := Group(s, name);
    var sd := SortDesc(g, LimitKey);
    var top := Newest(s, max)(name);
    SortDescPermutation(g, LimitKey);
    forall i | 0 <= i < |top|
      ensures InGroup(name)(top[i])
    {
      assert top[i] == sd[i];
      assert sd[i] in multiset(g);
      var j :| 0 <= j < |g| && g[j] == sd[i];
    }
  }

  /** The articles of one source in the concatenation are that source's newest `max`. */
  lemma FilterLimited(s: seq<Article>, names: seq<string>, max: int, name: string)
    requires NoRepeats(names)
    ensures Filter(LimitedGroups(s, names, max), InGroup(name))
         == if name in names then Newest(s, max)(name) else []
  {
    forall j, i | 0 <= j < |names| && 0 <= i < |Newest(s, max)(names[j])|
      ensures InGroup(names[j])(Newest(s, max)(names[j])[i])
    {
      NewestInGroup(s, names[j], max);
    }
    FilterConcat(names, Newest(s, max), InGroup, GroupKey, name);
  }

  /** The articles that pass through a group: those whose source is hashable. */
  predicate Grouped(a: Article) {
    GroupName(a).Ok?
  }

  /** Every article in the concatenation belongs to one of the listed sources. */
  lemma LimitedGrouped(s: seq<Article>, names: seq<string>, max: int)
    ensures forall i :: 0 <= i < |LimitedGroups(s, names, max)| ==> Grouped(LimitedGroups(s, names, max)[i])
  {
    forall j, i | 0 <= j < |names| && 0 <= i < |Newest(s, max)(names[j])|
      ensures Grouped(Newest(s, max)(names[j])[i])
    {
      NewestInGroup(s, names[j], max);
      InGroupMeans(names[j], Newest(s, max)(names[j])[i]);
    }
    ConcatAll(names, Newest(s, max), Grouped);
  }

  /**
   * Per source, the result holds exactly that source's `max` newest articles
   * (each source sorted newest first, ties in input order).
   */
  lemma LimitedPerSource(articles: seq<Article>, max: int, name: string)
    requires LimitedBySource(articles, max).Ok?
    ensures multiset(Filter(LimitedBySource(articles, max).value, InGroup(name)))
         == multiset(Newest(articles, max)(name))
    ensures max >= 0 ==> |Filter(LimitedBySource(articles, max).value, InGroup(name))| <= max
  {
    var r := LimitedBySource(articles, max).value;
    if articles == [] {
      assert Group(articles, name) == [];
    } else {
      var names := SourceOrder(articles);
      var limited := LimitedGroups(articles, names, max);
      SourceOrderDistinct(articles);
      FilterLimited(articles, names, max, name);
      SortDescPermutation(limited, LimitKey);
      FilterPermutation(r, limited, InGroup(name));
      if name !in names {
        GroupOutsideOrder(articles, name);
      }
    }
    assert |multiset(Filter(r, InGroup(name)))| == |Filter(r, InGroup(name))|;
  }

  /** The result is sorted newest first. */
  lemma LimitedSorted(articles: seq<Article>, max: int)
    requires LimitedBySource(articles, max).Ok?
    ensures SortedDesc(LimitedBySource(articles, max).value, LimitKey)
  {
    if articles != [] {
      SortDescSorted(LimitedGroups(articles, SourceOrder(articles), max), LimitKey);
    }
  }

  /** Each value occurs in the result at most as often as in the input. */
  lemma LimitedCount(articles: seq<Article>, max: int, x: Article)
    requires LimitedBySource(articles, max).Ok?
    ensures multiset(LimitedBySource(articles, max).value)[x] <= multiset(articles)[x]
  {
    if articles != [] {
      if Grouped(x) {
        LimitedCountGrouped(articles, max, x);
      } else {
        var limited := LimitedGroups(articles, SourceOrder(articles), max);
        LimitedGrouped(articles, SourceOrder(articles), max);
        FilterAll(limited, Grouped);
        FilterCount(limited, Grouped, x);
        SortDescPermutation(limited, LimitKey);
      }
    }
  }

  lemma LimitedCountGrouped(articles: seq<Article>, max: int, x: Article)
    requires LimitedBySource(articles, max).Ok? && Grouped(x)
    ensures multiset(LimitedBySource(articles, max).value)[x] <= multiset(articles)[x]
  {
    var n := GroupName(x).value;
    InGroupMeans(n, x);
    FilterCount(LimitedBySource(articles, max).value, InGroup(n), x);
    LimitedPerSource(articles, max, n);
    NewestCount(articles, max, n, x);
  }

  /** The newest `max` of a group hold each of its articles at most as often as the input does. */
  lemma NewestCount(articles: seq<Article>, max: int, n: string, x: Article)
    requires InGroup(n)(x)
    ensures multiset(Newest(articles, max)(n))[x] <= multiset(articles)[x]
  {
    var sd := SortDesc(Group(articles, n), LimitKey);
    assert Newest(articles, max)(n) == PyPrefix(sd, max);
    PrefixCount(PyPrefix(sd, max), sd, x);
    SortDescPermutation(Group(articles, n), LimitKey);
    FilterCount(articles, InGroup(n), x);
  }

  lemma PrefixCount<T>(top: seq<T>, s: seq<T>, x: T)
    requires |top| <= |s| && top == s[..|top|]
    ensures multiset(top)[x] <= multiset(s)[x]
  {
    assert s == top + s[|top|..];
  }

  /** The result only holds articles of the input. */
  lemma LimitedSubset(articles: seq<Article>, max: int)
    requires LimitedBySource(articles, max).Ok?
    ensures multiset(LimitedBySource(articles, max).value) <= multiset(articles)
  {
    forall x
      ensures multiset(LimitedBySource(articles, max).value)[x] <= multiset(articles)[x]
    {
      LimitedCount(articles, max, x);
    }
  }

  /** `limit_articles_by_source(articles, max_per_source)`. */
  method LimitArticlesBySource(articles: seq<Article>, max: int) returns (r: Outcome<seq<Article>>)
    ensures r == LimitedBySource(articles, max)
  {
    if articles == [] {
      return Ok([]);
    }
    var ok, groups, names := GroupBySource(articles);
    if !ok {
      return Raised(TypeError);
    }
    SourceOrderDistinct(articles);
    var sorted;
    ok, sorted := SortGroups(names, groups, LimitKey);
    if !ok {
      var m :| 0 <= m < |names| && BareSortRaises(groups[names[m]], LimitKey);
      assert GroupSortRaises(articles, names);
      return Raised(TypeError);
    }
    forall m | 0 <= m < |names|
      ensures groups[names[m]] == Group(articles, names[m])
      ensures TakeFrom(sorted, max)(names[m]) == Newest(articles, max)(names[m])
    {
      assert names[m] in groups;
    }
    assert !GroupSortRaises(articles, names);
    var limited := TakeFromGroups(names, sorted, max);
    ConcatSameBlocks(names, TakeFrom(sorted, max), Newest(articles, max));
    if BareSortRaises(limited, LimitKey) {
      return Raised(TypeError);
    }
    r := Ok(SortDesc(limited, LimitKey));
  }
}
