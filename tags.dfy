/**
 * Interest tags (`formatting/tags.py`): a non-exclusive keyword table with a
 * fallback tag, and the choice of tag labels shown under an article.
 */
module Tags {
  import opened Wrappers
  import opened PyText
  import opened Records
  import opened Selection
  import Categorization

  datatype Interest = Interest(name: string, keywords: seq<string>)

  /** `interest_keywords`, in its insertion order. */
  const Interests: seq<Interest> := [
    Interest("Technology", ["tech", "technology", "software", "hardware", "digital", "computer", "programming"]),
    Interest("AI", ["ai", "artificial intelligence", "machine learning", "neural network", "deep learning", "chatgpt", "llm"]),
    Interest("Business", ["business", "company", "corporate", "industry", "market", "economy", "startup"]),
    Interest("Policy", ["policy", "regulation", "legislation", "law", "guideline", "rule"]),
    Interest("Education", ["education", "school", "teacher", "student", "classroom", "learning", "curriculum"]),
    Interest("Healthcare", ["health", "medical", "hospital", "patient", "doctor", "treatment", "medicine"]),
    Interest("Environment", ["climate", "environment", "sustainability", "renewable", "green energy", "conservation"]),
    Interest("Science", ["science", "research", "study", "discovery", "innovation", "breakthrough"])]

  const InternationalKeywords: seq<string> := ["international", "world", "global", "foreign"]
  const TechnologyKeywords: seq<string> := ["technology", "tech", "digital", "software"]
  const BusinessKeywords: seq<string> := ["business", "economy", "market", "stock"]
  const PoliticsKeywords: seq<string> := ["politics", "president", "congress", "election"]

  /** The interests, in table order, with a keyword in `text`. */
  function Matched(interests: seq<Interest>, text: string): seq<string> {
    if interests == [] then []
    else
      var last := interests[|interests| - 1];
      Matched(interests[..|interests| - 1], text) + (if AnyIn(text, last.keywords) then [last.name] else [])
  }

  /** A dict source's lower-cased `name`; `''` for any other source. */
  function FallbackSourceName(a: Article): string {
    match a.source
    case Record(name, _) => Lower(name.GetOr(""))
    case _ => ""
  }

  /** The single tag added when no interest matched. */
  function Fallback(a: Article): string {
    var text := Categorization.CombinedText(a);
    if Contains(FallbackSourceName(a), "fox news") then "U.S. News"
    else if AnyIn(text, InternationalKeywords) then "International"
    else if AnyIn(text, TechnologyKeywords) then "Technology"
    else if AnyIn(text, BusinessKeywords) then "Business"
    else if AnyIn(text, PoliticsKeywords) then "Politics"
    else "General News"
  }

  /** What `identify_tags(article)` returns, as the set its `list(set(...))` enumerates. */
  function Tags(a: Article): (tags: set<string>)
    ensures tags != {}
  {
    var m := Matched(Interests, Categorization.CombinedText(a));
    if m == [] then {Fallback(a)}
    else
      assert m[0] in Elements(m);
      Elements(m)
  }

  function Elements(m: seq<string>): (r: set<string>)
    ensures forall t :: t in r <==> t in m
  {
    set t | t in m
  }

  /** The inner loop with `break`: does some keyword occur in the text? */
  method KeywordIn(keywords: seq<string>, text: string) returns (found: bool)
    ensures found == AnyIn(text, keywords)
  {
    found := false;
    var j := 0;
    while j < |keywords|
      invariant 0 <= j <= |keywords|
      invariant forall m :: 0 <= m < j ==> !Contains(text, keywords[m])
    {
      if Contains(text, keywords[j]) {
        found := true;
        break;
      }
      j := j + 1;
    }
  }

  /** `identify_tags(article)`. */
  method IdentifyTags(a: Article) returns (tags: set<string>)
    ensures tags == Tags(a)
  {
    var text := Categorization.CombinedText(a);
    var matched: seq<string> := [];
    for i := 0 to |Interests|
      invariant matched == Matched(Interests[..i], text)
    {
      assert Interests[..i + 1][..i] == Interests[..i];
      var found := KeywordIn(Interests[i].keywords, text);
      if found {
        matched := matched + [Interests[i].name];
      }
    }
    assert Interests[..|Interests|] == Interests;
    if matched == [] {
      var fallback := Fallback(a);
      matched := matched + [fallback];
      tags := {fallback};
    } else {
      tags := Elements(matched);
    }
  }

  /** A name is matched iff one of its interests has a keyword in the text. */
  lemma {:induction false} MatchedMeans(interests: seq<Interest>, text: string, name: string)
    ensures name in Matched(interests, text)
        <==> exists i :: 0 <= i < |interests| && interests[i].name == name && AnyIn(text, interests[i].keywords)
  {
    if interests != [] {
      var front := interests[..|interests| - 1];
      MatchedMeans(front, text, name);
      if exists i :: 0 <= i < |front| && front[i].name == name && AnyIn(text, front[i].keywords) {
        var i :| 0 <= i < |front| && front[i].name == name && AnyIn(text, front[i].keywords);
        assert interests[i] == front[i];
      }
      if exists i :: 0 <= i < |interests| && interests[i].name == name && AnyIn(text, interests[i].keywords) {
        var i :| 0 <= i < |interests| && interests[i].name == name && AnyIn(text, interests[i].keywords);
        if i < |front| {
          assert front[i] == interests[i];
        }
      }
    }
  }

  /** The eight interest names are distinct. */
  lemma InterestNamesDistinct()
    ensures forall i, j :: 0 <= i < j < |Interests| ==> Interests[i].name != Interests[j].name
  {
  }

  /**
   * An interest whose keyword occurs is always a tag; when any interest
   * matched, an interest is a tag exactly when one of its keywords occurs.
   */
  lemma InterestTag(a: Article, k: int)
    requires 0 <= k < |Interests|
    ensures AnyIn(Categorization.CombinedText(a), Interests[k].keywords) ==> Interests[k].name in Tags(a)
    ensures Matched(Interests, Categorization.CombinedText(a)) != [] ==>
      (Interests[k].name in Tags(a) <==> AnyIn(Categorization.CombinedText(a), Interests[k].keywords))
  {
    var text := Categorization.CombinedText(a);
    MatchedMeans(Interests, text, Interests[k].name);
    InterestNamesDistinct();
  }

  /** Without a matching interest the result is the one fallback tag. */
  lemma FallbackTag(a: Article)
    requires Matched(Interests, Categorization.CombinedText(a)) == []
    ensures Tags(a) == {Fallback(a)}
    ensures |Tags(a)| == 1
  {
  }

  /**
   * The `Technology` fallback is never taken: each of its keywords is also a
   * keyword of the `Technology` interest, which would have matched first.
   */
  lemma TechnologyFallbackUnreachable(a: Article)
    requires Matched(Interests, Categorization.CombinedText(a)) == []
    ensures Fallback(a) != "Technology"
  {
    var text := Categorization.CombinedText(a);
    MatchedMeans(Interests, text, "Technology");
    assert !AnyIn(text, Interests[0].keywords);
    forall i | 0 <= i < |TechnologyKeywords|
      ensures !Contains(text, TechnologyKeywords[i])
    {
      var k := [1, 0, 4, 2][i];
      assert Interests[0].keywords[k] == TechnologyKeywords[i];
    }
  }

  // ---------------------------------------------------------------- get_personalization_tags_html

  /** `tag_categories`: a group to its label. */
  const TagCategories: map<string, string> := map[
    "legal" := "🔒 Legal",
    "education" := "🏫 Education",
    "health" := "🏥 Healthcare",
    "economy" := "📈 Economy",
    "global" := "🧭 Global Affairs",
    "tech" := "⚡️ Technology",
    "politics" := "🏛️ Politics",
    "environment" := "🌳 Environment",
    "science" := "🔬 Science"]

  /** `PERSONALIZATION_TAGS` of the settings: a tag to its emoji. */
  const PersonalizationEmoji: map<string, string> := map[
    "Legal" := "🔒",
    "Education" := "🏫",
    "Healthcare" := "🏥",
    "Economy" := "📈",
    "Global Affairs" := "🧭",
    "Technology" := "⚡️",
    "Politics" := "🏛️",
    "Science" := "🔬",
    "Environment" := "🌱",
    "Sports" := "⚽",
    "Entertainment" := "🎬",
    "Business" := "💼",
    "Finance" := "💰",
    "Social Issues" := "👥"]

  /** The group of a raw tag: the first branch of the `elif` chain its lower-cased text satisfies. */
  function GroupOf(tag: string): (g: Option<string>)
    ensures g.Some? ==> g.value in TagCategories
  {
    var t := Lower(tag);
    if AnyIn(t, ["legal", "law", "regulation"]) then Some("legal")
    else if AnyIn(t, ["education", "school", "learning"]) then Some("education")
    else if AnyIn(t, ["health", "medical", "hospital"]) then Some("health")
    else if AnyIn(t, ["economy", "market", "financial", "business"]) then Some("economy")
    else if AnyIn(t, ["global", "international", "world"]) then Some("global")
    else if AnyIn(t, ["tech", "ai", "software", "digital"]) then Some("tech")
    else if AnyIn(t, ["government", "policy", "politics"]) then Some("politics")
    else if AnyIn(t, ["environment", "climate", "sustainability"]) then Some("environment")
    else if AnyIn(t, ["science", "research"]) then Some("science")
    else None
  }

  /** One span of the output, its HTML wrapper left out. */
  datatype Span = TagSpan(tag: string, emoji: Option<string>) | LabelSpan(text: string)

  /** The span of a tag emitted directly: with its emoji iff it has one. */
  function DirectSpan(tag: string): Span {
    TagSpan(tag, if tag in PersonalizationEmoji then Some(PersonalizationEmoji[tag]) else None)
  }

  function DirectSpans(tags: seq<string>): seq<Span> {
    if tags == [] then [] else DirectSpans(tags[..|tags| - 1]) + [DirectSpan(tags[|tags| - 1])]
  }

  predicate Ungrouped(tag: string) {
    GroupOf(tag).None?
  }

  /** The test `tag not in processed_tags`, against the tags emitted so far. */
  function NotYetEmitted(): (seq<string>, string) -> bool {
    (kept: seq<string>, t: string) => t !in kept
  }

  /** The tags emitted directly: the ungrouped ones, each at its first occurrence. */
  function DirectTags(raw: seq<string>): seq<string> {
    KeepFirst(Filter(raw, Ungrouped), NotYetEmitted())
  }

  /** `category_matches` after the loop. */
  function GroupsOf(raw: seq<string>): set<string> {
    set t | t in raw && GroupOf(t).Some? :: GroupOf(t).value
  }

  /** The label used when no span was produced, chosen by the article's section. */
  function SectionLabel(section: string): string {
    if section == "WORLD_NEWS" then "🧭 Global Affairs"
    else if section == "US_NEWS" then "🏛️ U.S. News"
    else if section == "TECHNOLOGY" then "⚡️ Technology"
    else if section == "BUSINESS" then "📈 Economy"
    else if section == "POLITICS" then "🏛️ Politics"
    else "📰 News"
  }

  /**
   * `get_personalization_tags_html(article)` on the tags `raw` that
   * `identify_tags` returned, in the order its list enumerates them. The
   * output is the direct spans, then one label span per group in `groups` (in
   * the set's own order), or else the single `fallback` span.
   */
  method PersonalizationTags(a: Article, raw: seq<string>)
    returns (direct: seq<Span>, groups: set<string>, fallback: Option<Span>)
    ensures direct == DirectSpans(DirectTags(raw))
    ensures groups == GroupsOf(raw)
    ensures fallback == if direct == [] && groups == {}
                        then Some(LabelSpan(SectionLabel(Categorization.CategorizeArticle(a)))) else None
  {
    var processed: set<string> := {};
    var emitted: seq<string> := [];
    direct, groups := [], {};
    for i := 0 to |raw|
      invariant emitted == DirectTags(raw[..i])
      invariant direct == DirectSpans(emitted)
      invariant forall t :: t in processed <==> t in emitted
      invariant groups == GroupsOf(raw[..i])
    {
      PersonalizationStep(raw, i);
      var tag := raw[i];
      var g := GroupOf(tag);
      if g.Some? {
        groups := groups + {g.value};
      } else if tag !in processed {
        processed := processed + {tag};
        emitted := emitted + [tag];
        direct := direct + [DirectSpan(tag)];
      }
    }
    assert raw[..|raw|] == raw;
    if direct == [] && groups == {} {
      var section := Categorization.CategorizeArticle(a);
      fallback := Some(LabelSpan(SectionLabel(section)));
    } else {
      fallback := None;
    }
  }

  /** One pass of the loop over the raw tags. */
  lemma PersonalizationStep(raw: seq<string>, i: int)
    requires 0 <= i < |raw|
    ensures DirectTags(raw[..i + 1])
         == DirectTags(raw[..i]) + (if Ungrouped(raw[i]) && raw[i] !in DirectTags(raw[..i]) then [raw[i]] else [])
    ensures GroupsOf(raw[..i + 1])
         == GroupsOf(raw[..i]) + (if GroupOf(raw[i]).Some? then {GroupOf(raw[i]).value} else {})
  {
    assert raw[..i + 1] == raw[..i] + [raw[i]];
    DirectTagsStep(raw[..i], raw[i]);
    GroupsOfStep(raw[..i], raw[i]);
  }

  lemma DirectTagsStep(raw: seq<string>, tag: string)
    ensures DirectTags(raw + [tag])
         == DirectTags(raw) + (if Ungrouped(tag) && tag !in DirectTags(raw) then [tag] else [])
  {
    FirstOfFilteredStep(raw, tag, Ungrouped);
  }

  /** Appending one value to the input of keep-first-of-filter. */
  lemma FirstOfFilteredStep(raw: seq<string>, tag: string, p: string -> bool)
    ensures KeepFirst(Filter(raw + [tag], p), NotYetEmitted())
         == var k := KeepFirst(Filter(raw, p), NotYetEmitted()); k + (if p(tag) && tag !in k then [tag] else [])
  {
    var admits := NotYetEmitted();
    var r := raw + [tag];
    FilterStep(r, |raw|, p);
    assert r[..|raw|] == raw && r[..|raw| + 1] == r;
    var filtered := Filter(raw, p);
    if p(tag) {
      var f := filtered + [tag];
      KeepFirstStep(f, |filtered|, admits);
      assert f[..|filtered|] == filtered;
      assert f[..|filtered| + 1] == f;
      assert f[|filtered|] == tag;
      assert Filter(r, p) == f;
      var k := KeepFirst(filtered, admits);
      assert admits(k, tag) == (tag !in k);
      assert k + [] == k;
    } else {
      assert filtered + [] == filtered;
      assert Filter(r, p) == filtered;
      var k := KeepFirst(filtered, admits);
      assert k + [] == k;
    }
  }

  lemma GroupsOfStep(raw: seq<string>, tag: string)
    ensures GroupsOf(raw + [tag]) == GroupsOf(raw) + (if GroupOf(tag).Some? then {GroupOf(tag).value} else {})
  {
    var g := GroupOf(tag);
    forall x
      ensures x in GroupsOf(raw + [tag]) <==> x in GroupsOf(raw) || (g.Some? && x == g.value)
    {
      if x in GroupsOf(raw + [tag]) {
        var t :| t in raw + [tag] && GroupOf(t).Some? && GroupOf(t).value == x;
        if t != tag {
          assert t in raw;
        }
      }
      if x in GroupsOf(raw) {
        var t :| t in raw && GroupOf(t).Some? && GroupOf(t).value == x;
        assert t in raw + [tag];
      }
      if g.Some? && x == g.value {
        assert tag in raw + [tag];
      }
    }
  }

  /**
   * Every ungrouped raw tag is emitted directly exactly once, and nothing else
   * is; each emitted tag carries its emoji iff it has one.
   */
  lemma DirectTagsOnce(raw: seq<string>)
    ensures forall t :: t in DirectTags(raw) <==> t in raw && Ungrouped(t)
    ensures NoRepeats(DirectTags(raw))
  {
    var admits := NotYetEmitted();
    var f := Filter(raw, Ungrouped);
    var d := DirectTags(raw);
    KeepFirstIsSubsequence(f, admits);
    SubsequenceMembers(d, f);
    FilterIsSubsequence(raw, Ungrouped);
    SubsequenceMembers(f, raw);
    forall t | t in raw && Ungrouped(t)
      ensures t in d
    {
      var i :| 0 <= i < |raw| && raw[i] == t;
      FilterCount(raw, Ungrouped, t);
      assert t in multiset(f);
      KeepFirstKeepsNew(f, t);
    }
    KeepFirstAdmitted(f, admits);
    AdmittedNoRepeats(d);
  }

  /** Keeping first occurrences loses no value. */
  lemma {:induction false} KeepFirstKeepsNew(s: seq<string>, t: string)
    requires t in s
    ensures t in KeepFirst(s, NotYetEmitted())
  {
    var admits := NotYetEmitted();
    var front := s[..|s| - 1];
    assert KeepFirst(s, admits) == var k := KeepFirst(front, admits); if admits(k, s[|s| - 1]) then k + [s[|s| - 1]] else k;
    if t in front {
      KeepFirstKeepsNew(front, t);
    }
  }

  /** A list each of whose elements is new at its position has no repeats. */
  lemma {:induction false} AdmittedNoRepeats(d: seq<string>)
    requires AllAdmitted(d, NotYetEmitted())
    ensures NoRepeats(d)
  {
    if d != [] {
      var front := d[..|d| - 1];
      assert AllAdmitted(front, NotYetEmitted()) by {
        forall i | 0 <= i < |front|
          ensures front[i] !in front[..i]
        {
          assert front[..i] == d[..i];
          assert d[i] !in d[..i];
        }
      }
      AdmittedNoRepeats(front);
      assert d[|d| - 1] !in d[..|d| - 1];
    }
  }

  /** A span is produced for every non-empty tag list, so the fallback is only reached without tags. */
  lemma SpansForTags(raw: seq<string>)
    requires raw != []
    ensures DirectTags(raw) != [] || GroupsOf(raw) != {}
  {
    if GroupOf(raw[0]).Some? {
      assert GroupOf(raw[0]).value in GroupsOf(raw);
    } else {
      DirectTagsOnce(raw);
      assert raw[0] in DirectTags(raw);
    }
  }

  /**
   * On the tags `identify_tags` produces, which are never empty, the fallback
   * span is unreachable.
   */
  lemma NoFallbackForIdentifiedTags(a: Article, raw: seq<string>)
    requires forall t :: t in raw <==> t in Tags(a)
    ensures DirectTags(raw) != [] || GroupsOf(raw) != {}
  {
    var t :| t in Tags(a);
    assert t in raw;
    SpansForTags(raw);
  }
}
