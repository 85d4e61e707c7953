/**
 * Newsletter sections (`formatting/categorization.py`): a fixed-priority
 * table of substring rules over the source name, then over the article text.
 */
module Categorization {
  import opened Wrappers
  import opened PyText
  import opened Records

  /** `SECTION_CATEGORIES`: section key to heading. */
  const SectionCategories: map<string, string> := map[
    "US_NEWS" := "U.S. Headlines",
    "WORLD_NEWS" := "World News",
    "POLITICS" := "Politics",
    "TECHNOLOGY" := "Technology",
    "BUSINESS" := "Business & Economy",
    "LEFT_LEANING" := "Left-Leaning Sources",
    "CENTER" := "Center-Aligned Sources",
    "RIGHT_LEANING" := "Right-Leaning Sources",
    "PERSONALIZED" := "Personalized Stories",
    "LOCAL" := "Local News"]

  const LeftLeaningSources: seq<string> := ["cnn", "msnbc", "nyt", "new york times", "washington post"]
  const RightLeaningSources: seq<string> := ["fox", "national review", "newsmax", "washington examiner"]
  const CenterSources: seq<string> := ["npr", "reuters", "ap", "associated press", "pbs", "abc", "cbs"]
  const WorldSources: seq<string> := ["bbc", "al jazeera", "france24", "dw", "guardian world"]
  const TechnologySources: seq<string> := ["techcrunch", "wired", "ars technica", "technology review"]
  const LocalSources: seq<string> := ["tennessean", "nashville", "tennessee"]

  const WorldKeywords: seq<string> := ["international", "global", "worldwide", "foreign", "abroad"]
  const PoliticsKeywords: seq<string> := ["president", "congress", "senate", "governor", "election", "campaign", "government"]
  const TechnologyKeywords: seq<string> := ["tech", "technology", "software", "app", "digital", "ai", "artificial intelligence"]
  const BusinessKeywords: seq<string> := ["business", "economy", "market", "stock", "company", "entrepreneur", "ceo"]

  /**
   * The lower-cased source name: a dict's `name` (`''` when missing, and for a
   * missing source, which reads as `{}`), or `str()` of any other value.
   */
  function SourceName(a: Article): string {
    match a.source
    case NoSource => ""
    case Plain(t) => Lower(t)
    case Record(name, _) => Lower(name.GetOr(""))
  }

  /** `f"{title} {description}"` of the lower-cased title and description. */
  function CombinedText(a: Article): string {
    Lower(TitleOf(a)) + " " + Lower(DescriptionOf(a))
  }

  /** `categorize_article(article)`. */
  function CategorizeArticle(a: Article): (section: string)
    ensures section in SectionCategories && section != "PERSONALIZED"
  {
    var name := SourceName(a);
    var text := CombinedText(a);
    if AnyIn(name, LeftLeaningSources) then "LEFT_LEANING"
    else if AnyIn(name, RightLeaningSources) then "RIGHT_LEANING"
    else if AnyIn(name, CenterSources) then "CENTER"
    else if AnyIn(name, WorldSources) then "WORLD_NEWS"
    else if AnyIn(name, TechnologySources) then "TECHNOLOGY"
    else if AnyIn(name, LocalSources) then "LOCAL"
    else if AnyIn(text, WorldKeywords) then "WORLD_NEWS"
    else if AnyIn(text, PoliticsKeywords) then "POLITICS"
    else if AnyIn(text, TechnologyKeywords) then "TECHNOLOGY"
    else if AnyIn(text, BusinessKeywords) then "BUSINESS"
    else "US_NEWS"
  }

  // ---------------------------------------------------------------- the rules as a table

  datatype Rule = Rule(section: string, keys: seq<string>)

  /** The source-name rules in the order they are tried. */
  const SourceRules: seq<Rule> := [
    Rule("LEFT_LEANING", LeftLeaningSources),
    Rule("RIGHT_LEANING", RightLeaningSources),
    Rule("CENTER", CenterSources),
    Rule("WORLD_NEWS", WorldSources),
    Rule("TECHNOLOGY", TechnologySources),
    Rule("LOCAL", LocalSources)]

  /** The content rules in the order they are tried. */
  const ContentRules: seq<Rule> := [
    Rule("WORLD_NEWS", WorldKeywords),
    Rule("POLITICS", PoliticsKeywords),
    Rule("TECHNOLOGY", TechnologyKeywords),
    Rule("BUSINESS", BusinessKeywords)]

  /** The section of the first rule with a key in `text`. */
  function FirstMatch(rules: seq<Rule>, text: string): Option<string> {
    if rules == [] then None
    else if AnyIn(text, rules[0].keys) then Some(rules[0].section)
    else FirstMatch(rules[1..], text)
  }

  /** The first match is the section of a matching rule with no matching rule before it. */
  lemma {:induction false} FirstMatchMeans(rules: seq<Rule>, text: string)
    ensures FirstMatch(rules, text).None? <==> forall i :: 0 <= i < |rules| ==> !AnyIn(text, rules[i].keys)
    ensures FirstMatch(rules, text).Some? ==>
      exists i :: 0 <= i < |rules| && rules[i].section == FirstMatch(rules, text).value && AnyIn(text, rules[i].keys)
        && (forall j :: 0 <= j < i ==> !AnyIn(text, rules[j].keys))
  {
    if rules != [] && !AnyIn(text, rules[0].keys) {
      FirstMatchMeans(rules[1..], text);
      assert forall i :: 1 <= i < |rules| ==> rules[i] == rules[1..][i - 1];
      if FirstMatch(rules, text).Some? {
        var i :| 0 <= i < |rules[1..]| && rules[1..][i].section == FirstMatch(rules, text).value && AnyIn(text, rules[1..][i].keys)
          && (forall j :: 0 <= j < i ==> !AnyIn(text, rules[1..][j].keys));
        assert rules[i + 1] == rules[1..][i];
      }
    }
  }

  /**
   * The if-chain is the first-match reading of the two tables: a matching
   * source rule decides; only when none matches do the content rules, and
   * then the `US_NEWS` default, apply.
   */
  lemma CategorizeByTables(a: Article)
    ensures CategorizeArticle(a)
         == match FirstMatch(SourceRules, SourceName(a))
            case Some(section) => section
            case None => FirstMatch(ContentRules, CombinedText(a)).GetOr("US_NEWS")
  {
    SourceTable(SourceName(a));
    ContentTable(CombinedText(a));
  }

  /** One rule tried: it decides if it matches, else the rest of the table does. */
  lemma FirstMatchStep(rules: seq<Rule>, text: string)
    requires rules != []
    ensures FirstMatch(rules, text)
         == if AnyIn(text, rules[0].keys) then Some(rules[0].section) else FirstMatch(rules[1..], text)
  {
  }

  lemma SourceTable(name: string)
    ensures FirstMatch(SourceRules, name)
         == if AnyIn(name, LeftLeaningSources) then Some("LEFT_LEANING")
            else if AnyIn(name, RightLeaningSources) then Some("RIGHT_LEANING")
            else if AnyIn(name, CenterSources) then Some("CENTER")
            else if AnyIn(name, WorldSources) then Some("WORLD_NEWS")
            else if AnyIn(name, TechnologySources) then Some("TECHNOLOGY")
            else if AnyIn(name, LocalSources) then Some("LOCAL")
            else None
  {
    var r := SourceRules;
    FirstMatchStep(r[5..], name);
    FirstMatchStep(r[4..], name);
    FirstMatchStep(r[3..], name);
    FirstMatchStep(r[2..], name);
    FirstMatchStep(r[1..], name);
    FirstMatchStep(r, name);
  }

  lemma ContentTable(text: string)
    ensures FirstMatch(ContentRules, text)
         == if AnyIn(text, WorldKeywords) then Some("WORLD_NEWS")
            else if AnyIn(text, PoliticsKeywords) then Some("POLITICS")
            else if AnyIn(text, TechnologyKeywords) then Some("TECHNOLOGY")
            else if AnyIn(text, BusinessKeywords) then Some("BUSINESS")
            else None
  {
    var r := ContentRules;
    FirstMatchStep(r[3..], text);
    FirstMatchStep(r[2..], text);
    FirstMatchStep(r[1..], text);
    FirstMatchStep(r, text);
  }

  /** Any source-name rule that matches beats every content keyword. */
  lemma SourceRulesFirst(a: Article, i: int)
    requires 0 <= i < |SourceRules| && AnyIn(SourceName(a), SourceRules[i].keys)
    ensures exists j :: 0 <= j <= i && CategorizeArticle(a) == SourceRules[j].section
  {
    CategorizeByTables(a);
    FirstMatchMeans(SourceRules, SourceName(a));
    var r := FirstMatch(SourceRules, SourceName(a));
    var j :| 0 <= j < |SourceRules| && SourceRules[j].section == r.value && AnyIn(SourceName(a), SourceRules[j].keys)
        && forall m :: 0 <= m < j ==> !AnyIn(SourceName(a), SourceRules[m].keys);
    assert j <= i;
  }

  /**
   * `'ai'` matches inside any word: a bare headline "Said" with no source is
   * filed under `TECHNOLOGY`.
   */
  lemma SaidIsTechnology()
    ensures CategorizeArticle(Basic("Said", "", "")) == "TECHNOLOGY"
  {
    var a := Basic("Said", "", "");
    var text := "said ";
    assert Lower("Said") == "said";
    assert CombinedText(a) == text;
    assert text[1..3] == "ai";
    ContainsAt(text, "ai", 1);
    assert TechnologyKeywords[5] == "ai";
    ShortNeverContains(text, WorldKeywords);
    ShortNeverContains(text, PoliticsKeywords);
  }

  /** No key longer than the text is in it. */
  lemma ShortNeverContains(text: string, keys: seq<string>)
    requires forall i :: 0 <= i < |keys| ==> |keys[i]| > |text|
    ensures !AnyIn(text, keys)
  {
    forall i | 0 <= i < |keys|
      ensures !Contains(text, keys[i])
    {
      if Contains(text, keys[i]) {
        var k := ContainsIndex(text, keys[i]);
      }
    }
  }

  /** `NEWS_SOURCE_CATEGORIES` of the shared constants module. */
  const NewsSourceCategories: map<string, seq<string>> := map[
    "LEFT_LEANING" := ["cnn", "msnbc", "nyt", "new york times", "washington post"],
    "RIGHT_LEANING" := ["fox", "national review", "newsmax", "washington examiner"],
    "CENTER" := ["npr", "reuters", "ap", "associated press", "pbs", "abc", "cbs"],
    "WORLD_NEWS" := ["bbc", "al jazeera", "france24", "dw", "guardian world"],
    "TECHNOLOGY" := ["techcrunch", "wired", "ars technica", "technology review"],
    "LOCAL" := ["tennessean", "nashville", "tennessee"]]

  /** The source rules hard-coded in `categorize_article` are exactly the shared table. */
  lemma SourceRulesAreShared()
    ensures forall i :: 0 <= i < |SourceRules| ==>
      SourceRules[i].section in NewsSourceCategories && NewsSourceCategories[SourceRules[i].section] == SourceRules[i].keys
    ensures forall k :: k in NewsSourceCategories ==> exists i :: 0 <= i < |SourceRules| && SourceRules[i].section == k
  {
    assert SourceRules[0].section == "LEFT_LEANING";
    assert SourceRules[1].section == "RIGHT_LEANING";
    assert SourceRules[2].section == "CENTER";
    assert SourceRules[3].section == "WORLD_NEWS";
    assert SourceRules[4].section == "TECHNOLOGY";
    assert SourceRules[5].section == "LOCAL";
  }

  // ---------------------------------------------------------------- get_section_description

  const SectionDescriptions: map<string, string> := map[
    "US_NEWS" := "Top domestic news stories from across the United States.",
    "WORLD_NEWS" := "Major international events and global developments.",
    "POLITICS" := "The latest political news, policy updates, and government affairs.",
    "TECHNOLOGY" := "Breaking tech news, digital trends, and innovation.",
    "BUSINESS" := "Business headlines, economic updates, and market news.",
    "LEFT_LEANING" := "News from sources that tend to have a center-left perspective.",
    "CENTER" := "News from sources that aim for balanced, centrist coverage.",
    "RIGHT_LEANING" := "News from sources that tend to have a center-right perspective.",
    "PERSONALIZED" := "Stories selected based on your personal interests and preferences.",
    "LOCAL" := "News from your local area that may directly affect your community."]

  /** `get_section_description(section_key)`: non-empty exactly for the section keys. */
  function GetSectionDescription(key: string): (d: string)
    ensures key in SectionCategories ==> d != ""
    ensures key !in SectionCategories ==> d == ""
  {
    if key in SectionDescriptions then SectionDescriptions[key] else ""
  }
}
