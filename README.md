# AI newsletter article pipeline, in Dafny

This project models the article-processing core of the `ai_newsletter`
package. The package gathers news articles from the GNews service, keeps the
ones in a date window, and removes duplicates. It files each article under a
newsletter section, tags it with the reader's interests, summarizes it with a
chat-completion service, extracts key takeaways, and builds the address of the
hosted issue.

Articles are Python dicts whose keys may be missing. Here they are one
`Records.Article` datatype: every key that may be absent is an `Option`. A
date value (`Records.When`) is absent, `None`, a string, or a naive or aware
`datetime`. A `source` (`Records.Source`) is absent, a plain value, or a dict
with `name` and `url`.

Everything the core cannot compute itself is a parameter of the model:

- the HTTP transport of the GNews REST API, indexed by call number;
- the `gnews` library's two result lists;
- the chat-completion service, an oracle from call number and messages to a
  reply or an exception;
- `difflib.SequenceMatcher(...).ratio()` as `sim`;
- `dateutil.parser.parse` and `datetime.fromisoformat` as `parse` and `iso`;
- the America/Chicago conversion of naive bounds as `central`;
- the clocks, as `now`, `clock` and start and end readings.

Sleeps are not performed: each retry loop returns the list of waits it would
request.

Shared modules hold what several source files share:

- `PyText`: Python's `str.lower`, `strip`, `split`, `" ".join`, `re.sub(r'\s+', ' ', ...)` and `in`.
- `Ordering`: Python's stable `sorted(..., reverse=True)` over the sort keys the
  code builds, including exactly when a comparison raises `TypeError`.
- `Selection`: the "keep each element the list built so far admits" loop shape
  and the filter shape, with their subsequence and multiset facts.

Points where the model follows the code rather than its documentation:

- `formatting/deduplication.py` sorts by `source_preference.get(article.get('source', ''))`.
  For a dict-valued `source`, the form the GNews client produces, that lookup
  raises `TypeError` (a dict is unhashable). `Deduplication.Deduplicated` says
  so: on such input it returns `Raised(TypeError)`.
- `feeds/filters.py` reads the source as a dict. A plain string source has no
  `.get` and raises there.
- In `feeds/filters.py`, two articles that both lack a `url` are duplicates:
  `None == None`.
- In `formatting/categorization.py` and `formatting/tags.py`, keywords are
  substring tests. So `'ai'` matches inside "Said" (`Categorization.SaidIsTechnology`).
- In `feeds/gnews_client.py`, `is_major_story` lower-cases its major keywords before
  the substring test. So `'WHO'` matches "who" (`GNewsClient.WhoIsMajor`).
- In `feeds/fetcher.py`, every fetched article's age is 'Unknown' (`Fetcher.FetchedAgesUnknown`); see Findings.
- In `feeds/gnews_api.py`, a list- or object-valued source url does not make the domain exclusion raise:
  `in` tests membership there. Such an item is then dropped by `_process_articles` (`GNewsApi.ContainerUrlAdmitted`).

## Model

| member | source | states |
|---|---|---|
| PyText.CollapseStripIsJoinSplit | ai_newsletter/formatting/deduplication.py:21-24 | collapsing whitespace runs of a stripped text equals joining its `split()` words with single spaces |
| Deduplication.NormalizeTextWords | ai_newsletter/formatting/deduplication.py:21-24 | `normalize_text` is the lower-cased words joined by single spaces |
| Deduplication.NormalizeIdempotent | ai_newsletter/formatting/deduplication.py:21-24 | normalizing twice is normalizing once |
| Deduplication.NormalizeEqual | ai_newsletter/formatting/deduplication.py:21-37 | two normalized texts are equal iff their word lists are; a normalized text is empty iff it has no words |
| Deduplication.IsDuplicateByTitle | ai_newsletter/formatting/deduplication.py:31-37 | an article without title words duplicates nothing; the same non-empty title words always duplicate |
| Deduplication.IsDuplicateBySimilarity | ai_newsletter/formatting/deduplication.py:39-49 | for different titles: a duplicate iff title similarity exceeds the threshold and, when both have descriptions, description similarity exceeds 0.6 |
| Deduplication.IsDuplicateSymmetric | ai_newsletter/formatting/deduplication.py:26-49 | with a symmetric similarity measure the duplicate test is symmetric |
| Deduplication.Preference | ai_newsletter/formatting/deduplication.py:116-131 | a listed source gets its table value, above the default; any other source gets the default |
| Deduplication.UrlSeenAppend | ai_newsletter/formatting/deduplication.py:177-179 | after keeping an article, a url counts as seen iff it was seen before or is that article's non-empty url |
| Deduplication.DuplicateFound | ai_newsletter/formatting/deduplication.py:163-169 | the inner loop answers whether some kept article makes the candidate a duplicate |
| Deduplication.DeduplicateArticles | ai_newsletter/formatting/deduplication.py:112-180 | the loop computes the reference result, and kept plus counted duplicates add up to the input length |
| Deduplication.DeduplicatedSorted | ai_newsletter/formatting/deduplication.py:133-180 | the result is a subsequence of the input sorted by (preference, date) newest first, itself sorted, and a sub-multiset of the input |
| Deduplication.DeduplicatedDistinct | ai_newsletter/formatting/deduplication.py:151-180 | no two kept articles share a non-empty url, and no kept article duplicates one kept before it |
| Deduplication.DeduplicatedIdempotent | ai_newsletter/formatting/deduplication.py:134-180 | deduplicating a deduplicated list returns it unchanged |
| Deduplication.GroupName | ai_newsletter/formatting/deduplication.py:68-71 | a group name is never empty; the lookup raises exactly for a non-empty dict source without a name |
| Deduplication.SourceOrderDistinct | ai_newsletter/formatting/deduplication.py:66-75 | each group name is listed once |
| Deduplication.SourceOrderMembers | ai_newsletter/formatting/deduplication.py:66-75 | a name is listed iff some article's source gives it |
| Deduplication.GroupBySource | ai_newsletter/formatting/deduplication.py:66-75 | the grouping loop fails iff some source is unhashable; otherwise each group holds exactly its source's articles in input order, keyed by first appearance |
| Deduplication.SortGroups | ai_newsletter/formatting/deduplication.py:77-83 | every group is sorted newest first, and the loop fails iff some group's sort raises |
| Deduplication.TakeFromGroups | ai_newsletter/formatting/deduplication.py:85-88 | the result is the first `max` of each sorted group, concatenated in group order |
| Deduplication.NewestInGroup | ai_newsletter/formatting/deduplication.py:85-88 | the articles taken for a source all belong to that source |
| Deduplication.FilterLimited | ai_newsletter/formatting/deduplication.py:85-88 | a source's articles in the concatenation are exactly that source's newest `max` |
| Deduplication.LimitedPerSource | ai_newsletter/formatting/deduplication.py:62-95 | per source, the result holds exactly that source's newest `max` articles, and so at most `max` |
| Deduplication.LimitedSorted | ai_newsletter/formatting/deduplication.py:90-95 | the result is sorted newest first |
| Deduplication.LimitedCount | ai_newsletter/formatting/deduplication.py:62-95 | no article occurs in the result more often than in the input |
| Deduplication.LimitedSubset | ai_newsletter/formatting/deduplication.py:62-95 | the result is a sub-multiset of the input |
| Deduplication.LimitArticlesBySource | ai_newsletter/formatting/deduplication.py:62-99 | the method computes the reference result, including its `TypeError` cases |
| Ordering.SortDescPermutation | ai_newsletter/formatting/deduplication.py:133-141 | sorting permutes its input |
| Ordering.SortDescSorted | ai_newsletter/formatting/deduplication.py:133-141 | the sorted list is in descending key order |
| Ordering.SortDescStable | ai_newsletter/formatting/deduplication.py:90-95 | elements with equal keys keep their input order, as Python's stable sort keeps them |
| Filters.PublishedAtInstant | ai_newsletter/feeds/filters.py:33-47 | a falsy date is skipped, a `datetime` gives its instant (naive read as UTC), and a string is kept iff it parses |
| Filters.FilterArticlesByDate | ai_newsletter/feeds/filters.py:15-56 | the loop computes the reference filter |
| Filters.FilteredByDateMeans | ai_newsletter/feeds/filters.py:31-54 | with a bound, an article is kept, as often as it occurs, iff its parsed date lies in the inclusive window; order is kept |
| Filters.FilteredByDateInWindow | ai_newsletter/feeds/filters.py:33-54 | every kept article has a usable date inside the window |
| Filters.NormalizeTextAgrees | ai_newsletter/feeds/filters.py:60-63 | this file's `normalize_text` and the formatting one compute the same text |
| Filters.IsDuplicateMeans | ai_newsletter/feeds/filters.py:65-90 | equal `url` fields, both absent included, make a duplicate; otherwise the test is the content test of the formatting module |
| Filters.IsDuplicateByContent | ai_newsletter/feeds/filters.py:69-90 | with different urls, the title and description rules decide, as in the formatting module |
| Filters.Preference | ai_newsletter/feeds/filters.py:97-114 | a listed source gets its table value, above 5; any other source gets 5 |
| Filters.UrlSeenAppend | ai_newsletter/feeds/filters.py:125-142 | after keeping an article, a url counts as seen iff it was seen before or is that article's non-empty url |
| Filters.DuplicateFound | ai_newsletter/feeds/filters.py:132-138 | the inner loop answers whether some kept article makes the candidate a duplicate |
| Filters.DeduplicateArticles | ai_newsletter/feeds/filters.py:92-146 | the loop computes the reference result, and kept plus counted duplicates add up to the input length |
| Filters.DeduplicatedSorted | ai_newsletter/feeds/filters.py:110-143 | the result is a subsequence of the input sorted by preference and date, itself sorted, and a sub-multiset of the input |
| Filters.DeduplicatedDistinct | ai_newsletter/feeds/filters.py:124-143 | kept articles have pairwise different `url` fields, and none duplicates one kept before it |
| Filters.DeduplicatedIdempotent | ai_newsletter/feeds/filters.py:92-143 | deduplicating a deduplicated list returns it unchanged |
| DateUtils.PublishedInstant | ai_newsletter/formatting/date_utils.py:75-87 | only a `datetime` gives an instant (naive read as UTC); strings and missing values are skipped |
| DateUtils.FilterArticlesByDate | ai_newsletter/formatting/date_utils.py:55-96 | the loop computes the reference filter |
| DateUtils.FilteredByDateMeans | ai_newsletter/formatting/date_utils.py:74-96 | with a bound, an article is kept, as often as it occurs, iff its `published` is a `datetime` inside the inclusive window; order is kept |
| DateUtils.FilteredByDateNeedsTime | ai_newsletter/formatting/date_utils.py:75-82 | a string-valued or missing `published` never passes a bounded filter |
| Categorization.CategorizeArticle | ai_newsletter/formatting/categorization.py:18-59 | the section is always a section key, and never the personalized one |
| Categorization.FirstMatchMeans | ai_newsletter/formatting/categorization.py:34-56 | a table gives no section iff no rule matches; otherwise it gives the section of a matching rule with no matching rule before it |
| Categorization.CategorizeByTables | ai_newsletter/formatting/categorization.py:28-59 | a matching source rule decides; only when none matches do the content rules apply; the default is `US_NEWS` |
| Categorization.SourceTable | ai_newsletter/formatting/categorization.py:35-46 | the source rules are tried in the order left, right, center, world, technology, local |
| Categorization.ContentTable | ai_newsletter/formatting/categorization.py:49-56 | the content rules are tried in the order world, politics, technology, business |
| Categorization.SourceRulesFirst | ai_newsletter/formatting/categorization.py:34-56 | a matching source rule beats every content keyword: the section is that of it or of an earlier source rule |
| Categorization.SaidIsTechnology | ai_newsletter/formatting/categorization.py:28-53 | the bare headline "Said" is filed under `TECHNOLOGY`, since `'ai'` is a substring test |
| Categorization.SourceRulesAreShared | ai_newsletter/core/constants.py:37-44 | the source rules in the if-chain are exactly the shared source-category table |
| Categorization.GetSectionDescription | ai_newsletter/formatting/categorization.py:61-75 | the description is non-empty exactly for the section keys |
| Tags.Tags | ai_newsletter/formatting/tags.py:43-59 | an article always gets at least one tag |
| Tags.KeywordIn | ai_newsletter/formatting/tags.py:37-41 | the loop with `break` answers whether some keyword occurs in the text |
| Tags.IdentifyTags | ai_newsletter/formatting/tags.py:8-59 | the method's result set is the reference tag set |
| Tags.MatchedMeans | ai_newsletter/formatting/tags.py:36-41 | an interest is matched iff one of its keywords occurs in the text |
| Tags.InterestNamesDistinct | ai_newsletter/formatting/tags.py:25-34 | the eight interest names are distinct |
| Tags.InterestTag | ai_newsletter/formatting/tags.py:36-59 | a matching interest is always a tag; when any interest matched, an interest is a tag iff it matches |
| Tags.FallbackTag | ai_newsletter/formatting/tags.py:43-57 | without a matching interest the result is exactly one fallback tag |
| Tags.TechnologyFallbackUnreachable | ai_newsletter/formatting/tags.py:43-57 | the `Technology` fallback is never taken: its keywords belong to an interest that would have matched |
| Tags.GroupOf | ai_newsletter/formatting/tags.py:91-113 | a raw tag falls into at most one group, the first branch of the `elif` chain, and that group has a label |
| Tags.PersonalizationTags | ai_newsletter/formatting/tags.py:61-143 | the output is the direct spans of ungrouped tags, then the group labels, with the section fallback exactly when both are empty |
| Tags.PersonalizationStep | ai_newsletter/formatting/tags.py:91-122 | one pass emits an ungrouped tag not yet emitted, or adds the tag's group |
| Tags.DirectTagsOnce | ai_newsletter/formatting/tags.py:113-122 | every ungrouped raw tag is emitted once and nothing else is |
| Tags.SpansForTags | ai_newsletter/formatting/tags.py:91-129 | a non-empty tag list always produces a span, so the fallback needs an empty list |
| Tags.NoFallbackForIdentifiedTags | ai_newsletter/formatting/tags.py:72-143 | on the tags `identify_tags` produces, the section fallback is unreachable |
| Fetcher.AgeBucket | ai_newsletter/feeds/fetcher.py:116-130 | the buckets partition the ages at 6 hours, 1, 2 and 7 days, with strict bounds; a future date is 'Breaking' |
| Fetcher.AgeBucketMonotone | ai_newsletter/feeds/fetcher.py:121-130 | an older article never gets a younger bucket |
| Fetcher.CategorizeArticleAge | ai_newsletter/feeds/fetcher.py:116-130 | a naive date raises `TypeError`; an aware one gets a bucket, 'Breaking' at or after now and 'Older' after a week |
| Fetcher.AgeCategory | ai_newsletter/feeds/fetcher.py:98-107 | the intended age step: a falsy date is 'Unknown', a `datetime` is bucketed directly, a string as written |
| Fetcher.AgeAsWrittenIgnoresDatetimes | ai_newsletter/feeds/fetcher.py:98-107 | as written, an article without a string `published_at` is 'Unknown' |
| Fetcher.AgeAsWrittenAlwaysUnknown | ai_newsletter/feeds/fetcher.py:98-107 | as written, every article `search_news` returns is 'Unknown', whatever its date |
| Fetcher.AgeAsWrittenLosesBreaking | ai_newsletter/feeds/fetcher.py:98-107 | an article published at now is 'Unknown' as written and 'Breaking' as intended |
| Fetcher.AgedMeans | ai_newsletter/feeds/fetcher.py:97-107 | setting ages as written keeps the list and every other field, and leaves each article with a bucket or 'Unknown' |
| Fetcher.AgedVersusIntended | ai_newsletter/feeds/fetcher.py:97-107 | the ages as written and as intended differ only for a `datetime` date, which is 'Unknown' as written; a string date gets the same label from both; a date at or after the clock reading is 'Breaking' as intended |
| Fetcher.AfterSearch | ai_newsletter/feeds/fetcher.py:58-88 | one query leaves the set of category counters unchanged |
| Fetcher.RunQueries | ai_newsletter/feeds/fetcher.py:52-88 | a category's query loop leaves the set of category counters unchanged |
| Fetcher.FetchTrace | ai_newsletter/feeds/fetcher.py:44-91 | call `k` goes to the search as call `k`, with fewer than the limit of requests used; `requests_made` counts the calls that returned and never passes the limit; the articles, failed and empty lists are what the calls contributed, in call order |
| Fetcher.QueriesEffect | ai_newsletter/feeds/fetcher.py:52-88 | a category's calls are for it and its queries; its new articles follow the old ones, are tagged with it, and are added to its counter only |
| Fetcher.CategoriesUntouched | ai_newsletter/feeds/fetcher.py:44-49 | a name of no enabled category is never queried, tags nothing, and keeps its counter |
| Fetcher.CategoriesQueried | ai_newsletter/feeds/fetcher.py:44-52 | every call is for an enabled category and one of its own queries |
| Fetcher.FetchTagged | ai_newsletter/feeds/fetcher.py:68-76 | every gathered article is tagged with the enabled category and the query that found it |
| Fetcher.FetchDates | ai_newsletter/feeds/fetcher.py:58-76 | every gathered article holds the `datetime` or `None` that `search_news` parsed, never a string |
| Fetcher.FetchedAgesUnknown | ai_newsletter/feeds/fetcher.py:97-107 | as written, every article the category fetch returns is labelled 'Unknown' |
| Fetcher.VisitCount | ai_newsletter/feeds/fetcher.py:49-75 | an enabled category's counter ends as the number of articles it tagged, and no other counter changes |
| Fetcher.CategoriesCount | ai_newsletter/feeds/fetcher.py:44-91 | every counter is the fetch's count of articles for it, or a count left by an earlier fetch for a category this fetch tagged nothing with |
| Fetcher.FetchCounts | ai_newsletter/feeds/fetcher.py:44-91 | from the start state, counters are article counts, and a disabled category is never queried and keeps its earlier counter |
| Fetcher.FetchMetrics.constructor | ai_newsletter/feeds/fetcher.py:20-27 | the metrics start with no start time, zero totals and empty tables |
| Fetcher.FetchArticlesByCategory | ai_newsletter/feeds/fetcher.py:29-114 | without an API key: `[]` and untouched metrics; otherwise the gathered articles with their ages set as the code is written (all 'Unknown', by `Fetcher.FetchedAgesUnknown`), and the metrics the loops leave |
| Fetcher.GatherArticles | ai_newsletter/feeds/fetcher.py:44-91 | the two loops compute the reference run over categories and queries, and the metrics it leaves |
| Fetcher.QueryCategory | ai_newsletter/feeds/fetcher.py:52-88 | the inner loop computes the reference run of one category's queries |
| Fetcher.AssignAges | ai_newsletter/feeds/fetcher.py:97-107 | the loop sets each article's `age_category` to the as-written label of its date against its own clock reading, and changes nothing else |
| Fetcher.FetchArticlesFromAllFeeds | ai_newsletter/feeds/fetcher.py:132-167 | the category fetch (ages as written), then processing time and the article total in the metrics and the returned statistics |
| GNewsApi.CheckApiKey | ai_newsletter/feeds/gnews_api.py:20-23 | a missing or empty API key raises `GNewsAPIError`; otherwise the key is used |
| GNewsApi.ValidateResponse | ai_newsletter/feeds/gnews_api.py:34-46 | a response is accepted iff it is a dict without `errors` whose `articles` is a list; otherwise `GNewsAPIError` |
| GNewsApi.StrippedField | ai_newsletter/feeds/gnews_api.py:174-181 | a missing or string field gives its stripped text; `null`, a number, a boolean, a list or an object raises `AttributeError` |
| GNewsApi.ParseDate | ai_newsletter/feeds/gnews_api.py:199-208 | a falsy date gives `None`; a string is parsed after `Z` becomes `+00:00`; a truthy non-string raises |
| GNewsApi.NormalizedSource | ai_newsletter/feeds/gnews_api.py:179-182 | the source becomes a `{name, url}` record with a stripped name; a non-dict source gets an empty url |
| GNewsApi.NormalizeMeans | ai_newsletter/feeds/gnews_api.py:160-195 | an item is kept iff it is an object with a truthy url, no field raises and its stripped title is non-empty; the record's fields are then as listed |
| GNewsApi.Processed | ai_newsletter/feeds/gnews_api.py:158-197 | processing never adds items |
| GNewsApi.ProcessArticles | ai_newsletter/feeds/gnews_api.py:158-197 | the loop computes the reference processing |
| GNewsApi.ProcessedMeans | ai_newsletter/feeds/gnews_api.py:160-197 | the output is exactly the records of the kept items, in input order |
| GNewsApi.ProcessedDates | ai_newsletter/feeds/gnews_api.py:183 | a processed record's `published_at` is a `datetime` or `None`, never a string |
| GNewsApi.ExclusionUrl | ai_newsletter/feeds/gnews_api.py:98 | the url lookup raises `AttributeError` exactly for a non-object item or a non-object source; a missing url reads as `''`, any other value is the url as stored |
| GNewsApi.DomainIn | ai_newsletter/feeds/gnews_api.py:98 | `domain in url` is a substring test on a string and a membership test on a list or object; it raises `TypeError` exactly for `null`, a number or a boolean |
| GNewsApi.AnyDomainIn | ai_newsletter/feeds/gnews_api.py:98-99 | `any(...)` is true iff some excluded domain is in the url; it raises `TypeError` iff there is a domain and the url is `null`, a number or a boolean |
| GNewsApi.ExclusionTest | ai_newsletter/feeds/gnews_api.py:96-100 | the test on one item raises exactly for a non-object item, a non-object source, or a `null`, number or boolean source url |
| GNewsApi.ContainerUrlAdmitted | ai_newsletter/feeds/gnews_api.py:96-100 | a list- or object-valued source url never raises in the exclusion; the item survives iff no excluded domain is among its members, and processing then drops it |
| GNewsApi.ExcludeDomainsMeans | ai_newsletter/feeds/gnews_api.py:95-100 | the exclusion raises iff some item's test raises; otherwise it keeps, in order, exactly the items with no excluded domain in their source url |
| GNewsApi.SearchRequest | ai_newsletter/feeds/gnews_api.py:72-80 | `max` is clamped to the API limit, and `country` is sent only when truthy |
| GNewsApi.SearchNews | ai_newsletter/feeds/gnews_api.py:48-106 | a failed request raises `GNewsAPIError`; a result never exceeds `max_results` |
| GNewsApi.SearchNewsDates | ai_newsletter/feeds/gnews_api.py:102 | every searched article holds a `datetime` or `None` date |
| GNewsApi.SearchNewsOk | ai_newsletter/feeds/gnews_api.py:92-102 | a successful search returns the records of the first `max_results` items that passed the exclusion |
| GNewsApi.SearchNewsExcludes | ai_newsletter/feeds/gnews_api.py:95-102 | no returned article has an excluded domain in its source url, and each has a truthy url and a title |
| GNewsApi.HeadlinesRequest | ai_newsletter/feeds/gnews_api.py:130-139 | `max` is clamped; `country` and `category` are sent only when truthy |
| GNewsApi.TopHeadlines | ai_newsletter/feeds/gnews_api.py:108-156 | a failed request raises `GNewsAPIError`, the only error; a result never exceeds `max_results` |
| GNewsClient.KeywordMeans | ai_newsletter/feeds/gnews_client.py:69-75 | the keyword test holds iff some keyword, lower-cased, occurs in the text |
| GNewsClient.CountriesMeans | ai_newsletter/feeds/gnews_client.py:77-82 | at least two country mentions iff two different list entries occur in the text |
| GNewsClient.WhoIsMajor | ai_newsletter/feeds/gnews_client.py:35-75 | the question "Who won" reads as a major story, since `'WHO'` is compared lower-cased |
| GNewsClient.UrlKeptAppend | ai_newsletter/feeds/gnews_client.py:105-109 | after keeping an article, a url is seen iff it was seen before or is that article's url |
| GNewsClient.MajorsIsFilter | ai_newsletter/feeds/gnews_client.py:96-99 | the major international stories are the international stories that pass the test, in order |
| GNewsClient.KeptFirsts | ai_newsletter/feeds/gnews_client.py:101-109 | the merge keeps exactly the first item of each truthy url: a url is kept iff some item has it |
| GNewsClient.MergedDistinct | ai_newsletter/feeds/gnews_client.py:101-109 | merged articles have truthy, pairwise different urls |
| GNewsClient.PublishedKey | ai_newsletter/feeds/gnews_client.py:111-115 | a `None` or `datetime` date raises `TypeError` in the parser; a parsed key is the parser's value |
| GNewsClient.FirstKeyError | ai_newsletter/feeds/gnews_client.py:111-115 | the sort's key step raises iff some article's key raises |
| GNewsClient.SortedCapped | ai_newsletter/feeds/gnews_client.py:111-117 | a sorted result never exceeds the cap |
| GNewsClient.FetchedNews | ai_newsletter/feeds/gnews_client.py:86-117 | either library call raising becomes `GNewsAPIError`; a result never exceeds `max_results` |
| GNewsClient.FetchNews | ai_newsletter/feeds/gnews_client.py:86-117 | the method computes the reference result |
| GNewsClient.MergeByUrl | ai_newsletter/feeds/gnews_client.py:101-109 | the loop keeps each article whose truthy url is not yet seen |
| GNewsClient.SortedCappedOk | ai_newsletter/feeds/gnews_client.py:111-117 | when the sort returns, every key parsed and the result is a prefix of a permutation of the merge |
| GNewsClient.FetchedNewsOk | ai_newsletter/feeds/gnews_client.py:86-117 | a returned result came from two successful calls and is a prefix of the sorted merge |
| GNewsClient.FetchedNewsSorted | ai_newsletter/feeds/gnews_client.py:111-115 | the result is newest first |
| GNewsClient.FetchedNewsDistinct | ai_newsletter/feeds/gnews_client.py:101-117 | the result has truthy, pairwise different urls |
| GNewsClient.HeadlinesFirst | ai_newsletter/feeds/gnews_client.py:105-109 | the first headline with a given url is in the merge, so no international story with that url is |
| GNewsClient.MergedFromSources | ai_newsletter/feeds/gnews_client.py:96-109 | every merged article is a headline or a major international story |
| Summarize.SummarizeOneMeans | ai_newsletter/utils/summarize.py:38-79 | an article is dropped iff it has nothing to summarize; otherwise only its summary fields change, after at most three calls; a failure leaves it unchanged |
| Summarize.SummarizeAllCounts | ai_newsletter/utils/summarize.py:31-79 | every article counts once, as success or failure; at most three calls per article |
| Summarize.SummarizeAllKeeps | ai_newsletter/utils/summarize.py:38-88 | up to summary fields, the output is the summarizable input articles in order |
| Summarize.SummarizeStep | ai_newsletter/utils/summarize.py:38-79 | one loop pass computes the reference step for its article |
| Summarize.SummarizeArticles | ai_newsletter/utils/summarize.py:18-88 | the loop computes the reference list, and the statistics count every article as success or failure |
| LlmSummarize.CombinedTextCases | ai_newsletter/llm/summarize.py:24-31 | the combined text in each of the four cases of which fields are present |
| LlmSummarize.CombinedTextTitleLine | ai_newsletter/llm/summarize.py:24-31 | the text opens with a title line iff there is a title |
| LlmSummarize.Prompt | ai_newsletter/llm/summarize.py:36-43 | two messages: the fixed system message, then a user message |
| LlmSummarize.UserContentShape | ai_newsletter/llm/summarize.py:36-43 | the user message starts with the instruction and ends with the text to summarize |
| LlmSummarize.FirstGood | ai_newsletter/llm/summarize.py:34-55 | the first attempt whose reply is good, with every earlier reply not good |
| LlmSummarize.WaitIndicesMeans | ai_newsletter/llm/summarize.py:57-61 | an attempt waits iff it raised and was not the last; waits come in attempt order |
| LlmSummarize.WaitsMeans | ai_newsletter/llm/summarize.py:57-61 | each wait is `retry_delay` times the attempt's one-based number |
| LlmSummarize.Attempt | ai_newsletter/utils/summarize.py:90-131 | a summary is the stripped, non-empty reply of the last call made, with no good reply before it; no summary means every attempt was used and none was good |
| LlmSummarize.RequestSummary | ai_newsletter/llm/summarize.py:34-63 | the retry loop computes the reference attempt, calls and waits |
| LlmSummarize.SummarizeArticle | ai_newsletter/llm/summarize.py:15-63 | no request without a title or description; otherwise one request on the combined text |
| LlmRetry.BackoffClosedForm | ai_newsletter/llm/utils.py:19-21 | the delay after attempt `k` is `base_delay * 2 ** k` |
| LlmRetry.RetriedOk | ai_newsletter/llm/utils.py:13-15 | the wrapper returns a value iff some remaining attempt returns one |
| LlmRetry.RetriedFirst | ai_newsletter/llm/utils.py:13-15 | the first attempt that returns gives the wrapper's result |
| LlmRetry.RetriedAllRaised | ai_newsletter/llm/utils.py:16-18 | when every attempt raises, the last attempt's exception is re-raised |
| LlmRetry.RetriedNone | ai_newsletter/llm/utils.py:13-22 | with no attempt allowed, the wrapper raises `RuntimeError` |
| LlmRetry.RetryWithBackoff | ai_newsletter/llm/utils.py:8-22 | the loop's result is the reference one; it stops at the first success; it sleeps between attempts only, `base_delay * 2 ** k` after attempt `k` |
| LlmRetry.DelaysGeometric | ai_newsletter/llm/utils.py:19-21 | the delays start at `base_delay` and double each time |
| TextUtils.SentencesRebuild | ai_newsletter/formatting/text_utils.py:78 | the split loses nothing but the non-empty whitespace runs it splits at |
| TextUtils.SentencesMeans | ai_newsletter/formatting/text_utils.py:78 | no piece holds a split point, and every piece but the last ends with `.`, `!` or `?` |
| TextUtils.BulletCount | ai_newsletter/formatting/text_utils.py:81-83 | three bullets, two after a first sentence longer than 100 characters, never more than there are sentences |
| TextUtils.StripAll | ai_newsletter/formatting/text_utils.py:89 | each bullet is its sentence stripped |
| TextUtils.GetKeyTakeaways | ai_newsletter/formatting/text_utils.py:68-106 | the notice exactly for empty or placeholder content; otherwise one to three stripped sentences; the final fallback is unreachable |
| TextUtils.TakeawaysSingleSentence | ai_newsletter/formatting/text_utils.py:78-89 | content without a sentence break is one bullet, the stripped content |
| TextUtils.TakeawaysFirstSentence | ai_newsletter/formatting/text_utils.py:78-89 | after a sentence break, the first sentence is the first bullet |
| Metrics.Update | ai_newsletter/logging_cfg/logger.py:48-63 | only the named metric changes; on an exception nothing changes |
| Metrics.UpdateAbsent | ai_newsletter/logging_cfg/logger.py:50-63 | an absent metric starts from zero, an empty list or an empty dict, or stores the value |
| Metrics.NumbersAccumulate | ai_newsletter/logging_cfg/logger.py:50-53 | two numeric updates add their sum |
| Metrics.ListsAccumulate | ai_newsletter/logging_cfg/logger.py:54-57 | two collection updates append both, in order |
| Metrics.DictMerge | ai_newsletter/logging_cfg/logger.py:58-61 | a dict update keeps old keys, adds new ones, and new values win |
| Metrics.UpdateFails | ai_newsletter/logging_cfg/logger.py:48-63 | an update raises exactly when the value's kind and the metric's kind mismatch |
| Metrics.UpdateKeepsNoSets | ai_newsletter/logging_cfg/logger.py:54-57 | an update never leaves a set in the table |
| Metrics.Defaults | ai_newsletter/logging_cfg/logger.py:16-46 | the default table holds no set |
| Metrics.DefaultsZero | ai_newsletter/logging_cfg/logger.py:16-46 | default counters are zero, default lists empty, and the age table has the five buckets |
| Metrics.MetricsTable.constructor | ai_newsletter/logging_cfg/logger.py:16-46 | the global starts as the default table |
| Metrics.MetricsTable.UpdateMetrics | ai_newsletter/logging_cfg/logger.py:48-63 | the table becomes the updated table, or stays as it was when the update raises |
| Metrics.MetricsTable.GetMetrics | ai_newsletter/logging_cfg/logger.py:65-67 | the current table is returned |
| Metrics.MetricsTable.ResetMetrics | ai_newsletter/logging_cfg/logger.py:69-102 | the table is back to the defaults, whatever was recorded |
| UrlBuilder.Pad2 | ai_newsletter/deploy/url_builder.py:18 | month and day take two digits that read back as the number |
| UrlBuilder.DateStampRoundTrip | ai_newsletter/deploy/url_builder.py:18 | the date stamp reads back as the calendar date it was made from |
| UrlBuilder.DateStampShape | ai_newsletter/deploy/url_builder.py:18 | for four-digit years the stamp is `YYYY-MM-DD`, ten characters |
| UrlBuilder.UrlShape | ai_newsletter/deploy/url_builder.py:14-19 | the address is the newsletter directory, the stamp of the given date (else of now), then `.html` |
| UrlBuilder.UrlIgnoresTime | ai_newsletter/deploy/url_builder.py:14-19 | the time of day plays no part |
| UrlBuilder.UrlInjective | ai_newsletter/deploy/url_builder.py:14-19 | different days have different addresses |
| UrlBuilder.ArchiveNewsletter | ai_newsletter/web/archive.py:22-35 | archiving returns the address `build_newsletter_url` gives for the date |
| UrlBuilder.ExampleIssue | tests/test_web_archive.py:16-28 | the example issue of 29 April 2025 stamps as `2025-04-29` |

## Left out

- Logging, including the duplicate-group bookkeeping of `formatting/deduplication.py` and the metrics summary print: it has no effect on results.
- `setup_logger` and `print_metrics_summary` in `logging_cfg/logger.py`: configuration and output only.
- `time.sleep`, including the request delay of the GNews fetch: retry loops return the waits they would request; the fetch's delay has no effect on results.
- Floating point: similarities, thresholds and delays are `real`; `processing_time` is an integer difference of two clock readings.
- The OpenAI client and its model, token and temperature parameters: the service is an oracle. A reply whose content is `None` raises in `.strip()`, so it appears as an exception reply.
- `max_summary_length` and `min_summary_length` of `summarize_articles`: the code never reads them.
- Summarize.SummarizeArticles: the outer `except` of the loop is not modelled; nothing inside the `try` can raise once the request catches its own exceptions.
- Updates of article dicts in place, and the aliasing they imply: the model returns new article values.
- A raw article's `url` that is a number, list or object: `_process_articles` keeps any truthy url and copies it to `url` and `link`; the model takes the raw url to be a string or absent.
- Dict sources with keys other than `name` and `url`, or whose `name` holds `None`: `Deduplication.GroupName` reads an absent name as `None`, so a non-empty dict with neither key gives 'Unknown' where the code raises an unhashable `TypeError`, and a `None` name with a url raises where the code gives 'Unknown'. The records `_process_articles` builds always have both keys, with string values.
- A title or description stored as `None`: such a value reaches `.strip()` or `.lower()` and raises; the model reads a missing or `None` field as `''`.
- The HTML around tags and takeaways, and the tag emoji table: spans and blocks are datatypes, not markup.
- Unicode: `lower()` maps only ASCII letters; `PyText.IsSpace` lists Python's whitespace characters.
- UrlBuilder.DateStampShape: years below 1000 are written without zero padding, as glibc's `%Y` writes them; the platform's `strftime` is not modelled.
- Metrics.MetricsTable.GetMetrics: the caller gets a value, not the live dict; later changes through an alias are not modelled.
- A Python `set` held as a metric is its elements in iteration order.
- `reset_metrics` rebinding the global: importers keeping the old table are not modelled.
- `difflib.SequenceMatcher`, `dateutil`, `fromisoformat` and time-zone conversion: all are parameters.
- The order in which a Python `set` enumerates tags and groups: `Tags.PersonalizationTags` returns the group set and takes the raw tags in any order.
- Timsort's sequence of comparisons: `Ordering` states when a sort raises, not which comparison raises first. The order of a sort that returns is fully modelled.
- JSON decoding errors, the HTTP session and its retry adapter: the transport oracle returns a parsed response or a request failure.
- `test_gnews_connection` in `feeds/gnews_client.py`: a connectivity probe. It raises without an API key, makes one GET, raises on a request failure or a response without `articles`, and otherwise returns True. It only checks that the network and the API key work.
- The `gnews` library calls of `fetch_news`: their outcomes are inputs. The country list is a parameter.
- The category configuration, the daily limit and the request delay of the fetcher: parameters.
- `max_articles_per_source` of `fetch_articles_from_all_feeds`: the code never reads it.
- `format_date` in `formatting/date_utils.py`: display formatting only.
- Selenium, SMTP, HTML rendering, and the archive helpers other than `archive_newsletter`.

## Findings

| source | as written | input that shows it | evidently intended | confidence | as-written member | corrected member |
|---|---|---|---|---|---|---|
| ai_newsletter/feeds/fetcher.py:98-107 | the age step calls `.replace('Z', '+00:00')` on `published_at`. `search_news` has already stored a `datetime` there, and `datetime.replace` takes date fields, so it raises `TypeError`. The code catches it and stores 'Unknown' | an article published at the current instant (Fetcher.AgeAsWrittenLosesBreaking) | bucket the stored `datetime` directly, which gives 'Breaking' | not executed | Fetcher.AgeCategoryAsWritten | Fetcher.AgeCategory |
