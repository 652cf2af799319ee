# SERP keyword clustering: a verified model

This project models the core of an SEO keyword-research tool. Keywords that rank for overlapping
search results are grouped into clusters, and the groups are turned into reports. It covers five
pieces:

- **The clustering engine** (`perform_serp_clustering`, module `SerpClustering`).
  - Each keyword's ranked URL list is cut to its first `urls_to_check` entries.
  - The first keyword not yet clustered becomes a seed.
  - Every later unclustered keyword, taken from a snapshot, is checked once against the seed alone.
  - A keyword joins when it shares at least `min_intersections` URLs with the seed and at least a
    size-dependent number: 8 while the cluster would have 2 to 5 members, 6 for 6 to 10, 4 beyond.
  - A keyword that joins is removed from the unclustered list.
- **The data-gathering loop of the SERP clustering tab** (module `SerpCache`).
  - For every keyword it reads the cached SERP and, for a keyword that has a usable one, the
    volume, difficulty and intent responses.
  - It keeps the `url` values of the SERP items that have the key, cut to `urls_to_check`, plus the
    metrics. A null `url` is kept as None and counts like any other URL.
  - It reports keywords without a usable SERP as missing, and builds the engine's input.
- **The tab's report** (module `SerpReport`).
  - Metric defaults, where a missing, null or zero value falls back to 0 or 101.
  - The choice of each cluster's main keyword: the first member with the greatest (volume, -difficulty)
    or (cpc, volume) key.
  - One row per clustered keyword, counting the URLs it shares with the main keyword.
- **Keyword input** (`get_keywords_from_input`, module `KeywordInput`).
  - Pasted text is split into lines, stripped with Python's whitespace set, blank lines dropped,
    then lower-cased and de-duplicated.
  - The first column of an uploaded CSV is used when there is no text.
- **The parent/child table of the semantic clustering engine** (`format_clusters`, module
  `SemanticClustering`).
  - Every member of a non-empty cluster of keyword positions becomes a row.
  - Each row names the keyword at the cluster's lowest position as parent, the member as child and
    the cluster's size.

Loops that update state are methods with loop invariants, proved against recursive specification
functions:
- `PerformSerpClustering` and `SeedPass`;
- `CollectSerpData`;
- `BuildRows` and `AppendMemberRows`;
- `FormatClusters`, `AppendClusterRows` and `AppendChildRows`.

The properties (partition, order, admission, round trips, row contents) are lemmas about those
functions. `Wrappers` (an `Option` type) and `Seqs` (distinctness, element sets, filtering,
concatenation) are supporting modules.

The code is followed where the tab's own text promises more. The tab offers three algorithm
variants and two main-keyword strategies (`ui/tab_serp_clustering.py:20-50`), and its help text
describes the variants with thresholds of 100%, 80% and 60%. The engine in
`modules/clustering.py` (one variant, as its docstring at lines 9-11 says) does none of that:
- it takes no algorithm or strategy parameter;
- it takes seeds in input order (`pop(0)`);
- it compares candidates with the seed only;
- it uses the fixed 8/6/4 thresholds.

That engine is what is modelled. As `SerpClustering.SerpSingletons` states, comparing fewer than
8 URLs per keyword (with `urls_to_check = 3`, say) leaves every keyword alone: a second member
needs 8 shared URLs, which such lists never hold.

## Model

| member | source | states |
|---|---|---|
| UrlSets.Head | modules/clustering.py:28 | Python's `x[:n]` is a prefix of `x` of length `min(n, len(x))` for `n >= 0`, and drops the last `-n` entries for negative `n` |
| UrlSets.CountIn | modules/clustering.py:50 | the number of distinct URLs of a list that lie in a set, never more than the list holds; `CountInIsIntersection` states it is the size of the intersection |
| UrlSets.Overlap | modules/clustering.py:50 | `len(set(a).intersection(set(b)))`, the shared-URL count; `OverlapSymmetric` and `OverlapBounded` state its properties |
| UrlSets.CountInIsIntersection | modules/clustering.py:50 | counting a URL list against a set gives the size of the set's intersection with the list's URLs |
| UrlSets.OverlapSymmetric | modules/clustering.py:50 | the number of shared URLs is the same whichever keyword is the seed |
| UrlSets.OverlapBounded | modules/clustering.py:28-50 | two keywords never share more URLs than either list holds |
| SerpClustering.Threshold | modules/clustering.py:57-66 | the size-dependent bar: 8 for a cluster of 2 to 5, 6 for 6 to 10, 4 otherwise; `ThresholdNonIncreasing` states its shape |
| SerpClustering.Admits | modules/clustering.py:50-69 | the two-stage test: at least `min_intersections` shared URLs and at least the threshold for the size the cluster would reach; `PassDecision` ties it to joining |
| SerpClustering.Shared | modules/clustering.py:40-50 | the number of distinct URLs a candidate shares with the seed, both truncated; `OverlapSymmetric` and `OverlapBounded` state its properties |
| SerpClustering.Pass | modules/clustering.py:44-71 | the joined and left keywords after the first `n` candidates of the snapshot, together `n` of them; `PassElems`, `PassSplit` and `PassDecision` characterise it |
| SerpClustering.Clusters | modules/clustering.py:35-74 | the clusters of a pool, never more than its keywords; `ClustersCover`, `ClustersDistinct`, `ClustersNonEmpty` and `ClusterFromRemaining` characterise them |
| SerpClustering.SerpClusters | modules/clustering.py:27-76 | the engine's result on a dictionary; `PerformSerpClustering` computes it and `SerpMembersAdmitted` and `SerpSingletons` state what it holds |
| SerpClustering.KeysOf | modules/clustering.py:31 | the keyword column, one keyword per input entry, in input order |
| SerpClustering.UrlTable | modules/clustering.py:27-28 | the truncated `urls` column by keyword, the first row of a keyword winning; `UrlTableRows` and `UrlTableBounded` state what it holds |
| SerpClustering.UrlsOf | modules/clustering.py:41-47 | the URL row a seed or a candidate is compared with |
| SerpClustering.Truncate | modules/clustering.py:28 | a value that is not a list gives no URLs; a list gives a prefix of itself of length `min(urls_to_check, len(x))` for a non-negative `urls_to_check` (a list no longer than that is kept whole), and all but the last `-urls_to_check` URLs for a negative one |
| SerpClustering.UrlTableRows | modules/clustering.py:27-28 | every input keyword has a table row, and the lookup finds that keyword's own truncated URLs |
| SerpClustering.UrlTableBounded | modules/clustering.py:28 | with a non-negative `urls_to_check`, no keyword compares more than that many URLs |
| SerpClustering.PerformSerpClustering | modules/clustering.py:27-76 | the seed loop returns exactly the clusters of the recursive definition `SerpClusters` |
| SerpClustering.SeedPass | modules/clustering.py:37-71 | the candidate loop over the snapshot yields the seed followed by the keywords that joined, and leaves the rest without duplicates |
| SerpClustering.SeedStep | modules/clustering.py:35-74 | one seed-loop iteration: the grown cluster is the next cluster, and what it leaves is the pool of the remaining ones |
| SerpClustering.JoinStep | modules/clustering.py:54-71 | when a candidate passes both tests, appending it and `remove`-ing it gives the state after one more candidate; the candidate is in the list, so `remove` does not raise |
| SerpClustering.StayStep | modules/clustering.py:54-69 | when a candidate fails a test, the unchanged cluster and list are the state after one more candidate |
| SerpClustering.JoinRemove | modules/clustering.py:71 | `remove` deletes the joining candidate from the place the pass would leave it, since it occurs only once |
| Seqs.RemoveFirst | modules/clustering.py:71 | `list.remove` of an element that is present leaves one element fewer; `JoinRemove` states which place goes |
| SerpClustering.PassElems | modules/clustering.py:44-71 | every candidate looked at either joined or was left, and nothing else appears |
| SerpClustering.PassDistinct | modules/clustering.py:44-71 | what a pass leaves has no duplicates when the snapshot has none |
| SerpClustering.PassSplit | modules/clustering.py:44-71 | the joined keywords and the keywords left are each the snapshot restricted to them, in snapshot order |
| SerpClustering.PassKeeps | modules/clustering.py:70-71 | once a candidate has joined, later candidates never take it out of the cluster |
| SerpClustering.PassJoinedAdmitted | modules/clustering.py:54-70 | the j-th keyword to join passed both tests with the cluster then growing to j + 2 members |
| SerpClustering.PassDecision | modules/clustering.py:46-71 | a candidate is in the cluster if and only if it passed both tests with the size counting the seed, the earlier joiners and itself |
| SerpClustering.ThresholdNonIncreasing | modules/clustering.py:57-66 | the size-dependent threshold is at most 8 and never rises as a cluster grows |
| SerpClustering.ClusterStepCover | modules/clustering.py:36-71 | a cluster plus what its pass leaves is exactly the pool it was grown from |
| SerpClustering.ClusterStep | modules/clustering.py:36-71 | in a duplicate-free pool the cluster and the keywords it leaves are disjoint, duplicate-free, and each in pool order |
| SerpClustering.ClustersNonEmpty | modules/clustering.py:38-74 | no cluster is empty |
| SerpClustering.ClustersCover | modules/clustering.py:31-76 | together the clusters hold exactly the input keywords |
| SerpClustering.ClustersDistinct | modules/clustering.py:31-76 | no keyword lands in two clusters or twice in one |
| SerpClustering.ClusterFromRemaining | modules/clustering.py:35-38 | the i-th cluster's seed is the first input keyword that no earlier cluster holds, and the cluster is that seed's pass over the remaining keywords |
| SerpClustering.ClusterInOrder | modules/clustering.py:44-70 | every cluster lists its members in input order |
| SerpClustering.ClusterMembersAdmitted | modules/clustering.py:54-70 | member j of a cluster (the seed is member 0) passed both tests against the seed, the cluster then reaching j + 1 members |
| SerpClustering.SeedMembersAdmitted | modules/clustering.py:54-70 | the same for the cluster grown around the first keyword of a pool |
| SerpClustering.SerpMembersAdmitted | modules/clustering.py:28-70 | in the engine's result, every non-seed member shares enough of its truncated URLs with its seed's |
| SerpClustering.PassNoneJoin | modules/clustering.py:54-69 | when no candidate can reach both `min_intersections` and 8 shared URLs, nobody joins |
| SerpClustering.SerpSingletons | modules/clustering.py:28-74 | comparing fewer URLs than `max(min_intersections, 8)` makes every cluster a single keyword |
| SerpCache.ItemUrlsAppend | ui/tab_serp_clustering.py:81 | the URLs are collected item by item, in rank order |
| SerpCache.ItemUrls | ui/tab_serp_clustering.py:81 | the `url` values of the items that have the key, null ones as None, in rank order; `ItemUrlsAppend` and `ItemUrlsMembers` characterise it |
| SerpCache.NullUrlKept | ui/tab_serp_clustering.py:81 | an example: an item with a null `url` ahead of one with an address, cut to one URL, keeps the null one, and two lists holding only it share one URL; `NullUrlsShared` states the general case |
| SerpCache.NullUrlsShared | modules/clustering.py:41-50 | any two URL lists that both hold a null `url` share at least one URL |
| SerpCache.ExtractUrls | ui/tab_serp_clustering.py:81 | the item URLs cut to `[:urls_to_check]`; `ExtractUrlsSpec` states what is kept |
| SerpCache.Record | ui/tab_serp_clustering.py:76-108 | one keyword's record: empty without a usable SERP, otherwise URLs and each metric whose response passes its guard; `RecordUrls` and `RecordMetrics` state it and `GatheredAt` places it in the map |
| SerpCache.Gathered | ui/tab_serp_clustering.py:75-108 | `keyword_data_map` after the first `n` keywords; `CollectSerpData` computes it and `GatheredAt` and `GatheredAll` state its contents |
| SerpCache.Missing | ui/tab_serp_clustering.py:79-84 | `missing_keywords` after the first `n` keywords; `MissingReports` and `NothingMissing` state its contents |
| SerpCache.ClusterInput | ui/tab_serp_clustering.py:115 | the engine's input, the keywords whose record has URLs; `ClusterInputAll`, `ClusterInputKeys` and `ClusterInputUrls` state it |
| SerpCache.ItemUrlsMembers | ui/tab_serp_clustering.py:81 | a URL is collected if and only if some item carries it under a `url` key; a null `url` is collected as None |
| SerpCache.ExtractUrlsSpec | ui/tab_serp_clustering.py:80-81 | the kept URLs are the leading URLs of the items, at most `urls_to_check` of them, each carried by some item; items without a `url` key are skipped |
| SerpCache.RecordUrls | ui/tab_serp_clustering.py:76-84 | a keyword's record has URLs if and only if its cached SERP passes the guard, and then at most `urls_to_check` |
| SerpCache.RecordMetrics | ui/tab_serp_clustering.py:76-108 | without a usable SERP the record is empty; otherwise volume and cpc are the volume response's `search_volume` and `cpc` exactly when it passes its guard, difficulty the first item's `keyword_difficulty` exactly when the difficulty response passes its guard and has an item, intent the first item's `label` exactly when the intent response passes its guard and that item has a truthy `keyword_intent`, and each is unwritten otherwise |
| SerpCache.FirstEntry | ui/tab_serp_clustering.py:79-80 | the first result entry of a cached response, present only when the response passes the `tasks`/`result` guard |
| SerpCache.HasSerp | ui/tab_serp_clustering.py:79 | the SERP guard; `RecordUrls` and `MissingReports` state what it decides |
| SerpCache.CollectSerpData | ui/tab_serp_clustering.py:75-108 | the loop's map and missing list are those of the step-by-step definitions `Gathered` and `Missing` |
| SerpCache.GatheredAt | ui/tab_serp_clustering.py:75-108 | the map holds exactly the keywords handled, each with its own record |
| SerpCache.MissingReports | ui/tab_serp_clustering.py:79-84 | an entry `"<kw> (SERP)"` is reported if and only if that keyword's SERP is not usable |
| SerpCache.NothingMissing | ui/tab_serp_clustering.py:110-115 | nothing is missing if and only if every keyword's SERP is usable, which is when clustering goes on |
| SerpCache.ClusterInputAll | ui/tab_serp_clustering.py:115 | when every keyword has URLs, the engine's input lists every keyword in order with its URLs |
| SerpCache.GatheredAll | ui/tab_serp_clustering.py:75-115 | when nothing is missing, every keyword's record is in the map and has URLs |
| SerpCache.ClusterInputKeys | ui/tab_serp_clustering.py:75-115 | when nothing is missing, the engine gets every keyword once, in input order |
| SerpCache.ClusterInputUrls | ui/tab_serp_clustering.py:80-115 | when nothing is missing, each keyword reaches the engine with its cached SERP's URLs, at most `urls_to_check` of them |
| SerpReport.MetricsOf | ui/tab_serp_clustering.py:122-128 | volume and cpc are 0 exactly when missing, null or zero, and otherwise the stored value; difficulty is never 0, is 101 exactly when missing, null, zero or 101, and is the stored value otherwise |
| SerpReport.Lookup | ui/tab_serp_clustering.py:181 | `keyword_data_map.get(k, {})`: the stored record, or the empty one for a keyword never gathered |
| SerpReport.OrDefault | ui/tab_serp_clustering.py:122-128 | `d.get(key, default) or default` on a number: a missing, null or zero value gives the default; `MetricsOf` states its cases |
| SerpReport.Rank | ui/tab_serp_clustering.py:159-176 | the sort key, (cpc, volume) or (volume, -difficulty) with the defaults; `RankUsesMetrics` ties it to the engine's metrics |
| SerpReport.Below | ui/tab_serp_clustering.py:161-177 | Python's order on pairs, by which the descending sort ranks the members |
| SerpReport.RankUsesMetrics | ui/tab_serp_clustering.py:159-176 | the sort key uses the same defaults: (cpc, volume) or (volume, -difficulty) |
| SerpReport.MainIndex | ui/tab_serp_clustering.py:159-176 | the chosen position lies inside the cluster |
| SerpReport.MainKeyword | ui/tab_serp_clustering.py:159-176 | the main keyword is a member of its cluster |
| SerpReport.RowFor | ui/tab_serp_clustering.py:180-193 | one row: main keyword, keyword, shared URL count and the displayed metrics; `ClusterRowsSpec`, `ClusterRowIntersections` and `ClusterRowMetrics` state its seven columns |
| SerpReport.Shown | ui/tab_serp_clustering.py:189-192 | `data.get(key, default)`: the default for an unwritten key, None for a null one, the value otherwise |
| SerpReport.UrlsIn | ui/tab_serp_clustering.py:178-182 | `.get('urls', [])` on a keyword's record: its URLs, none when they were never written |
| SerpReport.MemberRows | ui/tab_serp_clustering.py:180-193 | one row per member looked at; `MemberRowsAt` states which |
| SerpReport.ClusterRows | ui/tab_serp_clustering.py:156-193 | one row per member of a cluster; `ClusterRowsSpec`, `ClusterRowIntersections` and `ClusterRowMetrics` state its columns |
| SerpReport.ReportRows | ui/tab_serp_clustering.py:154-193 | the rows of the clusters, in order; `BuildRows`, `ReportKeywords` and `ReportRowOrigin` state what it holds |
| SerpReport.MainIndexFirstGreatest | ui/tab_serp_clustering.py:159-176 | the main keyword has the greatest key, and every member before it a smaller one, as a stable descending sort puts first |
| SerpReport.MainIndexUnique | ui/tab_serp_clustering.py:159-176 | only one member is the first with the greatest key, so the choice is fully determined |
| SerpReport.MainKeywordBest | ui/tab_serp_clustering.py:159-176 | by cpc, no member has a higher cpc, or an equal cpc and higher volume; by volume, no member has a higher volume, or an equal volume and lower difficulty |
| SerpReport.BuildRows | ui/tab_serp_clustering.py:154-193 | the report loop produces exactly `ReportRows`, the rows of every cluster in turn |
| SerpReport.AppendMemberRows | ui/tab_serp_clustering.py:177-193 | the member loop appends one row per member, in order, under the main keyword |
| SerpReport.MemberRowsAt | ui/tab_serp_clustering.py:179-193 | row j is the row of member j |
| SerpReport.ClusterRowsSpec | ui/tab_serp_clustering.py:156-190 | each member gets one row, in cluster order, naming the cluster's main keyword, itself a member |
| SerpReport.ClusterRowIntersections | ui/tab_serp_clustering.py:177-183 | a row counts the distinct URLs its keyword shares with the main keyword |
| SerpReport.ClusterRowMetrics | ui/tab_serp_clustering.py:181-192 | a row's volume, cpc, difficulty and intent are its keyword's stored values read with `get` and the defaults 0, 0, 101 and 'N/A'; a keyword the tab holds nothing for shows exactly those defaults |
| SerpReport.ReportKeywords | ui/tab_serp_clustering.py:156-193 | the keyword column is the clusters concatenated, so empty clusters add nothing |
| SerpReport.ReportRowOrigin | ui/tab_serp_clustering.py:156-193 | every row belongs to a non-empty cluster holding its keyword and having its main keyword |
| SerpReport.RowIntersectionsSymmetric | ui/tab_serp_clustering.py:180-182 | the shared-URL count does not depend on which keyword is the main one |
| SerpReport.MainRowIntersections | ui/tab_serp_clustering.py:177-182 | the main keyword's own row counts all its distinct URLs |
| SerpReport.GatheredRowBounded | ui/tab_serp_clustering.py:177-182 | with the gathered data, no row counts more than `urls_to_check` shared URLs |
| KeywordInput.IsSpace | utils.py:11 | the characters Python's `str.isspace()` accepts, the ones `strip` removes |
| KeywordInput.TrimStartSpec | utils.py:11 | `lstrip` keeps a suffix that does not start with whitespace and cuts only whitespace |
| KeywordInput.TrimEndSpec | utils.py:11 | `rstrip` keeps a prefix that does not end with whitespace and cuts only whitespace |
| KeywordInput.TrimStart | utils.py:11 | `lstrip`, never longer than its input; `TrimStartSpec` states what it cuts |
| KeywordInput.TrimEnd | utils.py:11 | `rstrip`, never longer than its input; `TrimEndSpec` states what it cuts |
| KeywordInput.Strip | utils.py:11 | `strip`, `rstrip` after `lstrip`; `StripSpec` and `StripIdempotent` state its result |
| KeywordInput.StripSpec | utils.py:11 | `strip` returns the middle of the string, cutting only whitespace on either side and leaving none at its ends |
| KeywordInput.StripIdempotent | utils.py:11 | stripping twice is stripping once |
| KeywordInput.Lower | utils.py:17 | lower-casing keeps the length and maps each character on its own |
| KeywordInput.LowerSpec | utils.py:17 | no ASCII capital survives lower-casing, and lower-casing again changes nothing |
| KeywordInput.LowerChar | utils.py:17 | lower-casing one character, ASCII letters only; `LowerCharKeeps` states what it preserves |
| KeywordInput.Split | utils.py:11 | `split('\n')` gives at least one piece and no piece holds a line break |
| KeywordInput.SplitJoin | utils.py:11 | joining the pieces back with the separator gives the text again |
| KeywordInput.CleanLinesMembers | utils.py:11 | the cleaned lines are exactly the non-blank lines, stripped |
| KeywordInput.CleanLines | utils.py:11 | the stripped non-blank lines, in order; `CleanLinesMembers` states its members |
| KeywordInput.StripAll | utils.py:15 | the CSV path strips every cell and keeps blank ones |
| KeywordInput.LowerAll | utils.py:17 | every keyword is lower-cased in place |
| KeywordInput.RawKeywords | utils.py:9-15 | non-empty text gives its cleaned lines, else a file gives its stripped first column, else nothing; `TextWins` and `NoInput` state the precedence |
| KeywordInput.KeywordsFromInput | utils.py:4-17 | `get_keywords_from_input` as a set; `TextKeywords`, `TextKeywordsClean`, `TextWins` and `NoInput` state its contents |
| KeywordInput.TextWins | utils.py:10-12 | non-empty pasted text decides the keywords whatever the file holds |
| KeywordInput.NoInput | utils.py:9-17 | with neither text nor file there are no keywords |
| KeywordInput.LinesKeywords | utils.py:11-17 | a keyword comes from a list of lines if and only if some non-blank line gives it, stripped and lower-cased (`LineGives`) |
| KeywordInput.TextKeywords | utils.py:10-17 | from pasted text, a keyword is in the result if and only if some non-blank line of the text gives it (`LineGives`) |
| KeywordInput.LineKeywordClean | utils.py:11-17 | a keyword made from a non-blank line is non-empty, has no whitespace at its ends, no ASCII capital and no line break the line lacked |
| KeywordInput.LowerCharKeeps | utils.py:17 | lower-casing turns no character into or out of whitespace or a line break |
| KeywordInput.TextKeywordsClean | utils.py:10-17 | every keyword from pasted text is non-empty, has no line break, no whitespace at its ends and no ASCII capital |
| SemanticClustering.ValidCluster | modules/semantic_clustering.py:237-240 | every index of a cluster names a keyword, so no `keyword_map[i]` raises; `FormatClusters` and `FormatFails` state its role |
| SemanticClustering.MinOf | modules/semantic_clustering.py:236 | `min(cluster)` is a member and no member is smaller |
| SemanticClustering.ChildRows | modules/semantic_clustering.py:239-245 | the rows of a cluster's first `m` members, `m` of them; `ChildRowsAt` states each one |
| SemanticClustering.ClusterRows | modules/semantic_clustering.py:231-245 | a cluster's rows, one per member, none for an empty cluster; `ClusterRowsSpec` states each one |
| SemanticClustering.Rows | modules/semantic_clustering.py:228-245 | the rows of the first `n` clusters; `FormatClusters` computes them and `RowsCount` and `RowOrigin` characterise them |
| SemanticClustering.FormatClusters | modules/semantic_clustering.py:217-250 | the table is produced if and only if every position names a keyword (a KeyError otherwise); it then has the three named columns and exactly the rows of `Rows` |
| SemanticClustering.AppendClusterRows | modules/semantic_clustering.py:231-245 | an empty cluster adds nothing; otherwise its rows follow, or the call fails when a position names no keyword |
| SemanticClustering.AppendChildRows | modules/semantic_clustering.py:239-245 | one row per member in cluster order, failing exactly when some position names no keyword |
| SemanticClustering.FormatStep | modules/semantic_clustering.py:231-245 | one cluster-loop iteration extends the rows of the earlier clusters with this cluster's rows |
| SemanticClustering.FormatFails | modules/semantic_clustering.py:229-240 | a single cluster with an invalid position makes the whole call fail |
| SemanticClustering.ChildRowsAt | modules/semantic_clustering.py:239-245 | row k of a cluster is member k under the given parent |
| SemanticClustering.ClusterRowsSpec | modules/semantic_clustering.py:235-245 | row k names the keyword at the lowest position as parent, member k as child and the cluster's length as size |
| SemanticClustering.ParentIsChild | modules/semantic_clustering.py:236-245 | the parent keyword is also the child of one of its cluster's rows |
| SemanticClustering.RowsCount | modules/semantic_clustering.py:231-245 | the number of rows is the sum of the cluster sizes, empty clusters adding none |
| SemanticClustering.EmptyClustersNoRows | modules/semantic_clustering.py:231-233 | when every cluster is empty the table has no rows |
| SemanticClustering.RowOrigin | modules/semantic_clustering.py:231-245 | every row comes from some cluster and one of its members, with that cluster's parent and size |

## Left out

- The tab's call into the engine (ui/tab_serp_clustering.py:130-137) passes `algorithm`, `cluster_strategy` and `keyword_metrics` keyword arguments. The engine's signature has none of them, so as written the call raises a `TypeError`. The glue between gathering and reporting is therefore not modelled: `BuildRows` takes the clusters as a parameter.
- The three algorithm variants the tab offers (`ui/tab_serp_clustering.py:20-36`) and the metric-driven seed ranking, which `modules/clustering.py` does not contain.
- The engine's pandas table is modelled as a map from keyword to truncated URLs. `UrlsOf` gives `[]` for a keyword without a row, where pandas would raise; the engine only looks up its own keywords.
- SerpClustering.SerpSingletons: requires a non-negative `urls_to_check`, because a negative one keeps all but the last few URLs (Python slicing) and is not bounded by it.
- Cache access (SQLite), the third-party API client, task polling, clocks and the Streamlit UI are left out. The four caches are maps from keyword, with location, language and device fixed as in the tab.
- Cached JSON is reduced to the keys the tab reads. A SERP whose `items` is JSON null would make the tab raise a `TypeError`; the model reads it as an empty list.
- `cpc`, `search_volume` and `keyword_difficulty` are modelled as integers. The defaults (a zero value falls back) and the tuple ordering are the same for floats, but fractional values themselves are not modelled.
- KeywordInput.Lower: lower-cases ASCII letters only, not Python's full Unicode case mapping.
- The CSV branch of keyword input is abstracted as a parameter, `column`: the non-null first-column cells as strings. `pandas.read_csv` and `str()` of a cell are not modelled.
- `list(set(...))` has no defined order, so the keyword list is modelled as a set.
- The display of the missing list with `list(set(missing_keywords))` is left out; `Missing` keeps every report in loop order.
- The embedding model, its encoding, device detection and community detection in modules/semantic_clustering.py are floating-point and foreign-library work. Only `format_clusters` is modelled, with the DataFrame as a column list plus a sequence of rows.
- The data-analysis tab, CSV export and the location and language tables are left out.
