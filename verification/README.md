# Disaster report clustering and authenticity — a Dafny model

The system collects crowd-submitted disaster reports and turns them into
incidents for responders. This project models its core:

- **Proximity estimate** (`Proximity`, `proximity.dfy`). `_estimate_optimal_clusters`
  makes one greedy pass over the coordinates. Each point that no earlier group has
  absorbed starts a new group. That point then absorbs every unvisited point within
  50 metres of it. The model is a method with the source's `visited` array and
  nested loops. It is proved equal to a recursive specification (`StartsGroup` /
  `Covered`), and the count's bounds and the star-shaped (non-transitive) merging
  are proved about that specification.
- **Incident labels** (`IncidentLabels`, `labels.dfy`). Labels have the form
  `incident_{label + 1}`, with a decimal rendering that parses back.
- **Location clustering** (`Clustering`, `clustering.dfy`).
  `cluster_reports_by_location` returns a single `incident_1` group for fewer than
  two reports. Otherwise it asks the partitioner for labels using the estimated
  cluster count, and groups the reports by label in a loop. The grouping is a
  method proved equal to a map comprehension. Every report is proved to fall into
  exactly one non-empty group, in batch order.
- **Authenticity scoring** (`Authenticity`, `authenticity.dfy`).
  `validate_report_authenticity` finds the best fuzzy match of the title or
  description against eight news phrases; the running maximum is kept with a
  strict `>`, so the first best phrase wins. It also computes three "fake"
  indicators, the fake score (a third per indicator), and the verdict
  `similarity >= 0.3 and fake_score < 0.7`.
- **Query filters** (`Filtering`, `filtering.dfy`). The `where` clauses and
  list comprehensions that keep the reports passing a condition, in order. The
  model proves which reports are kept, that filtering distributes over
  concatenation, and how many reports are kept.
- **Incident aggregates** (`Aggregates`, `aggregates.dfy`): maximum priority
  (1 for an empty group), the set of disaster types, and the mean location.
- **Batch coordinator** (`Batch`, `batch.dfy`). `process_batch_reports` clusters
  the batch, validates every report (the last report wins for a repeated id), and
  summarises every incident.
- **Admin endpoints** (`Admin`, `admin.dfy`):
  - the dashboard: verified reports clustered into incident summaries, sorted in
    place by `(-priority, latest timestamp)`, plus report counts;
  - the not-found branch of the incident-details lookup;
  - the derived counts and verification rate of the statistics endpoint.
- **Summarizer guards** (`Summarization`, `summarization.dfy`):
  - the text-quality gate `is_meaningful_text`, built on Python's `strip` and
    `split`;
  - the fallback sentence split on `"."`;
  - the early returns of `generate_summary`.

Collaborators become function parameters:

- Geodesic distance is `dist: (Coord, Coord) -> real`.
- The K-Means fit is `kmeans: (seq<Coord>, nat) -> seq<nat>`, constrained by
  `IsPartitioner`: one label per point, each below `k`.
- `SequenceMatcher.ratio` is `ratio: (string, string) -> real`. Its range [0, 1]
  is assumed only where a lemma needs it.
- NLTK's sentence tokenizer is `tokenize: string -> Option<seq<string>>`, where
  `None` stands for "raised".
- The embedding ranking is `top: seq<string> -> seq<nat>`, constrained by
  `IsRanker`.

Database query results are sequences of `Report` values. Timestamps are integers.
Real numbers stand in for floats.

Edge cases of the code that the model keeps:

- For an empty batch, `process_batch_reports` still returns an `incident_1` group
  with no reports. `np.mean` of its empty coordinate list is NaN, which the model
  gives as `Option.None`; the group's priority is the default 1.
- Priorities are proved to lie in 1..5 only when every member's priority does.

## Model

| member | source | states |
|---|---|---|
| Proximity.EstimateOptimalClusters | ML/services/validator.py:49-70 | The nested-loop count over the `visited` array equals the star-grouping specification. It is at least 1, and at most the number of points when there are any. |
| Proximity.EstimatedClusters | ML/services/validator.py:49-70 | The estimate is at least 1, and at most the number of points when there are any. |
| Proximity.GroupCountBounds | ML/services/validator.py:55-68 | After the first m points have been visited, between 1 and m groups have been started. |
| Proximity.EstimatedClustersRange | ML/services/validator.py:51-52 | Two or fewer points give exactly 1. More points give a count between 1 and the number of points. |
| Proximity.CoveredMeans | ML/services/validator.py:58-68 | A point is absorbed before index r exactly when some earlier group start below r is within the radius of it. |
| Proximity.StartsGroupIff | ML/services/validator.py:58-61 | Point j starts a new group exactly when no earlier group start is within the radius of it. |
| Proximity.ChainIsNotMerged | ML/services/validator.py:63-68 | A chain a~b~c, with a not near c, gives 2 groups. Merging is star-shaped around the first point, not transitive. |
| Proximity.TwoSeparatePairs | ML/services/validator.py:58-68 | Two pairs that are close within each pair and apart from each other give 2 groups. |
| Proximity.CoveredByFirst | ML/services/validator.py:63-68 | A point near the first point is absorbed by the first group. |
| Proximity.OneGroupWhenAllNearFirst | ML/services/validator.py:58-68 | If every point is near the first, exactly one group is started. |
| Proximity.IdenticalPointsOneGroup | ML/services/validator.py:58-68 | Points that all coincide, with distance 0 to themselves, form a single group. |
| IncidentLabels.DecimalString | ML/services/validator.py:42 | The decimal rendering of a number is a non-empty string of digits, with no leading zero unless the number is 0. |
| IncidentLabels.ParseDecimalString | ML/services/validator.py:42 | Parsing the decimal rendering of n gives n back. |
| IncidentLabels.IncidentLabel | ML/services/validator.py:42 | `incident_{label + 1}` starts with the prefix `incident_` followed by at least one character. |
| IncidentLabels.LabelRoundTrip | ML/services/validator.py:42 | The cluster index is recovered from its label. |
| IncidentLabels.IncidentLabelInjective | ML/services/validator.py:42-45 | Two cluster indices share a label if and only if they are equal. |
| IncidentLabels.FirstIncidentLabel | ML/services/validator.py:27 | Cluster 0's label is the literal `incident_1` used for small batches. |
| Reports.Coordinates | ML/services/validator.py:30 | One `(lat, lng)` pair per report, in order. |
| Clustering.MemberIndices | ML/services/validator.py:40-45 | The indices carrying a label are in range, strictly increasing, and include every index with that label. |
| Clustering.Members | ML/services/validator.py:40-45 | A group has exactly as many reports as there are indices carrying its label. |
| Clustering.MembersSnoc | ML/services/validator.py:43-45 | Grouping one more label appends the report to that label's group and leaves the other groups unchanged. |
| Clustering.GroupByLabel | ML/services/validator.py:39-47 | The append loop builds exactly the label-to-members map. |
| Clustering.ClusterLabels | ML/services/validator.py:33-37 | One label per report. For two or more reports, each label is below the estimated cluster count. |
| Clustering.ClusterReportsByLocation | ML/services/validator.py:24-47 | Fewer than 2 reports give `{"incident_1": reports}`. Otherwise the reports are grouped by the partitioner's labels. |
| Clustering.Clustered | ML/services/validator.py:24-47 | Fewer than 2 reports give `{"incident_1": reports}`. Otherwise the incident keys are exactly the labels of the partitioner's clusters. |
| Clustering.SmallBatchIsGrouped | ML/services/validator.py:26-27 | For a single report, the small-batch shortcut agrees with grouping by labels. |
| Clustering.SmallBatchSingleIncident | ML/services/validator.py:26-27 | Fewer than two reports give the single key `incident_1`, which maps to all of them. |
| Clustering.GroupedIsPartition | ML/services/validator.py:40-45 | Each report lies in the group of its own label and in no other group. |
| Clustering.GroupedKeepsOrder | ML/services/validator.py:41-45 | A group lists its reports in batch order. |
| Clustering.GroupedNoEmptyGroup | ML/services/validator.py:43-45 | Every key of the grouping has at least one report. |
| Clustering.GroupedCount | ML/services/validator.py:36-45 | The number of incidents is at least 1, and at most the number of reports and at most k. |
| Clustering.ClusteredMembersFromBatch | ML/services/validator.py:24-47 | Every grouped report comes from the batch. |
| Clustering.ClusteredIsPartition | ML/services/validator.py:24-47 | For a non-empty batch, every report lies in exactly one group and no group is empty. There are between 1 and n incidents, and no more than the estimated count. |
| Clustering.GroupedAllOneKey | ML/services/validator.py:40-45 | When every label maps to one key, that key holds the whole batch. |
| Clustering.GroupedAllZero | ML/services/validator.py:40-45 | All labels 0 give `{"incident_1": reports}`. |
| Clustering.IdenticalCoordinatesOneIncident | ML/services/validator.py:24-70 | Reports at one location form the single incident `incident_1`, whatever the partitioner does. |
| Authenticity.Lower | ML/services/validator.py:74-75 | Lower-casing keeps the length and maps each character on its own. |
| Authenticity.DescriptionText | ML/services/validator.py:75 | The description when there is one, the empty string otherwise. |
| Authenticity.PhraseScore | ML/services/validator.py:82-91 | The score is at least the title's and the description's ratio against the lower-cased phrase, and equals one of them. |
| Authenticity.PhraseScores | ML/services/validator.py:81-91 | For each news phrase, its score is the larger of the title and description similarities. |
| Authenticity.BestMatch | ML/services/validator.py:78-95 | The running maximum starting at 0 bounds every score. When there is no match it is 0. When there is one, it is the first index holding the maximum, which is positive. |
| Authenticity.FakeIndicators | ML/services/validator.py:101-105 | The three indicators are: title shorter than 10, no needs, and a lower-cased type outside the eight known types. |
| Authenticity.FakeScore | ML/services/validator.py:107 | The score times the number of indicators is the number of true ones, so it lies in [0, 1]. |
| Authenticity.Assess | ML/services/validator.py:72-115 | Authentic exactly when similarity >= 0.3 and fake score < 0.7. The indicators are the three fake indicators, and the fake score is their share of true ones. The similarity is non-negative and bounds every phrase score. No matching news means similarity 0. |
| Authenticity.ValidateReportAuthenticity | ML/services/validator.py:72-115 | The loop over the news phrases returns the verdict of the specification `Assess`. |
| Authenticity.SimilarityIsFirstMaximum | ML/services/validator.py:78-95 | The similarity bounds every phrase score. The matching news is the first phrase reaching it, or none when it is 0. |
| Authenticity.SimilarityInUnitInterval | ML/services/validator.py:85-94 | With ratios in [0, 1], the similarity is in [0, 1]. |
| Authenticity.FakeScoreInThirds | ML/services/validator.py:107 | The fake score is the number of true indicators divided by 3, so it is 0, 1/3, 2/3 or 1. |
| Authenticity.AuthenticIff | ML/services/validator.py:98-110 | Authentic if and only if similarity >= 0.3 and fake score < 0.7. |
| Authenticity.HighFakeScoreRejects | ML/services/validator.py:110 | A fake score of at least 0.7 means the report is not authentic. |
| Authenticity.AllIndicatorsReject | ML/services/validator.py:101-110 | All three indicators give fake score 1, and the report is rejected. |
| Authenticity.MissingDescriptionIsEmpty | ML/services/validator.py:75 | A missing description is scored like the empty description. |
| Authenticity.ShortAlienReportRejected | ML/services/validator.py:101-110 | Title "hi", no needs and type "alien invasion" give indicators [true, true, true], score 1, and rejection. |
| Authenticity.ExactTitleMatchAccepted | ML/services/validator.py:81-110 | A title matching the first phrase exactly, with needs and a known type, is accepted with similarity 1 and that phrase as the match. |
| Filtering.Filter | api/admin.py:19 | No more reports are kept than were queried. |
| Filtering.FilterMembers | api/admin.py:19 | A report is kept exactly when it is in the input and passes the condition. |
| Filtering.FilterEmptyIff | api/admin.py:88-98 | Nothing is kept if and only if no report passes the condition. |
| Filtering.FilterAppend | ML/services/validator.py:129-132 | Filtering distributes over concatenation, so the kept reports stay in input order. |
| Filtering.FilterSingle | ML/services/validator.py:129-132 | One report is kept exactly when it passes the condition. |
| Filtering.FilterCount | api/admin.py:64 | The number kept equals the number of positions whose report passes the condition. |
| Filtering.FilterSplits | api/admin.py:19-23 | A condition and its negation split the reports: the two counts add up to the whole. |
| Aggregates.MaxPriority | ML/services/validator.py:138 | It is 1 for an empty group. Otherwise it is a member's priority, and no member's priority exceeds it. |
| Aggregates.MaxPriorityInRange | ML/services/validator.py:138 | With member priorities in 1..5, the maximum is in 1..5. |
| Aggregates.DisasterTypes | ML/services/validator.py:139 | The set holds exactly the members' disaster types. |
| Aggregates.MeanLocation | ML/services/validator.py:140-143 | The mean latitude (longitude) times the group size is the sum of the members' latitudes (longitudes). |
| Aggregates.MeanLocationWithinBounds | ML/services/validator.py:140-143 | The mean location lies within any box that contains every member. |
| Batch.AuthenticMembers | ML/services/validator.py:129-132 | No more reports than the group has. A report is kept exactly when it is a member whose verdict is authentic. |
| Batch.AuthenticCount | ML/services/validator.py:129-136 | The authentic count is the number of group positions whose report's verdict is authentic. |
| Batch.SummarizeIncident | ML/services/validator.py:129-144 | The total equals the group size. The authentic count is the number of positions whose verdict is authentic, so it is at most the total. An empty group has priority 1 and no location. Otherwise the location is the mean. The priority is the maximum priority (1 for an empty group), so it bounds every member's and lies in 1..5 for valid input. The disaster types are the members' types. |
| Batch.ValidateAll | ML/services/validator.py:123-125 | One verdict per distinct id. It is the verdict of the last report with that id. |
| Batch.SummarizeAll | ML/services/validator.py:128-144 | One summary per incident key, built from that incident's reports. |
| Batch.ProcessBatchReports | ML/services/validator.py:117-152 | Gives the clustering, the verdicts keyed by id (covering every grouped report), one summary per incident, and the two totals. |
| Batch.DistinctIdsOwnVerdict | ML/services/validator.py:123-125 | With distinct ids, every report's verdict is its own assessment. |
| Batch.EmptyBatchResult | ML/services/validator.py:117-152 | An empty batch gives one incident with 0 reports, priority 1 and no location, and no verdicts. |
| Batch.BatchIncidentSummary | ML/services/validator.py:128-144 | In a non-empty batch with priorities in 1..5, every incident summary counts a non-empty group and at most that many authentic reports. Its priority is in 1..5 and is reached by a member, and its location is the members' mean. |
| Admin.VerifiedCount | api/admin.py:19-20 | The verified query returns as many reports as there are positions with `is_verified` set. |
| Admin.PendingCount | api/admin.py:64 | The pending list has as many reports as there are positions with `is_verified` unset. |
| Admin.VerifiedPlusPending | api/admin.py:19-23 | The verified and the not-verified reports together are all reports. |
| Admin.VerifiedReports | api/admin.py:19-20 | No more reports than were queried. A report is returned exactly when it is among all reports and verified. |
| Admin.PendingReports | api/admin.py:64 | No more reports than were queried. A report is listed exactly when it is among all reports and not verified. |
| Admin.LatestTimestampIsNewest | api/admin.py:60 | The sort key's timestamp is a member's timestamp, and no member is newer. |
| Admin.LatestTimestamp | api/admin.py:60 | The latest timestamp is the timestamp of some member. |
| Admin.KeyLe | api/admin.py:60 | `incident` sorts no later than `other` exactly when `other` does not sort strictly before it. A higher priority always sorts first, and a lower priority never does. |
| Admin.SummarizeVerified | api/admin.py:39-56 | Total and authentic both equal the group size. It uses the maximum priority, the set of disaster types, the mean location and the group's own reports. |
| Admin.SortIncidents | api/admin.py:59-60 | The in-place insertion sort leaves the array ordered by (-priority, latest timestamp) and a permutation of its input. |
| Admin.SinkLast | api/admin.py:59-60 | One insertion step: given a sorted prefix before index i, it leaves the prefix through i sorted, a permutation, every incident still non-empty, and the elements after i unchanged. |
| Admin.SwapDown | api/admin.py:59-60 | Swapping an out-of-order pair at j-1 and j moves the gap in the sorted prefix down by one. It keeps a permutation and changes no other element. |
| Admin.CollectStep | api/admin.py:37-57 | Summarising one more remaining group keeps the loop invariant: one incident per group already visited, each summarising its group. |
| Admin.SortedIncidents | api/admin.py:59-60 | The sorted incidents are a permutation of the input and are ordered by the key. |
| Admin.SummarizesReordered | api/admin.py:59-60 | Reordering the incidents keeps exactly one summary per group. |
| Admin.CollectIncidents | api/admin.py:37-57 | The loop yields exactly one incident per group. Each incident is the summary of the group under its id. |
| Admin.DashboardIncidents | api/admin.py:34-60 | Clustering verified reports gives one summary per cluster, sorted by the key. |
| Admin.GetDashboard | api/admin.py:14-72 | With no verified report: no incidents, and every report pending. Otherwise: one summary per cluster of the verified reports, sorted. The counts of all, verified and pending reports are given in both cases. |
| Admin.GetIncidentDetails | api/admin.py:80-116 | Not found if and only if no verified report carries the id. Otherwise: a summary of exactly the verified reports with that id. |
| Admin.IncidentReports | api/admin.py:88-92 | No more reports than were queried. A report is returned exactly when it is verified and carries the incident id. |
| Admin.PercentageOfPart | api/admin.py:158 | A part of a whole is between 0 and 100 percent. Rate times total equals part times 100. The rate is 100 only when the part is the whole. |
| Admin.Percentage | api/admin.py:158 | It is 0 when the whole is 0. Otherwise the rate times the whole equals the part times 100. |
| Admin.GetStatistics | api/admin.py:130-158 | Total and verified counts. Pending equals the number of unverified reports. The rate is the verified percentage of the total. |
| Admin.StatisticsRate | api/admin.py:157-158 | The rate is in [0, 100], and 0 without reports. It is 100 exactly when there are reports and none is pending. |
| Summarization.Strip | features/summarization/feature_5_summarization.py:31 | The result is no longer than the input. It is empty or starts and ends with non-whitespace. Only whitespace is removed around it. |
| Summarization.StripDecomposes | features/summarization/feature_5_summarization.py:31 | The input is leading whitespace, then the stripped text, then trailing whitespace. |
| Summarization.StripUnique | features/summarization/feature_5_summarization.py:31 | Whitespace around a text that is bare at both ends strips to exactly that text. |
| Summarization.StripIdempotent | features/summarization/feature_5_summarization.py:31 | Stripping twice is the same as stripping once. |
| Summarization.StripIgnoresPadding | features/summarization/feature_5_summarization.py:31 | Added surrounding whitespace does not change the stripped text. |
| Summarization.Words | features/summarization/feature_5_summarization.py:38 | Every word is non-empty and contains no whitespace. |
| Summarization.WordsLayout | features/summarization/feature_5_summarization.py:38 | The text is its words interleaved with whitespace gaps. There is one more gap than words, and every gap between two words is non-empty. |
| Summarization.WordsOfLayout | features/summarization/feature_5_summarization.py:38 | Any word list interleaved with such gaps splits back into exactly that word list. |
| Summarization.WordsOfWord | features/summarization/feature_5_summarization.py:38 | A non-empty text without whitespace splits into exactly one word, itself. |
| Summarization.WordsCharacterized | features/summarization/feature_5_summarization.py:38 | `Words(s)` equals a word list if and only if that list, with some whitespace gaps, spells `s`. This fixes the words and their number. |
| Summarization.WordsKeepContent | features/summarization/feature_5_summarization.py:38 | The words concatenated are the input with its whitespace removed. |
| Summarization.WordsAreSeparated | features/summarization/feature_5_summarization.py:38 | Two or more words mean the text contains whitespace. |
| Summarization.DistinctChars | features/summarization/feature_5_summarization.py:36 | The set holds exactly the characters of the text. |
| Summarization.HasVowel | features/summarization/feature_5_summarization.py:34 | Holds exactly when some vowel occurs in the text. |
| Summarization.IsMeaningfulText | features/summarization/feature_5_summarization.py:28-40 | Accepted text is a string whose stripped form has at least 15 characters. |
| Summarization.MeaningfulIff | features/summarization/feature_5_summarization.py:28-40 | Accepted if and only if the stripped text passes all of: length >= 15, a vowel, >= 5 distinct characters, >= 3 words. |
| Summarization.ShortTextRejected | features/summarization/feature_5_summarization.py:31-33 | A raw string shorter than 15 is rejected. |
| Summarization.UnbrokenTextRejected | features/summarization/feature_5_summarization.py:38-39 | A string without whitespace is rejected. |
| Summarization.MeaningfulIgnoresPadding | features/summarization/feature_5_summarization.py:28-40 | Surrounding whitespace never changes the verdict. |
| Summarization.MeaningfulStripped | features/summarization/feature_5_summarization.py:28-40 | The stripped form of accepted text is accepted. |
| Summarization.SplitOn | features/summarization/feature_5_summarization.py:49 | There is at least one piece. No piece holds the separator. Joining the pieces with the separator gives the input back. |
| Summarization.SplitOnCount | features/summarization/feature_5_summarization.py:49 | There is one more piece than the input has separators. |
| Summarization.Join | features/summarization/feature_5_summarization.py:84 | The joined text starts with the first piece. With two or more pieces, the separator follows it. |
| Summarization.LongPieces | features/summarization/feature_5_summarization.py:49 | Every kept piece is stripped and longer than 5. There are no more kept pieces than pieces. |
| Summarization.Kept | features/summarization/feature_5_summarization.py:49 | One piece yields at most one sentence, which is stripped and longer than 5. |
| Summarization.LongPiecesAppend | features/summarization/feature_5_summarization.py:49 | Filtering distributes over concatenation, so the kept pieces stay in their original order. |
| Summarization.LongPiecesSingle | features/summarization/feature_5_summarization.py:49 | A piece is kept, stripped, exactly when its stripped form is longer than 5. |
| Summarization.FallbackSplit | features/summarization/feature_5_summarization.py:49 | Every sentence of the fallback is stripped, longer than 5, and free of ".". |
| Summarization.SafeSentenceSplit | features/summarization/feature_5_summarization.py:45-49 | Gives the tokenizer's sentences, or the fallback split when the tokenizer fails. |
| Summarization.GenerateSummary | features/summarization/feature_5_summarization.py:69-84 | None if and only if the text is not meaningful. At most 2 sentences give the stripped message. Otherwise the result is the two top-ranked sentences joined by a space. |
| Summarization.ShortSummaryIsMeaningful | features/summarization/feature_5_summarization.py:70-76 | A summary returned whole is itself meaningful text. |

## Left out

- The K-Means fit (ML/services/validator.py:36-37) is a seeded floating-point library routine. It is the parameter `kmeans`, and the model assumes only that it returns one label below `k` per point.
- The geodesic distance (ML/services/validator.py:66) is floating-point geodesy. It is the parameter `dist`, compared against the 50-metre radius.
- `SequenceMatcher.ratio` (ML/services/validator.py:85,88) is a library routine. It is the parameter `ratio`, and its range [0, 1] is a lemma precondition.
- Authenticity.Lower: lower-cases ASCII letters only. Python's Unicode case mapping is not modelled.
- Floating point: reals replace floats. Comparisons with 0.3 and 0.7, the division by 3, and the means are exact.
- Batch.SummarizeIncident: the NaN location of an empty group is modelled as no location.
- Clustering.GroupByLabel: the result is a map, so Python's dict insertion order of the incident keys is not modelled.
- Batch.ProcessBatchReports: the dicts are maps, so insertion order is not modelled.
- Admin.CollectIncidents: visits the keys in an arbitrary order rather than the dict's insertion order. The sort that follows fixes the order up to ties.
- Admin.SortIncidents: proved sorted and a permutation. The stability of Python's sort (the order of equal keys) is not proved.
- Admin.GetDashboard: takes both queries to read the same snapshot of reports. `ReportResponse.from_orm` is the identity. The HTTP 500 wrapping of exceptions is not modelled.
- Admin.GetDashboard, Admin.GetIncidentDetails and Admin.GetStatistics: the filtered queries are taken to return their rows in the order of the unfiltered query (`VerifiedReports` keeps the order of `allReports`). The queries at api/admin.py:19-20 and 88-92 have no ORDER BY, so the database may return another order. The clustering, and with it the incident grouping, depends on that order.
- Strings are sequences of Unicode scalar values. Surrogate code points, which a Python `str` can hold, are not modelled.
- Admin.GetStatistics: the per-type and per-priority breakdowns (database group-by queries) are not modelled. Neither is the 24-hour activity count, which reads the clock.
- Admin.GetIncidentDetails: the not-found error is a `Failure` value instead of an HTTP 404 exception.
- Summarization.GenerateSummary: the DistilBERT encoding, the cosine similarity and the argsort ranking (features/summarization/feature_5_summarization.py:21-23, 54-64, 78-84) are not modelled. They become the parameter `top`, which gives two distinct valid indices.
- Summarization.SafeSentenceSplit: NLTK `sent_tokenize` is the parameter `tokenize`, with a raised exception modelled as `None`.
- Summarization.IsMeaningfulText: any non-string input is `None`.
- Database access, commits and the HTTP layer are not modelled (api/reports.py, api/admin.py). api/reports.py only calls the validator and copies labels back.
- App wiring and the declarative schemas and models are not modelled. Their field constraints appear only as lemma preconditions (`ValidPriorities`).
- The import-path difference between api/admin.py:8 and api/reports.py:8 is a packaging matter, not behaviour.
