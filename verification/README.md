# RecSys feed recommender: a Dafny model

This project models the core of the RecSys feed recommender. The recommender gets a user id
and the posts the user has viewed. It returns the top `limit` posts as `{id, text, topic}`
records, ranked by a CatBoost classifier's like-probability. The model covers five parts:

- **Serving path, model v1** (`RecommenderV1`). It selects the candidate posts, right-merges
  them with the user's row, scores them, sorts them by descending score and keeps the first
  `limit`. The selection and ranking steps are shared with v2 and live in `Ranking` and
  `Sorting`.
- **Serving path, model v2** (`RecommenderV2`, `AggregateTables`). This is the v1 pipeline with
  two more user columns:
  - the user's likes-to-views ratio;
  - the user's share of likes for the candidate's topic.

  A user with history takes both from the training frame. A user without history takes them
  from the aggregate tables built in the constructor: the mean ratio per age, and the median
  share per (age, topic). The age is clamped up to 14 and then decremented until an age bucket
  exists.
- **Offline feature statistics** (`TextNormalizer`, `FeedMerge`, `FeatureStatistics`):
  - the text normaliser;
  - the log ⋈ users ⋈ posts join, which drops `like` rows and orders by date;
  - the per-post and per-user likes-to-views ratios;
  - the per-user-per-topic share of likes;
  - the backfill of the post table's ratio with the topic mean.
- **Hit-rate@k** (`HitRate`).
- **Offline evaluation loop** (`Evaluation`, `PyText`). It parses each validation row's
  `"[1, 2, 3]"` string into ids, adds up the per-user hits and divides by the number of rows.

Tables are sequences of row datatypes. A serving-time user table is a map keyed by user id.
Ratios are exact `real`s. A missing pandas value (NaN, or a `.get` that finds nothing) is
`None`. The CatBoost classifier is a parameter `Scorer<F>`: a deterministic function from the
feature record to a score in [0, 1]. The steps the source writes imperatively are methods
proved against specification functions:

- the age fallback loop;
- the per-user feature resolution;
- v2's `predict`;
- the liked-posts parser;
- the evaluation accumulator.

Where the documented intent of the system and its code disagree, the model follows the code:

- A topic missing from a share table or a median bucket gives NaN in the code (`Series.map`
  of a missing key). It does not give 0. It is `None` here.
- For a cold-start user with no age bucket at or below the clamped age, the code loops
  forever. It does not raise a statistics error. `ResolveAge` therefore requires such a
  bucket.
- The history branch of `_get_users_features` looks up the builtin `id`, and
  `evaluate_metrics` parses row 0 on every iteration. Both are listed under Findings. The
  model uses the evidently intended behaviour and keeps each as-written form beside it.

## Model

| member | source | states |
|---|---|---|
| TextNormalizer.ProcessText | src/features/build_features.py:72-77 | the normalised text has no upper-case letter, only word and whitespace characters, no newline, and is no longer than the input |
| TextNormalizer.ProcessTextKeepsText | src/features/build_features.py:72-77 | the normalised text is the lower-cased text with newlines turned into spaces, keeping every word and whitespace character in order and as often as it occurs, and nothing else |
| TextNormalizer.StripPunctuation | src/features/build_features.py:74 | a character occurs in the result exactly when it occurs in the input and is a word or whitespace character |
| TextNormalizer.StripPunctuationKeepsKept | src/features/build_features.py:74 | the result is a subsequence of the input holding each word and whitespace character as often as the input does, and no other character |
| TextNormalizer.ReplaceNewlinesAfterStrip | src/features/build_features.py:74-75 | replacing newlines after the deletion gives the same text as replacing them before it |
| TextNormalizer.ProcessTextIdempotent | src/features/build_features.py:72-77 | normalising twice gives the same text as normalising once |
| FeedMerge.MergeDfs | src/features/build_features.py:106-111 | defined as the date-sorted, like-free join projected onto the kept columns (`action`, `date`, `exp_group` removed); what it promises is stated by `MergeDfsOrigins`, `MergeDfsKeepsEveryRow` and `MergeDfsCount` |
| FeedMerge.Joined | src/features/build_features.py:106 | every joined row comes from a log row, with its matching user and post or none when the key is missing; one row per log row under unique keys is `JoinedLogs`, used by `MergeDfsKeepsEveryRow` |
| FeedMerge.Project | src/features/build_features.py:108-111 | defined as dropping `action`, `date` and `exp_group` from a joined row; what it keeps is stated by `ProjectComesFrom` |
| FeedMerge.ProjectComesFrom | src/features/build_features.py:108-111 | projecting a kept joined row (dropping `action`, `date`, `exp_group`) keeps its log row's ids and target, a matching user's features and a matching post; this is the promise of `FeedMerge.Project` |
| FeedMerge.SortedJoin | src/features/build_features.py:106-109 | rows are in ascending date order and are a permutation of the like-free join; none is a `like` row, each comes from a log row with its matching user and post |
| FeedMerge.MergeDfsOrigins | src/features/build_features.py:106-111 | every output row is the projection of a non-like log row joined with its user and post, and the source log rows are in non-decreasing date order |
| FeedMerge.MergeDfsKeepsEveryRow | src/features/build_features.py:106-111 | with unique user and post keys, the log rows behind the output rows are exactly the non-like log rows, each once: none dropped, none duplicated |
| FeedMerge.MergeDfsCount | src/features/build_features.py:106-107 | with unique user and post keys the output has exactly as many rows as the log has non-like rows |
| FeedMerge.JoinUsers | src/features/build_features.py:106 | each joined row comes from a log row with its matching user (or none); with unique user keys there is one row per log row, in log order |
| FeedMerge.JoinPosts | src/features/build_features.py:106 | each row gets its matching post (or none); with unique post keys the row count and order are unchanged |
| FeatureStatistics.CreateNewFeatures | src/features/build_features.py:117-138 | one feature row per merged row, carrying that merged row unchanged |
| FeatureStatistics.RatiosAreLikesOverViews | src/features/build_features.py:124-130 | a row's post and user ratios are that group's sum of targets over its row count, the count is at least 1, and both ratios lie in [0, 1] |
| FeatureStatistics.TopicProportionBounds | src/features/build_features.py:132-134 | the per-user-per-topic share lies in [0, 1] and is 0 when the user has no likes |
| FeatureStatistics.ProportionsSumToOne | src/features/build_features.py:132-134 | for a user with at least one like, all of whose rows carry a known post topic, the shares over the user's distinct topics sum to 1 (a like on a row without a post falls out of every topic group) |
| FeatureStatistics.MaxPostRatio | src/features/build_features.py:39 | none exactly when the post has no training row; otherwise the largest ratio among its rows |
| FeatureStatistics.Mean | src/features/build_features.py:42 | none for an empty group, otherwise the sum over the count |
| FeatureStatistics.MeanWithin | src/features/build_features.py:42 | a mean of values within bounds is within the same bounds |
| FeatureStatistics.BackfillPostRatios | src/features/build_features.py:39-42 | posts keep id, topic and text; a post with training rows gets its maximum ratio; any other post gets the mean of its topic's mapped ratios |
| FeatureStatistics.BackfilledRatios | src/features/build_features.py:39-42 | backfilled from the built training frame, every ratio lies in [0, 1] and a trained post's ratio is its likes over views |
| AggregateTables.MeanRatioByAge | src/models/catboost_recommender_v2/validation_model_v2.py:25 | keys are exactly the ages present in the frame, each value the mean of that age's user ratios |
| AggregateTables.MeanRatioByAgeWithin | src/models/catboost_recommender_v2/validation_model_v2.py:25 | per-age means of ratios within bounds stay within them |
| AggregateTables.MedianSplitsValues | src/models/catboost_recommender_v2/validation_model_v2.py:26 | the median is at least every value of the lower half and at most every value of the upper half of the sorted values |
| AggregateTables.MedianWithin | src/models/catboost_recommender_v2/validation_model_v2.py:26 | the median of values within bounds is within them |
| AggregateTables.MedianByAgeTopic | src/models/catboost_recommender_v2/validation_model_v2.py:26 | keys are the ages with a topic row (all of them also mean-table keys), each bucket is non-empty and keyed by the topics seen at that age; the entries are stated by `MedianByAgeTopicEntries` |
| AggregateTables.MedianByAgeTopicEntries | src/models/catboost_recommender_v2/validation_model_v2.py:26 | every entry is the median of the topic proportions of its (age, topic) group, and that group has at least one row |
| AggregateTables.MedianByAgeTopicWithin | src/models/catboost_recommender_v2/validation_model_v2.py:26 | medians of shares within bounds stay within them |
| AggregateTables.Share | src/models/catboost_recommender_v2/validation_model_v2.py:27-28 | none (0/0) exactly when the user has no likes, otherwise the user's likes on the topic over all the user's likes |
| AggregateTables.ShareByUserTopic | src/models/catboost_recommender_v2/validation_model_v2.py:27-28 | keyed by the users with a topic row, each user's entry keyed by that user's topics |
| AggregateTables.ShareMatchesTraining | src/models/catboost_recommender_v2/validation_model_v2.py:27-28 | on the built frame, the table's entry is the share of likes and agrees with the training column where defined |
| Sorting.SortBy | src/models/catboost_recommender_v2/validation_model_v2.py:54 | the result is sorted by the key and is a permutation of the input |
| Ranking.SelectCandidates | src/models/catboost_recommender_v2/validation_model_v2.py:44-45 | candidates are a subsequence of the post table (table order), exactly the posts whose id was viewed, and unique when post ids are |
| Ranking.SelectDependsOnIdSet | src/models/catboost_recommender_v1/validation_model_v1.py:36-37 | duplicates and order in `viewed_posts` do not change the candidates |
| Ranking.Select | src/models/catboost_recommender_v1/validation_model_v1.py:37 | defined as the `isin` row filter; what it gives is stated by `SelectCandidates` and `SelectDependsOnIdSet` |
| Ranking.RightMerge | src/models/catboost_recommender_v1/validation_model_v1.py:35-39 | one row per candidate, in order, each carrying the requested user id and the user's row or none |
| Ranking.ScoreAll | src/models/catboost_recommender_v1/validation_model_v1.py:41 | each candidate paired with its own score, in order |
| Ranking.TopByScore | src/models/catboost_recommender_v1/validation_model_v1.py:43-45 | the pandas `head(limit)` length of the candidates (min(limit, n) for limit ≥ 0, all but the last -limit for a negative limit), in non-increasing score order, drawn from the scored candidates |
| Ranking.TopByScoreKeepsBest | src/models/catboost_recommender_v1/validation_model_v1.py:43-45 | every kept row scores at least as high as every dropped one |
| Ranking.RankedAreScoredCandidates | src/models/catboost_recommender_v1/validation_model_v1.py:41-45 | every ranked item is a candidate carrying its own score |
| RecommenderV1.Candidates | src/models/catboost_recommender_v1/validation_model_v1.py:35-39 | one merged row per selected post: each a table post whose id was viewed, carrying the requested user id and the user's row or none |
| RecommenderV1.Ranked | src/models/catboost_recommender_v1/validation_model_v1.py:41-45 | the pandas `head(limit)` length of the candidates, in non-increasing score order; `RankedRow` states what each row is |
| RecommenderV1.Predict | src/models/catboost_recommender_v1/validation_model_v1.py:31-51 | never more records than candidates, each with a viewed id; length, order, contents and the best-first cut are `PredictLength`, `PredictOrder`, `PredictRecords` and `PredictKeepsBest` |
| RecommenderV1.PredictLength | src/models/catboost_recommender_v1/validation_model_v1.py:45 | the output length is the pandas `head(limit)` length of the candidates (min(limit, n) for limit ≥ 0) |
| RecommenderV1.RankedRow | src/models/catboost_recommender_v1/validation_model_v1.py:35-41 | each ranked row is a viewed post with the user's row, scored on features without user id, post id, text and group |
| RecommenderV1.PredictRecords | src/models/catboost_recommender_v1/validation_model_v1.py:43-47 | each record is (id, text, topic) of a post of the table, and its id was viewed |
| RecommenderV1.PredictOrder | src/models/catboost_recommender_v1/validation_model_v1.py:43 | records come in non-increasing score order |
| RecommenderV1.PredictKeepsBest | src/models/catboost_recommender_v1/validation_model_v1.py:43-45 | a viewed post missing from the output scores no higher than any returned record |
| RecommenderV2.FirstUserRatio | src/models/catboost_recommender_v2/validation_model_v2.py:63-64 | none exactly when the user has no training row, otherwise the ratio of the user's first row |
| RecommenderV2.FirstUserRatioOfBuiltFrame | src/models/catboost_recommender_v2/validation_model_v2.py:63-64 | on the built frame, that ratio is the user's likes over views |
| RecommenderV2.Clamp | src/models/catboost_recommender_v2/validation_model_v2.py:68-69 | the result is at least 14 and at least the age, and is either the age or 14 |
| RecommenderV2.ResolveAge | src/models/catboost_recommender_v2/validation_model_v2.py:71-72 | the loop ends on an age that has a median bucket, at or below the clamped age, and no larger such age exists |
| RecommenderV2.GetUsersFeatures | src/models/catboost_recommender_v2/validation_model_v2.py:62-80 | the resolved columns equal the specification of the history and cold-start branches, including their errors |
| RecommenderV2.HistoryBranch | src/models/catboost_recommender_v2/validation_model_v2.py:63-65 | with history: KeyError exactly when the user is no share-table key; otherwise the user's first ratio and, per candidate, the user's share for its topic or none |
| RecommenderV2.HistoryUsesOwnStatistics | src/models/catboost_recommender_v2/validation_model_v2.py:27-28 | on the built frame, a user with history gets the user's own likes over views and own share of likes per topic |
| RecommenderV2.ColdStartBranch | src/models/catboost_recommender_v2/validation_model_v2.py:66-75 | without history: an unknown user fails; otherwise every candidate gets the mean at the resolved age and that bucket's median for its topic, or none for a missing topic |
| RecommenderV2.Rows | src/models/catboost_recommender_v2/validation_model_v2.py:77-78 | one row per candidate, each with the user's ratio and its own topic share |
| RecommenderV2.Candidates | src/models/catboost_recommender_v2/validation_model_v2.py:43-47 | one merged row per selected processed post: each a table post whose id was viewed, carrying the requested user id and the user's row or none |
| RecommenderV2.Predict | src/models/catboost_recommender_v2/validation_model_v2.py:39-60 | the recommendations equal the specification pipeline: select, merge, resolve features, score, sort, truncate |
| RecommenderV2.PredictShape | src/models/catboost_recommender_v2/validation_model_v2.py:50-56 | fails exactly when feature resolution fails, with its error; otherwise the pandas `head(limit)` length of the candidates (min(limit, n) for limit ≥ 0) in records, each the (id, text, topic) of its ranked row |
| RecommenderV2.RankedRows | src/models/catboost_recommender_v2/validation_model_v2.py:43-55 | ranked rows are in non-increasing score order, each a viewed post of the table scored on its own features, with the user's resolved ratio and the share resolved for that post's own position among the candidates, hence for its own topic |
| RecommenderV2.AsWrittenHistoryFails | src/models/catboost_recommender_v2/validation_model_v2.py:64-65 | as written, every user with history gets an IndexError, where the corrected lookup succeeds |
| HitRate.CountHits | src/metrics/metrics.py:10 | positive exactly when some recommended id is liked, and at most the number of recommended ids |
| HitRate.HitRateAtK | src/metrics/metrics.py:6-13 | the result is 0 or 1, and 1 exactly when one of the first k recommended ids is liked |
| HitRate.HitRateIgnoresTail | src/metrics/metrics.py:10 | recommended ids at positions k and beyond do not change the result |
| HitRate.HitRateEmpty | src/metrics/metrics.py:10-11 | no recommendations, no likes or k = 0 give 0 |
| HitRate.HitRateMonotone | src/metrics/metrics.py:10-11 | liking more posts never lowers the result |
| PyText.Split | src/metrics/evaluate_metrics.py:21 | `str.split(',')`: one piece more than separators, no piece contains the separator, joining the pieces gives the string back |
| PyText.SplitJoin | src/metrics/evaluate_metrics.py:21 | splitting a join of separator-free pieces gives the pieces back |
| PyText.Strip | src/metrics/evaluate_metrics.py:22 | `str.strip()`: the middle of the string after its leading whitespace, with only whitespace after it and none at its ends |
| PyText.ParseInt | src/metrics/evaluate_metrics.py:22 | `int()` on a stripped string: it parses exactly when it is an optional sign followed by at least one ASCII digit (so never the empty string), and its value is the base-10 reading of the digits, negated after `-` |
| PyText.ParseIntLeadingZero | src/metrics/evaluate_metrics.py:22 | a leading zero does not change the parsed value (`int("007") == 7`) |
| PyText.ParseIntSign | src/metrics/evaluate_metrics.py:22 | `+` leaves the value unchanged and `-` negates it |
| PyText.ParseShow | src/metrics/evaluate_metrics.py:22 | parsing a rendered integer gives it back |
| Evaluation.StripBrackets | src/metrics/evaluate_metrics.py:21 | no `[` or `]` remains anywhere |
| Evaluation.StripBracketsKeepsOthers | src/metrics/evaluate_metrics.py:21 | every other character is kept, as often as it occurs and in order |
| Evaluation.ParsePiecesMeaning | src/metrics/evaluate_metrics.py:21-23 | fails exactly when some stripped piece is not an integer; otherwise one id per piece, in textual order |
| Evaluation.ParseLikedPosts | src/metrics/evaluate_metrics.py:19-23 | the append loop computes the liked-posts parse of the string |
| Evaluation.LikedPostsCount | src/metrics/evaluate_metrics.py:21-22 | a parsed list has one id more than the string has commas, the k-th id being the k-th piece's value |
| Evaluation.EmptyListRejected | src/metrics/evaluate_metrics.py:22 | `"[]"` is a parse error on the empty piece |
| Evaluation.RenderRoundTrip | src/metrics/evaluate_metrics.py:21-23 | the parser reads back any non-empty id list written as `"[a, b, c]"` |
| Evaluation.EvaluateSpec | src/metrics/evaluate_metrics.py:16-28 | an empty validation set divides by zero; a successful average lies in [0, 1] |
| Evaluation.SumHits | src/metrics/evaluate_metrics.py:26 | with per-row hits 0 or 1, the total lies between 0 and the row count |
| Evaluation.EvaluateMetrics | src/metrics/evaluate_metrics.py:16-28 | the loop computes the per-row evaluation: each row's own list parsed, hits summed, divided by the row count |
| Evaluation.EvaluateFails | src/metrics/evaluate_metrics.py:16-28 | the evaluation fails exactly when the set is empty or some row's list does not parse |
| Evaluation.EvaluateExtremes | src/metrics/evaluate_metrics.py:16-28 | the average is 1 exactly when every user hits and 0 exactly when none does |
| Evaluation.EvaluateAsWritten | src/metrics/evaluate_metrics.py:16-28 | the loop as written (row 0's list for every row): an empty set divides by zero and a successful average lies in [0, 1]; where it differs from the per-row loop is `AsWrittenAgreesOnUniformLists` and `AsWrittenScoresFirstUsersLikes` |
| Evaluation.AsWrittenAgreesOnUniformLists | src/metrics/evaluate_metrics.py:21 | reading row 0 agrees with the per-row reading when all rows hold the same list |
| Evaluation.AsWrittenScoresFirstUsersLikes | src/metrics/evaluate_metrics.py:21 | any two rows whose lists parse as [10] and [20], recommended [10] and [20]: 1.0 per row, 0.5 as written |
| Evaluation.AsWrittenCounterexample | src/metrics/evaluate_metrics.py:21 | rows (1, "[10]") and (2, "[20]") score 1.0 per row but 0.5 as written |

## Left out

- CatBoost training (`fit`) and `predict_proba` are left out. The classifier is the `Scorer`
  parameter: deterministic, with scores in [0, 1].
- TF-IDF features are left out. `FeaturesV2` carries the TF-IDF mean and maximum and the text
  length as opaque post attributes.
- `round(..., 3)` is omitted everywhere: ratios, shares, means and medians are exact reals.
- `TextNormalizer.ProcessText`: `str.lower`, `\w` and `\s` are modelled on ASCII. Every
  non-ASCII character is treated as a word character without case, so the model does not
  capture Unicode case mapping or Unicode whitespace.
- `PyText.ParseInt` does not accept the underscores, surrounding whitespace or non-ASCII
  digits that Python's `int()` accepts. Only the pieces' outer whitespace, removed by `strip`
  first, matters on the modelled path.
- `PyText.Strip` removes ASCII whitespace only; Python's `str.strip()` also removes Unicode
  whitespace.
- `Evaluation.StripBrackets` models `re.sub(r'(\[|\])', '', s)` as a character filter.
- Sort ties: pandas `sort_values` is not stable by default, so the order of equal keys is
  unspecified. This holds for the ranking by score and for the date sort of the merged log.
  - `Sorting.SortBy` happens to be stable, so it picks one of the orders pandas may produce.
  - `Ranking.TopByScore` only claims non-increasing scores and a sub-multiset of the scored
    candidates.
  - `FeedMerge.SortedJoin` only claims ascending dates and a permutation of the like-free
    join.
- `RecommenderV2.ResolveAge` requires an age bucket at or below the clamped age. The source
  loops forever without one.
- The serving user table is a map keyed by user id. The model does not capture a user table
  with duplicate ids, where the source's merge would multiply rows.
- The recommender that `evaluate_metrics` evaluates is a pickled `Recommender_v1`, whose
  `predict(user_id=...)` is not part of this model. It is therefore a parameter `recommend`
  from user id to recommended ids.
- Logging, `print`, YAML and CSV reading and writing, pickling, and the `__main__` scripts are
  left out. `src/data/load_data.py`, `src/app/app.py` and `src/app/utils.py` are not part of
  this model.
- Training-data assembly (`_create_train_data_v2`) is not part of this model. The backfill
  takes the built feature frame as its input.

## Findings

| source | as written | input that shows it | evidently intended | confidence | as-written member | corrected member |
|---|---|---|---|---|---|---|
| src/models/catboost_recommender_v2/validation_model_v2.py:64-65 | the history branch filters `result_df.user_id == id` (the builtin function) and indexes the share table with `id`; the filter is empty, so `iloc[0]` raises IndexError | any user with a row in the training frame | filter and index by `user_id` | not executed | RecommenderV2.AsWrittenHistoryFails | RecommenderV2.HistoryUsesOwnStatistics |
| src/metrics/evaluate_metrics.py:21 | every iteration parses `validation.liked_posts.iloc[0]`, so each user is scored against the first user's likes | rows (1, "[10]") and (2, "[20]") with recommendations [10] for user 1 and [20] for user 2: 0.5 instead of 1.0 | parse `liked_posts.iloc[i]` | not executed | Evaluation.AsWrittenCounterexample | Evaluation.EvaluateMetrics |
