/** `Recommender_validation` (model v2): the ranking pipeline of model v1 with two more
    user columns, the user's likes-to-views ratio and the user's share of likes for the
    candidate's topic, taken from the user's own history or, for a user without history,
    from the aggregate tables of the user's age bucket. */
module RecommenderV2 {
  import opened Common
  import opened Tables
  import opened Ranking
  import opened FeatureStatistics
  import opened AggregateTables

  /** The model's data: the user table, the processed post table and the processed
      training frame (`result_df`). The aggregate tables are functions of the frame. */
  datatype ModelV2 = ModelV2(users: map<int, UserRow>, posts: seq<ProcessedPost>, feed: seq<FeatureRow>)

  /** The columns the classifier sees: the merged frame without `user_id`, `exp_group`,
      `post_id` and `text`, plus the two resolved user columns. */
  datatype FeaturesV2 = FeaturesV2(
    user: Option<UserFeatures>, topic: Topic, tfidfMean: real, tfidfMax: real, textLength: int,
    postRatio: Option<real>, userRatio: real, topicShare: Option<real>)

  /** What `_get_users_features` can raise. */
  datatype FeatureError =
    | UnknownUser         // `values[0]` of an empty selection: IndexError
    | NoTopicShares       // the user is no key of the share table: KeyError
    | EmptyHistoryLookup  // `iloc[0]` of an empty selection: IndexError

  // ---- The user's history ----

  /** `result_df[result_df.user_id == user_id].user_likes_to_views_ratio`: the first value,
      or nothing when the user has no row. */
  function FirstUserRatio(feed: seq<FeatureRow>, userId: int): (r: Option<real>)
    ensures r.None? <==> forall i :: 0 <= i < |feed| ==> feed[i].base.userId != userId
    ensures r.Some? ==> exists i :: 0 <= i < |feed| && feed[i].base.userId == userId && r.value == feed[i].userRatio &&
                                    forall j :: 0 <= j < i ==> feed[j].base.userId != userId
  {
    if feed == [] then None
    else if feed[0].base.userId == userId then Some(feed[0].userRatio)
    else
      var r := FirstUserRatio(feed[1..], userId);
      assert forall i :: 1 <= i < |feed| ==> feed[i] == feed[1..][i - 1];
      if r.Some? then
        var i :| 0 <= i < |feed[1..]| && feed[1..][i].base.userId == userId && r.value == feed[1..][i].userRatio
          && forall j :: 0 <= j < i ==> feed[1..][j].base.userId != userId;
        assert feed[i + 1] == feed[1..][i];
        r
      else r
  }

  /** In a frame built by `CreateNewFeatures` all rows of a user carry the same ratio, so
      the first one is the user's likes over views. */
  lemma FirstUserRatioOfBuiltFrame(ms: seq<MergedRow>, userId: int)
    ensures var r := FirstUserRatio(CreateNewFeatures(ms), userId);
      r.Some? ==> r.value == UserRatio(ms, userId)
  {
    var rows := CreateNewFeatures(ms);
    var r := FirstUserRatio(rows, userId);
    if r.Some? {
      var i :| 0 <= i < |rows| && rows[i].base.userId == userId && r.value == rows[i].userRatio;
      assert rows[i] == Enrich(ms, ms[i]);
    }
  }

  // ---- The cold-start age bucket ----

  /** Lines 68-69: ages under 14 count as 14. */
  function Clamp(age: int): (r: int)
    ensures r >= 14 && r >= age
    ensures r == age || r == 14
  {
    if age < 14 then 14 else age
  }

  /** Some bucket exists at or below `top`: the decrement loop stops. */
  predicate HasBucketAtOrBelow(buckets: set<int>, top: int)
  {
    exists a :: a in buckets && a <= top
  }

  /** The largest bucket at or below `top`. */
  predicate IsLargestAtOrBelow(buckets: set<int>, top: int, a: int)
  {
    a in buckets && a <= top && forall b :: b in buckets && b <= top ==> b <= a
  }

  lemma {:induction false} LargestBucketExists(buckets: set<int>, top: int, w: int)
    requires w in buckets && w <= top
    ensures exists a :: IsLargestAtOrBelow(buckets, top, a)
    decreases top - w
  {
    if top in buckets {
      assert IsLargestAtOrBelow(buckets, top, top);
    } else {
      LargestBucketExists(buckets, top - 1, w);
      var a :| IsLargestAtOrBelow(buckets, top - 1, a);
      assert IsLargestAtOrBelow(buckets, top, a);
    }
  }

  /** The bucket the decrement loop ends at, as a specification. */
  ghost function LargestBucket(buckets: set<int>, top: int): (a: int)
    requires HasBucketAtOrBelow(buckets, top)
    ensures IsLargestAtOrBelow(buckets, top, a)
  {
    var w :| w in buckets && w <= top;
    LargestBucketExists(buckets, top, w);
    var a :| IsLargestAtOrBelow(buckets, top, a);
    a
  }

  /** Lines 67-72: clamp the age, then step down until the median table has the age.
      The source loops forever when no bucket lies at or below the clamped age, hence the
      precondition. The result is the largest populated age at or below the clamped age. */
  method ResolveAge(medians: map<int, map<Topic, real>>, age: int) returns (resolved: int)
    requires HasBucketAtOrBelow(medians.Keys, Clamp(age))
    ensures resolved in medians && resolved <= Clamp(age)
    ensures forall b :: b in medians && b <= Clamp(age) ==> b <= resolved
  {
    resolved := age;
    if resolved < 14 {
      resolved := 14;
    }
    ghost var w :| w in medians && w <= Clamp(age);
    while resolved !in medians
      invariant w <= resolved <= Clamp(age)
      invariant forall b :: resolved < b <= Clamp(age) ==> b !in medians
      decreases resolved - w
    {
      resolved := resolved - 1;
    }
  }

  // ---- Resolving the two user columns ----

  /** `user_df.topic.map(table)` for one topic of a median bucket. */
  function MedianOf(bucket: map<Topic, real>): Topic -> Option<real>
  {
    (t: Topic) => if t in bucket then Some(bucket[t]) else None
  }

  /** `user_df.topic.map(table)` for one topic of a user's shares. */
  function ShareOf(shares: map<Topic, Option<real>>): Topic -> Option<real>
  {
    (t: Topic) => if t in shares then shares[t] else None
  }

  /** The two resolved columns: one ratio for all candidates, one share per candidate. */
  datatype UserColumns = UserColumns(ratio: real, shares: seq<Option<real>>)

  /** The cold path terminates for this user: either the user has history, or the user
      is unknown (an error is raised first), or a bucket lies at or below the clamped age. */
  predicate ColdStartResolvable(m: ModelV2, userId: int)
  {
    FirstUserRatio(m.feed, userId).None? && userId in m.users ==>
      HasBucketAtOrBelow(MedianByAgeTopic(m.feed).Keys, Clamp(m.users[userId].features.age))
  }

  /** The history branch, with the user looked up by `user_id`. */
  function HistoryColumns(m: ModelV2, userId: int, topics: seq<Topic>): (r: Result<UserColumns, FeatureError>)
    requires FirstUserRatio(m.feed, userId).Some?
    ensures r.Ok? ==> |r.value.shares| == |topics|
  {
    var shares := ShareByUserTopic(m.feed);
    if userId !in shares then Err(NoTopicShares)
    else Ok(UserColumns(FirstUserRatio(m.feed, userId).value, MapSeq(ShareOf(shares[userId]), topics)))
  }

  /** The cold-start branch for a known user: the bucket's mean ratio and medians. */
  ghost function ColdStartColumns(m: ModelV2, userId: int, topics: seq<Topic>): (c: UserColumns)
    requires userId in m.users
    requires HasBucketAtOrBelow(MedianByAgeTopic(m.feed).Keys, Clamp(m.users[userId].features.age))
    ensures |c.shares| == |topics|
  {
    var medians := MedianByAgeTopic(m.feed);
    var age := LargestBucket(medians.Keys, Clamp(m.users[userId].features.age));
    UserColumns(MeanRatioByAge(m.feed)[age], MapSeq(MedianOf(medians[age]), topics))
  }

  /** `_get_users_features` as a specification. */
  ghost function UserColumnsSpec(m: ModelV2, userId: int, topics: seq<Topic>): (r: Result<UserColumns, FeatureError>)
    requires ColdStartResolvable(m, userId)
    ensures r.Ok? ==> |r.value.shares| == |topics|
  {
    if FirstUserRatio(m.feed, userId).Some? then HistoryColumns(m, userId, topics)
    else if userId !in m.users then Err(UnknownUser)
    else Ok(ColdStartColumns(m, userId, topics))
  }

  /** `_get_users_features`: resolves the two user columns for the candidates' topics. */
  method GetUsersFeatures(m: ModelV2, userId: int, topics: seq<Topic>) returns (res: Result<UserColumns, FeatureError>)
    requires ColdStartResolvable(m, userId)
    ensures res == UserColumnsSpec(m, userId, topics)
  {
    var first := FirstUserRatio(m.feed, userId);
    if first.Some? {
      res := HistoryColumns(m, userId, topics);
      return;
    }
    if userId !in m.users {
      res := Err(UnknownUser);
      return;
    }
    var medians := MedianByAgeTopic(m.feed);
    var age := ResolveAge(medians, m.users[userId].features.age);
    assert age == LargestBucket(medians.Keys, Clamp(m.users[userId].features.age));
    res := Ok(UserColumns(MeanRatioByAge(m.feed)[age], MapSeq(MedianOf(medians[age]), topics)));
  }

  /** The history branch is taken exactly when the user has a row in the frame; it gives
      the user's first ratio and, for each candidate topic, the user's share of it. */
  lemma HistoryBranch(m: ModelV2, userId: int, topics: seq<Topic>)
    requires ColdStartResolvable(m, userId)
    requires exists i :: 0 <= i < |m.feed| && m.feed[i].base.userId == userId
    ensures var r := UserColumnsSpec(m, userId, topics);
      var shares := ShareByUserTopic(m.feed);
      && (userId !in shares <==> r == Err(NoTopicShares))
      && (r.Ok? ==>
            && r.value.ratio == FirstUserRatio(m.feed, userId).value
            && |r.value.shares| == |topics|
            && forall k :: 0 <= k < |topics| ==>
                 r.value.shares[k] == (if topics[k] in shares[userId] then shares[userId][topics[k]] else None))
  {
  }

  /** For a frame built by `CreateNewFeatures` from the training rows `ms`, the history
      branch gives the user's likes over views and, for every topic the user saw, the
      user's likes on that topic over the user's likes (nothing for a user without likes). */
  lemma HistoryUsesOwnStatistics(users: map<int, UserRow>, posts: seq<ProcessedPost>,
                                 ms: seq<MergedRow>, userId: int, topics: seq<Topic>, i: nat)
    requires i < |ms| && ms[i].userId == userId && ms[i].post.Some?
    ensures var m := ModelV2(users, posts, CreateNewFeatures(ms));
      && ColdStartResolvable(m, userId)
      && UserColumnsSpec(m, userId, topics).Ok?
      && UserColumnsSpec(m, userId, topics).value.ratio == UserRatio(ms, userId)
      && forall k :: 0 <= k < |topics| && topics[k] == ms[i].post.value.topic ==>
           UserColumnsSpec(m, userId, topics).value.shares[k] == Share(ms, userId, topics[k])
  {
    var rows := CreateNewFeatures(ms);
    var m := ModelV2(users, posts, rows);
    assert rows[i] == Enrich(ms, ms[i]);
    assert FirstUserRatio(rows, userId).Some?;
    FirstUserRatioOfBuiltFrame(ms, userId);
    ShareMatchesTraining(ms, userId, ms[i].post.value.topic, i);
  }

  /** The cold-start branch: a user missing from the user table raises; a known user
      gets, for `age` the largest populated age at or below the clamped age, the mean
      ratio of that age for every candidate and the median of each candidate's topic in
      that bucket, or nothing when the bucket lacks the topic. */
  lemma ColdStartBranch(m: ModelV2, userId: int, topics: seq<Topic>, age: int)
    requires ColdStartResolvable(m, userId)
    requires forall i :: 0 <= i < |m.feed| ==> m.feed[i].base.userId != userId
    requires userId in m.users ==>
      IsLargestAtOrBelow(MedianByAgeTopic(m.feed).Keys, Clamp(m.users[userId].features.age), age)
    ensures userId !in m.users ==> UserColumnsSpec(m, userId, topics) == Err(UnknownUser)
    ensures userId in m.users ==>
      var medians := MedianByAgeTopic(m.feed);
      var r := UserColumnsSpec(m, userId, topics);
      && age in MeanRatioByAge(m.feed) && r.Ok?
      && r.value.ratio == MeanRatioByAge(m.feed)[age]
      && |r.value.shares| == |topics|
      && forall k :: 0 <= k < |topics| ==>
           r.value.shares[k] == (if topics[k] in medians[age] then Some(medians[age][topics[k]]) else None)
  {
    if userId in m.users {
      var medians := MedianByAgeTopic(m.feed);
      var top := Clamp(m.users[userId].features.age);
      var b := LargestBucket(medians.Keys, top);
      assert b <= age && age <= b;
    }
  }

  // ---- Predict ----

  function ProcessedPostId(p: ProcessedPost): int
  {
    p.attrs.postId
  }

  function TopicOfPost(p: ProcessedPost): Topic
  {
    p.attrs.topic
  }

  /** One row handed to the classifier: the candidate post and its feature record. */
  datatype ScoredRow = ScoredRow(post: ProcessedPost, features: FeaturesV2)

  function Row(c: Candidate<ProcessedPost>, ratio: real, share: Option<real>): ScoredRow
  {
    var p := c.post;
    ScoredRow(p, FeaturesV2(c.user, p.attrs.topic, p.attrs.tfidfMean, p.attrs.tfidfMax,
                            p.attrs.textLength, p.ratio, ratio, share))
  }

  /** Lines 77-78: the two columns written into the merged frame. */
  function Rows(cands: seq<Candidate<ProcessedPost>>, cols: UserColumns): (r: seq<ScoredRow>)
    requires |cols.shares| == |cands|
    ensures |r| == |cands|
    ensures forall i :: 0 <= i < |cands| ==> r[i] == Row(cands[i], cols.ratio, cols.shares[i])
  {
    seq(|cands|, i requires 0 <= i < |cands| => Row(cands[i], cols.ratio, cols.shares[i]))
  }

  function ScoreOf(scorer: Scorer<FeaturesV2>): ScoredRow -> real
  {
    (r: ScoredRow) => scorer(r.features)
  }

  function ToRecommendation(r: ScoredRow): Recommendation
  {
    Recommendation(r.post.attrs.postId, r.post.text, r.post.attrs.topic)
  }

  /** The candidates: the viewed posts of the processed post table, right-merged with the user. */
  function Candidates(m: ModelV2, userId: int, viewed: seq<int>): (r: seq<Candidate<ProcessedPost>>)
    ensures |r| == |Select(m.posts, ProcessedPostId, viewed)|
    ensures forall i :: 0 <= i < |r| ==>
      && r[i].post in m.posts && r[i].post.attrs.postId in viewed
      && r[i].userId == userId && r[i].user == LookupUser(m.users, userId)
  {
    SelectCandidates(m.posts, ProcessedPostId, viewed);
    RightMerge(m.users, userId, Select(m.posts, ProcessedPostId, viewed))
  }

  /** The ranked rows `predict` turns into records, as a specification. */
  ghost function RankedSpec(m: ModelV2, scorer: Scorer<FeaturesV2>, userId: int, viewed: seq<int>, limit: int)
    : Result<seq<Scored<ScoredRow>>, FeatureError>
    requires ColdStartResolvable(m, userId)
  {
    var cands := Candidates(m, userId, viewed);
    var cols := UserColumnsSpec(m, userId, MapSeq(TopicOfPost, Select(m.posts, ProcessedPostId, viewed)));
    if cols.Err? then Err(cols.error)
    else Ok(TopRows(cands, cols.value, scorer, limit))
  }

  /** Lines 53-55: score every row, sort by score descending, keep `limit` rows. */
  function TopRows(cands: seq<Candidate<ProcessedPost>>, cols: UserColumns, scorer: Scorer<FeaturesV2>, limit: int)
    : seq<Scored<ScoredRow>>
    requires |cols.shares| == |cands|
  {
    TopByScore(ScoreAll(Rows(cands, cols), ScoreOf(scorer)), limit)
  }

  ghost function PredictSpec(m: ModelV2, scorer: Scorer<FeaturesV2>, userId: int, viewed: seq<int>, limit: int)
    : Result<seq<Recommendation>, FeatureError>
    requires ColdStartResolvable(m, userId)
  {
    var ranked := RankedSpec(m, scorer, userId, viewed, limit);
    if ranked.Err? then Err(ranked.error) else Ok(MapSeq(ToRecommendation, Items(ranked.value)))
  }

  /** `predict(user_id, viewed_posts, limit)`. */
  method Predict(m: ModelV2, scorer: Scorer<FeaturesV2>, userId: int, viewed: seq<int>, limit: int)
    returns (res: Result<seq<Recommendation>, FeatureError>)
    requires ColdStartResolvable(m, userId)
    ensures res == PredictSpec(m, scorer, userId, viewed, limit)
  {
    var posts := Select(m.posts, ProcessedPostId, viewed);
    var cands := RightMerge(m.users, userId, posts);
    var cols := GetUsersFeatures(m, userId, MapSeq(TopicOfPost, posts));
    if cols.Err? {
      return Err(cols.error);
    }
    var ranked := TopRows(cands, cols.value, scorer, limit);
    res := Ok(MapSeq(ToRecommendation, Items(ranked)));
  }

  /** The prediction fails exactly when resolving the user columns fails, with the same
      error; otherwise it holds as many records as `limit` allows out of the viewed posts
      of the table, each the (id, text, topic) of the ranked row at its position. */
  lemma PredictShape(m: ModelV2, scorer: Scorer<FeaturesV2>, userId: int, viewed: seq<int>, limit: int)
    requires ColdStartResolvable(m, userId)
    ensures var topics := MapSeq(TopicOfPost, Select(m.posts, ProcessedPostId, viewed));
      var cols := UserColumnsSpec(m, userId, topics);
      var r := PredictSpec(m, scorer, userId, viewed, limit);
      var ranked := RankedSpec(m, scorer, userId, viewed, limit);
      && (r.Err? <==> cols.Err?)
      && (r.Err? ==> r.error == cols.error)
      && (r.Ok? ==>
            && ranked.Ok?
            && |r.value| == |ranked.value| == PrefixLength(|Select(m.posts, ProcessedPostId, viewed)|, limit)
            && forall i :: 0 <= i < |r.value| ==> r.value[i] == ToRecommendation(ranked.value[i].item))
  {
  }

  /** Every ranked row is a viewed post of the table with its own score and the resolved
      user columns: the user's ratio, and the share resolved for the candidate at the post's
      own position, that is, for the post's own topic; the rows come by non-increasing score. */
  lemma RankedRows(m: ModelV2, scorer: Scorer<FeaturesV2>, userId: int, viewed: seq<int>, limit: int)
    requires ColdStartResolvable(m, userId)
    requires RankedSpec(m, scorer, userId, viewed, limit).Ok?
    ensures var ranked := RankedSpec(m, scorer, userId, viewed, limit).value;
      var sel := Select(m.posts, ProcessedPostId, viewed);
      var cols := UserColumnsSpec(m, userId, MapSeq(TopicOfPost, sel)).value;
      && (forall i, j :: 0 <= i < j < |ranked| ==> ranked[i].score >= ranked[j].score)
      && forall i :: 0 <= i < |ranked| ==>
           && ranked[i].score == scorer(ranked[i].item.features)
           && ranked[i].item.post in m.posts
           && ranked[i].item.post.attrs.postId in viewed
           && ranked[i].item.features.userRatio == cols.ratio
           && ranked[i].item.features.user == LookupUser(m.users, userId)
           && exists k :: 0 <= k < |sel| && k < |cols.shares|
                && ranked[i].item.post == sel[k]
                && ranked[i].item.features.topicShare == cols.shares[k]
  {
    var sel := Select(m.posts, ProcessedPostId, viewed);
    var cands := Candidates(m, userId, viewed);
    var cols := UserColumnsSpec(m, userId, MapSeq(TopicOfPost, sel)).value;
    var rows := Rows(cands, cols);
    var ranked := RankedSpec(m, scorer, userId, viewed, limit).value;
    RankedAreScoredCandidates(rows, ScoreOf(scorer), limit);
    SelectCandidates(m.posts, ProcessedPostId, viewed);
    forall i | 0 <= i < |ranked|
      ensures ranked[i].score == scorer(ranked[i].item.features)
      ensures ranked[i].item.post in m.posts && ranked[i].item.post.attrs.postId in viewed
      ensures ranked[i].item.features.userRatio == cols.ratio
      ensures ranked[i].item.features.user == LookupUser(m.users, userId)
      ensures exists k :: 0 <= k < |sel| && k < |cols.shares|
                && ranked[i].item.post == sel[k]
                && ranked[i].item.features.topicShare == cols.shares[k]
    {
      assert ranked[i].item in rows;
      var k :| 0 <= k < |rows| && rows[k] == ranked[i].item;
      assert ranked[i].item == Row(cands[k], cols.ratio, cols.shares[k]);
      assert cands[k].post == sel[k];
      assert InViewed(ProcessedPostId, viewed)(sel[k]);
    }
  }

  // ---- The history lookup as the source writes it ----

  /** Lines 63-65 as written: the frame is filtered on `user_id == id`, Python's built-in
      function `id`, which no user id equals, so `iloc[0]` raises for every user with
      history. */
  ghost function UserColumnsAsWritten(m: ModelV2, userId: int, topics: seq<Topic>): Result<UserColumns, FeatureError>
    requires ColdStartResolvable(m, userId)
  {
    if FirstUserRatio(m.feed, userId).Some? then Err(EmptyHistoryLookup)
    else UserColumnsSpec(m, userId, topics)
  }

  /** As written, no user with history can be served, while the `user_id` lookup serves
      every user with history who has a row of known topic. Users without history are
      served alike. */
  lemma AsWrittenHistoryFails(m: ModelV2, userId: int, topics: seq<Topic>, i: nat)
    requires ColdStartResolvable(m, userId)
    requires i < |m.feed| && m.feed[i].base.userId == userId && m.feed[i].base.post.Some?
    ensures UserColumnsAsWritten(m, userId, topics) == Err(EmptyHistoryLookup)
    ensures UserColumnsSpec(m, userId, topics).Ok?
  {
    assert userId in UsersWithTopic(m.feed);
  }
}
