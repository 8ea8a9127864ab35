/** `Recommender_v1_validation.predict`: the viewed posts of the raw post table, each
    joined with the requesting user's columns, ranked by the classifier's probability. */
module RecommenderV1 {
  import opened Common
  import opened Tables
  import opened Ranking

  /** The columns the classifier sees: the merged frame without `user_id`, `post_id`,
      `text` and `exp_group`. */
  datatype FeaturesV1 = FeaturesV1(user: Option<UserFeatures>, topic: Topic)

  function PostRowId(p: PostRow): int
  {
    p.postId
  }

  function FeaturesOf(c: Candidate<PostRow>): FeaturesV1
  {
    FeaturesV1(c.user, c.post.topic)
  }

  function ScoreOf(scorer: Scorer<FeaturesV1>): Candidate<PostRow> -> real
  {
    (c: Candidate<PostRow>) => scorer(FeaturesOf(c))
  }

  /** `rename(columns={'post_id': 'id'})[['id', 'text', 'topic']]` for one row. */
  function ToRecommendation(c: Candidate<PostRow>): Recommendation
  {
    Recommendation(c.post.postId, c.post.text, c.post.topic)
  }

  /** The merged frame `user_df`: one row per viewed post of the table. */
  function Candidates(users: map<int, UserRow>, posts: seq<PostRow>, userId: int, viewed: seq<int>): (r: seq<Candidate<PostRow>>)
    ensures |r| == |Select(posts, PostRowId, viewed)|
    ensures forall i :: 0 <= i < |r| ==>
      && r[i].post in posts && r[i].post.postId in viewed
      && r[i].userId == userId && r[i].user == LookupUser(users, userId)
  {
    SelectCandidates(posts, PostRowId, viewed);
    RightMerge(users, userId, Select(posts, PostRowId, viewed))
  }

  /** The ranked candidates before they are turned into records. */
  function Ranked(scorer: Scorer<FeaturesV1>, users: map<int, UserRow>, posts: seq<PostRow>,
                  userId: int, viewed: seq<int>, limit: int): (r: seq<Scored<Candidate<PostRow>>>)
    ensures |r| == PrefixLength(|Select(posts, PostRowId, viewed)|, limit)
    ensures forall i, j :: 0 <= i < j < |r| ==> r[i].score >= r[j].score
  {
    TopByScore(ScoreAll(Candidates(users, posts, userId, viewed), ScoreOf(scorer)), limit)
  }

  /** `predict(user_id, viewed_posts, limit)`. */
  function Predict(scorer: Scorer<FeaturesV1>, users: map<int, UserRow>, posts: seq<PostRow>,
                   userId: int, viewed: seq<int>, limit: int): (r: seq<Recommendation>)
    ensures |r| <= |Select(posts, PostRowId, viewed)|
    ensures forall i :: 0 <= i < |r| ==> r[i].id in viewed
  {
    var ranked := Ranked(scorer, users, posts, userId, viewed, limit);
    RankedAreScoredCandidates(Candidates(users, posts, userId, viewed), ScoreOf(scorer), limit);
    assert forall i :: 0 <= i < |ranked| ==> ranked[i].item.post.postId in viewed;
    MapSeq(ToRecommendation, Items(Ranked(scorer, users, posts, userId, viewed, limit)))
  }

  /** `head(limit)`: as many records as `limit` allows out of the viewed posts the table has. */
  lemma PredictLength(scorer: Scorer<FeaturesV1>, users: map<int, UserRow>, posts: seq<PostRow>,
                      userId: int, viewed: seq<int>, limit: int)
    ensures |Predict(scorer, users, posts, userId, viewed, limit)|
         == PrefixLength(|Select(posts, PostRowId, viewed)|, limit)
  {
  }

  /** Facts about one ranked row: it is a candidate of the requesting user with its own score. */
  lemma RankedRow(scorer: Scorer<FeaturesV1>, users: map<int, UserRow>, posts: seq<PostRow>,
                  userId: int, viewed: seq<int>, limit: int, i: nat)
    requires i < |Ranked(scorer, users, posts, userId, viewed, limit)|
    ensures var s := Ranked(scorer, users, posts, userId, viewed, limit)[i];
      && s.item.post in posts && s.item.post.postId in viewed
      && s.item.user == LookupUser(users, userId)
      && s.score == scorer(FeaturesV1(LookupUser(users, userId), s.item.post.topic))
  {
    var cands := Candidates(users, posts, userId, viewed);
    var sel := Select(posts, PostRowId, viewed);
    RankedAreScoredCandidates(cands, ScoreOf(scorer), limit);
    var s := Ranked(scorer, users, posts, userId, viewed, limit)[i];
    assert s.item in cands && s.score == ScoreOf(scorer)(s.item);
    var k :| 0 <= k < |cands| && cands[k] == s.item;
    assert s.item.post == sel[k] && s.item.user == LookupUser(users, userId);
    assert sel[k] in posts && InViewed(PostRowId, viewed)(sel[k]);
    assert s.score == scorer(FeaturesOf(s.item));
  }

  /** Every record is the (id, text, topic) of a table post whose id was viewed. */
  lemma PredictRecords(scorer: Scorer<FeaturesV1>, users: map<int, UserRow>, posts: seq<PostRow>,
                       userId: int, viewed: seq<int>, limit: int)
    ensures var r := Predict(scorer, users, posts, userId, viewed, limit);
      forall i :: 0 <= i < |r| ==>
        r[i].id in viewed &&
        exists j :: 0 <= j < |posts| && r[i] == Recommendation(posts[j].postId, posts[j].text, posts[j].topic)
  {
    var ranked := Ranked(scorer, users, posts, userId, viewed, limit);
    var r := Predict(scorer, users, posts, userId, viewed, limit);
    forall i | 0 <= i < |r|
      ensures r[i].id in viewed
      ensures exists j :: 0 <= j < |posts| && r[i] == Recommendation(posts[j].postId, posts[j].text, posts[j].topic)
    {
      RankedRow(scorer, users, posts, userId, viewed, limit, i);
      var j :| 0 <= j < |posts| && posts[j] == ranked[i].item.post;
      assert r[i] == ToRecommendation(ranked[i].item);
    }
  }

  /** The records come by non-increasing probability; for one user the probability of a
      record depends on its topic only. */
  lemma PredictOrder(scorer: Scorer<FeaturesV1>, users: map<int, UserRow>, posts: seq<PostRow>,
                     userId: int, viewed: seq<int>, limit: int)
    ensures var r := Predict(scorer, users, posts, userId, viewed, limit);
      forall i, j :: 0 <= i < j < |r| ==>
        scorer(FeaturesV1(LookupUser(users, userId), r[i].topic))
          >= scorer(FeaturesV1(LookupUser(users, userId), r[j].topic))
  {
    var ranked := Ranked(scorer, users, posts, userId, viewed, limit);
    var r := Predict(scorer, users, posts, userId, viewed, limit);
    forall i, j | 0 <= i < j < |r|
      ensures scorer(FeaturesV1(LookupUser(users, userId), r[i].topic))
          >= scorer(FeaturesV1(LookupUser(users, userId), r[j].topic))
    {
      RankedRow(scorer, users, posts, userId, viewed, limit, i);
      RankedRow(scorer, users, posts, userId, viewed, limit, j);
      assert r[i].topic == ranked[i].item.post.topic && r[j].topic == ranked[j].item.post.topic;
    }
  }

  /** A viewed table post enters the scored frame with its own probability. */
  lemma ScoredCandidate(scorer: Scorer<FeaturesV1>, users: map<int, UserRow>, posts: seq<PostRow>,
                        userId: int, viewed: seq<int>, p: PostRow) returns (x: Scored<Candidate<PostRow>>)
    requires p in posts && p.postId in viewed
    ensures x in multiset(ScoreAll(Candidates(users, posts, userId, viewed), ScoreOf(scorer)))
    ensures ToRecommendation(x.item) == Recommendation(p.postId, p.text, p.topic)
    ensures x.score == scorer(FeaturesV1(LookupUser(users, userId), p.topic))
  {
    var cands := Candidates(users, posts, userId, viewed);
    var sel := Select(posts, PostRowId, viewed);
    var sc := ScoreAll(cands, ScoreOf(scorer));
    SelectCandidates(posts, PostRowId, viewed);
    var j :| 0 <= j < |posts| && posts[j] == p;
    assert PostRowId(posts[j]) in viewed;
    var k :| 0 <= k < |sel| && sel[k] == p;
    x := sc[k];
    assert x.item == Candidate(userId, LookupUser(users, userId), p);
    assert x.score == ScoreOf(scorer)(cands[k]);
    assert cands[k] == Candidate(userId, LookupUser(users, userId), p);
    assert FeaturesOf(cands[k]) == FeaturesV1(LookupUser(users, userId), p.topic);
    assert x.score == scorer(FeaturesOf(cands[k]));
  }

  /** A viewed table post that is not recommended scores no higher than any record. */
  lemma PredictKeepsBest(scorer: Scorer<FeaturesV1>, users: map<int, UserRow>, posts: seq<PostRow>,
                         userId: int, viewed: seq<int>, limit: int, p: PostRow)
    requires p in posts && p.postId in viewed
    requires Recommendation(p.postId, p.text, p.topic) !in Predict(scorer, users, posts, userId, viewed, limit)
    ensures var r := Predict(scorer, users, posts, userId, viewed, limit);
      forall i :: 0 <= i < |r| ==>
        scorer(FeaturesV1(LookupUser(users, userId), r[i].topic))
          >= scorer(FeaturesV1(LookupUser(users, userId), p.topic))
  {
    var sc := ScoreAll(Candidates(users, posts, userId, viewed), ScoreOf(scorer));
    var ranked := Ranked(scorer, users, posts, userId, viewed, limit);
    var r := Predict(scorer, users, posts, userId, viewed, limit);
    var x := ScoredCandidate(scorer, users, posts, userId, viewed, p);
    forall m | 0 <= m < |ranked|
      ensures ranked[m] != x
    {
      assert r[m] == ToRecommendation(ranked[m].item);
    }
    assert x !in multiset(ranked);
    TopByScoreKeepsBest(sc, limit, x);
    forall i | 0 <= i < |r|
      ensures scorer(FeaturesV1(LookupUser(users, userId), r[i].topic))
          >= scorer(FeaturesV1(LookupUser(users, userId), p.topic))
    {
      RankedRow(scorer, users, posts, userId, viewed, limit, i);
      assert r[i].topic == ranked[i].item.post.topic;
      assert ranked[i].score >= x.score;
    }
  }
}
