/** The request-time pipeline both recommenders share: keep the viewed posts, attach
    the requesting user to each of them (a right merge), score every candidate, sort
    by score descending and keep the first `limit`. */
module Ranking {
  import opened Common
  import opened Tables
  import opened Sorting

  /** The trained classifier: one deterministic probability per feature record. */
  type Scorer<!F(!new)> = f: F -> real | forall x :: 0.0 <= f(x) <= 1.0 witness (x: F) => 0.0

  /** `posts.post_id.isin(viewed_posts)` as a row mask. */
  function InViewed<P>(idOf: P -> int, viewed: seq<int>): P -> bool
  {
    (p: P) => idOf(p) in viewed
  }

  /** `posts[posts.post_id.isin(viewed_posts)]`: the candidate posts. */
  function Select<P>(posts: seq<P>, idOf: P -> int, viewed: seq<int>): seq<P>
  {
    Filter(posts, InViewed(idOf, viewed))
  }

  /** The candidates are exactly the table posts whose id was viewed, in the order of the
      post table; viewed ids the table lacks contribute nothing, and a table without
      repeated ids gives candidates without repeated ids. */
  lemma SelectCandidates<P>(posts: seq<P>, idOf: P -> int, viewed: seq<int>)
    ensures var c := Select(posts, idOf, viewed);
      && IsSubsequence(c, posts)
      && (forall i :: 0 <= i < |c| ==> c[i] in posts && idOf(c[i]) in viewed)
      && (forall j :: 0 <= j < |posts| && idOf(posts[j]) in viewed ==> posts[j] in c)
      && (UniqueKeys(posts, idOf) ==> UniqueKeys(c, idOf))
  {
    FilterIsSubsequence(posts, InViewed(idOf, viewed));
    if UniqueKeys(posts, idOf) {
      FilterUniqueKeys(posts, InViewed(idOf, viewed), idOf);
    }
  }

  /** Only the set of viewed ids matters: repeating an id or reordering the list leaves
      the candidates unchanged. */
  lemma SelectDependsOnIdSet<P>(posts: seq<P>, idOf: P -> int, viewed: seq<int>, viewed': seq<int>)
    requires forall x :: x in viewed <==> x in viewed'
    ensures Select(posts, idOf, viewed) == Select(posts, idOf, viewed')
  {
    forall i | 0 <= i < |posts|
      ensures InViewed(idOf, viewed)(posts[i]) == InViewed(idOf, viewed')(posts[i])
    {
      var x := idOf(posts[i]);
      assert x in viewed <==> x in viewed';
    }
    FilterSameMask(posts, InViewed(idOf, viewed), InViewed(idOf, viewed'));
  }

  /** One row of `pd.merge(user, posts, on='user_id', how='right')`: the candidate post,
      the requested user id written into it, and the user's columns, missing when the
      user table has no such user. */
  datatype Candidate<P> = Candidate(userId: int, user: Option<UserFeatures>, post: P)

  function Attach<P>(users: map<int, UserRow>, userId: int): P -> Candidate<P>
  {
    (p: P) => Candidate(userId, LookupUser(users, userId), p)
  }

  /** The right merge keeps one row per candidate, in candidate order, even when the
      user is unknown. */
  function RightMerge<P>(users: map<int, UserRow>, userId: int, posts: seq<P>): (r: seq<Candidate<P>>)
    ensures |r| == |posts|
    ensures forall i :: 0 <= i < |posts| ==>
      r[i].post == posts[i] && r[i].userId == userId && r[i].user == LookupUser(users, userId)
    ensures userId in users ==> forall i :: 0 <= i < |r| ==> r[i].user == Some(users[userId].features)
  {
    MapSeq(Attach(users, userId), posts)
  }

  /** A candidate together with its predicted probability (`pred_prob`). */
  datatype Scored<P> = Scored(item: P, score: real)

  /** The sort key that puts higher scores first. */
  function Descending<P>(s: Scored<P>): real
  {
    -s.score
  }

  function WithScore<P>(score: P -> real): P -> Scored<P>
  {
    (x: P) => Scored(x, score(x))
  }

  /** `posts['pred_prob'] = ...`: every candidate with its own score, in order. */
  function ScoreAll<P>(xs: seq<P>, score: P -> real): (r: seq<Scored<P>>)
    ensures |r| == |xs|
    ensures forall i :: 0 <= i < |xs| ==> r[i].item == xs[i] && r[i].score == score(xs[i])
  {
    MapSeq(WithScore(score), xs)
  }

  /** `sort_values('pred_prob', ascending=False).head(limit)`: at most `limit` scored
      candidates (Python's `head` rule for a negative `limit`), by non-increasing score,
      each taken from the input. */
  function TopByScore<P(==)>(scored: seq<Scored<P>>, limit: int): (r: seq<Scored<P>>)
    ensures |r| == PrefixLength(|scored|, limit)
    ensures forall i, j :: 0 <= i < j < |r| ==> r[i].score >= r[j].score
    ensures multiset(r) <= multiset(scored)
  {
    var s := SortBy(scored, Descending);
    var m := PrefixLength(|s|, limit);
    assert s == s[..m] + s[m..];
    assert multiset(s) == multiset(s[..m]) + multiset(s[m..]);
    assert forall i, j :: 0 <= i < j < m ==> Descending(s[i]) <= Descending(s[j]);
    Take(s, limit)
  }

  /** Nothing left out of the top scores higher than anything kept. */
  lemma TopByScoreKeepsBest<P>(scored: seq<Scored<P>>, limit: int, x: Scored<P>)
    requires x in multiset(scored) - multiset(TopByScore(scored, limit))
    ensures forall i :: 0 <= i < |TopByScore(scored, limit)| ==> TopByScore(scored, limit)[i].score >= x.score
  {
    var s := SortBy(scored, Descending);
    var m := PrefixLength(|s|, limit);
    var r := TopByScore(scored, limit);
    assert r == s[..m];
    assert s == s[..m] + s[m..];
    assert multiset(s) == multiset(s[..m]) + multiset(s[m..]);
    assert x in multiset(s[m..]);
    assert x in s[m..];
    var k :| m <= k < |s| && s[k] == x;
    forall i | 0 <= i < |r|
      ensures r[i].score >= x.score
    {
      assert Descending(s[i]) <= Descending(s[k]);
    }
  }

  /** Scoring then ranking: every kept pair is a candidate with its own score. */
  lemma RankedAreScoredCandidates<P>(xs: seq<P>, score: P -> real, limit: int)
    ensures var r := TopByScore(ScoreAll(xs, score), limit);
      forall i :: 0 <= i < |r| ==> r[i].item in xs && r[i].score == score(r[i].item)
  {
    var sc := ScoreAll(xs, score);
    var r := TopByScore(sc, limit);
    forall i | 0 <= i < |r|
      ensures r[i].item in xs && r[i].score == score(r[i].item)
    {
      assert r[i] in multiset(r);
      assert r[i] in multiset(sc);
      var k :| 0 <= k < |sc| && sc[k] == r[i];
    }
  }

  /** The items of a ranking. */
  function Items<P>(r: seq<Scored<P>>): (xs: seq<P>)
    ensures |xs| == |r|
    ensures forall i :: 0 <= i < |r| ==> xs[i] == r[i].item
  {
    seq(|r|, i requires 0 <= i < |r| => r[i].item)
  }
}
