/** The group statistics of the training frame (`_create_new_features`) and the post
    ratio written back into the post table (`process_data`). Ratios are exact reals; the
    source's rounding to three decimals is not modelled. */
module FeatureStatistics {
  import opened Common
  import opened Tables

  /** Sum of `target` over the rows that `keep` selects. */
  function SumTarget(ms: seq<MergedRow>, keep: MergedRow -> bool): (s: nat)
    ensures s <= CountRows(ms, keep)
  {
    if ms == [] then 0
    else (if keep(ms[0]) then ms[0].target else 0) + SumTarget(ms[1..], keep)
  }

  /** Number of rows that `keep` selects. */
  function CountRows(ms: seq<MergedRow>, keep: MergedRow -> bool): nat
  {
    if ms == [] then 0
    else (if keep(ms[0]) then 1 else 0) + CountRows(ms[1..], keep)
  }

  /** A group is never empty when one of the frame's own rows belongs to it. */
  lemma {:induction false} CountRowsPositive(ms: seq<MergedRow>, keep: MergedRow -> bool, i: nat)
    requires i < |ms| && keep(ms[i])
    ensures CountRows(ms, keep) >= 1
  {
    if i > 0 {
      CountRowsPositive(ms[1..], keep, i - 1);
    }
  }

  /** `groupby(key).target.transform('sum') / groupby(key).target.transform('count')`,
      with `fillna(0)` for a group without rows. */
  function GroupRatio(ms: seq<MergedRow>, keep: MergedRow -> bool): real
  {
    if CountRows(ms, keep) == 0 then 0.0 else Likes(ms, keep) / Views(ms, keep)
  }

  /** Likes and views of a group, as reals. */
  function Likes(ms: seq<MergedRow>, keep: MergedRow -> bool): real
  {
    SumTarget(ms, keep) as real
  }

  function Views(ms: seq<MergedRow>, keep: MergedRow -> bool): real
  {
    CountRows(ms, keep) as real
  }

  /** A ratio of a non-empty group lies in [0, 1]. */
  lemma GroupRatioBounds(ms: seq<MergedRow>, keep: MergedRow -> bool)
    ensures 0.0 <= GroupRatio(ms, keep) <= 1.0
  {
    if CountRows(ms, keep) > 0 {
      QuotientWithin(Likes(ms, keep), Views(ms, keep));
    }
  }

  lemma QuotientWithin(a: real, b: real)
    requires 0.0 <= a <= b && b > 0.0
    ensures 0.0 <= a / b <= 1.0
  {
  }

  lemma AddQuotients(a: real, b: real, t: real, sum: real)
    requires t != 0.0 && sum == a + b
    ensures a / t + b / t == sum / t
  {
  }

  lemma SelfQuotient(s: real, t: real)
    requires t != 0.0 && s == t
    ensures s / t == 1.0
  {
  }

  function SamePost(postId: int): MergedRow -> bool
  {
    (m: MergedRow) => m.postId == postId
  }

  function SameUser(userId: int): MergedRow -> bool
  {
    (m: MergedRow) => m.userId == userId
  }

  function SameUserTopic(userId: int, topic: Topic): MergedRow -> bool
  {
    (m: MergedRow) => m.userId == userId && TopicOf(m) == Some(topic)
  }

  /** The post's likes-to-views ratio. */
  function PostRatio(ms: seq<MergedRow>, postId: int): real
  {
    GroupRatio(ms, SamePost(postId))
  }

  /** The user's likes-to-views ratio. */
  function UserRatio(ms: seq<MergedRow>, userId: int): real
  {
    GroupRatio(ms, SameUser(userId))
  }

  /** The user's likes on the topic over the user's likes. A missing topic is no group
      key, and a user without likes divides zero by zero; both give NaN, which
      `fillna(0)` turns into 0. */
  function TopicProportion(ms: seq<MergedRow>, userId: int, topic: Option<Topic>): real
  {
    if topic.None? then 0.0
    else
      if SumTarget(ms, SameUser(userId)) == 0 then 0.0
      else Likes(ms, SameUserTopic(userId, topic.value)) / Likes(ms, SameUser(userId))
  }

  /** The three new columns of one row. */
  function Enrich(ms: seq<MergedRow>, m: MergedRow): FeatureRow
  {
    FeatureRow(m, PostRatio(ms, m.postId), UserRatio(ms, m.userId),
               TopicProportion(ms, m.userId, TopicOf(m)))
  }

  /** `_create_new_features`: the frame keeps its rows and their order and gains three
      columns computed over the whole frame. */
  function CreateNewFeatures(ms: seq<MergedRow>): (rows: seq<FeatureRow>)
    ensures Bases(rows) == ms
  {
    MapSeq((m: MergedRow) => Enrich(ms, m), ms)
  }

  /** Each row's ratios are its group's likes over its group's views (the group is never
      empty, so the zero fill never applies), and lie in [0, 1]. */
  lemma RatiosAreLikesOverViews(ms: seq<MergedRow>, i: nat)
    requires i < |ms|
    ensures var row := CreateNewFeatures(ms)[i];
      && Views(ms, SamePost(ms[i].postId)) >= 1.0
      && row.postRatio == Likes(ms, SamePost(ms[i].postId)) / Views(ms, SamePost(ms[i].postId))
      && Views(ms, SameUser(ms[i].userId)) >= 1.0
      && row.userRatio == Likes(ms, SameUser(ms[i].userId)) / Views(ms, SameUser(ms[i].userId))
      && 0.0 <= row.postRatio <= 1.0 && 0.0 <= row.userRatio <= 1.0
  {
    var row := CreateNewFeatures(ms)[i];
    assert row == Enrich(ms, ms[i]);
    CountRowsPositive(ms, SamePost(ms[i].postId), i);
    CountRowsPositive(ms, SameUser(ms[i].userId), i);
    GroupRatioBounds(ms, SamePost(ms[i].postId));
    GroupRatioBounds(ms, SameUser(ms[i].userId));
  }

  /** Likes on one topic never exceed all of the user's likes. */
  lemma {:induction false} TopicLikesBounded(ms: seq<MergedRow>, userId: int, topic: Topic)
    ensures SumTarget(ms, SameUserTopic(userId, topic)) <= SumTarget(ms, SameUser(userId))
  {
    if ms != [] {
      TopicLikesBounded(ms[1..], userId, topic);
    }
  }

  /** The proportion lies in [0, 1], and it is 0 when the user has no likes. */
  lemma TopicProportionBounds(ms: seq<MergedRow>, userId: int, topic: Option<Topic>)
    ensures 0.0 <= TopicProportion(ms, userId, topic) <= 1.0
    ensures SumTarget(ms, SameUser(userId)) == 0 ==> TopicProportion(ms, userId, topic) == 0.0
  {
    if topic.Some? && SumTarget(ms, SameUser(userId)) != 0 {
      TopicLikesBounded(ms, userId, topic.value);
      QuotientWithin(Likes(ms, SameUserTopic(userId, topic.value)), Likes(ms, SameUser(userId)));
    }
  }

  /** Sum over the topics `ts` of the user's likes on each. */
  function TopicLikesSum(ms: seq<MergedRow>, userId: int, ts: seq<Topic>): real
  {
    if ts == [] then 0.0
    else Likes(ms, SameUserTopic(userId, ts[0])) + TopicLikesSum(ms, userId, ts[1..])
  }

  /** Sum over the topics `ts` of the user's proportion on each. */
  function ProportionSum(ms: seq<MergedRow>, userId: int, ts: seq<Topic>): real
  {
    if ts == [] then 0.0
    else TopicProportion(ms, userId, Some(ts[0])) + ProportionSum(ms, userId, ts[1..])
  }

  predicate Distinct(ts: seq<Topic>)
  {
    forall i, j :: 0 <= i < j < |ts| ==> ts[i] != ts[j]
  }

  /** Every row of the user has a known topic, and that topic is listed in `ts`. */
  predicate TopicsCover(ms: seq<MergedRow>, userId: int, ts: seq<Topic>)
  {
    forall i :: 0 <= i < |ms| && ms[i].userId == userId ==> ms[i].post.Some? && ms[i].post.value.topic in ts
  }

  /** The contribution of the first row to the topic sums: its target once, on its own
      topic, when it belongs to the user. */
  function RowShare(m: MergedRow, userId: int, ts: seq<Topic>): real
  {
    if ts == [] then 0.0
    else (if SameUserTopic(userId, ts[0])(m) then m.target as real else 0.0) + RowShare(m, userId, ts[1..])
  }

  lemma {:induction false} RowShareOnce(m: MergedRow, userId: int, ts: seq<Topic>)
    requires Distinct(ts)
    ensures m.userId == userId && m.post.Some? && m.post.value.topic in ts ==> RowShare(m, userId, ts) == m.target as real
    ensures m.userId != userId || m.post.None? || m.post.value.topic !in ts ==> RowShare(m, userId, ts) == 0.0
  {
    if ts != [] {
      RowShareOnce(m, userId, ts[1..]);
    }
  }

  lemma {:induction false} TopicLikesSumStep(ms: seq<MergedRow>, userId: int, ts: seq<Topic>)
    requires ms != []
    ensures TopicLikesSum(ms, userId, ts) == RowShare(ms[0], userId, ts) + TopicLikesSum(ms[1..], userId, ts)
  {
    if ts != [] {
      TopicLikesSumStep(ms, userId, ts[1..]);
    }
  }

  /** Over a list of distinct topics that covers the user's rows, the per-topic likes add
      up to all of the user's likes. */
  lemma {:induction false} TopicLikesPartition(ms: seq<MergedRow>, userId: int, ts: seq<Topic>)
    requires Distinct(ts) && TopicsCover(ms, userId, ts)
    ensures TopicLikesSum(ms, userId, ts) == Likes(ms, SameUser(userId))
  {
    if ms == [] {
      TopicLikesEmpty(userId, ts);
    } else {
      assert TopicsCover(ms[1..], userId, ts) by {
        forall i | 0 <= i < |ms[1..]| && ms[1..][i].userId == userId
          ensures ms[1..][i].post.Some? && ms[1..][i].post.value.topic in ts
        {
          assert ms[1..][i] == ms[i + 1];
        }
      }
      TopicLikesPartition(ms[1..], userId, ts);
      TopicLikesSumStep(ms, userId, ts);
      RowShareOnce(ms[0], userId, ts);
    }
  }

  lemma {:induction false} TopicLikesEmpty(userId: int, ts: seq<Topic>)
    ensures TopicLikesSum([], userId, ts) == 0.0
  {
    if ts != [] {
      TopicLikesEmpty(userId, ts[1..]);
    }
  }

  lemma {:induction false} ProportionSumQuotient(ms: seq<MergedRow>, userId: int, ts: seq<Topic>)
    requires SumTarget(ms, SameUser(userId)) > 0
    ensures ProportionSum(ms, userId, ts) == TopicLikesSum(ms, userId, ts) / Likes(ms, SameUser(userId))
  {
    if ts == [] {
      assert 0.0 / Likes(ms, SameUser(userId)) == 0.0;
    } else {
      ProportionSumQuotient(ms, userId, ts[1..]);
      AddQuotients(Likes(ms, SameUserTopic(userId, ts[0])), TopicLikesSum(ms, userId, ts[1..]),
                   Likes(ms, SameUser(userId)), TopicLikesSum(ms, userId, ts));
    }
  }

  /** For a user with at least one like whose rows all have a known topic, the
      proportions over the user's topics add up to 1. */
  lemma ProportionsSumToOne(ms: seq<MergedRow>, userId: int, ts: seq<Topic>)
    requires Distinct(ts) && TopicsCover(ms, userId, ts)
    requires SumTarget(ms, SameUser(userId)) > 0
    ensures ProportionSum(ms, userId, ts) == 1.0
  {
    TopicLikesPartition(ms, userId, ts);
    ProportionSumQuotient(ms, userId, ts);
    SelfQuotient(TopicLikesSum(ms, userId, ts), Likes(ms, SameUser(userId)));
  }

  // ---- The post ratio written back into the post table (process_data) ----

  /** `train_v2.groupby('post_id').post_likes_to_views_ratio.max()` for one post: missing
      when the post has no training row. */
  function MaxPostRatio(rows: seq<FeatureRow>, postId: int): (r: Option<real>)
    ensures r.None? <==> forall i :: 0 <= i < |rows| ==> rows[i].base.postId != postId
    ensures r.Some? ==>
      && (exists i :: 0 <= i < |rows| && rows[i].base.postId == postId && rows[i].postRatio == r.value)
      && (forall i :: 0 <= i < |rows| && rows[i].base.postId == postId ==> rows[i].postRatio <= r.value)
  {
    if rows == [] then None
    else
      var rest := MaxPostRatio(rows[1..], postId);
      assert forall i :: 1 <= i < |rows| ==> rows[i] == rows[1..][i - 1];
      if rows[0].base.postId != postId then rest
      else if rest.None? || rest.value <= rows[0].postRatio then Some(rows[0].postRatio)
      else rest
  }

  /** `post_data.post_id.map(posts_cr)`: the training maximum of every post, in table order. */
  function MappedRatios(posts: seq<TextPost>, rows: seq<FeatureRow>): (r: seq<Option<real>>)
    ensures |r| == |posts|
    ensures forall i :: 0 <= i < |posts| ==> r[i] == MaxPostRatio(rows, posts[i].attrs.postId)
  {
    MapSeq((p: TextPost) => MaxPostRatio(rows, p.attrs.postId), posts)
  }

  /** The known ratios of the posts of one topic. */
  function TopicRatios(posts: seq<TextPost>, mapped: seq<Option<real>>, topic: Topic): seq<real>
    requires |mapped| == |posts|
  {
    if posts == [] then []
    else
      (if posts[0].attrs.topic == topic && mapped[0].Some? then [mapped[0].value] else [])
      + TopicRatios(posts[1..], mapped[1..], topic)
  }

  /** A mean that skips missing values, as pandas' `mean` does; missing when nothing is left. */
  function Mean(xs: seq<real>): (r: Option<real>)
    ensures r.None? <==> xs == []
    ensures r.Some? ==> r.value == Sum(xs) / |xs| as real
  {
    if xs == [] then None else Some(Sum(xs) / |xs| as real)
  }

  /** The mean of values in [lo, hi] lies in [lo, hi]. */
  lemma MeanWithin(xs: seq<real>, lo: real, hi: real)
    requires forall i :: 0 <= i < |xs| ==> lo <= xs[i] <= hi
    ensures Mean(xs).Some? ==> lo <= Mean(xs).value <= hi
  {
    if xs != [] {
      SumBounds(xs, lo, hi);
      DivWithin(Sum(xs), |xs| as real, lo, hi, Mean(xs).value);
    }
  }

  lemma DivWithin(s: real, n: real, lo: real, hi: real, q: real)
    requires n > 0.0 && n * lo <= s <= n * hi && q == s / n
    ensures lo <= q <= hi
  {
    assert q * n == s;
  }

  /** Lines 39-42 of `process_data`: each post gets its training maximum, and a post
      without training rows gets the mean over the known ratios of its topic. */
  function BackfillPostRatios(posts: seq<TextPost>, rows: seq<FeatureRow>): (r: seq<ProcessedPost>)
    ensures |r| == |posts|
    ensures forall i :: 0 <= i < |posts| ==> r[i].attrs == posts[i].attrs && r[i].text == posts[i].text
    ensures forall i :: 0 <= i < |posts| && MaxPostRatio(rows, posts[i].attrs.postId).Some? ==>
      r[i].ratio == MaxPostRatio(rows, posts[i].attrs.postId)
    ensures forall i :: 0 <= i < |posts| && MaxPostRatio(rows, posts[i].attrs.postId).None? ==>
      r[i].ratio == Mean(TopicRatios(posts, MappedRatios(posts, rows), posts[i].attrs.topic))
  {
    var mapped := MappedRatios(posts, rows);
    MapSeq((p: TextPost) =>
      var own := MaxPostRatio(rows, p.attrs.postId);
      ProcessedPost(p.attrs, p.text,
                    if own.Some? then own else Mean(TopicRatios(posts, mapped, p.attrs.topic))),
      posts)
  }

  /** Every known ratio of a topic is some post's training maximum. */
  lemma {:induction false} TopicRatiosFromMapped(posts: seq<TextPost>, mapped: seq<Option<real>>, topic: Topic, lo: real, hi: real)
    requires |mapped| == |posts|
    requires forall i :: 0 <= i < |mapped| && mapped[i].Some? ==> lo <= mapped[i].value <= hi
    ensures forall k :: 0 <= k < |TopicRatios(posts, mapped, topic)| ==> lo <= TopicRatios(posts, mapped, topic)[k] <= hi
  {
    if posts != [] {
      assert forall i :: 0 <= i < |mapped[1..]| ==> mapped[1..][i] == mapped[i + 1];
      TopicRatiosFromMapped(posts[1..], mapped[1..], topic, lo, hi);
    }
  }

  /** In a frame built by `CreateNewFeatures`, a post's maximum is its likes over its views. */
  lemma MaxPostRatioOfBuiltFrame(ms: seq<MergedRow>, postId: int)
    ensures var m := MaxPostRatio(CreateNewFeatures(ms), postId);
      && (m.Some? <==> exists k :: 0 <= k < |ms| && ms[k].postId == postId)
      && (m.Some? ==> m.value == PostRatio(ms, postId))
  {
    var rows := CreateNewFeatures(ms);
    assert forall k :: 0 <= k < |rows| ==> rows[k].base == ms[k] && rows[k].postRatio == PostRatio(ms, ms[k].postId) by {
      forall k | 0 <= k < |rows| ensures rows[k].base == ms[k] && rows[k].postRatio == PostRatio(ms, ms[k].postId) {
        assert rows[k] == Enrich(ms, ms[k]);
      }
    }
  }

  /** Every training maximum in a frame built by `CreateNewFeatures` lies in [0, 1]. */
  lemma BuiltFrameMaxWithin(ms: seq<MergedRow>, postId: int)
    ensures var m := MaxPostRatio(CreateNewFeatures(ms), postId);
      m.Some? ==> 0.0 <= m.value <= 1.0
  {
    MaxPostRatioOfBuiltFrame(ms, postId);
    GroupRatioBounds(ms, SamePost(postId));
  }

  /** When the training frame is the one `CreateNewFeatures` built, a post with training
      rows gets exactly its likes over its views, and every post ratio in the table,
      backfilled or not, lies in [0, 1]. */
  lemma BackfilledRatios(posts: seq<TextPost>, ms: seq<MergedRow>, i: nat)
    requires i < |posts|
    ensures var r := BackfillPostRatios(posts, CreateNewFeatures(ms));
      && (r[i].ratio.Some? ==> 0.0 <= r[i].ratio.value <= 1.0)
      && ((exists k :: 0 <= k < |ms| && ms[k].postId == posts[i].attrs.postId) ==>
            r[i].ratio == Some(PostRatio(ms, posts[i].attrs.postId)))
  {
    var rows := CreateNewFeatures(ms);
    var mapped := MappedRatios(posts, rows);
    MaxPostRatioOfBuiltFrame(ms, posts[i].attrs.postId);
    BuiltFrameMaxWithin(ms, posts[i].attrs.postId);
    if MaxPostRatio(rows, posts[i].attrs.postId).None? {
      forall j | 0 <= j < |mapped| && mapped[j].Some? ensures 0.0 <= mapped[j].value <= 1.0 {
        BuiltFrameMaxWithin(ms, posts[j].attrs.postId);
      }
      TopicRatiosFromMapped(posts, mapped, posts[i].attrs.topic, 0.0, 1.0);
      MeanWithin(TopicRatios(posts, mapped, posts[i].attrs.topic), 0.0, 1.0);
    }
  }
}
