/** The three lookup tables model v2 builds from its training frame when it is created:
    the mean user ratio per age, the median topic proportion per (age, topic) and each
    user's share of likes per topic. Rounding to three decimals is not modelled. */
module AggregateTables {
  import opened Common
  import opened Tables
  import opened Sorting
  import opened FeatureStatistics

  // ---- Mean user ratio per age: `result_df.groupby('age').user_likes_to_views_ratio.mean()` ----

  /** The ages present in the frame; a row whose user was not in the user table has no
      age and is not grouped. */
  function Ages(rows: seq<FeatureRow>): set<int>
  {
    set i | 0 <= i < |rows| && rows[i].base.user.Some? :: rows[i].base.user.value.age
  }

  /** The user ratios of the rows of one age, in frame order. */
  function AgeRatios(rows: seq<FeatureRow>, age: int): seq<real>
  {
    if rows == [] then []
    else (if AgeOf(rows[0].base) == Some(age) then [rows[0].userRatio] else []) + AgeRatios(rows[1..], age)
  }

  lemma {:induction false} AgeRatiosAt(rows: seq<FeatureRow>, age: int, i: nat)
    requires i < |rows| && AgeOf(rows[i].base) == Some(age)
    ensures AgeRatios(rows, age) != []
  {
    if i > 0 {
      AgeRatiosAt(rows[1..], age, i - 1);
    }
  }

  lemma AgeRatiosNonEmpty(rows: seq<FeatureRow>, age: int)
    requires age in Ages(rows)
    ensures AgeRatios(rows, age) != []
  {
    var i :| 0 <= i < |rows| && rows[i].base.user.Some? && rows[i].base.user.value.age == age;
    AgeRatiosAt(rows, age, i);
  }

  /** Every value of a group lies in [lo, hi] when every ratio of the frame does. */
  lemma {:induction false} AgeRatiosWithin(rows: seq<FeatureRow>, age: int, lo: real, hi: real)
    requires forall i :: 0 <= i < |rows| ==> lo <= rows[i].userRatio <= hi
    ensures forall k :: 0 <= k < |AgeRatios(rows, age)| ==> lo <= AgeRatios(rows, age)[k] <= hi
  {
    if rows != [] {
      AgeRatiosWithin(rows[1..], age, lo, hi);
    }
  }

  /** The mean of the user ratios of one age present in the frame. */
  function AgeMean(rows: seq<FeatureRow>, age: int): (r: real)
    requires age in Ages(rows)
    ensures Mean(AgeRatios(rows, age)) == Some(r)
  {
    AgeRatiosNonEmpty(rows, age);
    Mean(AgeRatios(rows, age)).value
  }

  /** One entry per age of the frame, the mean of that age's user ratios. */
  function MeanRatioByAge(rows: seq<FeatureRow>): (t: map<int, real>)
    ensures t.Keys == Ages(rows)
    ensures forall a :: a in t ==> Mean(AgeRatios(rows, a)) == Some(t[a])
  {
    var t := map a | a in Ages(rows) :: AgeMean(rows, a);
    assert forall a :: a in t ==> t[a] == AgeMean(rows, a);
    t
  }

  /** The means lie in the range of the ratios; for a frame whose ratios were built by
      `CreateNewFeatures` every mean is in [0, 1]. */
  lemma MeanRatioByAgeWithin(rows: seq<FeatureRow>, lo: real, hi: real)
    requires forall i :: 0 <= i < |rows| ==> lo <= rows[i].userRatio <= hi
    ensures forall a :: a in MeanRatioByAge(rows) ==> lo <= MeanRatioByAge(rows)[a] <= hi
  {
    forall a | a in MeanRatioByAge(rows)
      ensures lo <= MeanRatioByAge(rows)[a] <= hi
    {
      AgeRatiosWithin(rows, a, lo, hi);
      MeanWithin(AgeRatios(rows, a), lo, hi);
    }
  }

  // ---- Median proportion per (age, topic):
  //      `result_df.groupby(['age', 'topic']).user_proportion_of_likes_by_topic.median()` ----

  function Identity(x: real): real
  {
    x
  }

  /** pandas' median: the middle value of the sorted values, or the mean of the two
      middle values when their number is even. */
  function Median(xs: seq<real>): real
    requires xs != []
  {
    MiddleOf(SortBy(xs, Identity))
  }

  function MiddleOf(s: seq<real>): real
    requires s != []
  {
    var h := |s| / 2;
    if |s| % 2 == 1 then s[h] else (s[h - 1] + s[h]) / 2.0
  }

  /** The median lies in any range that holds all the values. */
  lemma MedianWithin(xs: seq<real>, lo: real, hi: real)
    requires xs != []
    requires forall i :: 0 <= i < |xs| ==> lo <= xs[i] <= hi
    ensures lo <= Median(xs) <= hi
  {
    var s := SortBy(xs, Identity);
    forall k | 0 <= k < |s|
      ensures lo <= s[k] <= hi
    {
      assert s[k] in multiset(s);
      assert s[k] in xs;
    }
  }

  /** The lower half of the sorted values (the middle one included) is at most the
      median. */
  lemma MiddleAboveLowerHalf(s: seq<real>, k: nat)
    requires s != [] && SortedBy(s, Identity)
    requires k < (|s| + 1) / 2
    ensures s[k] <= MiddleOf(s)
  {
    var h := |s| / 2;
    if |s| % 2 == 1 {
      assert k <= h;
      assert Identity(s[k]) <= Identity(s[h]) || k == h;
    } else {
      assert k <= h - 1;
      assert Identity(s[k]) <= Identity(s[h - 1]) || k == h - 1;
      assert Identity(s[h - 1]) <= Identity(s[h]);
    }
  }

  /** The upper half of the sorted values is at least the median. */
  lemma MiddleBelowUpperHalf(s: seq<real>, k: nat)
    requires s != [] && SortedBy(s, Identity)
    requires |s| / 2 <= k < |s|
    ensures MiddleOf(s) <= s[k]
  {
    var h := |s| / 2;
    assert Identity(s[h]) <= Identity(s[k]) || k == h;
    if |s| % 2 == 0 {
      assert Identity(s[h - 1]) <= Identity(s[h]);
    }
  }

  /** At least half of the values are at most the median and at least half are at least
      it: the sorted permutation of the values splits at the median. */
  lemma MedianSplitsValues(xs: seq<real>)
    requires xs != []
    ensures var s := SortBy(xs, Identity);
      && multiset(s) == multiset(xs)
      && (forall k :: 0 <= k < (|s| + 1) / 2 ==> s[k] <= Median(xs))
      && (forall k :: |s| / 2 <= k < |s| ==> Median(xs) <= s[k])
  {
    var s := SortBy(xs, Identity);
    forall k | 0 <= k < (|s| + 1) / 2
      ensures s[k] <= Median(xs)
    {
      MiddleAboveLowerHalf(s, k);
    }
    forall k | |s| / 2 <= k < |s|
      ensures Median(xs) <= s[k]
    {
      MiddleBelowUpperHalf(s, k);
    }
  }

  /** The ages that have at least one row with a known topic. */
  function AgesWithTopic(rows: seq<FeatureRow>): set<int>
  {
    set i | 0 <= i < |rows| && rows[i].base.user.Some? && rows[i].base.post.Some? :: rows[i].base.user.value.age
  }

  /** The topics seen at one age. */
  function TopicsAtAge(rows: seq<FeatureRow>, age: int): set<Topic>
  {
    set i | 0 <= i < |rows| && AgeOf(rows[i].base) == Some(age) && rows[i].base.post.Some? :: rows[i].base.post.value.topic
  }

  /** The topic proportions of the rows of one (age, topic) group, in frame order. */
  function GroupProportions(rows: seq<FeatureRow>, age: int, topic: Topic): seq<real>
  {
    if rows == [] then []
    else
      (if AgeOf(rows[0].base) == Some(age) && TopicOf(rows[0].base) == Some(topic)
       then [rows[0].topicProportion] else [])
      + GroupProportions(rows[1..], age, topic)
  }

  lemma {:induction false} GroupProportionsAt(rows: seq<FeatureRow>, age: int, topic: Topic, i: nat)
    requires i < |rows| && AgeOf(rows[i].base) == Some(age) && TopicOf(rows[i].base) == Some(topic)
    ensures GroupProportions(rows, age, topic) != []
  {
    if i > 0 {
      GroupProportionsAt(rows[1..], age, topic, i - 1);
    }
  }

  lemma GroupProportionsNonEmpty(rows: seq<FeatureRow>, age: int, topic: Topic)
    requires topic in TopicsAtAge(rows, age)
    ensures GroupProportions(rows, age, topic) != []
  {
    var i :| 0 <= i < |rows| && AgeOf(rows[i].base) == Some(age) && rows[i].base.post.Some?
      && rows[i].base.post.value.topic == topic;
    GroupProportionsAt(rows, age, topic, i);
  }

  lemma {:induction false} GroupProportionsWithin(rows: seq<FeatureRow>, age: int, topic: Topic, lo: real, hi: real)
    requires forall i :: 0 <= i < |rows| ==> lo <= rows[i].topicProportion <= hi
    ensures forall k :: 0 <= k < |GroupProportions(rows, age, topic)| ==>
      lo <= GroupProportions(rows, age, topic)[k] <= hi
  {
    if rows != [] {
      GroupProportionsWithin(rows[1..], age, topic, lo, hi);
    }
  }

  function MediansAtAge(rows: seq<FeatureRow>, age: int): map<Topic, real>
  {
    map t | t in TopicsAtAge(rows, age) :: (GroupProportionsNonEmpty(rows, age, t); Median(GroupProportions(rows, age, t)))
  }

  /** The median series, indexed first by age (`get(age)` gives the topics of that age).
      Every age it has is also an age of the mean table, so the cold-start lookup of the
      mean at a bucket found here never misses. */
  function MedianByAgeTopic(rows: seq<FeatureRow>): (t: map<int, map<Topic, real>>)
    ensures t.Keys == AgesWithTopic(rows)
    ensures t.Keys <= MeanRatioByAge(rows).Keys
    ensures forall a :: a in t ==> t[a].Keys == TopicsAtAge(rows, a) && t[a] != map[]
  {
    var t := map a | a in AgesWithTopic(rows) :: MediansAtAge(rows, a);
    forall a | a in t
      ensures a in Ages(rows) && t[a].Keys == TopicsAtAge(rows, a) && t[a] != map[]
    {
      var i :| 0 <= i < |rows| && rows[i].base.user.Some? && rows[i].base.post.Some?
        && rows[i].base.user.value.age == a;
      assert rows[i].base.post.value.topic in t[a];
    }
    t
  }

  /** Every entry of the median table is the median of the topic proportions of its
      (age, topic) group, a group that has at least one row. */
  lemma MedianByAgeTopicEntries(rows: seq<FeatureRow>)
    ensures forall a, tp :: a in MedianByAgeTopic(rows) && tp in MedianByAgeTopic(rows)[a] ==>
      && GroupProportions(rows, a, tp) != []
      && MedianByAgeTopic(rows)[a][tp] == Median(GroupProportions(rows, a, tp))
  {
    forall a, tp | a in MedianByAgeTopic(rows) && tp in MedianByAgeTopic(rows)[a]
      ensures GroupProportions(rows, a, tp) != []
      ensures MedianByAgeTopic(rows)[a][tp] == Median(GroupProportions(rows, a, tp))
    {
      GroupProportionsNonEmpty(rows, a, tp);
    }
  }

  /** For a frame whose proportions lie in [lo, hi], so do all the medians. */
  lemma MedianByAgeTopicWithin(rows: seq<FeatureRow>, lo: real, hi: real)
    requires forall i :: 0 <= i < |rows| ==> lo <= rows[i].topicProportion <= hi
    ensures forall a, t :: a in MedianByAgeTopic(rows) && t in MedianByAgeTopic(rows)[a] ==>
      lo <= MedianByAgeTopic(rows)[a][t] <= hi
  {
    forall a, t | a in MedianByAgeTopic(rows) && t in MedianByAgeTopic(rows)[a]
      ensures lo <= MedianByAgeTopic(rows)[a][t] <= hi
    {
      GroupProportionsNonEmpty(rows, a, t);
      GroupProportionsWithin(rows, a, t, lo, hi);
      MedianWithin(GroupProportions(rows, a, t), lo, hi);
    }
  }

  // ---- Each user's share of likes per topic:
  //      `groupby(['user_id', 'topic']).target.sum() / groupby('user_id').target.sum()` ----

  /** The users with at least one row of known topic. */
  function UsersWithTopic(rows: seq<FeatureRow>): set<int>
  {
    set i | 0 <= i < |rows| && rows[i].base.post.Some? :: rows[i].base.userId
  }

  /** The topics of one user's rows. */
  function TopicsOfUser(rows: seq<FeatureRow>, userId: int): set<Topic>
  {
    set i | 0 <= i < |rows| && rows[i].base.userId == userId && rows[i].base.post.Some? :: rows[i].base.post.value.topic
  }

  /** Likes on the topic over the user's likes; zero over zero is NaN, here `None`. */
  function Share(ms: seq<MergedRow>, userId: int, topic: Topic): (r: Option<real>)
    ensures r.None? <==> SumTarget(ms, SameUser(userId)) == 0
    ensures r.Some? ==> r.value == TopicProportion(ms, userId, Some(topic))
  {
    if SumTarget(ms, SameUser(userId)) == 0 then None
    else Some(Likes(ms, SameUserTopic(userId, topic)) / Likes(ms, SameUser(userId)))
  }

  function SharesOfUser(rows: seq<FeatureRow>, userId: int): map<Topic, Option<real>>
  {
    map t | t in TopicsOfUser(rows, userId) :: Share(Bases(rows), userId, t)
  }

  /** The share series, indexed first by user. */
  function ShareByUserTopic(rows: seq<FeatureRow>): (t: map<int, map<Topic, Option<real>>>)
    ensures t.Keys == UsersWithTopic(rows)
    ensures forall u :: u in t ==> t[u].Keys == TopicsOfUser(rows, u)
  {
    map u | u in UsersWithTopic(rows) :: SharesOfUser(rows, u)
  }

  /** Each row of a frame built by `CreateNewFeatures` carries its user's proportion
      of its topic. */
  lemma BuiltProportion(ms: seq<MergedRow>, i: nat)
    requires i < |ms|
    ensures CreateNewFeatures(ms)[i].topicProportion == TopicProportion(ms, ms[i].userId, TopicOf(ms[i]))
  {
    assert CreateNewFeatures(ms)[i] == Enrich(ms, ms[i]);
  }

  /** For a frame built by `CreateNewFeatures`, a user's share of a topic is the topic
      proportion the training rows of that user and topic carry; a user without likes,
      whose training proportion was filled with 0, has no share. */
  lemma ShareMatchesTraining(ms: seq<MergedRow>, userId: int, topic: Topic, i: nat)
    requires i < |ms| && ms[i].userId == userId && TopicOf(ms[i]) == Some(topic)
    ensures var t := ShareByUserTopic(CreateNewFeatures(ms));
      && userId in t && topic in t[userId]
      && t[userId][topic] == Share(ms, userId, topic)
      && (t[userId][topic].Some? ==> t[userId][topic].value == CreateNewFeatures(ms)[i].topicProportion)
  {
    var rows := CreateNewFeatures(ms);
    assert rows[i] == Enrich(ms, ms[i]);
    BuiltProportion(ms, i);
  }
}
