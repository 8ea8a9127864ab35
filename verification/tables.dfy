/** The rows of the recommender's tables: users, posts, the interaction log and the
    frames derived from them. A missing value (pandas' NaN after a join) is `None`. */
module Tables {
  import opened Common

  type Topic = string

  /** The user columns the scorer sees (everything but `user_id` and `exp_group`). */
  datatype UserFeatures = UserFeatures(
    gender: int, age: int, country: string, city: string, os: string, source: string)

  /** One row of the user table. */
  datatype UserRow = UserRow(userId: int, features: UserFeatures, expGroup: int)

  /** One row of the raw post table. */
  datatype PostRow = PostRow(postId: int, text: string, topic: Topic)

  /** The post columns that reach the training frame: the raw text is dropped, the
      text statistics (TF-IDF mean and maximum, text length) are kept. */
  datatype PostAttrs = PostAttrs(
    postId: int, topic: Topic, tfidfMean: real, tfidfMax: real, textLength: int)

  /** One row of the post table once the text statistics are added. */
  datatype TextPost = TextPost(attrs: PostAttrs, text: string)

  /** One row of the processed post table: attributes, raw text and the backfilled
      likes-to-views ratio of the post. */
  datatype ProcessedPost = ProcessedPost(attrs: PostAttrs, text: string, ratio: Option<real>)

  datatype Action = View | Like

  /** The `target` column: 1 when the view ended in a like, 0 otherwise. */
  type Bit = t: int | 0 <= t <= 1

  /** One row of the interaction log. */
  datatype LogRow = LogRow(userId: int, postId: int, action: Action, target: Bit, date: int)

  /** One row of the merged training frame: the log row without `action` and `date`,
      joined with the user (minus `exp_group`) and the post. */
  datatype MergedRow = MergedRow(
    userId: int, postId: int, target: Bit,
    user: Option<UserFeatures>, post: Option<PostAttrs>)

  /** One row of the training frame of model v2 (the offline feed statistics): a merged
      row plus the three group ratios. */
  datatype FeatureRow = FeatureRow(
    base: MergedRow, postRatio: real, userRatio: real, topicProportion: real)

  /** One recommended post as the service returns it. */
  datatype Recommendation = Recommendation(id: int, text: string, topic: Topic)

  /** The topic of a merged row, missing when the post was not in the post table. */
  function TopicOf(m: MergedRow): Option<Topic>
  {
    if m.post.Some? then Some(m.post.value.topic) else None
  }

  /** The age of a merged row, missing when the user was not in the user table. */
  function AgeOf(m: MergedRow): Option<int>
  {
    if m.user.Some? then Some(m.user.value.age) else None
  }

  /** The merged rows under a training frame. */
  function Bases(rows: seq<FeatureRow>): (ms: seq<MergedRow>)
    ensures |ms| == |rows|
    ensures forall i :: 0 <= i < |rows| ==> ms[i] == rows[i].base
  {
    seq(|rows|, i requires 0 <= i < |rows| => rows[i].base)
  }

  /** Looks a user up in a user table keyed by id. */
  function LookupUser(users: map<int, UserRow>, userId: int): Option<UserFeatures>
  {
    if userId in users then Some(users[userId].features) else None
  }
}
