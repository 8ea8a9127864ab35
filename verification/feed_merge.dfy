/** Building the training frame from the interaction log (`_merge_dfs`): left-join the log
    with the user table on `user_id` and with the post table on `post_id`, drop the `like`
    rows, order by `date`, and drop the `action`, `date` and `exp_group` columns. */
module FeedMerge {
  import opened Common
  import opened Tables
  import Sorting

  /** A log row with its joined user and post, before any column is dropped. */
  datatype JoinedRow = JoinedRow(log: LogRow, user: Option<UserRow>, post: Option<PostAttrs>)

  function UserKey(u: UserRow): int { u.userId }
  function PostKey(p: PostAttrs): int { p.postId }

  /** The selection mask `table.key == k`. */
  function KeyIs<T>(key: T -> int, k: int): T -> bool
  {
    (t: T) => key(t) == k
  }

  /** The partners a left merge finds for key `k`: every row with that key, in table
      order, or a single missing value when there is none. */
  function Matches<T>(table: seq<T>, key: T -> int, k: int): (r: seq<Option<T>>)
    ensures |r| >= 1
    ensures forall i :: 0 <= i < |r| && r[i].Some? ==> r[i].value in table && key(r[i].value) == k
    ensures forall i :: 0 <= i < |r| && r[i].None? ==> forall j :: 0 <= j < |table| ==> key(table[j]) != k
  {
    var hits := Filter(table, KeyIs(key, k));
    if hits == [] then [None] else MapSeq((t: T) => Some(t), hits)
  }

  /** With pairwise distinct keys a left merge finds exactly one partner. */
  lemma MatchesUnique<T>(table: seq<T>, key: T -> int, k: int)
    requires UniqueKeys(table, key)
    ensures |Matches(table, key, k)| == 1
  {
    var hits := Filter(table, KeyIs(key, k));
    FilterUniqueKeys(table, KeyIs(key, k), key);
    assert hits != [] ==> key(hits[0]) == k == key(hits[|hits| - 1]);
  }

  /** The joined user is a user-table row with the log row's id, or missing when the
      table has no such row. */
  predicate UserJoined(j: JoinedRow, users: seq<UserRow>)
  {
    && (j.user.Some? ==> j.user.value in users && j.user.value.userId == j.log.userId)
    && (j.user.None? ==> forall u :: u in users ==> u.userId != j.log.userId)
  }

  /** The joined post is a post-table row with the log row's id, or missing when the
      table has no such row. */
  predicate PostJoined(j: JoinedRow, posts: seq<PostAttrs>)
  {
    && (j.post.Some? ==> j.post.value in posts && j.post.value.postId == j.log.postId)
    && (j.post.None? ==> forall p :: p in posts ==> p.postId != j.log.postId)
  }

  /** `feed_df.merge(right=user_df, how='left', on='user_id')`. */
  function JoinUsers(feed: seq<LogRow>, users: seq<UserRow>): (r: seq<JoinedRow>)
    ensures forall i :: 0 <= i < |r| ==> r[i].log in feed && UserJoined(r[i], users) && r[i].post.None?
    ensures UniqueKeys(users, UserKey) ==>
      |r| == |feed| && forall i :: 0 <= i < |r| ==> r[i].log == feed[i]
  {
    if feed == [] then []
    else
      var f := feed[0];
      var here := MapSeq((u: Option<UserRow>) => JoinedRow(f, u, None), Matches(users, UserKey, f.userId));
      var rest := JoinUsers(feed[1..], users);
      assert forall i :: 0 <= i < |here| ==> here[i].log == f && UserJoined(here[i], users) && here[i].post.None? by {
        forall i | 0 <= i < |here| ensures here[i].log == f && UserJoined(here[i], users) && here[i].post.None? {
          var m := Matches(users, UserKey, f.userId)[i];
          assert here[i] == JoinedRow(f, m, None);
          if m.None? {
            forall u | u in users ensures u.userId != f.userId {
              var j :| 0 <= j < |users| && users[j] == u;
            }
          }
        }
      }
      if UniqueKeys(users, UserKey) then
        MatchesUnique(users, UserKey, f.userId);
        here + rest
      else
        here + rest
  }

  /** The rows a left merge with the post table makes of one user-joined row. */
  function JoinOnePost(j: JoinedRow, posts: seq<PostAttrs>): (r: seq<JoinedRow>)
    ensures |r| >= 1
    ensures forall i :: 0 <= i < |r| ==> r[i].(post := j.post) == j && PostJoined(r[i], posts)
    ensures UniqueKeys(posts, PostKey) ==> |r| == 1
  {
    var ms := Matches(posts, PostKey, j.log.postId);
    var r := MapSeq((p: Option<PostAttrs>) => j.(post := p), ms);
    assert forall i :: 0 <= i < |r| ==> PostJoined(r[i], posts) by {
      forall i | 0 <= i < |r| ensures PostJoined(r[i], posts) {
        assert r[i] == j.(post := ms[i]);
        if ms[i].None? {
          forall p | p in posts ensures p.postId != j.log.postId {
            var k :| 0 <= k < |posts| && posts[k] == p;
          }
        }
      }
    }
    if UniqueKeys(posts, PostKey) then
      MatchesUnique(posts, PostKey, j.log.postId);
      r
    else
      r
  }

  /** `.merge(post_df, how='left', on='post_id')` applied to the user-joined rows, whose
      post column is still empty. */
  function JoinPosts(rows: seq<JoinedRow>, posts: seq<PostAttrs>): (r: seq<JoinedRow>)
    requires forall i :: 0 <= i < |rows| ==> rows[i].post.None?
    ensures forall i :: 0 <= i < |r| ==> r[i].(post := None) in rows && PostJoined(r[i], posts)
    ensures UniqueKeys(posts, PostKey) ==>
      |r| == |rows| && forall i :: 0 <= i < |r| ==> r[i].(post := None) == rows[i]
  {
    if rows == [] then []
    else
      var here := JoinOnePost(rows[0], posts);
      var rest := JoinPosts(rows[1..], posts);
      JoinPostsStep(rows, posts, here, rest);
      here + rest
  }

  /** The rows of the first log row, then those of the rest, keep both properties. */
  lemma JoinPostsStep(rows: seq<JoinedRow>, posts: seq<PostAttrs>, here: seq<JoinedRow>, rest: seq<JoinedRow>)
    requires rows != [] && rows[0].post.None?
    requires forall i :: 0 <= i < |here| ==> here[i].(post := rows[0].post) == rows[0] && PostJoined(here[i], posts)
    requires forall i :: 0 <= i < |rest| ==> rest[i].(post := None) in rows[1..] && PostJoined(rest[i], posts)
    requires UniqueKeys(posts, PostKey) ==>
      |here| == 1 && |rest| == |rows| - 1 && forall i :: 0 <= i < |rest| ==> rest[i].(post := None) == rows[1..][i]
    ensures forall i :: 0 <= i < |here + rest| ==> (here + rest)[i].(post := None) in rows && PostJoined((here + rest)[i], posts)
    ensures UniqueKeys(posts, PostKey) ==>
      |here + rest| == |rows| && forall i :: 0 <= i < |here + rest| ==> (here + rest)[i].(post := None) == rows[i]
  {
    forall i | 0 <= i < |here + rest|
      ensures (here + rest)[i].(post := None) in rows && PostJoined((here + rest)[i], posts)
    {
      if i < |here| {
        assert (here + rest)[i] == here[i];
      } else {
        assert (here + rest)[i] == rest[i - |here|];
        assert rest[i - |here|].(post := None) in rows[1..];
      }
    }
    if UniqueKeys(posts, PostKey) {
      forall i | 0 <= i < |here + rest| ensures (here + rest)[i].(post := None) == rows[i] {
        if i > 0 {
          assert (here + rest)[i] == rest[i - 1];
          assert rows[1..][i - 1] == rows[i];
        }
      }
    }
  }

  /** `df.action != 'like'`. */
  predicate LogKept(f: LogRow) { f.action != Like }
  predicate RowKept(j: JoinedRow) { LogKept(j.log) }

  /** The sort key of `df.sort_values('date', ascending=True)`. */
  function DateKey(j: JoinedRow): real { j.log.date as real }

  /** The log left-joined with users, then with posts. */
  function Joined(users: seq<UserRow>, posts: seq<PostAttrs>, feed: seq<LogRow>): (r: seq<JoinedRow>)
    ensures forall i :: 0 <= i < |r| ==>
      r[i].log in feed && UserJoined(r[i], users) && PostJoined(r[i], posts)
  {
    var rows := JoinUsers(feed, users);
    var r := JoinPosts(rows, posts);
    assert forall i :: 0 <= i < |r| ==> r[i].log in feed && UserJoined(r[i], users) by {
      forall i | 0 <= i < |r| ensures r[i].log in feed && UserJoined(r[i], users) {
        var k :| 0 <= k < |rows| && r[i].(post := None) == rows[k];
        assert UserJoined(rows[k], users);
      }
    }
    r
  }

  /** The joined, filtered rows in ascending date order, before columns are dropped. */
  function SortedJoin(users: seq<UserRow>, posts: seq<PostAttrs>, feed: seq<LogRow>): (r: seq<JoinedRow>)
    ensures Sorting.SortedBy(r, DateKey)
    ensures multiset(r) == multiset(Filter(Joined(users, posts, feed), RowKept))
    ensures forall i :: 0 <= i < |r| ==>
      r[i].log in feed && LogKept(r[i].log) && UserJoined(r[i], users) && PostJoined(r[i], posts)
  {
    var kept := Filter(Joined(users, posts, feed), RowKept);
    var sorted := Sorting.SortBy(kept, DateKey);
    assert forall i :: 0 <= i < |sorted| ==> sorted[i] in kept by {
      forall i | 0 <= i < |sorted| ensures sorted[i] in kept {
        Sorting.SortByMembers(kept, DateKey, sorted[i]);
      }
    }
    sorted
  }

  /** Drops `action`, `date` and `exp_group`. */
  function Project(j: JoinedRow): MergedRow
  {
    MergedRow(j.log.userId, j.log.postId, j.log.target,
              if j.user.Some? then Some(j.user.value.features) else None, j.post)
  }

  /** `_merge_dfs`. The `ensures` only unfold the definition for callers; what the merge
      promises is stated by `MergeDfsOrigins`, `MergeDfsKeepsEveryRow` and `MergeDfsCount`. */
  function MergeDfs(users: seq<UserRow>, posts: seq<PostAttrs>, feed: seq<LogRow>): (r: seq<MergedRow>)
    ensures |r| == |SortedJoin(users, posts, feed)|
    ensures forall i :: 0 <= i < |r| ==> r[i] == Project(SortedJoin(users, posts, feed)[i])
  {
    MapSeq(Project, SortedJoin(users, posts, feed))
  }

  /** An output row is the projection of log row `f` joined with its user and post. */
  predicate ComesFrom(m: MergedRow, f: LogRow, users: seq<UserRow>, posts: seq<PostAttrs>)
  {
    && f.action != Like
    && m.userId == f.userId && m.postId == f.postId && m.target == f.target
    && (m.user.Some? ==> exists u :: u in users && u.userId == f.userId && u.features == m.user.value)
    && (m.user.None? ==> forall u :: u in users ==> u.userId != f.userId)
    && (m.post.Some? ==> m.post.value in posts && m.post.value.postId == f.postId)
    && (m.post.None? ==> forall p :: p in posts ==> p.postId != f.postId)
  }

  function LogOf(j: JoinedRow): LogRow { j.log }

  /** Every output row comes from a non-`like` log row joined with its user and post, and
      the log rows behind consecutive output rows have non-decreasing dates. */
  lemma MergeDfsOrigins(users: seq<UserRow>, posts: seq<PostAttrs>, feed: seq<LogRow>)
    ensures var out := MergeDfs(users, posts, feed);
      exists logs: seq<LogRow> ::
        && |logs| == |out|
        && (forall i :: 0 <= i < |out| ==> logs[i] in feed && ComesFrom(out[i], logs[i], users, posts))
        && (forall i, j :: 0 <= i < j < |logs| ==> logs[i].date <= logs[j].date)
  {
    SortedJoinLogs(users, posts, feed);
  }

  /** With unique user and post keys, the output rows come from the non-`like` log rows,
      each exactly once: no row is dropped and none is duplicated. */
  lemma MergeDfsKeepsEveryRow(users: seq<UserRow>, posts: seq<PostAttrs>, feed: seq<LogRow>)
    requires UniqueKeys(users, UserKey) && UniqueKeys(posts, PostKey)
    ensures var out := MergeDfs(users, posts, feed);
      exists logs: seq<LogRow> ::
        && |logs| == |out|
        && (forall i :: 0 <= i < |out| ==> ComesFrom(out[i], logs[i], users, posts))
        && multiset(logs) == multiset(Filter(feed, LogKept))
  {
    SortedJoinLogs(users, posts, feed);
    SortedLogs(users, posts, feed);
  }

  /** Projecting a kept, joined row gives a row that comes from its own log row: the ids and
      the target are the log's, the user features are those of a matching user (missing
      when none matches), the post is a matching post (missing when none matches). */
  lemma ProjectComesFrom(j: JoinedRow, users: seq<UserRow>, posts: seq<PostAttrs>)
    requires RowKept(j) && UserJoined(j, users) && PostJoined(j, posts)
    ensures ComesFrom(Project(j), j.log, users, posts)
  {
    if j.user.Some? {
      assert j.user.value in users && j.user.value.userId == j.log.userId;
    }
  }

  /** The log rows behind the sorted join: where each output row comes from, in date order. */
  lemma SortedJoinLogs(users: seq<UserRow>, posts: seq<PostAttrs>, feed: seq<LogRow>)
    ensures var out := MergeDfs(users, posts, feed);
      var logs := MapSeq(LogOf, SortedJoin(users, posts, feed));
      && |logs| == |out|
      && (forall i :: 0 <= i < |out| ==> logs[i] in feed && ComesFrom(out[i], logs[i], users, posts))
      && (forall i, j :: 0 <= i < j < |logs| ==> logs[i].date <= logs[j].date)
  {
    var out := MergeDfs(users, posts, feed);
    var sj := SortedJoin(users, posts, feed);
    var logs := MapSeq(LogOf, sj);
    forall i | 0 <= i < |out| ensures logs[i] in feed && ComesFrom(out[i], logs[i], users, posts) {
      assert out[i] == Project(sj[i]);
      ProjectComesFrom(sj[i], users, posts);
    }
    forall i, j | 0 <= i < j < |logs| ensures logs[i].date <= logs[j].date {
      assert DateKey(sj[i]) <= DateKey(sj[j]);
    }
  }

  /** With unique keys, the log rows behind the sorted join are a permutation of the
      non-`like` log rows. */
  lemma SortedLogs(users: seq<UserRow>, posts: seq<PostAttrs>, feed: seq<LogRow>)
    requires UniqueKeys(users, UserKey) && UniqueKeys(posts, PostKey)
    ensures multiset(MapSeq(LogOf, SortedJoin(users, posts, feed))) == multiset(Filter(feed, LogKept))
  {
    var kept := Filter(Joined(users, posts, feed), RowKept);
    MapSeqMultiset(LogOf, SortedJoin(users, posts, feed), kept);
    JoinedLogs(users, posts, feed);
    KeptLogs(Joined(users, posts, feed), feed);
  }

  /** With unique keys the join has one row per log row, in log order. */
  lemma JoinedLogs(users: seq<UserRow>, posts: seq<PostAttrs>, feed: seq<LogRow>)
    requires UniqueKeys(users, UserKey) && UniqueKeys(posts, PostKey)
    ensures var joined := Joined(users, posts, feed);
      |joined| == |feed| && forall i :: 0 <= i < |joined| ==> joined[i].log == feed[i]
  {
    var joined := Joined(users, posts, feed);
    forall i | 0 <= i < |joined| ensures joined[i].log == feed[i] {
      assert joined[i].(post := None) == JoinUsers(feed, users)[i];
    }
  }

  /** The log rows of the kept rows of a frame whose log column is `feed` are the kept log
      rows, in order. */
  lemma {:induction false} KeptLogs(rows: seq<JoinedRow>, feed: seq<LogRow>)
    requires |rows| == |feed|
    requires forall i :: 0 <= i < |rows| ==> rows[i].log == feed[i]
    ensures MapSeq(LogOf, Filter(rows, RowKept)) == Filter(feed, LogKept)
  {
    if rows != [] {
      KeptLogs(rows[1..], feed[1..]);
      var rest := Filter(rows[1..], RowKept);
      if RowKept(rows[0]) {
        assert MapSeq(LogOf, [rows[0]] + rest) == [LogOf(rows[0])] + MapSeq(LogOf, rest);
      }
    }
  }

  /** With unique user and post keys, no like rows and no duplicates are produced: the
      output has one row per non-`like` log row. */
  lemma MergeDfsCount(users: seq<UserRow>, posts: seq<PostAttrs>, feed: seq<LogRow>)
    requires UniqueKeys(users, UserKey) && UniqueKeys(posts, PostKey)
    ensures |MergeDfs(users, posts, feed)| == |Filter(feed, LogKept)|
  {
    JoinedLogs(users, posts, feed);
    KeptLogs(Joined(users, posts, feed), feed);
  }
}
