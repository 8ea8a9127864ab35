/** `hitrate_at_k`: 1 when any of the first `k` recommended ids was liked, else 0. */
module HitRate {
  import opened Common

  /** `np.isin(recommended, liked).sum()`. */
  function CountHits(recommended: seq<int>, liked: seq<int>): (n: nat)
    ensures n <= |recommended|
    ensures n > 0 <==> exists i :: 0 <= i < |recommended| && recommended[i] in liked
  {
    if recommended == [] then 0
    else
      var rest := CountHits(recommended[1..], liked);
      assert forall i :: 1 <= i < |recommended| ==> recommended[i] == recommended[1..][i - 1];
      assert rest > 0 ==> exists i :: 1 <= i < |recommended| && recommended[i] in liked;
      (if recommended[0] in liked then 1 else 0) + rest
  }

  /** `int(np.isin(recommended_posts[:k], liked_posts).sum() > 0)`, with Python's slice
      rule for a negative `k`. */
  function HitRateAtK(liked: seq<int>, recommended: seq<int>, k: int): (r: int)
    ensures r == 0 || r == 1
    ensures r == 1 <==> exists i :: 0 <= i < PrefixLength(|recommended|, k) && recommended[i] in liked
  {
    var top := Take(recommended, k);
    assert forall i :: 0 <= i < |top| ==> top[i] == recommended[i];
    if CountHits(top, liked) > 0 then 1 else 0
  }

  /** The ids at positions `k` and beyond never matter. */
  lemma HitRateIgnoresTail(liked: seq<int>, xs: seq<int>, ys: seq<int>, k: nat)
    requires k <= |xs| && k <= |ys| && xs[..k] == ys[..k]
    ensures HitRateAtK(liked, xs, k) == HitRateAtK(liked, ys, k)
  {
    assert forall i :: 0 <= i < k ==> xs[i] == xs[..k][i] && ys[i] == ys[..k][i];
  }

  /** Nothing recommended, nothing liked, or `k` = 0: no hit. */
  lemma HitRateEmpty(liked: seq<int>, recommended: seq<int>, k: int)
    requires recommended == [] || liked == [] || k == 0
    ensures HitRateAtK(liked, recommended, k) == 0
  {
  }

  /** Liking more posts never lowers the hit rate. */
  lemma HitRateMonotone(liked: seq<int>, liked': seq<int>, recommended: seq<int>, k: int)
    requires forall x :: x in liked ==> x in liked'
    ensures HitRateAtK(liked, recommended, k) <= HitRateAtK(liked', recommended, k)
  {
    if HitRateAtK(liked, recommended, k) == 1 {
      var i :| 0 <= i < PrefixLength(|recommended|, k) && recommended[i] in liked;
      var x := recommended[i];
      assert x in liked && x in liked';
    }
  }
}
