/** `evaluate_metrics`: for every validation row, parse the user's liked posts from their
    textual list, ask the recommender for the user's posts, and average the per-user
    hit rates at 5. */
module Evaluation {
  import opened Common
  import opened TextNormalizer
  import opened PyText
  import opened HitRate

  /** What the evaluation can raise. */
  datatype EvalError =
    | InvalidLiteral(text: string)  // `int()` of a piece that is no integer: ValueError
    | ZeroDivision                  // an empty validation set: ZeroDivisionError

  /** One row of the validation set. */
  datatype ValidationRow = ValidationRow(userId: int, likedPosts: string)

  /** The default `k` of `hitrate_at_k`. */
  const K: int := 5

  // ---- The liked-posts parser (line 21-23) ----

  predicate IsBracket(c: char)
  {
    c == '[' || c == ']'
  }

  /** `re.sub(r'(\[|\])', '', s)`: `s` without any bracket, wherever it occurs. */
  function StripBrackets(s: string): (r: string)
    ensures forall i :: 0 <= i < |r| ==> !IsBracket(r[i])
  {
    if s == [] then []
    else
      var rest := StripBrackets(s[1..]);
      if IsBracket(s[0]) then rest else [s[0]] + rest
  }

  /** Every other character is kept, in order and as often as it occurs. */
  lemma {:induction false} StripBracketsKeepsOthers(s: string)
    ensures forall c :: !IsBracket(c) ==> CountChar(StripBrackets(s), c) == CountChar(s, c)
    ensures IsSubsequence(StripBrackets(s), s)
  {
    if s != [] {
      var rest := StripBrackets(s[1..]);
      StripBracketsKeepsOthers(s[1..]);
      if IsBracket(s[0]) {
        SubsequenceOfTail(rest, s);
      } else {
        assert ([s[0]] + rest)[1..] == rest;
        assert ([s[0]] + rest)[0] == s[0];
      }
    }
  }

  /** A string without brackets is left as it is. */
  lemma {:induction false} StripBracketsNoBrackets(s: string)
    requires forall i :: 0 <= i < |s| ==> !IsBracket(s[i])
    ensures StripBrackets(s) == s
  {
    if s != [] {
      StripBracketsNoBrackets(s[1..]);
    }
  }

  lemma {:induction false} StripBracketsAppend(s: string, t: string)
    ensures StripBrackets(s + t) == StripBrackets(s) + StripBrackets(t)
  {
    if s == [] {
      assert s + t == t;
    } else {
      assert (s + t)[0] == s[0];
      assert (s + t)[1..] == s[1..] + t;
      StripBracketsAppend(s[1..], t);
    }
  }

  /** Each piece stripped and converted by `int()`, left to right; the first piece that is
      no integer raises. */
  function ParsePieces(pieces: seq<string>): Result<seq<int>, EvalError>
  {
    if pieces == [] then Ok([])
    else
      var v := ParseInt(Strip(pieces[0]));
      var rest := ParsePieces(pieces[1..]);
      if v.None? then Err(InvalidLiteral(Strip(pieces[0])))
      else if rest.Err? then rest
      else Ok([v.value] + rest.value)
  }

  /** The parse succeeds exactly when every piece is an integer literal, and then gives
      one id per piece, in order. */
  lemma {:induction false} ParsePiecesMeaning(pieces: seq<string>)
    ensures var r := ParsePieces(pieces);
      && (r.Err? <==> exists k :: 0 <= k < |pieces| && ParseInt(Strip(pieces[k])).None?)
      && (r.Ok? ==> |r.value| == |pieces|
                    && forall k :: 0 <= k < |pieces| ==> ParseInt(Strip(pieces[k])) == Some(r.value[k]))
  {
    if pieces != [] {
      ParsePiecesMeaning(pieces[1..]);
      assert forall k :: 1 <= k < |pieces| ==> pieces[k] == pieces[1..][k - 1];
    }
  }

  /** The pieces of the liked-posts text: brackets removed, split at commas. */
  function Pieces(s: string): seq<string>
  {
    Split(StripBrackets(s), ',')
  }

  /** Lines 21-23 as a specification. */
  function LikedPosts(s: string): Result<seq<int>, EvalError>
  {
    ParsePieces(Pieces(s))
  }

  /** Prepends the ids parsed so far to the outcome of the rest. */
  function PrependIds(done: seq<int>, rest: Result<seq<int>, EvalError>): Result<seq<int>, EvalError>
  {
    if rest.Err? then rest else Ok(done + rest.value)
  }

  /** One step of the parse: the first piece, then the rest. */
  lemma ParsePiecesStep(pieces: seq<string>, i: nat)
    requires i < |pieces|
    ensures var v := ParseInt(Strip(pieces[i]));
      ParsePieces(pieces[i..]) ==
        if v.None? then Err(InvalidLiteral(Strip(pieces[i])))
        else PrependIds([v.value], ParsePieces(pieces[i + 1..]))
  {
    assert pieces[i..][0] == pieces[i];
    assert pieces[i..][1..] == pieces[i + 1..];
  }

  lemma PrependTwice(a: seq<int>, b: seq<int>, rest: Result<seq<int>, EvalError>)
    ensures PrependIds(a, PrependIds(b, rest)) == PrependIds(a + b, rest)
  {
    if rest.Ok? {
      assert a + (b + rest.value) == (a + b) + rest.value;
    }
  }

  lemma PrependNothing(rest: Result<seq<int>, EvalError>)
    ensures PrependIds([], rest) == rest
  {
    if rest.Ok? {
      assert [] + rest.value == rest.value;
    }
  }

  /** Lines 21-23: the loop that appends one parsed id per comma-separated piece. */
  method ParseLikedPosts(s: string) returns (res: Result<seq<int>, EvalError>)
    ensures res == LikedPosts(s)
  {
    var pieces := Split(StripBrackets(s), ',');
    var liked: seq<int> := [];
    var i := 0;
    assert pieces[0..] == pieces;
    PrependNothing(ParsePieces(pieces));
    while i < |pieces|
      invariant 0 <= i <= |pieces|
      invariant LikedPosts(s) == PrependIds(liked, ParsePieces(pieces[i..]))
    {
      var postId := ParseInt(Strip(pieces[i]));
      ParsePiecesStep(pieces, i);
      if postId.None? {
        return Err(InvalidLiteral(Strip(pieces[i])));
      }
      PrependTwice(liked, [postId.value], ParsePieces(pieces[i + 1..]));
      liked := liked + [postId.value];
      i := i + 1;
    }
    assert pieces[i..] == [];
    assert liked + [] == liked;
    res := Ok(liked);
  }

  /** The parsed list has one id per comma of the bracket-free text plus one, in the
      order of the text. */
  lemma LikedPostsCount(s: string)
    ensures var r := LikedPosts(s);
      r.Ok? ==>
        && |r.value| == |Pieces(s)| == CountChar(s, ',') + 1
        && forall k :: 0 <= k < |Pieces(s)| ==> ParseInt(Strip(Pieces(s)[k])) == Some(r.value[k])
  {
    ParsePiecesMeaning(Pieces(s));
    StripBracketsKeepsOthers(s);
  }

  /** An empty list `"[]"` leaves one empty piece, which `int()` rejects. */
  lemma EmptyListRejected()
    ensures LikedPosts("[]") == Err(InvalidLiteral(""))
  {
    assert StripBrackets("[]") == [];
    assert Split([], ',') == [""];
    assert Strip("") == "";
  }

  /** Python's `str(xs)` of a non-empty list of ints: `[a, b, c]`. */
  function Render(xs: seq<int>): string
    requires xs != []
  {
    "[" + RenderBody(xs) + "]"
  }

  function RenderBody(xs: seq<int>): string
    requires xs != []
  {
    Join(RenderPieces(xs), ',')
  }

  /** The pieces of the rendering between commas: the first number, then each further
      number after a space. */
  function RenderPieces(xs: seq<int>): (ps: seq<string>)
    requires xs != []
    ensures |ps| == |xs|
    ensures ps[0] == Show(xs[0])
    ensures forall k :: 1 <= k < |xs| ==> ps[k] == [' '] + Show(xs[k])
  {
    seq(|xs|, k requires 0 <= k < |xs| => if k == 0 then Show(xs[0]) else [' '] + Show(xs[k]))
  }

  lemma {:induction false} ShowIsPlain(n: int)
    ensures forall i :: 0 <= i < |Show(n)| ==> !IsBracket(Show(n)[i]) && Show(n)[i] != ',' && !IsSpace(Show(n)[i])
  {
  }

  lemma {:induction false} JoinNoBrackets(ps: seq<string>, sep: char)
    requires ps != [] && !IsBracket(sep)
    requires forall k, i :: 0 <= k < |ps| && 0 <= i < |ps[k]| ==> !IsBracket(ps[k][i])
    ensures forall i :: 0 <= i < |Join(ps, sep)| ==> !IsBracket(Join(ps, sep)[i])
  {
    if |ps| > 1 {
      assert forall k, i :: 0 <= k < |ps[1..]| && 0 <= i < |ps[1..][k]| ==> ps[1..][k][i] == ps[k + 1][i];
      JoinNoBrackets(ps[1..], sep);
    }
  }

  /** The rendering without its brackets is the comma-joined pieces. */
  lemma RenderWithoutBrackets(xs: seq<int>)
    requires xs != []
    ensures StripBrackets(Render(xs)) == RenderBody(xs)
    ensures forall k, i :: 0 <= k < |xs| && 0 <= i < |RenderPieces(xs)[k]| ==> RenderPieces(xs)[k][i] != ','
  {
    var ps := RenderPieces(xs);
    forall k, i | 0 <= k < |ps| && 0 <= i < |ps[k]|
      ensures !IsBracket(ps[k][i]) && ps[k][i] != ','
    {
      ShowIsPlain(xs[k]);
      if k > 0 && i > 0 {
        assert ps[k][i] == Show(xs[k])[i - 1];
      }
    }
    JoinNoBrackets(ps, ',');
    StripBracketsAppend("[" + RenderBody(xs), "]");
    StripBracketsAppend("[", RenderBody(xs));
    StripBracketsNoBrackets(RenderBody(xs));
  }

  /** Each rendered piece reads back as its number. */
  lemma RenderPieceParses(xs: seq<int>, k: nat)
    requires k < |xs|
    ensures ParseInt(Strip(RenderPieces(xs)[k])) == Some(xs[k])
  {
    ParseShow(xs[k]);
    ShowIsPlain(xs[k]);
    if k > 0 {
      StripSpaceInFront(Show(xs[k]));
    } else {
      var t := Show(xs[0]);
      assert LeadingSpaces(t) == 0;
      assert t[0..] == t;
      assert TrailingSpaces(t) == 0;
      assert t[..|t|] == t;
      assert Strip(t) == t;
    }
  }

  /** Parsing the rendering of a non-empty list gives the list back: the parser reads
      what `str(list)` writes. */
  lemma RenderRoundTrip(xs: seq<int>)
    requires xs != []
    ensures LikedPosts(Render(xs)) == Ok(xs)
  {
    var ps := RenderPieces(xs);
    RenderWithoutBrackets(xs);
    assert forall k :: 0 <= k < |ps| ==> ',' !in ps[k];
    SplitJoin(ps, ',');
    assert Pieces(Render(xs)) == ps;
    forall k | 0 <= k < |xs|
      ensures ParseInt(Strip(ps[k])) == Some(xs[k])
    {
      RenderPieceParses(xs, k);
    }
    var r := ParsePieces(ps);
    ParsePiecesMeaning(ps);
    assert r.Ok?;
    assert r.value == xs;
  }

  // ---- The evaluation loop (lines 16-28) ----

  /** A parsed liked-posts list, or the error its text raised. */
  type Parsed = Result<seq<int>, EvalError>

  /** The hit of one validation row: its parsed liked posts scored against what the
      recommender returns for its user. */
  function RowHit(liked: Parsed, recs: seq<int>): Result<int, EvalError>
  {
    match liked
    case Err(e) => Err(e)
    case Ok(ids) => Ok(HitRateAtK(ids, recs, K))
  }

  /** The hits of all rows, row `i` scored with the liked posts `parsed[i]`. */
  function RowHits(rows: seq<ValidationRow>, parsed: seq<Parsed>, recommend: int -> seq<int>): (hits: seq<Result<int, EvalError>>)
    requires |parsed| == |rows|
    ensures |hits| == |rows|
  {
    seq(|rows|, i requires 0 <= i < |rows| => RowHit(parsed[i], recommend(rows[i].userId)))
  }

  /** Adds one row's hit to the hits of the rows after it; the first error wins. */
  function AddHits(hit: Result<int, EvalError>, rest: Result<int, EvalError>): Result<int, EvalError>
  {
    if hit.Err? then hit
    else if rest.Err? then rest
    else Ok(hit.value + rest.value)
  }

  /** Every hit that is a number is 0 or 1. */
  predicate ZeroOrOne(hits: seq<Result<int, EvalError>>)
  {
    forall i :: 0 <= i < |hits| && hits[i].Ok? ==> 0 <= hits[i].value <= 1
  }

  /** `hitrate += ...` over all rows: the sum of the hits, or the first row's error. */
  function SumHits(hits: seq<Result<int, EvalError>>): (r: Result<int, EvalError>)
    ensures ZeroOrOne(hits) && r.Ok? ==> 0 <= r.value <= |hits|
  {
    if hits == [] then Ok(0)
    else
      assert forall i :: 1 <= i < |hits| ==> hits[1..][i - 1] == hits[i];
      AddHits(hits[0], SumHits(hits[1..]))
  }

  /** `hitrate_at_k` only ever yields 0 or 1. */
  lemma RowHitsZeroOrOne(rows: seq<ValidationRow>, parsed: seq<Parsed>, recommend: int -> seq<int>)
    requires |parsed| == |rows|
    ensures ZeroOrOne(RowHits(rows, parsed, recommend))
  {
    var hits := RowHits(rows, parsed, recommend);
    forall i | 0 <= i < |hits| && hits[i].Ok?
      ensures 0 <= hits[i].value <= 1
    {
      assert hits[i] == RowHit(parsed[i], recommend(rows[i].userId));
    }
  }

  /** The liked posts the corrected loop reads: each row's own text, parsed. */
  function LikedColumn(rows: seq<ValidationRow>): (c: seq<Parsed>)
    ensures |c| == |rows|
  {
    seq(|rows|, i requires 0 <= i < |rows| => LikedPosts(rows[i].likedPosts))
  }

  /** Lines 16-28 as a specification: the mean per-user hit rate, the error of the first row
      whose liked posts do not parse, or a division by zero on an empty validation set. The
      rounding to three places is not modelled. */
  function EvaluateSpec(rows: seq<ValidationRow>, parsed: seq<Parsed>, recommend: int -> seq<int>): (r: Result<real, EvalError>)
    requires |parsed| == |rows|
    ensures rows == [] ==> r == Err(ZeroDivision)
    ensures r.Ok? ==> 0.0 <= r.value <= 1.0
  {
    var total := SumHits(RowHits(rows, parsed, recommend));
    if total.Err? then Err(total.error)
    else if |rows| == 0 then Err(ZeroDivision)
    else
      RowHitsZeroOrOne(rows, parsed, recommend);
      RatioWithin(total.value, |rows|);
      Ok(total.value as real / |rows| as real)
  }

  lemma RatioWithin(a: int, n: int)
    requires 0 <= a <= n && 0 < n
    ensures 0.0 <= a as real / n as real <= 1.0
    ensures a as real / n as real == 1.0 <==> a == n
    ensures a as real / n as real == 0.0 <==> a == 0
  {
    var q := a as real / n as real;
    assert q * n as real == a as real;
  }

  /** One loop step: the first remaining row's hit, then the rest. */
  lemma SumHitsStep(hits: seq<Result<int, EvalError>>, i: nat)
    requires i < |hits|
    ensures SumHits(hits[i..]) == AddHits(hits[i], SumHits(hits[i + 1..]))
  {
    assert hits[i..][0] == hits[i];
    assert hits[i..][1..] == hits[i + 1..];
  }

  lemma AddHitsTwice(a: int, hit: Result<int, EvalError>, rest: Result<int, EvalError>)
    ensures AddHits(Ok(a), AddHits(hit, rest)) == AddHits(AddHits(Ok(a), hit), rest)
  {
  }

  /** Lines 9-33: the loop over the validation rows, each row's liked posts parsed from its
      own text (the corrected line 21), summed hit rates divided by the number of rows. The
      recommender is a parameter: `model.predict` for the row's user. */
  method EvaluateMetrics(rows: seq<ValidationRow>, recommend: int -> seq<int>) returns (res: Result<real, EvalError>)
    ensures res == EvaluateSpec(rows, LikedColumn(rows), recommend)
  {
    ghost var hits := RowHits(rows, LikedColumn(rows), recommend);
    var hitrate := 0;
    var i := 0;
    assert hits[0..] == hits;
    while i < |rows|
      invariant 0 <= i <= |rows|
      invariant SumHits(hits) == AddHits(Ok(hitrate), SumHits(hits[i..]))
    {
      var liked := ParseLikedPosts(rows[i].likedPosts);
      assert LikedColumn(rows)[i] == liked;
      EvaluateStep(rows, LikedColumn(rows), recommend, i, hitrate);
      if liked.Err? {
        return Err(liked.error);
      }
      var recs := recommend(rows[i].userId);
      hitrate := hitrate + HitRateAtK(liked.value, recs, K);
      i := i + 1;
    }
    EvaluateEnd(rows, LikedColumn(rows), recommend, hitrate);
    if |rows| == 0 {
      return Err(ZeroDivision);
    }
    res := Ok(hitrate as real / |rows| as real);
  }

  /** One pass of the loop: a row whose liked posts do not parse ends the evaluation with
      that error, any other row adds its hit to the running sum. */
  lemma EvaluateStep(rows: seq<ValidationRow>, parsed: seq<Parsed>, recommend: int -> seq<int>, i: nat, hitrate: int)
    requires |parsed| == |rows| && i < |rows|
    requires var hits := RowHits(rows, parsed, recommend);
      SumHits(hits) == AddHits(Ok(hitrate), SumHits(hits[i..]))
    ensures parsed[i].Err? ==> EvaluateSpec(rows, parsed, recommend) == Err(parsed[i].error)
    ensures var hits := RowHits(rows, parsed, recommend);
      parsed[i].Ok? ==>
        SumHits(hits) == AddHits(Ok(hitrate + HitRateAtK(parsed[i].value, recommend(rows[i].userId), K)), SumHits(hits[i + 1..]))
  {
    var hits := RowHits(rows, parsed, recommend);
    SumHitsStep(hits, i);
    assert hits[i] == RowHit(parsed[i], recommend(rows[i].userId));
    if parsed[i].Err? {
      EvaluateOfError(rows, parsed, recommend, parsed[i].error);
    } else {
      AddHitsTwice(hitrate, hits[i], SumHits(hits[i + 1..]));
    }
  }

  /** After the last row, the running sum is the whole sum. */
  lemma EvaluateEnd(rows: seq<ValidationRow>, parsed: seq<Parsed>, recommend: int -> seq<int>, hitrate: int)
    requires |parsed| == |rows|
    requires var hits := RowHits(rows, parsed, recommend);
      SumHits(hits) == AddHits(Ok(hitrate), SumHits(hits[|rows|..]))
    ensures EvaluateSpec(rows, parsed, recommend)
      == if rows == [] then Err(ZeroDivision) else Ok(hitrate as real / |rows| as real)
  {
    var hits := RowHits(rows, parsed, recommend);
    assert hits[|rows|..] == [];
    if rows != [] {
      EvaluateOfSum(rows, parsed, recommend, hitrate);
    }
  }

  /** The sum fails exactly when some hit is an error. */
  lemma {:induction false} SumHitsFails(hits: seq<Result<int, EvalError>>)
    ensures SumHits(hits).Err? <==> exists i :: 0 <= i < |hits| && hits[i].Err?
  {
    if hits != [] {
      SumHitsFails(hits[1..]);
      if j :| 0 <= j < |hits| - 1 && hits[1..][j].Err? {
        assert hits[j + 1].Err?;
      }
      if i :| 1 <= i < |hits| && hits[i].Err? {
        assert hits[1..][i - 1].Err?;
      }
    }
  }

  /** The evaluation fails exactly when the validation set is empty or the liked posts of
      some row do not parse. */
  lemma EvaluateFails(rows: seq<ValidationRow>, parsed: seq<Parsed>, recommend: int -> seq<int>)
    requires |parsed| == |rows|
    ensures EvaluateSpec(rows, parsed, recommend).Err?
      <==> rows == [] || exists i :: 0 <= i < |rows| && parsed[i].Err?
  {
    var hits := RowHits(rows, parsed, recommend);
    SumHitsFails(hits);
    forall i | 0 <= i < |rows|
      ensures hits[i].Err? <==> parsed[i].Err?
    {
      assert hits[i] == RowHit(parsed[i], recommend(rows[i].userId));
    }
  }

  /** Every hit is `v`. */
  predicate AllHit(hits: seq<Result<int, EvalError>>, v: int)
  {
    forall i :: 0 <= i < |hits| ==> hits[i] == Ok(v)
  }

  lemma AllHitStep(hits: seq<Result<int, EvalError>>, v: int)
    requires hits != []
    ensures AllHit(hits, v) <==> hits[0] == Ok(v) && AllHit(hits[1..], v)
  {
    assert forall i :: 1 <= i < |hits| ==> hits[1..][i - 1] == hits[i];
  }

  /** The sum of 0/1 hits is their number exactly when all are 1, and zero exactly when
      all are 0. */
  lemma {:induction false} SumHitsExtremes(hits: seq<Result<int, EvalError>>)
    requires ZeroOrOne(hits) && SumHits(hits).Ok?
    ensures SumHits(hits).value == |hits| <==> AllHit(hits, 1)
    ensures SumHits(hits).value == 0 <==> AllHit(hits, 0)
  {
    if hits != [] {
      assert forall i :: 1 <= i < |hits| ==> hits[1..][i - 1] == hits[i];
      assert SumHits(hits) == AddHits(hits[0], SumHits(hits[1..]));
      SumHitsExtremes(hits[1..]);
      AllHitStep(hits, 0);
      AllHitStep(hits, 1);
    }
  }

  /** Every user's liked posts parse, and the user's hit is `v`. */
  predicate AllRowsHit(rows: seq<ValidationRow>, parsed: seq<Parsed>, recommend: int -> seq<int>, v: int)
    requires |parsed| == |rows|
  {
    forall i :: 0 <= i < |rows| ==>
      parsed[i].Ok? && HitRateAtK(parsed[i].value, recommend(rows[i].userId), K) == v
  }

  /** A hit rate of 1 means every user had a liked post among their first `K`
      recommendations; a hit rate of 0 means none had. */
  lemma EvaluateExtremes(rows: seq<ValidationRow>, parsed: seq<Parsed>, recommend: int -> seq<int>)
    requires |parsed| == |rows| && EvaluateSpec(rows, parsed, recommend).Ok?
    ensures EvaluateSpec(rows, parsed, recommend).value == 1.0 <==> AllRowsHit(rows, parsed, recommend, 1)
    ensures EvaluateSpec(rows, parsed, recommend).value == 0.0 <==> AllRowsHit(rows, parsed, recommend, 0)
  {
    var hits := RowHits(rows, parsed, recommend);
    RowHitsZeroOrOne(rows, parsed, recommend);
    SumHitsExtremes(hits);
    RatioWithin(SumHits(hits).value, |rows|);
    assert forall v :: AllHit(hits, v) <==> AllRowsHit(rows, parsed, recommend, v) by {
      assert forall i :: 0 <= i < |rows| ==> hits[i] == RowHit(parsed[i], recommend(rows[i].userId));
    }
  }

  // ---- Line 21 as written ----

  /** The liked posts line 21 actually reads: the first row's text, parsed, for every
      row. */
  function FirstRowColumn(rows: seq<ValidationRow>): (c: seq<Parsed>)
    ensures |c| == |rows|
  {
    seq(|rows|, i requires 0 <= i < |rows| => LikedPosts(rows[0].likedPosts))
  }

  /** Lines 16-28 as written: every user is scored against the first user's liked posts. */
  function EvaluateAsWritten(rows: seq<ValidationRow>, recommend: int -> seq<int>): (r: Result<real, EvalError>)
    ensures rows == [] ==> r == Err(ZeroDivision)
    ensures r.Ok? ==> 0.0 <= r.value <= 1.0
  {
    EvaluateSpec(rows, FirstRowColumn(rows), recommend)
  }

  /** As written, the result agrees with the corrected loop whenever all rows hold the
      same liked-posts text. */
  lemma AsWrittenAgreesOnUniformLists(rows: seq<ValidationRow>, recommend: int -> seq<int>)
    requires forall i :: 0 <= i < |rows| ==> rows[i].likedPosts == rows[0].likedPosts
    ensures EvaluateAsWritten(rows, recommend) == EvaluateSpec(rows, LikedColumn(rows), recommend)
  {
    assert FirstRowColumn(rows) == LikedColumn(rows);
  }

  lemma ParsesExampleLists()
    ensures LikedPosts("[10]") == Ok([10]) && LikedPosts("[20]") == Ok([20])
  {
    RenderRoundTrip([10]);
    RenderRoundTrip([20]);
    assert Render([10]) == "[10]";
    assert Render([20]) == "[20]";
  }

  lemma EvaluateOfSum(rows: seq<ValidationRow>, parsed: seq<Parsed>, recommend: int -> seq<int>, total: int)
    requires |parsed| == |rows| && rows != [] && SumHits(RowHits(rows, parsed, recommend)) == Ok(total)
    ensures EvaluateSpec(rows, parsed, recommend) == Ok(total as real / |rows| as real)
  {
  }

  lemma EvaluateOfError(rows: seq<ValidationRow>, parsed: seq<Parsed>, recommend: int -> seq<int>, e: EvalError)
    requires |parsed| == |rows| && SumHits(RowHits(rows, parsed, recommend)) == Err(e)
    ensures EvaluateSpec(rows, parsed, recommend) == Err(e)
  {
  }

  lemma Halves()
    ensures 2 as real / 2.0 == 1.0 && 1 as real / 2.0 == 0.5
  {
  }

  /** The two rows scored against the given liked posts. */
  lemma EvaluateTwo(rows: seq<ValidationRow>, recommend: int -> seq<int>, first: seq<int>, second: seq<int>)
    requires |rows| == 2
    ensures var a := HitRateAtK(first, recommend(rows[0].userId), K);
      var b := HitRateAtK(second, recommend(rows[1].userId), K);
      EvaluateSpec(rows, [Ok(first), Ok(second)], recommend) == Ok((a + b) as real / 2.0)
  {
    var a := HitRateAtK(first, recommend(rows[0].userId), K);
    var b := HitRateAtK(second, recommend(rows[1].userId), K);
    var hits := RowHits(rows, [Ok(first), Ok(second)], recommend);
    assert hits == [Ok(a), Ok(b)];
    assert hits[1..] == [Ok(b)] && hits[1..][1..] == [];
    assert SumHits([Ok(b)]) == Ok(b);
    assert SumHits(hits) == Ok(a + b);
    EvaluateOfSum(rows, [Ok(first), Ok(second)], recommend, a + b);
  }

  lemma TwoColumns(first: string, second: string)
    ensures var rows := [ValidationRow(1, first), ValidationRow(2, second)];
      && LikedColumn(rows) == [LikedPosts(first), LikedPosts(second)]
      && FirstRowColumn(rows) == [LikedPosts(first), LikedPosts(first)]
  {
  }

  lemma SingletonHits()
    ensures HitRateAtK([10], [10], K) == 1 && HitRateAtK([20], [20], K) == 1
    ensures HitRateAtK([10], [20], K) == 0
  {
  }

  /** Two users, user 1 liking exactly post 10 and user 2 exactly post 20, with any
      recommender that offers post 10 to user 1 and post 20 to user 2: a hit rate of 1 for
      the loop that reads each row's own likes, 0.5 as written, because the second user is
      scored against the first user's likes. */
  lemma AsWrittenScoresFirstUsersLikes(recommend: int -> seq<int>, first: string, second: string)
    requires recommend(1) == [10] && recommend(2) == [20]
    requires LikedPosts(first) == Ok([10]) && LikedPosts(second) == Ok([20])
    ensures var rows := [ValidationRow(1, first), ValidationRow(2, second)];
      && EvaluateSpec(rows, LikedColumn(rows), recommend) == Ok(1.0)
      && EvaluateAsWritten(rows, recommend) == Ok(0.5)
  {
    var rows := [ValidationRow(1, first), ValidationRow(2, second)];
    TwoColumns(first, second);
    SingletonHits();
    EvaluateTwo(rows, recommend, [10], [20]);
    EvaluateTwo(rows, recommend, [10], [10]);
    Halves();
  }

  /** The same on the validation rows `(1, "[10]")` and `(2, "[20]")`. */
  lemma AsWrittenCounterexample(recommend: int -> seq<int>)
    requires recommend(1) == [10] && recommend(2) == [20]
    ensures var rows := [ValidationRow(1, "[10]"), ValidationRow(2, "[20]")];
      && EvaluateSpec(rows, LikedColumn(rows), recommend) == Ok(1.0)
      && EvaluateAsWritten(rows, recommend) == Ok(0.5)
  {
    ParsesExampleLists();
    AsWrittenScoresFirstUsersLikes(recommend, "[10]", "[20]");
  }
}
