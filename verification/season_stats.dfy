/**
  Per-season statistics shown in each season's header and tiles: the mean of
  the parsed ratings ("N/A" when there are none), and the best and worst
  episode found by a strict-comparison scan from the sentinels -1.0 and 11.0.
 */
module SeasonStats {
  import opened Wrappers
  import opened Episodes
  import opened Extrema

  /** The average shown for a season, in tenths; Unavailable is the "N/A" text. */
  datatype Average = Unavailable | Mean(tenths: real)

  /** A season best or worst: the episode and its parsed rating. */
  datatype Pick = Pick(ep: Episode, rating: int)

  /** The parsed ratings of a season, in list order. */
  function RatedValues(eps: seq<Episode>): (vs: seq<int>)
    ensures |vs| <= |eps|
    ensures |vs| == 0 <==> NoneRated(Rating, eps)
    ensures forall v :: v in vs ==> exists i :: 0 <= i < |eps| && eps[i].rating == Some(v)
    decreases |eps|
  {
    if |eps| == 0 then []
    else
      var rest := RatedValues(eps[1..]);
      assert forall i :: 0 <= i < |eps| - 1 ==> eps[1..][i] == eps[i + 1];
      if eps[0].rating.Some? then [eps[0].rating.value] + rest else rest
  }

  /**
    The positions of the episodes whose rating parses: strictly increasing,
    and containing exactly the rated positions.
   */
  function RatedIndices(eps: seq<Episode>): (ix: seq<int>)
    ensures forall k :: 0 <= k < |ix| ==> 0 <= ix[k] < |eps| && eps[ix[k]].rating.Some?
    ensures forall k, m :: 0 <= k < m < |ix| ==> ix[k] < ix[m]
    ensures forall i :: 0 <= i < |eps| && eps[i].rating.Some? ==> i in ix
    decreases |eps|
  {
    if |eps| == 0 then []
    else
      var n := |eps| - 1;
      var pre := RatedIndices(eps[..n]);
      assert forall i :: 0 <= i < n ==> eps[..n][i] == eps[i];
      if eps[n].rating.Some? then pre + [n] else pre
  }

  /**
    The parsed ratings are the ratings at the rated positions, in order: one
    value per rated episode, none for an unrated one, as a map-then-filter
    yields them.
   */
  lemma {:induction false} RatedValuesAreFiltered(eps: seq<Episode>)
    ensures |RatedValues(eps)| == |RatedIndices(eps)|
    ensures forall k :: 0 <= k < |RatedIndices(eps)| ==>
              RatedValues(eps)[k] == eps[RatedIndices(eps)[k]].rating.value
    decreases |eps|
  {
    if |eps| > 0 {
      var n := |eps| - 1;
      var pre, last := eps[..n], eps[n];
      RatedValuesAreFiltered(pre);
      assert eps == pre + [last];
      RatedValuesConcat(pre, [last]);
      assert [last][1..] == [];
      var vs, ix := RatedValues(eps), RatedIndices(eps);
      var vp, ip := RatedValues(pre), RatedIndices(pre);
      assert vs == vp + RatedValues([last]);
      assert ix == (if last.rating.Some? then ip + [n] else ip);
      forall k | 0 <= k < |ix|
        ensures vs[k] == eps[ix[k]].rating.value
      {
        if k < |ip| {
          assert vs[k] == vp[k] && ix[k] == ip[k];
          assert pre[ip[k]] == eps[ip[k]];
        }
      }
    }
  }

  /** Every parsed rating of the season appears among the values averaged. */
  lemma RatedValuesKeepsEvery(eps: seq<Episode>, i: int)
    requires 0 <= i < |eps| && eps[i].rating.Some?
    ensures eps[i].rating.value in RatedValues(eps)
  {
    RatedValuesAreFiltered(eps);
    var ix := RatedIndices(eps);
    var k :| 0 <= k < |ix| && ix[k] == i;
    assert RatedValues(eps)[k] == eps[i].rating.value;
  }

  function Sum(xs: seq<int>): int
    decreases |xs|
  {
    if |xs| == 0 then 0 else xs[0] + Sum(xs[1..])
  }

  /** The season average: the mean of the parsed ratings only. */
  function SeasonAvg(eps: seq<Episode>): (a: Average)
    ensures a.Unavailable? <==> NoneRated(Rating, eps)
  {
    var vs := RatedValues(eps);
    if |vs| == 0 then Unavailable else Mean(Sum(vs) as real / |vs| as real)
  }

  function PickOf(t: Track<Episode>): Option<Pick>
  {
    if t.pick.Some? then Some(Pick(t.pick.value, t.bound)) else None
  }

  /** The season's highest-rated episode, scanning from the sentinel -1.0. */
  function SeasonBest(eps: seq<Episode>): (r: Option<Pick>)
    ensures r.Some? ==> r.value.ep in eps && r.value.ep.rating == Some(r.value.rating)
    ensures r.Some? ==> r.value.rating > BestSentinel
  {
    PickOf(BestFold(Rating, BestStart(), eps))
  }

  /** The season's lowest-rated episode, scanning from the sentinel 11.0. */
  function SeasonWorst(eps: seq<Episode>): (r: Option<Pick>)
    ensures r.Some? ==> r.value.ep in eps && r.value.ep.rating == Some(r.value.rating)
    ensures r.Some? ==> r.value.rating < WorstSentinel
  {
    PickOf(WorstFold(Rating, WorstStart(), eps))
  }

  lemma {:induction false} RatedValuesConcat(a: seq<Episode>, b: seq<Episode>)
    ensures RatedValues(a + b) == RatedValues(a) + RatedValues(b)
    decreases |a|
  {
    if |a| == 0 {
      assert a + b == b;
    } else {
      assert (a + b)[0] == a[0];
      assert (a + b)[1..] == a[1..] + b;
      RatedValuesConcat(a[1..], b);
    }
  }

  lemma RatedValuesWithin(eps: seq<Episode>, lo: int, hi: int)
    requires forall i :: 0 <= i < |eps| && eps[i].rating.Some? ==> lo <= eps[i].rating.value <= hi
    ensures forall v :: v in RatedValues(eps) ==> lo <= v <= hi
  {
  }

  lemma {:induction false} SumWithin(xs: seq<int>, lo: int, hi: int)
    requires forall v :: v in xs ==> lo <= v <= hi
    ensures |xs| * lo <= Sum(xs) <= |xs| * hi
    decreases |xs|
  {
    if |xs| > 0 {
      var n := |xs| - 1;
      assert xs[0] in xs;
      assert forall v :: v in xs[1..] ==> v in xs;
      SumWithin(xs[1..], lo, hi);
      assert Sum(xs) == xs[0] + Sum(xs[1..]);
      assert (n + 1) * lo == n * lo + lo;
      assert (n + 1) * hi == n * hi + hi;
    }
  }

  lemma QuotientWithin(s: real, n: real, lo: real, hi: real)
    requires n > 0.0 && lo * n <= s <= hi * n
    ensures lo <= s / n <= hi
  {
    var q := s / n;
    assert q * n == s;
    assert (q - lo) * n == s - lo * n;
    assert (hi - q) * n == hi * n - s;
  }

  /**
    When every parsed rating lies in [lo, hi], so does the average; taking the
    smallest and largest parsed rating for lo and hi, the average lies
    between them.
   */
  lemma SeasonAvgWithin(eps: seq<Episode>, lo: int, hi: int)
    requires forall i :: 0 <= i < |eps| && eps[i].rating.Some? ==> lo <= eps[i].rating.value <= hi
    ensures SeasonAvg(eps).Mean? ==> lo as real <= SeasonAvg(eps).tenths <= hi as real
  {
    var vs := RatedValues(eps);
    if |vs| > 0 {
      RatedValuesWithin(eps, lo, hi);
      SumWithin(vs, lo, hi);
      var n := |vs| as real;
      var s := Sum(vs) as real;
      assert (lo as real) * n <= s <= (hi as real) * n;
      QuotientWithin(s, n, lo as real, hi as real);
    }
  }

  /** On the 0.0 .. 10.0 scale the average is itself between 0.0 and 10.0. */
  lemma SeasonAvgOnScale(eps: seq<Episode>)
    requires WellRated(eps)
    ensures SeasonAvg(eps).Mean? ==> 0.0 <= SeasonAvg(eps).tenths <= 100.0
  {
    SeasonAvgWithin(eps, 0, 100);
  }

  /** An unrated episode, wherever it sits, changes neither sum nor count. */
  lemma SeasonAvgIgnoresUnrated(a: seq<Episode>, e: Episode, b: seq<Episode>)
    requires e.rating.None?
    ensures SeasonAvg(a + [e] + b) == SeasonAvg(a + b)
  {
    var vs := RatedValues(a + b);
    assert RatedValues([e]) == [] by {
      assert [e][1..] == [];
    }
    calc {
      RatedValues(a + [e] + b);
      { RatedValuesConcat(a + [e], b); }
      RatedValues(a + [e]) + RatedValues(b);
      { RatedValuesConcat(a, [e]); }
      RatedValues(a) + RatedValues(b);
      { RatedValuesConcat(a, b); }
      vs;
    }
  }

  /**
    On well-rated episodes the season best is absent exactly when no rating
    parses, and otherwise is the first episode whose rating no other parsed
    rating exceeds.
   */
  lemma SeasonBestIsFirstMax(eps: seq<Episode>)
    requires WellRated(eps)
    ensures SeasonBest(eps).None? <==> NoneRated(Rating, eps)
    ensures !NoneRated(Rating, eps) ==> exists i :: IsFirstMax(Rating, eps, i)
    ensures forall i :: IsFirstMax(Rating, eps, i) ==> SeasonBest(eps) == Some(Pick(eps[i], eps[i].rating.value))
  {
    BestIsFirstMax(Rating, eps);
  }

  lemma SeasonWorstIsFirstMin(eps: seq<Episode>)
    requires WellRated(eps)
    ensures SeasonWorst(eps).None? <==> NoneRated(Rating, eps)
    ensures !NoneRated(Rating, eps) ==> exists i :: IsFirstMin(Rating, eps, i)
    ensures forall i :: IsFirstMin(Rating, eps, i) ==> SeasonWorst(eps) == Some(Pick(eps[i], eps[i].rating.value))
  {
    WorstIsFirstMin(Rating, eps);
  }

  /**
    On well-rated episodes best and worst are present together and the best
    rating is never below the worst one.
   */
  lemma SeasonBestNotBelowWorst(eps: seq<Episode>)
    requires WellRated(eps)
    ensures SeasonBest(eps).Some? <==> SeasonWorst(eps).Some?
    ensures SeasonBest(eps).Some? ==> SeasonWorst(eps).value.rating <= SeasonBest(eps).value.rating
  {
    SeasonBestIsFirstMax(eps);
    SeasonWorstIsFirstMin(eps);
    if SeasonBest(eps).Some? {
      var w := SeasonWorst(eps).value;
      var i :| IsFirstMin(Rating, eps, i);
      var k :| IsFirstMax(Rating, eps, k);
      assert eps[i].rating.value <= eps[k].rating.value;
    }
  }
}
