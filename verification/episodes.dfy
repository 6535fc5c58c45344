/**
  Episodes as the provider reports them. A rating is kept in tenths of a point
  (7.5 is 75) once parsed; an episode whose rating does not parse ("N/A") has
  rating None and is never treated as zero.
 */
module Episodes {
  import opened Wrappers

  datatype Episode = Episode(number: string, title: string, imdbId: string, rating: Option<int>)

  /** The rating accessor handed to the generic scans. */
  function Rating(e: Episode): Option<int>
  {
    e.rating
  }

  /** Every parsed rating lies on the provider's 0.0 .. 10.0 scale. */
  ghost predicate WellRated(eps: seq<Episode>)
  {
    forall i :: 0 <= i < |eps| && eps[i].rating.Some? ==> 0 <= eps[i].rating.value <= 100
  }
}
