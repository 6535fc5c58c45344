/**
  The metadata provider, as an oracle. The page issues a title lookup and then
  one lookup per season; each answer is either the decoded response or a
  throw (network failure or a body that is not JSON).
 */
module Provider {
  import opened Wrappers
  import opened Episodes

  /**
    A title lookup's decoded body: its `Type`, its `Title` and its
    `totalSeasons` after `parseInt` (None stands for NaN).
   */
  datatype SeriesRecord = SeriesRecord(kind: string, title: string, totalSeasons: Option<int>)

  datatype SeriesAnswer = Found(rec: SeriesRecord) | LookupThrows

  /**
    A season lookup: a body carrying an `Episodes` array (possibly empty, which
    is still truthy), a body without one, or a throw.
   */
  datatype SeasonAnswer = Episodes(eps: seq<Episode>) | NoEpisodes | SeasonThrows

  /** What the provider answers for one title: the lookup, then each season by number. */
  datatype Oracle = Oracle(lookup: SeriesAnswer, season: int -> SeasonAnswer)

  /** The lookup is accepted only when its `Type` is exactly "series". */
  predicate IsSeries(a: SeriesAnswer)
  {
    a.Found? && a.rec.kind == "series"
  }
}
