/**
  The series-wide view of one acquisition: which seasons are stored, the
  episodes of all stored seasons in season-then-list order tagged with their
  season number, where the season loop stops on a throw, and the series best
  and worst computed over everything stored.
 */
module Series {
  import opened Wrappers
  import opened Episodes
  import opened Extrema
  import opened Provider
  import SeasonStats

  /** An episode together with the season it was fetched for. */
  datatype Tagged = Tagged(season: int, ep: Episode)

  function TaggedRating(x: Tagged): Option<int>
  {
    x.ep.rating
  }

  /** A season's episodes, each tagged with the season number. */
  function Tag(s: int, eps: seq<Episode>): seq<Tagged>
  {
    seq(|eps|, i requires 0 <= i < |eps| => Tagged(s, eps[i]))
  }

  /**
    The guard `s <= total` of the season loop, where `total` came from
    `parseInt`: a comparison with NaN is false.
   */
  predicate LoopGuard(s: int, total: Option<int>)
  {
    total.Some? && s <= total.value
  }

  /**
    The number of iterations of the season loop started at 1: an unparsable
    count runs none, and so does a count below 1.
   */
  function SeasonCount(total: Option<int>): (n: nat)
    ensures forall s :: 1 <= s ==> (s <= n <==> LoopGuard(s, total))
  {
    match total
    case None => 0
    case Some(t) => if t < 0 then 0 else t
  }

  /** The season numbers 1 .. k in fetch order. */
  function SeasonNumbers(k: nat): seq<int>
  {
    seq(k, i => i + 1)
  }

  /** The seasons stored after the loop has handled seasons 1 .. k. */
  function Stored(answers: int -> SeasonAnswer, k: int): (m: map<int, seq<Episode>>)
    ensures forall s :: s in m <==> 1 <= s <= k && answers(s).Episodes?
    ensures forall s :: s in m ==> m[s] == answers(s).eps
    decreases k
  {
    if k < 1 then map[]
    else
      var m := Stored(answers, k - 1);
      if answers(k).Episodes? then m[k := answers(k).eps] else m
  }

  /** The episodes of the stored seasons 1 .. k, season by season, in list order. */
  function Entries(answers: int -> SeasonAnswer, k: int): (es: seq<Tagged>)
    ensures forall x :: x in es ==> x.season in Stored(answers, k) && x.ep in Stored(answers, k)[x.season]
    decreases k
  {
    if k < 1 then []
    else
      var prev := Entries(answers, k - 1);
      if answers(k).Episodes? then prev + Tag(k, answers(k).eps) else prev
  }

  /** The first season in 1 .. k whose lookup throws, if any. */
  function ThrowAt(answers: int -> SeasonAnswer, k: int): (r: Option<int>)
    ensures r.None? <==> forall s :: 1 <= s <= k ==> !answers(s).SeasonThrows?
    ensures r.Some? ==> 1 <= r.value <= k && answers(r.value).SeasonThrows?
    ensures r.Some? ==> forall s :: 1 <= s < r.value ==> !answers(s).SeasonThrows?
    decreases k
  {
    if k < 1 then None
    else
      match ThrowAt(answers, k - 1)
      case Some(t) => Some(t)
      case None => if answers(k).SeasonThrows? then Some(k) else None
  }

  /**
    The series best over every episode of the stored seasons 1 .. k; the
    picked episode belongs to the stored list of the season it is tagged with.
   */
  function GlobalBest(answers: int -> SeasonAnswer, k: int): (t: Track<Tagged>)
    ensures t.pick.Some? ==> t.pick.value.season in Stored(answers, k)
    ensures t.pick.Some? ==> t.pick.value.ep in Stored(answers, k)[t.pick.value.season]
    ensures t.pick.Some? ==> t.pick.value.ep.rating == Some(t.bound)
  {
    BestFold(TaggedRating, BestStart(), Entries(answers, k))
  }

  function GlobalWorst(answers: int -> SeasonAnswer, k: int): (t: Track<Tagged>)
    ensures t.pick.Some? ==> t.pick.value.season in Stored(answers, k)
    ensures t.pick.Some? ==> t.pick.value.ep in Stored(answers, k)[t.pick.value.season]
    ensures t.pick.Some? ==> t.pick.value.ep.rating == Some(t.bound)
  {
    WorstFold(TaggedRating, WorstStart(), Entries(answers, k))
  }

  /** Every stored season among 1 .. k has ratings on the 0.0 .. 10.0 scale. */
  ghost predicate StoredWellRated(answers: int -> SeasonAnswer, k: int)
  {
    forall s :: 1 <= s <= k && answers(s).Episodes? ==> WellRated(answers(s).eps)
  }

  /** Every episode of every stored season appears, tagged, among the entries. */
  lemma {:induction false} EntriesCover(answers: int -> SeasonAnswer, k: int, s: int, e: Episode)
    requires s in Stored(answers, k) && e in Stored(answers, k)[s]
    ensures Tagged(s, e) in Entries(answers, k)
    decreases k
  {
    if k >= 1 {
      if s == k {
        var eps := answers(k).eps;
        var i :| 0 <= i < |eps| && eps[i] == e;
        assert Tag(k, eps)[i] == Tagged(s, e);
      } else {
        EntriesCover(answers, k - 1, s, e);
      }
    }
  }

  lemma EntriesWithinSentinels(answers: int -> SeasonAnswer, k: int)
    requires StoredWellRated(answers, k)
    ensures WithinSentinels(TaggedRating, Entries(answers, k))
  {
    var es := Entries(answers, k);
    forall j | 0 <= j < |es| && TaggedRating(es[j]).Some?
      ensures BestSentinel < TaggedRating(es[j]).value < WorstSentinel
    {
      assert es[j] in es;
      var eps := answers(es[j].season).eps;
      var i :| 0 <= i < |eps| && eps[i] == es[j].ep;
    }
  }

  /**
    Folding season k's episodes into the extrema of seasons 1 .. k-1 gives
    the extrema of seasons 1 .. k: the incremental fold the page runs as each
    season arrives equals the batch computation over all stored episodes.
   */
  lemma GlobalExtremaExtend(answers: int -> SeasonAnswer, k: int)
    requires k >= 1
    ensures answers(k).Episodes? ==>
              GlobalBest(answers, k) == BestFold(TaggedRating, GlobalBest(answers, k - 1), Tag(k, answers(k).eps))
              && GlobalWorst(answers, k) == WorstFold(TaggedRating, GlobalWorst(answers, k - 1), Tag(k, answers(k).eps))
    ensures !answers(k).Episodes? ==>
              GlobalBest(answers, k) == GlobalBest(answers, k - 1) && GlobalWorst(answers, k) == GlobalWorst(answers, k - 1)
  {
    if answers(k).Episodes? {
      var prev := Entries(answers, k - 1);
      var tagged := Tag(k, answers(k).eps);
      BestFoldConcat(TaggedRating, BestStart(), prev, tagged);
      WorstFoldConcat(TaggedRating, WorstStart(), prev, tagged);
    }
  }

  /**
    On well-rated seasons the series best is absent exactly when no stored
    episode has a parsed rating, and otherwise is the first entry, in
    season-then-list order, whose rating no other entry exceeds.
   */
  lemma GlobalBestIsFirstMax(answers: int -> SeasonAnswer, k: int)
    requires StoredWellRated(answers, k)
    ensures GlobalBest(answers, k).pick.None? <==> NoneRated(TaggedRating, Entries(answers, k))
    ensures !NoneRated(TaggedRating, Entries(answers, k)) ==> exists i :: IsFirstMax(TaggedRating, Entries(answers, k), i)
    ensures forall i :: IsFirstMax(TaggedRating, Entries(answers, k), i) ==>
              GlobalBest(answers, k).pick == Some(Entries(answers, k)[i])
  {
    EntriesWithinSentinels(answers, k);
    BestIsFirstMax(TaggedRating, Entries(answers, k));
  }

  lemma GlobalWorstIsFirstMin(answers: int -> SeasonAnswer, k: int)
    requires StoredWellRated(answers, k)
    ensures GlobalWorst(answers, k).pick.None? <==> NoneRated(TaggedRating, Entries(answers, k))
    ensures !NoneRated(TaggedRating, Entries(answers, k)) ==> exists i :: IsFirstMin(TaggedRating, Entries(answers, k), i)
    ensures forall i :: IsFirstMin(TaggedRating, Entries(answers, k), i) ==>
              GlobalWorst(answers, k).pick == Some(Entries(answers, k)[i])
  {
    EntriesWithinSentinels(answers, k);
    WorstIsFirstMin(TaggedRating, Entries(answers, k));
  }

  /**
    Whatever the ratings, the series best is present whenever some stored
    season has a best, and its rating is at least that season's best rating;
    symmetrically for the worst.
   */
  lemma GlobalDominatesSeasons(answers: int -> SeasonAnswer, k: int, s: int)
    requires s in Stored(answers, k)
    ensures SeasonStats.SeasonBest(Stored(answers, k)[s]).Some? ==>
              GlobalBest(answers, k).pick.Some?
              && SeasonStats.SeasonBest(Stored(answers, k)[s]).value.rating <= GlobalBest(answers, k).bound
    ensures SeasonStats.SeasonWorst(Stored(answers, k)[s]).Some? ==>
              GlobalWorst(answers, k).pick.Some?
              && GlobalWorst(answers, k).bound <= SeasonStats.SeasonWorst(Stored(answers, k)[s]).value.rating
  {
    var eps := Stored(answers, k)[s];
    var best := SeasonStats.SeasonBest(eps);
    if best.Some? {
      EntriesCover(answers, k, s, best.value.ep);
      BestBoundsAll(TaggedRating, Entries(answers, k), Tagged(s, best.value.ep));
    }
    var worst := SeasonStats.SeasonWorst(eps);
    if worst.Some? {
      EntriesCover(answers, k, s, worst.value.ep);
      WorstBoundsAll(TaggedRating, Entries(answers, k), Tagged(s, worst.value.ep));
    }
  }
}
