/**
  One acquisition: what a search for a title does to the page state. Every
  piece of result state is reset first; a lookup whose `Type` is not "series"
  stops there; otherwise seasons 1 .. totalSeasons are fetched one after
  another, each season with an `Episodes` array is stored and folded into the
  running series best and worst, and only when the loop completes are the
  extrema published and the title recorded in the history. A throw anywhere
  ends the acquisition in the catch branch.
 */
module Acquisition {
  import opened Wrappers
  import opened Episodes
  import opened Extrema
  import opened Provider
  import opened Series
  import History

  /** The component state that an acquisition reads or writes. */
  datatype Page = Page(
    series: Option<SeriesRecord>,
    seasons: map<int, seq<Episode>>,
    loading: bool,
    history: seq<string>,
    suggestions: seq<string>,
    globalBest: Option<Tagged>,
    globalWorst: Option<Tagged>)

  /** How an acquisition ended: loop completed, lookup not a series, or the catch branch. */
  datatype Outcome = Done | NotSeries | Failed

  /** The state right after the resets that open an acquisition. */
  function Reset(page: Page): Page
  {
    page.(loading := true, series := None, seasons := map[], globalBest := None, globalWorst := None, suggestions := [])
  }

  /**
    The `forEach` over one stored season: every episode with a parsed rating
    strictly above the best bound or strictly below the worst bound takes
    over that pick, tagged with the season number.
   */
  method FoldSeason(s: int, eps: seq<Episode>, best0: Track<Tagged>, worst0: Track<Tagged>)
    returns (best: Track<Tagged>, worst: Track<Tagged>)
    ensures best == BestFold(TaggedRating, best0, Tag(s, eps))
    ensures worst == WorstFold(TaggedRating, worst0, Tag(s, eps))
  {
    best, worst := best0, worst0;
    var i := 0;
    while i < |eps|
      invariant 0 <= i <= |eps|
      invariant best == BestFold(TaggedRating, best0, Tag(s, eps[..i]))
      invariant worst == WorstFold(TaggedRating, worst0, Tag(s, eps[..i]))
    {
      var x := Tagged(s, eps[i]);
      assert Tag(s, eps[..i + 1]) == Tag(s, eps[..i]) + [x];
      BestFoldSnoc(TaggedRating, best0, Tag(s, eps[..i]), x);
      WorstFoldSnoc(TaggedRating, worst0, Tag(s, eps[..i]), x);
      match eps[i].rating {
        case None =>
        case Some(v) =>
          if v > best.bound {
            best := Track(v, Some(x));
          }
          if v < worst.bound {
            worst := Track(v, Some(x));
          }
      }
      i := i + 1;
    }
    assert eps[..|eps|] == eps;
  }

  /**
    The season loop: seasons 1, 2, .. are requested while `s <= totalSeasons`
    holds. Each season whose answer has `Episodes` is stored and folded into
    the running extrema. The first throw stops the loop.
   */
  method SeasonLoop(total: Option<int>, answers: int -> SeasonAnswer)
    returns (seasons: map<int, seq<Episode>>, best: Track<Tagged>, worst: Track<Tagged>, fetched: seq<int>, threw: bool)
    ensures threw <==> ThrowAt(answers, SeasonCount(total)).Some?
    ensures !threw ==>
              var n := SeasonCount(total);
              && fetched == SeasonNumbers(n)
              && seasons == Stored(answers, n)
              && best == GlobalBest(answers, n)
              && worst == GlobalWorst(answers, n)
    ensures threw ==>
              var t := ThrowAt(answers, SeasonCount(total)).value;
              fetched == SeasonNumbers(t) && seasons == Stored(answers, t - 1)
  {
    ghost var n := SeasonCount(total);
    seasons := map[];
    best, worst := BestStart(), WorstStart();
    fetched := [];
    threw := false;
    var s := 1;
    while LoopGuard(s, total)
      invariant 1 <= s <= n + 1
      invariant ThrowAt(answers, s - 1).None?
      invariant fetched == SeasonNumbers(s - 1)
      invariant seasons == Stored(answers, s - 1)
      invariant best == GlobalBest(answers, s - 1)
      invariant worst == GlobalWorst(answers, s - 1)
      decreases n + 1 - s
    {
      fetched := fetched + [s];
      assert fetched == SeasonNumbers(s);
      match answers(s) {
        case SeasonThrows =>
          threw := true;
          return;
        case NoEpisodes =>
        case Episodes(eps) =>
          seasons := seasons[s := eps];
          GlobalExtremaExtend(answers, s);
          best, worst := FoldSeason(s, eps, best, worst);
      }
      s := s + 1;
    }
  }

  /**
    A search for `title` against the provider's answers. `fetched` lists the
    season numbers requested, in order.
   */
  method FetchSeries(page: Page, title: string, provider: Oracle) returns (r: Page, outcome: Outcome, fetched: seq<int>)
    ensures !r.loading && r.suggestions == []
    ensures outcome == NotSeries <==> provider.lookup.Found? && !IsSeries(provider.lookup)
    ensures provider.lookup.LookupThrows? ==> outcome == Failed
    ensures !IsSeries(provider.lookup) ==>
              fetched == [] && r == Reset(page).(loading := false)
    ensures IsSeries(provider.lookup) ==>
              var n := SeasonCount(provider.lookup.rec.totalSeasons);
              && r.series == Some(provider.lookup.rec)
              && (ThrowAt(provider.season, n).None? ==>
                    && outcome == Done
                    && fetched == SeasonNumbers(n)
                    && r.seasons == Stored(provider.season, n)
                    && r.globalBest == GlobalBest(provider.season, n).pick
                    && r.globalWorst == GlobalWorst(provider.season, n).pick
                    && r.history == History.Record(page.history, title))
              && (ThrowAt(provider.season, n).Some? ==>
                    var t := ThrowAt(provider.season, n).value;
                    && outcome == Failed
                    && fetched == SeasonNumbers(t)
                    && r.seasons == Stored(provider.season, t - 1)
                    && r.globalBest.None? && r.globalWorst.None?
                    && r.history == page.history)
  {
    r := Reset(page);
    fetched := [];
    match provider.lookup {
      case LookupThrows =>
        outcome := Failed;
      case Found(rec) =>
        if rec.kind != "series" {
          outcome := NotSeries;
        } else {
          r := r.(series := Some(rec));
          var seasons, best, worst, threw;
          seasons, best, worst, fetched, threw := SeasonLoop(rec.totalSeasons, provider.season);
          r := r.(seasons := seasons);
          if threw {
            outcome := Failed;
            r := r.(loading := false);
            return;
          }
          r := r.(globalBest := best.pick, globalWorst := worst.pick);
          r := r.(history := History.Record(page.history, title));
          outcome := Done;
        }
    }
    r := r.(loading := false);
  }
}
