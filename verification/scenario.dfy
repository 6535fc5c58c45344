/**
  Worked examples: a two-season series with one unrated episode, and a tie
  between two equally rated episodes.
 */
module Scenario {
  import opened Wrappers
  import opened Episodes
  import opened Extrema
  import opened Provider
  import opened Series
  import opened SeasonStats

  const E1 := Episode("1", "Pilot", "id1", Some(75))
  const E2 := Episode("2", "Second", "id2", Some(90))
  const E3 := Episode("1", "Return", "id3", None)
  const E4 := Episode("2", "Finale", "id4", Some(60))

  function TwoSeasons(s: int): SeasonAnswer
  {
    if s == 1 then Episodes([E1, E2])
    else if s == 2 then Episodes([E3, E4])
    else NoEpisodes
  }

  /** Season 1 (7.5, 9.0) averages 8.25, with best id2 and worst id1. */
  lemma FirstSeasonStats()
    ensures SeasonAvg([E1, E2]) == Mean(82.5)
    ensures SeasonBest([E1, E2]) == Some(Pick(E2, 90))
    ensures SeasonWorst([E1, E2]) == Some(Pick(E1, 75))
  {
    assert [E1, E2][1..] == [E2];
    assert [E2][1..] == [];
    assert RatedValues([E1, E2]) == [75, 90];
    var b1 := BestStep(Rating, BestStart(), E1);
    assert b1 == Track(75, Some(E1));
    assert BestFold(Rating, BestStart(), [E1, E2]) == BestFold(Rating, b1, [E2]);
    assert BestFold(Rating, b1, [E2]) == BestFold(Rating, BestStep(Rating, b1, E2), []);
    var w1 := WorstStep(Rating, WorstStart(), E1);
    assert w1 == Track(75, Some(E1));
    assert WorstFold(Rating, WorstStart(), [E1, E2]) == WorstFold(Rating, w1, [E2]);
    assert WorstFold(Rating, w1, [E2]) == WorstFold(Rating, WorstStep(Rating, w1, E2), []);
    assert Sum([75, 90]) == 165 by {
      assert [75, 90][1..] == [90];
      assert [90][1..] == [];
    }
  }

  /** Season 2 (N/A, 6.0) averages 6.0, with id4 as both best and worst. */
  lemma SecondSeasonStats()
    ensures SeasonAvg([E3, E4]) == Mean(60.0)
    ensures SeasonBest([E3, E4]) == Some(Pick(E4, 60))
    ensures SeasonWorst([E3, E4]) == Some(Pick(E4, 60))
  {
    assert [E3, E4][1..] == [E4];
    assert [E4][1..] == [];
    assert RatedValues([E3, E4]) == [60];
    assert BestFold(Rating, BestStart(), [E3, E4]) == BestFold(Rating, BestStart(), [E4]);
    assert BestFold(Rating, BestStart(), [E4]) == BestFold(Rating, Track(60, Some(E4)), []);
    assert WorstFold(Rating, WorstStart(), [E3, E4]) == WorstFold(Rating, WorstStart(), [E4]);
    assert WorstFold(Rating, WorstStart(), [E4]) == WorstFold(Rating, Track(60, Some(E4)), []);
    assert Sum([60]) == 60 by {
      assert [60][1..] == [];
    }
  }

  /** Both seasons are stored, in order, and no season lookup throws. */
  lemma TwoSeasonEntries()
    ensures ThrowAt(TwoSeasons, 2).None?
    ensures Stored(TwoSeasons, 2) == map[1 := [E1, E2], 2 := [E3, E4]]
    ensures Entries(TwoSeasons, 2) == [Tagged(1, E1), Tagged(1, E2)] + [Tagged(2, E3), Tagged(2, E4)]
  {
    assert Entries(TwoSeasons, 0) == [];
    assert Tag(1, [E1, E2]) == [Tagged(1, E1), Tagged(1, E2)];
    assert Tag(2, [E3, E4]) == [Tagged(2, E3), Tagged(2, E4)];
  }

  /** The series best is id2 of season 1. */
  lemma TwoSeasonBest()
    ensures GlobalBest(TwoSeasons, 2).pick == Some(Tagged(1, E2))
  {
    var first := [Tagged(1, E1), Tagged(1, E2)];
    var second := [Tagged(2, E3), Tagged(2, E4)];
    TwoSeasonEntries();
    BestFoldConcat(TaggedRating, BestStart(), first, second);
    var b1 := Track(75, Some(Tagged(1, E1)));
    var b2 := Track(90, Some(Tagged(1, E2)));
    assert BestFold(TaggedRating, BestStart(), first) == BestFold(TaggedRating, b1, first[1..]);
    assert first[1..] == [Tagged(1, E2)];
    assert BestFold(TaggedRating, b1, [Tagged(1, E2)]) == BestFold(TaggedRating, b2, []);
    assert BestFold(TaggedRating, b2, second) == BestFold(TaggedRating, b2, second[1..]);
    assert second[1..] == [Tagged(2, E4)];
    assert BestFold(TaggedRating, b2, [Tagged(2, E4)]) == BestFold(TaggedRating, b2, []);
  }

  /** The series worst is id4 of season 2. */
  lemma TwoSeasonWorst()
    ensures GlobalWorst(TwoSeasons, 2).pick == Some(Tagged(2, E4))
  {
    var first := [Tagged(1, E1), Tagged(1, E2)];
    var second := [Tagged(2, E3), Tagged(2, E4)];
    TwoSeasonEntries();
    WorstFoldConcat(TaggedRating, WorstStart(), first, second);
    var w1 := Track(75, Some(Tagged(1, E1)));
    var w2 := Track(60, Some(Tagged(2, E4)));
    assert WorstFold(TaggedRating, WorstStart(), first) == WorstFold(TaggedRating, w1, first[1..]);
    assert first[1..] == [Tagged(1, E2)];
    assert WorstFold(TaggedRating, w1, [Tagged(1, E2)]) == WorstFold(TaggedRating, w1, []);
    assert WorstFold(TaggedRating, w1, second) == WorstFold(TaggedRating, w1, second[1..]);
    assert second[1..] == [Tagged(2, E4)];
    assert WorstFold(TaggedRating, w1, [Tagged(2, E4)]) == WorstFold(TaggedRating, w2, []);
  }

  /** Of two episodes rated 8.0, the first listed is both best and worst. */
  lemma FirstOfEqualRatingsWins(a: Episode, b: Episode)
    requires a.rating == Some(80) && b.rating == Some(80)
    ensures SeasonBest([a, b]) == Some(Pick(a, 80))
    ensures SeasonWorst([a, b]) == Some(Pick(a, 80))
  {
    assert [a, b][1..] == [b];
    assert [b][1..] == [];
  }
}
