# Series ratings: rating aggregation model

A Dafny model of the rating logic of the single-page "Series Ratings" client
(`app/page.tsx`). The page looks a title up at a metadata provider, fetches the
series season by season, and shows for each season the average rating and the
best and worst episode, and for the whole series the best and worst episode.
Recent searches are kept in a short history list.

The model covers:

- **Season statistics** (`SeasonStats`): the average of the parsed ratings
  ("N/A" when there are none) and the best and worst episode. Both come from a
  linear scan that starts at a sentinel (-1.0 / 11.0) and uses strict `>` / `<`,
  so the first of several equal ratings wins.
- **The scan itself** (`Extrema`): generic over the scanned item. It is shown to
  pick the first maximum (minimum). Feeding items in batches gives the same
  result as one pass.
- **The series fold** (`Series`): seasons `1 .. totalSeasons` in order. It
  defines the stored season map, the tagged episode list in season-then-list
  order, the first throwing season, and the series best and worst.
- **The acquisition** (`Acquisition.FetchSeries`): the control shape of
  `fetchSeries`. All state is reset first. Then the `Type === "series"` gate,
  the `parseInt` loop bound (NaN runs no iteration) and the storing of seasons
  that have `Episodes`. Any throw ends in `catch`. The extrema are published
  and the history updated only after the loop.
- **The history** (`History`): a title already listed leaves the list
  unchanged. A new title is prepended and the list cut to 10. Clearing
  empties it.
- **Tile colours** (`Color`): the step function with thresholds 9.0, 8.5,
  8.0, 7.5, 7.0 and 6.0.

Ratings are `Option<int>` in tenths of a point (7.5 is 75). `None` is a rating
that does not parse. The provider is an oracle (`Provider.Oracle`). It gives the
title lookup's answer and, for each season number, `Episodes(list)`,
`NoEpisodes` or `SeasonThrows`.

A `totalSeasons` that does not parse compares false with every season number,
so the loop runs no iteration and the series shows no seasons.

The model follows the code as written:

- Recording an already-listed title does not move it to the front. The list is
  left as it is.
- A throwing season lookup is not skipped. It ends the whole acquisition in the
  `catch` branch: the series best and worst stay unset and the history is not
  updated. Seasons stored before the throw remain.
- There is no discarding of responses from an earlier, superseded acquisition.

## Model

| member | source | states |
|---|---|---|
| Extrema.BestFold | app/page.tsx:107-118 | the best scan either keeps its starting state or ends on an item of the list whose parsed rating is its bound, strictly above the starting bound |
| Extrema.WorstFold | app/page.tsx:120-131 | mirror of BestFold: the bound only strictly falls, and the pick is a list item carrying that rating |
| Extrema.BestFoldKeeps | app/page.tsx:110-116 | from any starting bound, when nothing is rated strictly above it the scan leaves bound and pick as they were |
| Extrema.WorstFoldKeeps | app/page.tsx:123-129 | when nothing is rated strictly below the starting bound the worst scan leaves its state as it was |
| Extrema.BestFoldFinds | app/page.tsx:107-118 | from any starting bound, when item i is the first item rated above the bound that no other above-bound rating exceeds, the scan ends on item i with its rating |
| Extrema.WorstFoldFinds | app/page.tsx:120-131 | mirror of BestFoldFinds for the worst scan: it ends on the first minimum below the starting bound |
| Extrema.FirstMaxExists | app/page.tsx:110-116 | whenever some item is rated above a bound, a first maximum above that bound exists, so BestFoldFinds always applies |
| Extrema.FirstMinExists | app/page.tsx:123-129 | whenever some item is rated below a bound, a first minimum below that bound exists |
| Extrema.BestIsFirstMax | app/page.tsx:107-118 | from the -1.0 sentinel, on ratings inside the sentinels: no pick exactly when nothing is rated; otherwise a first maximum exists and the scan ends on it with its rating |
| Extrema.WorstIsFirstMin | app/page.tsx:120-131 | from the 11.0 sentinel: no pick exactly when nothing is rated; otherwise a first minimum exists and the scan ends on it with its rating |
| Extrema.BestBoundsAll | app/page.tsx:110-116 | any item rated above the sentinel forces a pick whose bound is at least that item's rating |
| Extrema.WorstBoundsAll | app/page.tsx:123-129 | any item rated below the 11.0 sentinel forces a pick whose bound is at most that item's rating |
| Extrema.BestFoldConcat | app/page.tsx:62-81 | scanning `xs + ys` in one pass equals scanning `xs` and then continuing with `ys` |
| Extrema.WorstFoldConcat | app/page.tsx:62-81 | the same batch/incremental equivalence for the worst scan |
| Extrema.BestFoldSnoc | app/page.tsx:67-73 | extending the scanned list by one item is one more comparison step |
| Extrema.WorstFoldSnoc | app/page.tsx:67-77 | extending the scanned list by one item is one more worst-comparison step |
| SeasonStats.RatedValues | app/page.tsx:103 | the parsed ratings: no longer than the list, empty exactly when nothing parses, each one the rating of some episode (the full filter property is RatedValuesAreFiltered) |
| SeasonStats.RatedIndices | app/page.tsx:103 | the positions kept by the `isNaN` filter: strictly increasing, each one a rated episode, and every rated episode's position among them |
| SeasonStats.RatedValuesAreFiltered | app/page.tsx:103 | the parsed ratings are, in order, exactly the ratings at the rated positions: one value per rated episode, none for an unrated one |
| SeasonStats.RatedValuesKeepsEvery | app/page.tsx:103 | every episode whose rating parses contributes its rating to the averaged values |
| SeasonStats.SeasonAvg | app/page.tsx:102-105 | the average is "N/A" exactly when no episode has a parsed rating |
| SeasonStats.SeasonAvgWithin | app/page.tsx:103-104 | if every parsed rating lies in [lo, hi], so does the average, hence it lies between the smallest and largest parsed rating |
| SeasonStats.SeasonAvgOnScale | app/page.tsx:103-104 | with ratings on the 0.0..10.0 scale the average is on that scale too |
| SeasonStats.SeasonAvgIgnoresUnrated | app/page.tsx:103 | inserting an unrated episode anywhere leaves the average unchanged |
| SeasonStats.SeasonBest | app/page.tsx:107-118 | a season best is an episode of the season whose parsed rating is the reported rating, above -1.0 |
| SeasonStats.SeasonWorst | app/page.tsx:120-131 | a season worst is an episode of the season whose parsed rating is the reported rating, below 11.0 |
| SeasonStats.SeasonBestIsFirstMax | app/page.tsx:107-118 | on-scale ratings: no best exactly when nothing parses, else the first episode whose rating no parsed rating exceeds |
| SeasonStats.SeasonWorstIsFirstMin | app/page.tsx:120-131 | on-scale ratings: no worst exactly when nothing parses, else the first episode whose rating no parsed rating undercuts |
| SeasonStats.SeasonBestNotBelowWorst | app/page.tsx:107-131 | on-scale ratings: best and worst are present together and the worst rating is at most the best |
| Series.SeasonCount | app/page.tsx:57-62 | the loop from 1 runs exactly as many iterations as `s <= parseInt(totalSeasons)` allows, none for NaN |
| Series.Stored | app/page.tsx:62-66 | the stored keys are exactly the seasons 1..k whose answer had `Episodes`, each holding that answer's list |
| Series.Entries | app/page.tsx:62-67 | every folded episode belongs to the stored list of the season it is tagged with |
| Series.ThrowAt | app/page.tsx:62-64 | the first season in 1..k whose lookup throws, or none exactly when no season in 1..k throws |
| Series.GlobalBest | app/page.tsx:58-81 | the series best, when present, is an episode of the stored list of its tagged season, carrying the reported rating |
| Series.GlobalWorst | app/page.tsx:58-81 | the series worst, when present, is an episode of the stored list of its tagged season, carrying the reported rating |
| Series.EntriesCover | app/page.tsx:65-67 | every episode of every stored season is folded, tagged with its season |
| Series.GlobalExtremaExtend | app/page.tsx:62-81 | folding season k into the extrema of seasons 1..k-1 gives the extrema over all stored episodes of 1..k |
| Series.GlobalBestIsFirstMax | app/page.tsx:58-81 | on-scale ratings: the series best is absent exactly when nothing parses, else the first maximum in season-then-list order |
| Series.GlobalWorstIsFirstMin | app/page.tsx:58-81 | on-scale ratings: the series worst is absent exactly when nothing parses, else the first minimum in season-then-list order |
| Series.GlobalDominatesSeasons | app/page.tsx:62-79 | the series best rating is at least every stored season's best rating, and the series worst at most every season's worst |
| History.Record | app/page.tsx:84 | the title is in the result, nothing but the title and old entries are, and a list of at most 10 stays at most 10 |
| History.RecordKeepsListed | app/page.tsx:84 | recording an already-listed title leaves the list unchanged, order included |
| History.RecordPrepends | app/page.tsx:84 | a new title is first, followed by the old list in order, cut to 10 entries |
| History.RecordKeepsDistinct | app/page.tsx:84 | a duplicate-free history stays duplicate-free |
| History.RecordTwice | app/page.tsx:84 | recording the same title twice in a row equals recording it once |
| History.RecordAllNewest | app/page.tsx:84 | from an empty list, distinct searches leave the ten most recent titles, newest first |
| History.ClearThenSearches | app/page.tsx:90 | after clearing, distinct searches leave exactly the ten most recent of them, newest first: nothing from before the clear survives |
| History.ClearThenRecord | app/page.tsx:90 | after clearing, one search leaves exactly that title |
| Acquisition.FoldSeason | app/page.tsx:67-79 | the per-episode loop over one season ends in the scan of that season's tagged episodes, continued from the running extrema |
| Acquisition.SeasonLoop | app/page.tsx:62-81 | seasons are requested 1, 2, .. in order; without a throw every season up to the count is requested, exactly those with `Episodes` are stored and the extrema equal the batch scan over all stored episodes; a throw stops the loop at the first throwing season with the earlier seasons stored |
| Acquisition.FetchSeries | app/page.tsx:45-88 | a non-series lookup fetches no season and leaves reset state. A series fetches seasons 1..n in order. With no throw it stores exactly the seasons with `Episodes`, publishes the batch extrema and records the title. On a throw it stops there, publishes no extrema and keeps the history |
| Color.ColorOf | app/page.tsx:92-100 | the band's floor is at most the rating and the next band's floor is above it |
| Color.ColorMonotone | app/page.tsx:92-100 | a higher rating never maps to a lower band |
| Color.ColorBands | app/page.tsx:92-100 | each band holds exactly the ratings from its threshold up to the next threshold, red below 6.0 |
| Scenario.FirstSeasonStats | app/page.tsx:102-131 | ratings 7.5 and 9.0 average 8.25, with the 9.0 episode best and the 7.5 episode worst |
| Scenario.SecondSeasonStats | app/page.tsx:102-131 | ratings N/A and 6.0 average 6.0, with the 6.0 episode both best and worst |
| Scenario.TwoSeasonEntries | app/page.tsx:62-67 | two seasons with episodes are both stored and folded season by season |
| Scenario.TwoSeasonBest | app/page.tsx:58-81 | in that series the best is the 9.0 episode of season 1 |
| Scenario.TwoSeasonWorst | app/page.tsx:58-81 | in that series the worst is the 6.0 episode of season 2 |
| Scenario.FirstOfEqualRatingsWins | app/page.tsx:107-131 | of two episodes rated 8.0, the first listed is both best and worst |

## Left out

- Rendering (app/page.tsx:133-264): markup and highlight badges. The `imdbID` comparisons that place the badges are presentation only.
- The suggestion effect (app/page.tsx:32-43): the debounce timer, its cancellation and the suggestion fetch are timer and event-loop behaviour. The model only keeps `fetchSeries` clearing the suggestions.
- History persistence (app/page.tsx:23-30): browser storage and `JSON.parse` are I/O. The model starts from whatever history the page holds.
- Network and JSON decoding (app/page.tsx:38-40, 53-54, 63-64): replaced by the `Provider.Oracle` answers. The season lookup is keyed by season number only, since the series title is fixed within one acquisition.
- Number parsing and formatting: `parseFloat`, `parseInt` and `toFixed` are not modelled. A rating is an already-parsed `Option<int>` in tenths, `totalSeasons` an `Option<int>` with None for NaN, and the average an exact `real` in tenths rather than a two-decimal string.
- Floating point: integer tenths are exact for the provider's one-decimal ratings, so the comparisons in the scans and in `getColor` are modelled exactly only for such ratings.
- React behaviour: state-setter batching, the `loading` spinner's display, `alert("Error")` and the stale `history` captured by the callback. Within one acquisition the captured history is the history at its start, which is what the model uses.
- Overlapping acquisitions: the code has no guard against a superseded acquisition's late responses, so there is no behaviour to verify. The model covers one acquisition at a time.
- SeasonStats.SeasonBestIsFirstMax: stated for ratings on the 0.0..10.0 scale. For ratings outside the sentinels, Extrema.BestFoldFinds and Extrema.FirstMaxExists state what the scan does: a rating at or below -1.0 is never picked.
- SeasonStats.SeasonWorstIsFirstMin: stated for ratings on the 0.0..10.0 scale. Extrema.WorstFoldFinds and Extrema.FirstMinExists cover the rest: a rating at or above 11.0 is never picked.
- Series.GlobalBestIsFirstMax: stated for on-scale ratings. Series.GlobalDominatesSeasons and Extrema.BestFoldFinds hold for all ratings.
- Series.GlobalWorstIsFirstMin: stated for on-scale ratings, like GlobalBestIsFirstMax.
