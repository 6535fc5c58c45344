/**
  The tile colour of a parsed rating (in tenths): a step function with
  thresholds 9.0, 8.5, 8.0, 7.5, 7.0 and 6.0, red below 6.0.
 */
module Color {

  datatype Band = Green600 | Green500 | Green400 | Yellow500 | Yellow600 | Orange600 | Red600

  /** Bands ordered from the lowest (red) to the highest (dark green). */
  function Rank(b: Band): nat
  {
    match b
    case Red600 => 0
    case Orange600 => 1
    case Yellow600 => 2
    case Yellow500 => 3
    case Green400 => 4
    case Green500 => 5
    case Green600 => 6
  }

  /**
    The smallest rating of a band. Red has no lower threshold; its entry is
    a placeholder that no contract consults.
   */
  function Floor(b: Band): int
  {
    match b
    case Green600 => 90
    case Green500 => 85
    case Green400 => 80
    case Yellow500 => 75
    case Yellow600 => 70
    case Orange600 => 60
    case Red600 => 0
  }

  /** The band whose rank is one higher, when there is one. */
  function Next(b: Band): Band
    requires b != Green600
  {
    match b
    case Red600 => Orange600
    case Orange600 => Yellow600
    case Yellow600 => Yellow500
    case Yellow500 => Green400
    case Green400 => Green500
    case Green500 => Green600
  }

  /** The colour of a tile rated `r` tenths. */
  function ColorOf(r: int): (b: Band)
    ensures b != Red600 ==> Floor(b) <= r
    ensures b != Green600 ==> r < Floor(Next(b))
  {
    if r >= 90 then Green600
    else if r >= 85 then Green500
    else if r >= 80 then Green400
    else if r >= 75 then Yellow500
    else if r >= 70 then Yellow600
    else if r >= 60 then Orange600
    else Red600
  }

  /** A higher rating never lands in a lower band. */
  lemma ColorMonotone(a: int, b: int)
    requires a <= b
    ensures Rank(ColorOf(a)) <= Rank(ColorOf(b))
  {
  }

  /** Each band is exactly the ratings from its floor up to the next band's floor. */
  lemma ColorBands(r: int, b: Band)
    ensures ColorOf(r) == b <==>
              (b == Red600 || Floor(b) <= r) && (b == Green600 || r < Floor(Next(b)))
  {
  }
}
