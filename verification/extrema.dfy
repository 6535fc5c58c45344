/**
  The strict-comparison scans behind every "best" and "worst" of the page.

  A scan keeps a bound (the best or worst rating seen so far, starting from a
  sentinel) and the item that set it. An item with a parsed rating replaces the
  pick only when its rating is strictly above (best) or strictly below (worst)
  the bound, so the first of several equal ratings wins. The scans are generic
  in the item type: a season scan walks episodes, the series scan walks
  episodes tagged with their season number.
 */
module Extrema {
  import opened Wrappers

  /** The sentinels -1.0 and 11.0, in tenths. */
  const BestSentinel: int := -10
  const WorstSentinel: int := 110

  datatype Track<T> = Track(bound: int, pick: Option<T>)

  function BestStart<T>(): Track<T>
  {
    Track(BestSentinel, None)
  }

  function WorstStart<T>(): Track<T>
  {
    Track(WorstSentinel, None)
  }

  predicate Above<T>(rate: T -> Option<int>, x: T, b: int)
  {
    rate(x).Some? && rate(x).value > b
  }

  predicate Below<T>(rate: T -> Option<int>, x: T, b: int)
  {
    rate(x).Some? && rate(x).value < b
  }

  /** One iteration of the best scan. */
  function BestStep<T>(rate: T -> Option<int>, t: Track<T>, x: T): Track<T>
  {
    if Above(rate, x, t.bound) then Track(rate(x).value, Some(x)) else t
  }

  /** One iteration of the worst scan. */
  function WorstStep<T>(rate: T -> Option<int>, t: Track<T>, x: T): Track<T>
  {
    if Below(rate, x, t.bound) then Track(rate(x).value, Some(x)) else t
  }

  /** The best scan over `xs` in list order, continuing from `t`. */
  function BestFold<T>(rate: T -> Option<int>, t: Track<T>, xs: seq<T>): (r: Track<T>)
    ensures r == t || (r.bound > t.bound && r.pick.Some? && r.pick.value in xs && rate(r.pick.value) == Some(r.bound))
    decreases |xs|
  {
    if |xs| == 0 then t else BestFold(rate, BestStep(rate, t, xs[0]), xs[1..])
  }

  /** The worst scan over `xs` in list order, continuing from `t`. */
  function WorstFold<T>(rate: T -> Option<int>, t: Track<T>, xs: seq<T>): (r: Track<T>)
    ensures r == t || (r.bound < t.bound && r.pick.Some? && r.pick.value in xs && rate(r.pick.value) == Some(r.bound))
    decreases |xs|
  {
    if |xs| == 0 then t else WorstFold(rate, WorstStep(rate, t, xs[0]), xs[1..])
  }

  /** No item of `xs` has a rating strictly above `b`. */
  ghost predicate NoneAbove<T>(rate: T -> Option<int>, xs: seq<T>, b: int)
  {
    forall j :: 0 <= j < |xs| ==> !Above(rate, xs[j], b)
  }

  ghost predicate NoneBelow<T>(rate: T -> Option<int>, xs: seq<T>, b: int)
  {
    forall j :: 0 <= j < |xs| ==> !Below(rate, xs[j], b)
  }

  /**
    `xs[i]` is the first of the items rated above `b` whose rating is not
    exceeded by any other item rated above `b`.
   */
  ghost predicate FirstMaxAbove<T>(rate: T -> Option<int>, xs: seq<T>, b: int, i: int)
  {
    && 0 <= i < |xs|
    && Above(rate, xs[i], b)
    && (forall j :: 0 <= j < |xs| && Above(rate, xs[j], b) ==> rate(xs[j]).value <= rate(xs[i]).value)
    && (forall j :: 0 <= j < i && Above(rate, xs[j], b) ==> rate(xs[j]).value < rate(xs[i]).value)
  }

  ghost predicate FirstMinBelow<T>(rate: T -> Option<int>, xs: seq<T>, b: int, i: int)
  {
    && 0 <= i < |xs|
    && Below(rate, xs[i], b)
    && (forall j :: 0 <= j < |xs| && Below(rate, xs[j], b) ==> rate(xs[j]).value >= rate(xs[i]).value)
    && (forall j :: 0 <= j < i && Below(rate, xs[j], b) ==> rate(xs[j]).value > rate(xs[i]).value)
  }

  /** Every parsed rating in `xs` lies strictly between the two sentinels. */
  ghost predicate WithinSentinels<T>(rate: T -> Option<int>, xs: seq<T>)
  {
    forall j :: 0 <= j < |xs| && rate(xs[j]).Some? ==> BestSentinel < rate(xs[j]).value < WorstSentinel
  }

  ghost predicate NoneRated<T>(rate: T -> Option<int>, xs: seq<T>)
  {
    forall j :: 0 <= j < |xs| ==> rate(xs[j]).None?
  }

  /**
    `xs[i]` has a parsed rating, no parsed rating in `xs` exceeds it, and every
    parsed rating before it is strictly smaller: the first maximum.
   */
  ghost predicate IsFirstMax<T>(rate: T -> Option<int>, xs: seq<T>, i: int)
  {
    && 0 <= i < |xs|
    && rate(xs[i]).Some?
    && (forall j :: 0 <= j < |xs| && rate(xs[j]).Some? ==> rate(xs[j]).value <= rate(xs[i]).value)
    && (forall j :: 0 <= j < i && rate(xs[j]).Some? ==> rate(xs[j]).value < rate(xs[i]).value)
  }

  ghost predicate IsFirstMin<T>(rate: T -> Option<int>, xs: seq<T>, i: int)
  {
    && 0 <= i < |xs|
    && rate(xs[i]).Some?
    && (forall j :: 0 <= j < |xs| && rate(xs[j]).Some? ==> rate(xs[j]).value >= rate(xs[i]).value)
    && (forall j :: 0 <= j < i && rate(xs[j]).Some? ==> rate(xs[j]).value > rate(xs[i]).value)
  }

  /**
    Nothing rated above the starting bound leaves the best scan's state as it
    was.
   */
  lemma BestFoldKeeps<T>(rate: T -> Option<int>, t: Track<T>, xs: seq<T>)
    requires NoneAbove(rate, xs, t.bound)
    ensures BestFold(rate, t, xs) == t
  {
  }

  lemma WorstFoldKeeps<T>(rate: T -> Option<int>, t: Track<T>, xs: seq<T>)
    requires NoneBelow(rate, xs, t.bound)
    ensures WorstFold(rate, t, xs) == t
  {
  }

  /**
    When `xs[i]` is the first maximum above the starting bound, the best scan
    ends on `xs[i]` with its rating.
   */
  lemma {:induction false} BestFoldFinds<T>(rate: T -> Option<int>, t: Track<T>, xs: seq<T>, i: int)
    requires FirstMaxAbove(rate, xs, t.bound, i)
    ensures BestFold(rate, t, xs) == Track(rate(xs[i]).value, Some(xs[i]))
    decreases |xs|
  {
    var x, rest := xs[0], xs[1..];
    var t' := BestStep(rate, t, x);
    assert BestFold(rate, t, xs) == BestFold(rate, t', rest);
    if i == 0 {
      forall j | 0 <= j < |rest|
        ensures !Above(rate, rest[j], t'.bound)
      {
        assert rest[j] == xs[j + 1];
      }
      BestFoldKeeps(rate, t', rest);
    } else {
      forall j | 0 <= j < |rest| && Above(rate, rest[j], t'.bound)
        ensures Above(rate, rest[j], t.bound)
        ensures rate(rest[j]).value <= rate(xs[i]).value
        ensures j < i - 1 ==> rate(rest[j]).value < rate(xs[i]).value
      {
        assert rest[j] == xs[j + 1];
      }
      assert rest[i - 1] == xs[i];
      BestFoldFinds(rate, t', rest, i - 1);
    }
  }

  lemma {:induction false} WorstFoldFinds<T>(rate: T -> Option<int>, t: Track<T>, xs: seq<T>, i: int)
    requires FirstMinBelow(rate, xs, t.bound, i)
    ensures WorstFold(rate, t, xs) == Track(rate(xs[i]).value, Some(xs[i]))
    decreases |xs|
  {
    var x, rest := xs[0], xs[1..];
    var t' := WorstStep(rate, t, x);
    assert WorstFold(rate, t, xs) == WorstFold(rate, t', rest);
    if i == 0 {
      forall j | 0 <= j < |rest|
        ensures !Below(rate, rest[j], t'.bound)
      {
        assert rest[j] == xs[j + 1];
      }
      WorstFoldKeeps(rate, t', rest);
    } else {
      forall j | 0 <= j < |rest| && Below(rate, rest[j], t'.bound)
        ensures Below(rate, rest[j], t.bound)
        ensures rate(rest[j]).value >= rate(xs[i]).value
        ensures j < i - 1 ==> rate(rest[j]).value > rate(xs[i]).value
      {
        assert rest[j] == xs[j + 1];
      }
      assert rest[i - 1] == xs[i];
      WorstFoldFinds(rate, t', rest, i - 1);
    }
  }

  /** Whenever some item is rated above `b`, a first maximum above `b` exists. */
  lemma {:induction false} FirstMaxExists<T>(rate: T -> Option<int>, xs: seq<T>, b: int)
    requires !NoneAbove(rate, xs, b)
    ensures exists i :: FirstMaxAbove(rate, xs, b, i)
    decreases |xs|
  {
    var x, rest := xs[0], xs[1..];
    if Above(rate, x, b) && NoneAbove(rate, rest, rate(x).value) {
      forall j | 0 <= j < |xs| && Above(rate, xs[j], b)
        ensures rate(xs[j]).value <= rate(x).value
      {
        if j > 0 {
          assert xs[j] == rest[j - 1];
        }
      }
      assert FirstMaxAbove(rate, xs, b, 0);
    } else {
      var b' := if Above(rate, x, b) then rate(x).value else b;
      if !Above(rate, x, b) {
        var j :| 0 <= j < |xs| && Above(rate, xs[j], b);
        assert xs[j] == rest[j - 1];
      }
      FirstMaxExists(rate, rest, b');
      var k :| FirstMaxAbove(rate, rest, b', k);
      var m := rate(rest[k]).value;
      forall j | 0 <= j < |xs| && Above(rate, xs[j], b)
        ensures rate(xs[j]).value <= m
        ensures j < k + 1 ==> rate(xs[j]).value < m
      {
        if j > 0 {
          assert xs[j] == rest[j - 1];
        }
      }
      assert xs[k + 1] == rest[k];
      assert FirstMaxAbove(rate, xs, b, k + 1);
    }
  }

  lemma {:induction false} FirstMinExists<T>(rate: T -> Option<int>, xs: seq<T>, b: int)
    requires !NoneBelow(rate, xs, b)
    ensures exists i :: FirstMinBelow(rate, xs, b, i)
    decreases |xs|
  {
    var x, rest := xs[0], xs[1..];
    if Below(rate, x, b) && NoneBelow(rate, rest, rate(x).value) {
      forall j | 0 <= j < |xs| && Below(rate, xs[j], b)
        ensures rate(xs[j]).value >= rate(x).value
      {
        if j > 0 {
          assert xs[j] == rest[j - 1];
        }
      }
      assert FirstMinBelow(rate, xs, b, 0);
    } else {
      var b' := if Below(rate, x, b) then rate(x).value else b;
      if !Below(rate, x, b) {
        var j :| 0 <= j < |xs| && Below(rate, xs[j], b);
        assert xs[j] == rest[j - 1];
      }
      FirstMinExists(rate, rest, b');
      var k :| FirstMinBelow(rate, rest, b', k);
      var m := rate(rest[k]).value;
      forall j | 0 <= j < |xs| && Below(rate, xs[j], b)
        ensures rate(xs[j]).value >= m
        ensures j < k + 1 ==> rate(xs[j]).value > m
      {
        if j > 0 {
          assert xs[j] == rest[j - 1];
        }
      }
      assert xs[k + 1] == rest[k];
      assert FirstMinBelow(rate, xs, b, k + 1);
    }
  }

  /**
    Started from the sentinel, on ratings inside the sentinels, the best scan
    picks nothing exactly when nothing is rated; a first maximum exists
    whenever something is rated, and the scan ends on it with its rating.
   */
  lemma BestIsFirstMax<T>(rate: T -> Option<int>, xs: seq<T>)
    requires WithinSentinels(rate, xs)
    ensures BestFold(rate, BestStart(), xs).pick.None? <==> NoneRated(rate, xs)
    ensures !NoneRated(rate, xs) ==> exists i :: IsFirstMax(rate, xs, i)
    ensures forall i :: IsFirstMax(rate, xs, i) ==>
              BestFold(rate, BestStart(), xs) == Track(rate(xs[i]).value, Some(xs[i]))
  {
    assert forall j :: 0 <= j < |xs| ==> (Above(rate, xs[j], BestSentinel) <==> rate(xs[j]).Some?);
    assert forall i :: IsFirstMax(rate, xs, i) <==> FirstMaxAbove(rate, xs, BestSentinel, i);
    if NoneRated(rate, xs) {
      BestFoldKeeps(rate, BestStart(), xs);
    } else {
      FirstMaxExists(rate, xs, BestSentinel);
      var i :| FirstMaxAbove(rate, xs, BestSentinel, i);
      BestFoldFinds(rate, BestStart(), xs, i);
      forall k | IsFirstMax(rate, xs, k)
        ensures BestFold(rate, BestStart(), xs) == Track(rate(xs[k]).value, Some(xs[k]))
      {
        FirstMaxUnique(rate, xs, i, k);
      }
    }
  }

  lemma WorstIsFirstMin<T>(rate: T -> Option<int>, xs: seq<T>)
    requires WithinSentinels(rate, xs)
    ensures WorstFold(rate, WorstStart(), xs).pick.None? <==> NoneRated(rate, xs)
    ensures !NoneRated(rate, xs) ==> exists i :: IsFirstMin(rate, xs, i)
    ensures forall i :: IsFirstMin(rate, xs, i) ==>
              WorstFold(rate, WorstStart(), xs) == Track(rate(xs[i]).value, Some(xs[i]))
  {
    assert forall j :: 0 <= j < |xs| ==> (Below(rate, xs[j], WorstSentinel) <==> rate(xs[j]).Some?);
    assert forall i :: IsFirstMin(rate, xs, i) <==> FirstMinBelow(rate, xs, WorstSentinel, i);
    if NoneRated(rate, xs) {
      WorstFoldKeeps(rate, WorstStart(), xs);
    } else {
      FirstMinExists(rate, xs, WorstSentinel);
      var i :| FirstMinBelow(rate, xs, WorstSentinel, i);
      WorstFoldFinds(rate, WorstStart(), xs, i);
      forall k | IsFirstMin(rate, xs, k)
        ensures WorstFold(rate, WorstStart(), xs) == Track(rate(xs[k]).value, Some(xs[k]))
      {
        FirstMinUnique(rate, xs, i, k);
      }
    }
  }

  /** There is at most one first maximum, and at most one first minimum. */
  lemma FirstMaxUnique<T>(rate: T -> Option<int>, xs: seq<T>, i: int, k: int)
    requires FirstMaxAbove(rate, xs, BestSentinel, i) && IsFirstMax(rate, xs, k)
    ensures i == k
  {
  }

  lemma FirstMinUnique<T>(rate: T -> Option<int>, xs: seq<T>, i: int, k: int)
    requires FirstMinBelow(rate, xs, WorstSentinel, i) && IsFirstMin(rate, xs, k)
    ensures i == k
  {
  }

  /**
    Whatever the ratings, every item the best scan can see (rated above the
    sentinel) is matched or beaten by the scan's final bound.
   */
  lemma BestBoundsAll<T>(rate: T -> Option<int>, xs: seq<T>, x: T)
    requires x in xs && Above(rate, x, BestSentinel)
    ensures BestFold(rate, BestStart(), xs).pick.Some?
    ensures rate(x).value <= BestFold(rate, BestStart(), xs).bound
  {
    var j :| 0 <= j < |xs| && xs[j] == x;
    FirstMaxExists(rate, xs, BestSentinel);
    var i :| FirstMaxAbove(rate, xs, BestSentinel, i);
    BestFoldFinds(rate, BestStart(), xs, i);
  }

  lemma WorstBoundsAll<T>(rate: T -> Option<int>, xs: seq<T>, x: T)
    requires x in xs && Below(rate, x, WorstSentinel)
    ensures WorstFold(rate, WorstStart(), xs).pick.Some?
    ensures rate(x).value >= WorstFold(rate, WorstStart(), xs).bound
  {
    var j :| 0 <= j < |xs| && xs[j] == x;
    FirstMinExists(rate, xs, WorstSentinel);
    var i :| FirstMinBelow(rate, xs, WorstSentinel, i);
    WorstFoldFinds(rate, WorstStart(), xs, i);
  }

  /**
    Scanning `xs + ys` in one pass is the same as scanning `xs` and then
    continuing with `ys`: feeding items in batches changes nothing.
   */
  lemma {:induction false} BestFoldConcat<T>(rate: T -> Option<int>, t: Track<T>, xs: seq<T>, ys: seq<T>)
    ensures BestFold(rate, t, xs + ys) == BestFold(rate, BestFold(rate, t, xs), ys)
    decreases |xs|
  {
    if |xs| == 0 {
      assert xs + ys == ys;
    } else {
      assert (xs + ys)[0] == xs[0];
      assert (xs + ys)[1..] == xs[1..] + ys;
      BestFoldConcat(rate, BestStep(rate, t, xs[0]), xs[1..], ys);
    }
  }

  lemma {:induction false} WorstFoldConcat<T>(rate: T -> Option<int>, t: Track<T>, xs: seq<T>, ys: seq<T>)
    ensures WorstFold(rate, t, xs + ys) == WorstFold(rate, WorstFold(rate, t, xs), ys)
    decreases |xs|
  {
    if |xs| == 0 {
      assert xs + ys == ys;
    } else {
      assert (xs + ys)[0] == xs[0];
      assert (xs + ys)[1..] == xs[1..] + ys;
      WorstFoldConcat(rate, WorstStep(rate, t, xs[0]), xs[1..], ys);
    }
  }

  /** Extending the scanned list by one item is one more step. */
  lemma BestFoldSnoc<T>(rate: T -> Option<int>, t: Track<T>, xs: seq<T>, x: T)
    ensures BestFold(rate, t, xs + [x]) == BestStep(rate, BestFold(rate, t, xs), x)
  {
    BestFoldConcat(rate, t, xs, [x]);
    var u := BestFold(rate, t, xs);
    assert BestFold(rate, u, [x]) == BestFold(rate, BestStep(rate, u, x), []);
  }

  lemma WorstFoldSnoc<T>(rate: T -> Option<int>, t: Track<T>, xs: seq<T>, x: T)
    ensures WorstFold(rate, t, xs + [x]) == WorstStep(rate, WorstFold(rate, t, xs), x)
  {
    WorstFoldConcat(rate, t, xs, [x]);
    var u := WorstFold(rate, t, xs);
    assert WorstFold(rate, u, [x]) == WorstFold(rate, WorstStep(rate, u, x), []);
  }
}
