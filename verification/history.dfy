/**
  The "Recent Searches" list: most recent first, at most ten entries added by
  a search. Recording a title that is already listed leaves the list exactly
  as it is (the title is not moved to the front); clearing empties it.
 */
module History {

  const Cap: nat := 10

  function Min(a: int, b: int): int
  {
    if a <= b then a else b
  }

  /** No title occurs twice. */
  predicate Distinct(xs: seq<string>)
  {
    forall i, j :: 0 <= i < j < |xs| ==> xs[i] != xs[j]
  }

  /** The history after a successful search for `title`. */
  function Record(history: seq<string>, title: string): (r: seq<string>)
    ensures title in r
    ensures forall x :: x in r ==> x == title || x in history
    ensures |history| <= Cap ==> |r| <= Cap
  {
    if title in history then history
    else
      var r := ([title] + history)[..Min(|history| + 1, Cap)];
      assert r[0] == title;
      r
  }

  /** The history after "Clear History". */
  function Clear(): seq<string>
  {
    []
  }

  /** A title already listed leaves the list untouched, position included. */
  lemma RecordKeepsListed(history: seq<string>, title: string)
    requires title in history
    ensures Record(history, title) == history
  {
  }

  /**
    A new title goes to the front, followed by the old list in its order, cut
    so that at most ten entries remain.
   */
  lemma RecordPrepends(history: seq<string>, title: string)
    requires title !in history
    ensures Record(history, title)[0] == title
    ensures |Record(history, title)| == Min(|history| + 1, Cap)
    ensures Record(history, title)[1..] == history[..|Record(history, title)| - 1]
  {
    var r := Record(history, title);
    assert r[1..] == ([title] + history)[1..|r|];
  }

  /** Recording never introduces a duplicate. */
  lemma RecordKeepsDistinct(history: seq<string>, title: string)
    requires Distinct(history)
    ensures Distinct(Record(history, title))
  {
    if title !in history {
      var r := Record(history, title);
      forall i, j | 0 <= i < j < |r|
        ensures r[i] != r[j]
      {
        if i == 0 {
          assert r[j] == history[j - 1];
        } else {
          assert r[i] == history[i - 1] && r[j] == history[j - 1];
        }
      }
    }
  }

  /** Searching the same title twice in a row records it once. */
  lemma RecordTwice(history: seq<string>, title: string)
    ensures Record(Record(history, title), title) == Record(history, title)
  {
  }

  /** The history after recording `titles` one search at a time, oldest first. */
  function RecordAll(history: seq<string>, titles: seq<string>): seq<string>
    decreases |titles|
  {
    if |titles| == 0 then history
    else Record(RecordAll(history, titles[..|titles| - 1]), titles[|titles| - 1])
  }

  /** The last (at most ten) titles of `titles`, most recent first. */
  function Newest(titles: seq<string>): seq<string>
  {
    seq(Min(|titles|, Cap), i requires 0 <= i < Min(|titles|, Cap) => titles[|titles| - 1 - i])
  }

  /**
    Starting from an empty list, searching distinct titles one after another
    leaves the ten most recent of them, newest first.
   */
  lemma {:induction false} RecordAllNewest(titles: seq<string>)
    requires Distinct(titles)
    ensures RecordAll([], titles) == Newest(titles)
    decreases |titles|
  {
    var n := |titles|;
    if n > 0 {
      var pre, t := titles[..n - 1], titles[n - 1];
      assert Distinct(pre);
      RecordAllNewest(pre);
      var earlier := Newest(pre);
      assert |earlier| == Min(n - 1, Cap);
      assert forall i :: 0 <= i < |earlier| ==> earlier[i] == pre[n - 2 - i];
      assert t !in earlier by {
        forall i | 0 <= i < |earlier|
          ensures earlier[i] != t
        {
          assert earlier[i] == titles[n - 2 - i];
        }
      }
      var r := Record(earlier, t);
      assert r == ([t] + earlier)[..Min(|earlier| + 1, Cap)];
      var want := Newest(titles);
      assert |want| == Min(n, Cap);
      assert forall i :: 0 <= i < |want| ==> want[i] == titles[n - 1 - i];
      assert |r| == |want|;
      forall i | 0 <= i < |r|
        ensures r[i] == want[i]
      {
        if i > 0 {
          assert r[i] == earlier[i - 1];
        }
      }
    }
  }

  /**
    After clearing, searching distinct titles one after another leaves the ten
    most recent of them, newest first: nothing from before the clear survives.
   */
  lemma {:induction false} ClearThenSearches(titles: seq<string>)
    requires Distinct(titles)
    ensures RecordAll(Clear(), titles) == Newest(titles)
  {
    RecordAllNewest(titles);
  }

  /** After clearing, a search leaves just that title. */
  lemma ClearThenRecord(title: string)
    ensures Record(Clear(), title) == [title]
  {
  }
}
