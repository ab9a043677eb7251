/**
 * The weekly window walk of `fetch_trades`: a millisecond range
 * `[start, end]` is cut into windows of at most one week, each starting one
 * millisecond after the previous one ends, while the window start is below
 * `end`.
 */
module Weekly {

  /** `604800 * 1000`: one week in milliseconds. */
  const WeekMs: int := 604800 * 1000

  function Min(a: int, b: int): int {
    if a <= b then a else b
  }

  /** The shape of a walk from `start` towards `end`. */
  ghost predicate Chained(start: int, end: int, ws: seq<(int, int)>) {
    && (ws == [] <==> start >= end)
    && (ws != [] ==> ws[0].0 == start)
    && (forall k :: 0 <= k < |ws| ==> ws[k].0 < ws[k].1 <= end && ws[k].1 - ws[k].0 <= WeekMs)
    && (forall k :: 0 <= k < |ws| - 1 ==> ws[k + 1].0 == ws[k].1 + 1)
    && (ws != [] ==> ws[|ws| - 1].1 + 1 >= end)
  }

  /** The windows `(since, before)` requested for one token. */
  function Windows(start: int, end: int): seq<(int, int)>
    decreases end - start
  {
    if start < end then
      var upper := Min(start + WeekMs, end);
      [(start, upper)] + Windows(upper + 1, end)
    else
      []
  }

  /**
   * No window when `start >= end`; otherwise the first starts at `start`, each
   * is non-empty, at most a week wide and ends no later than `end`, the next
   * starts one millisecond after it, and the walk stops once that start reaches `end`.
   */
  lemma {:induction false} WindowsChained(start: int, end: int)
    ensures Chained(start, end, Windows(start, end))
    decreases end - start
  {
    if start < end {
      var upper := Min(start + WeekMs, end);
      WindowsChained(upper + 1, end);
      var rest := Windows(upper + 1, end);
      var ws := Windows(start, end);
      assert ws == [(start, upper)] + rest;
      assert forall k :: 1 <= k < |ws| ==> ws[k] == rest[k - 1];
    }
  }

  /** The `while` loop of `fetch_trades`, collecting the windows it visits. */
  method WalkWindows(start: int, end: int) returns (ws: seq<(int, int)>)
    ensures ws == Windows(start, end)
  {
    ws := [];
    var since := start;
    while since < end
      invariant Windows(start, end) == ws + Windows(since, end)
      decreases end - since
    {
      var before := Min(since + WeekMs, end);
      assert Windows(since, end) == [(since, before)] + Windows(before + 1, end);
      ws := ws + [(since, before)];
      since := before + 1;
    }
  }

  /** Windows are strictly ascending and disjoint: each ends before any later one starts. */
  lemma {:induction false} WindowsAscending(start: int, end: int, i: nat, j: nat)
    requires i < j < |Windows(start, end)|
    ensures Windows(start, end)[i].1 < Windows(start, end)[j].0
    decreases j - i
  {
    WindowsChained(start, end);
    if j > i + 1 {
      WindowsAscending(start, end, i, j - 1);
    }
  }

  /** The number of windows is the number of week-plus-one-millisecond steps needed to pass `end`. */
  lemma {:induction false} WindowCount(start: int, end: int)
    ensures start < end ==> |Windows(start, end)| == (end - start + WeekMs) / (WeekMs + 1)
    decreases end - start
  {
    if start < end {
      var upper := Min(start + WeekMs, end);
      assert |Windows(start, end)| == 1 + |Windows(upper + 1, end)|;
      if upper < end {
        WindowCount(upper + 1, end);
        var rest := end - (upper + 1) + WeekMs;
        assert end - start + WeekMs == rest + (WeekMs + 1);
        DivStep(rest);
      } else {
        var d := end - start + WeekMs;
        assert WeekMs + 1 <= d < 2 * (WeekMs + 1);
      }
    }
  }

  lemma DivStep(x: int)
    ensures (x + (WeekMs + 1)) / (WeekMs + 1) == x / (WeekMs + 1) + 1
  {
  }

  /**
   * The last window ends at `end`, except when `end - start` is a multiple of
   * `WeekMs + 1`: the walk then stops with the window start equal to `end`, so
   * the last window ends at `end - 1` and the millisecond `end` is never asked for.
   */
  lemma {:induction false} LastWindowEnd(start: int, end: int)
    requires start < end
    ensures Windows(start, end)[|Windows(start, end)| - 1].1
            == (if (end - start) % (WeekMs + 1) == 0 then end - 1 else end)
    decreases end - start
  {
    var upper := Min(start + WeekMs, end);
    WindowsStep(start, end);
    if upper + 1 < end {
      LastWindowEnd(upper + 1, end);
      ModShift(end - (upper + 1));
    } else if upper == end {
      assert 0 < end - start <= WeekMs;
    } else {
      assert end - start == WeekMs + 1;
    }
  }

  /** One turn of the walk: the window `(since, min(since + week, end))`, then the rest. */
  lemma WindowsStep(since: int, end: int)
    requires since < end
    ensures Windows(since, end) == [(since, Min(since + WeekMs, end))] + Windows(Min(since + WeekMs, end) + 1, end)
  {
  }

  lemma ModShift(a: int)
    ensures (a + (WeekMs + 1)) % (WeekMs + 1) == a % (WeekMs + 1)
  {
  }

  /** Every millisecond from `start` up to (not including) `end` lies in some window. */
  lemma {:induction false} WindowsCover(start: int, end: int, m: int)
    requires start <= m < end
    ensures exists k :: 0 <= k < |Windows(start, end)|
                        && Windows(start, end)[k].0 <= m <= Windows(start, end)[k].1
    decreases end - start
  {
    var upper := Min(start + WeekMs, end);
    var rest := Windows(upper + 1, end);
    var ws := Windows(start, end);
    assert ws == [(start, upper)] + rest;
    if m > upper {
      WindowsCover(upper + 1, end, m);
      var k :| 0 <= k < |rest| && rest[k].0 <= m <= rest[k].1;
      assert ws[k + 1] == rest[k];
    } else {
      assert ws[0] == (start, upper);
    }
  }

  /** Two weeks' worth of range from 0 to 10^9 ms is walked in exactly two windows. */
  lemma TwoWindowExample()
    ensures Windows(0, 1000000000) == [(0, 604800000), (604800001, 1000000000)]
  {
    assert Windows(1000000001, 1000000000) == [];
    assert Windows(604800001, 1000000000) == [(604800001, 1000000000)];
  }
}
