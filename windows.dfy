/**
 * The time-window planner of the telemetry export: the `while dt_current < dt_end`
 * loop walks from the start time to the end time in steps of one batch window and
 * requests the samples of `[ts, te]` with `te = min(current + window, end)`.
 * Times are milliseconds since the epoch.
 */
module WindowPlanner {

  /** The batch window of the export: 24 hours, in milliseconds. */
  const BatchWindow: int := 24 * 60 * 60 * 1000

  /** One request window: its start `ts` and its end `te`, in milliseconds. */
  datatype Window = Window(ts: int, te: int)

  function Min(a: int, b: int): int { if a <= b then a else b }

  /** Time `t` lies in the window read as the half-open interval `[ts, te)`. */
  predicate InWindow(win: Window, t: int) { win.ts <= t < win.te }

  /**
   * The windows requested for the range from `start` to `end`, in request order:
   * one per loop iteration, starting at the current time and ending one window
   * later or at `end`, whichever comes first.
   */
  function Windows(start: int, end: int, w: int): seq<Window>
    requires w > 0
    decreases end - start
  {
    if start >= end then [] else [Window(start, Min(start + w, end))] + Windows(start + w, end, w)
  }

  /** Number of windows, as the ceiling of the range length over the window. */
  function CeilDiv(a: int, w: int): int
    requires w > 0
  {
    (a + w - 1) / w
  }

  /** No request is made for an empty or inverted range, and one is made otherwise. */
  lemma {:induction false} NoWindowsIffEmptyRange(start: int, end: int, w: int)
    requires w > 0
    ensures Windows(start, end, w) == [] <==> start >= end
    ensures start < end ==> Windows(start, end, w)[0].ts == start
  {
  }

  /**
   * The number of windows `n` brackets the range length: `(n - 1) * w < end - start <= n * w`,
   * which is `n == ceil((end - start) / w)`.
   */
  lemma {:induction false} WindowCountBrackets(start: int, end: int, w: int)
    requires w > 0
    requires start < end
    ensures (|Windows(start, end, w)| - 1) * w < end - start <= |Windows(start, end, w)| * w
    decreases end - start
  {
    var n := |Windows(start, end, w)|;
    if start + w < end {
      WindowCountBrackets(start + w, end, w);
      var m := |Windows(start + w, end, w)|;
      assert n == m + 1;
      assert (m - 1) * w < end - start - w <= m * w;
      assert (n - 1) * w == m * w;
      assert n * w == m * w + w;
    } else {
      assert Windows(start + w, end, w) == [];
      assert n == 1;
    }
  }

  /** The two brackets pin the count down to the ceiling of the quotient. */
  lemma {:induction false} CeilDivUnique(a: int, w: int, n: int)
    requires w > 0
    requires (n - 1) * w < a <= n * w
    ensures n == CeilDiv(a, w)
  {
    var q := (a + w - 1) / w;
    var r := (a + w - 1) % w;
    assert a + w - 1 == q * w + r && 0 <= r < w;
    assert (n - 1) * w < q * w by {
      assert (n - 1) * w == n * w - w;
    }
    assert q * w < (n + 1) * w by {
      assert (n + 1) * w == n * w + w;
    }
    MulCancelLess(n - 1, q, w);
    MulCancelLess(q, n + 1, w);
  }

  /** Multiplying by a positive factor reflects strict order. */
  lemma {:induction false} MulCancelLess(x: int, y: int, w: int)
    requires w > 0
    requires x * w < y * w
    ensures x < y
  {
    if y <= x {
      MulMonotone(y, x, w);
    }
  }

  lemma {:induction false} MulMonotone(x: int, y: int, w: int)
    requires w > 0
    requires x <= y
    ensures x * w <= y * w
  {
    assert y * w - x * w == (y - x) * w;
  }

  /** The number of requests is `ceil((end - start) / w)`, and zero when `start >= end`. */
  lemma {:induction false} WindowCount(start: int, end: int, w: int)
    requires w > 0
    ensures |Windows(start, end, w)| == if start >= end then 0 else CeilDiv(end - start, w)
  {
    if start < end {
      WindowCountBrackets(start, end, w);
      CeilDivUnique(end - start, w, |Windows(start, end, w)|);
    }
  }

  /** The `i`-th window starts `i` windows after `start` and ends a window later or at `end`. */
  lemma {:induction false} WindowAt(start: int, end: int, w: int, i: nat)
    requires w > 0
    requires i < |Windows(start, end, w)|
    ensures Windows(start, end, w)[i] == Window(start + i * w, Min(start + i * w + w, end))
    ensures start + i * w < end
    decreases end - start
  {
    if i > 0 {
      WindowAt(start + w, end, w, i - 1);
      assert start + w + (i - 1) * w == start + i * w;
    }
  }

  /** Every window lies inside the range, is not empty and is at most one batch window long. */
  lemma {:induction false} WindowBounds(start: int, end: int, w: int, i: nat)
    requires w > 0
    requires i < |Windows(start, end, w)|
    ensures var win := Windows(start, end, w)[i];
      start <= win.ts < win.te <= end && win.te - win.ts <= w
  {
    WindowAt(start, end, w, i);
    assert 0 <= i * w;
  }

  /** Consecutive windows are contiguous: each one starts where the previous one ended. */
  lemma {:induction false} WindowsContiguous(start: int, end: int, w: int, i: nat)
    requires w > 0
    requires i + 1 < |Windows(start, end, w)|
    ensures Windows(start, end, w)[i].te == Windows(start, end, w)[i + 1].ts
  {
    WindowAt(start, end, w, i);
    WindowAt(start, end, w, i + 1);
    assert start + (i + 1) * w == start + i * w + w;
  }

  /** The last window ends exactly at `end`. */
  lemma {:induction false} LastWindowEndsAtEnd(start: int, end: int, w: int)
    requires w > 0
    requires start < end
    ensures Windows(start, end, w)[|Windows(start, end, w)| - 1].te == end
    decreases end - start
  {
    if start + w < end {
      LastWindowEndsAtEnd(start + w, end, w);
    }
  }

  /**
   * The windows, read as half-open intervals `[ts, te)`, cover the range: every time
   * in `[start, end)` falls in exactly one of them.
   */
  lemma {:induction false} WindowsCover(start: int, end: int, w: int, t: int)
    requires w > 0
    requires start <= t < end
    ensures exists i :: 0 <= i < |Windows(start, end, w)| && InWindow(Windows(start, end, w)[i], t)
    ensures forall i, j ::
      (0 <= i < |Windows(start, end, w)| && 0 <= j < |Windows(start, end, w)| &&
       InWindow(Windows(start, end, w)[i], t) && InWindow(Windows(start, end, w)[j], t)) ==> i == j
    decreases end - start
  {
    var ws := Windows(start, end, w);
    if t < start + w {
      assert InWindow(ws[0], t);
    } else {
      WindowsCover(start + w, end, w, t);
      var rest := Windows(start + w, end, w);
      var k :| 0 <= k < |rest| && InWindow(rest[k], t);
      assert ws[k + 1] == rest[k];
    }
    forall i, j | 0 <= i < |ws| && 0 <= j < |ws| && InWindow(ws[i], t) && InWindow(ws[j], t)
      ensures i == j
    {
      WindowAt(start, end, w, i);
      WindowAt(start, end, w, j);
    }
  }

  /** A one-day range in 24-hour batches is requested as one window spanning all of it. */
  lemma {:induction false} OneDayOneWindow()
    ensures Windows(1672531200000, 1672617600000, BatchWindow) == [Window(1672531200000, 1672617600000)]
  {
  }

  /** A two-day range is requested as two full-day windows, the second ending at the end. */
  lemma {:induction false} TwoDaysTwoWindows()
    ensures Windows(1672531200000, 1672704000000, BatchWindow) ==
      [Window(1672531200000, 1672617600000), Window(1672617600000, 1672704000000)]
  {
    assert Windows(1672617600000, 1672704000000, BatchWindow) == [Window(1672617600000, 1672704000000)];
  }
}
