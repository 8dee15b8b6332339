/** Cutting a source range into windows. */
module Windows {
  import opened Contracts
  import opened IntervalMerge

  function WindowsFrom(start: int, end: int, windowMs: nat, strideMs: nat): seq<TimeRange>
    requires windowMs > 0 && strideMs > 0 && 0 <= start && 0 <= end
    decreases end - start
  {
    if start >= end then []
    else [TimeRange(start, Min(start + windowMs, end))] + WindowsFrom(start + strideMs, end, windowMs, strideMs)
  }

  datatype WindowError = NotPositive

  method CutWindows(range: TimeRange, windowMs: int, strideMs: int) returns (r: Result<seq<TimeRange>, WindowError>)
    ensures windowMs <= 0 || strideMs <= 0 ==> r == Err(NotPositive)
    ensures windowMs > 0 && strideMs > 0 ==> r == Ok(WindowsFrom(range.startMs, range.endMs, windowMs, strideMs))
  {
    if windowMs <= 0 || strideMs <= 0 {
      return Err(NotPositive);
    }
    var start, end := range.startMs, range.endMs;
    var result: seq<TimeRange> := [];
    while start < end
      invariant start >= 0
      invariant result + WindowsFrom(start, end, windowMs, strideMs) == WindowsFrom(range.startMs, range.endMs, windowMs, strideMs)
      decreases end - start
    {
      result := result + [TimeRange(start, Min(start + windowMs, end))];
      start := start + strideMs;
    }
    assert result + [] == result;
    r := Ok(result);
  }

  predicate Fits(w: TimeRange, start: int, end: int, windowMs: nat) {
    w.Ordered() && start <= w.startMs && w.endMs <= end && w.endMs - w.startMs <= windowMs
  }

  /** Every window lies within the source, is not empty, and is no longer than asked for. */
  lemma {:induction false} WindowsFit(start: int, end: int, windowMs: nat, strideMs: nat)
    requires windowMs > 0 && strideMs > 0 && 0 <= start && 0 <= end
    ensures forall w :: w in WindowsFrom(start, end, windowMs, strideMs) ==> Fits(w, start, end, windowMs)
    decreases end - start
  {
    if start < end {
      WindowsFit(start + strideMs, end, windowMs, strideMs);
    }
  }

  lemma CoveredByParts(w: TimeRange, rest: seq<TimeRange>, t: int)
    ensures Covered([w] + rest, t) <==> w.Contains(t) || Covered(rest, t)
  {
    var all := [w] + rest;
    if w.Contains(t) {
      assert all[0].Contains(t);
    }
    if i :| 0 <= i < |rest| && rest[i].Contains(t) {
      assert all[i + 1].Contains(t);
    }
    if i :| 0 <= i < |all| && all[i].Contains(t) {
      if i > 0 {
        assert rest[i - 1].Contains(t);
      }
    }
  }

  /** When windows do not step over anything, every instant of the source lies in one. */
  lemma {:induction false} NoGaps(start: int, end: int, windowMs: nat, strideMs: nat, t: int)
    requires windowMs > 0 && strideMs > 0 && 0 <= start && 0 <= end && start <= t < end && strideMs <= windowMs
    ensures Covered(WindowsFrom(start, end, windowMs, strideMs), t)
    decreases end - start
  {
    CoveredByParts(TimeRange(start, Min(start + windowMs, end)), WindowsFrom(start + strideMs, end, windowMs, strideMs), t);
    if t >= start + strideMs {
      NoGaps(start + strideMs, end, windowMs, strideMs, t);
    }
  }

  /** Windows cover the whole source exactly when the stride is no longer than the window, or when
      one window is enough. */
  lemma CoverageIsExact(start: int, end: int, windowMs: nat, strideMs: nat)
    requires windowMs > 0 && strideMs > 0 && 0 <= start && 0 <= end
    ensures (forall t :: start <= t < end ==> Covered(WindowsFrom(start, end, windowMs, strideMs), t)) <==>
            strideMs <= windowMs || end - start <= windowMs
  {
    if strideMs <= windowMs {
      forall t | start <= t < end ensures Covered(WindowsFrom(start, end, windowMs, strideMs), t) {
        NoGaps(start, end, windowMs, strideMs, t);
      }
    } else if start < end {
      var first, rest := TimeRange(start, Min(start + windowMs, end)), WindowsFrom(start + strideMs, end, windowMs, strideMs);
      forall t ensures Covered(WindowsFrom(start, end, windowMs, strideMs), t) <==> first.Contains(t) || Covered(rest, t) {
        CoveredByParts(first, rest, t);
      }
      WindowsFit(start + strideMs, end, windowMs, strideMs);
      forall i | 0 <= i < |rest| ensures !rest[i].Contains(start + windowMs) {
        assert rest[i] in rest;
      }
      var t := start + windowMs;
      if t < end {
        assert !Covered(WindowsFrom(start, end, windowMs, strideMs), t);
      } else {
        assert forall t :: start <= t < end ==> first.Contains(t);
      }
    }
  }

  /** The ranges follow each other from start to end without gap or overlap. */
  ghost predicate Tiles(ws: seq<TimeRange>, start: int, end: int) {
    if |ws| == 0 then start >= end
    else
      && ws[0].startMs == start && ws[|ws| - 1].endMs == end && AllOrdered(ws)
      && forall i :: 0 <= i < |ws| - 1 ==> ws[i].endMs == ws[i + 1].startMs
  }

  /** With the stride equal to the window, windows tile the source. */
  lemma {:induction false} EqualStrideTiles(start: int, end: int, windowMs: nat)
    requires windowMs > 0 && 0 <= start && 0 <= end
    ensures Tiles(WindowsFrom(start, end, windowMs, windowMs), start, end)
    decreases end - start
  {
    if start < end {
      EqualStrideTiles(start + windowMs, end, windowMs);
    }
  }

  lemma {:induction false} TilesAscend(ws: seq<TimeRange>, start: int, end: int, i: nat, j: nat)
    requires Tiles(ws, start, end) && i < j < |ws|
    ensures ws[i].endMs <= ws[j].startMs
    decreases j
  {
    if i < j - 1 {
      TilesAscend(ws, start, end, i, j - 1);
    }
  }

  /** In a tiling every instant lies in exactly one tile. */
  lemma TilesOnce(ws: seq<TimeRange>, start: int, end: int, i: nat, j: nat, t: int)
    requires Tiles(ws, start, end) && i < |ws| && j < |ws| && ws[i].Contains(t) && ws[j].Contains(t)
    ensures i == j
  {
    if i < j {
      TilesAscend(ws, start, end, i, j);
    } else if j < i {
      TilesAscend(ws, start, end, j, i);
    }
  }
}
