/** Merging half-open time ranges, bridging gaps up to a limit. */
module IntervalMerge {
  import opened Contracts
  import Sorting

  predicate StartsBefore(a: TimeRange, b: TimeRange) {
    a.startMs < b.startMs
  }

  predicate AllOrdered(rs: seq<TimeRange>) {
    forall i :: 0 <= i < |rs| ==> rs[i].Ordered()
  }

  /** Adds the next range in start order. */
  function Extend(merged: seq<TimeRange>, current: TimeRange, maxGap: nat): seq<TimeRange> {
    if |merged| > 0 && current.startMs <= merged[|merged| - 1].endMs + maxGap then
      var last := merged[|merged| - 1];
      merged[..|merged| - 1] + [TimeRange(last.startMs, Max(last.endMs, current.endMs))]
    else merged + [current]
  }

  function MergeOrdered(ordered: seq<TimeRange>, maxGap: nat): seq<TimeRange> {
    if |ordered| == 0 then [] else Extend(MergeOrdered(ordered[..|ordered| - 1], maxGap), ordered[|ordered| - 1], maxGap)
  }

  function Merged(ranges: seq<TimeRange>, maxGap: nat): seq<TimeRange> {
    MergeOrdered(Sorting.Sort(StartsBefore, ranges), maxGap)
  }

  lemma MergeNext(ordered: seq<TimeRange>, i: nat, maxGap: nat)
    requires i < |ordered|
    ensures MergeOrdered(ordered[..i + 1], maxGap) == Extend(MergeOrdered(ordered[..i], maxGap), ordered[i], maxGap)
  {
    assert ordered[..i + 1][..i] == ordered[..i];
  }

  lemma LastReplaced(merged: seq<TimeRange>, r: TimeRange)
    requires |merged| > 0
    ensures merged[|merged| - 1 := r] == merged[..|merged| - 1] + [r]
  {
  }

  method MergeTimeRanges(ranges: seq<TimeRange>, maxGap: nat) returns (merged: seq<TimeRange>)
    ensures merged == Merged(ranges, maxGap)
  {
    if |ranges| == 0 {
      return [];
    }
    var ordered := Sorting.Sort(StartsBefore, ranges);
    Sorting.SortLength(StartsBefore, ranges);
    merged := [ordered[0]];
    MergeNext(ordered, 0, maxGap);
    for i := 1 to |ordered|
      invariant |merged| > 0 && merged == MergeOrdered(ordered[..i], maxGap)
    {
      MergeNext(ordered, i, maxGap);
      var current, last := ordered[i], merged[|merged| - 1];
      if current.startMs <= last.endMs + maxGap {
        var newEnd := Max(last.endMs, current.endMs);
        LastReplaced(merged, TimeRange(last.startMs, newEnd));
        merged := merged[|merged| - 1 := TimeRange(last.startMs, newEnd)];
      } else {
        merged := merged + [current];
      }
    }
    assert ordered[..|ordered|] == ordered;
  }

  // ---------------------------------------------------------------- what a list of ranges covers

  predicate Covered(rs: seq<TimeRange>, t: int) {
    exists i :: 0 <= i < |rs| && rs[i].Contains(t)
  }

  /** t lies between the end of one range and the start of another, no more than the limit apart. */
  predicate InHole(rs: seq<TimeRange>, maxGap: nat, t: int) {
    exists i, j :: 0 <= i < |rs| && 0 <= j < |rs| && rs[i].endMs <= t < rs[j].startMs <= rs[i].endMs + maxGap
  }

  /** In time order, each more than the limit after the one before. */
  predicate Separated(rs: seq<TimeRange>, maxGap: nat) {
    forall i, j :: 0 <= i < j < |rs| ==> rs[i].endMs + maxGap < rs[j].startMs
  }

  predicate Inside(r: TimeRange, rs: seq<TimeRange>) {
    exists i :: 0 <= i < |rs| && rs[i].startMs <= r.startMs && r.endMs <= rs[i].endMs
  }

  predicate StartOf(rs: seq<TimeRange>, t: int) {
    exists i :: 0 <= i < |rs| && rs[i].startMs == t
  }

  predicate EndOf(rs: seq<TimeRange>, t: int) {
    exists i :: 0 <= i < |rs| && rs[i].endMs == t
  }

  predicate StartOrdered(rs: seq<TimeRange>) {
    forall i, j :: 0 <= i < j < |rs| ==> rs[i].startMs <= rs[j].startMs
  }

  /** What a merge of rs has to be. */
  ghost predicate IsMerge(rs: seq<TimeRange>, maxGap: nat, out: seq<TimeRange>) {
    && AllOrdered(out) && Separated(out, maxGap)
    && (forall r :: r in rs ==> Inside(r, out))
    && (forall i :: 0 <= i < |out| ==> StartOf(rs, out[i].startMs) && EndOf(rs, out[i].endMs))
    && (forall t :: Covered(out, t) ==> Covered(rs, t) || InHole(rs, maxGap, t))
  }

  // ---------------------------------------------------------------- one more range

  lemma MoreInputs(rs: seq<TimeRange>, r: TimeRange, maxGap: nat, t: int)
    ensures Covered(rs, t) ==> Covered(rs + [r], t)
    ensures r.Contains(t) ==> Covered(rs + [r], t)
    ensures InHole(rs, maxGap, t) ==> InHole(rs + [r], maxGap, t)
    ensures StartOf(rs, t) || r.startMs == t ==> StartOf(rs + [r], t)
    ensures EndOf(rs, t) || r.endMs == t ==> EndOf(rs + [r], t)
  {
    var more := rs + [r];
    assert forall i :: 0 <= i < |rs| ==> more[i] == rs[i];
    assert more[|rs|] == r;
  }

  lemma NewHole(rs: seq<TimeRange>, r: TimeRange, maxGap: nat, t: int)
    requires exists i :: 0 <= i < |rs| && rs[i].endMs <= t < r.startMs <= rs[i].endMs + maxGap
    ensures InHole(rs + [r], maxGap, t)
  {
    var more := rs + [r];
    var i :| 0 <= i < |rs| && rs[i].endMs <= t < r.startMs <= rs[i].endMs + maxGap;
    assert more[i] == rs[i] && more[|rs|] == r;
  }

  /** The only instants an extension adds are those of the new range and of the hole before it. */
  lemma ExtendAdds(out: seq<TimeRange>, r: TimeRange, maxGap: nat, t: int)
    requires Covered(Extend(out, r, maxGap), t)
    ensures Covered(out, t) || r.Contains(t)
            || (|out| > 0 && out[|out| - 1].endMs <= t < r.startMs <= out[|out| - 1].endMs + maxGap)
  {
    var next := Extend(out, r, maxGap);
    var i :| 0 <= i < |next| && next[i].Contains(t);
    assert i < |out| && out[i].Contains(t) ==> Covered(out, t);
  }

  lemma ExtendCovers(rs: seq<TimeRange>, r: TimeRange, maxGap: nat, out: seq<TimeRange>, t: int)
    requires IsMerge(rs, maxGap, out) && Covered(Extend(out, r, maxGap), t)
    ensures Covered(rs + [r], t) || InHole(rs + [r], maxGap, t)
  {
    MoreInputs(rs, r, maxGap, t);
    ExtendAdds(out, r, maxGap, t);
    if !Covered(out, t) && !r.Contains(t) {
      var k :| 0 <= k < |rs| && rs[k].endMs == out[|out| - 1].endMs;
      NewHole(rs, r, maxGap, t);
    }
  }

  lemma ExtendSeparated(out: seq<TimeRange>, r: TimeRange, maxGap: nat)
    requires AllOrdered(out) && Separated(out, maxGap) && r.Ordered()
    ensures AllOrdered(Extend(out, r, maxGap)) && Separated(Extend(out, r, maxGap), maxGap)
  {
    var next := Extend(out, r, maxGap);
    if |next| > |out| && |out| > 0 {
      forall i | 0 <= i < |out| ensures out[i].endMs + maxGap < r.startMs {
        assert out[|out| - 1].endMs + maxGap < r.startMs;
      }
    }
  }

  lemma ExtendHolds(rs: seq<TimeRange>, r: TimeRange, maxGap: nat, out: seq<TimeRange>, x: TimeRange)
    requires IsMerge(rs, maxGap, out) && (x in rs || x == r)
    requires |out| > 0 ==> out[|out| - 1].startMs <= r.startMs
    ensures Inside(x, Extend(out, r, maxGap))
  {
    var next := Extend(out, r, maxGap);
    if x == r {
      assert next[|next| - 1].startMs <= x.startMs && x.endMs <= next[|next| - 1].endMs;
    } else {
      var i :| 0 <= i < |out| && out[i].startMs <= x.startMs && x.endMs <= out[i].endMs;
      assert next[i].startMs == out[i].startMs && out[i].endMs <= next[i].endMs;
    }
  }

  lemma ExtendIsMerge(rs: seq<TimeRange>, r: TimeRange, maxGap: nat, out: seq<TimeRange>)
    requires IsMerge(rs, maxGap, out) && r.Ordered()
    requires forall i :: 0 <= i < |rs| ==> rs[i].startMs <= r.startMs
    ensures IsMerge(rs + [r], maxGap, Extend(out, r, maxGap))
  {
    var next := Extend(out, r, maxGap);
    ExtendSeparated(out, r, maxGap);
    forall x | x in rs + [r] ensures Inside(x, next) {
      ExtendHolds(rs, r, maxGap, out, x);
    }
    forall i | 0 <= i < |next| ensures StartOf(rs + [r], next[i].startMs) && EndOf(rs + [r], next[i].endMs) {
      MoreInputs(rs, r, maxGap, next[i].startMs);
      MoreInputs(rs, r, maxGap, next[i].endMs);
    }
    forall t | Covered(next, t) ensures Covered(rs + [r], t) || InHole(rs + [r], maxGap, t) {
      ExtendCovers(rs, r, maxGap, out, t);
    }
  }

  lemma {:induction false} OrderedIsMerge(ordered: seq<TimeRange>, maxGap: nat)
    requires AllOrdered(ordered) && StartOrdered(ordered)
    ensures IsMerge(ordered, maxGap, MergeOrdered(ordered, maxGap))
  {
    if |ordered| > 0 {
      var init, last := ordered[..|ordered| - 1], ordered[|ordered| - 1];
      OrderedIsMerge(init, maxGap);
      ExtendIsMerge(init, last, maxGap, MergeOrdered(init, maxGap));
      assert init + [last] == ordered;
    }
  }

  ghost predicate SameMembers(a: seq<TimeRange>, b: seq<TimeRange>) {
    forall r :: r in a <==> r in b
  }

  /** What a list covers, and its holes, depend only on its members. */
  lemma MembersDecide(a: seq<TimeRange>, b: seq<TimeRange>, maxGap: nat, t: int)
    requires SameMembers(a, b)
    ensures Covered(a, t) ==> Covered(b, t)
    ensures InHole(a, maxGap, t) ==> InHole(b, maxGap, t)
    ensures StartOf(a, t) ==> StartOf(b, t)
    ensures EndOf(a, t) ==> EndOf(b, t)
  {
    assert forall i :: 0 <= i < |a| ==> a[i] in b;
  }

  /** The merge covers every input, adds only holes up to the limit, and leaves ranges further apart
      than that, each starting and ending where some input does. */
  lemma MergedIsMerge(ranges: seq<TimeRange>, maxGap: nat)
    requires AllOrdered(ranges)
    ensures IsMerge(ranges, maxGap, Merged(ranges, maxGap))
  {
    var ordered, out := Sorting.Sort(StartsBefore, ranges), Merged(ranges, maxGap);
    forall r ensures r in ordered <==> r in ranges {
      Sorting.SortMembers(StartsBefore, ranges, r);
    }
    assert forall i :: 0 <= i < |ordered| ==> ordered[i] in ranges;
    Sorting.SortOrders(StartsBefore, ranges);
    SortedByStart(ordered);
    OrderedIsMerge(ordered, maxGap);
    forall t | Covered(out, t) ensures Covered(ranges, t) || InHole(ranges, maxGap, t) {
      MembersDecide(ordered, ranges, maxGap, t);
    }
    forall i | 0 <= i < |out| ensures StartOf(ranges, out[i].startMs) && EndOf(ranges, out[i].endMs) {
      MembersDecide(ordered, ranges, maxGap, out[i].startMs);
      MembersDecide(ordered, ranges, maxGap, out[i].endMs);
    }
  }

  lemma SortedByStart(ordered: seq<TimeRange>)
    requires Sorting.Ordered(StartsBefore, ordered)
    ensures StartOrdered(ordered)
  {
    forall i, j | 0 <= i < j < |ordered| ensures ordered[i].startMs <= ordered[j].startMs {
      assert !StartsBefore(ordered[j], ordered[i]);
    }
  }

  // ---------------------------------------------------------------- the merge is determined by what it covers

  /** A merge covers exactly the inputs and their holes. */
  lemma MergeCoversExactly(rs: seq<TimeRange>, maxGap: nat, out: seq<TimeRange>, t: int)
    requires AllOrdered(rs) && IsMerge(rs, maxGap, out)
    ensures Covered(out, t) <==> Covered(rs, t) || InHole(rs, maxGap, t)
  {
    if Covered(rs, t) {
      var i :| 0 <= i < |rs| && rs[i].Contains(t);
      assert rs[i] in rs;
      var k :| 0 <= k < |out| && out[k].startMs <= rs[i].startMs && rs[i].endMs <= out[k].endMs;
      assert out[k].Contains(t);
    } else if InHole(rs, maxGap, t) {
      var i, j :| 0 <= i < |rs| && 0 <= j < |rs| && rs[i].endMs <= t < rs[j].startMs <= rs[i].endMs + maxGap;
      assert rs[i] in rs && rs[j] in rs;
      var a :| 0 <= a < |out| && out[a].startMs <= rs[i].startMs && rs[i].endMs <= out[a].endMs;
      var b :| 0 <= b < |out| && out[b].startMs <= rs[j].startMs && rs[j].endMs <= out[b].endMs;
      assert a == b;
      assert out[a].Contains(t);
    }
  }

  ghost predicate SameCover(a: seq<TimeRange>, b: seq<TimeRange>) {
    forall t :: Covered(a, t) <==> Covered(b, t)
  }

  /** The last covered instant of a separated list ends its last range. */
  lemma LastEnds(a: seq<TimeRange>, b: seq<TimeRange>)
    requires AllOrdered(a) && AllOrdered(b) && Separated(a, 0) && Separated(b, 0) && SameCover(a, b)
    requires |a| > 0
    ensures |b| > 0 && a[|a| - 1].endMs <= b[|b| - 1].endMs
  {
    var t := a[|a| - 1].endMs - 1;
    assert a[|a| - 1].Contains(t);
    assert Covered(a, t) && Covered(b, t);
    var i :| 0 <= i < |b| && b[i].Contains(t);
    assert i < |b| - 1 ==> b[i].endMs < b[|b| - 1].startMs;
  }

  /** Just before its last range a separated list covers nothing. */
  lemma NothingJustBefore(a: seq<TimeRange>)
    requires AllOrdered(a) && Separated(a, 0) && |a| > 0
    ensures !Covered(a, a[|a| - 1].startMs - 1)
  {
    forall i | 0 <= i < |a| ensures !a[i].Contains(a[|a| - 1].startMs - 1) {
      assert i < |a| - 1 ==> a[i].endMs < a[|a| - 1].startMs;
    }
  }

  lemma LastStarts(a: seq<TimeRange>, b: seq<TimeRange>)
    requires AllOrdered(a) && AllOrdered(b) && Separated(a, 0) && Separated(b, 0) && SameCover(a, b)
    requires |a| > 0 && |b| > 0 && a[|a| - 1].endMs == b[|b| - 1].endMs
    ensures b[|b| - 1].startMs <= a[|a| - 1].startMs
  {
    NothingJustBefore(b);
    assert Covered(a, b[|b| - 1].startMs - 1) == Covered(b, b[|b| - 1].startMs - 1);
    assert !a[|a| - 1].Contains(b[|b| - 1].startMs - 1);
  }

  lemma WithoutLast(a: seq<TimeRange>, t: int)
    requires AllOrdered(a) && Separated(a, 0) && |a| > 0
    ensures Covered(a[..|a| - 1], t) <==> Covered(a, t) && !a[|a| - 1].Contains(t)
  {
    var init, last := a[..|a| - 1], a[|a| - 1];
    if Covered(init, t) {
      var i :| 0 <= i < |init| && init[i].Contains(t);
      assert a[i].Contains(t) && a[i].endMs < last.startMs;
    }
    if Covered(a, t) && !last.Contains(t) {
      var i :| 0 <= i < |a| && a[i].Contains(t);
      assert init[i].Contains(t);
    }
  }

  /** Separated lists that cover the same instants are the same list. */
  lemma {:induction false} CoverDetermines(a: seq<TimeRange>, b: seq<TimeRange>)
    requires AllOrdered(a) && AllOrdered(b) && Separated(a, 0) && Separated(b, 0) && SameCover(a, b)
    ensures a == b
    decreases |a|
  {
    if |a| == 0 {
      if |b| > 0 {
        LastEnds(b, a);
      }
    } else {
      LastEnds(a, b);
      LastEnds(b, a);
      LastStarts(a, b);
      LastStarts(b, a);
      var n, m := |a| - 1, |b| - 1;
      forall t ensures Covered(a[..n], t) <==> Covered(b[..m], t) {
        WithoutLast(a, t);
        WithoutLast(b, t);
      }
      CoverDetermines(a[..n], b[..m]);
      assert a == a[..n] + [a[n]] && b == b[..m] + [b[m]];
    }
  }

  lemma NarrowerSeparation(rs: seq<TimeRange>, maxGap: nat)
    requires Separated(rs, maxGap)
    ensures Separated(rs, 0)
  {
    forall i, j | 0 <= i < j < |rs| ensures rs[i].endMs + 0 < rs[j].startMs {
      assert rs[i].endMs + maxGap < rs[j].startMs;
    }
  }

  // ---------------------------------------------------------------- main results

  /** There is only one merge. */
  lemma MergeIsUnique(ranges: seq<TimeRange>, maxGap: nat, out: seq<TimeRange>)
    requires AllOrdered(ranges)
    ensures IsMerge(ranges, maxGap, out) <==> out == Merged(ranges, maxGap)
  {
    MergedIsMerge(ranges, maxGap);
    if IsMerge(ranges, maxGap, out) {
      var merged := Merged(ranges, maxGap);
      forall t ensures Covered(out, t) <==> Covered(merged, t) {
        MergeCoversExactly(ranges, maxGap, out, t);
        MergeCoversExactly(ranges, maxGap, merged, t);
      }
      NarrowerSeparation(out, maxGap);
      NarrowerSeparation(merged, maxGap);
      CoverDetermines(out, merged);
    }
  }

  /** With no gap allowed the merge covers exactly the union of its inputs. */
  lemma ExactUnion(ranges: seq<TimeRange>, t: int)
    requires AllOrdered(ranges)
    ensures Covered(Merged(ranges, 0), t) <==> Covered(ranges, t)
  {
    MergedIsMerge(ranges, 0);
    MergeCoversExactly(ranges, 0, Merged(ranges, 0), t);
  }

  /** The order and the number of times the inputs are listed make no difference. */
  lemma OrderIndependent(a: seq<TimeRange>, b: seq<TimeRange>, maxGap: nat)
    requires AllOrdered(a) && SameMembers(a, b)
    ensures Merged(a, maxGap) == Merged(b, maxGap)
  {
    assert AllOrdered(b) by {
      assert forall i :: 0 <= i < |b| ==> b[i] in a;
    }
    var x, y := Merged(a, maxGap), Merged(b, maxGap);
    MergedIsMerge(a, maxGap);
    MergedIsMerge(b, maxGap);
    forall t ensures Covered(x, t) <==> Covered(y, t) {
      MergeCoversExactly(a, maxGap, x, t);
      MergeCoversExactly(b, maxGap, y, t);
      MembersDecide(a, b, maxGap, t);
      MembersDecide(b, a, maxGap, t);
    }
    NarrowerSeparation(x, maxGap);
    NarrowerSeparation(y, maxGap);
    CoverDetermines(x, y);
  }

  lemma EachInside(out: seq<TimeRange>)
    ensures forall r :: r in out ==> Inside(r, out)
    ensures forall i :: 0 <= i < |out| ==> StartOf(out, out[i].startMs) && EndOf(out, out[i].endMs)
  {
  }

  /** Merging again changes nothing. */
  lemma MergeIsIdempotent(ranges: seq<TimeRange>, maxGap: nat)
    requires AllOrdered(ranges)
    ensures Merged(Merged(ranges, maxGap), maxGap) == Merged(ranges, maxGap)
  {
    var out := Merged(ranges, maxGap);
    assert AllOrdered(out) && Separated(out, maxGap) by {
      MergedIsMerge(ranges, maxGap);
    }
    assert IsMerge(out, maxGap, out) by {
      EachInside(out);
    }
    MergeIsUnique(out, maxGap, out);
  }
}
