/** Hard-gate verdicts for crossings against confirmed red intervals. */
module Disposition {
  import opened Contracts
  import opened SignalIntervals
  import Sorting

  datatype Verdict = Candidate | Supported | Rejected | Inconclusive

  datatype Fact = Crossing(first: nat, last: nat) | NoRedInterval | RedSignal | PartialOrGap | UnknownGap
                | OutsideRed | ValidDirection | PredictedOnly | Track(id: string)

  /** The interval reaches from at most a - margin to beyond b + margin and has no gap inside the bracket. */
  predicate IntervalCovers(red: SignalInterval, bracket: CrossingBracket, marginMs: int) {
    var a, b := bracket.lastPreMs, bracket.firstPostMs;
    && red.confirmedRange.startMs <= a - marginMs
    && red.confirmedRange.endMs > b + marginMs
    && forall gap :: gap in red.gaps ==> !(gap.endMs > a && gap.startMs < b)
  }

  predicate OverlapsGap(reds: seq<SignalInterval>, bracket: CrossingBracket) {
    exists red, gap :: red in reds && gap in red.gaps
                       && gap.endMs > bracket.lastPreMs && gap.startMs < bracket.firstPostMs
  }

  predicate StartsEarlier(a: SignalInterval, b: SignalInterval) {
    a.confirmedRange.startMs < b.confirmedRange.startMs
  }

  function SortByStart(reds: seq<SignalInterval>): seq<SignalInterval> {
    Sorting.Sort(StartsEarlier, reds)
  }

  /** The bracket lies between two neighbours of the sorted list. */
  predicate InInterRedGap(reds: seq<SignalInterval>, bracket: CrossingBracket) {
    BetweenNeighbours(SortByStart(reds), bracket)
  }

  predicate BetweenNeighbours(sorted: seq<SignalInterval>, bracket: CrossingBracket) {
    exists n :: 0 < n < |sorted|
                && bracket.lastPreMs >= sorted[n - 1].confirmedRange.endMs
                && bracket.firstPostMs <= sorted[n].confirmedRange.startMs
  }

  predicate OverlapsRed(reds: seq<SignalInterval>, bracket: CrossingBracket) {
    exists red :: red in reds && bracket.lastPreMs < red.confirmedRange.endMs
                  && bracket.firstPostMs > red.confirmedRange.startMs
  }

  function RedPhaseDisposition(bracket: CrossingBracket, reds: seq<SignalInterval>, marginMs: int): (Verdict, seq<Fact>) {
    var facts := [Crossing(bracket.lastPreMs, bracket.firstPostMs)];
    if reds == [] then (Rejected, facts + [NoRedInterval])
    else if exists red :: red in reds && IntervalCovers(red, bracket, marginMs) then (Supported, facts + [RedSignal])
    else if OverlapsRed(reds, bracket) || OverlapsGap(reds, bracket) then (Inconclusive, facts + [PartialOrGap])
    else if InInterRedGap(reds, bracket) then (Inconclusive, facts + [UnknownGap])
    else (Rejected, facts + [OutsideRed])
  }

  function LineCrossingDisposition(bracket: CrossingBracket): (Verdict, seq<Fact>) {
    (Supported, [Crossing(bracket.lastPreMs, bracket.firstPostMs), ValidDirection])
  }

  // ---------------------------------------------------------------- what a rejection means

  predicate SortedByStart(s: seq<SignalInterval>) {
    forall i, j :: 0 <= i < j < |s| ==> s[i].confirmedRange.startMs <= s[j].confirmedRange.startMs
  }

  lemma SortKeeps(s: seq<SignalInterval>)
    ensures SortedByStart(SortByStart(s))
    ensures forall x :: x in SortByStart(s) <==> x in s
  {
    var sorted := SortByStart(s);
    Sorting.SortOrders(StartsEarlier, s);
    forall i, j | 0 <= i < j < |sorted| ensures sorted[i].confirmedRange.startMs <= sorted[j].confirmedRange.startMs {
      assert !StartsEarlier(sorted[j], sorted[i]);
    }
    forall x ensures x in sorted <==> x in s {
      Sorting.SortMembers(StartsEarlier, s, x);
    }
  }

  ghost predicate AllBefore(reds: seq<SignalInterval>, t: int) {
    forall red :: red in reds ==> red.confirmedRange.endMs <= t
  }

  ghost predicate AllAfter(reds: seq<SignalInterval>, t: int) {
    forall red :: red in reds ==> t <= red.confirmedRange.startMs
  }

  /** Between neighbours some place changes over from intervals before the bracket to intervals after it. */
  lemma {:induction false} ChangeOver(s: seq<SignalInterval>, bracket: CrossingBracket, p: nat, q: nat) returns (n: nat)
    requires p < q < |s|
    requires forall i :: 0 <= i < |s| ==> s[i].confirmedRange.endMs <= bracket.lastPreMs
                                          || bracket.firstPostMs <= s[i].confirmedRange.startMs
    requires s[p].confirmedRange.endMs <= bracket.lastPreMs
    requires bracket.firstPostMs <= s[q].confirmedRange.startMs
    ensures p < n <= q
    ensures bracket.lastPreMs >= s[n - 1].confirmedRange.endMs
    ensures bracket.firstPostMs <= s[n].confirmedRange.startMs
    decreases q - p
  {
    if s[p + 1].confirmedRange.endMs <= bracket.lastPreMs && p + 1 < q {
      n := ChangeOver(s, bracket, p + 1, q);
    } else {
      n := p + 1;
    }
  }

  lemma NeighboursHaveTwoSides(s: seq<SignalInterval>, bracket: CrossingBracket)
    requires bracket.Ordered() && SortedByStart(s)
    requires forall i :: 0 <= i < |s| ==> s[i].confirmedRange.Ordered()
    requires forall i :: 0 <= i < |s| ==> s[i].confirmedRange.endMs <= bracket.lastPreMs
                                          || bracket.firstPostMs <= s[i].confirmedRange.startMs
    ensures BetweenNeighbours(s, bracket) <==>
            (exists p :: 0 <= p < |s| && s[p].confirmedRange.endMs <= bracket.lastPreMs)
            && (exists q :: 0 <= q < |s| && bracket.firstPostMs <= s[q].confirmedRange.startMs)
  {
    if p :| 0 <= p < |s| && s[p].confirmedRange.endMs <= bracket.lastPreMs {
      if q :| 0 <= q < |s| && bracket.firstPostMs <= s[q].confirmedRange.startMs {
        assert s[p].confirmedRange.startMs < s[q].confirmedRange.startMs;
        var n := ChangeOver(s, bracket, p, q);
      }
    }
  }

  /** Without overlap, lying between neighbours is having red on both sides. */
  lemma GapHasTwoSides(bracket: CrossingBracket, reds: seq<SignalInterval>)
    requires bracket.Ordered() && forall red :: red in reds ==> red.confirmedRange.Ordered()
    requires !OverlapsRed(reds, bracket)
    ensures InInterRedGap(reds, bracket) <==>
            !AllBefore(reds, bracket.lastPreMs) && !AllAfter(reds, bracket.firstPostMs)
  {
    SortKeeps(reds);
    var s := SortByStart(reds);
    assert forall i :: 0 <= i < |s| ==> s[i] in reds;
    NeighboursHaveTwoSides(s, bracket);
    forall red | red in reds
      ensures red.confirmedRange.endMs <= bracket.lastPreMs <==> !(bracket.firstPostMs <= red.confirmedRange.startMs)
    {
      assert red.confirmedRange.Ordered();
    }
    assert AllBefore(reds, bracket.lastPreMs) <==>
           !exists q :: 0 <= q < |s| && bracket.firstPostMs <= s[q].confirmedRange.startMs;
    assert AllAfter(reds, bracket.firstPostMs) <==>
           !exists p :: 0 <= p < |s| && s[p].confirmedRange.endMs <= bracket.lastPreMs;
  }

  /** A crossing is rejected exactly when no interval covers it, it touches no gap, and all the
      confirmed red lies before it or all of it lies after it. */
  lemma RejectedMeans(bracket: CrossingBracket, reds: seq<SignalInterval>, marginMs: int)
    requires bracket.Ordered() && forall red :: red in reds ==> red.confirmedRange.Ordered()
    ensures RedPhaseDisposition(bracket, reds, marginMs).0 == Rejected <==>
            !(exists red :: red in reds && IntervalCovers(red, bracket, marginMs))
            && !OverlapsGap(reds, bracket)
            && (AllBefore(reds, bracket.lastPreMs) || AllAfter(reds, bracket.firstPostMs))
  {
    if !OverlapsRed(reds, bracket) {
      GapHasTwoSides(bracket, reds);
    }
  }
}
