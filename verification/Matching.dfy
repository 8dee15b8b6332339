/** Greedy one-to-one matching of run events with ground truth by interval overlap. */
module Matching {
  import opened Contracts
  import Sorting

  // ---------------------------------------------------------------- overlap

  function Overlap(a: TimeRange, b: TimeRange): int {
    Max(0, Min(a.endMs, b.endMs) - Max(a.startMs, b.startMs))
  }

  function Union(a: TimeRange, b: TimeRange): int {
    a.endMs - a.startMs + b.endMs - b.startMs - Overlap(a, b)
  }

  function EventIou(a: TimeRange, b: TimeRange): real
    requires a.Ordered() && b.Ordered()
  {
    Overlap(a, b) as real / Union(a, b) as real
  }

  lemma SignOfProduct(x: real, y: real)
    requires y > 0.0
    ensures (x > 0.0 <==> x * y > 0.0) && (x < 0.0 <==> x * y < 0.0)
  {
  }

  /** A quotient q = x / y of a part by its whole. */
  lemma PartOfWhole(q: real, x: real, y: real, rest: real)
    requires y > 0.0 && q * y == x && 0.0 <= x <= y && rest == 1.0 - q
    ensures 0.0 <= q <= 1.0 && (q == 1.0 <==> x == y) && (q == 0.0 <==> x == 0.0)
  {
    SignOfProduct(q, y);
    SignOfProduct(rest, y);
    assert rest * y == y - x;
  }

  lemma Quotient(x: int, y: int)
    requires 0 <= x <= y && 0 < y
    ensures 0.0 <= x as real / y as real <= 1.0
    ensures x as real / y as real == 1.0 <==> x == y
    ensures x as real / y as real == 0.0 <==> x == 0
  {
    var q := x as real / y as real;
    assert q * (y as real) == x as real;
    PartOfWhole(q, x as real, y as real, 1.0 - q);
  }

  /** The overlap ratio lies between zero and one, is symmetric, is one exactly for equal ranges and
      zero exactly for ranges without a common instant. */
  lemma IouMeans(a: TimeRange, b: TimeRange)
    requires a.Ordered() && b.Ordered()
    ensures 0.0 <= EventIou(a, b) <= 1.0 && EventIou(a, b) == EventIou(b, a)
    ensures EventIou(a, b) == 1.0 <==> a == b
    ensures EventIou(a, b) == 0.0 <==> !exists t :: a.Contains(t) && b.Contains(t)
  {
    Quotient(Overlap(a, b), Union(a, b));
    if Overlap(a, b) > 0 {
      var t := Max(a.startMs, b.startMs);
      assert a.Contains(t) && b.Contains(t);
    }
  }

  // ---------------------------------------------------------------- candidates

  /** A pair of positions, with the overlap of what stands there. */
  datatype Candidate = Candidate(iou: real, event: nat, truth: nat)

  /** Higher overlap first, then the earlier event, then the earlier annotation. */
  predicate Before(a: Candidate, b: Candidate) {
    a.iou > b.iou || (a.iou == b.iou && (a.event < b.event || (a.event == b.event && a.truth < b.truth)))
  }

  predicate Clash(a: Candidate, b: Candidate) {
    a.event == b.event || a.truth == b.truth
  }

  predicate AllOrdered(ranges: seq<TimeRange>) {
    forall i :: 0 <= i < |ranges| ==> ranges[i].Ordered()
  }

  predicate IsPair(events: seq<TimeRange>, truths: seq<TimeRange>, c: Candidate)
    requires AllOrdered(events) && AllOrdered(truths)
  {
    c.event < |events| && c.truth < |truths| && c.iou == EventIou(events[c.event], truths[c.truth])
  }

  /** The pairs of the first e events with all annotations and of the next event with the first t. */
  function PairsUpTo(events: seq<TimeRange>, truths: seq<TimeRange>, e: nat, t: nat): (r: seq<Candidate>)
    requires AllOrdered(events) && AllOrdered(truths)
    requires e <= |events| && t <= |truths| && (e == |events| ==> t == 0)
    ensures forall c :: c in r <==> IsPair(events, truths, c) && (c.event < e || (c.event == e && c.truth < t))
    ensures forall i, j :: 0 <= i < j < |r| ==> r[i] != r[j]
    decreases e, t
  {
    if t > 0 then
      PairsUpTo(events, truths, e, t - 1) + [Candidate(EventIou(events[e], truths[t - 1]), e, t - 1)]
    else if e > 0 then
      if |truths| == 0 then PairsUpTo(events, truths, e - 1, 0)
      else PairsUpTo(events, truths, e - 1, |truths| - 1)
           + [Candidate(EventIou(events[e - 1], truths[|truths| - 1]), e - 1, |truths| - 1)]
    else []
  }

  function Ranked(events: seq<TimeRange>, truths: seq<TimeRange>): seq<Candidate>
    requires AllOrdered(events) && AllOrdered(truths)
  {
    Sorting.Sort(Before, PairsUpTo(events, truths, |events|, 0))
  }

  predicate StrictlyRanked(cs: seq<Candidate>) {
    forall i, j :: 0 <= i < j < |cs| ==> Before(cs[i], cs[j])
  }

  /** The ranking holds every pair once, each strictly before the next. */
  lemma RankedIsRanked(events: seq<TimeRange>, truths: seq<TimeRange>)
    requires AllOrdered(events) && AllOrdered(truths)
    ensures forall c :: c in Ranked(events, truths) <==> IsPair(events, truths, c)
    ensures StrictlyRanked(Ranked(events, truths))
  {
    var pairs := PairsUpTo(events, truths, |events|, 0);
    forall c ensures c in Ranked(events, truths) <==> IsPair(events, truths, c) {
      Sorting.SortMembers(Before, pairs, c);
    }
    assert Sorting.WeakOrder(Before);
    forall i, j | 0 <= i < j < |pairs| ensures Before(pairs[i], pairs[j]) || Before(pairs[j], pairs[i]) {
      assert pairs[i] in pairs && pairs[j] in pairs && pairs[i] != pairs[j];
    }
    Sorting.SortOrdersStrictly(Before, pairs);
    RankedStrictly(Ranked(events, truths));
  }

  lemma RankedStrictly(cs: seq<Candidate>)
    requires Sorting.StrictlyOrdered(Before, cs)
    ensures StrictlyRanked(cs)
  {
  }

  // ---------------------------------------------------------------- the greedy pass

  predicate Used(matches: seq<Candidate>, c: Candidate) {
    exists m :: m in matches && Clash(m, c)
  }

  /** Takes, in rank order, every pair at or above the threshold whose two sides are still free. */
  function Greedy(cs: seq<Candidate>, threshold: real): seq<Candidate> {
    if |cs| == 0 then []
    else
      var before, last := Greedy(cs[..|cs| - 1], threshold), cs[|cs| - 1];
      if last.iou < threshold || Used(before, last) then before else before + [last]
  }

  lemma {:induction false} NothingBelow(cs: seq<Candidate>, threshold: real, n: nat)
    requires StrictlyRanked(cs) && n < |cs| && cs[n].iou < threshold
    ensures Greedy(cs, threshold) == Greedy(cs[..n], threshold)
    decreases |cs|
  {
    var init := cs[..|cs| - 1];
    assert init[..if n < |init| then n else |init|] == cs[..if n < |init| then n else |init|];
    if n < |init| {
      assert Before(cs[n], cs[|cs| - 1]);
      NothingBelow(init, threshold, n);
    } else {
      assert init == cs[..n];
    }
  }

  lemma GreedyNext(cs: seq<Candidate>, threshold: real, i: nat)
    requires i < |cs|
    ensures var before := Greedy(cs[..i], threshold);
            Greedy(cs[..i + 1], threshold) ==
            if cs[i].iou < threshold || Used(before, cs[i]) then before else before + [cs[i]]
  {
    assert cs[..i + 1][..i] == cs[..i];
  }

  /** The used positions are those of the matches. */
  ghost predicate Marks(matches: seq<Candidate>, usedEvents: set<nat>, usedTruth: set<nat>) {
    && (forall e :: e in usedEvents <==> exists m :: m in matches && m.event == e)
    && (forall t :: t in usedTruth <==> exists m :: m in matches && m.truth == t)
  }

  lemma MarksMean(matches: seq<Candidate>, usedEvents: set<nat>, usedTruth: set<nat>, c: Candidate)
    requires Marks(matches, usedEvents, usedTruth)
    ensures Used(matches, c) <==> c.event in usedEvents || c.truth in usedTruth
    ensures Marks(matches + [c], usedEvents + {c.event}, usedTruth + {c.truth})
  {
  }

  datatype MatchError = BadThreshold | BadDuration

  /** The loop over the ranked pairs; it stops at the first pair below the threshold. */
  method GreedyPass(candidates: seq<Candidate>, threshold: real)
    returns (matches: seq<Candidate>, usedEvents: set<nat>, usedTruth: set<nat>)
    requires StrictlyRanked(candidates)
    ensures matches == Greedy(candidates, threshold) && Marks(matches, usedEvents, usedTruth)
  {
    usedEvents, usedTruth, matches := {}, {}, [];
    for i := 0 to |candidates|
      invariant matches == Greedy(candidates[..i], threshold)
      invariant Marks(matches, usedEvents, usedTruth)
    {
      var c := candidates[i];
      if c.iou < threshold {
        NothingBelow(candidates, threshold, i);
        return;
      }
      GreedyNext(candidates, threshold, i);
      MarksMean(matches, usedEvents, usedTruth, c);
      if !(c.event in usedEvents || c.truth in usedTruth) {
        usedEvents, usedTruth := usedEvents + {c.event}, usedTruth + {c.truth};
        matches := matches + [c];
      }
    }
    assert candidates[..|candidates|] == candidates;
  }

  method MatchEvents(events: seq<TimeRange>, truths: seq<TimeRange>, threshold: real, durationMs: int)
    returns (r: Result<seq<Candidate>, MatchError>, usedEvents: set<nat>, usedTruth: set<nat>)
    requires AllOrdered(events) && AllOrdered(truths)
    ensures !(0.0 <= threshold <= 1.0) ==> r == Err(BadThreshold)
    ensures 0.0 <= threshold <= 1.0 && durationMs <= 0 ==> r == Err(BadDuration)
    ensures 0.0 <= threshold <= 1.0 && durationMs > 0 ==> r == Ok(Greedy(Ranked(events, truths), threshold))
    ensures r.Ok? ==> Marks(r.value, usedEvents, usedTruth)
  {
    usedEvents, usedTruth := {}, {};
    if !(0.0 <= threshold <= 1.0) {
      return Err(BadThreshold), usedEvents, usedTruth;
    }
    if durationMs <= 0 {
      return Err(BadDuration), usedEvents, usedTruth;
    }
    RankedIsRanked(events, truths);
    var matches;
    matches, usedEvents, usedTruth := GreedyPass(Ranked(events, truths), threshold);
    r := Ok(matches);
  }

  // ---------------------------------------------------------------- what the greedy pass achieves

  ghost predicate OneToOne(s: set<Candidate>) {
    forall a, b :: a in s && b in s && Clash(a, b) ==> a == b
  }

  ghost predicate Eligible(cs: seq<Candidate>, threshold: real, s: set<Candidate>) {
    forall a :: a in s ==> a in cs && a.iou >= threshold
  }

  /** Every eligible pair left out shares a side with a chosen pair that ranks before it. */
  ghost predicate NoBlockingPair(cs: seq<Candidate>, threshold: real, s: set<Candidate>) {
    forall c :: c in cs && c.iou >= threshold && c !in s ==> exists a :: a in s && Before(a, c) && Clash(a, c)
  }

  function Chosen(cs: seq<Candidate>, threshold: real): set<Candidate> {
    set c | c in Greedy(cs, threshold)
  }

  lemma {:induction false} GreedyKeepsRank(cs: seq<Candidate>, threshold: real)
    requires StrictlyRanked(cs)
    ensures forall c :: c in Greedy(cs, threshold) ==> c in cs && c.iou >= threshold
    ensures StrictlyRanked(Greedy(cs, threshold))
  {
    if |cs| > 0 {
      GreedyKeepsRank(cs[..|cs| - 1], threshold);
    }
  }

  lemma {:induction false} GreedyIsOneToOne(cs: seq<Candidate>, threshold: real)
    ensures OneToOne(Chosen(cs, threshold))
    ensures forall i, j :: 0 <= i < j < |Greedy(cs, threshold)| ==> !Clash(Greedy(cs, threshold)[i], Greedy(cs, threshold)[j])
  {
    if |cs| > 0 {
      GreedyIsOneToOne(cs[..|cs| - 1], threshold);
    }
  }

  lemma {:induction false} GreedyHasNoBlocking(cs: seq<Candidate>, threshold: real)
    requires StrictlyRanked(cs)
    ensures NoBlockingPair(cs, threshold, Chosen(cs, threshold))
  {
    if |cs| > 0 {
      var init, last := cs[..|cs| - 1], cs[|cs| - 1];
      GreedyHasNoBlocking(init, threshold);
      GreedyKeepsRank(init, threshold);
      forall c | c in cs && c.iou >= threshold && c !in Chosen(cs, threshold)
        ensures exists a :: a in Chosen(cs, threshold) && Before(a, c) && Clash(a, c)
      {
        if c == last {
          var m :| m in Greedy(init, threshold) && Clash(m, last);
          assert m in Chosen(cs, threshold) && Before(m, last);
        } else {
          assert c in init && c !in Chosen(init, threshold);
          var a :| a in Chosen(init, threshold) && Before(a, c) && Clash(a, c);
          assert a in Chosen(cs, threshold);
        }
      }
    }
  }

  /** One-to-one, at or above the threshold, without a blocking pair. */
  ghost predicate IsStable(cs: seq<Candidate>, threshold: real, s: set<Candidate>) {
    Eligible(cs, threshold, s) && OneToOne(s) && NoBlockingPair(cs, threshold, s)
  }

  lemma GreedyIsStable(cs: seq<Candidate>, threshold: real)
    requires StrictlyRanked(cs)
    ensures IsStable(cs, threshold, Chosen(cs, threshold))
  {
    GreedyKeepsRank(cs, threshold);
    GreedyIsOneToOne(cs, threshold);
    GreedyHasNoBlocking(cs, threshold);
  }

  /** s and the greedy choice agree on the first n pairs. */
  ghost predicate AgreesUpTo(cs: seq<Candidate>, threshold: real, s: set<Candidate>, n: nat)
    requires n <= |cs|
  {
    forall i :: 0 <= i < n ==> (cs[i] in s <==> cs[i] in Greedy(cs[..n], threshold))
  }

  /** A pair at or above the threshold clashes with an earlier greedy pair exactly when s leaves it out. */
  lemma StableTakes(cs: seq<Candidate>, threshold: real, s: set<Candidate>, n: nat)
    requires StrictlyRanked(cs) && IsStable(cs, threshold, s) && n < |cs| && AgreesUpTo(cs, threshold, s, n)
    requires cs[n].iou >= threshold
    ensures cs[n] in s <==> !Used(Greedy(cs[..n], threshold), cs[n])
  {
    var earlier, last := Greedy(cs[..n], threshold), cs[n];
    if last in s {
      forall m | m in earlier ensures !Clash(m, last) {
        GreedyKeepsRank(cs[..n], threshold);
        var i :| 0 <= i < n && cs[i] == m;
        assert cs[i] in s;
      }
    } else {
      var a :| a in s && Before(a, last) && Clash(a, last);
      var i :| 0 <= i < |cs| && cs[i] == a;
      assert i < n;
      assert cs[i] in earlier;
    }
  }

  lemma AgreesNext(cs: seq<Candidate>, threshold: real, s: set<Candidate>, n: nat)
    requires StrictlyRanked(cs) && IsStable(cs, threshold, s) && n < |cs| && AgreesUpTo(cs, threshold, s, n)
    ensures AgreesUpTo(cs, threshold, s, n + 1)
  {
    var earlier, next := Greedy(cs[..n], threshold), Greedy(cs[..n + 1], threshold);
    GreedyNext(cs, threshold, n);
    if cs[n].iou >= threshold {
      StableTakes(cs, threshold, s, n);
    }
    assert cs[n] !in earlier by {
      GreedyKeepsRank(cs[..n], threshold);
    }
    forall i | 0 <= i < n ensures cs[i] in next <==> cs[i] in earlier {
      assert Before(cs[i], cs[n]);
    }
  }

  lemma {:induction false} StableAgreesUpTo(cs: seq<Candidate>, threshold: real, s: set<Candidate>, n: nat)
    requires StrictlyRanked(cs) && IsStable(cs, threshold, s) && n <= |cs|
    ensures AgreesUpTo(cs, threshold, s, n)
  {
    if n > 0 {
      StableAgreesUpTo(cs, threshold, s, n - 1);
      AgreesNext(cs, threshold, s, n - 1);
    }
  }

  /** There is exactly one stable choice: the greedy one. */
  lemma StableIsUnique(cs: seq<Candidate>, threshold: real, s: set<Candidate>)
    requires StrictlyRanked(cs)
    ensures IsStable(cs, threshold, s) <==> s == Chosen(cs, threshold)
  {
    GreedyIsStable(cs, threshold);
    if IsStable(cs, threshold, s) {
      StableAgreesUpTo(cs, threshold, s, |cs|);
      assert AgreesUpTo(cs, threshold, s, |cs|) && cs[..|cs|] == cs;
      GreedyKeepsRank(cs, threshold);
      forall c ensures c in s <==> c in Chosen(cs, threshold) {
        if c in cs {
          var i :| 0 <= i < |cs| && cs[i] == c;
        }
      }
    }
  }

  /** The matches of an evaluation are the one stable choice among all pairs of its events and annotations. */
  lemma MatchesAreStable(events: seq<TimeRange>, truths: seq<TimeRange>, threshold: real, s: set<Candidate>)
    requires AllOrdered(events) && AllOrdered(truths)
    ensures (&& (forall c :: c in s ==> IsPair(events, truths, c) && c.iou >= threshold)
             && OneToOne(s)
             && (forall c :: IsPair(events, truths, c) && c.iou >= threshold && c !in s ==>
                   exists a :: a in s && Before(a, c) && Clash(a, c)))
            <==> s == Chosen(Ranked(events, truths), threshold)
  {
    RankedIsRanked(events, truths);
    StableIsUnique(Ranked(events, truths), threshold, s);
  }
}
