/** The evaluation of a run against ground truth: matches, table and per-class figures. */
module Evaluation {
  import opened Contracts
  import opened Matching
  import opened Confusion
  import Sorting
  import opened TextOrder

  /** An event with its rule, or an annotation with its class. */
  datatype Labelled = Labelled(range: TimeRange, name: string)

  datatype ClassMetrics = ClassMetrics(truePositives: nat, predicted: nat, actual: nat,
                                       precision: real, recall: real, accuracy: real)

  datatype EvaluationResult = EvaluationResult(
    matches: seq<Candidate>, truePositives: nat, falsePositives: int, falseNegatives: int,
    precision: real, recall: real, falsePositivesPerHour: real,
    labels: seq<string>, values: seq<seq<nat>>, perClass: map<string, ClassMetrics>)

  function Ranges(xs: seq<Labelled>): (r: seq<TimeRange>)
    ensures |r| == |xs| && forall i :: 0 <= i < |xs| ==> r[i] == xs[i].range
  {
    if |xs| == 0 then [] else Ranges(xs[..|xs| - 1]) + [xs[|xs| - 1].range]
  }

  function Names(xs: seq<Labelled>): (r: seq<string>)
    ensures |r| == |xs| && forall i :: 0 <= i < |xs| ==> r[i] == xs[i].name
  {
    if |xs| == 0 then [] else Names(xs[..|xs| - 1]) + [xs[|xs| - 1].name]
  }

  function SafeRatio(numerator: int, denominator: int): real {
    if denominator != 0 then numerator as real / denominator as real else 0.0
  }

  function Correct(entries: seq<Entry>): nat {
    if |entries| == 0 then 0
    else Correct(entries[..|entries| - 1]) + (if entries[|entries| - 1].actual == entries[|entries| - 1].predicted then 1 else 0)
  }

  // ---------------------------------------------------------------- cells outside a row and a column

  function RowOff(row: seq<nat>, k: nat): nat {
    if |row| == 0 then 0 else RowOff(row[..|row| - 1], k) + (if |row| - 1 == k then 0 else row[|row| - 1])
  }

  function Off(rows: seq<seq<nat>>, k: nat): nat {
    if |rows| == 0 then 0 else Off(rows[..|rows| - 1], k) + (if |rows| - 1 == k then 0 else RowOff(rows[|rows| - 1], k))
  }

  lemma {:induction false} RowOffIs(row: seq<nat>, k: nat)
    ensures RowOff(row, k) == Sum(row) - (if k < |row| then row[k] else 0)
  {
    if |row| > 0 {
      RowOffIs(row[..|row| - 1], k);
    }
  }

  /** What lies outside row k and column k. */
  lemma {:induction false} OffIs(rows: seq<seq<nat>>, k: nat)
    requires forall i :: 0 <= i < |rows| ==> k < |rows[i]|
    ensures Off(rows, k) == Total(rows) - ColumnSum(rows, k) - (if k < |rows| then Sum(rows[k]) - rows[k][k] else 0)
  {
    if |rows| > 0 {
      OffIs(rows[..|rows| - 1], k);
      RowOffIs(rows[|rows| - 1], k);
    }
  }

  // ---------------------------------------------------------------- the evaluation

  function MetricsAt(rows: seq<seq<nat>>, k: nat): ClassMetrics
    requires Square(rows, |rows|) && k < |rows|
  {
    var tp, predicted, actual := rows[k][k], ColumnSum(rows, k), Sum(rows[k]);
    ClassMetrics(tp, predicted, actual, SafeRatio(tp, predicted), SafeRatio(tp, actual),
                 SafeRatio(tp + Off(rows, k), Total(rows)))
  }

  lemma TableIsSquare(labels: seq<string>, entries: seq<Entry>)
    requires Known(labels, entries)
    ensures Square(Table(labels, entries), |labels|) && |Table(labels, entries)| == |labels|
  {
  }

  /** The figures of the first n labels. */
  method PerClass(labels: seq<string>, rows: seq<seq<nat>>) returns (perClass: map<string, ClassMetrics>)
    requires Square(rows, |rows|) && |rows| == |labels| > 0
    ensures forall l :: l in perClass <==> l in labels[..|labels| - 1]
    ensures forall l :: l in perClass ==> l in labels && perClass[l] == MetricsAt(rows, IndexOf(labels, l))
  {
    perClass := map[];
    for n := 0 to |labels| - 1
      invariant forall l :: l in perClass <==> l in labels[..n]
      invariant forall l :: l in perClass ==> l in labels && perClass[l] == MetricsAt(rows, IndexOf(labels, l))
    {
      assert labels[..n + 1] == labels[..n] + [labels[n]];
      perClass := perClass[labels[n] := MetricsAt(rows, IndexOf(labels, labels[n]))];
    }
  }

  method CountCorrect(matches: seq<Candidate>, predicted: seq<string>, actual: seq<string>) returns (n: nat)
    requires InRange(matches, predicted, actual)
    ensures n == Correct(MatchEntries(matches, predicted, actual))
  {
    n := 0;
    for i := 0 to |matches|
      invariant n == Correct(MatchEntries(matches[..i], predicted, actual))
    {
      MatchEntriesNext(matches, predicted, actual, i);
      if actual[matches[i].truth] == predicted[matches[i].event] {
        n := n + 1;
      }
    }
    assert matches[..|matches|] == matches;
  }

  lemma GreedyInRange(events: seq<Labelled>, truths: seq<Labelled>, threshold: real)
    requires AllOrdered(Ranges(events)) && AllOrdered(Ranges(truths))
    ensures var matches := Greedy(Ranked(Ranges(events), Ranges(truths)), threshold);
            InRange(matches, Names(events), Names(truths)) && NoClash(matches)
  {
    var cs := Ranked(Ranges(events), Ranges(truths));
    RankedIsRanked(Ranges(events), Ranges(truths));
    GreedyKeepsRank(cs, threshold);
    GreedyIsOneToOne(cs, threshold);
    var matches := Greedy(cs, threshold);
    forall i | 0 <= i < |matches| ensures matches[i].event < |events| && matches[i].truth < |truths| {
      assert matches[i] in matches;
    }
  }

  lemma MarksAreUsed(matches: seq<Candidate>, usedEvents: set<nat>, usedTruth: set<nat>)
    requires Marks(matches, usedEvents, usedTruth)
    ensures usedEvents == EventsOf(matches) && usedTruth == TruthsOf(matches)
  {
  }

  /** What an accepted evaluation reports. */
  ghost predicate Reports(r: EvaluationResult, events: seq<Labelled>, truths: seq<Labelled>, threshold: real, durationMs: int)
    requires AllOrdered(Ranges(events)) && AllOrdered(Ranges(truths)) && durationMs > 0
  {
    var predicted, actual := Names(events), Names(truths);
    && r.matches == Greedy(Ranked(Ranges(events), Ranges(truths)), threshold)
    && InRange(r.matches, predicted, actual) && NoClash(r.matches)
    && r.truePositives == Correct(MatchEntries(r.matches, predicted, actual))
    && r.falsePositives == |events| - r.truePositives && r.falseNegatives == |truths| - r.truePositives
    && r.precision == SafeRatio(r.truePositives, |events|) && r.recall == SafeRatio(r.truePositives, |truths|)
    && r.falsePositivesPerHour == (r.falsePositives * 3600000) as real / durationMs as real
    && r.labels == LabelsOf(predicted, actual) && |r.labels| > 0
    && Known(r.labels, EntriesOf(r.matches, predicted, actual))
    && r.values == Table(r.labels, EntriesOf(r.matches, predicted, actual)) && Square(r.values, |r.labels|)
    && (forall l :: l in r.perClass <==> l in r.labels[..|r.labels| - 1])
    && (forall l :: l in r.perClass ==> l in r.labels && r.perClass[l] == MetricsAt(r.values, IndexOf(r.labels, l)))
  }

  method EvaluateEvents(events: seq<Labelled>, truths: seq<Labelled>, threshold: real, durationMs: int)
    returns (r: Result<EvaluationResult, MatchError>)
    requires AllOrdered(Ranges(events)) && AllOrdered(Ranges(truths))
    ensures !(0.0 <= threshold <= 1.0) ==> r == Err(BadThreshold)
    ensures 0.0 <= threshold <= 1.0 && durationMs <= 0 ==> r == Err(BadDuration)
    ensures 0.0 <= threshold <= 1.0 && durationMs > 0 ==> r.Ok? && Reports(r.value, events, truths, threshold, durationMs)
  {
    var matched, usedEvents, usedTruth := MatchEvents(Ranges(events), Ranges(truths), threshold, durationMs);
    if matched.Err? {
      return Err(matched.error);
    }
    var matches, predicted, actual := matched.value, Names(events), Names(truths);
    GreedyInRange(events, truths, threshold);
    MarksAreUsed(matches, usedEvents, usedTruth);
    var labels, values := Confuse(matches, predicted, actual, usedEvents, usedTruth);
    LabelsHold(predicted, actual);
    TableIsSquare(labels, EntriesOf(matches, predicted, actual));
    var correct := CountCorrect(matches, predicted, actual);
    var falsePositives, falseNegatives := |events| - correct, |truths| - correct;
    var perClass := PerClass(labels, values);
    r := Ok(EvaluationResult(matches, correct, falsePositives, falseNegatives,
                             SafeRatio(correct, |events|), SafeRatio(correct, |truths|),
                             (falsePositives * 3600000) as real / durationMs as real, labels, values, perClass));
  }

  // ---------------------------------------------------------------- what the figures mean

  lemma {:induction false} CorrectAtMost(entries: seq<Entry>)
    ensures Correct(entries) <= |entries|
  {
    if |entries| > 0 {
      CorrectAtMost(entries[..|entries| - 1]);
    }
  }

  /** Neither error count is negative, and each counts every event or annotation that is not in a
      match of its own class. */
  lemma ErrorsCount(r: EvaluationResult, events: seq<Labelled>, truths: seq<Labelled>, threshold: real, durationMs: int)
    requires AllOrdered(Ranges(events)) && AllOrdered(Ranges(truths)) && durationMs > 0
    requires Reports(r, events, truths, threshold, durationMs)
    ensures r.falsePositives == FalseAlarmCount(r.matches, Names(events)) + (|r.matches| - r.truePositives)
    ensures r.falseNegatives == MissCount(r.matches, Names(truths)) + (|r.matches| - r.truePositives)
    ensures r.truePositives <= |r.matches|
  {
    MatchedOrUnused(r.matches, Names(events), Names(truths), "");
    CorrectAtMost(MatchEntries(r.matches, Names(events), Names(truths)));
  }

  /** The figures of a class with tp matches, `predicted` events and `actual` annotations among `total`
      outcomes: accuracy leaves out exactly the wrong and the missed ones. */
  function FiguresOf(tp: nat, predicted: nat, actual: nat, total: nat): ClassMetrics {
    var wrong, missed: int := predicted - tp, actual - tp;
    ClassMetrics(tp, predicted, actual, SafeRatio(tp, predicted), SafeRatio(tp, actual),
                 SafeRatio(total - wrong - missed, total))
  }

  /** The figures at one position, from its sums and its diagonal cell. */
  lemma MetricsFromSums(rows: seq<seq<nat>>, k: nat, tp: nat, predicted: nat, actual: nat, total: nat)
    requires Square(rows, |rows|) && k < |rows|
    requires rows[k][k] == tp && ColumnSum(rows, k) == predicted && Sum(rows[k]) == actual && Total(rows) == total
    ensures MetricsAt(rows, k) == FiguresOf(tp, predicted, actual, total)
  {
    OffIs(rows, k);
    assert tp + Off(rows, k) == total - (predicted - tp) - (actual - tp);
  }

  /** The figures a class should have. */
  function ExpectedMetrics(matches: seq<Candidate>, predicted: seq<string>, actual: seq<string>, l: string): ClassMetrics
    requires InRange(matches, predicted, actual)
  {
    FiguresOf(AgreeCount(MatchEntries(matches, predicted, actual), l), Occurrences(predicted, l), Occurrences(actual, l),
              Max(0, |predicted| + |actual| - |matches|))
  }

  lemma MetricsMean(matches: seq<Candidate>, predicted: seq<string>, actual: seq<string>, labels: seq<string>,
                    entries: seq<Entry>, rows: seq<seq<nat>>, l: string)
    requires InRange(matches, predicted, actual) && NoClash(matches)
    requires labels == LabelsOf(predicted, actual) && entries == EntriesOf(matches, predicted, actual) && Known(labels, entries)
    requires rows == Table(labels, entries) && Square(rows, |rows|) && |rows| == |labels|
    requires l in labels && l != NONE_LABEL
    ensures MetricsAt(rows, IndexOf(labels, l)) == ExpectedMetrics(matches, predicted, actual, l)
  {
    hide EntriesOf, LabelsOf, MatchEntries, AgreeCount, Occurrences, Sum, ColumnSum, Total, Off, MetricsAt, FiguresOf;
    TableAccounts(matches, predicted, actual, l);
    DiagonalIsCorrect(matches, predicted, actual, l);
    MetricsFromSums(rows, IndexOf(labels, l), AgreeCount(MatchEntries(matches, predicted, actual), l),
                    Occurrences(predicted, l), Occurrences(actual, l), |predicted| + |actual| - |matches|);
  }

  /** The figures of every class but one called "none": precision is the share of its events, recall the
      share of its annotations, that are in a match of the class; accuracy leaves out exactly its errors. */
  lemma ClassFiguresMean(r: EvaluationResult, events: seq<Labelled>, truths: seq<Labelled>, threshold: real, durationMs: int, l: string)
    requires AllOrdered(Ranges(events)) && AllOrdered(Ranges(truths)) && durationMs > 0
    requires Reports(r, events, truths, threshold, durationMs)
    requires (l in Names(events) || l in Names(truths)) && l != NONE_LABEL
    ensures l in r.perClass && r.perClass[l] == ExpectedMetrics(r.matches, Names(events), Names(truths), l)
  {
    var predicted, actual := Names(events), Names(truths);
    assert l in r.perClass by {
      ClassIsListed(predicted, actual, l);
    }
    MetricsMean(r.matches, predicted, actual, r.labels, EntriesOf(r.matches, predicted, actual), r.values, l);
  }

  lemma ClassIsListed(predicted: seq<string>, actual: seq<string>, l: string)
    requires l in predicted || l in actual
    ensures var labels := LabelsOf(predicted, actual); |labels| > 0 && l in labels[..|labels| - 1]
  {
    Sorting.SortMembers(TextLess, Distinct(predicted + actual), l);
  }

  function AgreeTotal(labels: seq<string>, entries: seq<Entry>): nat {
    if |labels| == 0 then 0 else AgreeTotal(labels[..|labels| - 1], entries) + AgreeCount(entries, labels[|labels| - 1])
  }

  lemma {:induction false} AgreeNext(labels: seq<string>, entries: seq<Entry>, e: Entry)
    requires forall i, j :: 0 <= i < j < |labels| ==> labels[i] != labels[j]
    ensures AgreeTotal(labels, entries + [e]) ==
            AgreeTotal(labels, entries) + (if e.actual == e.predicted && e.actual in labels then 1 else 0)
  {
    if |labels| > 0 {
      var init, last := labels[..|labels| - 1], labels[|labels| - 1];
      AgreeNext(init, entries, e);
      assert (entries + [e])[..|entries|] == entries;
      assert labels == init + [last];
      assert last !in init;
    }
  }

  lemma {:induction false} AgreeNothing(labels: seq<string>)
    ensures AgreeTotal(labels, []) == 0
  {
    if |labels| > 0 {
      AgreeNothing(labels[..|labels| - 1]);
    }
  }

  /** Entries that agree do so on one of the classes. */
  predicate AgreeOn(classes: seq<string>, entries: seq<Entry>) {
    forall i :: 0 <= i < |entries| && entries[i].actual == entries[i].predicted ==> entries[i].actual in classes
  }

  lemma {:induction false} AgreeSums(classes: seq<string>, entries: seq<Entry>)
    requires forall i, j :: 0 <= i < j < |classes| ==> classes[i] != classes[j]
    requires AgreeOn(classes, entries)
    ensures AgreeTotal(classes, entries) == Correct(entries)
  {
    if |entries| == 0 {
      AgreeNothing(classes);
    } else {
      var init := entries[..|entries| - 1];
      AgreeSums(classes, init);
      AgreeNext(classes, init, entries[|entries| - 1]);
      assert entries == init + [entries[|entries| - 1]];
    }
  }

  lemma {:induction false} CorrectAdds(a: seq<Entry>, b: seq<Entry>)
    ensures Correct(a + b) == Correct(a) + Correct(b)
  {
    if |b| == 0 {
      assert a + b == a;
    } else {
      CorrectAdds(a, b[..|b| - 1]);
      assert (a + b)[..|a + b| - 1] == a + b[..|b| - 1];
    }
  }

  /** An event or annotation without a counterpart agrees only if its class is named like "none". */
  lemma {:induction false} UnmatchedAgree(classes: seq<string>, names: seq<string>)
    requires AllIn(names, classes)
    ensures AgreeOn(classes, FalseAlarms(names)) && Correct(FalseAlarms(names)) == Occurrences(names, NONE_LABEL)
    ensures AgreeOn(classes, Misses(names)) && Correct(Misses(names)) == Occurrences(names, NONE_LABEL)
  {
    if |names| > 0 {
      UnmatchedAgree(classes, names[..|names| - 1]);
    }
  }

  /** The agreeing entries of a whole evaluation, counted class by class. */
  lemma EntriesAgree(matches: seq<Candidate>, predicted: seq<string>, actual: seq<string>)
    requires InRange(matches, predicted, actual)
    ensures AgreeTotal(Distinct(predicted + actual), EntriesOf(matches, predicted, actual)) ==
            Correct(MatchEntries(matches, predicted, actual))
            + Occurrences(Unused(predicted, EventsOf(matches)), NONE_LABEL)
            + Occurrences(Unused(actual, TruthsOf(matches)), NONE_LABEL)
  {
    hide Correct, AgreeTotal, Occurrences, FalseAlarms, Misses, MatchEntries;
    var classes := Distinct(predicted + actual);
    assert AllIn(predicted, classes) && AllIn(actual, classes);
    var matched := MatchEntries(matches, predicted, actual);
    var events, truths := Unused(predicted, EventsOf(matches)), Unused(actual, TruthsOf(matches));
    MatchesKnown(classes, matches, predicted, actual);
    UnusedKnown(classes, predicted, EventsOf(matches));
    UnusedKnown(classes, actual, TruthsOf(matches));
    UnmatchedAgree(classes, events);
    UnmatchedAgree(classes, truths);
    CorrectAdds(matched, FalseAlarms(events));
    CorrectAdds(matched + FalseAlarms(events), Misses(truths));
    AgreeSums(classes, EntriesOf(matches, predicted, actual));
  }

  /** The true positives reported for a list of classes. */
  function ClassTotal(perClass: map<string, ClassMetrics>, classes: seq<string>): nat
    requires forall l :: l in classes ==> l in perClass
  {
    if |classes| == 0 then 0
    else ClassTotal(perClass, classes[..|classes| - 1]) + perClass[classes[|classes| - 1]].truePositives
  }

  lemma {:induction false} ClassTotalIs(perClass: map<string, ClassMetrics>, classes: seq<string>, entries: seq<Entry>)
    requires forall l :: l in classes ==> l in perClass && perClass[l].truePositives == AgreeCount(entries, l)
    ensures ClassTotal(perClass, classes) == AgreeTotal(classes, entries)
  {
    if |classes| > 0 {
      ClassTotalIs(perClass, classes[..|classes| - 1], entries);
    }
  }

  /** A class is reported with the entries that agree on it. */
  lemma ReportedTruePositives(r: EvaluationResult, predicted: seq<string>, actual: seq<string>, l: string)
    requires InRange(r.matches, predicted, actual) && r.labels == LabelsOf(predicted, actual) && l in r.labels
    requires Known(r.labels, EntriesOf(r.matches, predicted, actual))
    requires r.values == Table(r.labels, EntriesOf(r.matches, predicted, actual)) && Square(r.values, |r.values|)
    requires l in r.perClass && r.perClass[l] == MetricsAt(r.values, IndexOf(r.labels, l))
    ensures r.perClass[l].truePositives == AgreeCount(EntriesOf(r.matches, predicted, actual), l)
  {
    hide EntriesOf, LabelsOf, AgreeCount;
    DiagonalSums(r.labels, EntriesOf(r.matches, predicted, actual), l);
  }

  /** The true positives of the reported classes add up to the correct matches, and to the unmatched
      events and annotations of a class named like "none", if there is one. */
  lemma ClassesAddUp(r: EvaluationResult, events: seq<Labelled>, truths: seq<Labelled>, threshold: real, durationMs: int)
    requires AllOrdered(Ranges(events)) && AllOrdered(Ranges(truths)) && durationMs > 0
    requires Reports(r, events, truths, threshold, durationMs)
    ensures forall l :: l in r.perClass <==> l in Distinct(Names(events) + Names(truths))
    ensures ClassTotal(r.perClass, Distinct(Names(events) + Names(truths))) ==
            r.truePositives
            + Occurrences(Unused(Names(events), EventsOf(r.matches)), NONE_LABEL)
            + Occurrences(Unused(Names(truths), TruthsOf(r.matches)), NONE_LABEL)
  {
    hide EntriesOf, Correct, MatchEntries, Occurrences, ClassTotal, AgreeTotal, MetricsAt, Table;
    var predicted, actual := Names(events), Names(truths);
    var classes := Distinct(predicted + actual);
    forall l ensures l in r.perClass <==> l in classes {
      Sorting.SortMembers(TextLess, classes, l);
    }
    forall l | l in classes
      ensures l in r.perClass && r.perClass[l].truePositives == AgreeCount(EntriesOf(r.matches, predicted, actual), l)
    {
      ReportedTruePositives(r, predicted, actual, l);
    }
    ClassTotalIs(r.perClass, classes, EntriesOf(r.matches, predicted, actual));
    EntriesAgree(r.matches, predicted, actual);
  }
}
