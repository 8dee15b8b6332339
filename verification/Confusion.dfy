/** The confusion table of an evaluation and the accounting identities its cells obey. */
module Confusion {
  import opened Contracts
  import opened Matching
  import Sorting
  import opened TextOrder

  /** The label for "no counterpart". */
  const NONE_LABEL := "__none__"

  // ---------------------------------------------------------------- labels

  function Distinct(labels: seq<string>): (r: seq<string>)
    ensures forall l :: l in r <==> l in labels
    ensures forall i, j :: 0 <= i < j < |r| ==> r[i] != r[j]
  {
    if |labels| == 0 then []
    else
      var rest, last := Distinct(labels[..|labels| - 1]), labels[|labels| - 1];
      assert labels == labels[..|labels| - 1] + [last];
      if last in rest then rest else rest + [last]
  }

  /** All class labels in order, then the label for "none", which may thus stand there twice. */
  function LabelsOf(predicted: seq<string>, actual: seq<string>): seq<string> {
    Sorting.Sort(TextLess, Distinct(predicted + actual)) + [NONE_LABEL]
  }

  /** The last position of a label. */
  function IndexOf(labels: seq<string>, name: string): (i: nat)
    requires name in labels
    ensures i < |labels| && labels[i] == name
    ensures forall j :: i < j < |labels| ==> labels[j] != name
  {
    if labels[|labels| - 1] == name then |labels| - 1
    else
      assert name in labels[..|labels| - 1];
      IndexOf(labels[..|labels| - 1], name)
  }

  /** The labels are the classes seen, each once and in text order, and then the label for "none". */
  lemma LabelsHold(predicted: seq<string>, actual: seq<string>)
    ensures forall l :: l in LabelsOf(predicted, actual) <==> l in predicted || l in actual || l == NONE_LABEL
    ensures forall i, j :: 0 <= i < j < |LabelsOf(predicted, actual)| - 1 ==>
              TextLess(LabelsOf(predicted, actual)[i], LabelsOf(predicted, actual)[j])
    ensures |LabelsOf(predicted, actual)| > 0
    ensures IndexOf(LabelsOf(predicted, actual), NONE_LABEL) == |LabelsOf(predicted, actual)| - 1
  {
    var labels := Distinct(predicted + actual);
    forall l ensures l in Sorting.Sort(TextLess, labels) <==> l in predicted || l in actual {
      Sorting.SortMembers(TextLess, labels, l);
    }
    TextOrderIsWeak();
    forall i, j | 0 <= i < j < |labels| ensures TextLess(labels[i], labels[j]) || TextLess(labels[j], labels[i]) {
      TextLessIsStrict(labels[i], labels[j]);
    }
    Sorting.SortOrdersStrictly(TextLess, labels);
  }

  lemma TextOrderIsWeak()
    ensures Sorting.WeakOrder(TextLess)
  {
    forall a: string, b: string ensures !(TextLess(a, b) && TextLess(b, a)) {
      TextLessIsStrict(a, b);
    }
    forall a: string, b: string, c: string | !TextLess(b, a) && !TextLess(c, b) ensures !TextLess(c, a) {
      TextLessIsStrict(a, b);
      TextLessIsStrict(b, c);
      if TextLess(a, b) && TextLess(b, c) {
        TextLessIsTransitive(a, b, c);
      }
      TextLessIsStrict(a, c);
    }
  }

  /** Different labels have different positions. */
  lemma IndexIsInjective(labels: seq<string>, a: string, b: string)
    requires a in labels && b in labels
    ensures IndexOf(labels, a) == IndexOf(labels, b) <==> a == b
  {
  }

  // ---------------------------------------------------------------- what the table counts

  /** One thing to count: a row label and a column label. */
  datatype Entry = Entry(actual: string, predicted: string)

  predicate InRange(matches: seq<Candidate>, predicted: seq<string>, actual: seq<string>) {
    forall i :: 0 <= i < |matches| ==> matches[i].event < |predicted| && matches[i].truth < |actual|
  }

  function MatchEntries(matches: seq<Candidate>, predicted: seq<string>, actual: seq<string>): seq<Entry>
    requires InRange(matches, predicted, actual)
  {
    if |matches| == 0 then []
    else
      var m := matches[|matches| - 1];
      MatchEntries(matches[..|matches| - 1], predicted, actual) + [Entry(actual[m.truth], predicted[m.event])]
  }

  /** The labels at positions that are not used. */
  function Unused(labels: seq<string>, used: set<nat>): seq<string> {
    if |labels| == 0 then []
    else
      var rest := Unused(labels[..|labels| - 1], used);
      if |labels| - 1 in used then rest else rest + [labels[|labels| - 1]]
  }

  function FalseAlarms(labels: seq<string>): seq<Entry> {
    if |labels| == 0 then [] else FalseAlarms(labels[..|labels| - 1]) + [Entry(NONE_LABEL, labels[|labels| - 1])]
  }

  function Misses(labels: seq<string>): seq<Entry> {
    if |labels| == 0 then [] else Misses(labels[..|labels| - 1]) + [Entry(labels[|labels| - 1], NONE_LABEL)]
  }

  /** Matches, then events without a counterpart, then annotations without one. */
  function Entries(matches: seq<Candidate>, predicted: seq<string>, actual: seq<string>,
                   usedEvents: set<nat>, usedTruth: set<nat>): seq<Entry>
    requires InRange(matches, predicted, actual)
  {
    MatchEntries(matches, predicted, actual) + FalseAlarms(Unused(predicted, usedEvents)) + Misses(Unused(actual, usedTruth))
  }

  predicate Known(labels: seq<string>, entries: seq<Entry>) {
    forall i :: 0 <= i < |entries| ==> entries[i].actual in labels && entries[i].predicted in labels
  }

  predicate FallsIn(labels: seq<string>, e: Entry, i: nat, j: nat)
    requires e.actual in labels && e.predicted in labels
  {
    IndexOf(labels, e.actual) == i && IndexOf(labels, e.predicted) == j
  }

  function Cell(labels: seq<string>, entries: seq<Entry>, i: nat, j: nat): nat
    requires Known(labels, entries)
  {
    if |entries| == 0 then 0
    else Cell(labels, entries[..|entries| - 1], i, j) + (if FallsIn(labels, entries[|entries| - 1], i, j) then 1 else 0)
  }

  function Row(labels: seq<string>, entries: seq<Entry>, i: nat, width: nat): (r: seq<nat>)
    requires Known(labels, entries)
    ensures |r| == width && forall j :: 0 <= j < width ==> r[j] == Cell(labels, entries, i, j)
  {
    if width == 0 then [] else Row(labels, entries, i, width - 1) + [Cell(labels, entries, i, width - 1)]
  }

  function Rows(labels: seq<string>, entries: seq<Entry>, height: nat): (r: seq<seq<nat>>)
    requires Known(labels, entries)
    ensures |r| == height && forall i :: 0 <= i < height ==> r[i] == Row(labels, entries, i, |labels|)
  {
    if height == 0 then [] else Rows(labels, entries, height - 1) + [Row(labels, entries, height - 1, |labels|)]
  }

  function Table(labels: seq<string>, entries: seq<Entry>): seq<seq<nat>>
    requires Known(labels, entries)
  {
    Rows(labels, entries, |labels|)
  }

  // ---------------------------------------------------------------- building it

  ghost predicate Tallies(values: array2<nat>, labels: seq<string>, entries: seq<Entry>)
    reads values
  {
    && values.Length0 == |labels| && values.Length1 == |labels| && Known(labels, entries)
    && forall i, j :: 0 <= i < |labels| && 0 <= j < |labels| ==> values[i, j] == Cell(labels, entries, i, j)
  }

  lemma CellNext(labels: seq<string>, entries: seq<Entry>, e: Entry, i: nat, j: nat)
    requires Known(labels, entries + [e])
    ensures Known(labels, entries) && e.actual in labels && e.predicted in labels
    ensures Cell(labels, entries + [e], i, j) == Cell(labels, entries, i, j) + (if FallsIn(labels, e, i, j) then 1 else 0)
  {
    assert (entries + [e])[|entries|] == e && (entries + [e])[..|entries|] == entries;
    assert forall k :: 0 <= k < |entries| ==> (entries + [e])[k] == entries[k];
  }

  lemma KnownNext(labels: seq<string>, entries: seq<Entry>, e: Entry)
    requires Known(labels, entries) && e.actual in labels && e.predicted in labels
    ensures Known(labels, entries + [e])
  {
  }

  method Count(values: array2<nat>, labels: seq<string>, e: Entry, ghost entries: seq<Entry>)
    requires Tallies(values, labels, entries) && e.actual in labels && e.predicted in labels
    modifies values
    ensures Tallies(values, labels, entries + [e])
  {
    var row, column := IndexOf(labels, e.actual), IndexOf(labels, e.predicted);
    values[row, column] := values[row, column] + 1;
    KnownNext(labels, entries, e);
    forall i: nat, j: nat | i < |labels| && j < |labels|
      ensures values[i, j] == Cell(labels, entries + [e], i, j)
    {
      CellNext(labels, entries, e, i, j);
    }
  }

  lemma UnusedNext(labels: seq<string>, used: set<nat>, n: nat)
    requires n < |labels|
    ensures n in used ==> Unused(labels[..n + 1], used) == Unused(labels[..n], used)
    ensures n !in used ==> Unused(labels[..n + 1], used) == Unused(labels[..n], used) + [labels[n]]
  {
    assert labels[..n + 1][..n] == labels[..n];
  }

  lemma MatchEntriesNext(matches: seq<Candidate>, predicted: seq<string>, actual: seq<string>, n: nat)
    requires InRange(matches, predicted, actual) && n < |matches|
    ensures MatchEntries(matches[..n + 1], predicted, actual) ==
            MatchEntries(matches[..n], predicted, actual) + [Entry(actual[matches[n].truth], predicted[matches[n].event])]
  {
    assert matches[..n + 1][..n] == matches[..n];
  }

  method CountMatches(values: array2<nat>, labels: seq<string>, matches: seq<Candidate>, predicted: seq<string>, actual: seq<string>)
    requires InRange(matches, predicted, actual) && Tallies(values, labels, [])
    requires forall l :: l in predicted || l in actual ==> l in labels
    modifies values
    ensures Tallies(values, labels, MatchEntries(matches, predicted, actual))
  {
    for n := 0 to |matches|
      invariant Tallies(values, labels, MatchEntries(matches[..n], predicted, actual))
    {
      MatchEntriesNext(matches, predicted, actual, n);
      var m := matches[n];
      Count(values, labels, Entry(actual[m.truth], predicted[m.event]), MatchEntries(matches[..n], predicted, actual));
    }
    assert matches[..|matches|] == matches;
  }

  /** The loop over the events without a counterpart. */
  method CountFalseAlarms(values: array2<nat>, labels: seq<string>, predicted: seq<string>, usedEvents: set<nat>, ghost entries: seq<Entry>)
    requires Tallies(values, labels, entries) && NONE_LABEL in labels && forall l :: l in predicted ==> l in labels
    modifies values
    ensures Tallies(values, labels, entries + FalseAlarms(Unused(predicted, usedEvents)))
  {
    assert entries + [] == entries;
    for n := 0 to |predicted|
      invariant Tallies(values, labels, entries + FalseAlarms(Unused(predicted[..n], usedEvents)))
    {
      ghost var sofar := entries + FalseAlarms(Unused(predicted[..n], usedEvents));
      UnusedNext(predicted, usedEvents, n);
      if n !in usedEvents {
        FalseAlarmsNext(Unused(predicted[..n], usedEvents), predicted[n]);
        Count(values, labels, Entry(NONE_LABEL, predicted[n]), sofar);
        assert sofar + [Entry(NONE_LABEL, predicted[n])]
            == entries + FalseAlarms(Unused(predicted[..n + 1], usedEvents));
      }
    }
    assert predicted[..|predicted|] == predicted;
  }

  /** The loop over the annotations without a counterpart. */
  method CountMisses(values: array2<nat>, labels: seq<string>, actual: seq<string>, usedTruth: set<nat>, ghost entries: seq<Entry>)
    requires Tallies(values, labels, entries) && NONE_LABEL in labels && forall l :: l in actual ==> l in labels
    modifies values
    ensures Tallies(values, labels, entries + Misses(Unused(actual, usedTruth)))
  {
    assert entries + [] == entries;
    for n := 0 to |actual|
      invariant Tallies(values, labels, entries + Misses(Unused(actual[..n], usedTruth)))
    {
      ghost var sofar := entries + Misses(Unused(actual[..n], usedTruth));
      UnusedNext(actual, usedTruth, n);
      if n !in usedTruth {
        MissesNext(Unused(actual[..n], usedTruth), actual[n]);
        Count(values, labels, Entry(actual[n], NONE_LABEL), sofar);
        assert sofar + [Entry(actual[n], NONE_LABEL)] == entries + Misses(Unused(actual[..n + 1], usedTruth));
      }
    }
    assert actual[..|actual|] == actual;
  }

  lemma FalseAlarmsNext(labels: seq<string>, l: string)
    ensures FalseAlarms(labels + [l]) == FalseAlarms(labels) + [Entry(NONE_LABEL, l)]
  {
    assert (labels + [l])[..|labels|] == labels;
  }

  lemma MissesNext(labels: seq<string>, l: string)
    ensures Misses(labels + [l]) == Misses(labels) + [Entry(l, NONE_LABEL)]
  {
    assert (labels + [l])[..|labels|] == labels;
  }

  /** The table as a value. */
  method Frozen(values: array2<nat>, labels: seq<string>, ghost entries: seq<Entry>) returns (rows: seq<seq<nat>>)
    requires Tallies(values, labels, entries)
    ensures rows == Table(labels, entries)
  {
    rows := [];
    for i := 0 to values.Length0
      invariant rows == Rows(labels, entries, i)
    {
      var row := [];
      for j := 0 to values.Length1
        invariant row == Row(labels, entries, i, j)
      {
        row := row + [values[i, j]];
      }
      rows := rows + [row];
    }
  }

  /** The whole table of an evaluation with the given matches. */
  method Confuse(matches: seq<Candidate>, predicted: seq<string>, actual: seq<string>, usedEvents: set<nat>, usedTruth: set<nat>)
    returns (labels: seq<string>, rows: seq<seq<nat>>)
    requires InRange(matches, predicted, actual)
    ensures labels == LabelsOf(predicted, actual)
    ensures Known(labels, Entries(matches, predicted, actual, usedEvents, usedTruth))
    ensures rows == Table(labels, Entries(matches, predicted, actual, usedEvents, usedTruth))
  {
    labels := LabelsOf(predicted, actual);
    LabelsHold(predicted, actual);
    var values := new nat[|labels|, |labels|]((i, j) => 0);
    CountMatches(values, labels, matches, predicted, actual);
    CountFalseAlarms(values, labels, predicted, usedEvents, MatchEntries(matches, predicted, actual));
    ghost var sofar := MatchEntries(matches, predicted, actual) + FalseAlarms(Unused(predicted, usedEvents));
    CountMisses(values, labels, actual, usedTruth, sofar);
    rows := Frozen(values, labels, sofar + Misses(Unused(actual, usedTruth)));
  }

  // ---------------------------------------------------------------- sums over the table

  function Sum(row: seq<nat>): nat {
    if |row| == 0 then 0 else Sum(row[..|row| - 1]) + row[|row| - 1]
  }

  predicate Square(rows: seq<seq<nat>>, n: nat) {
    |rows| == n && forall i :: 0 <= i < n ==> |rows[i]| == n
  }

  function ColumnSum(rows: seq<seq<nat>>, j: nat): nat
    requires forall i :: 0 <= i < |rows| ==> j < |rows[i]|
  {
    if |rows| == 0 then 0 else ColumnSum(rows[..|rows| - 1], j) + rows[|rows| - 1][j]
  }

  function Total(rows: seq<seq<nat>>): nat {
    if |rows| == 0 then 0 else Total(rows[..|rows| - 1]) + Sum(rows[|rows| - 1])
  }

  function ActualCount(entries: seq<Entry>, l: string): nat {
    if |entries| == 0 then 0
    else ActualCount(entries[..|entries| - 1], l) + (if entries[|entries| - 1].actual == l then 1 else 0)
  }

  function PredictedCount(entries: seq<Entry>, l: string): nat {
    if |entries| == 0 then 0
    else PredictedCount(entries[..|entries| - 1], l) + (if entries[|entries| - 1].predicted == l then 1 else 0)
  }

  function AgreeCount(entries: seq<Entry>, l: string): nat {
    if |entries| == 0 then 0
    else AgreeCount(entries[..|entries| - 1], l) + (if entries[|entries| - 1] == Entry(l, l) then 1 else 0)
  }

  // The same sums, over cells.

  function RowUpTo(labels: seq<string>, entries: seq<Entry>, i: nat, width: nat): nat
    requires Known(labels, entries)
  {
    if width == 0 then 0 else RowUpTo(labels, entries, i, width - 1) + Cell(labels, entries, i, width - 1)
  }

  function ColumnUpTo(labels: seq<string>, entries: seq<Entry>, height: nat, j: nat): nat
    requires Known(labels, entries)
  {
    if height == 0 then 0 else ColumnUpTo(labels, entries, height - 1, j) + Cell(labels, entries, height - 1, j)
  }

  function TotalUpTo(labels: seq<string>, entries: seq<Entry>, height: nat): nat
    requires Known(labels, entries)
  {
    if height == 0 then 0 else TotalUpTo(labels, entries, height - 1) + RowUpTo(labels, entries, height - 1, |labels|)
  }

  lemma {:induction false} RowIs(labels: seq<string>, entries: seq<Entry>, i: nat, width: nat)
    requires Known(labels, entries)
    ensures Sum(Row(labels, entries, i, width)) == RowUpTo(labels, entries, i, width)
  {
    if width > 0 {
      var row := Row(labels, entries, i, width);
      assert row[..|row| - 1] == Row(labels, entries, i, width - 1);
      RowIs(labels, entries, i, width - 1);
    }
  }

  lemma {:induction false} ColumnIs(labels: seq<string>, entries: seq<Entry>, height: nat, j: nat)
    requires Known(labels, entries) && j < |labels|
    ensures ColumnSum(Rows(labels, entries, height), j) == ColumnUpTo(labels, entries, height, j)
  {
    if height > 0 {
      var rows := Rows(labels, entries, height);
      assert rows[..|rows| - 1] == Rows(labels, entries, height - 1);
      ColumnIs(labels, entries, height - 1, j);
    }
  }

  lemma {:induction false} TotalIs(labels: seq<string>, entries: seq<Entry>, height: nat)
    requires Known(labels, entries)
    ensures Total(Rows(labels, entries, height)) == TotalUpTo(labels, entries, height)
  {
    if height > 0 {
      var rows := Rows(labels, entries, height);
      assert rows[..|rows| - 1] == Rows(labels, entries, height - 1);
      TotalIs(labels, entries, height - 1);
      RowIs(labels, entries, height - 1, |labels|);
    }
  }

  // What one more entry adds to each.

  lemma {:induction false} RowNext(labels: seq<string>, entries: seq<Entry>, e: Entry, i: nat, width: nat)
    requires Known(labels, entries) && Known(labels, entries + [e]) && e.actual in labels && e.predicted in labels
    ensures RowUpTo(labels, entries + [e], i, width) ==
            RowUpTo(labels, entries, i, width)
            + (if IndexOf(labels, e.actual) == i && IndexOf(labels, e.predicted) < width then 1 else 0)
  {
    if width > 0 {
      RowNext(labels, entries, e, i, width - 1);
      CellNext(labels, entries, e, i, width - 1);
    }
  }

  lemma {:induction false} ColumnNext(labels: seq<string>, entries: seq<Entry>, e: Entry, height: nat, j: nat)
    requires Known(labels, entries) && Known(labels, entries + [e]) && e.actual in labels && e.predicted in labels
    ensures ColumnUpTo(labels, entries + [e], height, j) ==
            ColumnUpTo(labels, entries, height, j)
            + (if IndexOf(labels, e.predicted) == j && IndexOf(labels, e.actual) < height then 1 else 0)
  {
    if height > 0 {
      ColumnNext(labels, entries, e, height - 1, j);
      CellNext(labels, entries, e, height - 1, j);
    }
  }

  lemma {:induction false} TotalNext(labels: seq<string>, entries: seq<Entry>, e: Entry, height: nat)
    requires Known(labels, entries) && Known(labels, entries + [e]) && e.actual in labels && e.predicted in labels
    ensures TotalUpTo(labels, entries + [e], height) ==
            TotalUpTo(labels, entries, height) + (if IndexOf(labels, e.actual) < height then 1 else 0)
  {
    if height > 0 {
      TotalNext(labels, entries, e, height - 1);
      RowNext(labels, entries, e, height - 1, |labels|);
    }
  }

  lemma {:induction false} NothingCounted(labels: seq<string>, k: nat, n: nat)
    ensures RowUpTo(labels, [], k, n) == 0 && ColumnUpTo(labels, [], n, k) == 0
  {
    if n > 0 {
      NothingCounted(labels, k, n - 1);
    }
  }

  lemma {:induction false} NothingInAll(labels: seq<string>, height: nat)
    ensures TotalUpTo(labels, [], height) == 0
  {
    if height > 0 {
      NothingInAll(labels, height - 1);
      NothingCounted(labels, height - 1, |labels|);
    }
  }

  lemma Split(labels: seq<string>, entries: seq<Entry>)
    requires Known(labels, entries) && |entries| > 0
    ensures var init, e := entries[..|entries| - 1], entries[|entries| - 1];
            Known(labels, init) && e.actual in labels && e.predicted in labels && entries == init + [e]
  {
  }

  /** A row sums to the entries with its label as the actual one. */
  lemma {:induction false} RowSums(labels: seq<string>, entries: seq<Entry>, l: string)
    requires Known(labels, entries) && l in labels
    ensures RowUpTo(labels, entries, IndexOf(labels, l), |labels|) == ActualCount(entries, l)
  {
    var i := IndexOf(labels, l);
    if |entries| == 0 {
      NothingCounted(labels, i, |labels|);
    } else {
      var init, e := entries[..|entries| - 1], entries[|entries| - 1];
      Split(labels, entries);
      RowSums(labels, init, l);
      RowNext(labels, init, e, i, |labels|);
      IndexIsInjective(labels, l, e.actual);
    }
  }

  /** A column sums to the entries with its label as the predicted one. */
  lemma {:induction false} ColumnSums(labels: seq<string>, entries: seq<Entry>, l: string)
    requires Known(labels, entries) && l in labels
    ensures ColumnUpTo(labels, entries, |labels|, IndexOf(labels, l)) == PredictedCount(entries, l)
  {
    var j := IndexOf(labels, l);
    if |entries| == 0 {
      NothingCounted(labels, j, |labels|);
    } else {
      var init, e := entries[..|entries| - 1], entries[|entries| - 1];
      Split(labels, entries);
      ColumnSums(labels, init, l);
      ColumnNext(labels, init, e, |labels|, j);
      IndexIsInjective(labels, l, e.predicted);
    }
  }

  /** The whole table sums to the number of entries. */
  lemma {:induction false} TotalSums(labels: seq<string>, entries: seq<Entry>)
    requires Known(labels, entries)
    ensures TotalUpTo(labels, entries, |labels|) == |entries|
  {
    if |entries| == 0 {
      NothingInAll(labels, |labels|);
    } else {
      Split(labels, entries);
      TotalSums(labels, entries[..|entries| - 1]);
      TotalNext(labels, entries[..|entries| - 1], entries[|entries| - 1], |labels|);
    }
  }

  /** A diagonal cell counts the entries that agree on its label. */
  lemma {:induction false} DiagonalSums(labels: seq<string>, entries: seq<Entry>, l: string)
    requires Known(labels, entries) && l in labels
    ensures Cell(labels, entries, IndexOf(labels, l), IndexOf(labels, l)) == AgreeCount(entries, l)
  {
    if |entries| > 0 {
      var e := entries[|entries| - 1];
      DiagonalSums(labels, entries[..|entries| - 1], l);
      IndexIsInjective(labels, l, e.actual);
      IndexIsInjective(labels, l, e.predicted);
    }
  }

  // ---------------------------------------------------------------- what the entries amount to

  function Occurrences(labels: seq<string>, l: string): nat {
    if |labels| == 0 then 0
    else Occurrences(labels[..|labels| - 1], l) + (if labels[|labels| - 1] == l then 1 else 0)
  }

  function EventsOf(matches: seq<Candidate>): set<nat> {
    set m | m in matches :: m.event
  }

  function TruthsOf(matches: seq<Candidate>): set<nat> {
    set m | m in matches :: m.truth
  }

  predicate NoClash(matches: seq<Candidate>) {
    forall i, j :: 0 <= i < j < |matches| ==> !Clash(matches[i], matches[j])
  }

  lemma {:induction false} UsingOne(labels: seq<string>, used: set<nat>, t: nat, l: string)
    requires t !in used
    ensures Occurrences(Unused(labels, used), l) ==
            Occurrences(Unused(labels, used + {t}), l) + (if t < |labels| && labels[t] == l then 1 else 0)
    ensures |Unused(labels, used)| == |Unused(labels, used + {t})| + (if t < |labels| then 1 else 0)
  {
    if |labels| > 0 {
      var n := |labels| - 1;
      UsingOne(labels[..n], used, t, l);
      OccurrencesNext(Unused(labels[..n], used), labels[n], l);
      OccurrencesNext(Unused(labels[..n], used + {t}), labels[n], l);
      assert n in used + {t} <==> n in used || n == t;
    }
  }

  lemma OccurrencesNext(labels: seq<string>, last: string, l: string)
    ensures Occurrences(labels + [last], l) == Occurrences(labels, l) + (if last == l then 1 else 0)
  {
    assert (labels + [last])[..|labels|] == labels;
  }

  lemma {:induction false} AllUnused(labels: seq<string>)
    ensures Unused(labels, {}) == labels
  {
    if |labels| > 0 {
      AllUnused(labels[..|labels| - 1]);
    }
  }

  lemma LastMatch(matches: seq<Candidate>)
    requires |matches| > 0 && NoClash(matches)
    ensures var init, m := matches[..|matches| - 1], matches[|matches| - 1];
            && NoClash(init) && m.event !in EventsOf(init) && m.truth !in TruthsOf(init)
            && EventsOf(matches) == EventsOf(init) + {m.event} && TruthsOf(matches) == TruthsOf(init) + {m.truth}
  {
    var init, m := matches[..|matches| - 1], matches[|matches| - 1];
    assert matches == init + [m];
    forall i | 0 <= i < |init| ensures init[i].event != m.event && init[i].truth != m.truth {
      assert !Clash(matches[i], matches[|matches| - 1]);
    }
  }

  /** Every annotation is matched once or not at all, and so is every event. */
  lemma {:induction false} MatchedOrUnused(matches: seq<Candidate>, predicted: seq<string>, actual: seq<string>, l: string)
    requires InRange(matches, predicted, actual) && NoClash(matches)
    ensures var es := MatchEntries(matches, predicted, actual);
            && ActualCount(es, l) + Occurrences(Unused(actual, TruthsOf(matches)), l) == Occurrences(actual, l)
            && PredictedCount(es, l) + Occurrences(Unused(predicted, EventsOf(matches)), l) == Occurrences(predicted, l)
            && |es| == |matches|
            && |Unused(actual, TruthsOf(matches))| + |matches| == |actual|
            && |Unused(predicted, EventsOf(matches))| + |matches| == |predicted|
  {
    if |matches| == 0 {
      assert EventsOf(matches) == {} && TruthsOf(matches) == {};
      AllUnused(actual);
      AllUnused(predicted);
    } else {
      var init, m := matches[..|matches| - 1], matches[|matches| - 1];
      LastMatch(matches);
      MatchedOrUnused(init, predicted, actual, l);
      UsingOne(actual, TruthsOf(init), m.truth, l);
      UsingOne(predicted, EventsOf(init), m.event, l);
    }
  }

  lemma {:induction false} CountsAdd(a: seq<Entry>, b: seq<Entry>, l: string)
    ensures ActualCount(a + b, l) == ActualCount(a, l) + ActualCount(b, l)
    ensures PredictedCount(a + b, l) == PredictedCount(a, l) + PredictedCount(b, l)
    ensures AgreeCount(a + b, l) == AgreeCount(a, l) + AgreeCount(b, l)
  {
    if |b| == 0 {
      assert a + b == a;
    } else {
      assert (a + b)[..|a + b| - 1] == a + b[..|b| - 1];
      CountsAdd(a, b[..|b| - 1], l);
    }
  }

  lemma {:induction false} FalseAlarmCounts(labels: seq<string>, l: string)
    ensures var es := FalseAlarms(labels);
            && |es| == |labels|
            && ActualCount(es, l) == (if l == NONE_LABEL then |labels| else 0)
            && PredictedCount(es, l) == Occurrences(labels, l)
            && AgreeCount(es, l) == (if l == NONE_LABEL then Occurrences(labels, l) else 0)
  {
    if |labels| > 0 {
      FalseAlarmCounts(labels[..|labels| - 1], l);
    }
  }

  lemma {:induction false} MissCounts(labels: seq<string>, l: string)
    ensures var es := Misses(labels);
            && |es| == |labels|
            && ActualCount(es, l) == Occurrences(labels, l)
            && PredictedCount(es, l) == (if l == NONE_LABEL then |labels| else 0)
            && AgreeCount(es, l) == (if l == NONE_LABEL then Occurrences(labels, l) else 0)
  {
    if |labels| > 0 {
      MissCounts(labels[..|labels| - 1], l);
    }
  }

  // ---------------------------------------------------------------- main results

  /** The entries of an evaluation. */
  function EntriesOf(matches: seq<Candidate>, predicted: seq<string>, actual: seq<string>): seq<Entry>
    requires InRange(matches, predicted, actual)
  {
    Entries(matches, predicted, actual, EventsOf(matches), TruthsOf(matches))
  }

  function FalseAlarmCount(matches: seq<Candidate>, predicted: seq<string>): nat {
    |Unused(predicted, EventsOf(matches))|
  }

  function MissCount(matches: seq<Candidate>, actual: seq<string>): nat {
    |Unused(actual, TruthsOf(matches))|
  }

  lemma EntryCounts(matches: seq<Candidate>, predicted: seq<string>, actual: seq<string>, l: string)
    requires InRange(matches, predicted, actual) && NoClash(matches)
    ensures var es := EntriesOf(matches, predicted, actual);
            && |es| == |predicted| + |actual| - |matches|
            && ActualCount(es, l) == Occurrences(actual, l) + (if l == NONE_LABEL then FalseAlarmCount(matches, predicted) else 0)
            && PredictedCount(es, l) == Occurrences(predicted, l) + (if l == NONE_LABEL then MissCount(matches, actual) else 0)
            && (l != NONE_LABEL ==> AgreeCount(es, l) == AgreeCount(MatchEntries(matches, predicted, actual), l))
  {
    var matched := MatchEntries(matches, predicted, actual);
    var alarms, misses := Unused(predicted, EventsOf(matches)), Unused(actual, TruthsOf(matches));
    MatchedOrUnused(matches, predicted, actual, l);
    FalseAlarmCounts(alarms, l);
    MissCounts(misses, l);
    CountsAdd(matched, FalseAlarms(alarms), l);
    CountsAdd(matched + FalseAlarms(alarms), Misses(misses), l);
  }

  lemma EntriesKnown(matches: seq<Candidate>, predicted: seq<string>, actual: seq<string>)
    requires InRange(matches, predicted, actual)
    ensures Known(LabelsOf(predicted, actual), EntriesOf(matches, predicted, actual))
  {
    LabelsHold(predicted, actual);
    var labels := LabelsOf(predicted, actual);
    MatchesKnown(labels, matches, predicted, actual);
    UnusedKnown(labels, predicted, EventsOf(matches));
    UnusedKnown(labels, actual, TruthsOf(matches));
    AlarmsKnown(labels, Unused(predicted, EventsOf(matches)));
    AlarmsKnown(labels, Unused(actual, TruthsOf(matches)));
  }

  ghost predicate AllIn(labels: seq<string>, all: seq<string>) {
    forall i :: 0 <= i < |labels| ==> labels[i] in all
  }

  lemma {:induction false} MatchesKnown(labels: seq<string>, matches: seq<Candidate>, predicted: seq<string>, actual: seq<string>)
    requires InRange(matches, predicted, actual) && AllIn(predicted, labels) && AllIn(actual, labels)
    ensures Known(labels, MatchEntries(matches, predicted, actual))
  {
    if |matches| > 0 {
      MatchesKnown(labels, matches[..|matches| - 1], predicted, actual);
    }
  }

  lemma {:induction false} UnusedKnown(all: seq<string>, labels: seq<string>, used: set<nat>)
    requires AllIn(labels, all)
    ensures AllIn(Unused(labels, used), all)
  {
    if |labels| > 0 {
      UnusedKnown(all, labels[..|labels| - 1], used);
    }
  }

  lemma {:induction false} AlarmsKnown(all: seq<string>, labels: seq<string>)
    requires NONE_LABEL in all && AllIn(labels, all)
    ensures Known(all, FalseAlarms(labels)) && Known(all, Misses(labels))
  {
    if |labels| > 0 {
      AlarmsKnown(all, labels[..|labels| - 1]);
    }
  }

  /** The row of a class sums to its annotations and its column to its events, exactly when the class
      is not the "none" label or nothing went without a counterpart on the other side; the whole
      table always sums to events plus annotations minus matches. */
  lemma TableAccounts(matches: seq<Candidate>, predicted: seq<string>, actual: seq<string>, l: string)
    requires InRange(matches, predicted, actual) && NoClash(matches) && l in LabelsOf(predicted, actual)
    ensures Known(LabelsOf(predicted, actual), EntriesOf(matches, predicted, actual))
    ensures var labels := LabelsOf(predicted, actual);
            var rows := Table(labels, EntriesOf(matches, predicted, actual));
            var i := IndexOf(labels, l);
            && (Sum(rows[i]) == Occurrences(actual, l) <==> l != NONE_LABEL || FalseAlarmCount(matches, predicted) == 0)
            && (ColumnSum(rows, i) == Occurrences(predicted, l) <==> l != NONE_LABEL || MissCount(matches, actual) == 0)
            && Total(rows) == |predicted| + |actual| - |matches|
  {
    EntriesKnown(matches, predicted, actual);
    var labels, entries := LabelsOf(predicted, actual), EntriesOf(matches, predicted, actual);
    EntryCounts(matches, predicted, actual, l);
    RowSums(labels, entries, l);
    RowIs(labels, entries, IndexOf(labels, l), |labels|);
    ColumnSums(labels, entries, l);
    ColumnIs(labels, entries, |labels|, IndexOf(labels, l));
    TotalSums(labels, entries);
    TotalIs(labels, entries, |labels|);
  }

  /** The diagonal cell of a class counts its matches that agree on it. */
  lemma DiagonalIsCorrect(matches: seq<Candidate>, predicted: seq<string>, actual: seq<string>, l: string)
    requires InRange(matches, predicted, actual) && NoClash(matches)
    requires l in LabelsOf(predicted, actual) && l != NONE_LABEL
    ensures Known(LabelsOf(predicted, actual), EntriesOf(matches, predicted, actual))
    ensures var labels := LabelsOf(predicted, actual);
            var i := IndexOf(labels, l);
            Table(labels, EntriesOf(matches, predicted, actual))[i][i] == AgreeCount(MatchEntries(matches, predicted, actual), l)
  {
    EntriesKnown(matches, predicted, actual);
    var labels, entries := LabelsOf(predicted, actual), EntriesOf(matches, predicted, actual);
    EntryCounts(matches, predicted, actual, l);
    DiagonalSums(labels, entries, l);
  }
}
