/** Stable sorting by an order given as a comparison. */
module Sorting {

  function Insert<T>(less: (T, T) -> bool, x: T, ordered: seq<T>): seq<T> {
    if |ordered| == 0 || !less(x, ordered[|ordered| - 1]) then ordered + [x]
    else Insert(less, x, ordered[..|ordered| - 1]) + [ordered[|ordered| - 1]]
  }

  function Sort<T>(less: (T, T) -> bool, xs: seq<T>): seq<T> {
    if |xs| == 0 then [] else Insert(less, xs[|xs| - 1], Sort(less, xs[..|xs| - 1]))
  }

  /** Nothing comes before itself, and what does not come before one of two things in order does not
      come before the other in the wrong direction. */
  ghost predicate WeakOrder<T(!new)>(less: (T, T) -> bool) {
    && (forall a, b :: less(a, b) ==> !less(b, a))
    && (forall a, b, c :: !less(b, a) && !less(c, b) ==> !less(c, a))
  }

  ghost predicate Ordered<T>(less: (T, T) -> bool, xs: seq<T>) {
    forall i, j :: 0 <= i < j < |xs| ==> !less(xs[j], xs[i])
  }

  lemma {:induction false} InsertKeeps<T>(less: (T, T) -> bool, x: T, ordered: seq<T>)
    ensures multiset(Insert(less, x, ordered)) == multiset(ordered) + multiset{x}
  {
    if |ordered| == 0 || !less(x, ordered[|ordered| - 1]) {
    } else {
      InsertKeeps(less, x, ordered[..|ordered| - 1]);
      assert ordered == ordered[..|ordered| - 1] + [ordered[|ordered| - 1]];
    }
  }

  /** Sorting rearranges. */
  lemma {:induction false} SortKeeps<T>(less: (T, T) -> bool, xs: seq<T>)
    ensures multiset(Sort(less, xs)) == multiset(xs)
  {
    if |xs| > 0 {
      SortKeeps(less, xs[..|xs| - 1]);
      InsertKeeps(less, xs[|xs| - 1], Sort(less, xs[..|xs| - 1]));
      assert xs == xs[..|xs| - 1] + [xs[|xs| - 1]];
    }
  }

  lemma SortMembers<T>(less: (T, T) -> bool, xs: seq<T>, x: T)
    ensures x in Sort(less, xs) <==> x in xs
  {
    SortKeeps(less, xs);
    assert x in Sort(less, xs) <==> x in multiset(Sort(less, xs));
    assert x in xs <==> x in multiset(xs);
  }

  lemma SortLength<T>(less: (T, T) -> bool, xs: seq<T>)
    ensures |Sort(less, xs)| == |xs|
  {
    SortKeeps(less, xs);
    assert |multiset(Sort(less, xs))| == |multiset(xs)|;
  }

  lemma {:induction false} InsertAfter<T(!new)>(less: (T, T) -> bool, x: T, ordered: seq<T>, last: T)
    requires WeakOrder(less) && less(x, last) && forall y :: y in ordered ==> !less(last, y)
    ensures forall y :: y in Insert(less, x, ordered) ==> !less(last, y)
  {
    if |ordered| == 0 || !less(x, ordered[|ordered| - 1]) {
    } else {
      InsertAfter(less, x, ordered[..|ordered| - 1], last);
    }
  }

  lemma {:induction false} InsertOrders<T(!new)>(less: (T, T) -> bool, x: T, ordered: seq<T>)
    requires WeakOrder(less) && Ordered(less, ordered)
    ensures Ordered(less, Insert(less, x, ordered))
  {
    if |ordered| > 0 {
      var init, last := ordered[..|ordered| - 1], ordered[|ordered| - 1];
      if less(x, last) {
        InsertOrders(less, x, init);
        InsertAfter(less, x, init, last);
        var inner := Insert(less, x, init);
        forall i | 0 <= i < |inner| ensures !less(last, inner[i]) {
          assert inner[i] in inner;
        }
      }
    }
  }

  /** Sorting puts nothing behind something it comes before. */
  lemma {:induction false} SortOrders<T(!new)>(less: (T, T) -> bool, xs: seq<T>)
    requires WeakOrder(less)
    ensures Ordered(less, Sort(less, xs))
  {
    if |xs| > 0 {
      SortOrders(less, xs[..|xs| - 1]);
      InsertOrders(less, xs[|xs| - 1], Sort(less, xs[..|xs| - 1]));
    }
  }

  // ---------------------------------------------------------------- without ties

  ghost predicate NoTies<T>(less: (T, T) -> bool, xs: seq<T>) {
    forall i, j :: 0 <= i < j < |xs| ==> less(xs[i], xs[j]) || less(xs[j], xs[i])
  }

  ghost predicate StrictlyOrdered<T>(less: (T, T) -> bool, xs: seq<T>) {
    forall i, j :: 0 <= i < j < |xs| ==> less(xs[i], xs[j])
  }

  lemma WeakIsTransitive<T(!new)>(less: (T, T) -> bool, a: T, b: T, c: T)
    requires WeakOrder(less) && less(a, b) && less(b, c)
    ensures less(a, c)
  {
    assert !less(c, b);
  }

  lemma {:induction false} InsertOrdersStrictly<T(!new)>(less: (T, T) -> bool, x: T, ordered: seq<T>)
    requires WeakOrder(less) && StrictlyOrdered(less, ordered)
    requires forall y :: y in ordered ==> less(x, y) || less(y, x)
    ensures StrictlyOrdered(less, Insert(less, x, ordered))
  {
    if |ordered| > 0 {
      var init, last := ordered[..|ordered| - 1], ordered[|ordered| - 1];
      if less(x, last) {
        InsertOrdersStrictly(less, x, init);
        InsertKeeps(less, x, init);
        var inner := Insert(less, x, init);
        forall i | 0 <= i < |inner| ensures less(inner[i], last) {
          assert inner[i] in multiset(inner);
          assert inner[i] in init || inner[i] == x;
        }
      } else {
        forall i | 0 <= i < |ordered| ensures less(ordered[i], x) {
          if i < |ordered| - 1 {
            WeakIsTransitive(less, ordered[i], last, x);
          }
        }
      }
    }
  }

  /** Sorting things of which no two tie puts each strictly before the next. */
  lemma {:induction false} SortOrdersStrictly<T(!new)>(less: (T, T) -> bool, xs: seq<T>)
    requires WeakOrder(less) && NoTies(less, xs)
    ensures StrictlyOrdered(less, Sort(less, xs))
  {
    if |xs| > 0 {
      var init, last := xs[..|xs| - 1], xs[|xs| - 1];
      SortOrdersStrictly(less, init);
      forall y | y in Sort(less, init) ensures less(last, y) || less(y, last) {
        SortMembers(less, init, y);
      }
      InsertOrdersStrictly(less, last, Sort(less, init));
    }
  }
}
