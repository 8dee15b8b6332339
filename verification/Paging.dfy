/** Pages of events in key order, linked by opaque cursors. */
module Paging {
  import opened Contracts
  import opened Base64
  import Sorting
  import opened TextOrder

  /** Events are ordered by start time, then id. */
  datatype Key = Key(startMs: nat, id: string)

  datatype Item = Item(key: Key, body: string)

  predicate Less(a: Key, b: Key) {
    a.startMs < b.startMs || (a.startMs == b.startMs && TextLess(a.id, b.id))
  }

  /** The order on keys is total: of two different ones exactly one comes first. */
  lemma LessIsStrict(a: Key, b: Key)
    ensures !Less(a, a)
    ensures a == b || Less(a, b) || Less(b, a)
    ensures !(Less(a, b) && Less(b, a))
  {
    TextLessIsStrict(a.id, b.id);
  }

  lemma LessIsTransitive(a: Key, b: Key, c: Key)
    requires Less(a, b) && Less(b, c)
    ensures Less(a, c)
  {
    if a.startMs == b.startMs == c.startMs {
      TextLessIsTransitive(a.id, b.id, c.id);
    }
  }

  // ---------------------------------------------------------------- sorting

  predicate ByKey(a: Item, b: Item) {
    Less(a.key, b.key)
  }

  function Sorted(items: seq<Item>): seq<Item> {
    Sorting.Sort(ByKey, items)
  }

  predicate DistinctKeys(items: seq<Item>) {
    forall i, j :: 0 <= i < j < |items| ==> items[i].key != items[j].key
  }

  predicate Increasing(items: seq<Item>) {
    forall i, j :: 0 <= i < j < |items| ==> Less(items[i].key, items[j].key)
  }

  lemma ByKeyIsOrder()
    ensures Sorting.WeakOrder(ByKey)
  {
    forall a, b | ByKey(a, b) ensures !ByKey(b, a) {
      LessIsStrict(a.key, b.key);
    }
    forall a, b, c | !ByKey(b, a) && !ByKey(c, b) ensures !ByKey(c, a) {
      LessIsStrict(a.key, b.key);
      LessIsStrict(b.key, c.key);
      LessIsStrict(a.key, c.key);
      if a.key != b.key && b.key != c.key {
        LessIsTransitive(a.key, b.key, c.key);
      }
    }
  }

  lemma StrictIsIncreasing(items: seq<Item>)
    requires Sorting.StrictlyOrdered(ByKey, items)
    ensures Increasing(items)
  {
    forall i, j | 0 <= i < j < |items| ensures Less(items[i].key, items[j].key) {
      assert ByKey(items[i], items[j]);
    }
  }

  /** Sorting keeps exactly the given events and puts them in strictly increasing key order. */
  lemma SortSorts(items: seq<Item>)
    ensures multiset(Sorted(items)) == multiset(items)
    ensures DistinctKeys(items) ==> Increasing(Sorted(items))
  {
    Sorting.SortKeeps(ByKey, items);
    if DistinctKeys(items) {
      ByKeyIsOrder();
      forall i, j | 0 <= i < j < |items| ensures ByKey(items[i], items[j]) || ByKey(items[j], items[i]) {
        LessIsStrict(items[i].key, items[j].key);
      }
      Sorting.SortOrdersStrictly(ByKey, items);
      StrictIsIncreasing(Sorted(items));
    }
  }

  lemma SortedMembers(items: seq<Item>, x: Item)
    ensures x in Sorted(items) <==> x in items
    ensures |Sorted(items)| == |items|
  {
    Sorting.SortMembers(ByKey, items, x);
    Sorting.SortLength(ByKey, items);
  }

  // ---------------------------------------------------------------- one page

  /** The events beyond a key, in the order given. */
  function Beyond(ordered: seq<Item>, after: Key): seq<Item> {
    if |ordered| == 0 then []
    else
      var rest := Beyond(ordered[..|ordered| - 1], after);
      if Less(after, ordered[|ordered| - 1].key) then rest + [ordered[|ordered| - 1]] else rest
  }

  /** What is still to come for a client that has seen everything up to `after`. */
  function Remaining(items: seq<Item>, after: Option<Key>): seq<Item> {
    if after.None? then Sorted(items) else Beyond(Sorted(items), after.value)
  }

  function FirstOf(ordered: seq<Item>, limit: nat): seq<Item> {
    if |ordered| <= limit then ordered else ordered[..limit]
  }

  /** A page of the repository: the next events, and the key to go on from while there are more. */
  function Page(items: seq<Item>, after: Option<Key>, limit: nat): (seq<Item>, Option<Key>)
    requires limit >= 1
  {
    var ordered := Remaining(items, after);
    var page := FirstOf(ordered, limit);
    (page, if |ordered| > limit then Some(page[|page| - 1].key) else None)
  }

  /** The JSON text of a cursor's key, as some injective serialisation. */
  datatype Json = Json(dumps: Key -> seq<Byte>, loads: seq<Byte> -> Option<Key>)

  ghost predicate Faithful(json: Json) {
    forall key :: json.loads(json.dumps(key)) == Some(key)
  }

  function EncodeCursor(json: Json, key: Key): string {
    Encode(json.dumps(key))
  }

  function DecodeCursor(json: Json, cursor: string): Option<Key> {
    var raw := Decode(cursor);
    if raw.None? then None else json.loads(raw.value)
  }

  datatype Listing = Listing(items: seq<Item>, nextCursor: Option<string>)

  datatype ListError = InvalidCursor

  /** A page of the API. */
  function ListEvents(json: Json, items: seq<Item>, cursor: Option<string>, limit: nat): Result<Listing, ListError>
    requires limit >= 1
  {
    if cursor.Some? && DecodeCursor(json, cursor.value).None? then Err(InvalidCursor)
    else
      var after := if cursor.Some? then DecodeCursor(json, cursor.value) else None;
      var (page, next) := Page(items, after, limit);
      Ok(Listing(page, if next.Some? then Some(EncodeCursor(json, next.value)) else None))
  }

  /** Decoding a cursor undoes encoding it. */
  lemma CursorComesBack(json: Json, key: Key)
    requires Faithful(json)
    ensures DecodeCursor(json, EncodeCursor(json, key)) == Some(key)
  {
    DecodeUndoesEncode(json.dumps(key));
  }

  // ---------------------------------------------------------------- following cursors

  /** What a client collects that follows cursors until there is none, or until it gives up. */
  datatype Crawl = Crawl(items: seq<Item>, finished: bool)

  /** The n-th request finds the n-th element of `worlds` in the store. */
  function Follow(json: Json, worlds: seq<seq<Item>>, limit: nat, cursor: Option<string>): Crawl
    requires limit >= 1
  {
    if |worlds| == 0 then Crawl([], false)
    else
      var answer := ListEvents(json, worlds[0], cursor, limit);
      if answer.Err? then Crawl([], false)
      else if answer.value.nextCursor.None? then Crawl(answer.value.items, true)
      else
        var rest := Follow(json, worlds[1..], limit, answer.value.nextCursor);
        Crawl(answer.value.items + rest.items, rest.finished)
  }

  function CursorAt(json: Json, after: Option<Key>): Option<string> {
    if after.None? then None else Some(EncodeCursor(json, after.value))
  }

  /** One request from a cursor is one page of the repository from the key it stands for. */
  lemma RequestIsPage(json: Json, items: seq<Item>, after: Option<Key>, limit: nat)
    requires Faithful(json) && limit >= 1
    ensures ListEvents(json, items, CursorAt(json, after), limit) ==
            Ok(Listing(Page(items, after, limit).0, CursorAt(json, Page(items, after, limit).1)))
  {
    if after.Some? {
      CursorComesBack(json, after.value);
    }
  }

  /** The same crawl at the repository, whose cursors are the keys themselves. */
  function FollowKeys(worlds: seq<seq<Item>>, limit: nat, after: Option<Key>): Crawl
    requires limit >= 1
  {
    if |worlds| == 0 then Crawl([], false)
    else
      var (page, next) := Page(worlds[0], after, limit);
      if next.None? then Crawl(page, true)
      else
        var rest := FollowKeys(worlds[1..], limit, next);
        Crawl(page + rest.items, rest.finished)
  }

  /** Opaque cursors change nothing: the API delivers what the repository would. */
  lemma {:induction false} CursorsAreTransparent(json: Json, worlds: seq<seq<Item>>, limit: nat, after: Option<Key>)
    requires Faithful(json) && limit >= 1
    ensures Follow(json, worlds, limit, CursorAt(json, after)) == FollowKeys(worlds, limit, after)
  {
    if |worlds| > 0 {
      RequestIsPage(json, worlds[0], after, limit);
      var next := Page(worlds[0], after, limit).1;
      if next.Some? {
        CursorsAreTransparent(json, worlds[1..], limit, next);
      }
    }
  }

  predicate Passed(after: Option<Key>, key: Key) {
    after.None? || Less(after.value, key)
  }

  lemma {:induction false} BeyondMembers(ordered: seq<Item>, after: Key, x: Item)
    ensures x in Beyond(ordered, after) <==> x in ordered && Less(after, x.key)
  {
    if |ordered| > 0 {
      BeyondMembers(ordered[..|ordered| - 1], after, x);
      assert ordered == ordered[..|ordered| - 1] + [ordered[|ordered| - 1]];
    }
  }

  lemma {:induction false} BeyondIncreases(ordered: seq<Item>, after: Key)
    requires Increasing(ordered)
    ensures Increasing(Beyond(ordered, after))
  {
    if |ordered| > 0 {
      var init, last := ordered[..|ordered| - 1], ordered[|ordered| - 1];
      BeyondIncreases(init, after);
      var rest := Beyond(init, after);
      forall i | 0 <= i < |rest| ensures Less(rest[i].key, last.key) {
        BeyondMembers(init, after, rest[i]);
      }
    }
  }

  /** What remains is in strictly increasing order, and is exactly what has not been passed. */
  lemma RemainingIs(items: seq<Item>, after: Option<Key>)
    requires DistinctKeys(items)
    ensures Increasing(Remaining(items, after))
    ensures forall x :: x in Remaining(items, after) <==> x in items && Passed(after, x.key)
  {
    SortSorts(items);
    forall x ensures x in Remaining(items, after) <==> x in items && Passed(after, x.key) {
      SortedMembers(items, x);
      if after.Some? {
        BeyondMembers(Sorted(items), after.value, x);
      }
    }
    if after.Some? {
      BeyondIncreases(Sorted(items), after.value);
    }
  }

  /** A page is the head of what remains, and the key to go on from is its last one. */
  lemma PageSplits(items: seq<Item>, after: Option<Key>, limit: nat)
    requires DistinctKeys(items) && limit >= 1
    ensures var (page, next) := Page(items, after, limit);
            && |page| <= limit && Increasing(page)
            && (forall x :: x in page ==> x in items && Passed(after, x.key))
            && (next.None? ==> page == Remaining(items, after))
            && (next.Some? ==> |page| == limit && next == Some(page[limit - 1].key)
                                && Passed(after, next.value)
                                && forall x :: x in items && Passed(after, x.key) && !Less(next.value, x.key) ==> x in page)
  {
    RemainingIs(items, after);
    var ordered := Remaining(items, after);
    var (page, next) := Page(items, after, limit);
    forall x | x in page ensures x in items && Passed(after, x.key) {
      assert x in ordered;
    }
    if next.Some? {
      assert page[limit - 1] in page;
      forall x | x in items && Passed(after, x.key) && !Less(next.value, x.key) ensures x in page {
        var i :| 0 <= i < |ordered| && ordered[i] == x;
        assert i < limit ==> ordered[i] == page[i];
      }
    }
  }

  ghost predicate AllDistinct(worlds: seq<seq<Item>>) {
    forall n :: 0 <= n < |worlds| ==> DistinctKeys(worlds[n])
  }

  lemma AppendIncreases(page: seq<Item>, rest: seq<Item>)
    requires Increasing(page) && Increasing(rest)
    requires |page| > 0 ==> forall x :: x in rest ==> Less(page[|page| - 1].key, x.key)
    ensures Increasing(page + rest)
  {
    forall i, j | 0 <= i < |page| && 0 <= j < |rest| ensures Less(page[i].key, rest[j].key) {
      assert rest[j] in rest;
      if i < |page| - 1 {
        LessIsTransitive(page[i].key, page[|page| - 1].key, rest[j].key);
      }
    }
  }

  /** Where a page and what is delivered after it stand. */
  lemma PageThenRest(items: seq<Item>, limit: nat, after: Option<Key>, rest: seq<Item>)
    requires limit >= 1 && DistinctKeys(items) && Page(items, after, limit).1.Some?
    requires Increasing(rest) && forall x :: x in rest ==> Passed(Page(items, after, limit).1, x.key)
    ensures Increasing(Page(items, after, limit).0 + rest)
    ensures forall x :: x in Page(items, after, limit).0 + rest ==> Passed(after, x.key)
  {
    PageSplits(items, after, limit);
    var (page, next) := Page(items, after, limit);
    AppendIncreases(page, rest);
    forall x | x in rest ensures Passed(after, x.key) {
      if after.Some? {
        LessIsTransitive(after.value, next.value, x.key);
      }
    }
  }

  lemma LastPageIs(items: seq<Item>, limit: nat, after: Option<Key>)
    requires limit >= 1 && DistinctKeys(items) && Page(items, after, limit).1.None?
    ensures Increasing(Page(items, after, limit).0)
    ensures forall x :: x in Page(items, after, limit).0 <==> x in items && Passed(after, x.key)
  {
    PageSplits(items, after, limit);
    RemainingIs(items, after);
  }

  lemma LaterDistinct(worlds: seq<seq<Item>>)
    requires AllDistinct(worlds) && |worlds| > 0
    ensures DistinctKeys(worlds[0]) && AllDistinct(worlds[1..])
  {
  }

  lemma {:induction false} KeysNeverRepeat(worlds: seq<seq<Item>>, limit: nat, after: Option<Key>)
    requires limit >= 1 && AllDistinct(worlds)
    ensures Increasing(FollowKeys(worlds, limit, after).items)
    ensures forall x :: x in FollowKeys(worlds, limit, after).items ==> Passed(after, x.key)
  {
    if |worlds| > 0 {
      LaterDistinct(worlds);
      var next := Page(worlds[0], after, limit).1;
      if next.None? {
        LastPageIs(worlds[0], limit, after);
      } else {
        KeysNeverRepeat(worlds[1..], limit, next);
        PageThenRest(worlds[0], limit, after, FollowKeys(worlds[1..], limit, next).items);
      }
    }
  }

  ghost predicate AlwaysThere(worlds: seq<seq<Item>>, x: Item) {
    forall n :: 0 <= n < |worlds| ==> x in worlds[n]
  }

  lemma {:induction false} KeysMissNothing(worlds: seq<seq<Item>>, limit: nat, after: Option<Key>, x: Item)
    requires limit >= 1 && AllDistinct(worlds) && FollowKeys(worlds, limit, after).finished
    requires Passed(after, x.key) && AlwaysThere(worlds, x)
    ensures x in FollowKeys(worlds, limit, after).items
  {
    LaterDistinct(worlds);
    assert x in worlds[0];
    var next := Page(worlds[0], after, limit).1;
    if next.None? {
      LastPageIs(worlds[0], limit, after);
    } else if x !in Page(worlds[0], after, limit).0 {
      PageSplits(worlds[0], after, limit);
      assert AlwaysThere(worlds[1..], x);
      KeysMissNothing(worlds[1..], limit, next, x);
    }
  }

  /** However the stored events change between requests, no event is delivered twice and what is
      delivered is in order. */
  lemma CrawlNeverRepeats(json: Json, worlds: seq<seq<Item>>, limit: nat)
    requires Faithful(json) && limit >= 1 && AllDistinct(worlds)
    ensures Increasing(Follow(json, worlds, limit, None).items)
  {
    CursorsAreTransparent(json, worlds, limit, None);
    KeysNeverRepeat(worlds, limit, None);
  }

  /** An event that is stored all the time is delivered to every client that follows the cursors to the end. */
  lemma CrawlMissesNothing(json: Json, worlds: seq<seq<Item>>, limit: nat, x: Item)
    requires Faithful(json) && limit >= 1 && AllDistinct(worlds) && Follow(json, worlds, limit, None).finished
    requires AlwaysThere(worlds, x)
    ensures x in Follow(json, worlds, limit, None).items
  {
    CursorsAreTransparent(json, worlds, limit, None);
    KeysMissNothing(worlds, limit, None, x);
  }

  lemma {:induction false} BeyondIsSuffix(ordered: seq<Item>, n: nat)
    requires Increasing(ordered) && 1 <= n <= |ordered|
    ensures Beyond(ordered, ordered[n - 1].key) == ordered[n..]
  {
    var after := ordered[n - 1].key;
    LessIsStrict(after, after);
    if n == |ordered| {
      forall x | x in ordered ensures !Less(after, x.key) {
        LessIsStrict(x.key, after);
      }
      NothingBeyond(ordered, after);
    } else {
      var init := ordered[..|ordered| - 1];
      assert init[n - 1] == ordered[n - 1];
      BeyondIsSuffix(init, n);
      assert init[n..] + [ordered[|ordered| - 1]] == ordered[n..];
    }
  }

  lemma {:induction false} NothingBeyond(ordered: seq<Item>, after: Key)
    requires forall x :: x in ordered ==> !Less(after, x.key)
    ensures Beyond(ordered, after) == []
  {
    if |ordered| > 0 {
      assert ordered[|ordered| - 1] in ordered;
      NothingBeyond(ordered[..|ordered| - 1], after);
    }
  }

  /** Where a crawl stands after `done` delivered events. */
  function KeyAt(items: seq<Item>, done: nat): Option<Key>
    requires done <= |Sorted(items)|
  {
    if done == 0 then None else Some(Sorted(items)[done - 1].key)
  }

  lemma RemainingAt(items: seq<Item>, done: nat)
    requires DistinctKeys(items) && done <= |Sorted(items)|
    ensures Remaining(items, KeyAt(items, done)) == Sorted(items)[done..]
  {
    SortSorts(items);
    if done > 0 {
      BeyondIsSuffix(Sorted(items), done);
    }
  }

  lemma PageAt(items: seq<Item>, limit: nat, done: nat, ordered: seq<Item>)
    requires limit >= 1 && DistinctKeys(items) && ordered == Sorted(items) && done <= |ordered|
    ensures |ordered| > done + limit ==>
              Page(items, KeyAt(items, done), limit) == (ordered[done..done + limit], KeyAt(items, done + limit))
    ensures |ordered| <= done + limit ==> Page(items, KeyAt(items, done), limit) == (ordered[done..], None)
  {
    RemainingAt(items, done);
    var rest := ordered[done..];
    assert Page(items, KeyAt(items, done), limit).0 == FirstOf(rest, limit);
    if |rest| > limit {
      assert rest[..limit] == ordered[done..done + limit];
    }
  }

  /** Requests that n events take. */
  function RequestsFor(n: nat, limit: nat): nat
    requires limit >= 1
  {
    if n <= limit then 1 else 1 + RequestsFor(n - limit, limit)
  }

  ghost predicate Unchanging(worlds: seq<seq<Item>>, items: seq<Item>) {
    forall n :: 0 <= n < |worlds| ==> worlds[n] == items
  }

  /** The rest of a crawl that has delivered the first `done` events. */
  ghost predicate DeliversRest(worlds: seq<seq<Item>>, limit: nat, items: seq<Item>, done: nat)
    requires limit >= 1 && done <= |Sorted(items)|
  {
    FollowKeys(worlds, limit, KeyAt(items, done)) == Crawl(Sorted(items)[done..], true)
  }

  lemma LastDelivers(worlds: seq<seq<Item>>, limit: nat, items: seq<Item>, done: nat)
    requires limit >= 1 && DistinctKeys(items) && |worlds| > 0 && worlds[0] == items
    requires done <= |Sorted(items)| <= done + limit
    ensures DeliversRest(worlds, limit, items, done)
  {
    PageAt(items, limit, done, Sorted(items));
  }

  lemma EarlierDelivers(worlds: seq<seq<Item>>, limit: nat, items: seq<Item>, done: nat)
    requires limit >= 1 && DistinctKeys(items) && |worlds| > 0 && worlds[0] == items
    requires done + limit < |Sorted(items)| && DeliversRest(worlds[1..], limit, items, done + limit)
    ensures DeliversRest(worlds, limit, items, done)
  {
    var ordered, next := Sorted(items), done + limit;
    PageAt(items, limit, done, ordered);
    assert ordered[done..next] + ordered[next..] == ordered[done..];
  }

  lemma {:induction false} KeysVisitRest(worlds: seq<seq<Item>>, limit: nat, items: seq<Item>, done: nat)
    requires limit >= 1 && DistinctKeys(items) && Unchanging(worlds, items)
    requires done <= |Sorted(items)| && RequestsFor(|Sorted(items)| - done, limit) <= |worlds|
    ensures DeliversRest(worlds, limit, items, done)
    decreases |worlds|
  {
    hide Sorted, DeliversRest, DistinctKeys;
    assert worlds[0] == items;
    if |Sorted(items)| <= done + limit {
      LastDelivers(worlds, limit, items, done);
    } else {
      KeysVisitRest(worlds[1..], limit, items, done + limit);
      EarlierDelivers(worlds, limit, items, done);
    }
  }

  /** With an unchanging set, following cursors from the start delivers every event exactly once, in
      order, within as many requests as there are pages. */
  lemma CrawlVisitsAll(json: Json, items: seq<Item>, worlds: seq<seq<Item>>, limit: nat)
    requires Faithful(json) && limit >= 1 && DistinctKeys(items) && Unchanging(worlds, items)
    requires RequestsFor(|items|, limit) <= |worlds|
    ensures Follow(json, worlds, limit, None) == Crawl(Sorted(items), true)
    ensures multiset(Sorted(items)) == multiset(items) && Increasing(Sorted(items))
  {
    hide Sorted, Follow, FollowKeys, Faithful, RequestsFor, Unchanging, DistinctKeys;
    SortSorts(items);
    assert |Sorted(items)| == |items| by {
      assert |multiset(Sorted(items))| == |multiset(items)|;
    }
    CursorsAreTransparent(json, worlds, limit, None);
    KeysVisitRest(worlds, limit, items, 0);
    assert Sorted(items)[0..] == Sorted(items);
  }
}
