/** Competing ledger service instances, interleaved at single reads and compare-and-swaps. */
module LedgerInterleaving {
  import opened Contracts
  import opened Ledger

  /** Where one call stands. Its instance carries its own configured limit. */
  datatype Client =
    | Idle
    | Intending(owner: Owner, limit: nat, c: Change)
    | Holding(owner: Owner, limit: nat, c: Change, seen: Account)

  datatype System = System(docs: Docs, clients: map<nat, Client>, issued: set<string>)

  datatype Event =
    | Reserve(client: nat, owner: Owner, limit: nat, newId: string, amount: nat)
    | Close(client: nat, limit: nat, c: Change)
    | Read(client: nat)
    | Commit(client: nat)
    | GiveUp(client: nat)
    | Delete(owner: Owner)

  const EMPTY := System(map[], map[], {})

  function ClientOf(s: System, n: nat): Client {
    if n in s.clients then s.clients[n] else Idle
  }

  /** A reservation gets an id that was never issued before; a closing finds its owner in its id. */
  ghost function Step(s: System, e: Event): System {
    match e
    case Reserve(n, owner, limit, newId, amount) =>
      var id := ReservationId(owner, newId);
      if ClientOf(s, n).Idle? && owner != [] && amount > 0 && id !in s.issued
      then System(s.docs, s.clients[n := Intending(owner, limit, Change.Reserve(id, amount))], s.issued + {id})
      else s
    case Close(n, limit, c) =>
      if ClientOf(s, n).Idle? && !c.Reserve? && OwnerOf(c.id).Some?
      then s.(clients := s.clients[n := Intending(OwnerOf(c.id).value, limit, c)])
      else s
    case Read(n) =>
      (match ClientOf(s, n)
       case Intending(owner, limit, c) =>
         s.(clients := s.clients[n := Holding(owner, limit, c, ReadAccount(s.docs, owner, limit))])
       case _ => s)
    case Commit(n) =>
      (match ClientOf(s, n)
       case Holding(owner, limit, c, seen) =>
         var changed := Committed(c, seen);
         if changed.Err? then s.(clients := s.clients[n := Idle])
         else
           var (docs, swapped) := SwapDocs(s.docs, owner, seen.revision, changed.value);
           s.(docs := docs, clients := s.clients[n := if swapped then Idle else Intending(owner, limit, c)])
       case _ => s)
    case GiveUp(n) => s.(clients := s.clients[n := Idle])
    case Delete(owner) =>
      if owner in s.docs then s.(docs := s.docs[owner := s.docs[owner].(deleted := true)]) else s
  }

  ghost function Run(events: seq<Event>): System {
    if |events| == 0 then EMPTY else Step(Run(events[..|events| - 1]), events[|events| - 1])
  }

  /** The change an event successfully swaps in, if it does. */
  ghost function Swapped(s: System, e: Event): Option<(Owner, Change)> {
    if e.Commit? && ClientOf(s, e.client).Holding? then
      var client := ClientOf(s, e.client);
      var changed := Committed(client.c, client.seen);
      if changed.Ok? && SwapDocs(s.docs, client.owner, client.seen.revision, changed.value).1
      then Some((client.owner, client.c)) else None
    else None
  }

  /** All changes of one account whose compare-and-swap succeeded, in the order they did. */
  ghost function Successes(events: seq<Event>, owner: Owner): seq<Change> {
    if |events| == 0 then []
    else
      var init := events[..|events| - 1];
      var last := Swapped(Run(init), events[|events| - 1]);
      Successes(init, owner) + (if last.Some? && last.value.0 == owner then [last.value.1] else [])
  }

  // ---------------------------------------------------------------- the stored account is the log, replayed

  ghost predicate IsReplay(events: seq<Event>, owner: Owner) {
    var s, log := Run(events), Successes(events, owner);
    if owner in s.docs then
      var doc := s.docs[owner];
      Replay(Initial(doc.account.limit), log) == Ok(doc.account) && doc.revision == doc.account.revision == |log| && |log| > 0
    else log == []
  }

  /** Whatever a client holds is an earlier state of that account, or the state before its first change. */
  ghost predicate SeenInLog(events: seq<Event>, client: Client)
    requires client.Holding?
  {
    var s, log, seen := Run(events), Successes(events, client.owner), client.seen;
    && seen.revision <= |log|
    && Replay(Initial(seen.limit), log[..seen.revision]) == Ok(seen)
    && (seen.revision > 0 ==> client.owner in s.docs && s.docs[client.owner].account.limit == seen.limit)
  }

  ghost predicate Chained(events: seq<Event>) {
    && (forall owner :: IsReplay(events, owner))
    && (forall n :: ClientOf(Run(events), n).Holding? ==> SeenInLog(events, ClientOf(Run(events), n)))
  }

  /** A successful swap was computed from the account it replaces. */
  lemma SwapSawCurrent(events: seq<Event>, client: Client)
    requires client.Holding? && IsReplay(events, client.owner) && SeenInLog(events, client)
    requires Committed(client.c, client.seen).Ok?
    requires SwapDocs(Run(events).docs, client.owner, client.seen.revision, Committed(client.c, client.seen).value).1
    ensures Replay(Initial(client.seen.limit), Successes(events, client.owner)) == Ok(client.seen)
    ensures client.seen.revision == |Successes(events, client.owner)|
    ensures client.owner in Run(events).docs ==> Run(events).docs[client.owner].account == client.seen
  {
    var log := Successes(events, client.owner);
    assert log[..|log|] == log;
  }

  /** A document changes only by a successful swap; deleting it touches neither account nor revision. */
  lemma DocStep(s: System, e: Event, owner: Owner)
    ensures var swapped := Swapped(s, e);
            if swapped.Some? && swapped.value.0 == owner then
              var client := ClientOf(s, e.client);
              Step(s, e).docs == s.docs[owner := Doc(Committed(client.c, client.seen).value, client.seen.revision + 1, false)]
            else
              && (owner in Step(s, e).docs <==> owner in s.docs)
              && (owner in s.docs ==> Step(s, e).docs[owner].account == s.docs[owner].account
                                      && Step(s, e).docs[owner].revision == s.docs[owner].revision)
  {
  }

  lemma StoreStep(events: seq<Event>, owner: Owner)
    requires |events| > 0 && Chained(events[..|events| - 1])
    ensures IsReplay(events, owner)
  {
    var init, e := events[..|events| - 1], events[|events| - 1];
    var s, log := Run(init), Successes(init, owner);
    assert IsReplay(init, owner);
    DocStep(s, e, owner);
    var swapped := Swapped(s, e);
    if swapped.Some? && swapped.value.0 == owner {
      SuccessStep(init, e, ClientOf(s, e.client));
      var longer := Successes(events, owner);
      assert init + [e] == events;
    } else {
      assert Successes(events, owner) == log;
    }
  }

  lemma SuccessStep(init: seq<Event>, e: Event, client: Client)
    requires Chained(init) && e.Commit? && client == ClientOf(Run(init), e.client)
    requires Swapped(Run(init), e).Some?
    ensures var longer, after := Successes(init + [e], client.owner), Committed(client.c, client.seen).value;
            && |longer| == client.seen.revision + 1
            && Replay(Initial(after.limit), longer) == Ok(after)
            && (client.owner in Run(init).docs ==> Run(init).docs[client.owner].account == client.seen)
  {
    assert IsReplay(init, client.owner) && SeenInLog(init, client);
    SwapSawCurrent(init, client);
    assert (init + [e])[..|init|] == init;
    ReplayNext(Successes(init, client.owner), client.c, client.seen);
  }

  lemma ReplayNext(log: seq<Change>, c: Change, seen: Account)
    requires Replay(Initial(seen.limit), log) == Ok(seen) && Committed(c, seen).Ok?
    ensures Committed(c, seen).value.limit == seen.limit
    ensures Replay(Initial(seen.limit), log + [c]) == Committed(c, seen)
  {
    assert (log + [c])[..|log|] == log;
  }

  /** Once an account exists it stays, and its limit never changes. */
  lemma LimitStays(events: seq<Event>, owner: Owner)
    requires |events| > 0 && Chained(events[..|events| - 1])
    requires owner in Run(events[..|events| - 1]).docs
    ensures owner in Run(events).docs
    ensures Run(events).docs[owner].account.limit == Run(events[..|events| - 1]).docs[owner].account.limit
  {
    var init, e := events[..|events| - 1], events[|events| - 1];
    DocStep(Run(init), e, owner);
    var swapped := Swapped(Run(init), e);
    if swapped.Some? && swapped.value.0 == owner {
      SuccessStep(init, e, ClientOf(Run(init), e.client));
    }
  }

  lemma HoldingComesFrom(s: System, e: Event, n: nat)
    requires ClientOf(Step(s, e), n).Holding?
    ensures var client := ClientOf(Step(s, e), n);
            ClientOf(s, n) == client || client.seen == ReadAccount(s.docs, client.owner, client.limit)
  {
  }

  /** What a client reads is the newest state of the account's log. */
  lemma ReadIsInLog(events: seq<Event>, client: Client)
    requires client.Holding? && IsReplay(events, client.owner)
    requires client.seen == ReadAccount(Run(events).docs, client.owner, client.limit)
    ensures SeenInLog(events, client)
  {
    var log := Successes(events, client.owner);
    assert log[..|log|] == log;
  }

  lemma SeenStays(events: seq<Event>, client: Client)
    requires |events| > 0 && Chained(events[..|events| - 1])
    requires client.Holding? && SeenInLog(events[..|events| - 1], client)
    ensures SeenInLog(events, client)
  {
    var init := events[..|events| - 1];
    var log, longer := Successes(init, client.owner), Successes(events, client.owner);
    assert longer[..client.seen.revision] == log[..client.seen.revision];
    if client.owner in Run(init).docs {
      LimitStays(events, client.owner);
    }
  }

  lemma HeldStep(events: seq<Event>, n: nat)
    requires |events| > 0 && Chained(events[..|events| - 1]) && ClientOf(Run(events), n).Holding?
    ensures SeenInLog(events, ClientOf(Run(events), n))
  {
    var init := events[..|events| - 1];
    var client := ClientOf(Run(events), n);
    HoldingComesFrom(Run(init), events[|events| - 1], n);
    if ClientOf(Run(init), n) != client {
      assert IsReplay(init, client.owner);
      ReadIsInLog(init, client);
    }
    SeenStays(events, client);
  }

  lemma {:induction false} RunIsChained(events: seq<Event>)
    ensures Chained(events)
  {
    if |events| > 0 {
      RunIsChained(events[..|events| - 1]);
      forall owner ensures IsReplay(events, owner) {
        StoreStep(events, owner);
      }
      forall n | ClientOf(Run(events), n).Holding? ensures SeenInLog(events, ClientOf(Run(events), n)) {
        HeldStep(events, n);
      }
    } else {
      forall owner ensures IsReplay(events, owner) {
      }
    }
  }

  // ---------------------------------------------------------------- ids are never committed twice

  function Pending(s: System, n: nat): Option<string> {
    var client := ClientOf(s, n);
    if !client.Idle? && client.c.Reserve? then Some(client.c.id) else None
  }

  /** An id on its way to being reserved was issued, is in no account's log, and nobody else carries it. */
  ghost predicate PendingFresh(events: seq<Event>, n: nat) {
    var s := Run(events);
    Pending(s, n).Some? ==>
      && Pending(s, n).value in s.issued
      && (forall owner :: !Opened(Successes(events, owner), Pending(s, n).value))
      && (forall m :: m != n ==> Pending(s, m) != Pending(s, n))
  }

  ghost predicate LogIssued(events: seq<Event>, owner: Owner) {
    var log := Successes(events, owner);
    FreshIds(log) && forall i :: 0 <= i < |log| && log[i].Reserve? ==> log[i].id in Run(events).issued
  }

  ghost predicate AllFresh(events: seq<Event>) {
    (forall n :: PendingFresh(events, n)) && (forall owner :: LogIssued(events, owner))
  }

  lemma PendingComesFrom(s: System, e: Event, n: nat)
    requires Pending(Step(s, e), n).Some?
    ensures s.issued <= Step(s, e).issued
    ensures Pending(s, n) == Pending(Step(s, e), n)
            || (e.Reserve? && e.client == n && Pending(Step(s, e), n).value !in s.issued
                && Pending(Step(s, e), n).value in Step(s, e).issued
                && forall m :: m != n ==> Pending(Step(s, e), m) == Pending(s, m))
  {
  }

  lemma SwappedWasPending(s: System, e: Event)
    requires Swapped(s, e).Some? && Swapped(s, e).value.1.Reserve?
    ensures Pending(s, e.client) == Some(Swapped(s, e).value.1.id)
    ensures Pending(Step(s, e), e.client).None?
  {
  }

  lemma IssuedGrows(s: System, e: Event)
    ensures s.issued <= Step(s, e).issued
  {
  }

  lemma LogStep(events: seq<Event>, owner: Owner)
    requires |events| > 0 && AllFresh(events[..|events| - 1])
    ensures LogIssued(events, owner)
  {
    var init, e := events[..|events| - 1], events[|events| - 1];
    var log, longer := Successes(init, owner), Successes(events, owner);
    assert LogIssued(init, owner);
    IssuedGrows(Run(init), e);
    var swapped := Swapped(Run(init), e);
    if swapped.Some? && swapped.value.0 == owner && swapped.value.1.Reserve? {
      SwappedWasPending(Run(init), e);
      assert PendingFresh(init, e.client);
      assert !Opened(log, swapped.value.1.id);
    }
  }

  lemma NotOpenedStep(events: seq<Event>, n: nat, owner: Owner)
    requires |events| > 0 && AllFresh(events[..|events| - 1]) && Pending(Run(events), n).Some?
    ensures !Opened(Successes(events, owner), Pending(Run(events), n).value)
  {
    var init, e := events[..|events| - 1], events[|events| - 1];
    var id := Pending(Run(events), n).value;
    var log, longer := Successes(init, owner), Successes(events, owner);
    assert PendingFresh(init, n) && LogIssued(init, owner);
    PendingComesFrom(Run(init), e, n);
    assert !Opened(log, id);
    var swapped := Swapped(Run(init), e);
    if swapped.Some? && swapped.value.0 == owner {
      assert longer[..|longer| - 1] == log;
      OpenedBy(longer, id);
      if swapped.value.1.Reserve? {
        SwappedWasPending(Run(init), e);
        assert PendingFresh(init, e.client);
      }
    }
  }

  lemma PendingStep(events: seq<Event>, n: nat)
    requires |events| > 0 && AllFresh(events[..|events| - 1])
    ensures PendingFresh(events, n)
  {
    var init, e := events[..|events| - 1], events[|events| - 1];
    var s, s' := Run(init), Run(events);
    if Pending(s', n).Some? {
      forall owner ensures !Opened(Successes(events, owner), Pending(s', n).value) {
        NotOpenedStep(events, n, owner);
      }
      assert PendingFresh(init, n);
      PendingComesFrom(s, e, n);
      forall m | m != n ensures Pending(s', m) != Pending(s', n) {
        if Pending(s', m).Some? {
          assert PendingFresh(init, m);
          PendingComesFrom(s, e, m);
        }
      }
    }
  }

  lemma {:induction false} RunIsFresh(events: seq<Event>)
    ensures AllFresh(events)
  {
    if |events| > 0 {
      RunIsFresh(events[..|events| - 1]);
      forall n ensures PendingFresh(events, n) {
        PendingStep(events, n);
      }
      forall owner ensures LogIssued(events, owner) {
        LogStep(events, owner);
      }
    }
  }

  // ---------------------------------------------------------------- main results

  /** No update is lost: a stored account is the initial one, with the limit of the instance that
      created it, after every successful change in turn. */
  lemma AccountIsItsLog(events: seq<Event>, owner: Owner)
    requires owner in Run(events).docs
    ensures var a := Run(events).docs[owner].account;
            Replay(Initial(a.limit), Successes(events, owner)) == Ok(a) && a.revision == |Successes(events, owner)|
  {
    RunIsChained(events);
    assert IsReplay(events, owner);
  }

  /** Conservation under any interleaving of any number of instances. */
  lemma LedgerConserves(events: seq<Event>, owner: Owner)
    requires owner in Run(events).docs
    ensures Balanced(Run(events).docs[owner].account, Successes(events, owner))
  {
    AccountIsItsLog(events, owner);
    RunIsFresh(events);
    assert LogIssued(events, owner);
    AccountsBalance(Run(events).docs[owner].account.limit, Successes(events, owner));
  }

  /** Every reservation is closed at most once, and an account holds exactly those not yet closed. */
  lemma LedgerHoldsOpen(events: seq<Event>, owner: Owner, id: string)
    requires owner in Run(events).docs
    ensures HoldsExactly(Run(events).docs[owner].account, Successes(events, owner), id)
  {
    AccountIsItsLog(events, owner);
    RunIsFresh(events);
    assert LogIssued(events, owner);
    ReservationsAreOpen(Run(events).docs[owner].account.limit, Successes(events, owner), id);
  }

  /** The bound, in every reachable state: exact spending and open reservations exceed the limit by at
      most the overrun, hence not at all while settlements stay within their estimates. */
  lemma LimitHolds(events: seq<Event>, owner: Owner)
    requires owner in Run(events).docs
    ensures var a := Run(events).docs[owner].account;
            a.measured + Total(a.reservations) <= a.limit + Overrun(Successes(events, owner))
    ensures WithinEstimates(Successes(events, owner)) ==>
              var a := Run(events).docs[owner].account;
              a.measured + Total(a.reservations) <= a.limit
  {
    AccountIsItsLog(events, owner);
    RunIsFresh(events);
    assert LogIssued(events, owner);
    BudgetHolds(Run(events).docs[owner].account.limit, Successes(events, owner));
    NoOverrun(Successes(events, owner));
  }

  /** At all times within the limit means that every settlement fitted when it was swapped in. */
  lemma LimitKeptExactly(events: seq<Event>, owner: Owner)
    requires owner in Run(events).docs
    ensures var limit := Run(events).docs[owner].account.limit;
            AlwaysWithin(limit, Successes(events, owner)) <==> AllFit(limit, Successes(events, owner))
  {
    AccountIsItsLog(events, owner);
    RunIsFresh(events);
    assert LogIssued(events, owner);
    LimitHoldsExactly(Run(events).docs[owner].account.limit, Successes(events, owner));
  }

  /** One step takes an account over its limit exactly when it swaps in a settlement that does not fit. */
  lemma LimitBrokenExactly(events: seq<Event>, e: Event, owner: Owner)
    requires owner in Run(events).docs && WithinLimit(Run(events).docs[owner].account)
    ensures owner in Run(events + [e]).docs
    ensures !WithinLimit(Run(events + [e]).docs[owner].account) <==>
            var swapped := Swapped(Run(events), e);
            swapped.Some? && swapped.value.0 == owner && !Fits(Run(events).docs[owner].account, swapped.value.1)
  {
    hide WithinLimit, Fits;
    var s, swapped := Run(events), Swapped(Run(events), e);
    RunNext(events, e);
    DocStep(s, e, owner);
    if swapped.Some? && swapped.value.0 == owner {
      SwapActsOnCurrent(events, e, owner);
      StaysWithinLimit(s.docs[owner].account, swapped.value.1);
    }
  }

  lemma RunNext(events: seq<Event>, e: Event)
    ensures Run(events + [e]) == Step(Run(events), e)
  {
    assert (events + [e])[..|events|] == events;
  }

  /** A successful change was computed from the stored account, and reserves under a new id. */
  lemma SwapActsOnCurrent(events: seq<Event>, e: Event, owner: Owner)
    requires owner in Run(events).docs
    requires Swapped(Run(events), e).Some? && Swapped(Run(events), e).value.0 == owner
    ensures var a, c := Run(events).docs[owner].account, Swapped(Run(events), e).value.1;
            && ClientOf(Run(events), e.client).seen == a && Committed(c, a).Ok?
            && (c.Reserve? ==> c.id !in a.reservations)
  {
    hide Step, Run;
    var client := ClientOf(Run(events), e.client);
    RunIsChained(events);
    assert SeenInLog(events, client) && IsReplay(events, owner);
    SwapSawCurrent(events, client);
    LedgerHoldsOpen(events, owner, client.c.id);
    RunIsFresh(events);
    assert PendingFresh(events, e.client);
  }
}
