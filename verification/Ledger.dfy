/** Budget accounts: reservations, settlement and release over a compare-and-swap store. */
module Ledger {
  import opened Contracts
  import opened Base64

  /** An owner is the UTF-8 text of its id. */
  type Owner = seq<Byte>

  datatype Account = Account(revision: nat, limit: nat, estimatedTotal: nat, measured: nat, released: nat,
                             reservations: map<string, nat>)

  datatype Change =
    | Reserve(id: string, amount: nat)
    | Settle(id: string, actual: nat)
    | Release(id: string)

  datatype LedgerError = MissingOwner | NotPositive | Negative | BudgetExceeded | ReservationNotFound | Contended

  function Initial(limit: nat): Account {
    Account(0, limit, 0, 0, 0, map[])
  }

  // ---------------------------------------------------------------- sums over reservations

  ghost function Total(m: map<string, nat>): nat
    decreases |m.Keys|
  {
    if m.Keys == {} then 0
    else
      var k :| k in m.Keys;
      var rest := m - {k};
      assert rest.Keys == m.Keys - {k};
      m[k] + Total(rest)
  }

  lemma {:induction false} TotalWithout(m: map<string, nat>, k: string)
    requires k in m
    ensures Total(m) == m[k] + Total(m - {k})
    decreases |m.Keys|
  {
    var first :| first in m.Keys && Total(m) == m[first] + Total(m - {first});
    if first != k {
      assert (m - {first}).Keys == m.Keys - {first} && (m - {k}).Keys == m.Keys - {k};
      TotalWithout(m - {first}, k);
      TotalWithout(m - {k}, first);
      assert m - {first} - {k} == m - {k} - {first};
    }
  }

  lemma TotalWith(m: map<string, nat>, k: string, v: nat)
    requires k !in m
    ensures Total(m[k := v]) == Total(m) + v
  {
    TotalWithout(m[k := v], k);
    assert m[k := v] - {k} == m;
  }

  // ---------------------------------------------------------------- reservation ids

  function ReservationId(owner: Owner, id: string): string {
    Encode(owner) + "." + id
  }

  /** The text before the first dot. */
  function BeforeDot(text: string): Option<string> {
    if |text| == 0 then None
    else if text[0] == '.' then Some("")
    else
      var rest := BeforeDot(text[1..]);
      if rest.Some? then Some([text[0]] + rest.value) else None
  }

  function OwnerOf(reservation: string): Option<Owner> {
    var encoded := BeforeDot(reservation);
    if encoded.None? then None else Decode(encoded.value)
  }

  lemma {:induction false} FirstDot(head: string, tail: string)
    requires '.' !in head
    ensures BeforeDot(head + "." + tail) == Some(head)
  {
    if |head| > 0 {
      assert '.' !in head[1..] && head[0] in head && (head + "." + tail)[1..] == head[1..] + "." + tail;
      FirstDot(head[1..], tail);
      assert [head[0]] + head[1..] == head;
    }
  }

  /** A reservation id leads back to the owner it was issued for. */
  lemma OwnerComesBack(owner: Owner, id: string)
    ensures OwnerOf(ReservationId(owner, id)) == Some(owner)
  {
    EncodeIsBody(owner);
    FirstDot(Encode(owner), id);
    DecodeUndoesEncode(owner);
  }

  /** Fresh identifiers give fresh reservation ids. */
  lemma ReservationIdsDiffer(owner: Owner, id: string, owner': Owner, id': string)
    requires ReservationId(owner, id) == ReservationId(owner', id')
    ensures owner == owner' && id == id'
  {
    OwnerComesBack(owner, id);
    OwnerComesBack(owner', id');
    var n := |Encode(owner)| + 1;
    assert id == ReservationId(owner, id)[n..] && id' == ReservationId(owner', id')[n..];
  }

  // ---------------------------------------------------------------- one account

  /** The changed account before its revision is bumped. */
  ghost function Apply(c: Change, a: Account): Result<Account, LedgerError> {
    match c
    case Reserve(id, amount) =>
      if a.measured + Total(a.reservations) + amount > a.limit then Err(BudgetExceeded)
      else Ok(a.(estimatedTotal := a.estimatedTotal + amount, reservations := a.reservations[id := amount]))
    case Settle(id, actual) =>
      if id !in a.reservations then Err(ReservationNotFound)
      else Ok(a.(reservations := a.reservations - {id}, measured := a.measured + actual,
                 released := a.released + Max(0, a.reservations[id] - actual)))
    case Release(id) =>
      if id !in a.reservations then Err(ReservationNotFound)
      else Ok(a.(reservations := a.reservations - {id}, released := a.released + a.reservations[id]))
  }

  ghost function Committed(c: Change, a: Account): Result<Account, LedgerError> {
    var changed := Apply(c, a);
    if changed.Err? then changed else Ok(changed.value.(revision := a.revision + 1))
  }

  ghost function Replay(a: Account, log: seq<Change>): Result<Account, LedgerError> {
    if |log| == 0 then Ok(a)
    else
      var before := Replay(a, log[..|log| - 1]);
      if before.Err? then before else Committed(log[|log| - 1], before.value)
  }

  lemma {:induction false} ReplayCounts(a: Account, log: seq<Change>)
    ensures Replay(a, log).Ok? ==>
              Replay(a, log).value.revision == a.revision + |log| && Replay(a, log).value.limit == a.limit
  {
    if |log| > 0 {
      ReplayCounts(a, log[..|log| - 1]);
    }
  }

  // ---------------------------------------------------------------- what a list of changes amounts to

  predicate Closes(c: Change, id: string) {
    !c.Reserve? && c.id == id
  }

  /** Every reservation is made once. */
  predicate FreshIds(log: seq<Change>) {
    forall i, j :: 0 <= i < j < |log| && log[i].Reserve? && log[j].Reserve? ==> log[i].id != log[j].id
  }

  function Reserved(log: seq<Change>): nat {
    if |log| == 0 then 0
    else
      var last := log[|log| - 1];
      Reserved(log[..|log| - 1]) + (if last.Reserve? then last.amount else 0)
  }

  /** The amount some reservation was made for. */
  function EstimateOf(log: seq<Change>, id: string): nat {
    if |log| == 0 then 0
    else
      var last := log[|log| - 1];
      if last.Reserve? && last.id == id then last.amount else EstimateOf(log[..|log| - 1], id)
  }

  function Measured(log: seq<Change>): nat {
    if |log| == 0 then 0
    else
      var last := log[|log| - 1];
      Measured(log[..|log| - 1]) + (if last.Settle? then last.actual else 0)
  }

  /** The part of the measured usage that had been estimated. */
  function Foreseen(log: seq<Change>): nat {
    if |log| == 0 then 0
    else
      var init, last := log[..|log| - 1], log[|log| - 1];
      Foreseen(init) + (if last.Settle? then Min(EstimateOf(init, last.id), last.actual) else 0)
  }

  /** The part of the measured usage beyond its estimate. */
  function Overrun(log: seq<Change>): nat {
    if |log| == 0 then 0
    else
      var init, last := log[..|log| - 1], log[|log| - 1];
      Overrun(init) + (if last.Settle? then Max(0, last.actual - EstimateOf(init, last.id)) else 0)
  }

  predicate Opened(log: seq<Change>, id: string) {
    exists i :: 0 <= i < |log| && log[i].Reserve? && log[i].id == id
  }

  predicate Closed(log: seq<Change>, id: string) {
    exists i :: 0 <= i < |log| && Closes(log[i], id)
  }

  lemma OpenedBy(log: seq<Change>, id: string)
    requires |log| > 0
    ensures Opened(log, id) <==>
            Opened(log[..|log| - 1], id) || (log[|log| - 1].Reserve? && log[|log| - 1].id == id)
  {
    var init := log[..|log| - 1];
    if Opened(init, id) {
      var i :| 0 <= i < |init| && init[i].Reserve? && init[i].id == id;
      assert log[i].Reserve? && log[i].id == id;
    }
    if Opened(log, id) && !(log[|log| - 1].Reserve? && log[|log| - 1].id == id) {
      var i :| 0 <= i < |log| && log[i].Reserve? && log[i].id == id;
      assert init[i].Reserve? && init[i].id == id;
    }
  }

  lemma ClosedBy(log: seq<Change>, id: string)
    requires |log| > 0
    ensures Closed(log, id) <==> Closed(log[..|log| - 1], id) || Closes(log[|log| - 1], id)
  {
    var init := log[..|log| - 1];
    if Closed(init, id) {
      var i :| 0 <= i < |init| && Closes(init[i], id);
      assert Closes(log[i], id);
    }
    if Closed(log, id) && !Closes(log[|log| - 1], id) {
      var i :| 0 <= i < |log| && Closes(log[i], id);
      assert Closes(init[i], id);
    }
  }

  lemma LastIsFresh(log: seq<Change>)
    requires |log| > 0 && FreshIds(log)
    ensures FreshIds(log[..|log| - 1])
    ensures log[|log| - 1].Reserve? ==> !Opened(log[..|log| - 1], log[|log| - 1].id)
  {
    var init := log[..|log| - 1];
    forall i, j | 0 <= i < j < |init| && init[i].Reserve? && init[j].Reserve?
      ensures init[i].id != init[j].id
    {
      assert log[i].Reserve? && log[j].Reserve?;
    }
  }

  /** What an account holds for one id: its estimate while it is open and not yet closed. */
  ghost predicate HoldsExactly(a: Account, log: seq<Change>, id: string) {
    && (id in a.reservations <==> Opened(log, id) && !Closed(log, id))
    && (id in a.reservations ==> a.reservations[id] == EstimateOf(log, id))
    && (Closed(log, id) ==> Opened(log, id))
  }

  /** The reservations an account holds are exactly those made and neither settled nor released,
      each at its estimate; nothing is closed that was not made. */
  lemma {:induction false} ReservationsAreOpen(limit: nat, log: seq<Change>, id: string)
    requires FreshIds(log) && Replay(Initial(limit), log).Ok?
    ensures HoldsExactly(Replay(Initial(limit), log).value, log, id)
  {
    if |log| > 0 {
      var init, last := log[..|log| - 1], log[|log| - 1];
      LastIsFresh(log);
      ReservationsAreOpen(limit, init, id);
      OpenedBy(log, id);
      ClosedBy(log, id);
    }
  }

  ghost predicate Balanced(a: Account, log: seq<Change>) {
    && a.estimatedTotal == Reserved(log)
    && a.measured == Measured(log)
    && a.measured == Foreseen(log) + Overrun(log)
    && a.estimatedTotal == Total(a.reservations) + a.released + Foreseen(log)
  }

  /** Nothing is lost: whatever was estimated is still reserved, has been released, or was used. */
  lemma {:induction false} AccountsBalance(limit: nat, log: seq<Change>)
    requires FreshIds(log) && Replay(Initial(limit), log).Ok?
    ensures Balanced(Replay(Initial(limit), log).value, log)
  {
    if |log| > 0 {
      var init, last := log[..|log| - 1], log[|log| - 1];
      LastIsFresh(log);
      AccountsBalance(limit, init);
      var before := Replay(Initial(limit), init).value;
      ReservationsAreOpen(limit, init, last.id);
      if last.Reserve? {
        TotalWith(before.reservations, last.id, last.amount);
      } else {
        TotalWithout(before.reservations, last.id);
      }
    }
  }

  /** What is measured and still reserved exceeds the limit by no more than the settlements exceeded
      their estimates. */
  lemma {:induction false} BudgetHolds(limit: nat, log: seq<Change>)
    requires FreshIds(log) && Replay(Initial(limit), log).Ok?
    ensures var a := Replay(Initial(limit), log).value;
            a.measured + Total(a.reservations) <= limit + Overrun(log)
  {
    if |log| > 0 {
      var init, last := log[..|log| - 1], log[|log| - 1];
      LastIsFresh(log);
      BudgetHolds(limit, init);
      ReplayCounts(Initial(limit), init);
      var before := Replay(Initial(limit), init).value;
      ReservationsAreOpen(limit, init, last.id);
      if last.Reserve? {
        TotalWith(before.reservations, last.id, last.amount);
      } else {
        TotalWithout(before.reservations, last.id);
      }
    }
  }

  /** No settlement exceeds its estimate. */
  ghost predicate WithinEstimates(log: seq<Change>) {
    forall i :: 0 <= i < |log| && log[i].Settle? ==> log[i].actual <= EstimateOf(log[..i], log[i].id)
  }

  /** There is no overrun exactly when every settlement stays within its estimate. */
  lemma {:induction false} NoOverrun(log: seq<Change>)
    ensures Overrun(log) == 0 <==> WithinEstimates(log)
  {
    if |log| > 0 {
      var init, last := log[..|log| - 1], log[|log| - 1];
      NoOverrun(init);
      assert forall i :: 0 <= i < |init| ==> init[..i] == log[..i] && init[i] == log[i];
      if WithinEstimates(log) {
        forall i | 0 <= i < |init| && init[i].Settle? ensures init[i].actual <= EstimateOf(init[..i], init[i].id) {
          assert log[i].Settle?;
        }
        assert last.Settle? ==> last.actual <= EstimateOf(init, last.id);
      }
      if WithinEstimates(init) && (last.Settle? ==> last.actual <= EstimateOf(init, last.id)) {
        forall i | 0 <= i < |log| && log[i].Settle? ensures log[i].actual <= EstimateOf(log[..i], log[i].id) {
          if i < |init| {
            assert init[i].Settle?;
          }
        }
      }
    }
  }

  ghost predicate WithinLimit(a: Account) {
    a.measured + Total(a.reservations) <= a.limit
  }

  /** A settlement exceeds its estimate by no more than is still free. */
  ghost predicate Fits(a: Account, c: Change) {
    c.Settle? && c.id in a.reservations ==>
      c.actual - a.reservations[c.id] <= a.limit - a.measured - Total(a.reservations)
  }

  /** An account within its limit stays there exactly when the change fits; only settlements can fail to. */
  lemma StaysWithinLimit(a: Account, c: Change)
    requires WithinLimit(a) && Committed(c, a).Ok? && (c.Reserve? ==> c.id !in a.reservations)
    ensures WithinLimit(Committed(c, a).value) <==> Fits(a, c)
  {
    if c.Reserve? {
      TotalWith(a.reservations, c.id, c.amount);
    } else {
      TotalWithout(a.reservations, c.id);
    }
  }

  /** The account after an accepted list of changes. */
  ghost function AccountAfter(limit: nat, log: seq<Change>): Account {
    var a := Replay(Initial(limit), log);
    if a.Ok? then a.value else Initial(limit)
  }

  ghost predicate AlwaysWithin(limit: nat, log: seq<Change>) {
    forall n :: 0 <= n <= |log| ==> WithinLimit(AccountAfter(limit, log[..n]))
  }

  ghost predicate AllFit(limit: nat, log: seq<Change>) {
    forall n :: 0 <= n < |log| ==> Fits(AccountAfter(limit, log[..n]), log[n])
  }

  lemma AlwaysWithinNext(limit: nat, log: seq<Change>)
    requires |log| > 0
    ensures AlwaysWithin(limit, log) <==> AlwaysWithin(limit, log[..|log| - 1]) && WithinLimit(AccountAfter(limit, log))
  {
    hide AccountAfter, WithinLimit;
    var init := log[..|log| - 1];
    assert forall n :: 0 <= n <= |init| ==> init[..n] == log[..n];
    assert log[..|log|] == log;
  }

  lemma AllFitNext(limit: nat, log: seq<Change>)
    requires |log| > 0
    ensures AllFit(limit, log) <==>
            AllFit(limit, log[..|log| - 1]) && Fits(AccountAfter(limit, log[..|log| - 1]), log[|log| - 1])
  {
    hide AccountAfter, Fits;
    var init := log[..|log| - 1];
    assert forall n :: 0 <= n < |init| ==> init[..n] == log[..n] && init[n] == log[n];
  }

  /** An account is within its limit at all times exactly when every settlement fits at its time. */
  lemma {:induction false} LimitHoldsExactly(limit: nat, log: seq<Change>)
    requires FreshIds(log) && Replay(Initial(limit), log).Ok?
    ensures AlwaysWithin(limit, log) <==> AllFit(limit, log)
  {
    if |log| == 0 {
      assert log[..0] == log && Total(map[]) == 0;
    } else {
      var init, last := log[..|log| - 1], log[|log| - 1];
      LastIsFresh(log);
      LimitHoldsExactly(limit, init);
      AlwaysWithinNext(limit, log);
      AllFitNext(limit, log);
      if AlwaysWithin(limit, init) {
        assert init[..|init|] == init;
        ReservationsAreOpen(limit, init, last.id);
        StaysWithinLimit(AccountAfter(limit, init), last);
      }
    }
  }

  /** For every limit, two accepted changes that end beyond it. */
  lemma OverdrawnAccount(limit: nat, id: string) returns (log: seq<Change>)
    requires limit > 0
    ensures FreshIds(log) && Replay(Initial(limit), log).Ok? && !WithinLimit(AccountAfter(limit, log))
  {
    log := [Reserve(id, limit), Settle(id, limit + 1)];
    assert log[..1] == [log[0]] && log[..1][..0] == [];
    assert Replay(Initial(limit), log[..1]) == Committed(log[0], Initial(limit));
  }

  /** A repeated id would break the books: reserving keeps them balanced exactly when the id is not
      one that is still held. */
  lemma ReserveNeedsFreshId(a: Account, id: string, amount: nat)
    requires Apply(Reserve(id, amount), a).Ok?
    ensures var a' := Apply(Reserve(id, amount), a).value;
            a'.estimatedTotal - Total(a'.reservations) == a.estimatedTotal - Total(a.reservations)
            <==> id !in a.reservations || a.reservations[id] == 0
  {
    if id in a.reservations {
      TotalWithout(a.reservations, id);
      TotalWithout(a.reservations[id := amount], id);
      assert a.reservations[id := amount] - {id} == a.reservations - {id};
    } else {
      TotalWith(a.reservations, id, amount);
    }
  }

  // ---------------------------------------------------------------- the store and the service

  datatype Doc = Doc(account: Account, revision: nat, deleted: bool)

  type Docs = map<Owner, Doc>

  /** A new document takes its value's revision; a stored one must be at the revision the caller names. */
  function SwapDocs(docs: Docs, owner: Owner, revision: nat, value: Account): (Docs, bool) {
    if owner !in docs then
      if revision != 0 then (docs, false) else (docs[owner := Doc(value, value.revision, false)], true)
    else if docs[owner].revision != revision || docs[owner].deleted then (docs, false)
    else (docs[owner := Doc(value, revision + 1, false)], true)
  }

  function ReadAccount(docs: Docs, owner: Owner, limit: nat): Account {
    if owner in docs && !docs[owner].deleted then docs[owner].account else Initial(limit)
  }

  /** One update with nobody else at the store. */
  ghost function UpdateDocs(docs: Docs, owner: Owner, limit: nat, c: Change): Result<Docs, LedgerError> {
    var seen := ReadAccount(docs, owner, limit);
    var changed := Committed(c, seen);
    if changed.Err? then Err(changed.error)
    else
      var (docs', swapped) := SwapDocs(docs, owner, seen.revision, changed.value);
      if swapped then Ok(docs') else Err(Contended)
  }

  /** A settlement or a release, found by the owner in its id. */
  ghost function CloseDocs(docs: Docs, limit: nat, c: Change): Result<Docs, LedgerError> {
    if OwnerOf(c.id).None? then Err(ReservationNotFound)
    else UpdateDocs(docs, OwnerOf(c.id).value, limit, c)
  }

  /** Closing one after the other until one is refused; those before it stay closed. */
  ghost function CloseAll(docs: Docs, limit: nat, cs: seq<Change>): (Docs, Option<LedgerError>) {
    if |cs| == 0 then (docs, None)
    else
      var (before, failed) := CloseAll(docs, limit, cs[..|cs| - 1]);
      if failed.Some? then (before, failed)
      else
        var r := CloseDocs(before, limit, cs[|cs| - 1]);
        if r.Ok? then (r.value, None) else (before, Some(r.error))
  }

  function Settlements(inFlight: seq<(string, nat)>): (r: seq<Change>)
    ensures |r| == |inFlight|
    ensures forall i :: 0 <= i < |inFlight| ==> r[i] == Settle(inFlight[i].0, inFlight[i].1)
  {
    if |inFlight| == 0 then []
    else
      var (id, measured) := inFlight[|inFlight| - 1];
      Settlements(inFlight[..|inFlight| - 1]) + [Settle(id, measured)]
  }

  function Releases(notStarted: seq<string>): (r: seq<Change>)
    ensures |r| == |notStarted|
    ensures forall i :: 0 <= i < |notStarted| ==> r[i] == Release(notStarted[i])
  {
    if |notStarted| == 0 then [] else Releases(notStarted[..|notStarted| - 1]) + [Release(notStarted[|notStarted| - 1])]
  }

  const MAX_CAS_ATTEMPTS := 100

  class BudgetAccounts {
    var docs: Docs

    constructor ()
      ensures docs == map[]
    {
      docs := map[];
    }

    method GetOwned(owner: Owner) returns (value: Option<Account>)
      ensures value == if owner in docs && !docs[owner].deleted then Some(docs[owner].account) else None
    {
      value := if owner in docs && !docs[owner].deleted then Some(docs[owner].account) else None;
    }

    method CompareAndSwap(owner: Owner, revision: nat, value: Account) returns (ok: bool)
      modifies this
      ensures (docs, ok) == SwapDocs(old(docs), owner, revision, value)
    {
      if owner !in docs {
        if revision != 0 {
          return false;
        }
        docs := docs[owner := Doc(value, value.revision, false)];
        return true;
      }
      var doc := docs[owner];
      if doc.revision != revision || doc.deleted {
        return false;
      }
      docs := docs[owner := Doc(value, revision + 1, false)];
      ok := true;
    }
  }

  datatype BudgetSnapshot = BudgetSnapshot(limit: nat, estimatedTotal: nat, estimatedReserved: nat, measured: nat,
                                           released: nat, activeReservations: nat)

  method Sum(m: map<string, nat>) returns (t: nat)
    ensures t == Total(m)
  {
    t := 0;
    var rest := m;
    while rest.Keys != {}
      invariant t + Total(rest) == Total(m)
      decreases |rest.Keys|
    {
      var k :| k in rest.Keys;
      TotalWithout(rest, k);
      t := t + rest[k];
      assert (rest - {k}).Keys == rest.Keys - {k};
      rest := rest - {k};
    }
  }

  /** The three mutation closures. */
  method Mutate(c: Change, a: Account) returns (r: Result<Account, LedgerError>)
    ensures r == Apply(c, a)
  {
    match c {
      case Reserve(id, amount) =>
        var reserved := Sum(a.reservations);
        if a.measured + reserved + amount > a.limit {
          return Err(BudgetExceeded);
        }
        r := Ok(a.(estimatedTotal := a.estimatedTotal + amount, reservations := a.reservations[id := amount]));
      case Settle(id, actual) =>
        if id !in a.reservations {
          return Err(ReservationNotFound);
        }
        var estimated := a.reservations[id];
        r := Ok(a.(reservations := a.reservations - {id}, measured := a.measured + actual,
                   released := a.released + Max(0, estimated - actual)));
      case Release(id) =>
        if id !in a.reservations {
          return Err(ReservationNotFound);
        }
        r := Ok(a.(reservations := a.reservations - {id}, released := a.released + a.reservations[id]));
    }
  }

  class BudgetLedgerService {
    const repository: BudgetAccounts
    const limit: nat

    constructor (repository: BudgetAccounts, budget: nat)
      ensures this.repository == repository && this.limit == budget
    {
      this.repository := repository;
      this.limit := budget;
    }

    method Read(owner: Owner) returns (a: Account)
      ensures a == ReadAccount(repository.docs, owner, limit)
    {
      var stored := repository.GetOwned(owner);
      a := if stored.None? then Initial(limit) else stored.value;
    }

    method Update(owner: Owner, c: Change) returns (error: Option<LedgerError>)
      modifies repository
      ensures UpdateDocs(old(repository.docs), owner, limit, c) ==
              if error.None? then Ok(repository.docs) else Err(error.value)
      ensures error.Some? ==> repository.docs == old(repository.docs)
    {
      for attempt := 0 to MAX_CAS_ATTEMPTS
        invariant repository.docs == old(repository.docs)
        invariant attempt > 0 ==> UpdateDocs(old(repository.docs), owner, limit, c) == Err(Contended)
      {
        var seen := Read(owner);
        var changed := Mutate(c, seen);
        if changed.Err? {
          return Some(changed.error);
        }
        var swapped := repository.CompareAndSwap(owner, seen.revision, changed.value.(revision := seen.revision + 1));
        if swapped {
          return None;
        }
      }
      error := Some(Contended);
    }

    /** `newId` is the identifier factory's answer. */
    method Reserve(owner: Owner, amount: int, newId: string) returns (r: Result<string, LedgerError>)
      modifies repository
      ensures owner == [] ==> r == Err(MissingOwner)
      ensures owner != [] && amount <= 0 ==> r == Err(NotPositive)
      ensures owner != [] && amount > 0 ==>
                UpdateDocs(old(repository.docs), owner, limit, Change.Reserve(ReservationId(owner, newId), amount)) ==
                if r.Ok? then Ok(repository.docs) else Err(r.error)
      ensures r.Ok? ==> r.value == ReservationId(owner, newId) && OwnerOf(r.value) == Some(owner)
      ensures r.Err? ==> repository.docs == old(repository.docs)
    {
      if owner == [] {
        return Err(MissingOwner);
      }
      if amount <= 0 {
        return Err(NotPositive);
      }
      var id := ReservationId(owner, newId);
      OwnerComesBack(owner, newId);
      var error := Update(owner, Change.Reserve(id, amount));
      r := if error.None? then Ok(id) else Err(error.value);
    }

    method Settle(id: string, actual: int) returns (error: Option<LedgerError>)
      modifies repository
      ensures actual < 0 ==> error == Some(Negative)
      ensures actual >= 0 ==> CloseDocs(old(repository.docs), limit, Change.Settle(id, actual)) ==
                              if error.None? then Ok(repository.docs) else Err(error.value)
      ensures error.Some? ==> repository.docs == old(repository.docs)
    {
      if actual < 0 {
        return Some(Negative);
      }
      var owner := OwnerOf(id);
      if owner.None? {
        return Some(ReservationNotFound);
      }
      error := Update(owner.value, Change.Settle(id, actual));
    }

    method Release(id: string) returns (error: Option<LedgerError>)
      modifies repository
      ensures CloseDocs(old(repository.docs), limit, Change.Release(id)) ==
              if error.None? then Ok(repository.docs) else Err(error.value)
      ensures error.Some? ==> repository.docs == old(repository.docs)
    {
      var owner := OwnerOf(id);
      if owner.None? {
        return Some(ReservationNotFound);
      }
      error := Update(owner.value, Change.Release(id));
    }

    method SettleAll(inFlight: seq<(string, nat)>) returns (error: Option<LedgerError>)
      modifies repository
      ensures (repository.docs, error) == CloseAll(old(repository.docs), limit, Settlements(inFlight))
    {
      ghost var all, start := Settlements(inFlight), repository.docs;
      for i := 0 to |inFlight|
        invariant ClosedUpTo(start, limit, all, i, repository.docs)
      {
        ghost var before := repository.docs;
        error := Settle(inFlight[i].0, inFlight[i].1);
        CloseNext(start, limit, all, i, before, repository.docs, error);
        if error.Some? {
          return;
        }
      }
      AllClosed(start, limit, all, repository.docs);
      error := None;
    }

    method ReleaseAll(notStarted: seq<string>) returns (error: Option<LedgerError>)
      modifies repository
      ensures (repository.docs, error) == CloseAll(old(repository.docs), limit, Releases(notStarted))
    {
      ghost var all, start := Releases(notStarted), repository.docs;
      for i := 0 to |notStarted|
        invariant ClosedUpTo(start, limit, all, i, repository.docs)
      {
        ghost var before := repository.docs;
        error := Release(notStarted[i]);
        CloseNext(start, limit, all, i, before, repository.docs, error);
        if error.Some? {
          return;
        }
      }
      AllClosed(start, limit, all, repository.docs);
      error := None;
    }

    /** Settles the calls under way, then releases the ones that never started; stops at the first refusal. */
    method Cancel(inFlight: seq<(string, nat)>, notStarted: seq<string>) returns (error: Option<LedgerError>)
      modifies repository
      ensures (repository.docs, error) == CloseAll(old(repository.docs), limit, Settlements(inFlight) + Releases(notStarted))
    {
      CloseAllSplits(repository.docs, limit, Settlements(inFlight), Releases(notStarted));
      error := SettleAll(inFlight);
      if error.Some? {
        return;
      }
      error := ReleaseAll(notStarted);
    }

    method Snapshot(owner: Owner) returns (s: BudgetSnapshot)
      ensures var a := ReadAccount(repository.docs, owner, limit);
              s == BudgetSnapshot(a.limit, a.estimatedTotal, Total(a.reservations), a.measured, a.released, |a.reservations|)
    {
      var a := Read(owner);
      var reserved := Sum(a.reservations);
      s := BudgetSnapshot(a.limit, a.estimatedTotal, reserved, a.measured, a.released, |a.reservations|);
    }
  }

  lemma {:induction false} CloseAllSplits(docs: Docs, limit: nat, a: seq<Change>, b: seq<Change>)
    ensures var first := CloseAll(docs, limit, a);
            CloseAll(docs, limit, a + b) == if first.1.Some? then first else CloseAll(first.0, limit, b)
  {
    if |b| == 0 {
      assert a + b == a;
    } else {
      assert (a + b)[..|a + b| - 1] == a + b[..|b| - 1];
      CloseAllSplits(docs, limit, a, b[..|b| - 1]);
    }
  }

  /** Nothing after a refused closing is attempted. */
  lemma {:induction false} StopsEarly(docs: Docs, limit: nat, cs: seq<Change>, n: nat)
    requires n <= |cs| && CloseAll(docs, limit, cs[..n]).1.Some?
    ensures CloseAll(docs, limit, cs) == CloseAll(docs, limit, cs[..n])
    decreases |cs|
  {
    if n == |cs| {
      assert cs[..n] == cs;
    } else {
      assert cs[..|cs| - 1][..n] == cs[..n];
      StopsEarly(docs, limit, cs[..|cs| - 1], n);
    }
  }

  /** The first n closings have succeeded and led to these documents. */
  ghost predicate ClosedUpTo(start: Docs, limit: nat, cs: seq<Change>, n: nat, docs: Docs)
    requires n <= |cs|
  {
    CloseAll(start, limit, cs[..n]) == (docs, None)
  }

  lemma AllClosed(start: Docs, limit: nat, cs: seq<Change>, docs: Docs)
    requires ClosedUpTo(start, limit, cs, |cs|, docs)
    ensures CloseAll(start, limit, cs) == (docs, None)
  {
    assert cs[..|cs|] == cs;
  }

  lemma CloseNext(start: Docs, limit: nat, cs: seq<Change>, n: nat, before: Docs, after: Docs, error: Option<LedgerError>)
    requires n < |cs| && ClosedUpTo(start, limit, cs, n, before)
    requires CloseDocs(before, limit, cs[n]) == if error.None? then Ok(after) else Err(error.value)
    ensures error.None? ==> ClosedUpTo(start, limit, cs, n + 1, after)
    ensures error.Some? ==> CloseAll(start, limit, cs) == (before, error)
  {
    assert cs[..n + 1][..n] == cs[..n];
    if error.Some? {
      StopsEarly(start, limit, cs, n + 1);
    }
  }
}
