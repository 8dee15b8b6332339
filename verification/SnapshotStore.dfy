/** Saving the document store as one snapshot and restoring it. */
module SnapshotStore {
  import opened Contracts
  import opened SnapshotCodec

  datatype DocKey = DocKey(workspace: string, collection: string, id: string)

  datatype Doc = Doc(value: Value, revision: nat, generation: nat, deleted: bool)

  datatype Document = Document(key: DocKey, revision: nat, generation: nat, deleted: bool, value: Tagged)

  type Store = map<DocKey, Doc>

  datatype SnapshotError = CannotSave(cause: CodecError) | NotJson | BadValue(cause: CodecError)
                         | DuplicateIdentity | OwnershipMismatch | IdentityMismatch | BadJob

  /** The workspace and id a value carries itself, if its type has any. */
  datatype Carried = Carried(workspaceOf: Value -> Option<string>, idOf: Value -> Option<string>)

  // ---------------------------------------------------------------- saving

  function SaveOne(key: DocKey, doc: Doc): Result<Document, SnapshotError> {
    var encoded := Encode(doc.value);
    if encoded.Err? then Err(CannotSave(encoded.error))
    else if !AllFinite(encoded.value.value) then Err(NotJson)
    else Ok(Document(key, doc.revision, doc.generation, doc.deleted, encoded.value))
  }

  /** The documents in the order the dictionaries list them; one that cannot be encoded fails the whole. */
  function SaveDocs(store: Store, order: seq<DocKey>): Result<seq<Document>, SnapshotError>
    requires forall i :: 0 <= i < |order| ==> order[i] in store
  {
    if |order| == 0 then Ok([])
    else
      var n := |order| - 1;
      var before := SaveDocs(store, order[..n]);
      if before.Err? then before
      else
        var last := SaveOne(order[n], store[order[n]]);
        if last.Err? then Err(last.error) else Ok(before.value + [last.value])
  }

  // ---------------------------------------------------------------- restoring

  predicate IdentityTaken(store: Store, key: DocKey) {
    exists k :: k in store && k.collection == key.collection && k.id == key.id
  }

  function RestoreOne(carried: Carried, store: Store, d: Document): Result<Store, SnapshotError> {
    if IdentityTaken(store, d.key) then Err(DuplicateIdentity)
    else
      var decoded := Decode(d.value.kind, d.value.value);
      if decoded.Err? then Err(BadValue(decoded.error))
      else
        var workspace, id := carried.workspaceOf(decoded.value), carried.idOf(decoded.value);
        if workspace.Some? && workspace.value != d.key.workspace then Err(OwnershipMismatch)
        else if d.key.collection != "run_progress" && id.Some? && id.value != d.key.id then Err(IdentityMismatch)
        else Ok(store[d.key := Doc(decoded.value, d.revision, d.generation, d.deleted)])
  }

  function RestoreDocs(carried: Carried, docs: seq<Document>): Result<Store, SnapshotError> {
    if |docs| == 0 then Ok(map[])
    else
      var before := RestoreDocs(carried, docs[..|docs| - 1]);
      if before.Err? then before else RestoreOne(carried, before.value, docs[|docs| - 1])
  }

  /** Encodes the listed documents in turn; the first that cannot be saved stops it. */
  method EncodeDocuments(store: Store, order: seq<DocKey>) returns (r: Result<seq<Document>, SnapshotError>)
    requires forall i :: 0 <= i < |order| ==> order[i] in store
    ensures r == SaveDocs(store, order)
  {
    hide SaveOne;
    var docs: seq<Document> := [];
    for i := 0 to |order|
      invariant SaveDocs(store, order[..i]) == Ok(docs)
    {
      SaveNext(store, order, i);
      var d := SaveOne(order[i], store[order[i]]);
      if d.Err? {
        SaveErrorStays(store, order, i + 1);
        return Err(d.error);
      }
      docs := docs + [d.value];
    }
    assert order[..|order|] == order;
    r := Ok(docs);
  }

  /** Decodes and checks the documents in turn. */
  method RebuildStore(carried: Carried, docs: seq<Document>) returns (r: Result<Store, SnapshotError>)
    ensures r == RestoreDocs(carried, docs)
  {
    hide RestoreOne;
    var store: Store := map[];
    for i := 0 to |docs|
      invariant RestoreDocs(carried, docs[..i]) == Ok(store)
    {
      assert docs[..i + 1][..i] == docs[..i];
      var next := RestoreOne(carried, store, docs[i]);
      if next.Err? {
        RestoreErrorStays(carried, docs, i + 1);
        return next;
      }
      store := next.value;
    }
    assert docs[..|docs|] == docs;
    r := Ok(store);
  }

  lemma SaveNext(store: Store, order: seq<DocKey>, i: nat)
    requires i < |order| && forall n :: 0 <= n < |order| ==> order[n] in store
    ensures var before, one := SaveDocs(store, order[..i]), SaveOne(order[i], store[order[i]]);
            SaveDocs(store, order[..i + 1]) ==
            if before.Err? then before else if one.Err? then Err(one.error) else Ok(before.value + [one.value])
  {
    assert order[..i + 1][..i] == order[..i];
  }

  lemma {:induction false} SaveErrorStays(store: Store, order: seq<DocKey>, i: nat)
    requires i <= |order| && forall n :: 0 <= n < |order| ==> order[n] in store
    requires SaveDocs(store, order[..i]).Err?
    ensures SaveDocs(store, order) == SaveDocs(store, order[..i])
    decreases |order|
  {
    if i == |order| {
      assert order[..i] == order;
    } else {
      assert order[..|order| - 1][..i] == order[..i];
      SaveErrorStays(store, order[..|order| - 1], i);
    }
  }

  lemma {:induction false} RestoreErrorStays(carried: Carried, docs: seq<Document>, i: nat)
    requires i <= |docs| && RestoreDocs(carried, docs[..i]).Err?
    ensures RestoreDocs(carried, docs) == RestoreDocs(carried, docs[..i])
    decreases |docs|
  {
    if i == |docs| {
      assert docs[..i] == docs;
    } else {
      assert docs[..|docs| - 1][..i] == docs[..i];
      RestoreErrorStays(carried, docs[..|docs| - 1], i);
    }
  }

  // ---------------------------------------------------------------- main results

  /** A store is saved exactly when every one of its values can be. */
  lemma {:induction false} SavedExactly(store: Store, order: seq<DocKey>)
    requires forall i :: 0 <= i < |order| ==> order[i] in store
    ensures SaveDocs(store, order).Ok? <==> forall i :: 0 <= i < |order| ==> Storable(store[order[i]].value)
  {
    if |order| > 0 {
      var n := |order| - 1;
      SavedExactly(store, order[..n]);
      assert forall i :: 0 <= i < n ==> order[..n][i] == order[i];
    }
  }

  /** Every document is listed once, under the identity and in the workspace its value carries, and no
      two workspaces share an identity. */
  ghost predicate WellFiled(carried: Carried, store: Store, order: seq<DocKey>) {
    && (forall i :: 0 <= i < |order| ==> order[i] in store && Filed(carried, order[i], store[order[i]]))
    && (forall i, j :: 0 <= i < j < |order| ==> !(order[i].collection == order[j].collection && order[i].id == order[j].id))
  }

  predicate Filed(carried: Carried, key: DocKey, doc: Doc) {
    var workspace, id := carried.workspaceOf(doc.value), carried.idOf(doc.value);
    && (workspace.Some? ==> workspace.value == key.workspace)
    && (id.Some? && key.collection != "run_progress" ==> id.value == key.id)
  }

  /** The part of a store that a list names. */
  function Listed(store: Store, order: seq<DocKey>): Store {
    map k | k in store && k in order :: store[k]
  }

  lemma ListedNext(store: Store, order: seq<DocKey>)
    requires |order| > 0 && order[|order| - 1] in store
    ensures var last := order[|order| - 1];
            Listed(store, order) == Listed(store, order[..|order| - 1])[last := store[last]]
  {
    assert order == order[..|order| - 1] + [order[|order| - 1]];
  }

  lemma OneComesBack(carried: Carried, before: Store, key: DocKey, doc: Doc)
    requires Storable(doc.value) && Filed(carried, key, doc) && !IdentityTaken(before, key)
    ensures SaveOne(key, doc).Ok?
    ensures RestoreOne(carried, before, SaveOne(key, doc).value) == Ok(before[key := doc])
  {
    StoredComesBack(doc.value);
  }

  lemma WellFiledNext(carried: Carried, store: Store, order: seq<DocKey>)
    requires |order| > 0 && forall i :: 0 <= i < |order| ==> order[i] in store
    ensures var init, last := order[..|order| - 1], order[|order| - 1];
            WellFiled(carried, store, order) <==>
            WellFiled(carried, store, init) && Filed(carried, last, store[last]) && !IdentityTaken(Listed(store, init), last)
  {
    hide Filed;
    var init, last := order[..|order| - 1], order[|order| - 1];
    assert forall i :: 0 <= i < |init| ==> order[i] == init[i];
    if WellFiled(carried, store, init) && !IdentityTaken(Listed(store, init), last) {
      forall i | 0 <= i < |init| ensures !(order[i].collection == last.collection && order[i].id == last.id) {
        assert init[i] in Listed(store, init);
      }
    }
  }

  lemma {:induction false} ListedComesBack(carried: Carried, store: Store, order: seq<DocKey>)
    requires WellFiled(carried, store, order) && SaveDocs(store, order).Ok?
    ensures RestoreDocs(carried, SaveDocs(store, order).value) == Ok(Listed(store, order))
  {
    if |order| > 0 {
      var n := |order| - 1;
      var init, last := order[..n], order[n];
      WellFiledNext(carried, store, order);
      ListedComesBack(carried, store, init);
      SavedExactly(store, order);
      var docs := SaveDocs(store, order).value;
      assert docs[..|docs| - 1] == SaveDocs(store, init).value;
      OneComesBack(carried, Listed(store, init), last, store[last]);
      ListedNext(store, order);
    } else {
      assert Listed(store, order) == map[];
    }
  }

  /** A saved store can be restored if and only if it is well filed. */
  lemma {:induction false} RestoresExactly(carried: Carried, store: Store, order: seq<DocKey>)
    requires (forall i :: 0 <= i < |order| ==> order[i] in store) && SaveDocs(store, order).Ok?
    ensures RestoreDocs(carried, SaveDocs(store, order).value).Ok? <==> WellFiled(carried, store, order)
  {
    if |order| > 0 {
      var init, last := order[..|order| - 1], order[|order| - 1];
      RestoresExactly(carried, store, init);
      WellFiledNext(carried, store, order);
      var docs := SaveDocs(store, order).value;
      assert docs[..|docs| - 1] == SaveDocs(store, init).value && docs[|docs| - 1] == SaveOne(last, store[last]).value;
      if WellFiled(carried, store, init) {
        ListedComesBack(carried, store, init);
        OneRestoresExactly(carried, Listed(store, init), last, store[last]);
      }
    }
  }

  lemma OneRestoresExactly(carried: Carried, before: Store, key: DocKey, doc: Doc)
    requires SaveOne(key, doc).Ok?
    ensures RestoreOne(carried, before, SaveOne(key, doc).value).Ok? <==>
            Filed(carried, key, doc) && !IdentityTaken(before, key)
  {
    hide IdentityTaken, Encode, Decode, AllFinite;
    assert Storable(doc.value);
    StoredComesBack(doc.value);
  }

  /** Restoring what was saved gives back exactly the store. */
  lemma SavedComesBack(carried: Carried, store: Store, order: seq<DocKey>)
    requires WellFiled(carried, store, order) && SaveDocs(store, order).Ok?
    requires forall k :: k in store <==> k in order
    ensures RestoreDocs(carried, SaveDocs(store, order).value) == Ok(store)
  {
    ListedComesBack(carried, store, order);
    assert Listed(store, order) == store;
  }
}
