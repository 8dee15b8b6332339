/** The whole saved state: documents, jobs and run bookkeeping in one snapshot, and a restart of it. */
module RestartedState {
  import opened Contracts
  import opened JobRecords
  import opened JobService
  import Repo = CoreRepository
  import Recovery
  import opened SnapshotCodec
  import opened SnapshotStore

  const RUNS := "run"

  const PROGRESS := "run_progress"

  const PROGRESS_MODEL := "RunProgress"

  /** How a progress record looks as JSON, and what its document is called. */
  datatype ProgressFormat = ProgressFormat(
    dump: Repo.Progress -> Json, read: Json -> Option<Repo.Progress>, name: (string, string, int) -> string)

  /** Records read back as they were dumped, hold nothing that cannot be stored, and have names of their own. */
  ghost predicate Faithful(f: ProgressFormat) {
    && (forall p :: f.read(f.dump(p)) == Some(p))
    && (forall p :: NoSecrets(f.dump(p)) && AllFinite(f.dump(p)))
    && (forall run, attempt, n, run', attempt', n' :: f.name(run, attempt, n) == f.name(run', attempt', n') ==>
          run == run' && attempt == attempt' && n == n')
  }

  /** A run record carries its workspace and id; a progress record carries no workspace. */
  ghost predicate Carries(carried: Carried) {
    && (forall r :: carried.workspaceOf(Run(r)) == Some(r.workspaceId) && carried.idOf(Run(r)) == Some(r.id))
    && (forall dump :: carried.workspaceOf(Model(PROGRESS_MODEL, dump)) == None)
  }

  datatype State = State(
    store: Store, jobs: Jobs, active: map<string, string>, fences: map<string, nat>,
    workers: map<Repo.AttemptKey, string>, selected: map<string, string>)

  datatype Snapshot = Snapshot(
    documents: seq<Document>, jobs: Jobs, active: map<string, string>, fences: map<string, nat>,
    workers: map<Repo.AttemptKey, string>, selected: map<string, string>)

  predicate JobsPass(jobs: Jobs) {
    forall run :: run in jobs ==> jobs[run].runId == run && jobs[run].progressSequence >= -1
  }

  function Save(s: State, order: seq<DocKey>): Result<Snapshot, SnapshotError>
    requires forall i :: 0 <= i < |order| ==> order[i] in s.store
  {
    var docs := SaveDocs(s.store, order);
    if docs.Err? then Err(docs.error) else Ok(Snapshot(docs.value, s.jobs, s.active, s.fences, s.workers, s.selected))
  }

  /** What a snapshot holds, before the interrupted jobs are closed. */
  function Load(carried: Carried, file: Snapshot): Result<State, SnapshotError> {
    var store := RestoreDocs(carried, file.documents);
    if store.Err? then Err(store.error)
    else if !JobsPass(file.jobs) then Err(BadJob)
    else Ok(State(store.value, file.jobs, file.active, file.fences, file.workers, file.selected))
  }

  /** The snapshot file. Writing it replaces the whole of it at once. */
  class LocalStateSnapshot {
    var file: Option<Snapshot>

    constructor ()
      ensures file == None
    {
      file := None;
    }

    /** Replaces the snapshot by the whole state, or leaves the old one alone and says why. */
    method SaveState(s: State, order: seq<DocKey>) returns (error: Option<SnapshotError>)
      requires forall i :: 0 <= i < |order| ==> order[i] in s.store
      modifies this
      ensures error.None? ==> file.Some? && Save(s, order) == Ok(file.value)
      ensures error.Some? ==> file == old(file) && Save(s, order) == Err(error.value)
    {
      var docs := EncodeDocuments(s.store, order);
      if docs.Err? {
        return Some(docs.error);
      }
      file := Some(Snapshot(docs.value, s.jobs, s.active, s.fences, s.workers, s.selected));
      error := None;
    }

    /** Reads and checks the whole snapshot; that there is none is not an error. */
    method LoadState(carried: Carried) returns (r: Result<Option<State>, SnapshotError>)
      ensures file.None? ==> r == Ok(None)
      ensures file.Some? ==> match Load(carried, file.value) {
                               case Ok(s) => r == Ok(Some(s))
                               case Err(e) => r == Err(e)
                             }
    {
      if file.None? {
        return Ok(None);
      }
      var store := RebuildStore(carried, file.value.documents);
      if store.Err? {
        return Err(store.error);
      }
      var jobs := file.value.jobs;
      var todo := jobs.Keys;
      while todo != {}
        invariant todo <= jobs.Keys
        invariant forall run :: run in jobs && run !in todo ==> jobs[run].runId == run && jobs[run].progressSequence >= -1
        decreases todo
      {
        var run :| run in todo;
        if jobs[run].runId != run || jobs[run].progressSequence < -1 {
          return Err(BadJob);
        }
        todo := todo - {run};
      }
      r := Ok(Some(State(store.value, jobs, file.value.active, file.value.fences, file.value.workers, file.value.selected)));
    }
  }

  // ---------------------------------------------------------------- documents as the domain state

  ghost predicate UniqueIds(store: Store) {
    forall k, k' :: k in store && k' in store && k.collection == k'.collection && k.id == k'.id ==> k == k'
  }

  function RunIds(store: Store): set<string> {
    set k | k in store && k.collection == RUNS :: k.id
  }

  ghost function RunKey(store: Store, run: string): DocKey
    requires run in RunIds(store)
  {
    var k :| k in store && k.collection == RUNS && k.id == run;
    k
  }

  function AsRun(k: DocKey, doc: Doc): Repo.RunDoc {
    Repo.RunDoc(k.workspace, doc.value.Run?, doc.deleted, if doc.value.Run? then doc.value.run.selectedAttemptId else None,
                if doc.value.Dict? then AttemptIn(doc.value.fields) else Repo.NoField)
  }

  /** The attempt_id entry of a plain dictionary. */
  function AttemptIn(fields: seq<Field>): Repo.AttemptField {
    if |fields| == 0 then Repo.NoField
    else if fields[0].key == "attempt_id" then Repo.Holds(if fields[0].value.Str? then Some(fields[0].value.s) else None)
    else AttemptIn(fields[1..])
  }

  ghost function RunsOf(store: Store): map<string, Repo.RunDoc> {
    map run | run in RunIds(store) :: AsRun(RunKey(store, run), store[RunKey(store, run)])
  }

  function RecordIn(f: ProgressFormat, doc: Doc): Option<Repo.Progress> {
    if doc.value.Model? && doc.value.className == PROGRESS_MODEL then f.read(doc.value.dump) else None
  }

  function KeyOf(workspace: string, p: Repo.Progress): Repo.ProgressKey {
    Repo.ProgressKey(workspace, p.runId, p.attemptId, p.sequence)
  }

  function DocKeyOf(f: ProgressFormat, key: Repo.ProgressKey): DocKey {
    DocKey(key.workspace, PROGRESS, f.name(key.runId, key.attemptId, key.sequence))
  }

  /** The document is a progress record, under its own name and in the workspace of its run. */
  ghost predicate RecordFiled(f: ProgressFormat, store: Store, k: DocKey)
    requires k in store
  {
    && RecordIn(f, store[k]).Some?
    && k == DocKeyOf(f, KeyOf(k.workspace, RecordIn(f, store[k]).value))
    && (forall r :: r in store && r.collection == RUNS && r.id == RecordIn(f, store[k]).value.runId ==> r.workspace == k.workspace)
  }

  ghost predicate RecordsFiled(f: ProgressFormat, store: Store) {
    forall k :: k in store && k.collection == PROGRESS ==> RecordFiled(f, store, k)
  }

  ghost function RecordKeys(f: ProgressFormat, store: Store): set<Repo.ProgressKey>
    requires RecordsFiled(f, store)
    ensures forall key :: key in RecordKeys(f, store) ==>
              DocKeyOf(f, key) in store && RecordIn(f, store[DocKeyOf(f, key)]).Some?
  {
    set k | k in store && k.collection == PROGRESS :: KeyOf(k.workspace, RecordIn(f, store[k]).value)
  }

  ghost function RecordsOf(f: ProgressFormat, store: Store): map<Repo.ProgressKey, Repo.Progress>
    requires RecordsFiled(f, store)
  {
    map key | key in RecordKeys(f, store) :: RecordIn(f, store[DocKeyOf(f, key)]).value
  }

  /** The runs, records and bookkeeping that a restart looks at. */
  ghost function CoreOf(f: ProgressFormat, s: State): Repo.Core
    requires RecordsFiled(f, s.store)
  {
    Repo.Core(RunsOf(s.store), map[], RecordsOf(f, s.store), s.active, s.fences, s.workers, s.selected)
  }

  // ---------------------------------------------------------------- the restart, on documents

  function Reselected(doc: Doc, selected: Option<string>): Doc {
    if doc.value.Run? then doc.(value := Run(doc.value.run.(selectedAttemptId := selected))) else doc
  }

  /** Run documents with the selected attempts of the domain state. */
  function RunsBack(store: Store, core: Repo.Core): Store {
    map k | k in store ::
      if k.collection == RUNS && k.id in core.runs then Reselected(store[k], core.runs[k.id].selectedAttempt) else store[k]
  }

  function RecordDoc(f: ProgressFormat, p: Repo.Progress): Doc {
    Doc(Model(PROGRESS_MODEL, f.dump(p)), Max(0, p.sequence), 1, false)
  }

  lemma DocKeysDiffer(f: ProgressFormat)
    requires Faithful(f)
    ensures forall key, key' :: DocKeyOf(f, key) == DocKeyOf(f, key') ==> key == key'
  {
  }

  /** Documents for the records that have none yet. */
  ghost function NewRecords(f: ProgressFormat, store: Store, core: Repo.Core): Store
    requires Faithful(f)
  {
    DocKeysDiffer(f);
    map key | key in core.progress && DocKeyOf(f, key) !in store :: DocKeyOf(f, key) := RecordDoc(f, core.progress[key])
  }

  ghost function WriteBack(f: ProgressFormat, store: Store, core: Repo.Core): Store
    requires Faithful(f)
  {
    RunsBack(store, core) + NewRecords(f, store, core)
  }

  /** The state after a restart: running jobs closed, their runs and records written back as documents. */
  ghost function Interrupted(f: ProgressFormat, s: State): State
    requires Faithful(f) && RecordsFiled(f, s.store)
  {
    var (core, jobs) := Recovery.Restart(CoreOf(f, s), s.jobs);
    State(WriteBack(f, s.store, core), jobs, core.activeAttempts, core.fences, core.workers, core.selected)
  }

  // ---------------------------------------------------------------- what is loaded can be saved again

  /** The value encodes, and may stand inside any container that does. */
  predicate Fit(v: Value) {
    Encode(v).Ok? && RawFieldsPass(v)
  }

  lemma {:induction false} ItemsEncode(items: seq<Value>)
    requires forall x :: x in items ==> Encode(x).Ok?
    ensures EncodeItems(items).Ok?
  {
    hide Encode;
    if |items| > 0 {
      ItemsEncode(items[1..]);
    }
  }

  lemma {:induction false} FieldsEncode(fields: seq<Field>)
    requires forall x :: x in fields ==> Encode(x.value).Ok?
    ensures EncodeFields(fields).Ok?
  {
    hide Encode;
    if |fields| > 0 {
      FieldsEncode(fields[1..]);
    }
  }

  predicate Container(kind: string, payload: Json) {
    kind !in MODELS && ((kind == "dict" && payload.JObj?) || (kind in {"list", "tuple"} && payload.JArr?))
  }

  lemma LeafIsFit(kind: string, payload: Json)
    requires Decode(kind, payload).Ok? && !Container(kind, payload)
    ensures Fit(Decode(kind, payload).value)
  {
    hide IsRunRecord, ReadRunRecord, DecodeItems, DecodeFields, HasOffset;
  }

  lemma ContainerIs(kind: string, payload: Json)
    requires Decode(kind, payload).Ok? && Container(kind, payload)
    ensures payload.JObj? ==>
              (forall x :: x in payload.fields ==> !Secret(x.key)) && DecodeFields(payload.fields).Ok?
              && Decode(kind, payload).value == Dict(DecodeFields(payload.fields).value)
    ensures payload.JArr? ==>
              DecodeItems(payload.items).Ok?
              && (Decode(kind, payload).value == List(DecodeItems(payload.items).value)
                  || Decode(kind, payload).value == Tuple(DecodeItems(payload.items).value))
  {
    hide DecodeItems, DecodeFields, Secret, AllFinite;
  }

  /** Decoding yields only values that encode. */
  lemma {:induction false} DecodedIsFit(kind: string, payload: Json)
    requires Decode(kind, payload).Ok?
    ensures Fit(Decode(kind, payload).value)
    decreases payload, 1
  {
    hide Decode, DecodeItems, DecodeFields, Secret;
    if !Container(kind, payload) {
      LeafIsFit(kind, payload);
    } else {
      ContainerIs(kind, payload);
      if payload.JObj? {
        DecodedFieldsFit(payload.fields);
        FieldsEncode(DecodeFields(payload.fields).value);
      } else {
        DecodedItemsFit(payload.items);
        ItemsEncode(DecodeItems(payload.items).value);
      }
    }
  }

  lemma {:induction false} DecodedItemsFit(items: seq<Json>)
    requires DecodeItems(items).Ok?
    ensures forall x :: x in DecodeItems(items).value ==> Fit(x)
    decreases items, 0
  {
    hide Fit;
    if |items| > 0 {
      var t := Unwrap(items[0]);
      DecodedIsFit(t.kind, t.value);
      DecodedItemsFit(items[1..]);
    }
  }

  lemma {:induction false} DecodedFieldsFit(fields: seq<JsonField>)
    requires DecodeFields(fields).Ok? && forall x :: x in fields ==> !Secret(x.key)
    ensures forall x :: x in DecodeFields(fields).value ==> !Secret(x.key) && Fit(x.value)
    decreases fields, 0
  {
    hide Fit, Secret;
    if |fields| > 0 {
      var t := Unwrap(fields[0].value);
      DecodedIsFit(t.kind, t.value);
      DecodedFieldsFit(fields[1..]);
    }
  }

  lemma {:induction false} RawIsFinite(v: Value)
    requires RawFieldsPass(v)
    ensures FiniteValue(v)
    decreases v
  {
    match v
    case List(items) =>
      forall x | x in items ensures FiniteValue(x) { RawIsFinite(x); }
    case Tuple(items) =>
      forall x | x in items ensures FiniteValue(x) { RawIsFinite(x); }
    case Dict(fields) =>
      forall x | x in fields ensures FiniteValue(x.value) { RawIsFinite(x.value); }
    case _ =>
  }

  /** What was decoded can be stored. */
  lemma DecodedIsStorable(kind: string, payload: Json)
    requires Decode(kind, payload).Ok?
    ensures Storable(Decode(kind, payload).value)
  {
    hide Decode, Encode, RawFieldsPass, FiniteValue;
    var v := Decode(kind, payload).value;
    DecodedIsFit(kind, payload);
    RawIsFinite(v);
    EncodedPasses(v);
  }

  // ---------------------------------------------------------------- sound states

  ghost predicate DocsSound(carried: Carried, store: Store) {
    && UniqueIds(store)
    && forall k :: k in store ==> Storable(store[k].value) && Filed(carried, k, store[k])
  }

  /** Everything can be stored, stands under its own identity, and no identity is used twice. */
  ghost predicate Sound(carried: Carried, f: ProgressFormat, s: State) {
    DocsSound(carried, s.store) && JobsPass(s.jobs) && RecordsFiled(f, s.store)
  }

  lemma {:induction false} RestoredIsSound(carried: Carried, docs: seq<Document>)
    requires RestoreDocs(carried, docs).Ok?
    ensures DocsSound(carried, RestoreDocs(carried, docs).value)
  {
    hide Storable, Filed, Decode;
    if |docs| > 0 {
      var init, d := docs[..|docs| - 1], docs[|docs| - 1];
      RestoredIsSound(carried, init);
      OneRestoredIsSound(carried, RestoreDocs(carried, init).value, d);
    }
  }

  lemma OneRestoredIsSound(carried: Carried, store: Store, d: Document)
    requires DocsSound(carried, store) && RestoreOne(carried, store, d).Ok?
    ensures DocsSound(carried, RestoreOne(carried, store, d).value)
  {
    hide Storable, Decode;
    DecodedIsStorable(d.value.kind, d.value.value);
  }

  /** A sound state is saved, and loading the snapshot gives it back. */
  lemma SoundComesBack(carried: Carried, f: ProgressFormat, s: State, order: seq<DocKey>)
    requires Sound(carried, f, s) && Lists(order, s.store)
    ensures Save(s, order).Ok? && Load(carried, Save(s, order).value) == Ok(s)
  {
    hide Storable, Filed, SaveDocs, RestoreDocs, RecordsFiled;
    SavedExactly(s.store, order);
    forall i, j | 0 <= i < j < |order| ensures !(order[i].collection == order[j].collection && order[i].id == order[j].id) {
      assert order[i] in s.store && order[j] in s.store && order[i] != order[j];
    }
    SavedComesBack(carried, s.store, order);
  }

  /** The keys of the store, each once. */
  ghost predicate Lists(order: seq<DocKey>, store: Store) {
    (forall k :: k in store <==> k in order) && forall i, j :: 0 <= i < j < |order| ==> order[i] != order[j]
  }

  // ---------------------------------------------------------------- what a restart leaves as it was

  /** Of a run a restart changes at most the selected attempt, and only in a run record. */
  ghost predicate RunKept(before: Repo.RunDoc, after: Repo.RunDoc) {
    after == before.(selectedAttempt := after.selectedAttempt) && (!before.isRecord ==> after == before)
  }

  /** A record that is new is filed for a stored run, in its workspace, under its own key. */
  ghost predicate NewRecordFiled(core: Repo.Core, key: Repo.ProgressKey, p: Repo.Progress) {
    key.runId in core.runs && key.workspace == core.runs[key.runId].workspace && key == KeyOf(key.workspace, p)
  }

  ghost predicate CoreKept(core: Repo.Core, core': Repo.Core) {
    && core'.runs.Keys == core.runs.Keys
    && (forall run :: run in core.runs ==> RunKept(core.runs[run], core'.runs[run]))
    && (forall key :: key in core.progress ==> key in core'.progress && core'.progress[key] == core.progress[key])
    && (forall key :: key in core'.progress && key !in core.progress ==> NewRecordFiled(core, key, core'.progress[key]))
    && core'.events == core.events && core'.workers == core.workers
  }

  lemma RunsKept(core: Repo.Core, jobs: Jobs, done: set<string>)
    requires done <= jobs.Keys
    ensures var closed := Recovery.ClosedRuns(core, jobs, done);
            closed.Keys == core.runs.Keys && forall run :: run in core.runs ==> RunKept(core.runs[run], closed[run])
  {
    hide Recovery.IsRecorded, Recovery.AttemptOf;
  }

  lemma RecordsKept(core: Repo.Core, jobs: Jobs, done: set<string>, key: Repo.ProgressKey)
    requires done <= jobs.Keys && key in Recovery.FinalRecords(core, jobs, done)
    ensures NewRecordFiled(core, key, Recovery.FinalRecords(core, jobs, done)[key])
    ensures key !in core.progress
  {
    Recovery.FinalRecordsAreOwn(core, jobs, done, key);
    var run, job := key.runId, jobs[key.runId];
    Recovery.FinalKeyIsNew(core, run, job);
    NewRecordIsFiled(core, run, job);
  }

  lemma NewRecordIsFiled(core: Repo.Core, run: string, job: Job)
    requires Recovery.IsRecorded(core, run, job)
    ensures NewRecordFiled(core, Recovery.FinalKey(core, run, job), Recovery.FinalRecord(core, run, job))
  {
    hide Recovery.FinalSequence, Recovery.AttemptOf;
  }

  lemma RestartKeepsCore(core: Repo.Core, jobs: Jobs)
    ensures CoreKept(core, Recovery.Restart(core, jobs).0)
  {
    hide RunKept, NewRecordFiled, Recovery.Seeded, Recovery.ClosedRuns, Recovery.FinalRecords, Recovery.RaisedFences,
      Recovery.SelectedAttempts, Recovery.ClosedJobs;
    var seeded := Recovery.Seeded(core, jobs);
    var done := Recovery.Running(seeded);
    RunsKept(core, seeded, done);
    forall key | key in Recovery.FinalRecords(core, seeded, done)
      ensures NewRecordFiled(core, key, Recovery.FinalRecords(core, seeded, done)[key]) && key !in core.progress
    {
      RecordsKept(core, seeded, done, key);
    }
  }

  lemma InterruptedJobPasses(core: Repo.Core, run: string, job: Job)
    requires job.runId == run && job.progressSequence >= -1
    ensures Recovery.InterruptedJob(core, run, job).runId == run && Recovery.InterruptedJob(core, run, job).progressSequence >= -1
  {
    hide Recovery.Latest, Recovery.RecordsOf;
  }

  lemma SeededPass(core: Repo.Core, jobs: Jobs)
    requires JobsPass(jobs)
    ensures JobsPass(Recovery.Seeded(core, jobs))
  {
  }

  lemma RestartKeepsJobs(core: Repo.Core, jobs: Jobs)
    requires JobsPass(jobs)
    ensures JobsPass(Recovery.Restart(core, jobs).1)
  {
    hide Recovery.Seeded, Recovery.InterruptedJob, Recovery.RestartSome;
    SeededPass(core, jobs);
    var seeded := Recovery.Seeded(core, jobs);
    forall run | run in seeded
      ensures Recovery.InterruptedJob(core, run, seeded[run]).runId == run
              && Recovery.InterruptedJob(core, run, seeded[run]).progressSequence >= -1
    {
      InterruptedJobPasses(core, run, seeded[run]);
    }
  }

  // ---------------------------------------------------------------- writing the restart back

  /** The documents that belong to a domain state. */
  ghost predicate Shows(f: ProgressFormat, store: Store, core: Repo.Core) {
    RecordsFiled(f, store) && core.runs == RunsOf(store) && core.progress == RecordsOf(f, store)
  }

  /** The record behind a new document. */
  lemma NewRecordAt(f: ProgressFormat, store: Store, core: Repo.Core, core': Repo.Core, k: DocKey) returns (key: Repo.ProgressKey)
    requires Faithful(f) && Shows(f, store, core) && CoreKept(core, core') && k in NewRecords(f, store, core')
    ensures key in core'.progress && key !in core.progress && k == DocKeyOf(f, key) && k !in store && k.collection == PROGRESS
    ensures NewRecordFiled(core, key, core'.progress[key])
    ensures NewRecords(f, store, core')[k] == RecordDoc(f, core'.progress[key])
  {
    hide NewRecordFiled, RunKept, RecordFiled, RunsOf;
    DocKeysDiffer(f);
    key :| key in core'.progress && DocKeyOf(f, key) !in store && k == DocKeyOf(f, key);
    assert key !in RecordKeys(f, store);
  }

  /** A stored run stands in the workspace that the domain state names. */
  lemma RunStands(store: Store, core: Repo.Core, r: DocKey)
    requires UniqueIds(store) && core.runs == RunsOf(store) && r in store && r.collection == RUNS
    ensures r.id in core.runs && core.runs[r.id] == AsRun(r, store[r]) && core.runs[r.id].workspace == r.workspace
    ensures RunKey(store, r.id) == r
  {
    hide AsRun;
    assert r.id in RunIds(store);
    assert AsRun(r, store[r]).workspace == r.workspace by { AsRunStands(r, store[r]); }
  }

  lemma AsRunStands(k: DocKey, doc: Doc)
    ensures AsRun(k, doc).workspace == k.workspace
  {
  }

  lemma OldStays(f: ProgressFormat, store: Store, core': Repo.Core, k: DocKey)
    requires Faithful(f) && k in store
    ensures k in WriteBack(f, store, core') && WriteBack(f, store, core')[k] == RunsBack(store, core')[k]
  {
    hide RecordDoc, Reselected;
  }

  /** No stored document has the identity of a new one. */
  lemma NewIdentity(f: ProgressFormat, store: Store, core: Repo.Core, core': Repo.Core, k: DocKey, k': DocKey)
    requires Faithful(f) && Shows(f, store, core) && CoreKept(core, core') && UniqueIds(store)
    requires k in store && k' in NewRecords(f, store, core')
    ensures !(k.collection == k'.collection && k.id == k'.id)
  {
    hide NewRecords, RunKept, RunsOf;
    var key := NewRecordAt(f, store, core, core', k');
    if k.collection == PROGRESS && k.id == k'.id {
      assert RecordFiled(f, store, k);
      var p := RecordIn(f, store[k]).value;
      assert p.runId == key.runId && p.attemptId == key.attemptId && p.sequence == key.sequence;
      var r := SomeRun(store, core, key.runId);
      RunStands(store, core, r);
    }
  }

  lemma SomeRun(store: Store, core: Repo.Core, run: string) returns (r: DocKey)
    requires core.runs == RunsOf(store) && run in core.runs
    ensures r in store && r.collection == RUNS && r.id == run
  {
    assert run in RunIds(store);
    r :| r in store && r.collection == RUNS && r.id == run;
  }

  /** Two new documents with one identity are the same. */
  lemma NewIdentities(f: ProgressFormat, store: Store, core: Repo.Core, core': Repo.Core, k: DocKey, k': DocKey)
    requires Faithful(f) && Shows(f, store, core) && CoreKept(core, core')
    requires k in NewRecords(f, store, core') && k' in NewRecords(f, store, core') && k.id == k'.id
    ensures k == k'
  {
    hide NewRecords, RunKept, RunsOf, RecordsFiled;
    var key := NewRecordAt(f, store, core, core', k);
    var key' := NewRecordAt(f, store, core, core', k');
    assert key.runId == key'.runId;
  }

  lemma WriteBackUnique(f: ProgressFormat, store: Store, core: Repo.Core, core': Repo.Core)
    requires Faithful(f) && Shows(f, store, core) && CoreKept(core, core') && UniqueIds(store)
    ensures UniqueIds(WriteBack(f, store, core'))
  {
    hide NewRecords, CoreKept, Shows, Faithful;
    var after := WriteBack(f, store, core');
    forall k, k' | k in after && k' in after && k.collection == k'.collection && k.id == k'.id ensures k == k' {
      if k in store && k' !in store {
        NewIdentity(f, store, core, core', k, k');
      } else if k !in store && k' in store {
        NewIdentity(f, store, core, core', k', k);
      } else if k !in store {
        NewIdentities(f, store, core, core', k, k');
      }
    }
  }

  lemma ReselectedIsSound(carried: Carried, k: DocKey, doc: Doc, selected: Option<string>)
    requires Carries(carried) && Storable(doc.value) && Filed(carried, k, doc)
    ensures Storable(Reselected(doc, selected).value) && Filed(carried, k, Reselected(doc, selected))
  {
    if doc.value.Run? {
      RunRecordPasses(doc.value.run.(selectedAttemptId := selected));
    }
  }

  lemma RecordDocIsSound(carried: Carried, f: ProgressFormat, k: DocKey, p: Repo.Progress)
    requires Carries(carried) && Faithful(f) && k.collection == PROGRESS
    ensures Storable(RecordDoc(f, p).value) && Filed(carried, k, RecordDoc(f, p))
    ensures RecordIn(f, RecordDoc(f, p)) == Some(p)
  {
    hide NoSecrets, AllFinite;
  }

  lemma WriteBackDocsSound(carried: Carried, f: ProgressFormat, store: Store, core: Repo.Core, core': Repo.Core)
    requires Faithful(f) && Carries(carried) && Shows(f, store, core) && CoreKept(core, core') && DocsSound(carried, store)
    ensures DocsSound(carried, WriteBack(f, store, core'))
  {
    hide NewRecords, CoreKept, Shows, Faithful, Carries, Storable, Filed, UniqueIds, Reselected, RecordDoc;
    var after := WriteBack(f, store, core');
    WriteBackUnique(f, store, core, core');
    forall k | k in after ensures Storable(after[k].value) && Filed(carried, k, after[k]) {
      if k in store {
        OldStays(f, store, core', k);
        if k.collection == RUNS && k.id in core'.runs {
          ReselectedIsSound(carried, k, store[k], core'.runs[k.id].selectedAttempt);
        }
      } else {
        var key := NewRecordAt(f, store, core, core', k);
        RecordDocIsSound(carried, f, k, core'.progress[key]);
      }
    }
  }

  lemma RunsAreOld(f: ProgressFormat, store: Store, core: Repo.Core, core': Repo.Core, r: DocKey)
    requires Faithful(f) && Shows(f, store, core) && CoreKept(core, core')
    requires r in WriteBack(f, store, core') && r.collection == RUNS
    ensures r in store
  {
    hide NewRecords, CoreKept, Shows, Faithful;
    if r !in store {
      var key := NewRecordAt(f, store, core, core', r);
    }
  }

  lemma WriteBackFiles(f: ProgressFormat, store: Store, core: Repo.Core, core': Repo.Core, k: DocKey)
    requires Faithful(f) && Shows(f, store, core) && CoreKept(core, core') && UniqueIds(store)
    requires k in WriteBack(f, store, core') && k.collection == PROGRESS
    ensures RecordFiled(f, WriteBack(f, store, core'), k)
  {
    hide NewRecords, CoreKept, RunsOf, WriteBack, RecordIn, UniqueIds, RunKept;
    var after := WriteBack(f, store, core');
    forall r | r in after && r.collection == RUNS ensures r in store {
      RunsAreOld(f, store, core, core', r);
    }
    if k in store {
      OldStays(f, store, core', k);
      assert RecordFiled(f, store, k);
    } else {
      var key := NewDocAt(f, store, core, core', k);
      RecordReads(f, core'.progress[key]);
      forall r | r in after && r.collection == RUNS && r.id == key.runId ensures r.workspace == k.workspace {
        RunStands(store, core, r);
      }
    }
  }

  lemma RecordReads(f: ProgressFormat, p: Repo.Progress)
    requires Faithful(f)
    ensures RecordIn(f, RecordDoc(f, p)) == Some(p)
  {
  }

  /** A document that a restart adds. */
  lemma NewDocAt(f: ProgressFormat, store: Store, core: Repo.Core, core': Repo.Core, k: DocKey) returns (key: Repo.ProgressKey)
    requires Faithful(f) && Shows(f, store, core) && CoreKept(core, core')
    requires k in WriteBack(f, store, core') && k !in store
    ensures key in core'.progress && key !in core.progress && k == DocKeyOf(f, key) && k.collection == PROGRESS
    ensures NewRecordFiled(core, key, core'.progress[key])
    ensures WriteBack(f, store, core')[k] == RecordDoc(f, core'.progress[key])
  {
    hide RunKept, RecordFiled, RunsOf, Faithful, NewRecords, NewRecordFiled;
    key := NewRecordAt(f, store, core, core', k);
  }

  // ---------------------------------------------------------------- the documents show the restarted state

  lemma RunsShow(f: ProgressFormat, store: Store, core: Repo.Core, core': Repo.Core)
    requires Faithful(f) && Shows(f, store, core) && CoreKept(core, core') && UniqueIds(store)
    ensures RunsOf(WriteBack(f, store, core')) == core'.runs
  {
    hide NewRecords, Shows, Faithful, WriteBack, UniqueIds, RunsBack, RunKept;
    var after := WriteBack(f, store, core');
    WriteBackUnique(f, store, core, core');
    forall r | r in after && r.collection == RUNS ensures r in store {
      RunsAreOld(f, store, core, core', r);
    }
    forall r | r in store ensures r in after {
      OldStays(f, store, core', r);
    }
    ShownRuns(f, store, core);
    assert RunIds(after) == core.runs.Keys;
    forall run | run in RunIds(after) ensures RunsOf(after)[run] == core'.runs[run] {
      RunShows(f, store, core, core', RunKey(after, run));
    }
  }

  lemma ShownRuns(f: ProgressFormat, store: Store, core: Repo.Core)
    requires Shows(f, store, core)
    ensures RunIds(store) == core.runs.Keys
  {
    hide RunKey, AsRun;
  }

  lemma RunShows(f: ProgressFormat, store: Store, core: Repo.Core, core': Repo.Core, r: DocKey)
    requires Faithful(f) && Shows(f, store, core) && CoreKept(core, core') && UniqueIds(store)
    requires r in store && r.collection == RUNS
    ensures r in WriteBack(f, store, core') && r.id in core'.runs
    ensures AsRun(r, WriteBack(f, store, core')[r]) == core'.runs[r.id]
  {
    hide NewRecords, WriteBack, UniqueIds, RunsOf, RecordsFiled, RecordsOf, Faithful;
    OldStays(f, store, core', r);
    RunStands(store, core, r);
    assert RunKept(core.runs[r.id], core'.runs[r.id]);
  }

  lemma RecordsShow(f: ProgressFormat, store: Store, core: Repo.Core, core': Repo.Core)
    requires Faithful(f) && Shows(f, store, core) && CoreKept(core, core') && RecordsFiled(f, WriteBack(f, store, core'))
    ensures RecordsOf(f, WriteBack(f, store, core')) == core'.progress
  {
    hide NewRecords, Shows, Faithful, WriteBack, RunsOf, RecordDoc, RecordIn, DocKeyOf, RecordKeys, RunsBack;
    var after := WriteBack(f, store, core');
    forall key ensures key in RecordKeys(f, after) <==> key in core'.progress {
      RecordKeyShows(f, store, core, core', key);
    }
    forall key | key in core'.progress ensures RecordIn(f, after[DocKeyOf(f, key)]) == Some(core'.progress[key]) {
      RecordShows(f, store, core, core', key);
    }
  }

  lemma RecordShows(f: ProgressFormat, store: Store, core: Repo.Core, core': Repo.Core, key: Repo.ProgressKey)
    requires Faithful(f) && Shows(f, store, core) && CoreKept(core, core') && key in core'.progress
    ensures DocKeyOf(f, key) in WriteBack(f, store, core')
    ensures RecordIn(f, WriteBack(f, store, core')[DocKeyOf(f, key)]) == Some(core'.progress[key])
  {
    hide RunsOf, Faithful, RunKept, RecordDoc, RecordIn;
    var k := DocKeyOf(f, key);
    if key in core.progress {
      assert key in RecordKeys(f, store);
      OldStays(f, store, core', k);
    } else {
      if k in store {
        NamedIsShown(f, store, core, key);
      }
      NewIsWritten(f, store, core', key);
      RecordReads(f, core'.progress[key]);
    }
  }

  lemma NewIsWritten(f: ProgressFormat, store: Store, core: Repo.Core, key: Repo.ProgressKey)
    requires Faithful(f) && key in core.progress && DocKeyOf(f, key) !in store
    ensures DocKeyOf(f, key) in WriteBack(f, store, core)
    ensures WriteBack(f, store, core)[DocKeyOf(f, key)] == RecordDoc(f, core.progress[key])
  {
    hide Faithful, RecordDoc, DocKeyOf, Reselected;
    DocKeysDiffer(f);
  }

  /** A document under the name of a record is that record. */
  lemma NamedIsShown(f: ProgressFormat, store: Store, core: Repo.Core, key: Repo.ProgressKey)
    requires Faithful(f) && Shows(f, store, core) && DocKeyOf(f, key) in store
    ensures key in core.progress
  {
    hide RunsOf, RecordIn;
    var k := DocKeyOf(f, key);
    DocKeysDiffer(f);
    assert RecordFiled(f, store, k);
    assert KeyOf(k.workspace, RecordIn(f, store[k]).value) == key;
    assert key in RecordKeys(f, store);
  }

  lemma RecordKeyShows(f: ProgressFormat, store: Store, core: Repo.Core, core': Repo.Core, key: Repo.ProgressKey)
    requires Faithful(f) && Shows(f, store, core) && CoreKept(core, core') && RecordsFiled(f, WriteBack(f, store, core'))
    ensures key in RecordKeys(f, WriteBack(f, store, core')) <==> key in core'.progress
  {
    hide RunsOf, RunKept, WriteBack, RecordDoc, Faithful, NewRecords;
    var after := WriteBack(f, store, core');
    if key in RecordKeys(f, after) {
      var k :| k in after && k.collection == PROGRESS && key == KeyOf(k.workspace, RecordIn(f, after[k]).value);
      if k in store {
        OldStays(f, store, core', k);
        assert key in RecordKeys(f, store);
      } else {
        var new_ := NewDocAt(f, store, core, core', k);
        RecordReads(f, core'.progress[new_]);
      }
    }
    if key in core'.progress {
      RecordShows(f, store, core, core', key);
      assert RecordFiled(f, after, DocKeyOf(f, key));
      DocKeysDiffer(f);
    }
  }

  // ---------------------------------------------------------------- main results

  /** The documents after a restart show exactly the restarted domain state. */
  lemma RestartIsShown(carried: Carried, f: ProgressFormat, s: State)
    requires Faithful(f) && Carries(carried) && Sound(carried, f, s)
    ensures Sound(carried, f, Interrupted(f, s))
    ensures CoreOf(f, Interrupted(f, s)) == Recovery.Restart(CoreOf(f, s), s.jobs).0
  {
    hide Recovery.Restart, WriteBack, RunsOf, RecordsOf, RecordFiled, Storable, Filed, JobsPass;
    var core, core' := CoreOf(f, s), Recovery.Restart(CoreOf(f, s), s.jobs).0;
    RestartKeepsCore(core, s.jobs);
    RestartKeepsJobs(core, s.jobs);
    var after := WriteBack(f, s.store, core');
    WriteBackDocsSound(carried, f, s.store, core, core');
    forall k | k in after && k.collection == PROGRESS ensures RecordFiled(f, after, k) {
      WriteBackFiles(f, s.store, core, core', k);
    }
    RunsShow(f, s.store, core, core');
    RecordsShow(f, s.store, core, core');
  }

  /** Writing back a state that the documents already show changes none of them. */
  lemma ShownIsUnchanged(f: ProgressFormat, store: Store, core: Repo.Core)
    requires Faithful(f) && Shows(f, store, core) && UniqueIds(store)
    ensures WriteBack(f, store, core) == store
  {
    hide Faithful, RecordDoc, RecordsFiled, RunsOf;
    forall k | k in store ensures RunsBack(store, core)[k] == store[k] {
      if k.collection == RUNS {
        RunStands(store, core, k);
      }
    }
    assert RunsBack(store, core) == store;
    forall key | key in core.progress ensures DocKeyOf(f, key) in store {
      assert key in RecordKeys(f, store);
    }
    NothingNew(f, store, core);
  }

  lemma NothingNew(f: ProgressFormat, store: Store, core: Repo.Core)
    requires Faithful(f) && forall key :: key in core.progress ==> DocKeyOf(f, key) in store
    ensures NewRecords(f, store, core) == map[]
  {
    hide Faithful, RecordDoc, DocKeyOf;
  }

  /** A second restart of the whole state changes nothing. */
  lemma RestartedTwice(carried: Carried, f: ProgressFormat, s: State)
    requires Faithful(f) && Carries(carried) && Sound(carried, f, s)
    ensures RecordsFiled(f, Interrupted(f, s).store)
    ensures Interrupted(f, Interrupted(f, s)) == Interrupted(f, s)
  {
    hide Recovery.Restart, WriteBack, RunsOf, RecordsOf, RecordsFiled, Storable, Filed, JobsPass;
    var once := Interrupted(f, s);
    RestartIsShown(carried, f, s);
    Recovery.RestartIsIdempotent(CoreOf(f, s), s.jobs);
    ShownIsUnchanged(f, once.store, CoreOf(f, once));
  }

  /** What a snapshot file holds is sound when its progress records are filed as they are committed. */
  lemma LoadedIsSound(carried: Carried, f: ProgressFormat, file: Snapshot)
    requires Load(carried, file).Ok? && RecordsFiled(f, Load(carried, file).value.store)
    ensures Sound(carried, f, Load(carried, file).value)
  {
    hide RecordsFiled, DocsSound;
    RestoredIsSound(carried, file.documents);
  }

  /** Restart from any snapshot file, save, and restart again: the saved file loads back to exactly the
      state that was saved, and closing interrupted jobs a second time changes nothing in it. */
  lemma RestartComesBack(carried: Carried, f: ProgressFormat, file: Snapshot, order: seq<DocKey>)
    requires Faithful(f) && Carries(carried)
    requires Load(carried, file).Ok? && RecordsFiled(f, Load(carried, file).value.store)
    requires Lists(order, Interrupted(f, Load(carried, file).value).store)
    ensures var s := Interrupted(f, Load(carried, file).value);
            && Save(s, order).Ok?
            && Load(carried, Save(s, order).value) == Ok(s)
            && RecordsFiled(f, s.store) && Interrupted(f, s) == s
  {
    hide Recovery.Restart, WriteBack, RecordsFiled, SaveDocs, RestoreDocs, Sound;
    LoadedIsSound(carried, f, file);
    var loaded := Load(carried, file).value;
    SoundFiles(carried, f, loaded);
    RestartIsShown(carried, f, loaded);
    RestartedTwice(carried, f, loaded);
    SoundComesBack(carried, f, Interrupted(f, loaded), order);
  }

  lemma SoundFiles(carried: Carried, f: ProgressFormat, s: State)
    requires Sound(carried, f, s)
    ensures RecordsFiled(f, s.store)
  {
  }

  /** The documents tell of every interruption: each interrupted job with a known attempt and a stored
      run has a new document, a failed record numbered beyond every earlier one. */
  lemma InterruptionIsDocumented(carried: Carried, f: ProgressFormat, s: State, run: string, job: Job)
    requires Faithful(f) && Carries(carried) && Sound(carried, f, s)
    requires var seeded := Recovery.Seeded(CoreOf(f, s), s.jobs);
             run in Recovery.Running(seeded) && job == seeded[run] && Recovery.IsRecorded(CoreOf(f, s), run, job)
    ensures var key := Recovery.FinalKey(CoreOf(f, s), run, job);
            && DocKeyOf(f, key) !in s.store && DocKeyOf(f, key) in Interrupted(f, s).store
            && key.runId == run && key.sequence > job.progressSequence
            && var record := RecordIn(f, Interrupted(f, s).store[DocKeyOf(f, key)]);
               record.Some? && record.value.phase == Repo.Failed && record.value.sequence == key.sequence
  {
    hide Recovery.Restart, WriteBack, RunsOf, RecordsOf, RecordIn, RecordFiled, Storable, Filed, JobsPass, Recovery.Seeded,
      Faithful, Recovery.FinalSequence, Recovery.RecordsOf;
    var core, key := CoreOf(f, s), Recovery.FinalKey(CoreOf(f, s), run, job);
    Recovery.OneFailedRecord(core, s.jobs, run);
    RestartKeepsCore(core, s.jobs);
    RecordShows(f, s.store, core, Recovery.Restart(core, s.jobs).0, key);
    if DocKeyOf(f, key) in s.store {
      NamedIsShown(f, s.store, core, key);
    }
  }
}
