/** Tagging domain values for the JSON snapshot, and reading the tags back. */
module SnapshotCodec {
  import opened Contracts

  datatype Number = Finite(value: real) | NonFinite

  /** A JSON document; objects keep their entries in order. */
  datatype Json = JNull | JBool(b: bool) | JInt(i: int) | JFloat(num: Number) | JStr(s: string)
                | JArr(items: seq<Json>) | JObj(fields: seq<JsonField>)

  datatype JsonField = JsonField(key: string, value: Json)

  datatype RunRecord = RunRecord(
    id: string, workspaceId: string, versionId: string, assetId: string, calibrationId: Option<string>,
    selectedAttemptId: Option<string>, appId: Option<string>, analysisMode: string)

  /** The values found in repositories. A model is known by its class and its JSON dump. */
  datatype Value = Model(className: string, dump: Json) | Run(run: RunRecord) | Timestamp(iso: string)
                 | Dict(fields: seq<Field>) | List(items: seq<Value>) | Tuple(items: seq<Value>)
                 | Null | Str(s: string) | Int(i: int) | Float(num: Number) | Bool(b: bool)
                 | Foreign(className: string)

  datatype Field = Field(key: string, value: Value)

  datatype Tagged = Tagged(kind: string, value: Json)

  datatype CodecError = BadField | NaiveTimestamp | Unsupported | BadRunRecord | BadTag

  const MODELS: set<string> :=
    {"VisionApp", "AppVersion", "Calibration", "SourceAsset", "Event", "RunProgress", "DeliveryAttempt", "BuildTurn"}

  const SECRET_FIELDS: set<string> :=
    {"api_key", "gemini_api_key", "authorization", "password", "secret", "secrets",
     "access_token", "refresh_token", "test_token", "credentials", "private_key",
     "upload_url", "read_url", "grant_id", "token", "client_secret", "signing_key"}

  // ---------------------------------------------------------------- field checks

  /** Lower case as far as it can matter for the names below: the letters A to Z and the Kelvin sign,
      the only other character whose lower case is an ASCII letter. */
  function Normal(c: char): char {
    if 'A' <= c <= 'Z' then (c as int - 'A' as int + 'a' as int) as char
    else if c == '\U{212A}' then 'k' else if c == '-' then '_' else c
  }

  function Normalized(key: string): string {
    seq(|key|, i requires 0 <= i < |key| => Normal(key[i]))
  }

  predicate Secret(key: string) { Normalized(key) in SECRET_FIELDS }

  predicate NoSecrets(j: Json) {
    match j
    case JArr(items) => forall x :: x in items ==> NoSecrets(x)
    case JObj(fields) => forall f :: f in fields ==> !Secret(f.key) && NoSecrets(f.value)
    case _ => true
  }

  predicate AllFinite(j: Json) {
    match j
    case JArr(items) => forall x :: x in items ==> AllFinite(x)
    case JObj(fields) => forall f :: f in fields ==> AllFinite(f.value)
    case JFloat(num) => num.Finite?
    case _ => true
  }

  /** The check passes exactly when there is no secret field and no non-finite number anywhere. */
  predicate FieldsPass(j: Json) { NoSecrets(j) && AllFinite(j) }

  /** The same check on a raw value; it looks into plain containers only. */
  predicate RawFieldsPass(v: Value) {
    match v
    case List(items) => forall x :: x in items ==> RawFieldsPass(x)
    case Tuple(items) => forall x :: x in items ==> RawFieldsPass(x)
    case Dict(fields) => forall f :: f in fields ==> !Secret(f.key) && RawFieldsPass(f.value)
    case Float(num) => num.Finite?
    case _ => true
  }

  // ---------------------------------------------------------------- encode

  /** An offset at the end of an ISO timestamp: +02:00, +02:00:30 or +02:00:30.000001. */
  predicate HasOffset(iso: string) {
    || (|iso| >= 6 && Sign(iso[|iso| - 6]) && iso[|iso| - 3] == ':')
    || (|iso| >= 9 && Sign(iso[|iso| - 9]) && iso[|iso| - 6] == ':' && iso[|iso| - 3] == ':')
    || (|iso| >= 16 && Sign(iso[|iso| - 16]) && iso[|iso| - 13] == ':' && iso[|iso| - 10] == ':' && iso[|iso| - 7] == '.')
  }

  predicate Sign(c: char) { c == '+' || c == '-' }

  function Wrap(t: Tagged): Json {
    JObj([JsonField("type", JStr(t.kind)), JsonField("value", t.value)])
  }

  function JOpt(o: Option<string>): Json { if o.None? then JNull else JStr(o.value) }

  function AsDict(r: RunRecord): Json {
    JObj([JsonField("id", JStr(r.id)), JsonField("workspace_id", JStr(r.workspaceId)),
          JsonField("version_id", JStr(r.versionId)), JsonField("asset_id", JStr(r.assetId)),
          JsonField("calibration_id", JOpt(r.calibrationId)),
          JsonField("selected_attempt_id", JOpt(r.selectedAttemptId)),
          JsonField("app_id", JOpt(r.appId)), JsonField("analysis_mode", JStr(r.analysisMode))])
  }

  function Encode(v: Value): Result<Tagged, CodecError>
    decreases v
  {
    match v
    case Model(name, dump) =>
      if name !in MODELS then Err(Unsupported)
      else if !FieldsPass(dump) then Err(BadField)
      else Ok(Tagged(name, dump))
    case Run(r) => Ok(Tagged("RunRecord", AsDict(r)))
    case Timestamp(iso) => if HasOffset(iso) then Ok(Tagged("datetime", JStr(iso))) else Err(NaiveTimestamp)
    case Dict(fields) =>
      if !RawFieldsPass(v) then Err(BadField)
      else
        var encoded := EncodeFields(fields);
        if encoded.Err? then Err(encoded.error) else Ok(Tagged("dict", JObj(encoded.value)))
    case List(items) =>
      var encoded := EncodeItems(items);
      if encoded.Err? then Err(encoded.error) else Ok(Tagged("list", JArr(encoded.value)))
    case Tuple(items) =>
      var encoded := EncodeItems(items);
      if encoded.Err? then Err(encoded.error) else Ok(Tagged("tuple", JArr(encoded.value)))
    case Null => Ok(Tagged("scalar", JNull))
    case Str(s) => Ok(Tagged("scalar", JStr(s)))
    case Int(i) => Ok(Tagged("scalar", JInt(i)))
    case Float(num) => Ok(Tagged("scalar", JFloat(num)))
    case Bool(b) => Ok(Tagged("scalar", JBool(b)))
    case Foreign(_) => Err(Unsupported)
  }

  function EncodeItems(items: seq<Value>): Result<seq<Json>, CodecError>
    decreases items
  {
    if |items| == 0 then Ok([])
    else
      var first := Encode(items[0]);
      if first.Err? then Err(first.error)
      else
        var rest := EncodeItems(items[1..]);
        if rest.Err? then rest else Ok([Wrap(first.value)] + rest.value)
  }

  function EncodeFields(fields: seq<Field>): Result<seq<JsonField>, CodecError>
    decreases fields
  {
    if |fields| == 0 then Ok([])
    else
      var first := Encode(fields[0].value);
      if first.Err? then Err(first.error)
      else
        var rest := EncodeFields(fields[1..]);
        if rest.Err? then rest else Ok([JsonField(fields[0].key, Wrap(first.value))] + rest.value)
  }

  // ---------------------------------------------------------------- decode

  /** A two-entry object holding a type name and a value, in either order. */
  predicate IsWrapped(j: Json) {
    j.JObj? && |j.fields| == 2
    && ((j.fields[0].key == "type" && j.fields[0].value.JStr? && j.fields[1].key == "value")
        || (j.fields[1].key == "type" && j.fields[1].value.JStr? && j.fields[0].key == "value"))
  }

  function Unwrap(j: Json): (t: Tagged)
    requires IsWrapped(j)
    ensures t.value < j
  {
    if j.fields[0].key == "type" then
      assert j.fields[1] < j;
      Tagged(j.fields[0].value.s, j.fields[1].value)
    else
      assert j.fields[0] < j;
      Tagged(j.fields[1].value.s, j.fields[0].value)
  }

  predicate IsOpt(j: Json) { j.JNull? || j.JStr? }

  function Opt(j: Json): Option<string>
    requires IsOpt(j)
  {
    if j.JNull? then None else Some(j.s)
  }

  const RUN_FIELDS: set<string> :=
    {"id", "workspace_id", "version_id", "asset_id", "calibration_id", "selected_attempt_id", "app_id", "analysis_mode"}

  function Lookup(fields: seq<JsonField>, key: string): Json {
    if |fields| == 0 then JNull
    else if fields[0].key == key then fields[0].value else Lookup(fields[1..], key)
  }

  /** An object with exactly the fields of a run record, in any order, of the right types. */
  predicate IsRunRecord(j: Json) {
    j.JObj? && (set f | f in j.fields :: f.key) == RUN_FIELDS
    && Lookup(j.fields, "id").JStr? && Lookup(j.fields, "workspace_id").JStr?
    && Lookup(j.fields, "version_id").JStr? && Lookup(j.fields, "asset_id").JStr?
    && IsOpt(Lookup(j.fields, "calibration_id")) && IsOpt(Lookup(j.fields, "selected_attempt_id"))
    && IsOpt(Lookup(j.fields, "app_id")) && Lookup(j.fields, "analysis_mode").JStr?
  }

  function ReadRunRecord(j: Json): RunRecord
    requires IsRunRecord(j)
  {
    RunRecord(Lookup(j.fields, "id").s, Lookup(j.fields, "workspace_id").s, Lookup(j.fields, "version_id").s,
              Lookup(j.fields, "asset_id").s, Opt(Lookup(j.fields, "calibration_id")),
              Opt(Lookup(j.fields, "selected_attempt_id")), Opt(Lookup(j.fields, "app_id")),
              Lookup(j.fields, "analysis_mode").s)
  }

  function Decode(kind: string, payload: Json): Result<Value, CodecError>
    decreases payload, 1
  {
    if !FieldsPass(payload) then Err(BadField)
    else if kind in MODELS then Ok(Model(kind, payload))
    else if kind == "RunRecord" then
      if !IsRunRecord(payload) then Err(BadRunRecord)
      else Ok(Run(ReadRunRecord(payload)))
    else if kind == "datetime" then
      if !payload.JStr? then Err(BadTag)
      else if HasOffset(payload.s) then Ok(Timestamp(payload.s)) else Err(NaiveTimestamp)
    else if kind == "dict" && payload.JObj? then
      var fields := DecodeFields(payload.fields);
      if fields.Err? then Err(fields.error) else Ok(Dict(fields.value))
    else if kind == "list" && payload.JArr? then
      var items := DecodeItems(payload.items);
      if items.Err? then Err(items.error) else Ok(List(items.value))
    else if kind == "tuple" && payload.JArr? then
      var items := DecodeItems(payload.items);
      if items.Err? then Err(items.error) else Ok(Tuple(items.value))
    else if kind == "scalar" then
      match payload
      case JNull => Ok(Null)
      case JStr(s) => Ok(Str(s))
      case JInt(i) => Ok(Int(i))
      case JFloat(num) => Ok(Float(num))
      case JBool(b) => Ok(Bool(b))
      case _ => Err(BadTag)
    else Err(BadTag)
  }

  function DecodeItems(items: seq<Json>): Result<seq<Value>, CodecError>
    decreases items, 0
  {
    if |items| == 0 then Ok([])
    else if !IsWrapped(items[0]) then Err(BadTag)
    else
      var t := Unwrap(items[0]);
      var first := Decode(t.kind, t.value);
      if first.Err? then Err(first.error)
      else
        var rest := DecodeItems(items[1..]);
        if rest.Err? then rest else Ok([first.value] + rest.value)
  }

  function DecodeFields(fields: seq<JsonField>): Result<seq<Field>, CodecError>
    decreases fields, 0
  {
    if |fields| == 0 then Ok([])
    else if !IsWrapped(fields[0].value) then Err(BadTag)
    else
      var t := Unwrap(fields[0].value);
      var first := Decode(t.kind, t.value);
      if first.Err? then Err(first.error)
      else
        var rest := DecodeFields(fields[1..]);
        if rest.Err? then rest else Ok([Field(fields[0].key, first.value)] + rest.value)
  }

  // ---------------------------------------------------------------- round trip

  /** No non-finite number is stored outside the dumps of models. */
  predicate FiniteValue(v: Value) {
    match v
    case List(items) => forall x :: x in items ==> FiniteValue(x)
    case Tuple(items) => forall x :: x in items ==> FiniteValue(x)
    case Dict(fields) => forall f :: f in fields ==> FiniteValue(f.value)
    case Float(num) => num.Finite?
    case _ => true
  }

  lemma TagsAreDistinct()
    ensures "RunRecord" !in MODELS && "datetime" !in MODELS && "dict" !in MODELS
            && "list" !in MODELS && "tuple" !in MODELS && "scalar" !in MODELS
  {
    assert |"VisionApp"| == 9;
  }

  lemma TagKeysAreOpen()
    ensures !Secret("type") && !Secret("value")
  {
    assert Normalized("type") == "type" && Normalized("value") == "value";
  }

  lemma IdKeysAreOpen()
    ensures !Secret("id") && !Secret("workspace_id") && !Secret("version_id") && !Secret("asset_id")
  {
    assert Normalized("id") == "id";
    assert Normalized("workspace_id") == "workspace_id";
    assert Normalized("version_id") == "version_id";
    assert Normalized("asset_id") == "asset_id";
  }

  lemma OptionKeysAreOpen()
    ensures !Secret("calibration_id") && !Secret("selected_attempt_id") && !Secret("app_id") && !Secret("analysis_mode")
  {
    assert Normalized("calibration_id") == "calibration_id";
    assert Normalized("selected_attempt_id") == "selected_attempt_id";
    assert Normalized("app_id") == "app_id";
    assert Normalized("analysis_mode") == "analysis_mode";
  }

  lemma StructuralKeysAreOpen()
    ensures !Secret("type") && !Secret("value")
    ensures forall key :: key in RUN_FIELDS ==> !Secret(key)
  {
    TagKeysAreOpen();
    IdKeysAreOpen();
    OptionKeysAreOpen();
  }

  lemma {:induction false} LookupAt(fields: seq<JsonField>, i: nat)
    requires i < |fields| && forall m :: 0 <= m < i ==> fields[m].key != fields[i].key
    ensures Lookup(fields, fields[i].key) == fields[i].value
  {
    if i > 0 {
      assert fields[1..][i - 1] == fields[i];
      LookupAt(fields[1..], i - 1);
    }
  }

  lemma RunKeysDiffer(r: RunRecord)
    ensures var f := AsDict(r).fields;
            && |f| == 8 && f[0].key == "id" && f[1].key == "workspace_id" && f[2].key == "version_id"
            && f[3].key == "asset_id" && f[4].key == "calibration_id" && f[5].key == "selected_attempt_id"
            && f[6].key == "app_id" && f[7].key == "analysis_mode"
            && forall m, n :: 0 <= m < n < 8 ==> f[m].key != f[n].key
  {
    var f := AsDict(r).fields;
    assert |f[0].key| == 2 && |f[1].key| == 12 && |f[2].key| == 10 && |f[3].key| == 8;
    assert |f[4].key| == 14 && |f[5].key| == 19 && |f[6].key| == 6 && |f[7].key| == 13;
  }

  lemma RunKeysComplete(r: RunRecord)
    ensures (set f | f in AsDict(r).fields :: f.key) == RUN_FIELDS
  {
    var fields := AsDict(r).fields;
    var keys := set f | f in fields :: f.key;
    RunKeysDiffer(r);
    forall key ensures key in keys <==> key in RUN_FIELDS {
      if key in RUN_FIELDS {
        assert fields[0] in fields && fields[1] in fields && fields[2] in fields && fields[3] in fields;
        assert fields[4] in fields && fields[5] in fields && fields[6] in fields && fields[7] in fields;
      }
    }
  }

  lemma RunLookup(r: RunRecord, i: nat)
    requires i < 8
    ensures Lookup(AsDict(r).fields, AsDict(r).fields[i].key) == AsDict(r).fields[i].value
  {
    RunKeysDiffer(r);
    LookupAt(AsDict(r).fields, i);
  }

  lemma RunStrings(r: RunRecord)
    ensures var f := AsDict(r).fields;
            Lookup(f, "id") == JStr(r.id) && Lookup(f, "workspace_id") == JStr(r.workspaceId)
            && Lookup(f, "version_id") == JStr(r.versionId) && Lookup(f, "asset_id") == JStr(r.assetId)
  {
    RunLookup(r, 0);
    RunLookup(r, 1);
    RunLookup(r, 2);
    RunLookup(r, 3);
  }

  lemma RunOptions(r: RunRecord)
    ensures var f := AsDict(r).fields;
            Lookup(f, "calibration_id") == JOpt(r.calibrationId)
            && Lookup(f, "selected_attempt_id") == JOpt(r.selectedAttemptId)
            && Lookup(f, "app_id") == JOpt(r.appId) && Lookup(f, "analysis_mode") == JStr(r.analysisMode)
  {
    RunLookup(r, 4);
    RunLookup(r, 5);
    RunLookup(r, 6);
    RunLookup(r, 7);
  }

  lemma FieldsReadBack(j: Json, r: RunRecord)
    requires j.JObj? && (set f | f in j.fields :: f.key) == RUN_FIELDS
    requires Lookup(j.fields, "id") == JStr(r.id) && Lookup(j.fields, "workspace_id") == JStr(r.workspaceId)
    requires Lookup(j.fields, "version_id") == JStr(r.versionId) && Lookup(j.fields, "asset_id") == JStr(r.assetId)
    requires Lookup(j.fields, "calibration_id") == JOpt(r.calibrationId)
    requires Lookup(j.fields, "selected_attempt_id") == JOpt(r.selectedAttemptId)
    requires Lookup(j.fields, "app_id") == JOpt(r.appId) && Lookup(j.fields, "analysis_mode") == JStr(r.analysisMode)
    ensures IsRunRecord(j) && ReadRunRecord(j) == r
  {
  }

  lemma RunRecordReadsBack(r: RunRecord)
    ensures IsRunRecord(AsDict(r)) && ReadRunRecord(AsDict(r)) == r
  {
    RunKeysComplete(r);
    RunStrings(r);
    RunOptions(r);
    FieldsReadBack(AsDict(r), r);
  }

  lemma RunRecordPasses(r: RunRecord)
    ensures FieldsPass(AsDict(r))
  {
    forall f | f in AsDict(r).fields ensures !Secret(f.key) && NoSecrets(f.value) && AllFinite(f.value) {
      RunFieldPasses(r, f);
    }
  }

  lemma RunFieldPasses(r: RunRecord, f: JsonField)
    requires f in AsDict(r).fields
    ensures !Secret(f.key) && NoSecrets(f.value) && AllFinite(f.value)
  {
    assert f.value.JNull? || f.value.JStr?;
    assert f.key in RUN_FIELDS by {
      RunKeysComplete(r);
    }
    StructuralKeysAreOpen();
  }

  /** Wrapping adds no secret and no number. */
  lemma WrapPasses(t: Tagged)
    ensures NoSecrets(Wrap(t)) <==> NoSecrets(t.value)
    ensures AllFinite(Wrap(t)) <==> AllFinite(t.value)
    ensures IsWrapped(Wrap(t)) && Unwrap(Wrap(t)) == t
  {
    StructuralKeysAreOpen();
    var fields := Wrap(t).fields;
    assert fields[0] in fields && fields[1] in fields;
    assert |"type"| == 4 && |"value"| == 5;
  }

  /** An encoded value carries no secret, and is finite exactly when the value is. */
  lemma {:induction false} EncodedPasses(v: Value)
    requires Encode(v).Ok?
    ensures NoSecrets(Encode(v).value.value)
    ensures AllFinite(Encode(v).value.value) <==> FiniteValue(v)
    decreases v
  {
    match v
    case Run(r) => RunRecordPasses(r);
    case Dict(fields) => FieldsEncodedPass(fields);
    case List(items) => ItemsEncodedPass(items);
    case Tuple(items) => ItemsEncodedPass(items);
    case _ =>
  }

  lemma {:induction false} ItemsEncodedPass(items: seq<Value>)
    requires EncodeItems(items).Ok?
    ensures forall x :: x in EncodeItems(items).value ==> NoSecrets(x)
    ensures (forall x :: x in EncodeItems(items).value ==> AllFinite(x)) <==> (forall x :: x in items ==> FiniteValue(x))
    decreases items
  {
    hide Encode, NoSecrets, AllFinite, FiniteValue;
    if |items| > 0 {
      EncodedPasses(items[0]);
      ItemsEncodedPass(items[1..]);
      WrapPasses(Encode(items[0]).value);
      assert items == [items[0]] + items[1..];
    }
  }

  lemma {:induction false} FieldsEncodedPass(fields: seq<Field>)
    requires EncodeFields(fields).Ok? && forall f :: f in fields ==> !Secret(f.key)
    ensures forall x :: x in EncodeFields(fields).value ==> !Secret(x.key) && NoSecrets(x.value)
    ensures (forall x :: x in EncodeFields(fields).value ==> AllFinite(x.value)) <==>
            (forall f :: f in fields ==> FiniteValue(f.value))
    decreases fields
  {
    hide Encode, NoSecrets, AllFinite, FiniteValue, Secret;
    if |fields| > 0 {
      EncodedPasses(fields[0].value);
      FieldsEncodedPass(fields[1..]);
      WrapPasses(Encode(fields[0].value).value);
      assert fields == [fields[0]] + fields[1..];
    }
  }

  /** Decoding what was encoded gives the value back exactly when the value is finite throughout;
      otherwise decoding refuses, as writing the JSON does. */
  lemma {:induction false} RoundTrip(v: Value)
    requires Encode(v).Ok?
    ensures var t := Encode(v).value;
            Decode(t.kind, t.value) == if FiniteValue(v) then Ok(v) else Err(BadField)
    decreases v
  {
    TagsAreDistinct();
    EncodedPasses(v);
    var t := Encode(v).value;
    if FiniteValue(v) {
      match v
      case Run(r) => RunRecordReadsBack(r);
      case Dict(fields) => FieldsRoundTrip(fields);
      case List(items) => ItemsRoundTrip(items);
      case Tuple(items) => ItemsRoundTrip(items);
      case _ =>
    }
  }

  lemma {:induction false} ItemsRoundTrip(items: seq<Value>)
    requires EncodeItems(items).Ok? && forall x :: x in items ==> FiniteValue(x)
    ensures DecodeItems(EncodeItems(items).value) == Ok(items)
    decreases items
  {
    if |items| > 0 {
      RoundTrip(items[0]);
      ItemsRoundTrip(items[1..]);
      WrapPasses(Encode(items[0]).value);
      assert items == [items[0]] + items[1..];
      assert EncodeItems(items).value[1..] == EncodeItems(items[1..]).value;
    }
  }

  lemma {:induction false} FieldsRoundTrip(fields: seq<Field>)
    requires EncodeFields(fields).Ok? && forall f :: f in fields ==> FiniteValue(f.value)
    ensures DecodeFields(EncodeFields(fields).value) == Ok(fields)
    decreases fields
  {
    if |fields| > 0 {
      RoundTrip(fields[0].value);
      FieldsRoundTrip(fields[1..]);
      WrapPasses(Encode(fields[0].value).value);
      assert fields == [fields[0]] + fields[1..];
      assert EncodeFields(fields).value[1..] == EncodeFields(fields[1..]).value;
    }
  }

  /** What a snapshot can hold: the value encodes and its JSON text can be written. */
  predicate Storable(v: Value) {
    Encode(v).Ok? && AllFinite(Encode(v).value.value)
  }

  /** Whatever can be saved comes back unchanged. */
  lemma StoredComesBack(v: Value)
    requires Storable(v)
    ensures var t := Encode(v).value; Decode(t.kind, t.value) == Ok(v)
  {
    EncodedPasses(v);
    RoundTrip(v);
  }

  /** Two storable values with the same encoding are the same value. */
  lemma EncodingIsInjective(v: Value, w: Value)
    requires Storable(v) && Storable(w) && Encode(v) == Encode(w)
    ensures v == w
  {
    StoredComesBack(v);
    StoredComesBack(w);
  }

  /** No credential is ever written: an encodable value carries no secret key at any depth of its JSON. */
  lemma NothingSecretIsStored(v: Value)
    requires Encode(v).Ok?
    ensures NoSecrets(Wrap(Encode(v).value))
  {
    EncodedPasses(v);
    WrapPasses(Encode(v).value);
  }
}
