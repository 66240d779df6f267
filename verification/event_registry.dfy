/** Compilation of a document type's event table (`compileEvents` in
    events.js): every event name keeps its specification and gains a payload
    validator built from its `schema` field. */
module EventRegistry {
  import opened Outcome
  import opened Js
  import opened JsonSchema

  /** The `schema` field of an event specification: `null`, a falsy value
      other than `null` (missing, `undefined`, `false`, `0`, `''`), or a
      schema object. */
  datatype SchemaField = NullSchema | NoSchema | Given(schema: Schema)

  /** An event specification: payload schema, optional business rule run
      against the current state (it returns a message to refuse the event,
      and may throw), optional reducer. */
  datatype EventSpec<!S> = EventSpec(
    schema: SchemaField,
    validate: Option<(S, Value) -> Result<Value>>,
    apply: Option<(S, Record) -> S>)

  /** A compiled payload validator (`spec.schemaValidate`). */
  datatype Validator = NullValidator | SchemaValidator(schema: Schema)

  /** `{ ...spec, schemaValidate }` */
  datatype CompiledEvent<!S> = CompiledEvent(spec: EventSpec<S>, schemaValidate: Validator)

  type Registry<!S> = map<string, CompiledEvent<S>>

  /** The boolean a validator returns for a payload. */
  predicate Accepts(v: Validator, payload: Value) {
    match v
    case NullValidator => Nullish(payload)
    case SchemaValidator(s) => Admits(s, payload)
  }

  /** The `errors` a validator leaves behind after a payload. */
  function ValidatorErrors(v: Validator, payload: Value): seq<SchemaError> {
    match v
    case NullValidator =>
      if Nullish(payload) then [] else [SchemaError("", "must be null or undefined")]
    case SchemaValidator(s) => Errors(s, payload, "")
  }

  lemma AcceptsIffNoErrors(v: Validator, payload: Value)
    ensures Accepts(v, payload) <==> ValidatorErrors(v, payload) == []
  {
    if v.SchemaValidator? {
      ErrorsEmptyIffAdmits(v.schema, payload, "");
    }
  }

  /** `makeNullSchemaValidator()`: accepts exactly `undefined` and `null`,
      and refuses everything else with one error. */
  function MakeNullSchemaValidator(): (r: Validator)
    ensures forall payload :: Accepts(r, payload) <==> payload == Undefined || payload == Null
    ensures forall payload :: !Nullish(payload) ==>
      ValidatorErrors(r, payload) == [SchemaError("", "must be null or undefined")]
  {
    NullValidator
  }

  /** The validator for one `schema` field; a compile failure is returned. */
  function CompileSchemaField(f: SchemaField): Result<Validator> {
    match f
    case NullSchema => Ok(MakeNullSchemaValidator())
    case NoSchema =>
      var c := Compile(DefaultSchema);
      if c.Err? then Err(c.error) else Ok(SchemaValidator(c.value))
    case Given(s) =>
      var c := Compile(s);
      if c.Err? then Err(c.error) else Ok(SchemaValidator(c.value))
  }

  /** An event whose `schema` field is missing or falsy admits the empty
      payload object and no other payload. */
  lemma MissingSchemaAdmitsOnlyEmptyObject(payload: Value)
    ensures CompileSchemaField(NoSchema).Ok?
    ensures Accepts(CompileSchemaField(NoSchema).value, payload) <==> payload == Obj(map[])
  {
    DefaultSchemaAdmitsOnlyEmptyObject(payload);
  }

  function Names<S>(specs: seq<(string, EventSpec<S>)>): set<string> {
    set i | 0 <= i < |specs| :: specs[i].0
  }

  /** Event tables are JavaScript objects: no name occurs twice. */
  predicate DistinctNames<S>(specs: seq<(string, EventSpec<S>)>) {
    forall i, j :: 0 <= i < j < |specs| ==> specs[i].0 != specs[j].0
  }

  function SchemaErrorMessage(name: string, error: string): string {
    "invalid schema for event \"" + name + "\": Error: " + error
  }

  /** `compileEvents(events)`, walking the table in key order: the first
      schema that fails to compile aborts with a message naming its event,
      otherwise the frozen registry maps each name to its specification and
      compiled validator. */
  function CompileEvents<S>(specs: seq<(string, EventSpec<S>)>): (r: Result<Registry<S>>)
    ensures |specs| == 0 ==> r == Ok(map[])
    ensures |specs| > 0 && CompileSchemaField(specs[0].1.schema).Err? ==>
      r == Err(SchemaErrorMessage(specs[0].0, CompileSchemaField(specs[0].1.schema).error))
    ensures r.Ok? && |specs| > 0 ==> specs[0].0 in r.value && r.value[specs[0].0].spec == specs[0].1
    decreases |specs|
  {
    if |specs| == 0 then Ok(map[])
    else
      var (name, spec) := specs[0];
      var head := CompileSchemaField(spec.schema);
      if head.Err? then
        Err(SchemaErrorMessage(name, head.error))
      else
        var rest := CompileEvents(specs[1..]);
        if rest.Err? then Err(rest.error)
        else Ok(rest.value[name := CompiledEvent(spec, head.value)])
  }

  /** Compilation succeeds exactly when every schema field compiles. */
  lemma {:induction false} CompileEventsOkIff<S>(specs: seq<(string, EventSpec<S>)>)
    ensures CompileEvents(specs).Ok? <==> forall i :: 0 <= i < |specs| ==> CompileSchemaField(specs[i].1.schema).Ok?
    decreases |specs|
  {
    if |specs| > 0 {
      var tail := specs[1..];
      assert forall j :: 0 <= j < |tail| ==> tail[j] == specs[j + 1];
      CompileEventsOkIff(tail);
    }
  }

  /** A compiled registry has exactly the input names, each keeping its
      specification alongside the validator its schema field compiles to. */
  lemma {:induction false} CompileEventsRegistry<S>(specs: seq<(string, EventSpec<S>)>)
    requires DistinctNames(specs)
    requires CompileEvents(specs).Ok?
    ensures CompileEvents(specs).value.Keys == Names(specs)
    ensures forall i :: 0 <= i < |specs| ==>
      && CompileEvents(specs).value[specs[i].0].spec == specs[i].1
      && CompileSchemaField(specs[i].1.schema) == Ok(CompileEvents(specs).value[specs[i].0].schemaValidate)
    decreases |specs|
  {
    if |specs| > 0 {
      var (name, spec) := specs[0];
      var tail := specs[1..];
      assert forall j :: 0 <= j < |tail| ==> tail[j] == specs[j + 1];
      assert DistinctNames(tail);
      CompileEventsRegistry(tail);
      var r := CompileEvents(specs).value;
      var rest := CompileEvents(tail).value;
      assert r == rest[name := CompiledEvent(spec, r[name].schemaValidate)];
      assert Names(specs) == Names(tail) + {name} by {
        forall n | n in Names(specs) ensures n in Names(tail) + {name} {
          var i :| 0 <= i < |specs| && specs[i].0 == n;
          if i > 0 { assert tail[i - 1] == specs[i]; }
        }
      }
      forall i | 0 <= i < |specs|
        ensures r[specs[i].0].spec == specs[i].1
        ensures CompileSchemaField(specs[i].1.schema) == Ok(r[specs[i].0].schemaValidate)
      {
        if i > 0 {
          assert specs[i] == tail[i - 1];
          assert specs[i].0 != name;
        }
      }
    }
  }

  /** A failed compilation names the first event whose schema does not
      compile, with the compiler's message. */
  lemma {:induction false} CompileEventsReportsFirst<S>(specs: seq<(string, EventSpec<S>)>)
    requires CompileEvents(specs).Err?
    ensures exists i ::
      && 0 <= i < |specs|
      && (forall j :: 0 <= j < i ==> CompileSchemaField(specs[j].1.schema).Ok?)
      && CompileSchemaField(specs[i].1.schema).Err?
      && CompileEvents(specs).error == SchemaErrorMessage(specs[i].0, CompileSchemaField(specs[i].1.schema).error)
    decreases |specs|
  {
    var head := CompileSchemaField(specs[0].1.schema);
    if head.Ok? {
      var tail := specs[1..];
      assert forall j :: 0 <= j < |tail| ==> tail[j] == specs[j + 1];
      CompileEventsReportsFirst(tail);
      var k :| && 0 <= k < |tail|
               && (forall j :: 0 <= j < k ==> CompileSchemaField(tail[j].1.schema).Ok?)
               && CompileSchemaField(tail[k].1.schema).Err?
               && CompileEvents(tail).error == SchemaErrorMessage(tail[k].0, CompileSchemaField(tail[k].1.schema).error);
      assert CompileEvents(specs).error == CompileEvents(tail).error;
      assert forall j :: 0 <= j < k + 1 ==> CompileSchemaField(specs[j].1.schema).Ok?;
    }
  }
}
