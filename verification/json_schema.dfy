/** The JSON Schema subset the documents' event payloads are described with:
    `type` (section 6.1.1 of JSON Schema Validation, draft-07), `properties`
    (6.5.4), `required` (6.5.3) and `additionalProperties` (6.5.6, boolean
    form only). `Admits` is the keyword semantics; `Errors` is what a
    compiled validator reports, and the two agree (`ErrorsEmptyIffAdmits`).
    The schema compiler the repository calls is not part of this model:
    `Compile` stands in for it and only refuses unknown type names. */
module JsonSchema {
  import opened Outcome
  import opened Js

  datatype Schema = Schema(
    typ: Option<string>,
    properties: seq<(string, Schema)>,
    required: seq<string>,
    additionalProperties: bool)

  /** One validation error, shaped like the compiler's: where in the
      instance it occurred (a JSON pointer, empty for the root) and what. */
  datatype SchemaError = SchemaError(instancePath: string, message: string)

  const JsonTypes: set<string> := {"object", "array", "string", "number", "integer", "boolean", "null"}

  /** `{ type: 'object', additionalProperties: false }` */
  const DefaultSchema := Schema(Some("object"), [], [], false)

  /** `{ type: 'string' }` */
  const StringSchema := Schema(Some("string"), [], [], true)

  function PropertyNames(props: seq<(string, Schema)>): set<string> {
    set i | 0 <= i < |props| :: props[i].0
  }

  predicate TypeMatches(t: string, v: Value) {
    if t == "object" then v.Obj?
    else if t == "array" then v.Arr?
    else if t == "string" then v.Str?
    else if t == "number" || t == "integer" then v.Num?
    else if t == "boolean" then v.Bool?
    else if t == "null" then v.Null?
    else false
  }

  /** Does the instance `v` satisfy every keyword of `s`? Keywords other
      than `type` constrain objects only. */
  predicate Admits(s: Schema, v: Value)
    decreases s
  {
    && (s.typ.Some? ==> TypeMatches(s.typ.value, v))
    && (v.Obj? ==>
          && (forall k :: k in s.required ==> k in v.fields)
          && (!s.additionalProperties ==> forall k :: k in v.fields ==> k in PropertyNames(s.properties))
          && (forall i :: 0 <= i < |s.properties| && s.properties[i].0 in v.fields ==>
                Admits(s.properties[i].1, v.fields[s.properties[i].0])))
  }

  predicate WellFormed(s: Schema)
    decreases s
  {
    && (s.typ.Some? ==> s.typ.value in JsonTypes)
    && (forall i :: 0 <= i < |s.properties| ==> WellFormed(s.properties[i].1))
  }

  /** Compilation of a schema: refuses a schema naming an unknown type. */
  function Compile(s: Schema): (r: Result<Schema>)
    ensures r.Ok? <==> WellFormed(s)
    ensures r.Ok? ==> r.value == s
  {
    if WellFormed(s) then Ok(s) else Err("schema is invalid: unknown type")
  }

  function RequiredErrors(req: seq<string>, m: Record, path: string): (r: seq<SchemaError>)
    ensures r == [] <==> forall k :: k in req ==> k in m
  {
    if |req| == 0 then []
    else
      (if req[0] in m then [] else [SchemaError(path, "must have required property '" + req[0] + "'")])
      + RequiredErrors(req[1..], m, path)
  }

  function AdditionalErrors(s: Schema, m: Record, path: string): seq<SchemaError> {
    if !s.additionalProperties && exists k :: k in m && k !in PropertyNames(s.properties) then
      [SchemaError(path, "must NOT have additional properties")]
    else
      []
  }

  /** The errors a compiled validator reports for `v` at `path`. */
  function Errors(s: Schema, v: Value, path: string): seq<SchemaError>
    decreases s, 1
  {
    if s.typ.Some? && !TypeMatches(s.typ.value, v) then
      [SchemaError(path, "must be " + s.typ.value)]
    else if !v.Obj? then
      []
    else
      RequiredErrors(s.required, v.fields, path)
      + AdditionalErrors(s, v.fields, path)
      + PropertyErrors(s, v.fields, path, 0)
  }

  function PropertyErrors(s: Schema, m: Record, path: string, i: nat): seq<SchemaError>
    requires i <= |s.properties|
    decreases s, 0, |s.properties| - i
  {
    if i == |s.properties| then []
    else
      var name := s.properties[i].0;
      (if name in m then Errors(s.properties[i].1, m[name], path + "/" + name) else [])
      + PropertyErrors(s, m, path, i + 1)
  }

  /** A validator reports no error exactly when the schema admits the value. */
  lemma {:induction false} ErrorsEmptyIffAdmits(s: Schema, v: Value, path: string)
    ensures Errors(s, v, path) == [] <==> Admits(s, v)
    decreases s, 1
  {
    if s.typ.Some? && !TypeMatches(s.typ.value, v) {
    } else if v.Obj? {
      PropertyErrorsEmptyIff(s, v.fields, path, 0);
    }
  }

  lemma {:induction false} PropertyErrorsEmptyIff(s: Schema, m: Record, path: string, i: nat)
    requires i <= |s.properties|
    ensures PropertyErrors(s, m, path, i) == [] <==>
      forall j :: i <= j < |s.properties| && s.properties[j].0 in m ==> Admits(s.properties[j].1, m[s.properties[j].0])
    decreases s, 0, |s.properties| - i
  {
    if i < |s.properties| {
      var name := s.properties[i].0;
      if name in m {
        ErrorsEmptyIffAdmits(s.properties[i].1, m[name], path + "/" + name);
      }
      PropertyErrorsEmptyIff(s, m, path, i + 1);
    }
  }

  /** A missing event schema falls back to `DefaultSchema`, which admits the
      empty object and nothing else. */
  lemma DefaultSchemaAdmitsOnlyEmptyObject(v: Value)
    ensures Admits(DefaultSchema, v) <==> v == Obj(map[])
  {
    if Admits(DefaultSchema, v) {
      assert PropertyNames(DefaultSchema.properties) == {};
      assert v.fields.Keys == {};
    }
  }
}
