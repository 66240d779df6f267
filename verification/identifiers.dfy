/** The Identifier document (Identifiers.js): an event machine whose state is
    the list of services of a DID document, maintained by two events,
    `serviceAdded` and `serviceRemoved`, and rendered with
    `signingKeyToDidDocument`. */
module Identifiers {
  import opened Outcome
  import opened Js
  import opened JsonSchema
  import opened EventRegistry
  import opened EventMachine
  import Did

  /** `{ services: [...] }`: every element is a service object as appended. */
  datatype IdentifierState = IdentifierState(services: seq<Value>)

  /** `initialState()` */
  function InitialState(): (s: IdentifierState)
    ensures |s.services| == 0
  {
    IdentifierState([])
  }

  /** `service.id`, read without throwing (used by the reducers). */
  function IdOf(service: Value): Value {
    Prop(service, "id")
  }

  /** Service ids are pairwise distinct (in the sense of `===`). */
  predicate DistinctIds(services: seq<Value>) {
    forall i, j :: 0 <= i < j < |services| ==> !StrictEquals(IdOf(services[i]), IdOf(services[j]))
  }

  /** The shape every service appended through a validated event has. */
  predicate ServicesInvariant(s: IdentifierState) {
    && (forall i :: 0 <= i < |s.services| ==> s.services[i].Obj?)
    && DistinctIds(s.services)
  }

  /** `services.find(service => service.id === id)`: the first service whose
      id is `id`. Each element's `id` is read first (throwing on a null or
      undefined element), then the right-hand side, which may itself have
      thrown and is only evaluated when there is an element to compare. */
  function FindById(services: seq<Value>, id: Result<Value>): (r: Result<Option<Value>>)
    ensures |services| == 0 ==> r == Ok(None)
    ensures r.Ok? && |services| > 0 ==> id.Ok?
    ensures r.Ok? && r.value.None? && id.Ok? ==>
      forall i :: 0 <= i < |services| ==> !StrictEquals(IdOf(services[i]), id.value)
    ensures r.Ok? && r.value.Some? ==>
      id.Ok? && exists i :: 0 <= i < |services| && services[i] == r.value.value && StrictEquals(IdOf(services[i]), id.value)
    ensures id.Ok? && (forall i :: 0 <= i < |services| ==> !Nullish(services[i])) ==>
      && r.Ok?
      && (r.value.None? <==> forall i :: 0 <= i < |services| ==> !StrictEquals(IdOf(services[i]), id.value))
    decreases |services|
  {
    if |services| == 0 then Ok(None)
    else
      var left := Access(services[0], "id");
      if left.Err? then Err(left.error)
      else if id.Err? then Err(id.error)
      else if StrictEquals(left.value, id.value) then Ok(Some(services[0]))
      else
        var rest := FindById(services[1..], id);
        assert forall i :: 1 <= i < |services| ==> services[i] == services[1..][i - 1];
        rest
  }

  /** `event.service.id` */
  function NewServiceId(event: Value): Result<Value> {
    var service := Access(event, "service");
    if service.Err? then Err(service.error) else Access(service.value, "id")
  }

  /** The `serviceAdded` business rule AS WRITTEN: a duplicate id is
      detected, but the message reads `event.services.id`, which throws on a
      payload without a `services` key instead of returning the message. */
  function ServiceAddedValidateAsWritten(state: IdentifierState, event: Value): (r: Result<Value>)
    ensures
      && NewServiceId(event).Ok?
      && (forall i :: 0 <= i < |state.services| ==> state.services[i].Obj?)
      && (forall i :: 0 <= i < |state.services| ==> !StrictEquals(IdOf(state.services[i]), NewServiceId(event).value))
      ==> r == Ok(Undefined)
    ensures r.Ok? && Truthy(r.value) ==> NewServiceId(event).Ok? && !Nullish(Prop(event, "services"))
  {
    var found := FindById(state.services, NewServiceId(event));
    if found.Err? then Err(found.error)
    else if found.value.Some? && Truthy(found.value.value) then
      var id := Access(Prop(event, "services"), "id");
      if id.Err? then Err(id.error)
      else Ok(Str("service already referenced by did document: " + ToJsString(id.value)))
    else
      Ok(Undefined)
  }

  /** The `serviceAdded` business rule as evidently intended: a service
      whose id is already listed is refused with a message naming that id. */
  function ServiceAddedValidate(state: IdentifierState, event: Value): (r: Result<Value>)
    ensures NewServiceId(event).Ok? && (forall i :: 0 <= i < |state.services| ==> state.services[i].Obj?) ==>
      && r.Ok?
      && ((exists i :: 0 <= i < |state.services| && StrictEquals(IdOf(state.services[i]), NewServiceId(event).value)) ==>
            r.value == Str("service already referenced by did document: " + ToJsString(NewServiceId(event).value)))
      && ((forall i :: 0 <= i < |state.services| ==> !StrictEquals(IdOf(state.services[i]), NewServiceId(event).value)) ==>
            r.value == Undefined)
  {
    var id := NewServiceId(event);
    var found := FindById(state.services, id);
    if found.Err? then Err(found.error)
    else if found.value.Some? && Truthy(found.value.value) then
      Ok(Str("service already referenced by did document: " + ToJsString(id.value)))
    else
      Ok(Undefined)
  }

  /** The `serviceAdded` reducer: the new service goes at the end and every
      existing entry keeps its place. */
  function ServiceAddedApply(state: IdentifierState, event: Record): (r: IdentifierState)
    ensures |r.services| == |state.services| + 1
    ensures r.services[..|state.services|] == state.services
    ensures r.services[|state.services|] == Get(event, "service")
  {
    IdentifierState(state.services + [Get(event, "service")])
  }

  /** The `serviceRemoved` business rule: removing an id that no service
      has is refused with a message naming the id. */
  function ServiceRemovedValidate(state: IdentifierState, event: Value): (r: Result<Value>)
    ensures Nullish(event) ==> r == Err(DestructureError("serviceId", ToJsString(event), event))
    ensures !Nullish(event) && (forall i :: 0 <= i < |state.services| ==> state.services[i].Obj?) ==>
      && r.Ok?
      && (Truthy(r.value) <==> forall i :: 0 <= i < |state.services| ==> !StrictEquals(IdOf(state.services[i]), Prop(event, "serviceId")))
      && (Truthy(r.value) ==> r.value == Str("service is references by the did document: " + ToJsString(Prop(event, "serviceId"))))
  {
    if Nullish(event) then Err(DestructureError("serviceId", ToJsString(event), event))
    else
      var serviceId := Ok(Prop(event, "serviceId"));
      var found := FindById(state.services, serviceId);
      if found.Err? then Err(found.error)
      else if found.value.None? || !Truthy(found.value.value) then
        Ok(Str("service is references by the did document: " + ToJsString(serviceId.value)))
      else
        Ok(Undefined)
  }

  /** `services.filter(service => service.id !== id)` */
  function WithoutId(services: seq<Value>, id: Value): (r: seq<Value>)
    ensures forall i :: 0 <= i < |r| ==> !StrictEquals(IdOf(r[i]), id)
    ensures forall i :: 0 <= i < |r| ==> r[i] in services
    ensures forall x :: x in services && !StrictEquals(IdOf(x), id) ==> x in r
    decreases |services|
  {
    if |services| == 0 then []
    else (if StrictEquals(IdOf(services[0]), id) then [] else [services[0]]) + WithoutId(services[1..], id)
  }

  /** `WithoutId` is a filter: it keeps the surviving entries in their order. */
  lemma {:induction false} WithoutIdAppend(a: seq<Value>, b: seq<Value>, id: Value)
    ensures WithoutId(a + b, id) == WithoutId(a, id) + WithoutId(b, id)
    decreases |a|
  {
    if |a| == 0 {
      assert a + b == b;
    } else {
      assert (a + b)[1..] == a[1..] + b;
      WithoutIdAppend(a[1..], b, id);
    }
  }

  lemma {:induction false} WithoutIdKeepsDistinct(services: seq<Value>, id: Value)
    requires DistinctIds(services)
    ensures DistinctIds(WithoutId(services, id))
    decreases |services|
  {
    if |services| > 0 {
      var rest := services[1..];
      assert DistinctIds(rest) by {
        forall i, j | 0 <= i < j < |rest| ensures !StrictEquals(IdOf(rest[i]), IdOf(rest[j])) {
          assert rest[i] == services[i + 1] && rest[j] == services[j + 1];
        }
      }
      WithoutIdKeepsDistinct(rest, id);
      var tail := WithoutId(rest, id);
      forall k | 0 <= k < |tail| ensures !StrictEquals(IdOf(services[0]), IdOf(tail[k])) {
        assert tail[k] in rest;
        var j :| 0 <= j < |rest| && rest[j] == tail[k];
        assert services[j + 1] == tail[k];
        assert !StrictEquals(IdOf(services[0]), IdOf(services[j + 1]));
      }
      assert WithoutId(services, id) == (if StrictEquals(IdOf(services[0]), id) then [] else [services[0]]) + tail;
    }
  }

  /** The `serviceRemoved` reducer: exactly the entries with that id go. */
  function ServiceRemovedApply(state: IdentifierState, event: Record): (r: IdentifierState)
    ensures forall i :: 0 <= i < |r.services| ==> !StrictEquals(IdOf(r.services[i]), Get(event, "serviceId"))
    ensures forall x :: x in state.services && !StrictEquals(IdOf(x), Get(event, "serviceId")) ==> x in r.services
    ensures forall x :: x in r.services ==> x in state.services
  {
    IdentifierState(WithoutId(state.services, Get(event, "serviceId")))
  }

  const ServiceAddedSchema := Schema(
    Some("object"),
    [("service", Schema(
        Some("object"),
        [("id", StringSchema), ("type", StringSchema), ("serviceEndpoint", StringSchema)],
        ["id", "type", "serviceEndpoint"],
        true))],
    ["service"],
    false)

  const ServiceRemovedSchema := Schema(Some("object"), [("serviceId", StringSchema)], ["serviceId"], false)

  /** `Identifier.events`, with the `serviceAdded` business rule given. */
  function IdentifierEvents(addRule: (IdentifierState, Value) -> Result<Value>): seq<(string, EventSpec<IdentifierState>)> {
    [ ("serviceAdded", EventSpec(Given(ServiceAddedSchema), Some(addRule), Some(ServiceAddedApply))),
      ("serviceRemoved", EventSpec(Given(ServiceRemovedSchema), Some(ServiceRemovedValidate), Some(ServiceRemovedApply))) ]
  }

  /** The compiled Identifier document type whose `serviceAdded` event runs
      `addRule`. */
  function IdentifierMachineWith(addRule: (IdentifierState, Value) -> Result<Value>): (m: Machine<IdentifierState>)
    ensures m.events.Keys == {"serviceAdded", "serviceRemoved"}
    ensures m.events["serviceAdded"].schemaValidate == SchemaValidator(ServiceAddedSchema)
    ensures m.events["serviceRemoved"].schemaValidate == SchemaValidator(ServiceRemovedSchema)
    ensures m.events["serviceAdded"].spec == IdentifierEvents(addRule)[0].1
    ensures m.events["serviceRemoved"].spec == IdentifierEvents(addRule)[1].1
    ensures m.initial == InitialState()
  {
    var specs := IdentifierEvents(addRule);
    assert WellFormed(StringSchema);
    assert WellFormed(ServiceAddedSchema.properties[0].1);
    assert WellFormed(ServiceAddedSchema);
    assert WellFormed(ServiceRemovedSchema);
    assert Names(specs) == {"serviceAdded", "serviceRemoved"} by {
      assert specs[0].0 == "serviceAdded" && specs[1].0 == "serviceRemoved";
    }
    CompileEventsOkIff(specs);
    CompileEventsRegistry(specs);
    var compiled := CompileEvents(specs);
    Machine(compiled.value, InitialState())
  }

  /** The Identifier document type with the corrected `serviceAdded` rule,
      the one the rest of this module reasons about. */
  function IdentifierMachine(): (m: Machine<IdentifierState>)
    ensures m.events.Keys == {"serviceAdded", "serviceRemoved"}
    ensures m.events["serviceAdded"].schemaValidate == SchemaValidator(ServiceAddedSchema)
    ensures m.events["serviceRemoved"].schemaValidate == SchemaValidator(ServiceRemovedSchema)
    ensures m.events["serviceAdded"].spec.validate == Some(ServiceAddedValidate)
    ensures m.events["serviceAdded"].spec == IdentifierEvents(ServiceAddedValidate)[0].1
    ensures m.events["serviceRemoved"].spec == IdentifierEvents(ServiceAddedValidate)[1].1
    ensures m.initial == InitialState()
  {
    IdentifierMachineWith(ServiceAddedValidate)
  }

  /** The Identifier document type exactly as written, with the
      `serviceAdded` rule that reads `event.services.id`. */
  function IdentifierMachineAsWritten(): (m: Machine<IdentifierState>)
    ensures m.events.Keys == {"serviceAdded", "serviceRemoved"}
    ensures m.events["serviceAdded"].schemaValidate == SchemaValidator(ServiceAddedSchema)
    ensures m.events["serviceRemoved"].schemaValidate == SchemaValidator(ServiceRemovedSchema)
    ensures m.events["serviceAdded"].spec.validate == Some(ServiceAddedValidateAsWritten)
    ensures m.events["serviceAdded"].spec == IdentifierEvents(ServiceAddedValidateAsWritten)[0].1
    ensures m.events["serviceRemoved"].spec == IdentifierEvents(ServiceAddedValidateAsWritten)[1].1
    ensures m.initial == InitialState()
  {
    IdentifierMachineWith(ServiceAddedValidateAsWritten)
  }

  /** The two document types differ only in a business rule, so every log
      replays to the same services under both. */
  lemma AsWrittenReplaysAlike(log: seq<Record>)
    ensures Replay(IdentifierMachineAsWritten(), log) == Replay(IdentifierMachine(), log)
  {
    ReplayIgnoresRules(IdentifierMachineAsWritten(), IdentifierMachine(), log);
  }

  /** What a `serviceAdded` payload admitted by its schema looks like. */
  lemma ServiceAddedPayloadShape(payload: Value)
    requires Admits(ServiceAddedSchema, payload)
    ensures payload.Obj? && payload.fields.Keys == {"service"}
    ensures Prop(payload, "service").Obj?
    ensures NewServiceId(payload) == Ok(IdOf(Prop(payload, "service")))
    ensures IdOf(Prop(payload, "service")).Str?
  {
    var svc := ServiceAddedSchema.properties[0];
    assert svc.0 in payload.fields;
    assert Admits(svc.1, payload.fields["service"]);
    var inner := svc.1.properties[0];
    assert inner.0 == "id";
    assert Admits(inner.1, Prop(payload, "service").fields["id"]);
    assert PropertyNames(ServiceAddedSchema.properties) == {"service"};
  }

  /** What a `serviceRemoved` payload admitted by its schema looks like. */
  lemma ServiceRemovedPayloadShape(payload: Value)
    requires Admits(ServiceRemovedSchema, payload)
    ensures payload.Obj? && payload.fields.Keys == {"serviceId"}
    ensures Prop(payload, "serviceId").Str?
  {
    assert Admits(ServiceRemovedSchema.properties[0].1, payload.fields["serviceId"]);
    assert PropertyNames(ServiceRemovedSchema.properties) == {"serviceId"};
  }

  /** Starting from `{ services: [] }`, appending only through the guarded
      `appendEvent` keeps every service an object and the ids distinct. */
  lemma AppendKeepsServicesInvariant(log: seq<Record>, name: string, payload: Value)
    requires |log| >= 1
    requires ServicesInvariant(Replay(IdentifierMachine(), log).state)
    requires AppendEvent(IdentifierMachine(), log, name, payload).Ok?
    ensures ServicesInvariant(Replay(IdentifierMachine(), AppendEvent(IdentifierMachine(), log, name, payload).value).state)
  {
    var m := IdentifierMachine();
    var before := Replay(m, log).state;
    AppendThenReplay(m, log, name, payload);
    if name == "serviceAdded" {
      assert Admits(ServiceAddedSchema, payload);
      assert RulePasses(m.events[name].spec, before, payload);
      AddedKeepsInvariant(before, payload);
    } else {
      assert name == "serviceRemoved";
      WithoutIdKeepsDistinct(before.services, Get(Spread(payload) - {"@event"}, "serviceId"));
    }
  }

  /** An admitted `serviceAdded` payload that the rule lets through keeps
      the services invariant. */
  lemma AddedKeepsInvariant(before: IdentifierState, payload: Value)
    requires ServicesInvariant(before)
    requires Admits(ServiceAddedSchema, payload)
    requires ServiceAddedValidate(before, payload).Ok? && !Truthy(ServiceAddedValidate(before, payload).value)
    ensures ServicesInvariant(ServiceAddedApply(before, Spread(payload) - {"@event"}))
  {
    ServiceAddedPayloadShape(payload);
    var service := Prop(payload, "service");
    assert Get(Spread(payload) - {"@event"}, "service") == service;
    assert ServiceAddedValidate(before, payload).value == Undefined;
    assert forall i :: 0 <= i < |before.services| ==> !StrictEquals(IdOf(before.services[i]), IdOf(service));
    assert ServiceAddedApply(before, Spread(payload) - {"@event"}) == IdentifierState(before.services + [service]);
    FreshServiceKeepsInvariant(before, service);
  }

  /** Appending an object whose id no listed service has keeps the invariant. */
  lemma FreshServiceKeepsInvariant(before: IdentifierState, service: Value)
    requires ServicesInvariant(before)
    requires service.Obj?
    requires forall i :: 0 <= i < |before.services| ==> !StrictEquals(IdOf(before.services[i]), IdOf(service))
    ensures ServicesInvariant(IdentifierState(before.services + [service]))
  {
    var after := before.services + [service];
    forall i, j | 0 <= i < j < |after| ensures !StrictEquals(IdOf(after[i]), IdOf(after[j])) {
      if j == |before.services| {
        assert after[i] == before.services[i];
      } else {
        assert after[i] == before.services[i] && after[j] == before.services[j];
      }
    }
  }

  /** The source as written keeps the invariant too: a duplicate add fails
      there as well (by the TypeError), so only fresh ids are appended. */
  lemma AppendAsWrittenKeepsServicesInvariant(log: seq<Record>, name: string, payload: Value)
    requires |log| >= 1
    requires ServicesInvariant(Replay(IdentifierMachineAsWritten(), log).state)
    requires AppendEvent(IdentifierMachineAsWritten(), log, name, payload).Ok?
    ensures ServicesInvariant(Replay(IdentifierMachineAsWritten(), AppendEvent(IdentifierMachineAsWritten(), log, name, payload).value).state)
  {
    var m := IdentifierMachineAsWritten();
    var before := Replay(m, log).state;
    AppendThenReplay(m, log, name, payload);
    if name == "serviceAdded" {
      assert Admits(ServiceAddedSchema, payload);
      assert RulePasses(m.events[name].spec, before, payload);
      AddedAsWrittenKeepsInvariant(before, payload);
    } else {
      assert name == "serviceRemoved";
      WithoutIdKeepsDistinct(before.services, Get(Spread(payload) - {"@event"}, "serviceId"));
    }
  }

  /** An admitted `serviceAdded` payload that the rule as written lets
      through names a fresh id, so it keeps the services invariant. */
  lemma AddedAsWrittenKeepsInvariant(before: IdentifierState, payload: Value)
    requires ServicesInvariant(before)
    requires Admits(ServiceAddedSchema, payload)
    requires ServiceAddedValidateAsWritten(before, payload).Ok? && !Truthy(ServiceAddedValidateAsWritten(before, payload).value)
    ensures ServicesInvariant(ServiceAddedApply(before, Spread(payload) - {"@event"}))
  {
    ServiceAddedPayloadShape(payload);
    var service := Prop(payload, "service");
    var id := IdOf(service);
    if exists i :: 0 <= i < |before.services| && StrictEquals(IdOf(before.services[i]), id) {
      var i :| 0 <= i < |before.services| && StrictEquals(IdOf(before.services[i]), id);
      DuplicateFound(before.services, id, i);
      DuplicateVerdictAsWritten(before, payload, id);
      assert false;
    }
    assert Get(Spread(payload) - {"@event"}, "service") == service;
    assert ServiceAddedValidate(before, payload).value == Undefined;
    assert forall i :: 0 <= i < |before.services| ==> !StrictEquals(IdOf(before.services[i]), IdOf(service));
    assert ServiceAddedApply(before, Spread(payload) - {"@event"}) == IdentifierState(before.services + [service]);
    FreshServiceKeepsInvariant(before, service);
  }

  /** The document a fresh Identifier log (header only) replays to. */
  lemma FreshIdentifierInvariant(header: Record)
    ensures Replay(IdentifierMachine(), [header]).state == InitialState()
    ensures ServicesInvariant(InitialState())
  {
    HeaderIgnored(IdentifierMachine(), header, header, []);
  }

  /** Adding a service whose id is already listed is refused with a message
      naming the id, and nothing is appended. */
  lemma DuplicateAddRefused(log: seq<Record>, payload: Value, i: nat)
    requires ServicesInvariant(Replay(IdentifierMachine(), log).state)
    requires Admits(ServiceAddedSchema, payload)
    requires i < |Replay(IdentifierMachine(), log).state.services|
    requires IdOf(Replay(IdentifierMachine(), log).state.services[i]) == IdOf(Prop(payload, "service"))
    ensures AppendEvent(IdentifierMachine(), log, "serviceAdded", payload)
         == Err("service already referenced by did document: " + ToJsString(IdOf(Prop(payload, "service"))))
    ensures AppendEvent(IdentifierMachineAsWritten(), log, "serviceAdded", payload)
         == Err(ReadError(Undefined, "id"))
  {
    ServiceAddedPayloadShape(payload);
    var before := Replay(IdentifierMachine(), log).state;
    var id := IdOf(Prop(payload, "service"));
    assert StrictEquals(IdOf(before.services[i]), id);
    DuplicateFound(before.services, id, i);
    DuplicateVerdictAsWritten(before, payload, id);
    AsWrittenReplaysAlike(log);
    RuleRefusal(IdentifierMachineAsWritten(), log, "serviceAdded", payload, ReadError(Undefined, "id"));
  }

  /** A payload the schema admits and the rule throws on is refused with
      what the rule threw. */
  lemma RuleRefusal(m: Machine<IdentifierState>, log: seq<Record>, name: string, payload: Value, thrown: string)
    requires name in m.events && Accepts(m.events[name].schemaValidate, payload)
    requires m.events[name].spec.validate.Some?
    requires m.events[name].spec.validate.value(Replay(m, log).state, payload) == Err(thrown)
    ensures AppendEvent(m, log, name, payload) == Err(thrown)
  {
  }

  /** Removing an id no service has is refused with a message naming it. */
  lemma AbsentRemoveRefused(log: seq<Record>, payload: Value)
    requires ServicesInvariant(Replay(IdentifierMachine(), log).state)
    requires Admits(ServiceRemovedSchema, payload)
    requires forall i :: 0 <= i < |Replay(IdentifierMachine(), log).state.services| ==>
      IdOf(Replay(IdentifierMachine(), log).state.services[i]) != Prop(payload, "serviceId")
    ensures AppendEvent(IdentifierMachine(), log, "serviceRemoved", payload)
         == Err("service is references by the did document: " + ToJsString(Prop(payload, "serviceId")))
  {
    ServiceRemovedPayloadShape(payload);
  }

  /** The `serviceAdded` message bug: on a duplicate id the rule as written
      throws a TypeError instead of returning its message. */
  lemma DuplicateAddThrowsAsWritten(state: IdentifierState, payload: Value, i: nat)
    requires forall j :: 0 <= j < |state.services| ==> state.services[j].Obj?
    requires Admits(ServiceAddedSchema, payload)
    requires i < |state.services| && IdOf(state.services[i]) == IdOf(Prop(payload, "service"))
    ensures ServiceAddedValidateAsWritten(state, payload)
         == Err(ReadError(Undefined, "id"))
    ensures ServiceAddedValidate(state, payload)
         == Ok(Str("service already referenced by did document: " + ToJsString(IdOf(Prop(payload, "service")))))
  {
    ServiceAddedPayloadShape(payload);
    var id := IdOf(Prop(payload, "service"));
    DuplicateFound(state.services, id, i);
    DuplicateVerdictAsWritten(state, payload, id);
    DuplicateVerdictCorrected(state, payload, id);
  }

  /** The message bug on concrete input: with a service `s1` listed, adding
      another service `s1` throws as written and is refused as intended. */
  lemma DuplicateAddExample()
    ensures var state := IdentifierState([Obj(map["id" := Str("s1")])]);
      var payload := Obj(map["service" := Obj(map["id" := Str("s1")])]);
      && ServiceAddedValidateAsWritten(state, payload) == Err(ReadError(Undefined, "id"))
      && ServiceAddedValidate(state, payload) == Ok(Str("service already referenced by did document: " + ToJsString(Str("s1"))))
  {
    var listed := Obj(map["id" := Str("s1")]);
    var payload := Obj(map["service" := listed]);
    assert NewServiceId(payload) == Ok(Str("s1"));
    assert FindById([listed], Ok(Str("s1"))) == Ok(Some(listed));
    assert Prop(payload, "services") == Undefined;
  }

  /** As written, a duplicate id on a payload without a `services` key
      makes the rule throw while building its message. */
  lemma DuplicateVerdictAsWritten(state: IdentifierState, payload: Value, id: Value)
    requires payload.Obj? && "services" !in payload.fields && NewServiceId(payload) == Ok(id)
    requires FindById(state.services, Ok(id)).Ok?
    requires FindById(state.services, Ok(id)).value.Some? && FindById(state.services, Ok(id)).value.value.Obj?
    ensures ServiceAddedValidateAsWritten(state, payload)
         == Err(ReadError(Undefined, "id"))
  {
    var found := FindById(state.services, NewServiceId(payload));
    assert found.Ok? && found.value.Some? && Truthy(found.value.value);
    assert Prop(payload, "services") == Undefined;
  }

  /** Corrected, a duplicate id yields the message naming it. */
  lemma DuplicateVerdictCorrected(state: IdentifierState, payload: Value, id: Value)
    requires NewServiceId(payload) == Ok(id)
    requires FindById(state.services, Ok(id)).Ok?
    requires FindById(state.services, Ok(id)).value.Some? && FindById(state.services, Ok(id)).value.value.Obj?
    ensures ServiceAddedValidate(state, payload)
         == Ok(Str("service already referenced by did document: " + ToJsString(id)))
  {
  }

  /** `find` reports a service whenever one carries the id. */
  lemma DuplicateFound(services: seq<Value>, id: Value, i: nat)
    requires forall j :: 0 <= j < |services| ==> services[j].Obj?
    requires i < |services| && StrictEquals(IdOf(services[i]), id)
    ensures FindById(services, Ok(id)).Ok?
    ensures FindById(services, Ok(id)).value.Some?
    ensures FindById(services, Ok(id)).value.value.Obj?
  {
    var found := FindById(services, Ok(id));
    assert found.Ok? && found.value.Some?;
  }

  /** Removing an id and adding it back leaves exactly one entry with that
      id, the new one, at the end. */
  lemma RemoveThenReAdd(state: IdentifierState, id: string, service: Value)
    requires ServicesInvariant(state)
    requires service.Obj? && IdOf(service) == Str(id)
    ensures var removed := ServiceRemovedApply(state, map["serviceId" := Str(id)]);
      var added := ServiceAddedApply(removed, map["service" := service]);
      && ServiceAddedValidate(removed, Obj(map["service" := service])) == Ok(Undefined)
      && ServicesInvariant(added)
      && added.services[|added.services| - 1] == service
      && forall i :: 0 <= i < |added.services| - 1 ==> IdOf(added.services[i]) != Str(id)
  {
    var removed := ServiceRemovedApply(state, map["serviceId" := Str(id)]);
    WithoutIdKeepsDistinct(state.services, Str(id));
    assert ServicesInvariant(removed) by {
      forall i | 0 <= i < |removed.services| ensures removed.services[i].Obj? {
        assert removed.services[i] in state.services;
      }
    }
    assert forall i :: 0 <= i < |removed.services| ==> !StrictEquals(IdOf(removed.services[i]), IdOf(service));
    assert NewServiceId(Obj(map["service" := service])) == Ok(Str(id));
    FreshServiceKeepsInvariant(removed, service);
    var added := ServiceAddedApply(removed, map["service" := service]);
    assert added.services == removed.services + [service];
    forall i | 0 <= i < |added.services| - 1 ensures IdOf(added.services[i]) != Str(id) {
      assert added.services[i] == removed.services[i];
    }
  }

  /** `asDidDocument()`: the document of the log's signing key, listing the
      current services (always present, since a list is truthy). */
  function AsDidDocument(c: Did.KeyCodec, signingKey: seq<Did.Byte>, state: IdentifierState): (doc: Did.DidDocument)
    ensures doc.id == Did.PublicKeyToDid(c, signingKey)
    ensures doc.services == Some(Arr(state.services))
  {
    Did.SigningKeyToDidDocument(c, signingKey, map["services" := Arr(state.services)])
  }
}
