/** The Profile document (Profiles.js): an event machine with one event,
    `update`, whose reducer is a shallow merge in which `null` deletes. */
module Profiles {
  import opened Outcome
  import opened Js
  import opened JsonSchema
  import opened EventRegistry
  import opened EventMachine

  /** `set(changes)` before appending: every key holding `undefined` is
      rewritten to `null`, so that "unset" survives serialisation. */
  function SetChanges(changes: Record): (r: Record)
    ensures r.Keys == changes.Keys
    ensures forall k :: k in changes && changes[k] == Undefined ==> r[k] == Null
    ensures forall k :: k in changes && changes[k] != Undefined ==> r[k] == changes[k]
    ensures forall k :: k in r ==> r[k] != Undefined
  {
    map k | k in changes :: if changes[k] == Undefined then Null else changes[k]
  }

  /** The `update` reducer: `{ ...state, ...changes }`, then every key whose
      value is `null` is deleted. */
  function UpdateApply(state: Record, changes: Record): (r: Record)
    ensures forall k :: k in changes && changes[k] != Null ==> k in r && r[k] == changes[k]
    ensures forall k :: k in r ==> r[k] != Null
    ensures forall k :: k !in changes && k in state && state[k] != Null ==> k in r && r[k] == state[k]
    ensures forall k :: k in r ==> k in changes || k in state
    ensures forall k :: k in changes && changes[k] == Null ==> k !in r
  {
    map k | k in state.Keys + changes.Keys && (if k in changes then changes[k] else state[k]) != Null ::
      if k in changes then changes[k] else state[k]
  }

  /** Merging the same changes twice is merging them once. */
  lemma UpdateIdempotent(state: Record, changes: Record)
    ensures UpdateApply(UpdateApply(state, changes), changes) == UpdateApply(state, changes)
  {
    var once := UpdateApply(state, changes);
    var twice := UpdateApply(once, changes);
    assert twice.Keys == once.Keys;
  }

  /** `{ type: 'object', additionalProperties: true }` */
  const UpdateSchema := Schema(Some("object"), [], [], true)

  /** The `update` schema admits every object and nothing else. */
  lemma UpdateSchemaAdmitsObjects(payload: Value)
    ensures Admits(UpdateSchema, payload) <==> payload.Obj?
  {
  }

  function ProfileEvents(): seq<(string, EventSpec<Record>)> {
    [("update", EventSpec(Given(UpdateSchema), None, Some(UpdateApply)))]
  }

  /** The compiled Profile document type; its state starts as `{}`. */
  function ProfileMachine(): (m: Machine<Record>)
    ensures m.events.Keys == {"update"}
    ensures m.events["update"].spec.apply == Some(UpdateApply)
    ensures m.events["update"].spec.validate.None?
    ensures m.events["update"].schemaValidate == SchemaValidator(UpdateSchema)
    ensures m.initial == map[]
  {
    var specs := ProfileEvents();
    assert WellFormed(UpdateSchema);
    assert Names(specs) == {"update"} by {
      assert specs[0].0 == "update";
    }
    CompileEventsOkIff(specs);
    CompileEventsRegistry(specs);
    var compiled := CompileEvents(specs);
    Machine(compiled.value, EmptyState)
  }

  /** What `set(changes)` hands to `appendEvent`: the `for…in` loop
      rewrites `undefined` to `null` under every enumerable key of an object
      or an array, and enumerates nothing of any other value. */
  function SetPayload(changes: Value): (r: Value)
    ensures changes.Obj? <==> r.Obj?
    ensures changes.Obj? ==> r == Obj(SetChanges(changes.fields))
    ensures changes.Arr? ==> r.Arr? && |r.items| == |changes.items|
    ensures changes.Arr? ==> forall i :: 0 <= i < |r.items| ==>
      r.items[i] != Undefined && (changes.items[i] != Undefined ==> r.items[i] == changes.items[i])
    ensures !changes.Obj? && !changes.Arr? ==> r == changes
  {
    match changes
    case Obj(fields) => Obj(SetChanges(fields))
    case Arr(items) => Arr(seq(|items|, i requires 0 <= i < |items| => if items[i] == Undefined then Null else items[i]))
    case _ => changes
  }

  /** `Profile.set(changes)`: rewrite `undefined` to `null`, then append an
      `update` event. An object is always admitted, so the append succeeds;
      anything else (nothing, `null`, an array, a string, ...) fails the
      `type: 'object'` schema and nothing is appended. */
  function Set(log: seq<Record>, changes: Value): (r: Result<seq<Record>>)
    ensures changes.Obj? ==> r == Ok(log + [Tagged(Obj(SetChanges(changes.fields)), "update")])
    ensures !changes.Obj? ==>
      r == Err("invalid event payload: " + JoinErrors(ValidatorErrors(SchemaValidator(UpdateSchema), SetPayload(changes))))
  {
    UpdateSchemaAdmitsObjects(SetPayload(changes));
    AppendEvent(ProfileMachine(), log, "update", SetPayload(changes))
  }

  /** After `set`, every key changed to a defined value holds it, every key
      changed to `null` or `undefined` is gone, and the rest is kept. */
  lemma SetThenReplay(log: seq<Record>, changes: Record)
    requires |log| >= 1
    ensures var after := Replay(ProfileMachine(), Set(log, Obj(changes)).value).state;
      var before := Replay(ProfileMachine(), log).state;
      && (forall k :: k in changes && k != "@event" && changes[k] != Null && changes[k] != Undefined ==>
            k in after && after[k] == changes[k])
      && (forall k :: k in changes && k != "@event" && (changes[k] == Null || changes[k] == Undefined) ==>
            k !in after)
      && (forall k :: (k !in changes || k == "@event") && k in before && before[k] != Null ==>
            k in after && after[k] == before[k])
  {
    var payload := Obj(SetChanges(changes));
    assert Set(log, Obj(changes)) == AppendEvent(ProfileMachine(), log, "update", payload);
    AppendThenReplay(ProfileMachine(), log, "update", payload);
    assert Spread(payload) - {"@event"} == SetChanges(changes) - {"@event"};
  }

  predicate NoNulls(r: Record) {
    forall k :: k in r ==> r[k] != Null
  }

  /** No replayed profile holds a `null`: whatever the log, each `update`
      drops nulls, and an entry of another kind changes nothing. */
  lemma {:induction false} FoldHasNoNulls(state: Record, es: seq<Record>)
    requires NoNulls(state)
    ensures NoNulls(FoldEvents(ProfileMachine(), state, es))
    decreases |es|
  {
    if |es| > 0 {
      var m := ProfileMachine();
      var next := Step(m, state, es[0]);
      if EventName(es[0]) == "update" {
        assert next == UpdateApply(state, Untag(es[0]));
      } else {
        assert next == state;
      }
      FoldHasNoNulls(next, es[1..]);
      assert FoldEvents(m, state, es) == FoldEvents(m, next, es[1..]);
    }
  }

  lemma ReplayHasNoNulls(log: seq<Record>)
    ensures NoNulls(Replay(ProfileMachine(), log).state)
  {
    FoldHasNoNulls(map[], EventsOf(log));
  }
}
