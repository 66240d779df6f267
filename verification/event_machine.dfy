/** The generic event-sourced document (EventMachine.js, whose code is
    entirely commented out but whose design the Identifier and Profile
    documents extend). A document is a log whose entry 0 is the header and
    whose later entries are events tagged with `'@event'`. `AppendEvent`
    guards an append (unknown name, then payload schema, then business rule)
    and `Replay` folds the events into the current state. */
module EventMachine {
  import opened Outcome
  import opened Js
  import opened JsonSchema
  import opened EventRegistry

  /** A document type: its compiled event registry and `initialState()`. */
  datatype Machine<!S> = Machine(events: Registry<S>, initial: S)

  /** `initialState()` of a type that does not override it: `{}`. */
  const EmptyState: Record := map[]

  /** The payload's own keys, as `{ ...payload }` copies them. Only object
      payloads (and `null`/`undefined`, which copy nothing) are modelled. */
  function Spread(payload: Value): Record {
    if payload.Obj? then payload.fields else map[]
  }

  /** The record appended for an event: `{ ...payload, '@event': name }`. */
  function Tagged(payload: Value, name: string): (r: Record)
    ensures Get(r, "@event") == Str(name)
    ensures forall k :: k != "@event" ==> Get(r, k) == Prop(payload, k)
  {
    Spread(payload)["@event" := Str(name)]
  }

  /** The payload handed to a reducer: `const { '@event': _, ...payload } = event`. */
  function Untag(e: Record): (r: Record)
    ensures "@event" !in r
    ensures forall k :: k != "@event" ==> Get(r, k) == Get(e, k)
  {
    e - {"@event"}
  }

  /** The registry key an entry is looked up under (the tag, coerced to a
      property key). */
  function EventName(e: Record): string {
    ToJsString(Get(e, "@event"))
  }

  function ErrorLine(e: SchemaError): string {
    (if e.instancePath != "" then e.instancePath + " " else "") + e.message
  }

  function JoinErrors(errs: seq<SchemaError>): string {
    if |errs| == 0 then ""
    else if |errs| == 1 then ErrorLine(errs[0])
    else ErrorLine(errs[0]) + ", " + JoinErrors(errs[1..])
  }

  /** Does the event's business rule let the payload through against `state`?
      A rule that returns a falsy value passes. */
  predicate RulePasses<S>(spec: EventSpec<S>, state: S, payload: Value) {
    spec.validate.None? ||
    (var verdict := spec.validate.value(state, payload); verdict.Ok? && !Truthy(verdict.value))
  }

  /** One replay step: an unknown event leaves the state alone, a known one
      runs its reducer (if it has one) on the untagged payload. */
  function Step<S>(m: Machine<S>, state: S, e: Record): S {
    var name := EventName(e);
    if name !in m.events then state
    else
      match m.events[name].spec.apply
      case None => state
      case Some(apply) => apply(state, Untag(e))
  }

  function FoldEvents<S>(m: Machine<S>, state: S, es: seq<Record>): S
    decreases |es|
  {
    if |es| == 0 then state else FoldEvents(m, Step(m, state, es[0]), es[1..])
  }

  /** The entries after the header: `let [, ...events] = entries`. */
  function EventsOf(log: seq<Record>): (r: seq<Record>)
    ensures |log| == 0 ==> r == []
    ensures |log| > 0 ==> |r| == |log| - 1 && forall i :: 0 <= i < |r| ==> r[i] == log[i + 1]
  {
    if |log| == 0 then [] else log[1..]
  }

  /** What `update()` leaves behind: the state and the events walked. */
  datatype Replayed<S> = Replayed(state: S, events: seq<Record>)

  /** `update()`: starting from `initialState()`, fold every entry after the
      header; every such entry, known or not, is recorded in `events`. */
  function Replay<S>(m: Machine<S>, log: seq<Record>): (r: Replayed<S>)
    ensures |r.events| == if |log| == 0 then 0 else |log| - 1
    ensures |log| <= 1 ==> r.state == m.initial
  {
    var events := EventsOf(log);
    Replayed(FoldEvents(m, m.initial, events), events)
  }

  /** Two document types with the same event names, reducers and initial
      state; their schemas and business rules may differ. */
  ghost predicate SameReducers<S>(m1: Machine<S>, m2: Machine<S>) {
    && m1.events.Keys == m2.events.Keys
    && (forall n :: n in m1.events ==> m1.events[n].spec.apply == m2.events[n].spec.apply)
    && m1.initial == m2.initial
  }

  lemma {:induction false} FoldIgnoresRules<S>(m1: Machine<S>, m2: Machine<S>, state: S, es: seq<Record>)
    requires SameReducers(m1, m2)
    ensures FoldEvents(m1, state, es) == FoldEvents(m2, state, es)
    decreases |es|
  {
    if |es| > 0 {
      assert Step(m1, state, es[0]) == Step(m2, state, es[0]);
      FoldIgnoresRules(m1, m2, Step(m1, state, es[0]), es[1..]);
    }
  }

  /** Replay never consults schemas or business rules: only the reducers
      decide the state. */
  lemma ReplayIgnoresRules<S>(m1: Machine<S>, m2: Machine<S>, log: seq<Record>)
    requires SameReducers(m1, m2)
    ensures Replay(m1, log) == Replay(m2, log)
  {
    FoldIgnoresRules(m1, m2, m1.initial, EventsOf(log));
  }

  /** `appendEvent(name, payload)`: refuse an unknown name, then a payload
      the schema refuses (with every schema error listed), then a payload
      the business rule refuses (with the rule's message, or what it threw);
      only then append exactly one tagged record. */
  function AppendEvent<S>(m: Machine<S>, log: seq<Record>, name: string, payload: Value): (r: Result<seq<Record>>)
    ensures name !in m.events ==> r == Err("invalid event \"" + name + "\"")
    ensures name in m.events && !Accepts(m.events[name].schemaValidate, payload) ==>
      r == Err("invalid event payload: " + JoinErrors(ValidatorErrors(m.events[name].schemaValidate, payload)))
    ensures name in m.events && Accepts(m.events[name].schemaValidate, payload) && m.events[name].spec.validate.Some? ==>
      var verdict := m.events[name].spec.validate.value(Replay(m, log).state, payload);
      && (verdict.Err? ==> r == Err(verdict.error))
      && (verdict.Ok? && Truthy(verdict.value) ==> r == Err(ToJsString(verdict.value)))
    ensures r.Ok? <==>
      && name in m.events
      && Accepts(m.events[name].schemaValidate, payload)
      && RulePasses(m.events[name].spec, Replay(m, log).state, payload)
    ensures r.Ok? ==> r.value == log + [Tagged(payload, name)]
  {
    if name !in m.events then
      Err("invalid event \"" + name + "\"")
    else
      var event := m.events[name];
      if !Accepts(event.schemaValidate, payload) then
        Err("invalid event payload: " + JoinErrors(ValidatorErrors(event.schemaValidate, payload)))
      else if event.spec.validate.None? then
        Ok(log + [Tagged(payload, name)])
      else
        var verdict := event.spec.validate.value(Replay(m, log).state, payload);
        if verdict.Err? then Err(verdict.error)
        else if Truthy(verdict.value) then Err(ToJsString(verdict.value))
        else Ok(log + [Tagged(payload, name)])
  }

  lemma {:induction false} FoldEventsAppend<S>(m: Machine<S>, state: S, a: seq<Record>, b: seq<Record>)
    ensures FoldEvents(m, state, a + b) == FoldEvents(m, FoldEvents(m, state, a), b)
    decreases |a|
  {
    if |a| == 0 {
      assert a + b == b;
    } else {
      assert (a + b)[1..] == a[1..] + b;
      FoldEventsAppend(m, Step(m, state, a[0]), a[1..], b);
    }
  }

  /** Replay is a left fold: replaying one more entry is one more step. */
  lemma {:induction false} ReplaySnoc<S>(m: Machine<S>, log: seq<Record>, e: Record)
    requires |log| >= 1
    ensures Replay(m, log + [e]).state == Step(m, Replay(m, log).state, e)
    ensures Replay(m, log + [e]).events == Replay(m, log).events + [e]
  {
    assert EventsOf(log + [e]) == EventsOf(log) + [e];
    FoldEventsAppend(m, m.initial, EventsOf(log), [e]);
    assert FoldEvents(m, FoldEvents(m, m.initial, EventsOf(log)), [e])
        == Step(m, FoldEvents(m, m.initial, EventsOf(log)), e);
  }

  /** The header is never interpreted: replay only depends on what follows
      it, and a log holding only its header replays to `initialState()`. */
  lemma HeaderIgnored<S>(m: Machine<S>, h1: Record, h2: Record, es: seq<Record>)
    ensures Replay(m, [h1] + es) == Replay(m, [h2] + es)
    ensures Replay(m, [h1]).state == m.initial
    ensures Replay(m, []).state == m.initial
  {
    assert EventsOf([h1] + es) == es == EventsOf([h2] + es);
    assert EventsOf([h1]) == [];
  }

  /** An entry with an unknown event name is recorded but skipped: wherever
      it stands, the state is what it would be without it. */
  lemma UnknownEventSkipped<S>(m: Machine<S>, pre: seq<Record>, u: Record, post: seq<Record>)
    requires |pre| >= 1
    requires EventName(u) !in m.events
    ensures Replay(m, pre + [u] + post).state == Replay(m, pre + post).state
    ensures Replay(m, pre + [u] + post).events == EventsOf(pre) + [u] + post
  {
    var s := FoldEvents(m, m.initial, EventsOf(pre));
    assert EventsOf(pre + [u] + post) == EventsOf(pre) + [u] + post;
    assert EventsOf(pre + post) == EventsOf(pre) + post;
    FoldEventsAppend(m, m.initial, EventsOf(pre) + [u], post);
    FoldEventsAppend(m, m.initial, EventsOf(pre), [u]);
    assert FoldEvents(m, s, [u]) == s;
    FoldEventsAppend(m, m.initial, EventsOf(pre), post);
  }

  /** After a successful append the replayed state is the previous state
      with the event's reducer applied to the payload (minus any `'@event'`
      key of its own), and the recorded tag is the event's name. */
  lemma AppendThenReplay<S>(m: Machine<S>, log: seq<Record>, name: string, payload: Value)
    requires |log| >= 1
    requires AppendEvent(m, log, name, payload).Ok?
    ensures var log' := AppendEvent(m, log, name, payload).value;
      && |log'| == |log| + 1
      && Get(log'[|log|], "@event") == Str(name)
      && Replay(m, log').state ==
           match m.events[name].spec.apply
           case None => Replay(m, log).state
           case Some(apply) => apply(Replay(m, log).state, Spread(payload) - {"@event"})
  {
    var e := Tagged(payload, name);
    ReplaySnoc(m, log, e);
    assert EventName(e) == name;
    assert Untag(e) == Spread(payload) - {"@event"};
  }
}
