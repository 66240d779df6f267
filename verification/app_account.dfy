/** A user's account on an app (accounts/AppAccount.js). The ledger's entry
    0 is the header; later entries are `AccountAccepted`,
    `SessionRequestResolved` or anything else, which is kept aside as
    ignored. The replayed value is cached and rebuilt only when the ledger
    has grown past the cached version. */
module AppAccount {
  import opened Outcome
  import opened Js

  /** `value.state`: unset until an `AccountAccepted` entry, then `'open'`. */
  datatype AccountState = Unset | Open

  /** The value `_update()` builds. `ignored` holds one item per ignored
      entry (`_ignoredEntries`, left undefined while empty in the source). */
  datatype AccountValue = AccountValue(
    version: nat,
    id: string,
    header: Option<Record>,
    state: AccountState,
    host: Value,
    appUserId: Value,
    signupSecret: Value,
    resolutions: map<string, Record>,
    ignored: seq<Record>,
    entries: seq<Record>)

  /** `entry.event === kind` */
  predicate IsEvent(e: Record, kind: string) {
    Get(e, "event") == Str(kind)
  }

  predicate IsAccepted(e: Record) {
    IsEvent(e, "AccountAccepted")
  }

  predicate IsResolved(e: Record) {
    IsEvent(e, "SessionRequestResolved")
  }

  /** The property key a resolution is stored under. */
  function ResolutionKey(e: Record): string {
    ToJsString(Get(e, "sessionRequestId"))
  }

  /** `{ version, id, sessionRequestResolutions: {} }` */
  function Base(id: string, version: nat): AccountValue {
    AccountValue(version, id, None, Unset, Undefined, Undefined, Undefined, map[], [], [])
  }

  /** What one entry after the header does to the value: an accepted entry
      opens the account, a resolution is filed under its id, and anything
      else is set aside, each touching nothing but its own fields. */
  function Step(v: AccountValue, e: Record): (r: AccountValue)
    ensures r.version == v.version && r.id == v.id && r.header == v.header && r.entries == v.entries
    ensures IsAccepted(e) ==> r.state == Open && r.host == Get(e, "host") && r.appUserId == Get(e, "appUserId")
    ensures IsAccepted(e) ==> r.signupSecret == Get(e, "signupSecret")
    ensures !IsAccepted(e) ==> r.state == v.state && r.host == v.host && r.appUserId == v.appUserId && r.signupSecret == v.signupSecret
    ensures IsResolved(e) ==> r.resolutions.Keys == v.resolutions.Keys + {ResolutionKey(e)} && r.resolutions[ResolutionKey(e)] == e
    ensures IsResolved(e) ==> forall k :: k in v.resolutions && k != ResolutionKey(e) ==> r.resolutions[k] == v.resolutions[k]
    ensures !IsResolved(e) ==> r.resolutions == v.resolutions
    ensures !IsAccepted(e) && !IsResolved(e) ==> |r.ignored| == |v.ignored| + 1 && r.ignored[|v.ignored|] == e
    ensures |r.ignored| >= |v.ignored| && r.ignored[..|v.ignored|] == v.ignored
    ensures IsAccepted(e) || IsResolved(e) ==> r.ignored == v.ignored
  {
    if IsAccepted(e) then
      v.(state := Open, host := Get(e, "host"), appUserId := Get(e, "appUserId"), signupSecret := Get(e, "signupSecret"))
    else if IsResolved(e) then
      v.(resolutions := v.resolutions[ResolutionKey(e) := e])
    else
      v.(ignored := v.ignored + [e])
  }

  function Events(v: AccountValue, es: seq<Record>): AccountValue
    decreases |es|
  {
    if |es| == 0 then v else Events(Step(v, es[0]), es[1..])
  }

  /** `_update()` over the ledger `log` of account `id`: `version` is the
      ledger's length, entry 0 is stored as the header and never read as an
      event, and every entry is kept in `entries`. */
  function Rebuild(id: string, log: seq<Record>): (r: AccountValue)
    ensures r.version == |log| && r.id == id && r.entries == log
    ensures |log| == 0 ==> r == Base(id, 0)
    ensures |log| > 0 ==> r.header == Some(log[0])
  {
    if |log| == 0 then Base(id, 0)
    else
      var v := Events(Base(id, |log|).(header := Some(log[0])), log[1..]);
      EventsKeepsIdentity(Base(id, |log|).(header := Some(log[0])), log[1..]);
      v.(entries := log)
  }

  lemma {:induction false} EventsKeepsIdentity(v: AccountValue, es: seq<Record>)
    ensures var r := Events(v, es);
      r.version == v.version && r.id == v.id && r.header == v.header && r.entries == v.entries
    decreases |es|
  {
    if |es| > 0 {
      EventsKeepsIdentity(Step(v, es[0]), es[1..]);
    }
  }

  lemma {:induction false} EventsAppend(v: AccountValue, a: seq<Record>, b: seq<Record>)
    ensures Events(v, a + b) == Events(Events(v, a), b)
    decreases |a|
  {
    if |a| == 0 {
      assert a + b == b;
    } else {
      assert (a + b)[1..] == a[1..] + b;
      EventsAppend(Step(v, a[0]), a[1..], b);
    }
  }

  /** Replaying one more entry is one more step. */
  lemma RebuildSnoc(id: string, log: seq<Record>, e: Record)
    requires |log| >= 1
    ensures Rebuild(id, log + [e]) == Step(Rebuild(id, log), e).(version := |log| + 1, entries := log + [e])
  {
    var h := Base(id, |log| + 1).(header := Some(log[0]));
    var h' := Base(id, |log|).(header := Some(log[0]));
    assert (log + [e])[1..] == log[1..] + [e];
    EventsAppend(h, log[1..], [e]);
    EventsShift(h, h', log[1..]);
    EventsKeepsIdentity(h', log[1..]);
  }

  /** The fold does not look at `version`, `header` or `entries`. */
  lemma {:induction false} EventsShift(a: AccountValue, b: AccountValue, es: seq<Record>)
    requires a.(version := b.version, header := b.header, entries := b.entries) == b
    ensures Events(a, es) == Events(b, es).(version := a.version, header := a.header, entries := a.entries)
    decreases |es|
  {
    EventsKeepsIdentity(b, es);
    if |es| > 0 {
      EventsShift(Step(a, es[0]), Step(b, es[0]), es[1..]);
    }
  }

  /** The entries after the header that are neither accepted nor resolved,
      in ledger order. */
  function Unrecognised(es: seq<Record>): (r: seq<Record>)
    ensures forall i :: 0 <= i < |r| ==> r[i] in es && !IsAccepted(r[i]) && !IsResolved(r[i])
    ensures forall e :: e in es && !IsAccepted(e) && !IsResolved(e) ==> e in r
    decreases |es|
  {
    if |es| == 0 then []
    else (if IsAccepted(es[0]) || IsResolved(es[0]) then [] else [es[0]]) + Unrecognised(es[1..])
  }

  /** Each unrecognised entry is kept exactly as often as it occurs; no
      other entry is kept. */
  lemma {:induction false} UnrecognisedCounts(es: seq<Record>, e: Record)
    ensures multiset(Unrecognised(es))[e] == if IsAccepted(e) || IsResolved(e) then 0 else multiset(es)[e]
    decreases |es|
  {
    if |es| > 0 {
      assert es == [es[0]] + es[1..];
      UnrecognisedCounts(es[1..], e);
    }
  }

  /** Filtering commutes with concatenation, so the kept entries stay in
      ledger order. */
  lemma {:induction false} UnrecognisedAppend(a: seq<Record>, b: seq<Record>)
    ensures Unrecognised(a + b) == Unrecognised(a) + Unrecognised(b)
    decreases |a|
  {
    if |a| == 0 {
      assert a + b == b;
    } else {
      assert (a + b)[1..] == a[1..] + b;
      UnrecognisedAppend(a[1..], b);
    }
  }

  lemma {:induction false} EventsIgnored(v: AccountValue, es: seq<Record>)
    ensures Events(v, es).ignored == v.ignored + Unrecognised(es)
    decreases |es|
  {
    if |es| > 0 {
      EventsIgnored(Step(v, es[0]), es[1..]);
    }
  }

  /** The ignored list holds exactly the unrecognised entries after the
      header, each once, in order. */
  lemma IgnoredAreUnrecognised(id: string, log: seq<Record>)
    requires |log| >= 1
    ensures Rebuild(id, log).ignored == Unrecognised(log[1..])
  {
    EventsIgnored(Base(id, |log|).(header := Some(log[0])), log[1..]);
  }

  /** `_ignoredEntries` AS WRITTEN: each ignored entry after the header
      pushes the whole `log` instead of the entry. */
  function IgnoredAsWritten(log: seq<Record>, es: seq<Record>): (r: seq<seq<Record>>)
    ensures |r| == |Unrecognised(es)|
    ensures forall i :: 0 <= i < |r| ==> r[i] == log
    decreases |es|
  {
    if |es| == 0 then []
    else (if IsAccepted(es[0]) || IsResolved(es[0]) then [] else [log]) + IgnoredAsWritten(log, es[1..])
  }

  /** The pushed-array bug: one unknown entry after the header is recorded
      as the whole two-entry ledger rather than as itself. */
  lemma IgnoredPushesWholeLog(id: string, header: Record, unknown: Record)
    requires !IsAccepted(unknown) && !IsResolved(unknown)
    ensures IgnoredAsWritten([header, unknown], [header, unknown][1..]) == [[header, unknown]]
    ensures Rebuild(id, [header, unknown]).ignored == [unknown]
  {
    assert [header, unknown][1..] == [unknown];
    assert Unrecognised([unknown]) == [unknown] by {
      assert [unknown][1..] == [];
    }
    IgnoredAreUnrecognised(id, [header, unknown]);
  }

  /** Entries other than `AccountAccepted` leave the account's state and
      the accepted values alone. */
  lemma {:induction false} WithoutAccepted(v: AccountValue, es: seq<Record>)
    requires forall i :: 0 <= i < |es| ==> !IsAccepted(es[i])
    ensures var r := Events(v, es);
      r.state == v.state && r.host == v.host && r.appUserId == v.appUserId && r.signupSecret == v.signupSecret
    decreases |es|
  {
    if |es| > 0 {
      WithoutAccepted(Step(v, es[0]), es[1..]);
    }
  }

  /** The last `AccountAccepted` entry decides `state`, `host`, `appUserId`
      and `signupSecret`; a later one overwrites an earlier one. */
  lemma AcceptedLastWins(v: AccountValue, es: seq<Record>, i: nat)
    requires i < |es| && IsAccepted(es[i])
    requires forall j :: i < j < |es| ==> !IsAccepted(es[j])
    ensures var r := Events(v, es);
      && r.state == Open
      && r.host == Get(es[i], "host")
      && r.appUserId == Get(es[i], "appUserId")
      && r.signupSecret == Get(es[i], "signupSecret")
  {
    assert es == es[..i] + [es[i]] + es[i + 1..];
    EventsAppend(v, es[..i] + [es[i]], es[i + 1..]);
    EventsAppend(v, es[..i], [es[i]]);
    WithoutAccepted(Events(v, es[..i] + [es[i]]), es[i + 1..]);
  }

  /** Entries that do not resolve `key` leave its resolution alone. */
  lemma {:induction false} WithoutResolution(v: AccountValue, es: seq<Record>, key: string)
    requires forall i :: 0 <= i < |es| ==> !(IsResolved(es[i]) && ResolutionKey(es[i]) == key)
    ensures key in Events(v, es).resolutions <==> key in v.resolutions
    ensures key in v.resolutions ==> Events(v, es).resolutions[key] == v.resolutions[key]
    decreases |es|
  {
    if |es| > 0 {
      WithoutResolution(Step(v, es[0]), es[1..], key);
    }
  }

  /** Resolutions are stored under their id: the last one for an id wins,
      whatever came before. */
  lemma ResolutionLastWins(v: AccountValue, es: seq<Record>, i: nat)
    requires i < |es| && IsResolved(es[i])
    requires forall j :: i < j < |es| ==> !(IsResolved(es[j]) && ResolutionKey(es[j]) == ResolutionKey(es[i]))
    ensures ResolutionKey(es[i]) in Events(v, es).resolutions
    ensures Events(v, es).resolutions[ResolutionKey(es[i])] == es[i]
  {
    assert es == es[..i] + [es[i]] + es[i + 1..];
    EventsAppend(v, es[..i] + [es[i]], es[i + 1..]);
    EventsAppend(v, es[..i], [es[i]]);
    WithoutResolution(Events(v, es[..i] + [es[i]]), es[i + 1..], ResolutionKey(es[i]));
  }

  /** `update()`: rebuild only when nothing is cached or the cached version
      is below the ledger's length. The version held never decreases and
      never falls below the ledger's length; a current cache is kept. */
  function Refresh(cached: Option<AccountValue>, id: string, log: seq<Record>): (r: AccountValue)
    ensures r.version >= |log|
    ensures cached.Some? ==> r.version >= cached.value.version
    ensures cached.Some? && cached.value.version >= |log| ==> r == cached.value
    ensures cached.None? || cached.value.version < |log| ==> r == Rebuild(id, log)
  {
    if cached.None? || cached.value.version < |log| then Rebuild(id, log) else cached.value
  }

  /** After an append the cache is rebuilt, so it matches the ledger. */
  lemma RefreshAfterAppend(id: string, log: seq<Record>, e: Record)
    ensures Refresh(Some(Rebuild(id, log)), id, log + [e]) == Rebuild(id, log + [e])
  {
  }

  /** The record `acceptAppUserOffer` appends. */
  function AcceptedRecord(appUser: Record): Record {
    map["event" := Str("AccountAccepted"), "appUserId" := Get(appUser, "id"),
        "signupSecret" := Get(appUser, "signupSecret"), "host" := Get(appUser, "host")]
  }

  /** `acceptAppUserOffer(appUser)`: refuse an app user that is not offered,
      otherwise append one `AccountAccepted` entry. */
  function AcceptAppUserOffer(log: seq<Record>, appUser: Record): (r: Result<seq<Record>>)
    ensures !Truthy(Get(appUser, "isOffered")) ==> r == Err("invalid appUser")
    ensures Truthy(Get(appUser, "isOffered")) ==> r == Ok(log + [AcceptedRecord(appUser)])
  {
    if !Truthy(Get(appUser, "isOffered")) then Err("invalid appUser")
    else Ok(log + [AcceptedRecord(appUser)])
  }

  /** After accepting, the replayed account is open with the app user's
      host, id and signup secret; nothing else changes. */
  lemma AcceptThenReplay(id: string, log: seq<Record>, appUser: Record)
    requires |log| >= 1
    requires AcceptAppUserOffer(log, appUser).Ok?
    ensures var before := Rebuild(id, log);
      var after := Rebuild(id, AcceptAppUserOffer(log, appUser).value);
      && after.state == Open
      && after.host == Get(appUser, "host")
      && after.appUserId == Get(appUser, "id")
      && after.signupSecret == Get(appUser, "signupSecret")
      && after.resolutions == before.resolutions
      && after.ignored == before.ignored
      && after.version == before.version + 1
  ensures var log' := AcceptAppUserOffer(log, appUser).value;
      && |IgnoredAsWritten(log', log'[1..])| == |IgnoredAsWritten(log, log[1..])|
      && (|IgnoredAsWritten(log, log[1..])| > 0 ==> IgnoredAsWritten(log', log'[1..]) != IgnoredAsWritten(log, log[1..]))
  {
    RebuildSnoc(id, log, AcceptedRecord(appUser));
    var log' := log + [AcceptedRecord(appUser)];
    assert log'[1..] == log[1..] + [AcceptedRecord(appUser)];
    UnrecognisedAppend(log[1..], [AcceptedRecord(appUser)]);
    assert [AcceptedRecord(appUser)][1..] == [];
    if |IgnoredAsWritten(log, log[1..])| > 0 {
      assert IgnoredAsWritten(log', log'[1..])[0] == log' != log == IgnoredAsWritten(log, log[1..])[0];
    }
  }

  /** On a ledger with no header yet, the accepted record becomes the header
      and is never read as an event: the account stays unset. */
  lemma AcceptOnEmptyLedgerIsHeader(id: string, appUser: Record)
    requires Truthy(Get(appUser, "isOffered"))
    ensures Rebuild(id, AcceptAppUserOffer([], appUser).value).state == Unset
    ensures Rebuild(id, AcceptAppUserOffer([], appUser).value).header == Some(AcceptedRecord(appUser))
  {
    assert [] + [AcceptedRecord(appUser)] == [AcceptedRecord(appUser)];
    assert [AcceptedRecord(appUser)][1..] == [];
  }

  /** `ids.includes(sessionRequestId)` over the app user's session requests. */
  predicate Listed(sessionRequests: seq<Record>, sessionRequestId: Value) {
    exists i :: 0 <= i < |sessionRequests| && StrictEquals(Get(sessionRequests[i], "sessionRequestId"), sessionRequestId)
  }

  /** The record `resolveSessionRequest` appends. */
  function ResolvedRecord(sessionRequestId: Value, accept: Value): Record {
    map["event" := Str("SessionRequestResolved"), "sessionRequestId" := sessionRequestId, "accepted" := Bool(Truthy(accept))]
  }

  /** `resolveSessionRequest(sessionRequestId, accept)`: refuse an id the app
      user did not list; otherwise append one resolution whose `accepted`
      is `accept` coerced to a boolean. */
  function ResolveSessionRequest(log: seq<Record>, sessionRequests: seq<Record>, sessionRequestId: Value, accept: Value): (r: Result<seq<Record>>)
    ensures !Listed(sessionRequests, sessionRequestId) ==>
      r == Err("sessionRequestId looks invalid " + ToJsString(sessionRequestId))
    ensures r.Ok? <==> Listed(sessionRequests, sessionRequestId)
    ensures r.Ok? ==> r.value == log + [ResolvedRecord(sessionRequestId, accept)]
    ensures r.Ok? ==> Get(r.value[|log|], "accepted") == Bool(Truthy(accept))
  {
    if !Listed(sessionRequests, sessionRequestId) then
      Err("sessionRequestId looks invalid " + ToJsString(sessionRequestId))
    else
      Ok(log + [ResolvedRecord(sessionRequestId, accept)])
  }

  /** After resolving, the replayed resolutions hold the new record under
      its id and are unchanged for every other id. */
  lemma ResolveThenReplay(id: string, log: seq<Record>, sessionRequests: seq<Record>, sessionRequestId: Value, accept: Value)
    requires |log| >= 1
    requires ResolveSessionRequest(log, sessionRequests, sessionRequestId, accept).Ok?
    ensures var before := Rebuild(id, log);
      var after := Rebuild(id, ResolveSessionRequest(log, sessionRequests, sessionRequestId, accept).value);
      && after.resolutions == before.resolutions[ToJsString(sessionRequestId) := ResolvedRecord(sessionRequestId, accept)]
      && after.state == before.state && after.host == before.host && after.appUserId == before.appUserId
  {
    RebuildSnoc(id, log, ResolvedRecord(sessionRequestId, accept));
  }

  datatype LoginLink = LoginLink(log: seq<Record>, link: string)

  /** `generateOnetimeLoginLink()` with `token` standing for the random
      string: append a `GeneratedOnetimeLoginLink` entry and return the
      link built from the cached host and app user id. */
  function GenerateOnetimeLoginLink(log: seq<Record>, cached: AccountValue, token: string): (r: LoginLink)
    ensures |r.log| == |log| + 1 && r.log[..|log|] == log
    ensures !IsAccepted(r.log[|log|]) && !IsResolved(r.log[|log|])
    ensures Get(r.log[|log|], "token") == Str(token)
    ensures "https://" + ToJsString(cached.host) + "/" <= r.link
    ensures |r.link| > |token| && r.link[|r.link| - |token| - 1..] == "/" + token
  {
    LoginLink(log + [map["event" := Str("GeneratedOnetimeLoginLink"), "token" := Str(token)]],
              "https://" + ToJsString(cached.host) + "/jlinx/login/onetime/" + ToJsString(cached.appUserId) + "/" + token)
  }

  /** The login-link entry is not an event the replay knows: it lands in the
      ignored list and changes nothing else. */
  lemma LoginLinkIgnoredByReplay(id: string, log: seq<Record>, cached: AccountValue, token: string)
    requires |log| >= 1
    ensures var before := Rebuild(id, log);
      var after := Rebuild(id, GenerateOnetimeLoginLink(log, cached, token).log);
      && after == before.(version := before.version + 1, ignored := before.ignored + [after.entries[|log|]],
                          entries := after.entries)
  ensures var log' := GenerateOnetimeLoginLink(log, cached, token).log;
      |IgnoredAsWritten(log', log'[1..])| == |IgnoredAsWritten(log, log[1..])| + 1
  {
    var e := map["event" := Str("GeneratedOnetimeLoginLink"), "token" := Str(token)];
    var log' := log + [e];
    assert GenerateOnetimeLoginLink(log, cached, token).log == log';
    RebuildSnoc(id, log, e);
    assert log'[1..] == log[1..] + [e];
    UnrecognisedAppend(log[1..], [e]);
    assert [e][1..] == [];
  }
}
