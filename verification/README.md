# jlinx-client document replay, in Dafny

This project models the client side of jlinx: documents are append-only
logs, and each document type turns its log into a current value by
replaying the entries in order. New entries are appended only after a
guard accepts them. The model covers:

- **Contracts** (`contracts.dfy`, Contracts.js): the two-party offer/sign
  protocol. A Contract log is replayed through a work queue. A
  `signerResponded` entry fetches the responder's ContractParty log and
  appends its entries to the end of the queue. The module also models the
  `offerContract` and `ackSignerResponse` guards and the ContractParty
  fold, `sign`, `reject` and `contract()`.
- **Identifiers** (`identifiers.dfy`, `did.dfy`, Identifiers.js): a DID
  document's list of services, kept by `serviceAdded` / `serviceRemoved`
  events. It also covers the `did:key:z6mk` codec and the DID document
  builder.
- **The generic event machine** (`event_machine.dfy`, EventMachine.js).
  That file is entirely commented out in the source, but Identifier and
  Profile extend its design. The model covers the append guard (unknown
  name, then schema, then business rule, then append) and the replay fold
  (skip the header, skip unknown events, apply reducers).
- **Event registry compilation** (`event_registry.dfy`, events.js), with
  its `schema: null` validator and its default schema.
- **The JSON Schema subset** the payload schemas use (`json_schema.dfy`):
  `type`, `properties`, `required` (section 6.5.3 of JSON Schema
  Validation, draft-07) and boolean `additionalProperties` (6.5.6).
- **Profiles** (`profiles.dfy`, Profiles.js): a shallow merge in which
  `null` deletes.
- **AppAccount** (`app_account.dfy`, accounts/AppAccount.js): a header-first
  fold with a version-keyed cache and two guarded appends.

`js.dfy` models the JavaScript values involved: property reads that
return `undefined` or throw a TypeError, truthiness, `===`, and string
coercion. `outcome.dfy` holds `Option` and `Result`; a thrown `Error`
becomes `Err(message)`.

External collaborators are parameters:
- A document store (`Store`, id to entries) stands in for `jlinx.get`.
- A `KeyCodec` stands in for base58. The round-trip property is a
  hypothesis of the lemmas that need it.
- The random token of a login link is an argument.
- The app user's session-request list is an argument.
- The client's host URL is an argument.

Where the code and its documentation disagree, the model follows the code:
- Replay splices responder entries at the END of the queue
  (Contracts.js:69). It does not replay them depth-first at the point of
  the splice.
- The DID prefix is lower-case `z6mk` over raw base58, with no multicodec
  header.
- The document lists services under `services`, not `service`.
- Any method name without a colon is accepted.
- `ContractParty.reject` appends nothing.

## Model

| member | source | states |
|---|---|---|
| EventRegistry.MakeNullSchemaValidator | events.js:25-39 | the null validator accepts exactly `undefined` and `null`; every other payload gets the single error `must be null or undefined` |
| EventRegistry.MissingSchemaAdmitsOnlyEmptyObject | events.js:10-15 | an event with a missing or falsy schema compiles, and its validator admits the empty object and nothing else |
| JsonSchema.DefaultSchemaAdmitsOnlyEmptyObject | events.js:11-14 | `{type:'object', additionalProperties:false}` admits a value if and only if it is `{}` |
| JsonSchema.ErrorsEmptyIffAdmits | EventMachine.js:69-70 | a compiled validator reports no error exactly when the schema admits the value, at every depth |
| EventRegistry.AcceptsIffNoErrors | EventMachine.js:69-70 | a validator's boolean verdict and its error list agree, for both the null validator and a schema validator |
| EventRegistry.CompileEvents | events.js:3-23 | an empty table compiles to the empty registry; a first schema that does not compile aborts with the message naming its event; on success the first event is registered with its own specification |
| EventRegistry.CompileEventsOkIff | events.js:3-23 | compilation succeeds exactly when every schema field compiles |
| EventRegistry.CompileEventsRegistry | events.js:3-23 | a compiled registry has exactly the input names, and each keeps its specification with the validator its schema field compiles to |
| EventRegistry.CompileEventsReportsFirst | events.js:16-18 | a failed compilation reports the first event whose schema does not compile, as `invalid schema for event "<name>": Error: <message>` |
| EventMachine.Tagged | EventMachine.js:86 | the appended record carries the event name under `'@event'` and every other key of the payload unchanged |
| EventMachine.Untag | EventMachine.js:112 | the reducer's payload is the entry without `'@event'`, with all other keys kept |
| EventMachine.EventsOf | EventMachine.js:105 | replay reads every entry after the header, in order, and nothing else |
| EventMachine.Replay | EventMachine.js:103-131 | one event is walked per entry after the header, and a log of at most the header replays to `initialState()` |
| EventMachine.ReplayIgnoresRules | EventMachine.js:103-131 | replay reads only the reducers and the initial state: two machines that agree on those replay every log alike, whatever their schemas and rules |
| EventMachine.AppendEvent | EventMachine.js:66-89 | refusals come in guard order: unknown name, then schema (errors joined by `, `, each prefixed by its path), then the rule's message or what the rule threw. The append succeeds if and only if all three guards pass, and then it adds exactly one record tagged with the name |
| EventMachine.ReplaySnoc | EventMachine.js:109-120 | replay is a left fold: one more entry is one more step, and it is also recorded in the events walked |
| EventMachine.HeaderIgnored | EventMachine.js:103-107 | replay never reads the header; a log with only a header, or empty, replays to `initialState()` |
| EventMachine.UnknownEventSkipped | EventMachine.js:113-117 | an entry with an unknown name, wherever it stands, is recorded but leaves the state unchanged |
| EventMachine.AppendThenReplay | EventMachine.js:85-120 | after an accepted append, the new state is the reducer applied to the old state and the payload without `'@event'`. It is the old state when the event has no reducer |
| Did.PublicKeyToDid | Identifiers.js:177-179 | the DID is `did:key:z6mk` followed by the key's base58 text |
| Did.ParseDid | Identifiers.js:160-165 | a match yields a method without colons and a non-empty id without line breaks, and the DID is exactly `did:<method>:<id>` |
| Did.ParseDidComplete | Identifiers.js:161 | every `did:<no-colon method>:<non-empty id without line breaks>` matches, with exactly that method and id |
| Did.DidToPublicKey | Identifiers.js:160-175 | errors for a malformed DID, for a `did:key` id not starting `z6mk`, and for `did:jlinx`; `undefined` for any other method; a key result is the decoding of the text after the prefix |
| Did.DidRoundTrip | Identifiers.js:158-179 | if base58 decode undoes encode and encode emits only base58 digits, `didToPublicKey(publicKeyToDid(k))` gives back `k` |
| Did.UpperCaseMultibaseRefused | Identifiers.js:167-169 | a DID in the standard `z6Mk` spelling is refused |
| Did.PrefixSplitsOffEncoding | Identifiers.js:183 | `did.split(DID_PREFIX)[1]` is the key's base58 text |
| Did.SigningKeyToDidDocument | Identifiers.js:181-219 | the document's id is the DID and it has the three contexts. All four relationships are exactly `[did#mb]`. The verification method and the key agreement each reference that id, the DID as controller and `mb`. `services` is present if and only if `opts.services` is truthy |
| Identifiers.FindById | Identifiers.js:122-124 | `find` reports a service exactly when one has the id (when no element is null or undefined) and never evaluates the id on an empty list |
| Identifiers.ServiceAddedValidateAsWritten | Identifiers.js:119-128 | a fresh id passes. A message is only ever produced when the payload has a `services` key |
| Identifiers.ServiceAddedValidate | Identifiers.js:119-128 | a service whose id is already listed is refused with a message naming the id; a fresh id passes |
| Identifiers.DuplicateAddThrowsAsWritten | Identifiers.js:126 | on a duplicate id the rule as written throws `Cannot read properties of undefined (reading 'id')`, whereas the corrected rule returns its message |
| Identifiers.DuplicateAddExample | Identifiers.js:119-128 | with a service `s1` listed, adding another service `s1` throws `Cannot read properties of undefined (reading 'id')` as written, and the corrected rule returns the message naming `s1` |
| Identifiers.DuplicateVerdictAsWritten | Identifiers.js:126 | when `find` reports a service and the payload has no `services` key, the rule as written throws instead of returning a message |
| Identifiers.DuplicateVerdictCorrected | Identifiers.js:119-128 | when `find` reports a service, the corrected rule returns the message naming the new service's id |
| Identifiers.AddedKeepsInvariant | Identifiers.js:119-134 | an admitted `serviceAdded` that the rule lets through keeps every service an object and the ids distinct |
| Identifiers.DuplicateFound | Identifiers.js:122-124 | `find` returns an object whenever some service has the id |
| Identifiers.ServiceAddedApply | Identifiers.js:129-134 | the new service is appended at the end, and the existing entries and their order are unchanged |
| Identifiers.ServiceRemovedValidate | Identifiers.js:146-149 | removing an id that no service has is refused with a message naming the id; a present id passes |
| Identifiers.WithoutId | Identifiers.js:153 | the filter keeps exactly the services whose id differs |
| Identifiers.WithoutIdAppend | Identifiers.js:153 | the filter distributes over concatenation, so the survivors keep their order |
| Identifiers.WithoutIdKeepsDistinct | Identifiers.js:150-155 | removal keeps the ids distinct |
| Identifiers.ServiceRemovedApply | Identifiers.js:150-155 | every entry with the id is dropped, and every other entry is kept |
| Identifiers.IdentifierMachine | Identifiers.js:99-156 | (corrected rule at line 126) the Identifier registry compiles, with exactly the two events, their schemas, the corrected `serviceAdded` rule and `{ services: [] }` as initial state |
| Identifiers.IdentifierMachineAsWritten | Identifiers.js:99-156 | the registry exactly as written: the same two events, schemas and initial state, with the `serviceAdded` rule that reads `event.services.id` |
| Identifiers.AsWrittenReplaysAlike | Identifiers.js:99-156 | the as-written and the corrected types replay every log to the same state, since they differ only in a rule |
| Identifiers.ServiceAddedPayloadShape | Identifiers.js:102-118 | an admitted `serviceAdded` payload is `{service}` with an object service whose `id` is a string |
| Identifiers.ServiceRemovedPayloadShape | Identifiers.js:138-145 | an admitted `serviceRemoved` payload is `{serviceId}` with a string id |
| Identifiers.FreshIdentifierInvariant | Identifiers.js:54-58 | a new Identifier replays to `{ services: [] }`, which satisfies the invariant |
| Identifiers.AppendKeepsServicesInvariant | Identifiers.js:119-155 | (corrected rule) each append accepted by the guard keeps every service an object and the ids pairwise distinct |
| Identifiers.AppendAsWrittenKeepsServicesInvariant | Identifiers.js:119-155 | as written, each accepted append keeps the same invariant: a duplicate add is still refused, by the TypeError instead of the message |
| Identifiers.AddedAsWrittenKeepsInvariant | Identifiers.js:119-134 | an admitted `serviceAdded` that the rule as written lets through names a fresh id and keeps the invariant |
| Identifiers.DuplicateAddRefused | Identifiers.js:119-128 | adding a listed id is refused under both rules, so nothing is appended: the corrected rule fails with `service already referenced by did document: <id>`, the rule as written with `TypeError: Cannot read properties of undefined (reading 'id')` |
| Identifiers.AbsentRemoveRefused | Identifiers.js:146-149 | removing an unlisted id fails with `service is references by the did document: <id>`, and nothing is appended |
| Identifiers.RemoveThenReAdd | Identifiers.js:129-155 | after remove-then-add of an id, the add passes, the ids stay distinct, and the only entry with that id is the new one, at the end |
| Identifiers.AsDidDocument | Identifiers.js:92-96 | the document is the signing key's, and it always lists the current services |
| Profiles.SetChanges | Profiles.js:52-55 | same keys as the changes; `undefined` becomes `null` and every other value is kept |
| Profiles.UpdateApply | Profiles.js:70-75 | changed keys with non-null values hold them, keys changed to `null` are removed, no key holds `null`, untouched non-null keys keep their value, and no key appears from nowhere |
| Profiles.UpdateIdempotent | Profiles.js:70-75 | applying the same changes twice equals applying them once |
| Profiles.UpdateSchemaAdmitsObjects | Profiles.js:66-69 | the `update` schema admits exactly the objects |
| Profiles.ProfileMachine | Profiles.js:64-77 | the Profile registry compiles, with the one `update` event and `{}` as initial state |
| Profiles.SetPayload | Profiles.js:52-55 | the payload is an object exactly when the changes are; an object's keys are rewritten by `SetChanges`, an array keeps its length and defined elements and has no `undefined` left, and any other value is passed on unchanged |
| Profiles.Set | Profiles.js:52-57 | changes that are an object append exactly one `update` record holding the rewritten changes; any other value fails the `type: 'object'` schema with `invalid event payload: ...` and appends nothing |
| Profiles.SetThenReplay | Profiles.js:52-75 | after `set`, changed keys hold their new defined values, keys set to `null` or `undefined` are gone, and other non-null keys are kept |
| Profiles.FoldHasNoNulls | Profiles.js:70-75 | a fold that starts without nulls ends without nulls |
| Profiles.ReplayHasNoNulls | Profiles.js:70-75 | no replayed profile holds `null`, whatever the log |
| Contracts.Replay | Contracts.js:49-79 | whatever the entries, the replayed `contractId` is the log's own id |
| Contracts.FoldKeepsContractId | Contracts.js:51-52 | no entry changes `contractId` |
| Contracts.Effect | Contracts.js:57-76 | no entry changes `contractId`; only `offered` and `signerResponded` entries change the state, only `signed` entries the signer and only splices the `signatureId`; a splice always leaves state `signed` |
| Contracts.Expand | Contracts.js:55-77 | the processing order is at least as long as the queue and starts with its first entry; with no fuel a queue settles exactly when it holds no splice |
| Contracts.ReplayFromStep | Contracts.js:55-77 | one turn of the loop: a plain entry applies its effect; a splice fails without fuel or on a missing log, and otherwise queues the fetched entries at the end |
| Contracts.Update | Contracts.js:49-79 | the literal while loop computes the fold of the processing order, including its errors |
| Contracts.ExpandPrefix | Contracts.js:69 | the queued entries are processed first, in order; spliced entries only follow them |
| Contracts.ExpandSpliceFree | Contracts.js:55-77 | a log without splices is processed exactly as it stands |
| Contracts.ExpandFuelMonotone | Contracts.js:55-77 | once a replay settles, more fuel gives the same order; the bound never changes a result |
| Contracts.ExpandTailFromOthers | Contracts.js:63-71 | every entry processed after the queue comes from a fetched log |
| Contracts.ExpandSettles | Contracts.js:55-77 | with acyclic references (a rank that strictly decreases along every splice), as much fuel as there are splices suffices |
| Contracts.ReplaySettles | Contracts.js:55-77 | replay of a contract terminates when every stored log is ranked, so that every splice in the whole store resolves to a log of lower rank |
| Contracts.ExpandReadsOnlyReached | Contracts.js:55-77 | a replay reads only the logs its splices reach: inside a part of the store closed under splicing, the rest of the store cannot change the result |
| Contracts.ReplaySettlesReached | Contracts.js:55-77 | replay of a contract terminates when the logs it reaches have acyclic references that all resolve, whatever the other logs hold, dangling or cyclic splices included |
| Contracts.DanglingElsewhereUnranked | Contracts.js:63-68 | a store where another contract acknowledges a missing responder has no ranking at all |
| Contracts.DanglingElsewhereReplays | Contracts.js:55-77 | yet the contract that does not reach that acknowledgement still replays, with any fuel |
| Contracts.SkipToSplice | Contracts.js:63-71 | a queue ending in a splice of its own log never settles |
| Contracts.SelfReferenceNeverSettles | Contracts.js:55-77 | a contract log whose last entry acknowledges the contract itself, after entries without splices, runs out of fuel whatever the fuel (the source loops forever) |
| Contracts.SelfSplicingTargetNeverSettles | Contracts.js:55-77 | a queue holding a splice of a log that splices itself never settles, whatever the fuel |
| Contracts.ResponderSelfReferenceNeverSettles | Contracts.js:55-77 | a contract that acknowledges a responder log referring to itself, anywhere in either log, never replays, whatever the fuel (the source loops forever) |
| Contracts.LoopExampleNeverSettles | Contracts.js:55-77 | `C = [offered, signerResponded(P)]` with `P = [signerResponded(P)]` never replays, whatever the fuel |
| Contracts.FoldSkipsOthers | Contracts.js:57-76 | entries of other kinds change nothing, and `signed` entries change only `signer` |
| Contracts.FoldKeepsSigner | Contracts.js:72-73 | without a `signed` entry, `signer` is kept |
| Contracts.FoldWithoutOffer | Contracts.js:57-71 | without an `offered` entry, only state, `signatureId` and `signer` can change, and a `signed` state stays `signed` |
| Contracts.FoldKeepsSignatureId | Contracts.js:63-71 | without a splice, `signatureId` is kept |
| Contracts.SignerLastWins | Contracts.js:72-73 | the last `signed` entry processed, from whichever log, decides `signer` |
| Contracts.OfferLastWins | Contracts.js:57-62 | the last `offered` entry decides `contractUrl`, `offerer`, `signatureDropoffUrl` and `jlinxHost` |
| Contracts.ResponseLastWins | Contracts.js:63-71 | a `signerResponded` entry sets state `signed` unconditionally; only a later `offered` changes that. The last one decides `signatureId` |
| Contracts.SpliceExampleOrder | Contracts.js:63-71 | `[offered, signerResponded(P)]` with `P = [signed]` is processed as `offered, signerResponded, signed` |
| Contracts.SpliceExample | Contracts.js:49-79 | replaying that example gives state `signed` with the offer's values, the responder's signer and `P` as `signatureId` |
| Contracts.OfferContractAsWritten | Contracts.js:81-100 | `offerer is required` / `contractUrl is required` for falsy values. Otherwise exactly one `offered` record with the host is appended, however many entries the log already has, and the result carries what the `update()` after the append returns |
| Contracts.OfferContract | Contracts.js:81-100 | the same errors, plus `already offered` for a log that already has entries. On success the log becomes exactly one `offered` record carrying the host URL, and the result carries what the `update()` after the append returns |
| Contracts.OfferThenReplay | Contracts.js:90-99 | after an offer, the `update()` that follows and every later replay (with any fuel) give state `offered` with the offer's values and the host |
| Contracts.SecondOfferAcceptedAsWritten | Contracts.js:89 | as written, a second offer is appended and its values replace the first. The corrected guard refuses it with `already offered` |
| Contracts.AckSignerResponse | Contracts.js:111-132 | the ack succeeds if and only if the fresh replay is exactly `offered`, and then appends one `signerResponded{contractResponseId}` and carries what the `update()` after the append returns. Otherwise the replay's error or `cannot acknowledge response. contract.state !== 'offered'` |
| Contracts.MissingTargetNeverSettles | Contracts.js:63-68 | a queue holding a splice whose target cannot be fetched never settles, whatever the fuel |
| Contracts.AckUnknownResponderBreaksContract | Contracts.js:111-131 | acking an id the store does not hold still commits the entry; the `update()` after it fails, and so does every later replay of the contract, whatever the fuel |
| Contracts.AckSelfBreaksContract | Contracts.js:111-131 | acking the contract's own id commits a self-reference: the `update()` after it and every later replay run out of fuel |
| Contracts.AckBeforeOfferRefused | Contracts.js:114-116 | acknowledging a contract with no entries is refused |
| Contracts.SecondAckRefused | Contracts.js:111-132 | after one ack whose `update()` settles, that update gives state `signed`, so a second ack is refused. This holds when the logs the replay reaches (a part of the store closed under splicing that holds the contract and the responder) hold no offer besides the contract's own and no splice back at the contract; logs outside that part may hold anything, other offered contracts included |
| Contracts.AckedSubStore | Contracts.js:123-131 | appending the ack keeps the reached part closed under splicing and free of splices back at the contract |
| Contracts.TwoContractsSecondAckRefused | Contracts.js:111-132 | on a host holding two offered contracts `C1`, `C2` and an empty responder `P`, acking `C1` with `P` signs it and a second ack of `C1` is refused |
| Contracts.PartyUpdate | Contracts.js:148-165 | the party's state, `contractId` and `signer` come from the last `rejected`/`signed` entry, and are unset when there is none |
| Contracts.PartySign | Contracts.js:176-187 | `sign` fails only when the contract's replay fails. It never checks the contract's state, and it appends exactly one `signed{signer, contractId}` |
| Contracts.ResolveParty | Contracts.js:104-109 | a fresh responder log is created and nothing else changes; `reject` leaves it empty; `sign` leaves exactly one `signed` entry in it |
| Contracts.ReplaySpliceFree | Contracts.js:49-79 | a log without splices replays to its entries applied in order, whatever the fuel |
| Contracts.OpenContract | Contracts.js:27-33 | an id naming no stored log fails with `document not found`; an opened contract carries the id it was opened under; a log without splices always opens, to its entries applied in order |
| Contracts.PartyContract | Contracts.js:167-170 | an empty party log throws `TypeError: Cannot destructure property 'contractId' of '(intermediate value)' as it is undefined.`; a contract that opens is the stored one whose id the first entry names; a first entry without a string `contractId` fails |
| Contracts.ResolvePointsBack | Contracts.js:167-187 | a log made by `sign` points back at its contract and replays as signed by the identifier; one made by `reject` holds nothing |
| AppAccount.Rebuild | accounts/AppAccount.js:56-86 | (corrected line 78) `version` is the ledger length and `id` the ledger id; entry 0 is the header; all entries are kept |
| AppAccount.Step | accounts/AppAccount.js:63-79 | (corrected line 78) an `AccountAccepted` entry opens the account with its host, app user id and signup secret, a resolution is filed under its id with every other id kept, and any other entry is added to the ignored list; each touches only its own fields |
| AppAccount.RebuildSnoc | accounts/AppAccount.js:63-80 | one more entry after the header is one more step of the fold, and the version grows by one |
| AppAccount.Unrecognised | accounts/AppAccount.js:76-79 | every kept entry is unrecognised and comes from the input, and every unrecognised entry of the input is kept |
| AppAccount.UnrecognisedCounts | accounts/AppAccount.js:76-79 | each unrecognised entry is kept exactly as often as it occurs, and no other entry is kept |
| AppAccount.UnrecognisedAppend | accounts/AppAccount.js:63-79 | the filter distributes over concatenation, so the kept entries stay in ledger order |
| AppAccount.IgnoredAreUnrecognised | accounts/AppAccount.js:76-79 | the corrected ignored list holds exactly the unrecognised entries after the header, each once |
| AppAccount.IgnoredAsWritten | accounts/AppAccount.js:76-79 | as written, there is one item per ignored entry, and each item is the whole ledger |
| AppAccount.IgnoredPushesWholeLog | accounts/AppAccount.js:78 | one unknown entry is recorded as the whole ledger as written, and as itself after correction |
| AppAccount.WithoutAccepted | accounts/AppAccount.js:66-79 | entries other than `AccountAccepted` leave state, host, appUserId and signupSecret unchanged |
| AppAccount.AcceptedLastWins | accounts/AppAccount.js:66-70 | the last `AccountAccepted` sets state `open` and decides host, appUserId and signupSecret |
| AppAccount.WithoutResolution | accounts/AppAccount.js:74-75 | entries that do not resolve an id leave its resolution untouched |
| AppAccount.ResolutionLastWins | accounts/AppAccount.js:74-75 | the last resolution for an id is what is stored under it |
| AppAccount.Refresh | accounts/AppAccount.js:41-50 | the value is rebuilt only when none is cached or the cached version is below the ledger length. The held version never decreases and is never below the length |
| AppAccount.RefreshAfterAppend | accounts/AppAccount.js:41-50 | after an append the cache is rebuilt to match the ledger |
| AppAccount.AcceptAppUserOffer | accounts/AppAccount.js:109-123 | fails with `invalid appUser` unless `isOffered` is truthy; otherwise appends one `AccountAccepted` with the app user's id, secret and host |
| AppAccount.AcceptThenReplay | accounts/AppAccount.js:109-123 | (corrected replay) after accepting, the account replays as open with the app user's values, and resolutions and ignored entries are unchanged. As written, the ignored list keeps its length but every item becomes the new ledger, so a non-empty list changes |
| AppAccount.AcceptOnEmptyLedgerIsHeader | accounts/AppAccount.js:63-66 | on an empty ledger the accepted record becomes the header and the account stays unset |
| AppAccount.ResolveSessionRequest | accounts/AppAccount.js:128-143 | an unlisted id is refused with `sessionRequestId looks invalid <id>`. A listed one appends exactly one resolution with `accepted` as a boolean |
| AppAccount.ResolveThenReplay | accounts/AppAccount.js:128-143 | after resolving, the new record is stored under its id, and every other id and the account fields are unchanged |
| AppAccount.GenerateOnetimeLoginLink | accounts/AppAccount.js:145-154 | exactly one entry is appended, carrying the token and neither accepting nor resolving anything; the link starts with `https://<cached host>/` and ends with `/<token>` |
| AppAccount.LoginLinkIgnoredByReplay | accounts/AppAccount.js:145-154 | (corrected replay) the login-link entry only lands in the ignored list, and nothing else in the replayed account changes. As written, the ignored list gains one item |

## Left out

- RemoteHost.js, index.js and the test helpers are left out. They are HTTP transport, module wiring and test scaffolding.
- The factory classes (`create`/`get` of Identifiers, Profiles, Contracts) are left out, except `_open`, which is `OpenContract`. So are the `inspect.custom` printers and the `addService`/`removeService`/`addProfile` wrappers, which only call `appendEvent`.
- The Ledger classes are not part of this model. A log is a sequence of entries plus append. For AppAccount, entry 0 of the ledger is the header and `version` is the number of entries. For Contract and ContractParty, `entries()` holds only events. `ledger.get(0)` on an empty ledger is taken to return `undefined`.
- `jlinx.get` on an unknown id is modelled as an error `document not found: <id>`. Its real wording is not part of this model.
- base58 and `keyToBuffer` are a `KeyCodec` parameter. A decode failure is modelled as an error whose wording is the model's own.
- The schema compiler is not part of this model. `Compile` stands in for it: it only rejects unknown type names, and its error texts follow the JSON Schema keywords, not the compiler's exact wording.
- EventMachine.js's own copy of `compileEvents` (no default schema, message `invalid EventMachine schema`) is left out. events.js is the live version and is modelled. The `static set events` redefinition guard is also left out.
- The `addEventStream`/`removeEventStream` branches of EventMachine.js are left out, because `mergeEvents` and `purgeEvents` are empty stubs.
- The Identifier `cannot add item to closed chest` branch is left out. The state's `services` is always a list, so it cannot fire.
- EventMachine.Spread: spreading a string or array payload is not modelled; the model copies no keys from it, where JavaScript copies its indexed elements. The Identifier and Profile event schemas all have `type: 'object'`, the default schema admits only `{}` and a `schema: null` event admits only `null`/`undefined`, so no payload those document types accept is a string or an array. A registry whose schema admits strings or arrays is outside this model.
- Numbers are integers, and property keys are strings. Prototype keys, symbols and floating-point values are not modelled.
- Two objects never compare `===`, because every compared object comes from a separately parsed record.
- Identifiers.IdentifierMachine: runs the corrected rule of Identifiers.js:126, which reads `event.service.id`. `IdentifierMachineAsWritten` is the type as written, `AsWrittenReplaysAlike` shows both replay every log alike, and the append lemmas are stated for both.
- AppAccount.Rebuild: runs the corrected line 78 of accounts/AppAccount.js, which pushes the ignored entry itself. The list as written is `IgnoredAsWritten`; `AcceptThenReplay` and `LoginLinkIgnoredByReplay` state what happens to it.
- Contracts.AckSignerResponse: as in the source, the responder id is appended without any check (the source marks this as a TODO). `AckUnknownResponderBreaksContract` and `AckSelfBreaksContract` show the consequence. No corrected guard is modelled, because the intended check is not evident.
- Profiles.Set: the source rewrites `undefined` to `null` in the caller's own `changes` object too. The model returns a new record and does not model that side effect on the caller.
- EventMachine.js defines only a static `set events` and an instance `get events`, so `this.constructor.events` in `_getEventSpec` would read `undefined`, and every append or replay through it would throw. The file is commented out; the model follows the evident design, in which the compiled registry is readable.
- Identifiers.WithoutId: a `null` element in the services list would make the source filter throw. The model's filter reads `undefined` instead, because validated states hold only objects.
- The `followupUrl` host derivation in AppAccount is dead code, since `followupUrl` is never set.
- `appUser()`, the session-request fetch and `rejectAccount` are left out. The first two are network calls, and the session-request list is a parameter. `rejectAccount` is an empty stub.
- `Profile.get(key)` reads `this.value`, which the event machine design does not define.
- Contracts.Replay: the source has no bound on splicing. The fuel argument bounds the number of splices, and running out is an error. `ExpandFuelMonotone` shows that fuel never changes a result that settles. `ReplaySettles` shows that acyclic references always settle, and `ReplaySettlesReached` needs that only of the logs the replay reaches.
- Concurrency is left out: each operation is atomic. The validate-then-append race between two writers is not modelled.
- A thrown `Error` is `Err(message)`. The wording of V8 TypeErrors is rendered as `TypeError: ...`.
- The `_ignoredEntries` key is absent while empty in the source. In the model it is an empty list.

## Findings

| source | as written | input that shows it | evidently intended | confidence | as-written member | corrected member |
|---|---|---|---|---|---|---|
| Contracts.js:89 | `if (this.length > 0)` reads a property a Contract does not have, so `undefined > 0` is false and "already offered" never fires | a contract log that already holds an `offered` entry, then `offerContract` again with a truthy offerer and contractUrl: a second offer is appended | refuse a second offer on a log that already has entries | not executed | Contracts.SecondOfferAcceptedAsWritten | Contracts.OfferContract |
| Identifiers.js:126 | the duplicate message reads `event.services.id`, but the payload key is `service`, so building the message throws a TypeError | services `[{id: 's1'}]`, then `serviceAdded` with `{service: {id: 's1'}}`: the rule throws `Cannot read properties of undefined (reading 'id')` | return `service already referenced by did document: s1` | not executed | Identifiers.DuplicateAddExample | Identifiers.ServiceAddedValidate |
| accounts/AppAccount.js:78 | `_ignoredEntries.push(entries)` pushes the whole ledger for each ignored entry | a ledger `[header, {event: 'Other'}]`: the ignored list becomes `[[header, {event: 'Other'}]]` | push the ignored `entry` itself | not executed | AppAccount.IgnoredPushesWholeLog | AppAccount.IgnoredAreUnrecognised |
