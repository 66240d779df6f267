/** The DID codec and DID document builder of Identifiers.js. A public key
    becomes `did:key:z6mk` followed by the base58 text of the raw key bytes
    (no multicodec header, lower-case `mk`); the document is shaped after
    W3C DID Core 1.0 (identifier syntax in section 3.1, verification
    relationships in section 5.3, services in section 5.4) but lists services
    under `services`. The base58 codec is an external library and is a
    parameter here. */
module Did {
  import opened Outcome
  import opened Js

  type Byte = b: int | 0 <= b < 256

  /** `base58.encode` / `base58.decode`; decoding may fail. */
  datatype KeyCodec = KeyCodec(encode: seq<Byte> -> string, decode: string -> Option<seq<Byte>>)

  /** The base58 alphabet: digits and letters except `0`, `O`, `I` and `l`. */
  predicate Base58Digit(ch: char) {
    && (('0' <= ch <= '9') || ('A' <= ch <= 'Z') || ('a' <= ch <= 'z'))
    && ch != '0' && ch != 'O' && ch != 'I' && ch != 'l'
  }

  /** Decoding undoes encoding. */
  ghost predicate RoundTrips(c: KeyCodec) {
    forall k :: c.decode(c.encode(k)) == Some(k)
  }

  /** Encoding only emits base58 digits. */
  ghost predicate EmitsBase58(c: KeyCodec) {
    forall k, i :: 0 <= i < |c.encode(k)| ==> Base58Digit(c.encode(k)[i])
  }

  const DidPrefix := "did:key:z6mk"

  /** `publicKeyToDid(publicKey)` (the key is taken as raw bytes). */
  function PublicKeyToDid(c: KeyCodec, key: seq<Byte>): (did: string)
    ensures |did| >= |DidPrefix| && did[..|DidPrefix|] == DidPrefix
    ensures did[|DidPrefix|..] == c.encode(key)
  {
    DidPrefix + c.encode(key)
  }

  /** The characters `.` does not match in a JavaScript regular expression. */
  predicate LineTerminator(ch: char) {
    ch == '\n' || ch == '\r' || ch == '\U{2028}' || ch == '\U{2029}'
  }

  function FirstColon(s: string): (r: Option<nat>)
    ensures r.Some? ==> r.value < |s| && s[r.value] == ':' && forall j :: 0 <= j < r.value ==> s[j] != ':'
    ensures r.None? ==> forall j :: 0 <= j < |s| ==> s[j] != ':'
  {
    if |s| == 0 then None
    else if s[0] == ':' then Some(0)
    else match FirstColon(s[1..]) case None => None case Some(i) => Some(i + 1)
  }

  /** The two captures of `/^did:([^:]+):(.+)$/` on well-shaped input. */
  predicate ValidParts(methodName: string, id: string) {
    && |methodName| > 0 && (forall j :: 0 <= j < |methodName| ==> methodName[j] != ':')
    && |id| > 0 && (forall j :: 0 <= j < |id| ==> !LineTerminator(id[j]))
  }

  /** `did.match(/^did:([^:]+):(.+)$/)`: the method is the text up to the
      first colon after `did:`, the id is everything after it. */
  function ParseDid(did: string): (r: Option<(string, string)>)
    ensures r.Some? ==> ValidParts(r.value.0, r.value.1) && did == "did:" + r.value.0 + ":" + r.value.1
  {
    if |did| < 4 || did[..4] != "did:" then None
    else
      var rest := did[4..];
      match FirstColon(rest)
      case None => None
      case Some(i) =>
        var methodName := rest[..i];
        var id := rest[i + 1..];
        if ValidParts(methodName, id) then
          assert did == "did:" + methodName + ":" + id;
          Some((methodName, id))
        else None
  }

  /** Every well-shaped identifier is matched, with its own method name and id. */
  lemma ParseDidComplete(methodName: string, id: string)
    requires ValidParts(methodName, id)
    ensures ParseDid("did:" + methodName + ":" + id) == Some((methodName, id))
  {
    var did := "did:" + methodName + ":" + id;
    var rest := did[4..];
    assert rest == methodName + ":" + id;
    assert rest[|methodName|] == ':';
    assert forall j :: 0 <= j < |methodName| ==> rest[j] == methodName[j];
    assert rest[..|methodName|] == methodName;
    assert rest[|methodName| + 1..] == id;
  }

  /** `didToPublicKey(did)`: a malformed identifier, a `did:key` id not
      starting `z6mk` and any `did:jlinx` identifier throw; another method
      yields `undefined` (`None`); a `did:key` id yields the decoded key. */
  function DidToPublicKey(c: KeyCodec, did: string): (r: Result<Option<seq<Byte>>>)
    ensures ParseDid(did).None? ==> r == Err("invalid did \"" + did + "\"")
    ensures ParseDid(did).Some? && ParseDid(did).value.0 == "jlinx" ==>
      r == Err("did:jlinx support not done yet")
    ensures ParseDid(did).Some? && ParseDid(did).value.0 !in {"key", "jlinx"} ==> r == Ok(None)
    ensures ParseDid(did).Some? && ParseDid(did).value.0 == "key" && !(|did| >= |DidPrefix| && did[..|DidPrefix|] == DidPrefix) ==>
      r == Err("invalid key encoding format \"" + did + "\"")
    ensures r.Ok? && r.value.Some? ==>
      && |did| >= |DidPrefix| && did[..|DidPrefix|] == DidPrefix
      && c.decode(did[|DidPrefix|..]) == Some(r.value.value)
  {
    match ParseDid(did)
    case None => Err("invalid did \"" + did + "\"")
    case Some((methodName, id)) =>
      if methodName == "key" then
        assert did == "did:key:" + id;
        if !(|id| >= 4 && id[..4] == "z6mk") then
          Err("invalid key encoding format \"" + did + "\"")
        else
          KeyDidSplits(did, id);
          match c.decode(id[4..])
          case None => Err("invalid base58 text")
          case Some(key) => Ok(Some(key))
      else if methodName == "jlinx" then
        Err("did:jlinx support not done yet")
      else
        Ok(None)
  }

  /** `did:key:` followed by an id starting `z6mk` carries the key prefix,
      and what follows it is the rest of the id. */
  lemma KeyDidSplits(did: string, id: string)
    requires did == "did:key:" + id && |id| >= 4 && id[..4] == "z6mk"
    ensures |did| >= |DidPrefix| && did[..|DidPrefix|] == DidPrefix
    ensures did[|DidPrefix|..] == id[4..]
  {
    assert did[..|DidPrefix|] == DidPrefix;
    assert did[|DidPrefix|..] == id[4..];
  }

  lemma Base58HasNoSeparators(s: string)
    requires forall i :: 0 <= i < |s| ==> Base58Digit(s[i])
    ensures forall i :: 0 <= i < |s| ==> s[i] != ':' && !LineTerminator(s[i])
  {
  }

  /** Decoding the identifier of a key gives back that key. */
  lemma DidRoundTrip(c: KeyCodec, key: seq<Byte>)
    requires RoundTrips(c) && EmitsBase58(c)
    ensures DidToPublicKey(c, PublicKeyToDid(c, key)) == Ok(Some(key))
  {
    KeyDidDecodes(c, key, c.encode(key));
  }

  /** The round trip for one key, given its encoding's two properties. */
  lemma KeyDidDecodes(c: KeyCodec, key: seq<Byte>, e: string)
    requires e == c.encode(key) && c.decode(e) == Some(key)
    requires forall i :: 0 <= i < |e| ==> Base58Digit(e[i])
    ensures DidToPublicKey(c, PublicKeyToDid(c, key)) == Ok(Some(key))
  {
    Base58HasNoSeparators(e);
    var id := "z6mk" + e;
    assert forall j :: 0 <= j < |id| ==> !LineTerminator(id[j]) by {
      forall j | 0 <= j < |id| ensures !LineTerminator(id[j]) {
        if j >= 4 { assert id[j] == e[j - 4]; }
      }
    }
    ParseDidComplete("key", id);
    var did := PublicKeyToDid(c, key);
    assert did == "did:" + "key" + ":" + id;
    assert ParseDid(did) == Some(("key", id));
    assert id[..4] == "z6mk" && id[4..] == e;
  }

  /** An identifier in the did:key method's own `z6Mk` form is refused. */
  lemma UpperCaseMultibaseRefused(c: KeyCodec, s: string)
    requires forall i :: 0 <= i < |s| ==> Base58Digit(s[i])
    ensures DidToPublicKey(c, "did:key:z6Mk" + s).Err?
  {
    Base58HasNoSeparators(s);
    var id := "z6Mk" + s;
    assert forall j :: 0 <= j < |id| ==> !LineTerminator(id[j]) by {
      forall j | 0 <= j < |id| ensures !LineTerminator(id[j]) {
        if j >= 4 { assert id[j] == s[j - 4]; }
      }
    }
    ParseDidComplete("key", id);
    assert "did:key:z6Mk" + s == "did:" + "key" + ":" + id;
    assert id[..4][2] != "z6mk"[2];
  }

  predicate OccursAt(s: string, sep: string, p: nat) {
    p + |sep| <= |s| && s[p..p + |sep|] == sep
  }

  /** Where `sep` first occurs in `s` at or after `from`. */
  function IndexOf(s: string, sep: string, from: nat): (r: Option<nat>)
    requires |sep| > 0
    ensures r.Some? ==> from <= r.value && OccursAt(s, sep, r.value)
    ensures r.Some? ==> forall p :: from <= p < r.value ==> !OccursAt(s, sep, p)
    ensures r.None? ==> forall p :: from <= p ==> !OccursAt(s, sep, p)
    decreases |s| - from
  {
    if from + |sep| > |s| then None
    else if s[from..from + |sep|] == sep then Some(from)
    else IndexOf(s, sep, from + 1)
  }

  /** `s.split(sep)[1]`, spliced into a template literal: the text between
      the first and second occurrence of `sep`, or `"undefined"` when `sep`
      does not occur. */
  function SecondPiece(s: string, sep: string): string
    requires |sep| > 0
  {
    match IndexOf(s, sep, 0)
    case None => "undefined"
    case Some(i) =>
      match IndexOf(s, sep, i + |sep|)
      case None => s[i + |sep|..]
      case Some(j) => s[i + |sep|..j]
  }

  /** With a base58 codec, the text after the prefix is the encoded key. */
  lemma PrefixSplitsOffEncoding(c: KeyCodec, key: seq<Byte>)
    ensures EmitsBase58(c) ==> SecondPiece(PublicKeyToDid(c, key), DidPrefix) == c.encode(key)
  {
    if !EmitsBase58(c) { return; }
    var did := PublicKeyToDid(c, key);
    var e := c.encode(key);
    Base58HasNoSeparators(e);
    assert did[0..|DidPrefix|] == DidPrefix;
    assert IndexOf(did, DidPrefix, 0) == Some(0);
    forall p: nat | |DidPrefix| <= p ensures !OccursAt(did, DidPrefix, p) {
      if p + |DidPrefix| <= |did| {
        assert did[p..p + |DidPrefix|][3] == did[p + 3];
        assert did[p + 3] == e[p + 3 - |DidPrefix|];
      }
    }
    assert IndexOf(did, DidPrefix, |DidPrefix|).None?;
  }

  datatype VerificationMethod = VerificationMethod(id: string, typ: string, controller: string, publicKeyMultibase: string)

  datatype DidDocument = DidDocument(
    context: seq<string>,
    id: string,
    verificationMethod: seq<VerificationMethod>,
    authentication: seq<string>,
    assertionMethod: seq<string>,
    capabilityDelegation: seq<string>,
    capabilityInvocation: seq<string>,
    keyAgreement: seq<VerificationMethod>,
    services: Option<Value>)

  const DidContexts := [
    "https://www.w3.org/ns/did/v1",
    "https://w3id.org/security/suites/ed25519-2020/v1",
    "https://w3id.org/security/suites/x25519-2020/v1"
  ]

  /** `signingKeyToDidDocument(publicKey, opts)`: one key, referenced as
      `did#mb` from every verification relationship, where `mb` is the base58
      text of the key; `services` is copied exactly when `opts.services` is
      truthy (an empty list included). */
  function SigningKeyToDidDocument(c: KeyCodec, key: seq<Byte>, opts: Record): (doc: DidDocument)
    ensures doc.id == PublicKeyToDid(c, key)
    ensures doc.context == DidContexts
    ensures EmitsBase58(c) ==>
      var keyRef := doc.id + "#" + c.encode(key);
      && doc.authentication == [keyRef]
      && doc.assertionMethod == [keyRef]
      && doc.capabilityDelegation == [keyRef]
      && doc.capabilityInvocation == [keyRef]
      && doc.verificationMethod == [VerificationMethod(keyRef, "Ed25519VerificationKey2020", doc.id, c.encode(key))]
      && doc.keyAgreement == [VerificationMethod(keyRef, "X25519KeyAgreementKey2020", doc.id, c.encode(key))]
    ensures doc.services.Some? <==> Truthy(Get(opts, "services"))
    ensures doc.services.Some? ==> doc.services.value == Get(opts, "services")
  {
    var did := PublicKeyToDid(c, key);
    var mb := SecondPiece(did, DidPrefix);
    PrefixSplitsOffEncoding(c, key);
    var keyRef := did + "#" + mb;
    DidDocument(
      DidContexts,
      did,
      [VerificationMethod(keyRef, "Ed25519VerificationKey2020", did, mb)],
      [keyRef],
      [keyRef],
      [keyRef],
      [keyRef],
      [VerificationMethod(keyRef, "X25519KeyAgreementKey2020", did, mb)],
      if Truthy(Get(opts, "services")) then Some(Get(opts, "services")) else None)
  }
}
