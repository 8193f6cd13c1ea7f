/** Hashes, signatures and event ids over decoded JSON (internal/crypto/crypto.go and
    internal/events/event.go). SHA-256, base64 and ed25519 are functions with stated laws. */
module Signing {
  import opened Wrappers
  import opened Json
  import opened Utf8
  import opened Canonical
  import opened CanonicalTheorems
  import opened Redaction

  datatype Primitives = Primitives(
    floats: Floats,
    hash: string -> string,
    base64: string -> string,
    base64Url: string -> string,
    unbase64: string -> Option<string>,
    publicKey: string -> string,
    sign: (string, string) -> string,
    verify: (string, string, string) -> bool)

  /** No two texts share a hash or an encoding, decoding undoes encoding, and a signature verifies. */
  ghost predicate Sound(p: Primitives) {
    && (forall a, b | p.hash(a) == p.hash(b) :: a == b)
    && (forall a, b | p.base64(a) == p.base64(b) :: a == b)
    && (forall a, b | p.base64Url(a) == p.base64Url(b) :: a == b)
    && (forall a :: p.unbase64(p.base64(a)) == Some(a))
    && (forall k, m :: p.verify(p.publicKey(k), m, p.sign(k, m)))
  }

  /** id is the key id, "ed25519:" and the version. */
  datatype SigningKey = SigningKey(id: string, private: string)

  datatype Outcome<+T> = Ok(value: T) | Failed | Panics

  ghost function CanonOf(p: Primitives, v: Json): Option<string> {
    if Printable(p.floats, v) then Some(Text(p.floats, v)) else None
  }

  method Canon(p: Primitives, v: Json) returns (r: Option<string>)
    ensures r == CanonOf(p, v)
  {
    var buf := new Buffer();
    var ok := buf.Encode(p.floats, v);
    if !ok {
      return None;
    }
    assert buf.bytes == Text(p.floats, v);
    return Some(buf.bytes);
  }

  const UNSIGNABLE := {"signatures", "unsigned"}

  /** The object whose canonical form is signed. A JSON null decodes to a nil map and is printed as
      null again. */
  function Signable(v: Json): Json {
    if v.Obj? then Obj(v.fields - UNSIGNABLE) else v
  }

  // ---- the signatures field ----

  /** map[string]map[string]string; None is a nil inner map. */
  type Signatures = map<string, Option<map<string, string>>>

  function Leaf(v: Json): string { if v.Str? then v.s else "" }

  function Inner(v: Json): Option<map<string, string>> {
    if v.Obj? then Some(map k | k in v.fields :: Leaf(v.fields[k])) else None
  }

  /** Decoding into a map that already holds entries; None is a nil map, which null leaves. Values of
      another shape are skipped over. */
  function Merge(into: Signatures, v: Json): Option<Signatures> {
    match v
    case Null => None
    case Obj(m) => Some(into + map e | e in m :: Inner(m[e]))
    case _ => Some(into)
  }

  /** Decoding reports no error. */
  predicate WellTyped(v: Json) {
    v.Null? || (v.Obj? && forall e | e in v.fields ::
      v.fields[e].Null? || (v.fields[e].Obj? && forall k | k in v.fields[e].fields ::
        v.fields[e].fields[k].Str? || v.fields[e].fields[k].Null?))
  }

  function SigsJson(m: Signatures): Json {
    Obj(map e | e in m :: match m[e] case None => Null case Some(i) => Obj(map k | k in i :: Str(i[k])))
  }

  /** signatures[entity][keyId] = sig, making the inner map when it is nil. */
  function Put(m: Signatures, entity: string, keyId: string, sig: string): Signatures {
    var inner := if entity in m && m[entity].Some? then m[entity].value else map[];
    m[entity := Some(inner[keyId := sig])]
  }

  /** The signature of (entity, keyId) an event carries. */
  function SigAt(v: Json, entity: string, keyId: string): Option<string> {
    if v.Obj? && "signatures" in v.fields && v.fields["signatures"].Obj?
       && entity in v.fields["signatures"].fields && v.fields["signatures"].fields[entity].Obj?
       && keyId in v.fields["signatures"].fields[entity].fields
         && v.fields["signatures"].fields[entity].fields[keyId].Str?
    then Some(v.fields["signatures"].fields[entity].fields[keyId].s) else None
  }

  // ---- signing and verifying ----

  ghost function SignatureOf(p: Primitives, key: SigningKey, v: Json): Option<string> {
    match CanonOf(p, Signable(v))
    case None => None
    case Some(m) => Some(p.base64(p.sign(key.private, m)))
  }

  /** SignedBytes. */
  method SignedBytes(p: Primitives, key: SigningKey, v: Json) returns (r: Option<string>)
    ensures r == if FieldsOf(v).None? then None else SignatureOf(p, key, v)
  {
    if FieldsOf(v).None? {
      return None;
    }
    var m := Canon(p, Signable(v));
    if m.None? {
      return None;
    }
    return Some(p.base64(p.sign(key.private, m.value)));
  }

  ghost function SignJsonOf(p: Primitives, entity: string, key: SigningKey, v: Json): Outcome<Json> {
    if FieldsOf(v).None? || SignatureOf(p, key, v).None? then Failed
    else if v.Null? then Panics
    else if "signatures" !in v.fields then
      Ok(Obj(v.fields["signatures" := SigsJson(Put(map[], entity, key.id, SignatureOf(p, key, v).value))]))
    else if !WellTyped(v.fields["signatures"]) then Failed
    else match Merge(map[], v.fields["signatures"])
      case None => Panics
      case Some(m) => Ok(Obj(v.fields["signatures" := SigsJson(Put(m, entity, key.id, SignatureOf(p, key, v).value))]))
  }

  method SignJSON(p: Primitives, entity: string, key: SigningKey, v: Json) returns (r: Outcome<Json>)
    ensures r == SignJsonOf(p, entity, key, v)
  {
    hide CanonOf, WellTyped, SigsJson, Put, Merge;
    var fields := FieldsOf(v);
    if fields.None? {
      return Failed;
    }
    var obj := fields.value;
    var saved := if "signatures" in obj then Some(obj["signatures"]) else None;
    var unsigned := if "unsigned" in obj then Some(obj["unsigned"]) else None;
    obj := obj - {"signatures"};
    obj := obj - {"unsigned"};
    assert obj == fields.value - UNSIGNABLE;
    var signable := Canon(p, if v.Null? then Null else Obj(obj));
    if signable.None? {
      return Failed;
    }
    var sig := p.base64(p.sign(key.private, signable.value));
    var signatures: Option<Signatures> := Some(map[]);
    if saved.Some? {
      if !WellTyped(saved.value) {
        return Failed;
      }
      signatures := Merge(map[], saved.value);
    }
    if signatures.None? || v.Null? {
      return Panics;
    }
    if unsigned.Some? {
      obj := obj["unsigned" := unsigned.value];
    }
    obj := obj["signatures" := SigsJson(Put(signatures.value, entity, key.id, sig))];
    assert obj == v.fields["signatures" := obj["signatures"]];
    return Ok(Obj(obj));
  }

  /** verifyBytes on a decoded signature. */
  ghost predicate VerifiesBytes(p: Primitives, pub: string, sig: string, v: Json) {
    CanonOf(p, Signable(v)).Some? && p.verify(pub, CanonOf(p, Signable(v)).value, sig)
  }

  ghost predicate VerifiesWith(p: Primitives, sig64: string, pub: string, v: Json) {
    FieldsOf(v).Some? && p.unbase64(sig64).Some? && VerifiesBytes(p, pub, p.unbase64(sig64).value, v)
  }

  ghost predicate Verifies(p: Primitives, entity: string, keyId: string, pub: string, v: Json) {
    v.Obj? && "signatures" in v.fields && WellTyped(v.fields["signatures"])
    && SigLeaf(v, entity, keyId).Some? && VerifiesWith(p, SigLeaf(v, entity, keyId).value, pub, v)
  }

  /** The decoded entry signatures[entity][keyId]; a null leaf decodes to "". */
  function SigLeaf(v: Json, entity: string, keyId: string): Option<string> {
    if v.Obj? && "signatures" in v.fields && v.fields["signatures"].Obj? && entity in v.fields["signatures"].fields
       && v.fields["signatures"].fields[entity].Obj? && keyId in v.fields["signatures"].fields[entity].fields
    then Some(Leaf(v.fields["signatures"].fields[entity].fields[keyId])) else None
  }

  method VerifyBytes(p: Primitives, pub: string, sig: string, v: Json) returns (ok: bool)
    ensures ok == VerifiesBytes(p, pub, sig, v)
  {
    var m := Canon(p, Signable(v));
    return m.Some? && p.verify(pub, m.value, sig);
  }

  method VerifyJSON(p: Primitives, entity: string, keyId: string, pub: string, v: Json) returns (ok: bool)
    ensures ok == Verifies(p, entity, keyId, pub, v)
  {
    if !v.Obj? || "signatures" !in v.fields || !WellTyped(v.fields["signatures"]) {
      return false;
    }
    var sig64 := SigLeaf(v, entity, keyId);
    if sig64.None? {
      return false;
    }
    var sig := p.unbase64(sig64.value);
    if sig.None? {
      return false;
    }
    ok := VerifyBytes(p, pub, sig.value, v);
  }

  method VerifyJSONWith(p: Primitives, sig64: string, pub: string, v: Json) returns (ok: bool)
    ensures ok == VerifiesWith(p, sig64, pub, v)
  {
    var sig := p.unbase64(sig64);
    if sig.None? || FieldsOf(v).None? {
      return false;
    }
    ok := VerifyBytes(p, pub, sig.value, v);
  }

  // ---- hashes and ids ----

  function Unhashed(v: Json): Json {
    if v.Obj? then Obj(v.fields - {"unsigned", "signatures", "hashes"}) else v
  }

  ghost function ContentHashOf(p: Primitives, v: Json): Option<string> {
    if FieldsOf(v).None? then None else
      match CanonOf(p, Unhashed(v))
      case None => None
      case Some(t) => Some(p.base64(p.hash(t)))
  }

  method ContentHash(p: Primitives, v: Json) returns (r: Option<string>)
    ensures r == ContentHashOf(p, v)
  {
    var fields := FieldsOf(v);
    if fields.None? {
      return None;
    }
    var obj := fields.value - {"unsigned"};
    obj := obj - {"signatures"};
    obj := obj - {"hashes"};
    assert obj == fields.value - {"unsigned", "signatures", "hashes"};
    var t := Canon(p, if v.Null? then Null else Obj(obj));
    return if t.None? then None else Some(p.base64(p.hash(t.value)));
  }

  /** What the reference hash covers: the redacted event without its signatures. */
  function Referenced(r: Rules, full: Fields): Json {
    Signable(Obj(Redacted(r, full)))
  }

  ghost function ReferenceHashOf(p: Primitives, r: Rules, v: Json): Option<string> {
    match FieldsOf(v)
    case None => None
    case Some(full) =>
      match CanonOf(p, Referenced(r, full))
      case None => None
      case Some(t) => Some(p.hash(t))
  }

  method ReferenceHash(p: Primitives, r: Rules, v: Json) returns (h: Option<string>)
    ensures h == ReferenceHashOf(p, r, v)
  {
    var redacted := Redact(r, v);
    if redacted.None? {
      return None;
    }
    var obj := redacted.value - {"signatures"};
    obj := obj - {"unsigned"};
    assert obj == redacted.value - UNSIGNABLE;
    var t := Canon(p, Obj(obj));
    return if t.None? then None else Some(p.hash(t.value));
  }

  /** Event ids from room version 3 on. */
  ghost function HashedId(p: Primitives, r: Rules, v: Json): Option<string>
    requires !r.idFormat.Legacy?
  {
    match ReferenceHashOf(p, r, v)
    case None => None
    case Some(h) => Some("$" + (if r.idFormat.Sha256? then p.base64(h) else p.base64Url(h)))
  }

  /** EventIDFromRaw, from room version 3 on. */
  method EventIDFromRaw(p: Primitives, r: Rules, v: Json) returns (id: Option<string>)
    requires !r.idFormat.Legacy?
    ensures id == HashedId(p, r, v)
  {
    var h := ReferenceHash(p, r, v);
    if h.None? {
      return None;
    }
    match r.idFormat
    case Sha256 => return Some("$" + p.base64(h.value));
    case Sha256UrlSafe => return Some("$" + p.base64Url(h.value));
  }

  ghost function IdOf(p: Primitives, r: Rules, v: Json): string {
    if r.idFormat.Legacy? then
      if v.Obj? && "event_id" in v.fields && v.fields["event_id"].Str? then v.fields["event_id"].s else ""
    else match HashedId(p, r, v) case None => "" case Some(id) => id
  }

  /** A parsed event with its cached id. */
  class Event {
    const raw: Json
    const rules: Rules
    var eventId: string

    constructor (v: Json, r: Rules)
      ensures raw == v && rules == r && eventId == ""
    {
      raw, rules, eventId := v, r, "";
    }

    /** Computed once: later calls return the cached id, also one that was set. */
    method EventID(p: Primitives) returns (id: string)
      modifies this`eventId
      ensures id == if old(eventId) != "" then old(eventId) else IdOf(p, rules, raw)
      ensures eventId == id
    {
      if eventId != "" {
        return eventId;
      }
      if rules.idFormat.Legacy? {
        eventId := if raw.Obj? && "event_id" in raw.fields && raw.fields["event_id"].Str?
          then raw.fields["event_id"].s else "";
      } else {
        var h := EventIDFromRaw(p, rules, raw);
        if h.Some? { eventId := h.value; }
      }
      return eventId;
    }

    method SetEventID(id: string)
      modifies this`eventId
      ensures eventId == id
    {
      eventId := id;
    }

    method RedactedCopy() returns (out: Option<Json>)
      ensures out == match FieldsOf(raw) case None => None case Some(full) => Some(Obj(Redacted(rules, full)))
    {
      var m := Redact(rules, raw);
      return if m.None? then None else Some(Obj(m.value));
    }
  }
}
