/** Building and signing events (internal/events/builder.go), and what the pipeline guarantees:
    ids, hashes and signatures survive redaction and every further signature. */
module Events {
  import opened Wrappers
  import opened Decimal
  import opened Json
  import opened Utf8
  import opened Canonical
  import opened CanonicalTheorems
  import opened Redaction
  import opened Signing

  // ---- signing the redacted form ----

  ghost function SignRedactedOf(p: Primitives, server: string, key: SigningKey, r: Rules, v: Json): Outcome<Json> {
    match FieldsOf(v)
    case None => Failed
    case Some(full) =>
      match SignatureOf(p, key, Obj(Redacted(r, full)))
      case None => Failed
      case Some(sig) =>
        if v.Null? then Panics
        else if "signatures" !in full then Ok(Obj(full["signatures" := SigsJson(Put(map[], server, key.id, sig))]))
        else match Merge(Put(map[], server, key.id, sig), full["signatures"])
          case None => Panics
          case Some(m) => Ok(Obj(full["signatures" := SigsJson(Put(m, server, key.id, sig))]))
  }

  method SignRedacted(p: Primitives, server: string, key: SigningKey, r: Rules, v: Json) returns (out: Outcome<Json>)
    ensures out == SignRedactedOf(p, server, key, r, v)
  {
    hide SignatureOf, Redacted, SigsJson, Put, Merge;
    var redacted := Redact(r, v);
    if redacted.None? {
      return Failed;
    }
    var sig := SignedBytes(p, key, Obj(redacted.value));
    if sig.None? {
      return Failed;
    }
    if v.Null? {
      return Panics;
    }
    var signatures: Option<Signatures> := Some(Put(map[], server, key.id, sig.value));
    if "signatures" in v.fields {
      signatures := Merge(signatures.value, v.fields["signatures"]);
      if signatures.None? {
        return Panics;
      }
      signatures := Some(Put(signatures.value, server, key.id, sig.value));
    }
    return Ok(Obj(v.fields["signatures" := SigsJson(signatures.value)]));
  }

  // ---- signatures do not change what is signed, hashed or referenced ----

  lemma SignedFormStays(r: Rules, f: Fields, x: Json)
    ensures Signable(Obj(Redacted(r, f["signatures" := x]))) == Signable(Obj(Redacted(r, f)))
    ensures Unhashed(Obj(f["signatures" := x])) == Unhashed(Obj(f))
  {
    assert "signatures" in TopLevelKeep(r);
    KeptFieldPasses(r, f, "signatures", x);
    hide Redacted;
    assert Redacted(r, f)["signatures" := x] - UNSIGNABLE == Redacted(r, f) - UNSIGNABLE;
    var no := {"unsigned", "signatures", "hashes"};
    assert f["signatures" := x] - no == f - no;
  }

  lemma UnsignedStays(r: Rules, f: Fields, x: Json)
    ensures Redacted(r, f["unsigned" := x]) == Redacted(r, f)
    ensures Unhashed(Obj(f["unsigned" := x])) == Unhashed(Obj(f))
  {
    assert "unsigned" !in TopLevelKeep(r);
    DroppedKeysDoNotMatter(r, f, "unsigned", x);
    var no := {"unsigned", "signatures", "hashes"};
    assert f["unsigned" := x] - no == f - no;
  }

  lemma EventIdField(r: Rules, f: Fields, x: Json)
    ensures var g := Redacted(r, f);
      ("event_id" in g <==> "event_id" in f) && ("event_id" in f ==> g["event_id"] == f["event_id"])
  {
  }

  /** The id of an event, in every room version, is unchanged by redacting it, by replacing its
      signatures and by replacing its unsigned data. */
  lemma IdInvariant(p: Primitives, r: Rules, f: Fields, x: Json)
    ensures IdOf(p, r, Obj(Redacted(r, f))) == IdOf(p, r, Obj(f))
    ensures IdOf(p, r, Obj(f["signatures" := x])) == IdOf(p, r, Obj(f))
    ensures IdOf(p, r, Obj(f["unsigned" := x])) == IdOf(p, r, Obj(f))
  {
    RedactTwice(r, f);
    SignedFormStays(r, f, x);
    UnsignedStays(r, f, x);
    EventIdField(r, f, x);
    hide Redacted, CanonOf;
    assert ReferenceHashOf(p, r, Obj(Redacted(r, f))) == ReferenceHashOf(p, r, Obj(f));
    assert ReferenceHashOf(p, r, Obj(f["signatures" := x])) == ReferenceHashOf(p, r, Obj(f));
    assert ReferenceHashOf(p, r, Obj(f["unsigned" := x])) == ReferenceHashOf(p, r, Obj(f));
    hide ReferenceHashOf;
  }

  // ---- equal ids mean equal events ----

  lemma {:induction false} AsciiValid(s: string)
    requires forall i | 0 <= i < |s| :: s[i] as int < 0x80
    ensures Valid(s)
    decreases |s|
  {
    if s != "" {
      assert RuneSize(s) == 1;
      AsciiValid(s[1..]);
    }
  }

  lemma KnownKeysValid()
    ensures Valid("content") && Valid("signed") && Valid("third_party_invite") && Valid("m.relates_to")
  {
    hide Valid;
    AsciiValid("content");
    AsciiValid("signed");
    AsciiValid("third_party_invite");
    AsciiValid("m.relates_to");
  }

  lemma RestrictWellFormed(m: Fields, keep: set<string>)
    requires WellFormed(Obj(m))
    ensures WellFormed(Obj(Restrict(m, keep)))
  {
  }

  lemma AddWellFormed(m: Fields, k: string, v: Json)
    requires WellFormed(Obj(m)) && Valid(k) && WellFormed(v)
    ensures WellFormed(Obj(m[k := v]))
  {
  }

  lemma FieldWellFormed(m: Fields, k: string)
    requires WellFormed(Obj(m)) && k in m
    ensures WellFormed(m[k])
  {
  }

  lemma PrunedWellFormed(r: Rules, typ: string, content: Fields)
    requires WellFormed(Obj(content))
    ensures WellFormed(Obj(Pruned(r, typ, content)))
  {
    hide WellFormed, ContentKeep, Valid;
    KnownKeysValid();
    var p := Restrict(content, ContentKeep(r, typ).0);
    RestrictWellFormed(content, ContentKeep(r, typ).0);
    if "third_party_invite" in content && Signed(content["third_party_invite"]).Some? {
      var tpi := content["third_party_invite"];
      FieldWellFormed(content, "third_party_invite");
      FieldWellFormed(tpi.fields, "signed");
      EmptyWellFormed();
      AddWellFormed(map[], "signed", tpi.fields["signed"]);
      assert map["signed" := tpi.fields["signed"]] == map[]["signed" := tpi.fields["signed"]];
      AddWellFormed(p, "third_party_invite", Signed(tpi).value);
    }
    var q := WithSigned(r, typ, content, p);
    if "m.relates_to" in content && RedactedRelation(content["m.relates_to"]).Some? {
      FieldWellFormed(content, "m.relates_to");
      RestrictWellFormed(content["m.relates_to"].fields, {"rel_type", "event_id"});
      AddWellFormed(q, "m.relates_to", RedactedRelation(content["m.relates_to"]).value);
    }
  }

  lemma EmptyWellFormed()
    ensures WellFormed(Obj(map[]))
  {
  }

  lemma RedactedWellFormed(r: Rules, f: Fields)
    requires WellFormed(Obj(f))
    ensures WellFormed(Obj(Redacted(r, f))) && WellFormed(Referenced(r, f))
  {
    hide WellFormed, ContentKeep, Valid, TopLevelKeep, Pruned;
    KnownKeysValid();
    EmptyWellFormed();
    RestrictWellFormed(f, TopLevelKeep(r));
    if "content" in f {
      FieldWellFormed(f, "content");
      if f["content"].Obj? { PrunedWellFormed(r, TypeOf(f), f["content"].fields); }
    }
    var c := if "content" in f then RedactedContent(r, TypeOf(f), f["content"]) else Obj(map[]);
    AddWellFormed(Restrict(f, TopLevelKeep(r)), "content", c);
    var g := Redacted(r, f);
    hide Redacted;
    RestrictWellFormed(g, g.Keys - UNSIGNABLE);
    assert g - UNSIGNABLE == Restrict(g, g.Keys - UNSIGNABLE);
  }

  /** From room version 3 on two events share an id exactly when their redacted, signature-free forms
      are equal, numbers compared by value. */
  lemma IdExactly(p: Primitives, r: Rules, f: Fields, g: Fields)
    requires Sound(p) && !r.idFormat.Legacy? && WellFormed(Obj(f)) && WellFormed(Obj(g))
    requires Printable(p.floats, Referenced(r, f)) && Printable(p.floats, Referenced(r, g))
    ensures HashedId(p, r, Obj(f)).Some? && HashedId(p, r, Obj(g)).Some?
    ensures HashedId(p, r, Obj(f)) == HashedId(p, r, Obj(g)) <==>
      Norm(p.floats, Referenced(r, f)) == Norm(p.floats, Referenced(r, g))
  {
    RedactedWellFormed(r, f);
    RedactedWellFormed(r, g);
    Injective(p.floats, Referenced(r, f), Referenced(r, g));
    HashedIds(p, r, f);
    HashedIds(p, r, g);
    hide Printable, WellFormed, Referenced, Text, Norm, Sound, HashedId;
    HashedIdEqual(p, Text(p.floats, Referenced(r, f)), Text(p.floats, Referenced(r, g)));
  }

  lemma HashedIds(p: Primitives, r: Rules, f: Fields)
    requires !r.idFormat.Legacy? && Printable(p.floats, Referenced(r, f))
    ensures var h := p.hash(Text(p.floats, Referenced(r, f)));
      HashedId(p, r, Obj(f)) == Some("$" + (if r.idFormat.Sha256? then p.base64(h) else p.base64Url(h)))
  {
    hide Printable, Referenced, Text;
  }

  lemma HashedIdEqual(p: Primitives, a: string, b: string)
    requires Sound(p)
    ensures "$" + p.base64(p.hash(a)) == "$" + p.base64(p.hash(b)) <==> a == b
    ensures "$" + p.base64Url(p.hash(a)) == "$" + p.base64Url(p.hash(b)) <==> a == b
  {
    TaggedEqual(p.base64(p.hash(a)), p.base64(p.hash(b)));
    TaggedEqual(p.base64Url(p.hash(a)), p.base64Url(p.hash(b)));
  }

  lemma TaggedEqual(a: string, b: string)
    ensures "$" + a == "$" + b <==> a == b
  {
    assert ("$" + a)[1..] == a && ("$" + b)[1..] == b;
  }

  // ---- any number of signatures ----

  function SigIn(m: Signatures, e: string, k: string): Option<string> {
    if e in m && m[e].Some? && k in m[e].value then Some(m[e].value[k]) else None
  }

  lemma SigsJsonReads(f: Fields, m: Signatures, e: string, k: string)
    ensures SigAt(Obj(f["signatures" := SigsJson(m)]), e, k) == SigIn(m, e, k)
    ensures SigLeaf(Obj(f["signatures" := SigsJson(m)]), e, k) == SigIn(m, e, k)
    ensures WellTyped(SigsJson(m)) && !SigsJson(m).Null?
  {
  }

  lemma MergeKeeps(into: Signatures, f: Fields, e: string, k: string)
    requires SigAt(Obj(f), e, k).Some?
    ensures Merge(into, f["signatures"]).Some? && SigIn(Merge(into, f["signatures"]).value, e, k) == SigAt(Obj(f), e, k)
  {
  }

  lemma PutReads(m: Signatures, e: string, k: string, sig: string, e2: string, k2: string)
    ensures SigIn(Put(m, e, k, sig), e2, k2) == if (e2, k2) == (e, k) then Some(sig) else SigIn(m, e2, k2)
  {
  }

  /** The redacted form has a canonical text. */
  ghost predicate CanSign(p: Primitives, r: Rules, v: Json) {
    v.Obj? && CanonOf(p, Referenced(r, v.fields)).Some?
  }

  ghost function RedactedSignature(p: Primitives, r: Rules, key: SigningKey, v: Json): string
    requires CanSign(p, r, v)
  {
    p.base64(p.sign(key.private, CanonOf(p, Referenced(r, v.fields)).value))
  }

  /** Signing succeeds exactly on objects whose redacted form prints and whose signatures are not a
      JSON null; a null there, or for the whole event, makes Go write to a nil map. */
  lemma SignsExactly(p: Primitives, server: string, key: SigningKey, r: Rules, v: Json)
    ensures SignRedactedOf(p, server, key, r, v).Ok? <==>
      CanSign(p, r, v) && ("signatures" in v.fields ==> !v.fields["signatures"].Null?)
    ensures SignRedactedOf(p, server, key, r, v).Panics? <==>
      || (v.Null? && CanonOf(p, Referenced(r, map[])).Some?)
      || (CanSign(p, r, v) && "signatures" in v.fields && v.fields["signatures"].Null?)
  {
    hide CanonOf, Redacted, SigsJson, Put;
  }

  /** One more signature: it is there, every other one still is, and what is signed, hashed and
      identified does not change. */
  lemma SignRedactedAdds(p: Primitives, server: string, key: SigningKey, r: Rules, v: Json)
    requires SignRedactedOf(p, server, key, r, v).Ok?
    ensures CanSign(p, r, v)
    ensures var w := SignRedactedOf(p, server, key, r, v).value;
      && CanSign(p, r, w) && Referenced(r, w.fields) == Referenced(r, v.fields)
      && "signatures" in w.fields && WellTyped(w.fields["signatures"]) && !w.fields["signatures"].Null?
      && SigAt(w, server, key.id) == Some(RedactedSignature(p, r, key, v))
      && (forall e, k | (e, k) != (server, key.id) && SigAt(v, e, k).Some? :: SigAt(w, e, k) == SigAt(v, e, k))
      && ContentHashOf(p, w) == ContentHashOf(p, v) && IdOf(p, r, w) == IdOf(p, r, v)
      && (forall k | k != "signatures" :: k in w.fields <==> k in v.fields)
      && (forall k | k != "signatures" && k in v.fields :: w.fields[k] == v.fields[k])
  {
    SignsExactly(p, server, key, r, v);
    hide CanonOf, Redacted, SigsJson, Put, WellTyped, IdOf, SigAt, SigIn;
    var f, w := v.fields, SignRedactedOf(p, server, key, r, v).value;
    var sig := RedactedSignature(p, r, key, v);
    assert SignatureOf(p, key, Obj(Redacted(r, f))) == Some(sig);
    var into := Put(map[], server, key.id, sig);
    var m := if "signatures" in f then Put(Merge(into, f["signatures"]).value, server, key.id, sig) else into;
    assert w == Obj(f["signatures" := SigsJson(m)]);
    SignedFormStays(r, f, SigsJson(m));
    IdInvariant(p, r, f, SigsJson(m));
    SigsJsonReads(f, m, server, key.id);
    PutReads(if "signatures" in f then Merge(into, f["signatures"]).value else map[],
      server, key.id, sig, server, key.id);
    forall e, k | (e, k) != (server, key.id) && SigAt(v, e, k).Some? ensures SigAt(w, e, k) == SigAt(v, e, k) {
      SignedBefore(v, e, k);
      MergeKeeps(into, f, e, k);
      SigsJsonReads(f, m, e, k);
      PutReads(Merge(into, f["signatures"]).value, server, key.id, sig, e, k);
    }
  }

  lemma SignedBefore(v: Json, e: string, k: string)
    requires SigAt(v, e, k).Some?
    ensures v.Obj? && "signatures" in v.fields
  {
  }

  datatype Signer = Signer(server: string, key: SigningKey)

  ghost function SignAll(p: Primitives, r: Rules, v: Json, signers: seq<Signer>): Outcome<Json> {
    if signers == [] then Ok(v) else
      match SignAll(p, r, v, signers[..|signers| - 1])
      case Ok(w) => SignRedactedOf(p, signers[|signers| - 1].server, signers[|signers| - 1].key, r, w)
      case other => other
  }

  /** The signer's entry is the signature over the redacted form. */
  ghost predicate CarriesSignature(p: Primitives, r: Rules, w: Json, s: Signer) {
    CanSign(p, r, w) && SigAt(w, s.server, s.key.id) == Some(RedactedSignature(p, r, s.key, w))
  }

  /** No later signer uses the same server and key id. */
  predicate LastUse(signers: seq<Signer>, i: nat)
    requires i < |signers|
  {
    forall j | i < j < |signers| :: (signers[j].server, signers[j].key.id) != (signers[i].server, signers[i].key.id)
  }

  lemma {:induction false} AllSigned(p: Primitives, r: Rules, v: Json, signers: seq<Signer>)
    requires SignAll(p, r, v, signers).Ok?
    ensures var w := SignAll(p, r, v, signers).value;
      && (forall i | 0 <= i < |signers| && LastUse(signers, i) :: CarriesSignature(p, r, w, signers[i]))
      && (signers != [] ==> w.Obj? && "signatures" in w.fields && WellTyped(w.fields["signatures"]))
      && (forall e, k | SigAt(v, e, k).Some?
        && (forall i | 0 <= i < |signers| :: (signers[i].server, signers[i].key.id) != (e, k)) ::
            SigAt(w, e, k) == SigAt(v, e, k))
      && ContentHashOf(p, w) == ContentHashOf(p, v) && IdOf(p, r, w) == IdOf(p, r, v)
    decreases |signers|
  {
    hide CanonOf, Redacted, SigAt, WellTyped, IdOf, ContentHashOf, SignRedactedOf;
    if signers != [] {
      var init, s := signers[..|signers| - 1], signers[|signers| - 1];
      AllSigned(p, r, v, init);
      var u := SignAll(p, r, v, init).value;
      var w := SignAll(p, r, v, signers).value;
      SignRedactedAdds(p, s.server, s.key, r, u);
      forall i | 0 <= i < |signers| && LastUse(signers, i) ensures CarriesSignature(p, r, w, signers[i]) {
        if i < |init| {
          assert init[i] == signers[i];
          assert LastUse(init, i) by { assert forall j | i < j < |init| :: init[j] == signers[j]; }
          assert CarriesSignature(p, r, u, init[i]);
        }
      }
      forall e, k | SigAt(v, e, k).Some?
        && (forall i | 0 <= i < |signers| :: (signers[i].server, signers[i].key.id) != (e, k))
        ensures SigAt(w, e, k) == SigAt(v, e, k)
      {
        assert (signers[|signers| - 1].server, signers[|signers| - 1].key.id) != (e, k);
        assert forall i | 0 <= i < |init| :: init[i] == signers[i];
      }
    }
  }

  /** Verification of an event: its own signature against its redacted form. */
  ghost predicate VerifiesEvent(p: Primitives, r: Rules, s: Signer, w: Json) {
    w.Obj? && SigAt(w, s.server, s.key.id).Some?
    && VerifiesWith(p, SigAt(w, s.server, s.key.id).value, p.publicKey(s.key.private), Obj(Redacted(r, w.fields)))
  }

  lemma CarriedVerifies(p: Primitives, r: Rules, w: Json, s: Signer)
    requires Sound(p) && CarriesSignature(p, r, w, s)
    ensures VerifiesEvent(p, r, s, w)
  {
    hide CanonOf, Redacted, SigAt;
  }

  lemma RedactedCopyCarries(p: Primitives, r: Rules, w: Json, s: Signer)
    requires CarriesSignature(p, r, w, s)
    ensures CarriesSignature(p, r, Obj(Redacted(r, w.fields)), s)
  {
    RedactTwice(r, w.fields);
    assert "signatures" in TopLevelKeep(r);
    OnlySignificantKeys(r, w.fields);
    hide CanonOf;
  }

  /** After any sequence of signings, each signer's last signature is on the event and on its redacted
      copy and verifies on both; signatures from before that nobody replaced are still there; content
      hash and id are as they were. */
  lemma SignaturesSurvive(p: Primitives, r: Rules, v: Json, signers: seq<Signer>, i: nat)
    requires Sound(p) && SignAll(p, r, v, signers).Ok? && i < |signers| && LastUse(signers, i)
    ensures var w := SignAll(p, r, v, signers).value;
      && w.Obj?
      && VerifiesEvent(p, r, signers[i], w)
      && VerifiesEvent(p, r, signers[i], Obj(Redacted(r, w.fields)))
      && Verifies(p, signers[i].server, signers[i].key.id, p.publicKey(signers[i].key.private),
        Obj(Redacted(r, w.fields)))
  {
    hide CanonOf, Redacted, SigAt, SigLeaf, WellTyped, SignAll, IdOf, ContentHashOf, VerifiesWith;
    var w, s := SignAll(p, r, v, signers).value, signers[i];
    AllSigned(p, r, v, signers);
    assert CarriesSignature(p, r, w, s);
    CarriedVerifies(p, r, w, s);
    RedactedCopyCarries(p, r, w, s);
    var c := Obj(Redacted(r, w.fields));
    CarriedVerifies(p, r, c, s);
    RedactTwice(r, w.fields);
    KeptSignatures(r, w.fields);
    LeafOfSig(c, s.server, s.key.id);
  }

  lemma KeptSignatures(r: Rules, f: Fields)
    requires "signatures" in f
    ensures "signatures" in Redacted(r, f) && Redacted(r, f)["signatures"] == f["signatures"]
  {
    assert "signatures" in TopLevelKeep(r);
    hide RedactedContent;
  }

  lemma LeafOfSig(v: Json, e: string, k: string)
    requires SigAt(v, e, k).Some?
    ensures SigLeaf(v, e, k) == SigAt(v, e, k)
  {
  }

  /** Once one signing is possible, any number is. */
  lemma {:induction false} SignAllSucceeds(p: Primitives, r: Rules, v: Json, signers: seq<Signer>)
    requires CanSign(p, r, v) && ("signatures" in v.fields ==> !v.fields["signatures"].Null?)
    ensures SignAll(p, r, v, signers).Ok?
    ensures var w := SignAll(p, r, v, signers).value;
      CanSign(p, r, w) && ("signatures" in w.fields ==> !w.fields["signatures"].Null?)
    decreases |signers|
  {
    hide CanSign, SignRedactedOf, Redacted, WellTyped, IdOf, ContentHashOf, SigAt;
    if signers != [] {
      var s := signers[|signers| - 1];
      SignAllSucceeds(p, r, v, signers[..|signers| - 1]);
      var u := SignAll(p, r, v, signers[..|signers| - 1]).value;
      SignsExactly(p, s.server, s.key, r, u);
      SignRedactedAdds(p, s.server, s.key, r, u);
    }
  }

  /** SignJSON on a whole object: the new signature verifies, and so does every one that did. */
  lemma SignJsonVerifies(p: Primitives, entity: string, key: SigningKey, v: Json, e: string, k: string, pub: string)
    requires Sound(p) && SignJsonOf(p, entity, key, v).Ok?
    ensures var w := SignJsonOf(p, entity, key, v).value;
      && Verifies(p, entity, key.id, p.publicKey(key.private), w)
      && ((e, k) != (entity, key.id) && Verifies(p, e, k, pub, v) ==> Verifies(p, e, k, pub, w))
  {
    hide CanonOf, WellTyped, SigsJson, Put, SigIn, SigLeaf;
    var f, w := v.fields, SignJsonOf(p, entity, key, v).value;
    var sig := SignatureOf(p, key, v).value;
    var m0: Signatures := if "signatures" in f then Merge(map[], f["signatures"]).value else map[];
    var m := Put(m0, entity, key.id, sig);
    assert w == Obj(f["signatures" := SigsJson(m)]);
    assert w.fields - UNSIGNABLE == f - UNSIGNABLE;
    SigsJsonReads(f, m, entity, key.id);
    PutReads(m0, entity, key.id, sig, entity, key.id);
    SigsJsonReads(f, m, e, k);
    PutReads(m0, entity, key.id, sig, e, k);
    if Verifies(p, e, k, pub, v) { MergedLeaf(f, e, k); }
  }

  lemma MergedLeaf(f: Fields, e: string, k: string)
    requires "signatures" in f && SigLeaf(Obj(f), e, k).Some?
    ensures Merge(map[], f["signatures"]).Some?
      && SigIn(Merge(map[], f["signatures"]).value, e, k) == SigLeaf(Obj(f), e, k)
  {
  }

  // ---- building ----

  datatype Builder = Builder(
    typ: string, stateKey: Option<string>, sender: string, roomId: string,
    content: Option<Json>, redacts: string, unsigned: Option<Json>,
    prevEvents: seq<string>, authEvents: seq<string>, prevStateEvents: seq<string>,
    depth: int, ts: int, origin: string)

  function StringList(ids: seq<string>): Json {
    Arr(seq(|ids|, i requires 0 <= i < |ids| => Str(ids[i])))
  }

  function LegacyRefs(ids: seq<string>): Json {
    Arr(seq(|ids|, i requires 0 <= i < |ids| => Arr([Str(ids[i]), Obj(map[])])))
  }

  /** Adds the content hash over raw, then signs the redacted form. */
  method HashAndSign(p: Primitives, server: string, key: SigningKey, r: Rules, obj: Fields) returns (out: Outcome<Json>)
    ensures out == HashAndSignOf(p, server, key, r, obj)
  {
    hide ContentHashOf, SignRedactedOf;
    var h := ContentHash(p, Obj(obj));
    if h.None? {
      return Failed;
    }
    var withHash := obj["hashes" := Obj(map["sha256" := Str(h.value)])];
    out := SignRedacted(p, server, key, r, Obj(withHash));
  }

  ghost function HashAndSignOf(p: Primitives, server: string, key: SigningKey, r: Rules, obj: Fields): Outcome<Json> {
    match ContentHashOf(p, Obj(obj))
    case None => Failed
    case Some(h) => SignRedactedOf(p, server, key, r, Obj(obj["hashes" := Obj(map["sha256" := Str(h)])]))
  }

  /** The value a built event holds under a name, before its hash and signature. State-DAG events cite
      prev_state_events in place of auth_events; the m.room.create whose hash is the room id has no
      room_id; only legacy events carry an event_id and [id, hash] pairs. */
  function Expected(b: Builder, r: Rules, id: string, k: string): Option<Json> {
    match k
    case "type" => Some(Str(b.typ))
    case "sender" => Some(Str(b.sender))
    case "origin" => if b.origin != "" then Some(Str(b.origin)) else None
    case "room_id" =>
      if r.formatV1 || b.roomId != "" || !r.roomIdIsCreateHash || b.typ != "m.room.create"
      then Some(Str(b.roomId)) else None
    case "event_id" => if r.formatV1 then Some(Str(id)) else None
    case "content" => if b.content.Some? then b.content else Some(Obj(map[]))
    case "depth" => Some(Num(FormatInt(b.depth)))
    case "origin_server_ts" => Some(Num(FormatInt(b.ts)))
    case "prev_events" => Some(if r.formatV1 then LegacyRefs(b.prevEvents) else StringList(b.prevEvents))
    case "prev_state_events" => if !r.formatV1 && r.stateDags then Some(StringList(b.prevStateEvents)) else None
    case "auth_events" =>
      if r.formatV1 then Some(LegacyRefs(b.authEvents))
      else if r.stateDags then None else Some(StringList(b.authEvents))
    case "redacts" => if b.redacts != "" then Some(Str(b.redacts)) else None
    case "state_key" => if b.stateKey.Some? then Some(Str(b.stateKey.value)) else None
    case "unsigned" => b.unsigned
    case _ => None
  }

  /** obj holds the expected fields among the given names, and nothing else. */
  ghost predicate BuiltUpTo(b: Builder, r: Rules, id: string, obj: Fields, names: set<string>) {
    && (forall k :: k in obj <==> k in names && Expected(b, r, id, k).Some?)
    && (forall k | k in obj :: Expected(b, r, id, k) == Some(obj[k]))
  }

  /** obj holds exactly the expected fields. */
  ghost predicate IsBuilt(b: Builder, r: Rules, id: string, obj: Fields) {
    forall k :: if k in obj then Expected(b, r, id, k) == Some(obj[k]) else Expected(b, r, id, k) == None
  }

  lemma AllBuilt(b: Builder, r: Rules, id: string, obj: Fields, names: set<string>)
    requires BuiltUpTo(b, r, id, obj, names)
    requires "type" in names && "sender" in names && "origin" in names && "room_id" in names && "event_id" in names
    requires "content" in names && "depth" in names && "origin_server_ts" in names && "prev_events" in names
    requires "prev_state_events" in names && "auth_events" in names && "redacts" in names && "state_key" in names
    requires "unsigned" in names
    ensures IsBuilt(b, r, id, obj)
  {
    forall k | k !in names ensures Expected(b, r, id, k) == None {
    }
    hide Expected;
  }

  /** Setting the field k as expected extends the part that is built. */
  lemma Placed(b: Builder, r: Rules, id: string, obj: Fields, names: set<string>, k: string)
    requires BuiltUpTo(b, r, id, obj, names)
    ensures Expected(b, r, id, k).Some? ==> BuiltUpTo(b, r, id, obj[k := Expected(b, r, id, k).value], names + {k})
    ensures Expected(b, r, id, k).None? ==> BuiltUpTo(b, r, id, obj, names + {k})
  {
    hide Expected;
  }

  lemma ExpectedValues(b: Builder, r: Rules, id: string)
    ensures Expected(b, r, id, "type") == Some(Str(b.typ)) && Expected(b, r, id, "sender") == Some(Str(b.sender))
    ensures Expected(b, r, id, "origin") == if b.origin != "" then Some(Str(b.origin)) else None
    ensures Expected(b, r, id, "room_id") ==
      if r.formatV1 || b.roomId != "" || !r.roomIdIsCreateHash || b.typ != "m.room.create"
      then Some(Str(b.roomId)) else None
    ensures Expected(b, r, id, "event_id") == if r.formatV1 then Some(Str(id)) else None
    ensures Expected(b, r, id, "content") == Some(if b.content.Some? then b.content.value else Obj(map[]))
    ensures Expected(b, r, id, "depth") == Some(Num(FormatInt(b.depth)))
    ensures Expected(b, r, id, "origin_server_ts") == Some(Num(FormatInt(b.ts)))
    ensures Expected(b, r, id, "prev_events")
      == Some(if r.formatV1 then LegacyRefs(b.prevEvents) else StringList(b.prevEvents))
    ensures Expected(b, r, id, "prev_state_events") ==
      if !r.formatV1 && r.stateDags then Some(StringList(b.prevStateEvents)) else None
    ensures Expected(b, r, id, "auth_events") ==
      if r.formatV1 then Some(LegacyRefs(b.authEvents)) else if r.stateDags then None
        else Some(StringList(b.authEvents))
    ensures Expected(b, r, id, "redacts") == if b.redacts != "" then Some(Str(b.redacts)) else None
    ensures Expected(b, r, id, "state_key") == if b.stateKey.Some? then Some(Str(b.stateKey.value)) else None
    ensures Expected(b, r, id, "unsigned") == b.unsigned
  {
    hide LegacyRefs, StringList, FormatInt;
  }

  /** The unsigned event for room version 3 and later. */
  method Assemble(b: Builder, r: Rules) returns (m: Fields)
    requires !r.formatV1
    ensures IsBuilt(b, r, "", m)
  {
    ExpectedValues(b, r, "");
    hide BuiltUpTo, Expected;
    m := map[];
    ghost var done: set<string> := {};
    assert BuiltUpTo(b, r, "", m, done) by { NothingBuilt(b, r, ""); }
    Placed(b, r, "", m, done, "type");
    m := m["type" := Str(b.typ)];
    done := done + {"type"};
    Placed(b, r, "", m, done, "sender");
    m := m["sender" := Str(b.sender)];
    done := done + {"sender"};
    Placed(b, r, "", m, done, "origin");
    if b.origin != "" { m := m["origin" := Str(b.origin)]; }
    done := done + {"origin"};
    Placed(b, r, "", m, done, "room_id");
    if b.roomId != "" || !r.roomIdIsCreateHash || b.typ != "m.room.create" { m := m["room_id" := Str(b.roomId)]; }
    done := done + {"room_id"};
    Placed(b, r, "", m, done, "content");
    m := m["content" := if b.content.Some? then b.content.value else Obj(map[])];
    done := done + {"content"};
    Placed(b, r, "", m, done, "depth");
    m := m["depth" := Num(FormatInt(b.depth))];
    done := done + {"depth"};
    Placed(b, r, "", m, done, "origin_server_ts");
    m := m["origin_server_ts" := Num(FormatInt(b.ts))];
    done := done + {"origin_server_ts"};
    Placed(b, r, "", m, done, "prev_events");
    m := m["prev_events" := StringList(b.prevEvents)];
    done := done + {"prev_events"};
    Placed(b, r, "", m, done, "prev_state_events");
    if r.stateDags { m := m["prev_state_events" := StringList(b.prevStateEvents)]; }
    done := done + {"prev_state_events"};
    Placed(b, r, "", m, done, "auth_events");
    if !r.stateDags { m := m["auth_events" := StringList(b.authEvents)]; }
    done := done + {"auth_events"};
    Placed(b, r, "", m, done, "redacts");
    if b.redacts != "" { m := m["redacts" := Str(b.redacts)]; }
    done := done + {"redacts"};
    Placed(b, r, "", m, done, "state_key");
    if b.stateKey.Some? { m := m["state_key" := Str(b.stateKey.value)]; }
    done := done + {"state_key"};
    Placed(b, r, "", m, done, "unsigned");
    if b.unsigned.Some? { m := m["unsigned" := b.unsigned.value]; }
    done := done + {"unsigned"};
    Placed(b, r, "", m, done, "event_id");
    done := done + {"event_id"};
    AllBuilt(b, r, "", m, done);
  }

  /** The unsigned event for room versions 1 and 2. */
  method AssembleLegacy(b: Builder, r: Rules, id: string) returns (m: Fields)
    requires r.formatV1
    ensures IsBuilt(b, r, id, m)
  {
    ExpectedValues(b, r, id);
    hide BuiltUpTo, Expected;
    m := map[];
    ghost var done: set<string> := {};
    assert BuiltUpTo(b, r, id, m, done) by { NothingBuilt(b, r, id); }
    Placed(b, r, id, m, done, "type");
    m := m["type" := Str(b.typ)];
    done := done + {"type"};
    Placed(b, r, id, m, done, "sender");
    m := m["sender" := Str(b.sender)];
    done := done + {"sender"};
    Placed(b, r, id, m, done, "room_id");
    m := m["room_id" := Str(b.roomId)];
    done := done + {"room_id"};
    Placed(b, r, id, m, done, "origin");
    if b.origin != "" { m := m["origin" := Str(b.origin)]; }
    done := done + {"origin"};
    Placed(b, r, id, m, done, "event_id");
    m := m["event_id" := Str(id)];
    done := done + {"event_id"};
    Placed(b, r, id, m, done, "content");
    m := m["content" := if b.content.Some? then b.content.value else Obj(map[])];
    done := done + {"content"};
    Placed(b, r, id, m, done, "depth");
    m := m["depth" := Num(FormatInt(b.depth))];
    done := done + {"depth"};
    Placed(b, r, id, m, done, "origin_server_ts");
    m := m["origin_server_ts" := Num(FormatInt(b.ts))];
    done := done + {"origin_server_ts"};
    Placed(b, r, id, m, done, "redacts");
    if b.redacts != "" { m := m["redacts" := Str(b.redacts)]; }
    done := done + {"redacts"};
    Placed(b, r, id, m, done, "prev_events");
    m := m["prev_events" := LegacyRefs(b.prevEvents)];
    done := done + {"prev_events"};
    Placed(b, r, id, m, done, "auth_events");
    m := m["auth_events" := LegacyRefs(b.authEvents)];
    done := done + {"auth_events"};
    Placed(b, r, id, m, done, "state_key");
    if b.stateKey.Some? { m := m["state_key" := Str(b.stateKey.value)]; }
    done := done + {"state_key"};
    Placed(b, r, id, m, done, "unsigned");
    if b.unsigned.Some? { m := m["unsigned" := b.unsigned.value]; }
    done := done + {"unsigned"};
    Placed(b, r, id, m, done, "prev_state_events");
    done := done + {"prev_state_events"};
    AllBuilt(b, r, id, m, done);
  }

  /** A list of references: the ids in their order, each alone or, in the legacy form, with an empty object. */
  ghost predicate IsRefs(pairs: bool, v: Json, ids: seq<string>) {
    && v.Arr? && |v.items| == |ids|
    && forall i | 0 <= i < |ids| :: v.items[i] == if pairs then Arr([Str(ids[i]), Obj(map[])]) else Str(ids[i])
  }

  lemma ListsAreRefs(ids: seq<string>)
    ensures IsRefs(false, StringList(ids), ids) && IsRefs(true, LegacyRefs(ids), ids)
  {
  }

  /** The references of a built event: to its parents and, for the rules, to auth events or to the parents in
      the state DAG. */
  lemma BuiltRefs(b: Builder, r: Rules, id: string, obj: Fields)
    requires IsBuilt(b, r, id, obj)
    ensures "prev_events" in obj && IsRefs(r.formatV1, obj["prev_events"], b.prevEvents)
    ensures "auth_events" in obj <==> r.formatV1 || !r.stateDags
    ensures "auth_events" in obj ==> IsRefs(r.formatV1, obj["auth_events"], b.authEvents)
    ensures "prev_state_events" in obj <==> !r.formatV1 && r.stateDags
    ensures "prev_state_events" in obj ==> IsRefs(false, obj["prev_state_events"], b.prevStateEvents)
  {
    ExpectedValues(b, r, id);
    ListsAreRefs(b.prevEvents);
    ListsAreRefs(b.authEvents);
    ListsAreRefs(b.prevStateEvents);
    hide Expected, IsRefs, StringList, LegacyRefs;
  }

  /** The fields every built event has. */
  lemma BuiltFields(b: Builder, r: Rules, id: string, obj: Fields)
    requires IsBuilt(b, r, id, obj)
    ensures "type" in obj && obj["type"] == Str(b.typ) && "sender" in obj && obj["sender"] == Str(b.sender)
    ensures "depth" in obj && obj["depth"] == Num(FormatInt(b.depth))
    ensures "origin_server_ts" in obj && obj["origin_server_ts"] == Num(FormatInt(b.ts))
    ensures "content" in obj && obj["content"] == if b.content.Some? then b.content.value else Obj(map[])
  {
    ExpectedValues(b, r, id);
    hide Expected, FormatInt;
  }

  /** The fields some have, and when. */
  lemma OptionalFields(b: Builder, r: Rules, id: string, obj: Fields)
    requires IsBuilt(b, r, id, obj)
    ensures HasExactly(obj, "state_key", b.stateKey.Some?, Str(if b.stateKey.Some? then b.stateKey.value else ""))
    ensures HasExactly(obj, "redacts", b.redacts != "", Str(b.redacts))
    ensures HasExactly(obj, "origin", b.origin != "", Str(b.origin))
    ensures HasExactly(obj, "event_id", r.formatV1, Str(id))
    ensures HasExactly(obj, "unsigned", b.unsigned.Some?, if b.unsigned.Some? then b.unsigned.value else Null)
    ensures HasExactly(obj, "room_id",
      r.formatV1 || b.roomId != "" || !r.roomIdIsCreateHash || b.typ != "m.room.create", Str(b.roomId))
  {
    ExpectedValues(b, r, id);
    FieldIs(b, r, id, obj, "state_key");
    FieldIs(b, r, id, obj, "redacts");
    FieldIs(b, r, id, obj, "origin");
    FieldIs(b, r, id, obj, "event_id");
    FieldIs(b, r, id, obj, "unsigned");
    FieldIs(b, r, id, obj, "room_id");
    hide *;
  }

  /** The field is there exactly on this condition, with this value. */
  ghost predicate HasExactly(obj: Fields, k: string, there: bool, v: Json) {
    (k in obj <==> there) && (there ==> obj[k] == v)
  }

  lemma FieldIs(b: Builder, r: Rules, id: string, obj: Fields, k: string)
    requires IsBuilt(b, r, id, obj)
    ensures Expected(b, r, id, k).Some? ==> HasExactly(obj, k, true, Expected(b, r, id, k).value)
    ensures Expected(b, r, id, k).None? ==> forall v :: HasExactly(obj, k, false, v)
  {
    hide Expected;
  }

  lemma NoOtherField(b: Builder, r: Rules, id: string, obj: Fields, k: string)
    requires IsBuilt(b, r, id, obj) && k in obj
    ensures k in {"type", "sender", "origin", "room_id", "event_id", "content", "depth", "origin_server_ts",
                  "prev_events", "prev_state_events", "auth_events", "redacts", "state_key", "unsigned"}
  {
  }

  lemma NothingBuilt(b: Builder, r: Rules, id: string)
    ensures BuiltUpTo(b, r, id, map[], {})
  {
  }

  method Build(p: Primitives, b: Builder, server: string, key: SigningKey, r: Rules)
    returns (out: Outcome<Json>, ghost obj: Fields)
    ensures r.formatV1 ==> out == Failed
    ensures !r.formatV1 ==> IsBuilt(b, r, "", obj) && out == HashAndSignOf(p, server, key, r, obj)
  {
    obj := map[];
    if r.formatV1 {
      return Failed, obj;
    }
    hide HashAndSignOf, IsBuilt;
    var m := Assemble(b, r);
    obj := m;
    out := HashAndSign(p, server, key, r, m);
  }

  method BuildLegacy(p: Primitives, b: Builder, server: string, key: SigningKey, r: Rules, localpart: string)
    returns (out: Outcome<Json>, id: string, ghost obj: Fields)
    ensures !r.formatV1 ==> out == Failed
    ensures r.formatV1 ==>
      id == "$" + localpart + ":" + server && IsBuilt(b, r, id, obj) && out == HashAndSignOf(p, server, key, r, obj)
  {
    obj, id := map[], "";
    if !r.formatV1 {
      return Failed, id, obj;
    }
    hide HashAndSignOf, IsBuilt;
    id := "$" + localpart + ":" + server;
    var m := AssembleLegacy(b, r, id);
    obj := m;
    out := HashAndSign(p, server, key, r, m);
  }

  /** A built event carries its own content hash and a signature that verifies, and redacting it or
      adding signatures to it keeps its id. */
  lemma BuiltEventHolds(p: Primitives, server: string, key: SigningKey, r: Rules, obj: Fields)
    requires Sound(p) && "signatures" !in obj && HashAndSignOf(p, server, key, r, obj).Ok?
    ensures var w := HashAndSignOf(p, server, key, r, obj).value;
      && w.Obj?
      && ContentHashOf(p, w).Some?
      && "hashes" in w.fields && w.fields["hashes"] == Obj(map["sha256" := Str(ContentHashOf(p, w).value)])
      && VerifiesEvent(p, r, Signer(server, key), w)
      && IdOf(p, r, Obj(Redacted(r, w.fields))) == IdOf(p, r, w)
      && (forall k | k in obj && k != "hashes" :: k in w.fields && w.fields[k] == obj[k])
  {
    hide ContentHashOf, SignRedactedOf, Redacted, IdOf, CanSign, VerifiesEvent, WellTyped, SigAt;
    var h := ContentHashOf(p, Obj(obj)).value;
    var hashed := obj["hashes" := Obj(map["sha256" := Str(h)])];
    HashesNotHashed(p, obj, Obj(map["sha256" := Str(h)]));
    SignRedactedAdds(p, server, key, r, Obj(hashed));
    var w := HashAndSignOf(p, server, key, r, obj).value;
    SignableIsObject(p, r, w);
    OneSignerCarries(p, r, Obj(hashed), w, Signer(server, key));
    CarriedVerifies(p, r, w, Signer(server, key));
    IdInvariant(p, r, w.fields, Null);
  }

  lemma SignableIsObject(p: Primitives, r: Rules, w: Json)
    requires CanSign(p, r, w)
    ensures w.Obj?
  {
  }

  lemma WithoutHashes(f: Fields, x: Json)
    ensures Unhashed(Obj(f["hashes" := x])) == Unhashed(Obj(f))
  {
    var no := {"unsigned", "signatures", "hashes"};
    assert f["hashes" := x] - no == f - no;
  }

  lemma HashesNotHashed(p: Primitives, f: Fields, x: Json)
    ensures ContentHashOf(p, Obj(f["hashes" := x])) == ContentHashOf(p, Obj(f))
  {
    hide CanonOf;
    WithoutHashes(f, x);
    hide Unhashed;
  }

  lemma OneSignerCarries(p: Primitives, r: Rules, v: Json, w: Json, s: Signer)
    requires CanSign(p, r, v) && CanSign(p, r, w) && Referenced(r, w.fields) == Referenced(r, v.fields)
    requires SigAt(w, s.server, s.key.id) == Some(RedactedSignature(p, r, s.key, v))
    ensures CarriesSignature(p, r, w, s)
  {
    hide CanonOf, Referenced, SigAt;
  }
}
