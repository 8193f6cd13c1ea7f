/** What a content hash and a signature cover, told from the events alone (internal/events/event.go and
    internal/crypto/crypto.go). */
module SigningLaws {
  import opened Wrappers
  import opened Json
  import opened Canonical
  import opened CanonicalTheorems
  import opened Redaction
  import opened Signing
  import opened Events

  // ---- the part of an object that is printed ----

  lemma PartWellFormed(f: Fields, out: set<string>)
    requires WellFormed(Obj(f))
    ensures WellFormed(Obj(f - out))
  {
  }

  lemma PartPrints(fl: Floats, f: Fields, out: set<string>)
    ensures Printable(fl, Obj(f - out)) <==> forall k | k in f && k !in out :: Printable(fl, f[k])
  {
    var m := f - out;
    assert forall k | k in f && k !in out :: k in m && m[k] == f[k];
    assert Printable(fl, Obj(m)) <==> forall k | k in m :: Printable(fl, m[k]);
    hide Printable;
  }

  /** The objects have the same keys outside `out`, and there the same values up to the spelling of numbers. */
  ghost predicate Agree(fl: Floats, f: Fields, g: Fields, out: set<string>)
    requires (forall k | k in f && k !in out :: Printable(fl, f[k])) && forall k | k in g && k !in out ::
      Printable(fl, g[k])
  {
    forall k | k !in out :: (k in f <==> k in g) && (k in f ==> Norm(fl, f[k]) == Norm(fl, g[k]))
  }

  lemma PartNorm(fl: Floats, f: Fields, g: Fields, out: set<string>)
    requires (forall k | k in f && k !in out :: Printable(fl, f[k])) && forall k | k in g && k !in out ::
      Printable(fl, g[k])
    ensures Printable(fl, Obj(f - out)) && Printable(fl, Obj(g - out))
    ensures Norm(fl, Obj(f - out)) == Norm(fl, Obj(g - out)) <==> Agree(fl, f, g, out)
  {
    PartPrints(fl, f, out);
    PartPrints(fl, g, out);
    var a, b := Norm(fl, Obj(f - out)).fields, Norm(fl, Obj(g - out)).fields;
    assert forall k | k !in out :: (k in a <==> k in f) && (k in f ==> a[k] == Norm(fl, f[k]));
    assert forall k | k !in out :: (k in b <==> k in g) && (k in g ==> b[k] == Norm(fl, g[k]));
    hide Norm, Printable;
    if Agree(fl, f, g, out) {
      assert a == b;
    }
  }

  lemma PartText(fl: Floats, f: Fields, g: Fields, out: set<string>)
    requires WellFormed(Obj(f)) && WellFormed(Obj(g))
    requires (forall k | k in f && k !in out :: Printable(fl, f[k])) && forall k | k in g && k !in out ::
      Printable(fl, g[k])
    ensures Printable(fl, Obj(f - out)) && Printable(fl, Obj(g - out))
    ensures Text(fl, Obj(f - out)) == Text(fl, Obj(g - out)) <==> Agree(fl, f, g, out)
  {
    PartNorm(fl, f, g, out);
    PartWellFormed(f, out);
    PartWellFormed(g, out);
    Injective(fl, Obj(f - out), Obj(g - out));
  }

  // ---- the content hash ----

  /** An event has a content hash exactly when everything but its unsigned data, its signatures and its
      hashes has a canonical text. */
  lemma ContentHashExists(p: Primitives, f: Fields)
    ensures ContentHashOf(p, Obj(f)).Some? <==>
      forall k | k in f && k != "unsigned" && k != "signatures" && k != "hashes" :: Printable(p.floats, f[k])
  {
    PartPrints(p.floats, f, {"unsigned", "signatures", "hashes"});
    hide Printable, Text;
  }

  /** Two events have the same content hash exactly when they agree on everything but their unsigned data,
      their signatures and their hashes. */
  lemma ContentHashCovers(p: Primitives, f: Fields, g: Fields)
    requires Sound(p) && WellFormed(Obj(f)) && WellFormed(Obj(g))
    requires ContentHashOf(p, Obj(f)).Some? && ContentHashOf(p, Obj(g)).Some?
    ensures forall k | k != "unsigned" && k != "signatures" && k != "hashes" ::
      (k in f ==> Printable(p.floats, f[k])) && (k in g ==> Printable(p.floats, g[k]))
    ensures ContentHashOf(p, Obj(f)) == ContentHashOf(p, Obj(g)) <==>
      forall k | k != "unsigned" && k != "signatures" && k != "hashes" ::
        (k in f <==> k in g) && (k in f ==> Norm(p.floats, f[k]) == Norm(p.floats, g[k]))
  {
    hide *;
    var out := {"unsigned", "signatures", "hashes"};
    ContentHashExists(p, f);
    ContentHashExists(p, g);
    PartText(p.floats, f, g, out);
    HashText(p, f, out);
    HashText(p, g, out);
    HashEqual(p, Text(p.floats, Obj(f - out)), Text(p.floats, Obj(g - out)));
    AgreeHashed(p.floats, f, g);
  }

  lemma AgreeHashed(fl: Floats, f: Fields, g: Fields)
    requires forall k | k in f && k !in {"unsigned", "signatures", "hashes"} :: Printable(fl, f[k])
    requires forall k | k in g && k !in {"unsigned", "signatures", "hashes"} :: Printable(fl, g[k])
    ensures Agree(fl, f, g, {"unsigned", "signatures", "hashes"}) <==>
      forall k | k != "unsigned" && k != "signatures" && k != "hashes" ::
        (k in f <==> k in g) && (k in f ==> Norm(fl, f[k]) == Norm(fl, g[k]))
  {
    hide Printable, Norm;
  }

  lemma HashEqual(p: Primitives, a: string, b: string)
    requires Sound(p)
    ensures p.base64(p.hash(a)) == p.base64(p.hash(b)) <==> a == b
  {
  }

  lemma HashText(p: Primitives, f: Fields, out: set<string>)
    requires out == {"unsigned", "signatures", "hashes"} && Printable(p.floats, Obj(f - out))
    ensures ContentHashOf(p, Obj(f)) == Some(p.base64(p.hash(Text(p.floats, Obj(f - out)))))
  {
    hide Printable, Text;
  }

  // ---- signatures ----

  /** A signature verifies for no other key and no other text. */
  ghost predicate Binding(p: Primitives) {
    forall key, pub, m, n | p.verify(pub, n, p.sign(key, m)) :: pub == p.publicKey(key) && n == m
  }

  /** A signature made over one object verifies on another exactly when the key is the signer's and the
      objects agree on everything but their signatures and their unsigned data. */
  lemma SignatureCovers(p: Primitives, key: SigningKey, f: Fields, g: Fields, pub: string)
    requires Sound(p) && Binding(p) && WellFormed(Obj(f)) && WellFormed(Obj(g))
    requires forall k | k in f && k != "signatures" && k != "unsigned" :: Printable(p.floats, f[k])
    ensures SignatureOf(p, key, Obj(f)).Some?
    ensures VerifiesWith(p, SignatureOf(p, key, Obj(f)).value, pub, Obj(g)) <==>
      && pub == p.publicKey(key.private)
      && forall k | k != "signatures" && k != "unsigned" ::
           && (k in f <==> k in g)
           && (k in g ==> Printable(p.floats, g[k]) && Norm(p.floats, f[k]) == Norm(p.floats, g[k]))
  {
    hide *;
    var out := {"signatures", "unsigned"};
    PartPrints(p.floats, f, out);
    PartPrints(p.floats, g, out);
    SignedText(p, key, f, out);
    VerifiedText(p, key, f, g, pub, out);
    if forall k | k in g && k !in out :: Printable(p.floats, g[k]) {
      PartText(p.floats, f, g, out);
      AgreeSigned(p.floats, f, g);
    }
  }

  lemma AgreeSigned(fl: Floats, f: Fields, g: Fields)
    requires forall k | k in f && k !in {"signatures", "unsigned"} :: Printable(fl, f[k])
    requires forall k | k in g && k !in {"signatures", "unsigned"} :: Printable(fl, g[k])
    ensures Agree(fl, f, g, {"signatures", "unsigned"}) <==>
      forall k | k != "signatures" && k != "unsigned" ::
        (k in f <==> k in g) && (k in g ==> Norm(fl, f[k]) == Norm(fl, g[k]))
  {
    hide Printable, Norm;
  }

  lemma SignedText(p: Primitives, key: SigningKey, f: Fields, out: set<string>)
    requires out == {"signatures", "unsigned"} && Printable(p.floats, Obj(f - out))
    ensures SignatureOf(p, key, Obj(f)) == Some(p.base64(p.sign(key.private, Text(p.floats, Obj(f - out)))))
  {
    hide Printable, Text;
  }

  lemma VerifiedText(p: Primitives, key: SigningKey, f: Fields, g: Fields, pub: string, out: set<string>)
    requires Sound(p) && Binding(p)
    requires out == {"signatures", "unsigned"} && Printable(p.floats, Obj(f - out))
    requires SignatureOf(p, key, Obj(f)) == Some(p.base64(p.sign(key.private, Text(p.floats, Obj(f - out)))))
    ensures VerifiesWith(p, SignatureOf(p, key, Obj(f)).value, pub, Obj(g)) <==>
      && pub == p.publicKey(key.private)
      && Printable(p.floats, Obj(g - out)) && Text(p.floats, Obj(g - out)) == Text(p.floats, Obj(f - out))
  {
    hide SignatureOf, Printable, Text;
    assert Signable(Obj(g)) == Obj(g - out);
  }

  /** The signatures field has the shape that is read: per entity, and per key, a text; null stands for an
      empty entry. */
  ghost predicate ReadableSignatures(v: Json) {
    v.Obj? && forall e | e in v.fields ::
      || v.fields[e].Null?
      || (v.fields[e].Obj?
         && forall k | k in v.fields[e].fields :: v.fields[e].fields[k].Null? || v.fields[e].fields[k].Str?)
  }

  /** An object verifies for an entity and a key exactly when its signatures can be read, hold an entry
      there, and this entry, decoded, verifies over the text of the object without its signatures and
      unsigned data. */
  lemma VerifiesExactly(p: Primitives, e: string, k: string, pub: string, v: Json)
    ensures Verifies(p, e, k, pub, v) <==>
      && v.Obj? && "signatures" in v.fields && ReadableSignatures(v.fields["signatures"])
      && e in v.fields["signatures"].fields && v.fields["signatures"].fields[e].Obj?
      && k in v.fields["signatures"].fields[e].fields
      && var leaf := v.fields["signatures"].fields[e].fields[k];
         var sig := p.unbase64(if leaf.Str? then leaf.s else "");
         && sig.Some?
         && Printable(p.floats, Obj(v.fields - {"signatures", "unsigned"}))
         && p.verify(pub, Text(p.floats, Obj(v.fields - {"signatures", "unsigned"})), sig.value)
  {
    hide Printable, Text;
  }

  /** SignJSON succeeds exactly on an object whose signatures can be read, where it has some, and whose
      other fields, unsigned data apart, have a canonical text. */
  lemma SignJsonExactly(p: Primitives, e: string, key: SigningKey, v: Json)
    ensures SignJsonOf(p, e, key, v).Ok? <==>
      && v.Obj?
      && (forall k | k in v.fields && k != "signatures" && k != "unsigned" :: Printable(p.floats, v.fields[k]))
      && ("signatures" in v.fields ==> ReadableSignatures(v.fields["signatures"]))
  {
    hide *;
    SignJsonCases(p, e, key, v);
    if v.Obj? {
      SignatureExists(p, key, v.fields);
      if "signatures" in v.fields { Readable(v.fields["signatures"]); }
    }
  }

  lemma SignJsonCases(p: Primitives, e: string, key: SigningKey, v: Json)
    ensures SignJsonOf(p, e, key, v).Ok? <==>
      && v.Obj? && SignatureOf(p, key, v).Some?
      && ("signatures" in v.fields ==> WellTyped(v.fields["signatures"]) && Merge(map[], v.fields["signatures"]).Some?)
  {
    hide SigsJson, Put, SignatureOf, WellTyped, Merge;
  }

  lemma SignatureExists(p: Primitives, key: SigningKey, f: Fields)
    ensures SignatureOf(p, key, Obj(f)).Some? <==>
      forall k | k in f && k != "signatures" && k != "unsigned" :: Printable(p.floats, f[k])
  {
    PartPrints(p.floats, f, {"signatures", "unsigned"});
    hide Printable, Text;
  }

  lemma Readable(x: Json)
    ensures WellTyped(x) && Merge(map[], x).Some? <==> ReadableSignatures(x)
  {
  }

  /** The signed object differs in its signatures alone: the new entry is there, every other one reads as
      before, and of the other entities those that had no entry at all, but null, still have null. */
  lemma SignJsonAdds(p: Primitives, e: string, key: SigningKey, v: Json, a: string, b: string)
    requires SignJsonOf(p, e, key, v).Ok?
    ensures var w := SignJsonOf(p, e, key, v).value;
      && v.Obj? && w.Obj? && w.fields.Keys == v.fields.Keys + {"signatures"}
      && (forall k | k in v.fields && k != "signatures" :: w.fields[k] == v.fields[k])
      && ReadableSignatures(w.fields["signatures"])
      && SignatureOf(p, key, v).Some? && SigAt(w, e, key.id) == SignatureOf(p, key, v)
      && ((a, b) != (e, key.id) ==> SigLeaf(w, a, b) == SigLeaf(v, a, b))
      && (a != e ==> (HoldsNull(w, a) <==> HoldsNull(v, a)))
  {
    hide SignatureOf, SigsJson, Put, ReadableSignatures, SigLeaf, SigAt, WellTyped, HoldsNull;
    var f, sig := v.fields, SignatureOf(p, key, v).value;
    var m0: Signatures := if "signatures" in f then Merge(map[], f["signatures"]).value else map[];
    var m := Put(m0, e, key.id, sig);
    assert SignJsonOf(p, e, key, v).value == Obj(f["signatures" := SigsJson(m)]);
    Written(f, m0, e, key.id, sig, a, b);
  }

  /** The entity's signatures are null. */
  predicate HoldsNull(v: Json, a: string) {
    && v.Obj? && "signatures" in v.fields && v.fields["signatures"].Obj?
    && a in v.fields["signatures"].fields && v.fields["signatures"].fields[a].Null?
  }

  lemma Written(f: Fields, m0: Signatures, e: string, k: string, sig: string, a: string, b: string)
    requires "signatures" in f ==> Merge(map[], f["signatures"]) == Some(m0) && WellTyped(f["signatures"])
    requires "signatures" !in f ==> m0 == map[]
    ensures var w := Obj(f["signatures" := SigsJson(Put(m0, e, k, sig))]);
      && ReadableSignatures(w.fields["signatures"]) && SigAt(w, e, k) == Some(sig)
      && ((a, b) != (e, k) ==> SigLeaf(w, a, b) == SigLeaf(Obj(f), a, b))
      && (a != e ==> (HoldsNull(w, a) <==> HoldsNull(Obj(f), a)))
  {
    var m := Put(m0, e, k, sig);
    SigsJsonReads(f, m, e, k);
    SigsJsonReads(f, m, a, b);
    PutReads(m0, e, k, sig, e, k);
    PutReads(m0, e, k, sig, a, b);
    ListedReadable(m);
    MergedRead(f, m0, a, b);
    NullStays(f, m0, e, k, sig, a);
    hide *;
  }

  lemma NullStays(f: Fields, m0: Signatures, e: string, k: string, sig: string, a: string)
    requires "signatures" in f ==> Merge(map[], f["signatures"]) == Some(m0) && WellTyped(f["signatures"])
    requires "signatures" !in f ==> m0 == map[]
    ensures a != e ==> (HoldsNull(Obj(f["signatures" := SigsJson(Put(m0, e, k, sig))]), a) <==> HoldsNull(Obj(f), a))
  {
  }

  lemma ListedReadable(m: Signatures)
    ensures ReadableSignatures(SigsJson(m))
  {
  }

  lemma MergedRead(f: Fields, m0: Signatures, a: string, b: string)
    requires "signatures" in f ==> Merge(map[], f["signatures"]) == Some(m0) && WellTyped(f["signatures"])
    requires "signatures" !in f ==> m0 == map[]
    ensures SigIn(m0, a, b) == SigLeaf(Obj(f), a, b)
  {
  }
}
