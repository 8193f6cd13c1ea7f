/** The redaction algorithm (internal/events/redact.go) over decoded events, for every
    combination of room-version rules. */
module Redaction {
  import opened Wrappers
  import opened Sorting
  import opened Json

  datatype IdFormat = Legacy | Sha256 | Sha256UrlSafe

  /** The room-version rules the event pipeline consults (internal/roomver/roomver.go). */
  datatype Rules = Rules(
    idFormat: IdFormat, formatV1: bool, roomIdIsCreateHash: bool,
    restrictedJoin: bool, updatedRedaction: bool, redactionKeepsRelations: bool,
    notificationsPowerLevel: bool, stateDags: bool)

  type Fields = map<string, Json>

  /** json.Unmarshal into a map: null leaves it empty, any other non-object is an error. */
  function FieldsOf(v: Json): Option<Fields> {
    match v
    case Obj(m) => Some(m)
    case Null => Some(map[])
    case _ => None
  }

  function TopLevelKeep(r: Rules): set<string> {
    var base := {"event_id", "type", "room_id", "sender", "state_key", "content", "hashes", "signatures",
                 "depth", "prev_events", "auth_events", "origin_server_ts"};
    var refs := if r.stateDags then base - {"auth_events"} + {"prev_state_events"} else base;
    if r.updatedRedaction then refs else refs + {"origin", "membership", "prev_state"}
  }

  /** The content keys kept for an event type, and whether all of the content is. */
  function ContentKeep(r: Rules, typ: string): (set<string>, bool) {
    match typ
    case "m.room.member" => ({"membership", "join_authorised_via_users_server"}, false)
    case "m.room.create" => if r.updatedRedaction then ({}, true) else ({"creator"}, false)
    case "m.room.join_rules" => (if r.restrictedJoin then {"join_rule", "allow"} else {"join_rule"}, false)
    case "m.room.power_levels" =>
      var k := {"ban", "events", "events_default", "kick", "redact", "state_default", "users", "users_default"};
      (if r.updatedRedaction then k + {"invite"} else k, false)
    case "m.room.history_visibility" => ({"history_visibility"}, false)
    case "m.room.redaction" => (if r.updatedRedaction then {"redacts"} else {}, false)
    case "m.room.aliases" => (if r.notificationsPowerLevel then {} else {"aliases"}, false)
    case _ => ({}, false)
  }

  function Restrict(m: Fields, keep: set<string>): Fields {
    map k | k in m && k in keep :: m[k]
  }

  function TypeOf(full: Fields): string {
    if "type" in full && full["type"].Str? then full["type"].s else ""
  }

  /** A relation keeps its identity only; without one it disappears. */
  function RedactedRelation(v: Json): Option<Json> {
    if v.Obj? && Restrict(v.fields, {"rel_type", "event_id"}) != map[]
    then Some(Obj(Restrict(v.fields, {"rel_type", "event_id"}))) else None
  }

  function Signed(v: Json): Option<Json> {
    if v.Obj? && "signed" in v.fields then Some(Obj(map["signed" := v.fields["signed"]])) else None
  }

  function WithSigned(r: Rules, typ: string, content: Fields, pruned: Fields): Fields {
    if r.updatedRedaction && typ == "m.room.member" && "third_party_invite" in content
      && Signed(content["third_party_invite"]).Some?
    then pruned["third_party_invite" := Signed(content["third_party_invite"]).value] else pruned
  }

  function WithRelation(r: Rules, content: Fields, pruned: Fields): Fields {
    if r.redactionKeepsRelations && "m.relates_to" in content && RedactedRelation(content["m.relates_to"]).Some?
    then pruned["m.relates_to" := RedactedRelation(content["m.relates_to"]).value] else pruned
  }

  function Pruned(r: Rules, typ: string, content: Fields): Fields {
    WithRelation(r, content, WithSigned(r, typ, content, Restrict(content, ContentKeep(r, typ).0)))
  }

  function RedactedContent(r: Rules, typ: string, content: Json): Json {
    if ContentKeep(r, typ).1 then content
    else if content.Obj? then Obj(Pruned(r, typ, content.fields)) else Obj(map[])
  }

  function Redacted(r: Rules, full: Fields): Fields {
    Restrict(full, TopLevelKeep(r))["content" :=
      if "content" in full then RedactedContent(r, TypeOf(full), full["content"]) else Obj(map[])]
  }

  // ---- the program ----

  method KeepListed(m: Fields, keep: set<string>) returns (out: Fields)
    ensures out == Restrict(m, keep)
  {
    var keys := ListOf(m.Keys);
    out := map[];
    for i := 0 to |keys|
      invariant forall k :: k in out <==> k in keys[..i] && k in m && k in keep
      invariant forall k | k in out :: k in m && out[k] == m[k]
    {
      var k := keys[i];
      assert k in Elems(keys);
      if k in keep { out := out[k := m[k]]; }
      assert forall x :: x in keys[..i + 1] <==> x in keys[..i] || x == k;
    }
    assert keys[..|keys|] == keys;
    forall k | k in m ensures k in keys { assert k in Elems(keys); }
  }

  method RedactRelation(v: Json) returns (out: Option<Json>)
    ensures out == RedactedRelation(v)
  {
    if !v.Obj? {
      return None;
    }
    var kept: Fields := map[];
    var names := ["rel_type", "event_id"];
    for i := 0 to |names|
      invariant forall k :: k in kept <==> k in names[..i] && k in v.fields
      invariant forall k | k in kept :: k in v.fields && kept[k] == v.fields[k]
    {
      if names[i] in v.fields { kept := kept[names[i] := v.fields[names[i]]]; }
      assert forall x :: x in names[..i + 1] <==> x in names[..i] || x == names[i];
    }
    assert names[..|names|] == names;
    assert forall x :: x in names <==> x in {"rel_type", "event_id"};
    assert kept == Restrict(v.fields, {"rel_type", "event_id"});
    return if |kept| == 0 then None else Some(Obj(kept));
  }

  /** Redact: only the keys the room version's algorithm names survive. */
  method Redact(r: Rules, v: Json) returns (out: Option<Fields>)
    ensures out == match FieldsOf(v) case None => None case Some(full) => Some(Redacted(r, full))
  {
    var fields := FieldsOf(v);
    if fields.None? {
      return None;
    }
    var full := fields.value;
    var res := KeepListed(full, TopLevelKeep(r));
    var typ := TypeOf(full);
    var keep := ContentKeep(r, typ);
    if "content" in full {
      var content := full["content"];
      if keep.1 {
        res := res["content" := content];
      } else if !content.Obj? {
        res := res["content" := Obj(map[])];
      } else {
        var pruned := KeepListed(content.fields, keep.0);
        if r.updatedRedaction && typ == "m.room.member" && "third_party_invite" in content.fields {
          var signed := Signed(content.fields["third_party_invite"]);
          if signed.Some? { pruned := pruned["third_party_invite" := signed.value]; }
        }
        if r.redactionKeepsRelations && "m.relates_to" in content.fields {
          var relation := RedactRelation(content.fields["m.relates_to"]);
          if relation.Some? { pruned := pruned["m.relates_to" := relation.value]; }
        }
        res := res["content" := Obj(pruned)];
      }
    } else {
      res := res["content" := Obj(map[])];
    }
    return Some(res);
  }

  // ---- laws ----

  lemma SignedTwice(v: Json)
    requires Signed(v).Some?
    ensures Signed(Signed(v).value) == Signed(v)
  {
  }

  lemma RelationTwice(v: Json)
    requires RedactedRelation(v).Some?
    ensures RedactedRelation(RedactedRelation(v).value) == RedactedRelation(v)
  {
    var m := RedactedRelation(v).value.fields;
    assert Restrict(m, {"rel_type", "event_id"}) == m;
  }

  lemma PrunedTwice(r: Rules, typ: string, content: Fields)
    ensures Pruned(r, typ, Pruned(r, typ, content)) == Pruned(r, typ, content)
  {
    var keys := ContentKeep(r, typ).0;
    assert "third_party_invite" !in keys && "m.relates_to" !in keys;
    hide ContentKeep, Signed, RedactedRelation;
    var p := Pruned(r, typ, content);
    if "third_party_invite" in p { SignedTwice(content["third_party_invite"]); }
    if "m.relates_to" in p { RelationTwice(content["m.relates_to"]); }
    assert Restrict(p, keys) == Restrict(content, keys);
  }

  /** Redacting twice is redacting once, under every combination of the rules. */
  lemma RedactTwice(r: Rules, full: Fields)
    ensures Redacted(r, Redacted(r, full)) == Redacted(r, full)
  {
    var once := Redacted(r, full);
    assert "type" in TopLevelKeep(r) && "content" in TopLevelKeep(r);
    hide TopLevelKeep, ContentKeep, Pruned;
    assert TypeOf(once) == TypeOf(full);
    if "content" in full && full["content"].Obj? { PrunedTwice(r, TypeOf(full), full["content"].fields); }
    EmptyContentStays(r, TypeOf(full));
    assert Restrict(once, TopLevelKeep(r)) == once;
  }

  lemma EmptyContentStays(r: Rules, typ: string)
    ensures RedactedContent(r, typ, Obj(map[])) == Obj(map[])
  {
  }

  /** Nothing outside the keep list reaches the result. */
  lemma DroppedKeysDoNotMatter(r: Rules, full: Fields, k: string, v: Json)
    requires k !in TopLevelKeep(r)
    ensures Redacted(r, full[k := v]) == Redacted(r, full)
  {
    assert "type" in TopLevelKeep(r) && "content" in TopLevelKeep(r);
    hide TopLevelKeep, RedactedContent;
    assert Restrict(full[k := v], TopLevelKeep(r)) == Restrict(full, TopLevelKeep(r));
  }

  /** A kept field other than type and content passes through unchanged and touches nothing else. */
  lemma KeptFieldPasses(r: Rules, full: Fields, k: string, v: Json)
    requires k in TopLevelKeep(r) && k != "type" && k != "content"
    ensures Redacted(r, full[k := v]) == Redacted(r, full)[k := v]
  {
    hide TopLevelKeep, RedactedContent;
    assert Restrict(full[k := v], TopLevelKeep(r)) == Restrict(full, TopLevelKeep(r))[k := v];
  }

  /** What a redacted event can hold at the top level and, outside m.room.create, in its content. */
  lemma OnlySignificantKeys(r: Rules, full: Fields)
    ensures var out := Redacted(r, full);
      && (forall k | k in out :: k in TopLevelKeep(r))
      && (forall k | k in out && k != "content" :: k in full && out[k] == full[k])
      && "content" in out
      && (!ContentKeep(r, TypeOf(full)).1 ==>
            && out["content"].Obj?
            && forall k | k in out["content"].fields ::
                 || k in ContentKeep(r, TypeOf(full)).0
                 || (k == "third_party_invite" && r.updatedRedaction && TypeOf(full) == "m.room.member")
                 || (k == "m.relates_to" && r.redactionKeepsRelations))
  {
    hide ContentKeep, Signed, RedactedRelation;
  }

  /** The authorising server of a restricted join survives redaction in every room version, also
      in those before 9. */
  lemma AuthorisingServerAlwaysKept(r: Rules, full: Fields, v: Json)
    requires TypeOf(full) == "m.room.member" && "content" in full && full["content"].Obj?
    requires "join_authorised_via_users_server" in full["content"].fields
    ensures var out := Redacted(r, full)["content"];
      && out.Obj? && "join_authorised_via_users_server" in out.fields
      && out.fields["join_authorised_via_users_server"] == full["content"].fields["join_authorised_via_users_server"]
  {
    hide Signed, RedactedRelation;
  }

  /** At the top level redaction keeps, of what the event has, exactly the keys of its room version's
      algorithm with their values; the content is always there. */
  lemma TopLevelExactly(r: Rules, full: Fields, k: string)
    ensures var out := Redacted(r, full);
      && "content" in out
      && (k != "content" ==> (k in out <==>
            && k in full
            && (k in {"event_id", "type", "room_id", "sender", "state_key", "hashes", "signatures", "depth",
                      "prev_events", "origin_server_ts"}
               || (k == "auth_events" && !r.stateDags)
               || (k == "prev_state_events" && r.stateDags)
               || (k in {"origin", "membership", "prev_state"} && !r.updatedRedaction))))
      && (k != "content" && k in out ==> out[k] == full[k])
  {
    hide RedactedContent;
  }

  /** Redaction keeps this key of a content of this type, whatever its value. */
  predicate KeptKey(r: Rules, typ: string, k: string) {
    || (typ == "m.room.member" && (k == "membership" || k == "join_authorised_via_users_server"))
    || (typ == "m.room.create" && k == "creator")
    || (typ == "m.room.join_rules" && (k == "join_rule" || (k == "allow" && r.restrictedJoin)))
    || (typ == "m.room.power_levels" && k in {"ban", "events", "events_default", "kick", "redact", "state_default",
          "users", "users_default"})
    || (typ == "m.room.power_levels" && k == "invite" && r.updatedRedaction)
    || (typ == "m.room.history_visibility" && k == "history_visibility")
    || (typ == "m.room.redaction" && k == "redacts" && r.updatedRedaction)
    || (typ == "m.room.aliases" && k == "aliases" && !r.notificationsPowerLevel)
  }

  lemma KeptWhole(r: Rules, typ: string)
    ensures ContentKeep(r, typ).1 <==> typ == "m.room.create" && r.updatedRedaction
  {
  }

  lemma KeptKeys(r: Rules, typ: string, k: string)
    requires !(typ == "m.room.create" && r.updatedRedaction)
    ensures k in ContentKeep(r, typ).0 <==> KeptKey(r, typ, k)
  {
  }

  lemma NestedNotKept(r: Rules, typ: string)
    ensures !KeptKey(r, typ, "third_party_invite") && !KeptKey(r, typ, "m.relates_to")
  {
  }

  /** What becomes of the key k of an object content. Its value stays, but of an invite by third party only
      the signed part does, and of a relation its type and its event id. */
  ghost predicate KeptOf(r: Rules, typ: string, c: Fields, out: Fields, k: string) {
    if k == "third_party_invite" then
      if typ == "m.room.member" && r.updatedRedaction && k in c && c[k].Obj? && "signed" in c[k].fields
      then k in out && out[k] == Obj(map["signed" := c[k].fields["signed"]]) else k !in out
    else if k == "m.relates_to" then
      if r.redactionKeepsRelations && k in c && c[k].Obj? && ("rel_type" in c[k].fields || "event_id" in c[k].fields)
      then
        && k in out && out[k].Obj?
        && forall x ::
             && (x in out[k].fields <==> x in c[k].fields && (x == "rel_type" || x == "event_id"))
             && (x in out[k].fields ==> out[k].fields[x] == c[k].fields[x])
      else k !in out
    else if k in c && KeptKey(r, typ, k) then k in out && out[k] == c[k] else k !in out
  }

  lemma RelationExactly(c: Fields, out: Fields)
    requires "m.relates_to" in c && c["m.relates_to"].Obj?
    requires RedactedRelation(c["m.relates_to"]).Some? ==>
      "m.relates_to" in out && out["m.relates_to"] == RedactedRelation(c["m.relates_to"]).value
    requires RedactedRelation(c["m.relates_to"]).None? ==> "m.relates_to" !in out
    ensures var m := c["m.relates_to"].fields;
      if "rel_type" in m || "event_id" in m then
        && "m.relates_to" in out && out["m.relates_to"].Obj?
        && forall x ::
             && (x in out["m.relates_to"].fields <==> x in m && (x == "rel_type" || x == "event_id"))
             && (x in out["m.relates_to"].fields ==> out["m.relates_to"].fields[x] == m[x])
      else "m.relates_to" !in out
  {
    var m := c["m.relates_to"].fields;
    var kept := Restrict(m, {"rel_type", "event_id"});
    if "rel_type" in m { assert "rel_type" in kept; }
    if "event_id" in m { assert "event_id" in kept; }
  }

  lemma PrunedExactly(r: Rules, typ: string, c: Fields, k: string)
    requires !(typ == "m.room.create" && r.updatedRedaction)
    ensures KeptOf(r, typ, c, Pruned(r, typ, c), k)
  {
    KeptKeys(r, typ, k);
    NestedNotKept(r, typ);
    hide ContentKeep, KeptKey;
    if k == "m.relates_to" {
      hide Signed;
      if r.redactionKeepsRelations && k in c && c[k].Obj? {
        hide RedactedRelation;
        RelationExactly(c, Pruned(r, typ, c));
      }
    } else {
      hide RedactedRelation;
    }
  }

  /** Redaction keeps all of a create event's content in the room versions of the newer algorithm, and else
      of an object content exactly what KeptOf says of every key. */
  lemma ContentExactly(r: Rules, full: Fields, c: Fields, k: string)
    requires "content" in full && full["content"] == Obj(c)
    ensures var typ := if "type" in full && full["type"].Str? then full["type"].s else "";
      var out := Redacted(r, full)["content"];
      if typ == "m.room.create" && r.updatedRedaction then out == Obj(c)
      else out.Obj? && KeptOf(r, typ, c, out.fields, k)
  {
    var typ := TypeOf(full);
    KeptWhole(r, typ);
    if !(typ == "m.room.create" && r.updatedRedaction) { PrunedExactly(r, typ, c, k); }
    hide ContentKeep, KeptOf, TopLevelKeep, Pruned;
  }

  /** A content that is missing, or no object, becomes the empty one. */
  lemma OtherContentEmptied(r: Rules, full: Fields)
    requires "content" in full ==> !full["content"].Obj?
    ensures Redacted(r, full)["content"] ==
      if "content" in full && r.updatedRedaction && "type" in full && full["type"] == Str("m.room.create")
      then full["content"] else Obj(map[])
  {
    KeptWhole(r, TypeOf(full));
    hide ContentKeep, KeptKey, TopLevelKeep;
  }
}
