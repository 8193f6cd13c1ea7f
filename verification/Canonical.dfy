/** Canonical JSON (internal/canonicaljson/canonicaljson.go): the printer, and the theorems that
    make its output fit for hashing and signing. */
module Canonical {
  import opened Wrappers
  import opened Sorting
  import opened Lexical
  import opened Decimal
  import opened Utf8
  import opened Json

  const MAX_SAFE := 0x1F_FFFF_FFFF_FFFF
  const HEX: string := "0123456789abcdef"

  /** strconv.ParseFloat of a literal: the integer the nearest float is, None when that float is
      fractional or infinite, or the text is no number. */
  type Floats = string -> Option<int>

  // ---- what is printed ----

  function InRange(i: int): Option<string> {
    if -MAX_SAFE <= i <= MAX_SAFE then Some(FormatInt(i)) else None
  }

  function CanonNumber(fl: Floats, lit: string): Option<string> {
    match ParseInt64(lit)
    case Some(i) => InRange(i)
    case None => match fl(lit) case None => None case Some(f) => InRange(f)
  }

  function EscapeByte(c: char): string
    requires c as int < 0x80
  {
    match c
    case '"' => "\\\""
    case '\\' => "\\\\"
    case '\n' => "\\n"
    case '\r' => "\\r"
    case '\t' => "\\t"
    case _ =>
      if c as int == 0x08 then "\\b"
      else if c as int == 0x0C then "\\f"
      else if c < ' ' then "\\u00" + [HEX[c as int / 16], HEX[c as int % 16]]
      else [c]
  }

  /** The first character of a string and how it is printed: escaped only where JSON demands it; a
      byte that is no UTF-8 is printed as U+FFFD. */
  function Escaped(s: string): (p: Piece)
    requires s != ""
    ensures 1 <= p.len <= |s|
  {
    if s[0] as int < 0x80 then Piece(1, EscapeByte(s[0]))
    else if RuneSize(s) > 0 then Piece(RuneSize(s), s[..RuneSize(s)])
    else Piece(1, REPLACEMENT)
  }

  /** The body of a printed string. */
  function Quoted(s: string): string
    decreases |s|
  {
    if s == "" then "" else Escaped(s).text + Quoted(s[Escaped(s).len..])
  }

  predicate Printable(fl: Floats, v: Json)
    decreases v
  {
    match v
    case Num(lit) => CanonNumber(fl, lit).Some?
    case Arr(items) => forall i | 0 <= i < |items| :: Printable(fl, items[i])
    case Obj(fields) => forall k | k in fields :: Printable(fl, fields[k])
    case _ => true
  }

  /** The keys of an object in the order they are printed. */
  ghost function SortedKeys(fields: map<string, Json>): (r: seq<string>)
    ensures forall k :: k in r <==> k in fields
  {
    LessIsTotal(fields.Keys);
    SortSet(ByBytes(), fields.Keys)
  }

  lemma KeysAscend(fields: map<string, Json>)
    ensures Ascending(ByBytes(), SortedKeys(fields))
  {
    LessIsTotal(fields.Keys);
    SortSetAscending(ByBytes(), fields.Keys);
  }

  /** The canonical document of a value: no whitespace, members sorted, numbers in plain decimal. */
  ghost function NodeOf(fl: Floats, v: Json): Node
    requires Printable(fl, v)
    decreases v, 1, 0
  {
    match v
    case Null => NNull
    case Bool(b) => NBool(b)
    case Num(lit) => NNum(CanonNumber(fl, lit).value)
    case Str(s) => NStr(Quoted(s))
    case Arr(items) => NArr("", ItemsOf(fl, items))
    case Obj(fields) => NObj("", MembersOf(fl, v, SortedKeys(fields)))
  }

  ghost function ItemsOf(fl: Floats, items: seq<Json>): (r: seq<Doc>)
    requires forall i | 0 <= i < |items| :: Printable(fl, items[i])
    ensures |r| == |items|
    decreases items, 0, 0
  {
    if items == [] then [] else
      ItemsOf(fl, items[..|items| - 1]) + [Doc("", NodeOf(fl, items[|items| - 1]), "")]
  }

  ghost function MemberOf(fl: Floats, v: Json, k: string): Member
    requires v.Obj? && k in v.fields && Printable(fl, v.fields[k])
    decreases v, 0, 0
  {
    Member("", Quoted(k), "", Doc("", NodeOf(fl, v.fields[k]), ""))
  }

  ghost function MembersOf(fl: Floats, v: Json, keys: seq<string>): (r: seq<Member>)
    requires v.Obj? && forall k | k in keys :: k in v.fields && Printable(fl, v.fields[k])
    ensures |r| == |keys|
    decreases v, 0, |keys| + 1
  {
    if keys == [] then [] else
      MembersOf(fl, v, keys[..|keys| - 1]) + [MemberOf(fl, v, keys[|keys| - 1])]
  }

  /** The canonical text of a value. */
  ghost function Text(fl: Floats, v: Json): string
    requires Printable(fl, v)
  {
    RenderNode(NodeOf(fl, v))
  }

  // ---- the program ----

  lemma ItemsAppend(ds: seq<Doc>, d: Doc)
    requires ds != []
    ensures RenderItems(ds + [d]) == RenderItems(ds) + ("," + RenderDoc(d))
    decreases ds
  {
    var all := ds + [d];
    if |ds| == 1 {
      assert all[1..] == [d];
      Assoc(RenderDoc(ds[0]), ",", RenderDoc(d));
    } else {
      assert all[1..] == ds[1..] + [d];
      ItemsAppend(ds[1..], d);
      Assoc(RenderDoc(ds[0]), "," + RenderItems(ds[1..]), "," + RenderDoc(d));
      Assoc(",", RenderItems(ds[1..]), "," + RenderDoc(d));
    }
  }

  lemma MembersAppend(ms: seq<Member>, m: Member)
    requires ms != []
    ensures RenderMembers(ms + [m]) == RenderMembers(ms) + ("," + RenderMember(m))
    decreases ms
  {
    var all := ms + [m];
    hide RenderMember;
    if |ms| == 1 {
      assert all[1..] == [m];
      assert RenderMembers(all[1..]) == RenderMember(m) + "" == RenderMember(m);
      assert RenderMembers(ms) == RenderMember(ms[0]) + "" == RenderMember(ms[0]);
    } else {
      assert all[1..] == ms[1..] + [m];
      MembersAppend(ms[1..], m);
      Assoc(RenderMember(ms[0]), "," + RenderMembers(ms[1..]), "," + RenderMember(m));
      Assoc(",", RenderMembers(ms[1..]), "," + RenderMember(m));
    }
  }

  /** What has been written of an array or object body. */
  ghost function Written(ds: seq<Doc>): string { if ds == [] then "" else RenderItems(ds) }
  ghost function WrittenMembers(ms: seq<Member>): string { if ms == [] then "" else RenderMembers(ms) }

  lemma WrittenMore(ds: seq<Doc>, d: Doc)
    ensures Written(ds + [d]) == Written(ds) + (if ds == [] then "" else ",") + RenderDoc(d)
  {
    if ds == [] {
      assert ds + [d] == [d];
      assert RenderItems([d]) == RenderDoc(d) + "" == RenderDoc(d);
    } else {
      ItemsAppend(ds, d);
      Assoc(RenderItems(ds), ",", RenderDoc(d));
    }
  }

  lemma WrittenMemberMore(ms: seq<Member>, m: Member)
    ensures WrittenMembers(ms + [m]) == WrittenMembers(ms) + (if ms == [] then "" else ",") + RenderMember(m)
  {
    hide RenderMember;
    if ms == [] {
      assert ms + [m] == [m];
      assert RenderMembers([m]) == RenderMember(m) + "" == RenderMember(m);
    } else {
      MembersAppend(ms, m);
      hide RenderMembers;
      Assoc(RenderMembers(ms), ",", RenderMember(m));
    }
  }

  lemma PlainDoc(n: Node)
    ensures RenderDoc(Doc("", n, "")) == RenderNode(n)
  {
    assert "" + RenderNode(n) + "" == RenderNode(n);
  }

  lemma PlainMember(raw: string, n: Node)
    ensures RenderMember(Member("", raw, "", Doc("", n, ""))) == "\"" + raw + "\"" + ":" + RenderNode(n)
  {
    PlainDoc(n);
    var t := RenderNode(n);
    hide RenderNode, RenderDoc;
    assert "" + (":" + t) == ":" + t;
    Assoc("\"", ":", t);
    Assoc("\"" + raw, "\"", ":" + t);
    Assoc("\"", raw, "\"" + (":" + t));
  }

  class Buffer {
    var bytes: string

    constructor ()
      ensures bytes == ""
    {
      bytes := "";
    }

    method WriteString(s: string)
      modifies this
      ensures bytes == old(bytes) + s
    {
      bytes := bytes + s;
    }

    /** Writes the character at position i and returns how many bytes of s it took. */
    method EncodeCharacter(s: string, i: nat) returns (n: nat)
      requires i < |s|
      modifies this
      ensures n == Escaped(s[i..]).len && bytes == old(bytes) + Escaped(s[i..]).text
    {
      var c := s[i];
      if c as int < 0x80 {
        WriteString(EscapeByte(c));
        return 1;
      }
      var size := RuneSize(s[i..]);
      if size == 0 {
        WriteString(REPLACEMENT);
        return 1;
      }
      assert s[i..][..size] == s[i..i + size];
      WriteString(s[i..i + size]);
      return size;
    }

    method EncodeString(s: string)
      modifies this
      ensures bytes == old(bytes) + ("\"" + Quoted(s) + "\"")
    {
      hide Escaped;
      WriteString("\"");
      ghost var start := bytes;
      var i := 0;
      assert s[0..] == s;
      while i < |s|
        invariant 0 <= i <= |s|
        invariant bytes + Quoted(s[i..]) == start + Quoted(s)
      {
        ghost var before := bytes;
        var n := EncodeCharacter(s, i);
        assert s[i..][n..] == s[i + n..];
        Assoc(before, Escaped(s[i..]).text, Quoted(s[i + n..]));
        i := i + n;
      }
      assert s[i..] == "" && bytes + "" == bytes;
      WriteString("\"");
      Assoc(old(bytes), "\"", Quoted(s));
      Assoc(old(bytes), "\"" + Quoted(s), "\"");
    }

    method EncodeNumber(fl: Floats, lit: string) returns (ok: bool)
      modifies this
      ensures ok == CanonNumber(fl, lit).Some?
      ensures ok ==> bytes == old(bytes) + CanonNumber(fl, lit).value
    {
      var i := ParseInt64(lit);
      if i.Some? {
        if i.value > MAX_SAFE || i.value < -MAX_SAFE {
          return false;
        }
        WriteString(FormatInt(i.value));
        return true;
      }
      var f := fl(lit);
      if f.None? {
        return false;
      }
      if f.value > MAX_SAFE || f.value < -MAX_SAFE {
        return false;
      }
      WriteString(FormatInt(f.value));
      return true;
    }

    /** Appends the canonical text of v, or reports that some number in it has none. */
    method Encode(fl: Floats, v: Json) returns (ok: bool)
      modifies this
      ensures ok == Printable(fl, v)
      ensures ok ==> bytes == old(bytes) + Text(fl, v)
      decreases v, 3
    {
      match v
      case Null => WriteString("null"); ok := true;
      case Bool(b) => WriteString(if b then "true" else "false"); ok := true;
      case Num(lit) => ok := EncodeNumber(fl, lit);
      case Str(s) => EncodeString(s); ok := true;
      case Arr(items) => ok := EncodeItems(fl, v);
      case Obj(fields) => ok := EncodeMembers(fl, v);
    }

    method EncodeItems(fl: Floats, v: Json) returns (ok: bool)
      requires v.Arr?
      modifies this
      ensures ok == Printable(fl, v)
      ensures ok ==> bytes == old(bytes) + Text(fl, v)
      decreases v, 2
    {
      hide Written, RenderDoc, RenderNode, NodeOf;
      ghost var start := bytes;
      WriteString("[");
      assert Written([]) == "" by { EmptyWritten(); }
      for i := 0 to |v.items|
        invariant forall j | 0 <= j < i :: Printable(fl, v.items[j])
        invariant bytes == start + ("[" + Written(ItemsOf(fl, v.items[..i])))
      {
        ghost var before, sep := ItemsOf(fl, v.items[..i]), if i > 0 then "," else "";
        if i > 0 {
          WriteString(",");
        }
        assert bytes == start + ("[" + Written(before)) + sep;
        ok := Encode(fl, v.items[i]);
        if !ok {
          return;
        }
        ItemStep(fl, v.items, i);
        Extend(start, "[", Written(before), sep, RenderNode(NodeOf(fl, v.items[i])));
      }
      assert v.items[..|v.items|] == v.items;
      WriteString("]");
      Close(start, "[", Written(ItemsOf(fl, v.items)), "]");
      ArrayText(fl, v);
      return true;
    }

    method EncodeMember(fl: Floats, v: Json, k: string) returns (ok: bool)
      requires v.Obj? && k in v.fields
      modifies this
      ensures ok == Printable(fl, v.fields[k])
      ensures ok ==> bytes == old(bytes) + RenderMember(MemberOf(fl, v, k))
      decreases v, 1
    {
      ghost var start := bytes;
      EncodeString(k);
      WriteString(":");
      ok := Encode(fl, v.fields[k]);
      if ok {
        ghost var key, value := "\"" + Quoted(k) + "\"", RenderNode(NodeOf(fl, v.fields[k]));
        PlainMember(Quoted(k), NodeOf(fl, v.fields[k]));
        hide RenderMember, RenderNode, NodeOf, Quoted;
        Assoc(start, key, ":");
        Assoc(start, key + ":", value);
      }
    }

    method EncodeMembers(fl: Floats, v: Json) returns (ok: bool)
      requires v.Obj?
      modifies this
      ensures ok == Printable(fl, v)
      ensures ok ==> bytes == old(bytes) + Text(fl, v)
      decreases v, 2
    {
      hide WrittenMembers, RenderMember, RenderNode, NodeOf, MemberOf, SortedKeys, Text, Escaped, Quoted;
      ghost var start := bytes;
      var keys := KeysInOrder(v.fields);
      WriteString("{");
      assert WrittenMembers([]) == "" by { EmptyWritten(); }
      for i := 0 to |keys|
        invariant forall k | k in keys[..i] :: k in v.fields && Printable(fl, v.fields[k])
        invariant bytes == start + ("{" + WrittenMembers(MembersOf(fl, v, keys[..i])))
      {
        ghost var before, sep := MembersOf(fl, v, keys[..i]), if i > 0 then "," else "";
        assert keys[i] in keys;
        if i > 0 {
          WriteString(",");
        }
        assert bytes == start + ("{" + WrittenMembers(before)) + sep;
        ok := EncodeMember(fl, v, keys[i]);
        if !ok {
          return;
        }
        MemberStep(fl, v, keys, i);
        Extend(start, "{", WrittenMembers(before), sep, RenderMember(MemberOf(fl, v, keys[i])));
      }
      assert keys[..|keys|] == keys;
      WriteString("}");
      Close(start, "{", WrittenMembers(MembersOf(fl, v, keys)), "}");
      ObjectText(fl, v);
      return true;
    }
  }

  method KeysInOrder(fields: map<string, Json>) returns (keys: seq<string>)
    ensures keys == SortedKeys(fields)
  {
    var list := ListOf(fields.Keys);
    assert Elems(list) == fields.Keys;
    LessIsTotal(fields.Keys);
    keys := Sort(ByBytes(), list);
  }

  lemma EmptyWritten()
    ensures Written([]) == "" && WrittenMembers([]) == ""
  {
  }

  lemma Extend(start: string, open: string, w: string, sep: string, t: string)
    ensures start + (open + w) + sep + t == start + (open + (w + sep + t))
  {
    Assoc(start, open + w, sep);
    Assoc(open, w, sep);
    Assoc(start, open + (w + sep), t);
    Assoc(open, w + sep, t);
  }

  lemma Close(start: string, open: string, w: string, close: string)
    ensures start + (open + w) + close == start + (open + w + close)
  {
  }

  lemma ItemStep(fl: Floats, items: seq<Json>, i: nat)
    requires i < |items| && forall j | 0 <= j <= i :: Printable(fl, items[j])
    ensures Written(ItemsOf(fl, items[..i + 1])) ==
      Written(ItemsOf(fl, items[..i])) + (if i > 0 then "," else "") + RenderNode(NodeOf(fl, items[i]))
  {
    hide RenderDoc, RenderNode, NodeOf, Written;
    var before, d := ItemsOf(fl, items[..i]), Doc("", NodeOf(fl, items[i]), "");
    assert items[..i + 1][..i] == items[..i];
    assert ItemsOf(fl, items[..i + 1]) == before + [d];
    WrittenMore(before, d);
    PlainDoc(d.node);
  }

  lemma MemberStep(fl: Floats, v: Json, keys: seq<string>, i: nat)
    requires v.Obj? && i < |keys| && forall k | k in keys[..i] || k == keys[i] ::
      k in v.fields && Printable(fl, v.fields[k])
    ensures forall k | k in keys[..i + 1] :: k in keys[..i] || k == keys[i]
    ensures WrittenMembers(MembersOf(fl, v, keys[..i + 1])) ==
      WrittenMembers(MembersOf(fl, v, keys[..i])) + (if i > 0 then "," else "") + RenderMember(MemberOf(fl, v, keys[i]))
  {
    hide RenderMember, RenderNode, NodeOf, MemberOf, WrittenMembers;
    assert keys[..i + 1] == keys[..i] + [keys[i]];
    assert keys[..i + 1][..i] == keys[..i];
    WrittenMemberMore(MembersOf(fl, v, keys[..i]), MemberOf(fl, v, keys[i]));
  }

  lemma ArrayText(fl: Floats, v: Json)
    requires v.Arr? && Printable(fl, v)
    ensures Text(fl, v) == "[" + Written(ItemsOf(fl, v.items)) + "]"
  {
  }

  lemma ObjectText(fl: Floats, v: Json)
    requires v.Obj? && Printable(fl, v)
    ensures Text(fl, v) == "{" + WrittenMembers(MembersOf(fl, v, SortedKeys(v.fields))) + "}"
  {
    hide SortedKeys, RenderMember;
  }

  /** Canonical, for every input. */
  ghost function CanonicalOf(fl: Floats, input: string): Option<string> {
    match DecodeAll(input)
    case None => None
    case Some(v) => if Printable(fl, v) then Some(Text(fl, v)) else None
  }

  method CanonicalText(fl: Floats, input: string) returns (r: Option<string>)
    ensures r == CanonicalOf(fl, input)
  {
    var v := DecodeAll(input);
    if v.None? {
      return None;
    }
    var buf := new Buffer();
    var ok := buf.Encode(fl, v.value);
    if !ok {
      return None;
    }
    assert buf.bytes == Text(fl, v.value);
    return Some(buf.bytes);
  }
}
