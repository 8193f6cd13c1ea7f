/** What Canonical JSON promises: the printed text reads back as the value, so it is injective on
    values, a fixed point of itself, and blind to whitespace, member order and spelling. */
module CanonicalTheorems {
  import opened Wrappers
  import opened Sorting
  import opened Lexical
  import opened Decimal
  import opened Utf8
  import opened Json
  import opened JsonDocuments
  import opened Canonical

  // ---- strings ----

  lemma HexDigit(d: nat)
    requires d < 16
    ensures HexValue(HEX[d]) == d && HEX[d] != '"'
  {
  }

  lemma ControlReads(c: char, t: string)
    requires c as int < 0x20
    ensures var e := "\\u00" + [HEX[c as int / 16], HEX[c as int % 16]]; FirstPiece(e + t) == Some(Piece(6, [c]))
  {
    var e := "\\u00" + [HEX[c as int / 16], HEX[c as int % 16]];
    var s := e + t;
    assert forall i | 0 <= i < 6 :: s[i] == e[i];
    HexDigit(c as int / 16);
    HexDigit(c as int % 16);
    HexDigit(0);
    hide HexValue;
    assert CodeUnit(s) == c as int;
    assert EncodeRune(c as int) == [c];
    hide CodeUnit, EncodeRune;
  }

  lemma EscapedByteReads(c: char, t: string)
    requires c as int < 0x80
    ensures var e := EscapeByte(c); e != "" && e[0] != '"' && FirstPiece(e + t) == Some(Piece(|e|, [c]))
  {
    var e := EscapeByte(c);
    var s := e + t;
    assert forall i | 0 <= i < |e| :: s[i] == e[i];
    if |e| == 6 {
      ControlReads(c, t);
    } else if |e| == 1 {
      assert s[..1] == [c];
    }
    hide CodeUnit, EncodeRune;
  }

  lemma EscapedReads(s: string, t: string)
    requires s != "" && Valid(s)
    ensures var p := Escaped(s);
      && p.text != "" && p.text[0] != '"' && Valid(s[p.len..])
      && FirstPiece(p.text + t) == Some(Piece(|p.text|, s[..p.len]))
  {
    if s[0] as int < 0x80 {
      EscapedByteReads(s[0], t);
      assert s[..1] == [s[0]];
    } else {
      var n := RuneSize(s);
      var u := s[..n] + t;
      assert u[..n] == s[..n];
      RuneFront(s, u);
      assert u[0] == s[0];
    }
  }

  lemma PieceThenRest(s: string, p: Piece, t: string, rest: string)
    requires p.len <= |s| && p.text != "" && p.text[0] != '"'
    requires FirstPiece(p.text + t) == Some(Piece(|p.text|, s[..p.len])) && ParseChars(t) == Got(s[p.len..], rest)
    ensures ParseChars(p.text + t) == Got(s, rest)
  {
    hide FirstPiece;
    assert (p.text + t)[|p.text|..] == t;
    assert s[..p.len] + s[p.len..] == s;
  }

  /** The decoder reads a printed string back exactly. */
  lemma {:induction false} QuotedReads(s: string, rest: string)
    requires Valid(s)
    ensures ParseChars(Quoted(s) + ("\"" + rest)) == Got(s, rest)
    decreases |s|
  {
    if s == "" {
      assert Quoted(s) + ("\"" + rest) == "\"" + rest;
      assert ("\"" + rest)[1..] == rest;
    } else {
      var p := Escaped(s);
      var t := Quoted(s[p.len..]) + ("\"" + rest);
      assert Quoted(s) == p.text + Quoted(s[p.len..]);
      Assoc(p.text, Quoted(s[p.len..]), "\"" + rest);
      EscapedReads(s, t);
      QuotedReads(s[p.len..], rest);
      PieceThenRest(s, p, t, rest);
    }
  }

  lemma QuotedRaw(s: string)
    requires Valid(s)
    ensures RawOk(Quoted(s)) && RawText(Quoted(s)) == s
  {
    QuotedReads(s, "");
    assert "\"" + "" == "\"";
  }

  // ---- numbers ----

  lemma {:induction false} RunOfDigits(s: string)
    requires AllDigits(s)
    ensures DigitRun(s) == |s|
    decreases |s|
  {
    if s != "" {
      assert IsDigit(s[0]);
      RunOfDigits(s[1..]);
    }
  }

  lemma FormattedIsNumber(i: int)
    ensures NumberLen(FormatInt(i)) == |FormatInt(i)| > 0
  {
    var n: nat := if i < 0 then -i else i;
    DigitsValue(n);
    RunOfDigits(Digits(n));
    assert IsDigit(Digits(n)[0]);
    assert Digits(n)[|Digits(n)|..] == "";
    if i < 0 { assert FormatInt(i)[1..] == Digits(n); }
  }

  lemma CanonNumberFixed(fl: Floats, lit: string)
    requires CanonNumber(fl, lit).Some?
    ensures var t := CanonNumber(fl, lit).value; CanonNumber(fl, t) == Some(t) && t != "" && NumberLen(t) == |t|
  {
    var i := match ParseInt64(lit) case Some(i) => i case None => fl(lit).value;
    assert CanonNumber(fl, lit) == Some(FormatInt(i));
    FormattedIsNumber(i);
    ParseFormat(i);
  }

  // ---- values ----

  /** The value with every number in plain decimal. */
  function Norm(fl: Floats, v: Json): Json
    requires Printable(fl, v)
    decreases v
  {
    match v
    case Num(lit) => Num(CanonNumber(fl, lit).value)
    case Arr(items) => Arr(seq(|items|, i requires 0 <= i < |items| => Norm(fl, items[i])))
    case Obj(fields) => Obj(map k | k in fields :: Norm(fl, fields[k]))
    case _ => v
  }

  lemma {:induction false} ItemsValue(fl: Floats, items: seq<Json>)
    requires forall i | 0 <= i < |items| :: WellFormed(items[i]) && Printable(fl, items[i])
    ensures forall d | d in ItemsOf(fl, items) :: DocOk(d)
    ensures Values(ItemsOf(fl, items)) == NormsOf(fl, items)
    decreases items, 0, 0
  {
    hide *;
    if items == [] {
      NormsEmpty(fl);
      NoValues();
    } else {
      var init, last := items[..|items| - 1], items[|items| - 1];
      ItemsValue(fl, init);
      NodeValueIsNorm(fl, last);
      var d := Doc("", NodeOf(fl, last), "");
      PlainDocOk(d.node);
      ItemsOpen(fl, items);
      NormsSplit(fl, items);
      ValuesAppend(ItemsOf(fl, init), d);
      var ns := NormsOf(fl, items);
      assert ns == ns[..|ns| - 1] + [ns[|ns| - 1]];
    }
  }

  lemma NoValues()
    ensures Values([]) == []
  {
  }

  lemma PlainDocOk(n: Node)
    requires NodeOk(n)
    ensures DocOk(Doc("", n, "")) && DocValue(Doc("", n, "")) == NodeValue(n)
  {
    hide NodeOk, NodeValue;
  }

  lemma NormOfArray(fl: Floats, items: seq<Json>)
    requires forall i | 0 <= i < |items| :: Printable(fl, items[i])
    ensures Printable(fl, Arr(items)) && Norm(fl, Arr(items)) == Arr(NormsOf(fl, items))
  {
  }

  lemma {:induction false} ValuesAppend(ds: seq<Doc>, d: Doc)
    requires DocOk(d) && forall x | x in ds :: DocOk(x)
    ensures (forall x | x in ds + [d] :: DocOk(x)) && Values(ds + [d]) == Values(ds) + [DocValue(d)]
    decreases ds
  {
    hide DocOk, DocValue;
    var all := ds + [d];
    if ds == [] {
      assert all == [d] && all[1..] == [];
    } else {
      assert all[0] == ds[0] && all[1..] == ds[1..] + [d];
      ValuesAppend(ds[1..], d);
    }
  }

  lemma {:induction false} PairsAppend(ms: seq<Member>, m: Member)
    requires MemberOk(m) && RawOk(m.raw) && DocOk(m.doc) && forall x | x in ms :: MemberOk(x)
    ensures (forall x | x in ms + [m] :: MemberOk(x))
      && Pairs(ms + [m]) == Pairs(ms) + [(RawText(m.raw), DocValue(m.doc))]
    decreases ms
  {
    hide MemberOk, DocValue, RawText, RawOk, DocOk;
    var all := ms + [m];
    if ms == [] {
      assert all == [m] && all[1..] == [];
    } else {
      assert all[0] == ms[0] && all[1..] == ms[1..] + [m];
      PairsAppend(ms[1..], m);
    }
  }

  /** The printed members are the sorted keys with their normalised values. */
  ghost predicate PairsListed(fl: Floats, v: Json, keys: seq<string>, ps: seq<(string, Json)>)
    requires v.Obj? && forall k | k in keys :: k in v.fields && Printable(fl, v.fields[k])
  {
    |ps| == |keys| && forall i | 0 <= i < |keys| :: ps[i] == (keys[i], Norm(fl, v.fields[keys[i]]))
  }

  lemma {:induction false} MembersValue(fl: Floats, v: Json, keys: seq<string>)
    requires v.Obj? && WellFormed(v) && forall k | k in keys :: k in v.fields && Printable(fl, v.fields[k])
    ensures var ms := MembersOf(fl, v, keys);
      (forall m | m in ms :: MemberOk(m)) && PairsListed(fl, v, keys, Pairs(ms))
    decreases v, 0, |keys| + 1
  {
    if keys != [] {
      var init, k := keys[..|keys| - 1], keys[|keys| - 1];
      assert k in keys;
      MembersValue(fl, v, init);
      NodeValueIsNorm(fl, v.fields[k]);
      OneMemberValue(fl, v, k);
      var m := MemberOf(fl, v, k);
      hide NodeOf, Norm, NodeOk, NodeValue, RawOk, RawText, Quoted, WellFormed, Printable, MemberOk, DocOk, DocValue;
      PairsAppend(MembersOf(fl, v, init), m);
      hide Pairs, MemberOf;
      assert MembersOf(fl, v, keys) == MembersOf(fl, v, init) + [m];
      hide MembersOf;
      ListedMore(fl, v, keys, Pairs(MembersOf(fl, v, init)));
    }
  }

  lemma OneMemberValue(fl: Floats, v: Json, k: string)
    requires v.Obj? && WellFormed(v) && k in v.fields && Printable(fl, v.fields[k])
    requires NodeOk(NodeOf(fl, v.fields[k])) && NodeValue(NodeOf(fl, v.fields[k])) == Norm(fl, v.fields[k])
    ensures var m := MemberOf(fl, v, k);
      && MemberOk(m) && RawOk(m.raw) && DocOk(m.doc) && RawText(m.raw) == k
      && DocValue(m.doc) == Norm(fl, v.fields[k])
  {
    QuotedRaw(k);
    hide NodeOf, Norm, NodeOk, NodeValue, RawOk, RawText, Quoted, Printable;
  }

  lemma ListedMore(fl: Floats, v: Json, keys: seq<string>, ps: seq<(string, Json)>)
    requires v.Obj? && keys != [] && forall k | k in keys :: k in v.fields && Printable(fl, v.fields[k])
    requires PairsListed(fl, v, keys[..|keys| - 1], ps)
    ensures keys[|keys| - 1] in keys
    ensures PairsListed(fl, v, keys, ps + [(keys[|keys| - 1], Norm(fl, v.fields[keys[|keys| - 1]]))])
  {
    hide Norm, Printable;
    assert keys[|keys| - 1] in keys && forall k | k in keys[..|keys| - 1] :: k in keys;
  }

  lemma MapListed(fl: Floats, v: Json, keys: seq<string>, ps: seq<(string, Json)>)
    requires v.Obj? && Printable(fl, v) && forall k :: k in keys <==> k in v.fields
    requires PairsListed(fl, v, keys, ps)
    ensures Obj(MapOf(ps)) == Norm(fl, v)
  {
    MapOfEntries(ps);
    var m, n := MapOf(ps), Norm(fl, v).fields;
    forall k ensures k in m <==> k in n {
      if k in n {
        var i :| 0 <= i < |keys| && keys[i] == k;
        assert ps[i].0 == k;
      }
    }
    forall k | k in m ensures m[k] == n[k] {
      var i :| 0 <= i < |ps| && ps[i].0 == k && ps[i].1 == m[k];
    }
    assert m == n;
  }

  lemma StrWellFormed(s: string)
    requires WellFormed(Str(s))
    ensures Valid(s)
  {
  }

  lemma ArrWellFormed(items: seq<Json>)
    requires WellFormed(Arr(items))
    ensures forall i | 0 <= i < |items| :: WellFormed(items[i])
  {
  }

  /** The canonical document is well formed and stands for the normalised value. */
  lemma {:induction false} NodeValueIsNorm(fl: Floats, v: Json)
    requires WellFormed(v) && Printable(fl, v)
    ensures NodeOk(NodeOf(fl, v)) && NodeValue(NodeOf(fl, v)) == Norm(fl, v)
    decreases v, 1, 0
  {
    hide WellFormed, Quoted, RawOk, RawText, CanonNumber, ItemsOf, MembersOf, SortedKeys, Values, Pairs, MapOf,
      PairsListed;
    match v
    case Num(lit) => CanonNumberFixed(fl, lit);
    case Str(s) => StrWellFormed(s); QuotedRaw(s);
    case Arr(items) => ArrWellFormed(items); ItemsValue(fl, items); NormOfArray(fl, items);
    case Obj(fields) =>
      var keys := SortedKeys(fields);
      MembersValue(fl, v, keys);
      MapListed(fl, v, keys, Pairs(MembersOf(fl, v, keys)));
    case _ =>
  }

  /** Round trip: decoding the canonical text gives the value back, numbers in plain decimal. */
  lemma RoundTrip(fl: Floats, v: Json)
    requires WellFormed(v) && Printable(fl, v)
    ensures DecodeAll(Text(fl, v)) == Some(Norm(fl, v))
  {
    NodeValueIsNorm(fl, v);
    var d := Doc("", NodeOf(fl, v), "");
    assert DocOk(d);
    DecodeRendered(d);
    PlainDoc(d.node);
  }

  /** Every number of v is a plain decimal integer within the safe range. */
  predicate PlainIntegers(v: Json)
    decreases v
  {
    match v
    case Num(lit) => exists i :: -MAX_SAFE <= i <= MAX_SAFE && lit == FormatInt(i)
    case Arr(items) => forall i | 0 <= i < |items| :: PlainIntegers(items[i])
    case Obj(fields) => forall k | k in fields :: PlainIntegers(fields[k])
    case _ => true
  }

  lemma {:induction false} PlainIsNormal(fl: Floats, v: Json)
    requires PlainIntegers(v)
    ensures Printable(fl, v) && Norm(fl, v) == v
    decreases v
  {
    match v
    case Num(lit) =>
      var i :| -MAX_SAFE <= i <= MAX_SAFE && lit == FormatInt(i);
      ParseFormat(i);
    case Arr(items) =>
      forall i | 0 <= i < |items| ensures Printable(fl, items[i]) && Norm(fl, items[i]) == items[i] {
        PlainIsNormal(fl, items[i]);
      }
    case Obj(fields) =>
      forall k | k in fields ensures Printable(fl, fields[k]) && Norm(fl, fields[k]) == fields[k] {
        PlainIsNormal(fl, fields[k]);
      }
    case _ =>
  }

  /** For integers in the safe range and valid UTF-8, printing and decoding are exact inverses. */
  lemma ExactRoundTrip(fl: Floats, v: Json)
    requires WellFormed(v) && PlainIntegers(v)
    ensures Printable(fl, v) && DecodeAll(Text(fl, v)) == Some(v)
  {
    PlainIsNormal(fl, v);
    RoundTrip(fl, v);
  }

  // ---- normalising changes nothing that is printed ----

  lemma {:induction false} NormPrints(fl: Floats, v: Json)
    requires Printable(fl, v)
    ensures Printable(fl, Norm(fl, v)) && NodeOf(fl, Norm(fl, v)) == NodeOf(fl, v)
    decreases v, 1, 0
  {
    match v
    case Num(lit) => CanonNumberFixed(fl, lit);
    case Arr(items) =>
      NormItems(fl, items);
      assert Norm(fl, v).items == NormsOf(fl, items);
    case Obj(fields) =>
      var n := Norm(fl, v);
      forall k | k in n.fields ensures Printable(fl, n.fields[k]) { NormPrints(fl, fields[k]); }
      assert n.fields.Keys == fields.Keys;
      assert SortedKeys(n.fields) == SortedKeys(fields);
      NormMembers(fl, v, SortedKeys(fields));
    case _ =>
  }

  function NormsOf(fl: Floats, items: seq<Json>): (r: seq<Json>)
    requires forall i | 0 <= i < |items| :: Printable(fl, items[i])
    ensures |r| == |items|
  {
    seq(|items|, i requires 0 <= i < |items| => Norm(fl, items[i]))
  }

  lemma NormsSplit(fl: Floats, items: seq<Json>)
    requires items != [] && forall i | 0 <= i < |items| :: Printable(fl, items[i])
    ensures var ns, init := NormsOf(fl, items), items[..|items| - 1];
      ns[..|ns| - 1] == NormsOf(fl, init) && ns[|ns| - 1] == Norm(fl, items[|items| - 1])
  {
    hide Norm;
  }

  lemma NormsEmpty(fl: Floats)
    ensures NormsOf(fl, []) == [] && ItemsOf(fl, []) == []
  {
  }

  /** One step of the list of printed items. */
  lemma ItemsOpen(fl: Floats, items: seq<Json>)
    requires items != [] && forall i | 0 <= i < |items| :: Printable(fl, items[i])
    ensures ItemsOf(fl, items) == ItemsOf(fl, items[..|items| - 1]) + [Doc("", NodeOf(fl, items[|items| - 1]), "")]
  {
    hide NodeOf, Printable;
  }

  /** The normalised items print when all but the last do and the last does. */
  lemma NormsPrint(fl: Floats, items: seq<Json>)
    requires items != [] && forall i | 0 <= i < |items| :: Printable(fl, items[i])
    requires forall x | x in NormsOf(fl, items[..|items| - 1]) :: Printable(fl, x)
    requires Printable(fl, Norm(fl, items[|items| - 1]))
    ensures forall i | 0 <= i < |NormsOf(fl, items)| :: Printable(fl, NormsOf(fl, items)[i])
  {
    NormsSplit(fl, items);
    hide Norm, Printable, NormsOf;
    var ns := NormsOf(fl, items);
    forall i | 0 <= i < |ns| ensures Printable(fl, ns[i]) {
      if i < |ns| - 1 { assert ns[..|ns| - 1][i] == ns[i]; }
    }
  }

  lemma {:induction false} NormItems(fl: Floats, items: seq<Json>)
    requires forall i | 0 <= i < |items| :: Printable(fl, items[i])
    ensures var ns := NormsOf(fl, items);
      (forall i | 0 <= i < |ns| :: Printable(fl, ns[i])) && ItemsOf(fl, ns) == ItemsOf(fl, items)
    decreases items, 0, 0
  {
    hide *;
    if items == [] {
      NormsEmpty(fl);
    } else {
      var init, last := items[..|items| - 1], items[|items| - 1];
      NormItems(fl, init);
      NormPrints(fl, last);
      NormsSplit(fl, items);
      NormsPrint(fl, items);
      ItemsOpen(fl, items);
      ItemsOpen(fl, NormsOf(fl, items));
    }
  }

  lemma {:induction false} NormMembers(fl: Floats, v: Json, keys: seq<string>)
    requires v.Obj? && Printable(fl, v) && (forall k | k in keys :: k in v.fields)
    requires forall k | k in v.fields :: Printable(fl, Norm(fl, v.fields[k]))
    ensures var n := Norm(fl, v);
      n.Obj? && (forall k | k in keys :: k in n.fields && Printable(fl, n.fields[k]))
        && MembersOf(fl, n, keys) == MembersOf(fl, v, keys)
    decreases v, 0, |keys| + 1
  {
    if keys != [] {
      var init, k := keys[..|keys| - 1], keys[|keys| - 1];
      assert k in keys;
      NormMembers(fl, v, init);
      NormPrints(fl, v.fields[k]);
      assert MemberOf(fl, Norm(fl, v), k) == MemberOf(fl, v, k);
    }
  }

  /** Two values have the same canonical text exactly when they differ in the spelling of numbers only. */
  lemma Injective(fl: Floats, v: Json, w: Json)
    requires WellFormed(v) && Printable(fl, v) && WellFormed(w) && Printable(fl, w)
    ensures Text(fl, v) == Text(fl, w) <==> Norm(fl, v) == Norm(fl, w)
  {
    RoundTrip(fl, v);
    RoundTrip(fl, w);
    NormPrints(fl, v);
    NormPrints(fl, w);
  }

  /** Canonicalising twice is canonicalising once, on every input. */
  lemma Idempotent(fl: Floats, input: string)
    requires CanonicalOf(fl, input).Some?
    ensures CanonicalOf(fl, CanonicalOf(fl, input).value) == CanonicalOf(fl, input)
  {
    var v := DecodeAll(input).value;
    DecodedWellFormed(input);
    RoundTrip(fl, v);
    NormPrints(fl, v);
  }

  // ---- whitespace, order and spelling ----

  /** Two spellings of one value have one canonical form. */
  lemma SpellingIndependent(fl: Floats, a: Doc, b: Doc)
    requires DocOk(a) && DocOk(b) && DocValue(a) == DocValue(b)
    ensures CanonicalOf(fl, RenderDoc(a)) == CanonicalOf(fl, RenderDoc(b))
  {
    DecodeRendered(a);
    DecodeRendered(b);
  }

  ghost predicate DistinctKeys(ps: seq<(string, Json)>) {
    forall i, j | 0 <= i < j < |ps| :: ps[i].0 != ps[j].0
  }

  /** Members with distinct keys may come in any order. */
  lemma OrderIndependent(fl: Floats, before: string, gap: string, after: string, ms: seq<Member>, ns: seq<Member>)
    requires DocOk(Doc(before, NObj(gap, ms), after)) && NodeOk(NObj(gap, ns))
    requires (forall m | m in ms :: MemberOk(m)) && (forall n | n in ns :: MemberOk(n))
    requires DistinctKeys(Pairs(ms)) && DistinctKeys(Pairs(ns)) && Elems(Pairs(ms)) == Elems(Pairs(ns))
    ensures CanonicalOf(fl, RenderDoc(Doc(before, NObj(gap, ms), after))) ==
            CanonicalOf(fl, RenderDoc(Doc(before, NObj(gap, ns), after)))
  {
    SameMap(Pairs(ms), Pairs(ns));
    SpellingIndependent(fl, Doc(before, NObj(gap, ms), after), Doc(before, NObj(gap, ns), after));
  }

  lemma SameMap(ps: seq<(string, Json)>, qs: seq<(string, Json)>)
    requires DistinctKeys(ps) && DistinctKeys(qs) && Elems(ps) == Elems(qs)
    ensures MapOf(ps) == MapOf(qs)
  {
    MapOfEntries(ps);
    MapOfEntries(qs);
    var m, n := MapOf(ps), MapOf(qs);
    forall k | k in m ensures k in n && m[k] == n[k] {
      var i :| 0 <= i < |ps| && ps[i].0 == k && ps[i].1 == m[k];
      assert ps[i] in Elems(qs);
      var j :| 0 <= j < |qs| && qs[j] == ps[i];
      var l :| 0 <= l < |qs| && qs[l].0 == k && qs[l].1 == n[k];
      assert j == l;
    }
    forall k | k in n ensures k in m {
      var i :| 0 <= i < |qs| && qs[i].0 == k && qs[i].1 == n[k];
      assert qs[i] in Elems(ps);
      var j :| 0 <= j < |ps| && ps[j] == qs[i];
    }
    assert m.Keys == n.Keys;
  }

  // ---- the printed form ----

  /** No whitespace anywhere, keys strictly increasing by code point, at every level. */
  ghost predicate CanonicalShape(n: Node)
    decreases n
  {
    match n
    case NArr(gap, items) => gap == "" && forall d | d in items ::
      d.before == "" && d.after == "" && CanonicalShape(d.node)
    case NObj(gap, members) =>
      && gap == ""
      && (forall m | m in members ::
        m.before == "" && m.mid == "" && m.doc.before == "" && m.doc.after == "" && CanonicalShape(m.doc.node))
      && (forall m | m in members :: RawOk(m.raw) && Valid(RawText(m.raw)))
      && forall i, j | 0 <= i < j < |members| ::
        LessRunes(Runes(RawText(members[i].raw)), Runes(RawText(members[j].raw)))
    case _ => true
  }

  lemma {:induction false} ItemsShape(fl: Floats, items: seq<Json>)
    requires forall i | 0 <= i < |items| :: WellFormed(items[i]) && Printable(fl, items[i])
    ensures forall d | d in ItemsOf(fl, items) :: d.before == "" && d.after == "" && CanonicalShape(d.node)
    decreases items, 0, 0
  {
    if items != [] {
      var init, last := items[..|items| - 1], items[|items| - 1];
      ItemsShape(fl, init);
      PrintedShape(fl, last);
    }
  }

  lemma {:induction false} MembersShape(fl: Floats, v: Json, keys: seq<string>)
    requires v.Obj? && WellFormed(v) && forall k | k in keys :: k in v.fields && Printable(fl, v.fields[k])
    ensures forall i | 0 <= i < |keys| ::
      var m := MembersOf(fl, v, keys)[i];
      m.raw == Quoted(keys[i]) && m.before == "" && m.mid == "" && m.doc.before == "" && m.doc.after == ""
        && CanonicalShape(m.doc.node)
    decreases v, 0, |keys| + 1
  {
    if keys != [] {
      var init, k := keys[..|keys| - 1], keys[|keys| - 1];
      assert k in keys;
      MembersShape(fl, v, init);
      PrintedShape(fl, v.fields[k]);
    }
  }

  /** What is printed has its keys strictly increasing in code-point order, and no whitespace. */
  lemma {:induction false} PrintedShape(fl: Floats, v: Json)
    requires WellFormed(v) && Printable(fl, v)
    ensures CanonicalShape(NodeOf(fl, v))
    decreases v, 1, 0
  {
    match v
    case Arr(items) => ItemsShape(fl, items);
    case Obj(fields) =>
      var keys := SortedKeys(fields);
      KeysAscend(fields);
      var ms := MembersOf(fl, v, keys);
      MembersShape(fl, v, keys);
      forall i | 0 <= i < |ms| ensures RawOk(ms[i].raw) && RawText(ms[i].raw) == keys[i] && Valid(keys[i]) {
        assert keys[i] in keys;
        QuotedRaw(keys[i]);
      }
      forall i, j | 0 <= i < j < |ms| ensures LessRunes(Runes(RawText(ms[i].raw)), Runes(RawText(ms[j].raw))) {
        ByteOrderIsCodePointOrder(keys[i], keys[j]);
      }
    case _ =>
  }

  // ---- Equal ----

  ghost predicate EqualDocs(fl: Floats, a: string, b: string) {
    CanonicalOf(fl, a).Some? && CanonicalOf(fl, b).Some? && CanonicalOf(fl, a) == CanonicalOf(fl, b)
  }

  /** Equal compares the decoded values up to the spelling of numbers. */
  lemma EqualExactly(fl: Floats, a: string, b: string)
    ensures EqualDocs(fl, a, b) <==>
      && DecodeAll(a).Some? && Printable(fl, DecodeAll(a).value)
      && DecodeAll(b).Some? && Printable(fl, DecodeAll(b).value)
      && Norm(fl, DecodeAll(a).value) == Norm(fl, DecodeAll(b).value)
  {
    if DecodeAll(a).Some? && Printable(fl, DecodeAll(a).value) && DecodeAll(b).Some?
      && Printable(fl, DecodeAll(b).value) {
      DecodedWellFormed(a);
      DecodedWellFormed(b);
      Injective(fl, DecodeAll(a).value, DecodeAll(b).value);
    }
  }

  lemma PlainNumber(lit: string)
    requires lit != "" && NumberLen(lit) == |lit|
    ensures DecodeAll(lit) == Some(Num(lit))
  {
    var d := Doc("", NNum(lit), "");
    PlainDoc(d.node);
    assert NodeOk(d.node) && NodeValue(d.node) == Num(lit);
    assert DocOk(d) && DocValue(d) == NodeValue(d.node);
    assert RenderNode(d.node) == lit;
    hide *;
    DecodeRendered(d);
  }

  lemma OneAndOneNorm(fl: Floats)
    requires fl("1.0") == Some(1) && ParseInt64("1") == Some(1) && ParseInt64("1.0") == None
    ensures Printable(fl, Num("1")) && Printable(fl, Num("1.0")) && Norm(fl, Num("1")) == Norm(fl, Num("1.0"))
  {
    hide FormatInt;
  }

  /** So 1 and 1.0 are equal, although the comment on Equal keeps them apart. */
  lemma OneIsOnePointZero(fl: Floats)
    requires fl("1.0") == Some(1)
    ensures EqualDocs(fl, "1", "1.0")
  {
    hide NumberLen, ParseInt64, FormatInt, DecodeAll;
    NumberTexts();
    PlainNumber("1");
    PlainNumber("1.0");
    hide *;
    OneAndOneNorm(fl);
    EqualExactly(fl, "1", "1.0");
  }

  lemma NumberTexts()
    ensures NumberLen("1") == 1 && NumberLen("1.0") == 3
    ensures ParseInt64("1") == Some(1) && ParseInt64("1.0") == None
  {
    assert "1"[..0] == "" && ValueOf("") == 0 && ValueOf("1") == 1;
    assert '.' in "1.0";
    assert "1.0"[1..] == ".0" && ".0"[1..] == "0" && ".0"[2..] == "" && "1"[1..] == "";
    assert DigitRun("") == 0 && DigitRun("0") == 1 && DigitRun(".0") == 0;
    assert DigitRun("1") == 1 && DigitRun("1.0") == 1;
  }

  // ---- trailing data ----

  /** Trailing data is refused unless it starts with a closing bracket; what the bracket hides is ignored. */
  lemma TrailingDataExactly(fl: Floats, d: Doc, rest: string)
    requires DocOk(d) && !Prolongs(d, rest)
    ensures CanonicalOf(fl, RenderDoc(d) + rest) == if Tolerated(rest) then CanonicalOf(fl, RenderDoc(d)) else None
  {
    DecodesExactly(d, rest);
    DecodeRendered(d);
    hide DecodeAll, RenderDoc, Tolerated;
  }

  lemma BracketTolerated(d: Doc, junk: string, close: char)
    requires DocOk(d) && (close == ']' || close == '}')
    ensures Tolerated([close] + junk) && !Prolongs(d, [close] + junk)
  {
    ToleratedDelimits([close] + junk);
    DelimitedEnds(d, [close] + junk);
  }

  /** So a closing bracket hides all that follows it. */
  lemma TrailingBracketIgnored(fl: Floats, d: Doc, junk: string, close: char)
    requires DocOk(d) && (close == ']' || close == '}')
    ensures CanonicalOf(fl, RenderDoc(d) + ([close] + junk)) == CanonicalOf(fl, RenderDoc(d))
  {
    hide CanonicalOf;
    BracketTolerated(d, junk, close);
    TrailingDataExactly(fl, d, [close] + junk);
  }
}
