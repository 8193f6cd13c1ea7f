/** JSON (sections 2 to 8 of RFC 8259): values as encoding/json decodes them with UseNumber, the
    decoder, and documents as trees that keep whitespace, member order and spelling. */
module Json {
  import opened Wrappers
  import opened Decimal
  import opened Utf8

  /** A decoded value: numbers keep their literal, objects are maps. */
  datatype Json =
    | Null | Bool(b: bool) | Num(lit: string) | Str(s: string)
    | Arr(items: seq<Json>) | Obj(fields: map<string, Json>)

  datatype Parsed<+T> = Fail | Got(value: T, rest: string)

  // ---- lexical parts ----

  predicate IsWs(c: char) { c == ' ' || c == '\t' || c == '\n' || c == '\r' }

  predicate AllWs(s: string) { forall c | c in s :: IsWs(c) }

  function SkipWs(s: string): (r: string)
    ensures |r| <= |s|
  {
    if s != "" && IsWs(s[0]) then SkipWs(s[1..]) else s
  }

  function DigitRun(s: string): (n: nat)
    ensures n <= |s|
  {
    if s != "" && IsDigit(s[0]) then 1 + DigitRun(s[1..]) else 0
  }

  /** The integer part at the front: 0, or digits without a leading zero; 0 when there is none. */
  function IntLen(s: string): (n: nat)
    ensures n <= |s|
  {
    if s == "" || !IsDigit(s[0]) then 0 else if s[0] == '0' then 1 else DigitRun(s)
  }

  /** An optional fraction; None when malformed. */
  function FracLen(s: string): (n: Option<nat>)
    ensures n.Some? ==> n.value <= |s|
  {
    if s == "" || s[0] != '.' then Some(0)
    else if DigitRun(s[1..]) == 0 then None else Some(1 + DigitRun(s[1..]))
  }

  function SignLen(s: string): (n: nat)
    ensures n <= |s|
  {
    if s != "" && (s[0] == '+' || s[0] == '-') then 1 else 0
  }

  function ExpLen(s: string): (n: Option<nat>)
    ensures n.Some? ==> n.value <= |s|
  {
    if s == "" || (s[0] != 'e' && s[0] != 'E') then Some(0) else
      var k := SignLen(s[1..]);
      var d := DigitRun(s[1..][k..]);
      if d == 0 then None else Some(1 + k + d)
  }

  function FracExpLen(s: string): (n: Option<nat>)
    ensures n.Some? ==> n.value <= |s|
  {
    match FracLen(s)
    case None => None
    case Some(f) =>
      match ExpLen(s[f..])
      case None => None
      case Some(e) => Some(f + e)
  }

  function UnsignedLen(s: string): (n: nat)
    ensures n <= |s|
  {
    var i := IntLen(s);
    if i == 0 then 0 else
      match FracExpLen(s[i..])
      case None => 0
      case Some(t) => i + t
  }

  /** The length of the number s begins with; 0 when it begins none. */
  function NumberLen(s: string): (n: nat)
    ensures n <= |s|
    ensures n > 0 ==> s[0] == '-' || IsDigit(s[0])
  {
    if s != "" && s[0] == '-' then
      if UnsignedLen(s[1..]) == 0 then 0 else 1 + UnsignedLen(s[1..])
    else UnsignedLen(s)
  }

  function HexValue(c: char): (v: int)
    ensures -1 <= v < 16
  {
    if '0' <= c <= '9' then c as int - '0' as int
    else if 'a' <= c <= 'f' then c as int - 'a' as int + 10
    else if 'A' <= c <= 'F' then c as int - 'A' as int + 10
    else -1
  }

  /** The code unit of a \uXXXX escape at the front, -1 when there is none. */
  function CodeUnit(s: string): (v: int)
    ensures -1 <= v < 0x10000
  {
    if |s| >= 6 && s[0] == '\\' && s[1] == 'u'
       && HexValue(s[2]) >= 0 && HexValue(s[3]) >= 0 && HexValue(s[4]) >= 0 && HexValue(s[5]) >= 0
    then HexValue(s[2]) * 4096 + HexValue(s[3]) * 256 + HexValue(s[4]) * 16 + HexValue(s[5])
    else -1
  }

  predicate Surrogate(r: int) { 0xD800 <= r <= 0xDFFF }
  predicate HighThenLow(r: int, q: int) { 0xD800 <= r <= 0xDBFF && 0xDC00 <= q <= 0xDFFF }

  datatype Piece = Piece(len: nat, text: string)

  function ShortEscape(c: char): string {
    match c
    case '"' => "\""
    case '\\' => "\\"
    case '/' => "/"
    case 'b' => "\U{08}"
    case 'f' => "\U{0C}"
    case 'n' => "\n"
    case 'r' => "\r"
    case 't' => "\t"
    case _ => ""
  }

  /** The first character or escape of a string body, and the bytes it stands for. Bytes that are no
      UTF-8 and unpaired surrogates become U+FFFD. */
  function FirstPiece(s: string): (p: Option<Piece>)
    requires s != ""
    ensures p.Some? ==> 1 <= p.value.len <= |s|
  {
    if s[0] == '\\' then
      if |s| < 2 then None
      else if s[1] == 'u' then
        var r := CodeUnit(s);
        if r < 0 then None
        else if !Surrogate(r) then Some(Piece(6, EncodeRune(r)))
        else if HighThenLow(r, CodeUnit(s[6..])) then
          Some(Piece(12, EncodeRune((r - 0xD800) * 0x400 + (CodeUnit(s[6..]) - 0xDC00) + 0x10000)))
        else Some(Piece(6, REPLACEMENT))
      else if ShortEscape(s[1]) != "" then Some(Piece(2, ShortEscape(s[1]))) else None
    else if s[0] < ' ' then None
    else if RuneSize(s) > 0 then Some(Piece(RuneSize(s), s[..RuneSize(s)]))
    else Some(Piece(1, REPLACEMENT))
  }

  /** The body of a string up to and including its closing quote. */
  function ParseChars(s: string): (r: Parsed<string>)
    ensures r.Got? ==> |r.rest| < |s|
    decreases |s|
  {
    if s == "" then Fail
    else if s[0] == '"' then Got("", s[1..])
    else match FirstPiece(s)
      case None => Fail
      case Some(p) =>
        match ParseChars(s[p.len..])
        case Fail => Fail
        case Got(text, rest) => Got(p.text + text, rest)
  }

  // ---- the decoder ----

  predicate Begins(s: string, word: string) { |s| >= |word| && s[..|word|] == word }

  /** Later duplicates overwrite earlier ones. */
  function MapOf(members: seq<(string, Json)>): map<string, Json> {
    if members == [] then map[] else
      var last := members[|members| - 1];
      MapOf(members[..|members| - 1])[last.0 := last.1]
  }

  /** A value without surrounding whitespace. */
  function ParseNode(s: string): (r: Parsed<Json>)
    ensures r.Got? ==> |r.rest| < |s|
    decreases |s|, 0
  {
    if s == "" then Fail
    else if s[0] == '{' then
      var t := SkipWs(s[1..]);
      if t != "" && t[0] == '}' then Got(Obj(map[]), t[1..]) else
        match ParseMembers(s[1..])
        case Fail => Fail
        case Got(members, rest) => Got(Obj(MapOf(members)), rest)
    else if s[0] == '[' then
      var t := SkipWs(s[1..]);
      if t != "" && t[0] == ']' then Got(Arr([]), t[1..]) else
        match ParseItems(s[1..])
        case Fail => Fail
        case Got(items, rest) => Got(Arr(items), rest)
    else if s[0] == '"' then
      match ParseChars(s[1..])
      case Fail => Fail
      case Got(text, rest) => Got(Str(text), rest)
    else if Begins(s, "true") then Got(Bool(true), s[4..])
    else if Begins(s, "false") then Got(Bool(false), s[5..])
    else if Begins(s, "null") then Got(Null, s[4..])
    else if NumberLen(s) > 0 then Got(Num(s[..NumberLen(s)]), s[NumberLen(s)..])
    else Fail
  }

  function ParseDoc(s: string): (r: Parsed<Json>)
    ensures r.Got? ==> |r.rest| < |s|
    decreases |s|, 1
  {
    ParseNode(SkipWs(s))
  }

  /** value (, value)* ] */
  function ParseItems(s: string): (r: Parsed<seq<Json>>)
    ensures r.Got? ==> |r.rest| < |s|
    decreases |s|, 2
  {
    match ParseDoc(s)
    case Fail => Fail
    case Got(v, rest) =>
      var t := SkipWs(rest);
      if t != "" && t[0] == ']' then Got([v], t[1..])
      else if t != "" && t[0] == ',' then
        match ParseItems(t[1..])
        case Fail => Fail
        case Got(vs, rest') => Got([v] + vs, rest')
      else Fail
  }

  /** "key" : value (, "key" : value)* } */
  function ParseMembers(s: string): (r: Parsed<seq<(string, Json)>>)
    ensures r.Got? ==> |r.rest| < |s|
    decreases |s|, 2
  {
    match ParseMember(s)
    case Fail => Fail
    case Got(m, rest) =>
      var t := SkipWs(rest);
      if t != "" && t[0] == '}' then Got([m], t[1..])
      else if t != "" && t[0] == ',' then
        match ParseMembers(t[1..])
        case Fail => Fail
        case Got(ms, rest') => Got([m] + ms, rest')
      else Fail
  }

  function ParseMember(s: string): (r: Parsed<(string, Json)>)
    ensures r.Got? ==> |r.rest| < |s|
    decreases |s|, 1
  {
    var t := SkipWs(s);
    if t == "" || t[0] != '"' then Fail else
      match ParseChars(t[1..])
      case Fail => Fail
      case Got(key, rest) =>
        var u := SkipWs(rest);
        if u == "" || u[0] != ':' then Fail else
          match ParseDoc(u[1..])
          case Fail => Fail
          case Got(v, rest') => Got((key, v), rest')
  }

  /** Decode, then More: a value, after which nothing follows but whitespace. A stray ] or } ends
      the input too, since More takes it for the end of an enclosing array or object. */
  function DecodeAll(s: string): Option<Json> {
    match ParseDoc(s)
    case Fail => None
    case Got(v, rest) =>
      var t := SkipWs(rest);
      if t == "" || t[0] == ']' || t[0] == '}' then Some(v) else None
  }

  // ---- documents ----

  datatype Doc = Doc(before: string, node: Node, after: string)
  datatype Node =
    | NNull | NBool(b: bool) | NNum(lit: string) | NStr(raw: string)
    | NArr(gap: string, items: seq<Doc>) | NObj(gap: string, members: seq<Member>)
  datatype Member = Member(before: string, raw: string, mid: string, doc: Doc)

  /** raw spells a string: it contains no unescaped quote and every escape in it is well formed. */
  predicate RawOk(raw: string) {
    ParseChars(raw + "\"").Got? && ParseChars(raw + "\"").rest == ""
  }

  function RawText(raw: string): string
    requires RawOk(raw)
  {
    ParseChars(raw + "\"").value
  }

  predicate DocOk(d: Doc)
    decreases d
  {
    AllWs(d.before) && NodeOk(d.node) && AllWs(d.after)
  }

  predicate NodeOk(n: Node)
    decreases n
  {
    match n
    case NNum(lit) => lit != "" && NumberLen(lit) == |lit|
    case NStr(raw) => RawOk(raw)
    case NArr(gap, items) => AllWs(gap) && forall d | d in items :: DocOk(d)
    case NObj(gap, members) => AllWs(gap) && forall m | m in members :: MemberOk(m)
    case _ => true
  }

  predicate MemberOk(m: Member)
    decreases m
  {
    AllWs(m.before) && RawOk(m.raw) && AllWs(m.mid) && DocOk(m.doc)
  }

  function RenderDoc(d: Doc): string
    decreases d
  {
    d.before + RenderNode(d.node) + d.after
  }

  function RenderNode(n: Node): string
    decreases n
  {
    match n
    case NNull => "null"
    case NBool(b) => if b then "true" else "false"
    case NNum(lit) => lit
    case NStr(raw) => "\"" + raw + "\""
    case NArr(gap, items) => "[" + (if items == [] then gap else RenderItems(items)) + "]"
    case NObj(gap, members) => "{" + (if members == [] then gap else RenderMembers(members)) + "}"
  }

  function RenderItems(items: seq<Doc>): string
    requires items != []
    decreases items
  {
    RenderDoc(items[0]) + (if |items| == 1 then "" else "," + RenderItems(items[1..]))
  }

  function RenderMember(m: Member): string
    decreases m
  {
    m.before + ("\"" + (m.raw + ("\"" + (m.mid + (":" + RenderDoc(m.doc))))))
  }

  function RenderMembers(members: seq<Member>): string
    requires members != []
    decreases members
  {
    RenderMember(members[0]) + (if |members| == 1 then "" else "," + RenderMembers(members[1..]))
  }

  function NodeValue(n: Node): Json
    requires NodeOk(n)
    decreases n
  {
    match n
    case NNull => Null
    case NBool(b) => Bool(b)
    case NNum(lit) => Num(lit)
    case NStr(raw) => Str(RawText(raw))
    case NArr(_, items) => Arr(Values(items))
    case NObj(_, members) => Obj(MapOf(Pairs(members)))
  }

  function DocValue(d: Doc): Json
    requires DocOk(d)
    decreases d
  {
    NodeValue(d.node)
  }

  function Values(items: seq<Doc>): (r: seq<Json>)
    requires forall d | d in items :: DocOk(d)
    ensures |r| == |items|
    decreases items
  {
    if items == [] then [] else
      assert items[0] in items;
      [DocValue(items[0])] + Values(items[1..])
  }

  function Pairs(members: seq<Member>): (r: seq<(string, Json)>)
    requires forall m | m in members :: MemberOk(m)
    ensures |r| == |members|
    decreases members
  {
    if members == [] then [] else
      assert members[0] in members && MemberOk(members[0]);
      [(RawText(members[0].raw), DocValue(members[0].doc))] + Pairs(members[1..])
  }

  // ---- reading back a rendered document ----

  lemma {:induction false} SkipWsOver(w: string, s: string)
    requires AllWs(w)
    ensures SkipWs(w + s) == SkipWs(s)
    decreases |w|
  {
    if w == "" {
      assert w + s == s;
    } else {
      assert IsWs(w[0]) && (w + s)[1..] == w[1..] + s;
      SkipWsOver(w[1..], s);
    }
  }

  /** rest cannot prolong a number. */
  predicate Delimited(rest: string) {
    rest != "" ==> !IsDigit(rest[0]) && rest[0] !in ".eE+-"
  }

  lemma {:induction false} DigitRunOver(a: string, rest: string)
    requires rest == "" || !IsDigit(rest[0])
    ensures DigitRun(a + rest) == DigitRun(a)
    decreases |a|
  {
    if a != "" {
      assert (a + rest)[1..] == a[1..] + rest;
      DigitRunOver(a[1..], rest);
    } else {
      assert a + rest == rest;
    }
  }

  lemma IntLenOver(a: string, rest: string)
    requires rest == "" || !IsDigit(rest[0])
    ensures IntLen(a + rest) == IntLen(a)
  {
    DigitRunOver(a, rest);
    if a == "" { assert a + rest == rest; }
  }

  lemma FracLenOver(a: string, rest: string)
    requires Delimited(rest)
    ensures FracLen(a + rest) == FracLen(a)
  {
    if a == "" {
      assert a + rest == rest;
    } else {
      assert (a + rest)[1..] == a[1..] + rest;
      DigitRunOver(a[1..], rest);
    }
  }

  lemma ExpLenOver(a: string, rest: string)
    requires Delimited(rest)
    ensures ExpLen(a + rest) == ExpLen(a)
  {
    if a == "" {
      assert a + rest == rest;
    } else {
      var t := a[1..];
      assert (a + rest)[1..] == t + rest;
      if t == "" { assert t + rest == rest; }
      var k := SignLen(t);
      assert SignLen(t + rest) == k;
      assert (t + rest)[k..] == t[k..] + rest;
      DigitRunOver(t[k..], rest);
    }
  }

  lemma FracExpOver(a: string, rest: string)
    requires Delimited(rest)
    ensures FracExpLen(a + rest) == FracExpLen(a)
  {
    hide ExpLen;
    FracLenOver(a, rest);
    if FracLen(a).Some? {
      var f := FracLen(a).value;
      hide FracLen;
      assert (a + rest)[f..] == a[f..] + rest;
      ExpLenOver(a[f..], rest);
    }
  }

  lemma UnsignedOver(a: string, rest: string)
    requires Delimited(rest)
    ensures UnsignedLen(a + rest) == UnsignedLen(a)
  {
    hide FracExpLen;
    IntLenOver(a, rest);
    var i := IntLen(a);
    hide IntLen;
    assert (a + rest)[i..] == a[i..] + rest;
    FracExpOver(a[i..], rest);
  }

  lemma NumberOver(lit: string, rest: string)
    requires lit != "" && NumberLen(lit) == |lit| && Delimited(rest)
    ensures NumberLen(lit + rest) == |lit|
  {
    hide UnsignedLen;
    if lit[0] == '-' {
      assert (lit + rest)[1..] == lit[1..] + rest;
      UnsignedOver(lit[1..], rest);
    } else {
      UnsignedOver(lit, rest);
    }
  }

  predicate HasQuote(s: string) { '"' in s }

  lemma {:induction false} ParsedHasQuote(s: string)
    requires ParseChars(s).Got?
    ensures HasQuote(s)
    decreases |s|
  {
    if s[0] != '"' {
      var p := FirstPiece(s).value;
      hide FirstPiece;
      ParsedHasQuote(s[p.len..]);
    }
  }

  lemma CodeUnitOver(a: string, b: string)
    requires CodeUnit(a) >= 0 || HasQuote(a)
    ensures CodeUnit(a + b) == CodeUnit(a)
  {
    if |a| < 6 && HasQuote(a) {
      var i :| 0 <= i < |a| && a[i] == '"';
      assert (a + b)[i] == '"';
    }
  }

  lemma RuneSizeOver(a: string, b: string)
    requires a != "" && (RuneSize(a) > 0 || HasQuote(a[1..]))
    ensures RuneSize(a + b) == RuneSize(a)
  {
    if HasQuote(a[1..]) {
      var i :| 0 <= i < |a| - 1 && a[1..][i] == '"';
      assert a[i + 1] == '"' && (a + b)[i + 1] == '"';
    }
    assert forall i | 0 <= i < |a| :: (a + b)[i] == a[i];
  }

  lemma FirstPieceOver(a: string, b: string)
    requires a != "" && FirstPiece(a).Some? && HasQuote(a[FirstPiece(a).value.len..])
    ensures FirstPiece(a + b) == FirstPiece(a)
  {
    var p := FirstPiece(a).value;
    if a[0] == '\\' {
      if a[1] == 'u' {
        CodeUnitOver(a, b);
        assert (a + b)[6..] == a[6..] + b;
        if Surrogate(CodeUnit(a)) && !HighThenLow(CodeUnit(a), CodeUnit(a[6..])) { CodeUnitOver(a[6..], b); }
        if Surrogate(CodeUnit(a)) && HighThenLow(CodeUnit(a), CodeUnit(a[6..])) { CodeUnitOver(a[6..], b); }
      }
    } else if a[0] >= ' ' {
      RuneSizeOver(a, b);
      hide RuneSize;
      assert (a + b)[..RuneSize(a)] == a[..RuneSize(a)];
    }
  }

  /** One step of the scan. */
  lemma CharsOpen(s: string)
    requires s != "" && s[0] != '"' && FirstPiece(s).Some?
    ensures var p := FirstPiece(s).value;
      ParseChars(s) == match ParseChars(s[p.len..]) case Fail => Fail case Got(text, rest) => Got(p.text + text, rest)
  {
    hide FirstPiece;
  }

  lemma CharsStep(s: string) returns (n: nat)
    requires ParseChars(s).Got? && s[0] != '"'
    ensures s != "" && FirstPiece(s).Some? && n == FirstPiece(s).value.len && n <= |s| && ParseChars(s[n..]).Got?
    ensures ParseChars(s) == Got(FirstPiece(s).value.text + ParseChars(s[n..]).value, ParseChars(s[n..]).rest)
  {
    hide FirstPiece;
    n := FirstPiece(s).value.len;
  }

  lemma QuoteEnds(a: string, b: string)
    requires a != "" && a[0] == '"'
    ensures ParseChars(a) == Got("", a[1..]) && ParseChars(a + b) == Got("", a[1..] + b)
  {
    hide FirstPiece;
    assert (a + b)[1..] == a[1..] + b;
  }

  /** What follows the closing quote does not matter. */
  lemma {:induction false} ParseCharsOver(a: string, b: string)
    requires ParseChars(a).Got?
    ensures ParseChars(a + b) == Got(ParseChars(a).value, ParseChars(a).rest + b)
    decreases |a|
  {
    hide *;
    ParsedSome(a);
    if a[0] == '"' {
      QuoteEnds(a, b);
    } else {
      var n := CharsStep(a);
      ParsedHasQuote(a[n..]);
      FirstPieceOver(a, b);
      ParseCharsOver(a[n..], b);
      assert (a + b)[n..] == a[n..] + b;
      assert (a + b)[0] == a[0];
      CharsOpen(a + b);
    }
  }

  lemma ParsedSome(s: string)
    requires ParseChars(s).Got?
    ensures s != ""
  {
  }

  lemma RawRound(raw: string, rest: string)
    requires RawOk(raw)
    ensures ParseChars(raw + "\"" + rest) == Got(RawText(raw), rest)
  {
    ParseCharsOver(raw + "\"", rest);
    assert "" + rest == rest;
  }

  /** A rendered node starts with no whitespace and no closing bracket. */
  lemma NodeStarts(n: Node)
    requires NodeOk(n)
    ensures RenderNode(n) != "" && !IsWs(RenderNode(n)[0]) && RenderNode(n)[0] !in "]},:"
  {
    hide ParseChars;
    if n.NNum? { assert n.lit[0] == '-' || IsDigit(n.lit[0]); }
  }

  lemma SkipToNode(d: Doc, rest: string)
    requires DocOk(d)
    ensures SkipWs(RenderDoc(d) + rest) == RenderNode(d.node) + (d.after + rest)
  {
    NodeStarts(d.node);
    SkipWsOver(d.before, RenderNode(d.node) + (d.after + rest));
    assert RenderDoc(d) + rest == d.before + (RenderNode(d.node) + (d.after + rest));
  }

  lemma SkipToMark(w: string, mark: char, rest: string)
    requires AllWs(w) && !IsWs(mark)
    ensures SkipWs(w + ([mark] + rest)) == [mark] + rest
  {
    SkipWsOver(w, [mark] + rest);
  }

  lemma WsDelimits(w: string, rest: string)
    requires AllWs(w) && (w == "" ==> Delimited(rest))
    ensures Delimited(w + rest)
  {
    if w == "" { assert w + rest == rest; } else { assert IsWs(w[0]); }
  }

  lemma EmptyListRound(open: char, close: char, gap: string, rest: string)
    requires AllWs(gap) && !IsWs(close)
    ensures var s := [open] + gap + [close] + rest;
      SkipWs(s[1..]) == [close] + rest && ([close] + rest)[1..] == rest
  {
    var s := [open] + gap + [close] + rest;
    assert s[1..] == gap + ([close] + rest);
    SkipToMark(gap, close, rest);
  }

  lemma ArrStart(items: seq<Doc>, rest: string)
    requires items != [] && DocOk(items[0])
    ensures var t := SkipWs(RenderItems(items) + ("]" + rest)); t != "" && t[0] != ']'
  {
    var d := items[0];
    var tail := (if |items| == 1 then "" else "," + RenderItems(items[1..])) + ("]" + rest);
    assert RenderItems(items) + ("]" + rest) == RenderDoc(d) + tail;
    hide RenderDoc, RenderNode, SkipWs;
    SkipToNode(d, tail);
    NodeStarts(d.node);
  }

  lemma ArrRound(gap: string, items: seq<Doc>, rest: string)
    requires NodeOk(NArr(gap, items))
    requires items != [] ==> ParseItems(RenderItems(items) + ("]" + rest)) == Got(Values(items), rest)
    ensures ParseNode(RenderNode(NArr(gap, items)) + rest) == Got(NodeValue(NArr(gap, items)), rest)
  {
    var s := RenderNode(NArr(gap, items)) + rest;
    hide SkipWs, ParseItems, RenderItems;
    if items == [] {
      EmptyListRound('[', ']', gap, rest);
      assert s == ['['] + gap + [']'] + rest;
    } else {
      assert s[1..] == RenderItems(items) + ("]" + rest);
      assert items[0] in items;
      ArrStart(items, rest);
    }
  }

  /** What follows the opening quote of a member's key. */
  function MemberBody(m: Member, rest: string): string {
    m.raw + ("\"" + (m.mid + (":" + (RenderDoc(m.doc) + rest))))
  }

  lemma Assoc(a: string, b: string, c: string)
    ensures (a + b) + c == a + (b + c)
  {
  }

  lemma MemberText(m: Member, rest: string)
    ensures RenderMember(m) + rest == m.before + (['"'] + MemberBody(m, rest))
    ensures (['"'] + MemberBody(m, rest))[1..] == MemberBody(m, rest)
  {
    var v := RenderDoc(m.doc);
    hide RenderDoc;
    var e := ":" + v;
    var d := m.mid + e;
    var c := "\"" + d;
    var b := m.raw + c;
    var a := "\"" + b;
    Assoc(":", v, rest);
    Assoc(m.mid, e, rest);
    Assoc("\"", d, rest);
    Assoc(m.raw, c, rest);
    Assoc("\"", b, rest);
    Assoc(m.before, a, rest);
  }

  lemma ObjStart(members: seq<Member>, rest: string)
    requires members != [] && MemberOk(members[0])
    ensures var t := SkipWs(RenderMembers(members) + ("}" + rest)); t != "" && t[0] != '}'
  {
    var m := members[0];
    var more := if |members| == 1 then "" else "," + RenderMembers(members[1..]);
    assert RenderMembers(members) == RenderMember(m) + more;
    hide RenderDoc, RenderMembers, SkipWs, RenderMember, NodeOk, RawOk, DocOk;
    MemberText(m, more + ("}" + rest));
    assert RenderMembers(members) + ("}" + rest) == RenderMember(m) + (more + ("}" + rest));
    SkipToMark(m.before, '"', MemberBody(m, more + ("}" + rest)));
  }

  lemma ObjRound(gap: string, members: seq<Member>, rest: string)
    requires NodeOk(NObj(gap, members))
    requires members != [] ==> ParseMembers(RenderMembers(members) + ("}" + rest)) == Got(Pairs(members), rest)
    ensures ParseNode(RenderNode(NObj(gap, members)) + rest) == Got(NodeValue(NObj(gap, members)), rest)
  {
    var s := RenderNode(NObj(gap, members)) + rest;
    hide SkipWs, ParseMembers, RenderMembers, MapOf;
    if members == [] {
      EmptyListRound('{', '}', gap, rest);
      assert s == ['{'] + gap + ['}'] + rest;
      EmptyObject();
    } else {
      assert s[1..] == RenderMembers(members) + ("}" + rest);
      assert members[0] in members;
      ObjStart(members, rest);
    }
  }

  lemma EmptyObject()
    ensures MapOf([]) == map[]
  {
  }

  lemma BeginsFirst(s: string, word: string)
    requires word != ""
    ensures Begins(s, word) ==> s[0] == word[0]
  {
    if Begins(s, word) { assert s[..|word|][0] == word[0]; }
  }

  lemma NumRound(lit: string, rest: string)
    requires lit != "" && NumberLen(lit) == |lit| && Delimited(rest)
    ensures ParseNode(lit + rest) == Got(Num(lit), rest)
  {
    NumberOver(lit, rest);
    hide ParseNode, NumberLen;
    var s := lit + rest;
    assert lit[0] == '-' || IsDigit(lit[0]);
    assert s[0] == lit[0];
    assert s[..|lit|] == lit && s[|lit|..] == rest;
    NumOpens(s);
  }

  lemma NumOpens(s: string)
    requires s != "" && NumberLen(s) > 0 && (s[0] == '-' || IsDigit(s[0]))
    ensures ParseNode(s) == Got(Num(s[..NumberLen(s)]), s[NumberLen(s)..])
  {
    hide NumberLen, ParseMembers, ParseItems, ParseChars, SkipWs;
    BeginsFirst(s, "true");
    BeginsFirst(s, "false");
    BeginsFirst(s, "null");
  }

  lemma WordRound(rest: string)
    ensures ParseNode("null" + rest) == Got(Null, rest)
    ensures ParseNode("true" + rest) == Got(Bool(true), rest)
    ensures ParseNode("false" + rest) == Got(Bool(false), rest)
  {
    hide NumberLen, ParseMembers, ParseItems, ParseChars, SkipWs;
    var n, t, f := "null" + rest, "true" + rest, "false" + rest;
    assert n[..4] == "null" && n[4..] == rest;
    assert t[..4] == "true" && t[4..] == rest;
    assert f[..5] == "false" && f[5..] == rest;
    assert n[0] == 'n' && t[0] == 't' && f[0] == 'f';
    BeginsFirst(n, "true");
    BeginsFirst(n, "false");
    BeginsFirst(f, "true");
  }

  lemma StrRound(raw: string, rest: string)
    requires RawOk(raw)
    ensures ParseNode("\"" + raw + "\"" + rest) == Got(Str(RawText(raw)), rest)
  {
    RawRoundTo(raw, rest);
    hide NumberLen, ParseMembers, ParseItems, ParseChars, SkipWs, RawOk, RawText;
    Assoc("\"" + raw, "\"", rest);
    Assoc("\"", raw, "\"" + rest);
    var s := "\"" + (raw + ("\"" + rest));
    assert s[1..] == raw + ("\"" + rest);
  }

  /** The decoder reads back every rendered node, whatever its whitespace, member order and
      spelling, and stops right behind it. */
  lemma {:induction false} NodeRound(n: Node, rest: string)
    requires NodeOk(n) && (n.NNum? ==> Delimited(rest))
    ensures ParseNode(RenderNode(n) + rest) == Got(NodeValue(n), rest)
    decreases n
  {
    hide ParseNode, RawOk, RawText, DocOk, MemberOk, NumberLen, Delimited;
    match n
    case NNull => WordRound(rest);
    case NBool(b) => WordRound(rest);
    case NNum(lit) => NumRound(lit, rest);
    case NStr(raw) => StrRound(raw, rest);
    case NArr(gap, items) =>
      if items != [] { ItemsRound(items, rest); }
      ArrRound(gap, items, rest);
    case NObj(gap, members) =>
      if members != [] { MembersRound(members, rest); }
      ObjRound(gap, members, rest);
  }

  lemma {:induction false} DocRound(d: Doc, rest: string)
    requires DocOk(d) && (d.node.NNum? && d.after == "" ==> Delimited(rest))
    ensures ParseDoc(RenderDoc(d) + rest) == Got(DocValue(d), d.after + rest)
    decreases d
  {
    SkipToNode(d, rest);
    if d.node.NNum? { WsDelimits(d.after, rest); }
    NodeRound(d.node, d.after + rest);
  }

  lemma LastItem(items: seq<Doc>, rest: string)
    requires |items| == 1 && DocOk(items[0])
    ensures RenderItems(items) == RenderDoc(items[0])
    ensures (forall d | d in items :: DocOk(d)) && Values(items) == [DocValue(items[0])]
    ensures ("]" + rest)[1..] == rest
  {
    assert Values(items[1..]) == [];
  }

  lemma MarkDelimits(mark: char, rest: string)
    requires mark in ",]}"
    ensures Delimited([mark] + rest)
  {
  }

  lemma ItemsText(items: seq<Doc>, rest: string)
    requires |items| > 1
    ensures RenderItems(items) + ("]" + rest) == RenderDoc(items[0]) + ("," + (RenderItems(items[1..]) + ("]" + rest)))
  {
    hide RenderDoc;
    var more := RenderItems(items[1..]);
    assert RenderItems(items) == RenderDoc(items[0]) + ("," + more);
    hide RenderItems;
    Assoc(RenderDoc(items[0]), "," + more, "]" + rest);
    Assoc(",", more, "]" + rest);
  }

  lemma ItemsEnd(items: seq<Doc>, rest: string)
    requires |items| == 1 && DocOk(items[0]) && AllWs(items[0].after)
    requires ParseDoc(RenderDoc(items[0]) + ("]" + rest)) == Got(DocValue(items[0]), items[0].after + ("]" + rest))
    ensures forall d | d in items :: DocOk(d)
    ensures ParseItems(RenderItems(items) + ("]" + rest)) == Got(Values(items), rest)
  {
    LastItem(items, rest);
    hide NodeOk, DocOk, SkipWs, RenderDoc, RenderItems, ParseDoc, Values, DocValue, AllWs;
    SkipToMark(items[0].after, ']', rest);
  }

  lemma ItemsStep(items: seq<Doc>, rest: string, tail: string)
    requires |items| > 1 && (forall d | d in items :: DocOk(d)) && DocOk(items[0]) && AllWs(items[0].after)
    requires tail == RenderItems(items[1..]) + ("]" + rest) && ParseItems(tail) == Got(Values(items[1..]), rest)
    requires ParseDoc(RenderDoc(items[0]) + ("," + tail)) == Got(DocValue(items[0]), items[0].after + ("," + tail))
    ensures ParseItems(RenderItems(items) + ("]" + rest)) == Got(Values(items), rest)
  {
    hide DocOk, RenderDoc, ParseDoc, DocValue, SkipWs, AllWs;
    ItemsText(items, rest);
    SkipToMark(items[0].after, ',', tail);
    hide RenderItems;
    assert ("," + tail)[1..] == tail;
  }

  lemma DocOkParts(d: Doc)
    requires DocOk(d)
    ensures AllWs(d.after)
  {
  }

  lemma {:induction false} ItemsRound(items: seq<Doc>, rest: string)
    requires items != [] && forall d | d in items :: DocOk(d)
    ensures ParseItems(RenderItems(items) + ("]" + rest)) == Got(Values(items), rest)
    decreases items
  {
    hide *;
    var d := items[0];
    DocOkParts(d);
    if |items| == 1 {
      MarkDelimits(']', rest);
      DocRound(d, "]" + rest);
      ItemsEnd(items, rest);
    } else {
      var tail := RenderItems(items[1..]) + ("]" + rest);
      MarkDelimits(',', tail);
      DocRound(d, "," + tail);
      ItemsRound(items[1..], rest);
      ItemsStep(items, rest, tail);
    }
  }

  lemma RawRoundTo(raw: string, rest: string)
    requires RawOk(raw)
    ensures ParseChars(raw + ("\"" + rest)) == Got(RawText(raw), rest)
  {
    RawRound(raw, rest);
    hide ParseChars, RawOk, RawText;
    Assoc(raw, "\"", rest);
  }

  lemma {:induction false} MemberRound(m: Member, rest: string)
    requires MemberOk(m) && Delimited(rest)
    ensures ParseMember(RenderMember(m) + rest) == Got((RawText(m.raw), DocValue(m.doc)), m.doc.after + rest)
    decreases m
  {
    assert DocOk(m.doc);
    var value := RenderDoc(m.doc) + rest;
    var body := MemberBody(m, rest);
    MemberText(m, rest);
    assert body == m.raw + ("\"" + (m.mid + ([':'] + value)));
    hide RenderMember, RenderDoc, ParseDoc, DocValue, NodeOk, SkipWs, ParseChars, MemberBody;
    SkipToMark(m.before, '"', body);
    RawRoundTo(m.raw, m.mid + ([':'] + value));
    SkipToMark(m.mid, ':', value);
    assert ([':'] + value)[1..] == value;
    DocRound(m.doc, rest);
  }

  lemma LastMember(members: seq<Member>, rest: string)
    requires |members| == 1 && MemberOk(members[0])
    ensures RenderMembers(members) == RenderMember(members[0])
    ensures (forall m | m in members :: MemberOk(m)) && DocOk(members[0].doc)
    ensures Pairs(members) == [(RawText(members[0].raw), DocValue(members[0].doc))]
    ensures ("}" + rest)[1..] == rest
  {
    assert Pairs(members[1..]) == [];
  }

  lemma MemberOkParts(m: Member)
    requires MemberOk(m)
    ensures RawOk(m.raw) && DocOk(m.doc) && AllWs(m.doc.after)
  {
    assert DocOk(m.doc);
  }

  lemma MembersText(members: seq<Member>, rest: string)
    requires |members| > 1
    ensures RenderMembers(members) + ("}" + rest)
      == RenderMember(members[0]) + ("," + (RenderMembers(members[1..]) + ("}" + rest)))
  {
    hide RenderMember;
    var more := RenderMembers(members[1..]);
    assert RenderMembers(members) == RenderMember(members[0]) + ("," + more);
    hide RenderMembers;
    Assoc(RenderMember(members[0]), "," + more, "}" + rest);
    Assoc(",", more, "}" + rest);
  }

  lemma MembersStep(members: seq<Member>, rest: string, tail: string)
    requires |members| > 1 && forall m | m in members :: MemberOk(m)
    requires RawOk(members[0].raw) && DocOk(members[0].doc) && AllWs(members[0].doc.after)
    requires tail == RenderMembers(members[1..]) + ("}" + rest) && ParseMembers(tail) == Got(Pairs(members[1..]), rest)
    requires ParseMember(RenderMember(members[0]) + ("," + tail)) ==
      Got((RawText(members[0].raw), DocValue(members[0].doc)), members[0].doc.after + ("," + tail))
    ensures ParseMembers(RenderMembers(members) + ("}" + rest)) == Got(Pairs(members), rest)
  {
    var m := members[0];
    hide RenderMember, ParseMember, RenderDoc, DocValue, RawText, SkipWs, AllWs, MemberOk, RawOk, DocOk;
    MembersText(members, rest);
    SkipToMark(m.doc.after, ',', tail);
    hide RenderMembers;
    assert ("," + tail)[1..] == tail;
  }

  lemma {:induction false} MembersRound(members: seq<Member>, rest: string)
    requires members != [] && forall m | m in members :: MemberOk(m)
    ensures ParseMembers(RenderMembers(members) + ("}" + rest)) == Got(Pairs(members), rest)
    decreases members
  {
    var m := members[0];
    hide NodeOk, SkipWs, RenderMember, ParseMember, DocValue, RawText, RawOk, AllWs, MemberOk, DocOk;
    MemberOkParts(m);
    if |members| == 1 {
      LastMember(members, rest);
      MemberRound(m, "}" + rest);
      SkipToMark(m.doc.after, '}', rest);
    } else {
      hide ParseMembers, RenderMembers;
      var tail := RenderMembers(members[1..]) + ("}" + rest);
      MemberRound(m, "," + tail);
      MembersRound(members[1..], rest);
      MembersStep(members, rest, tail);
    }
  }

  /** A whole document decodes to its value. */
  lemma DecodeRendered(d: Doc)
    requires DocOk(d)
    ensures DecodeAll(RenderDoc(d)) == Some(DocValue(d))
  {
    DocRound(d, "");
    assert RenderDoc(d) + "" == RenderDoc(d);
    SkipWsOver(d.after, "");
  }

  // ---- what the decoder returns ----

  /** Every string and key is valid UTF-8, every number literal well formed. */
  predicate WellFormed(v: Json)
    decreases v
  {
    match v
    case Num(lit) => lit != "" && NumberLen(lit) == |lit|
    case Str(s) => Valid(s)
    case Arr(items) => forall i | 0 <= i < |items| :: WellFormed(items[i])
    case Obj(fields) => forall k | k in fields :: Valid(k) && WellFormed(fields[k])
    case _ => true
  }

  lemma PieceValid(s: string)
    requires s != "" && FirstPiece(s).Some?
    ensures Valid(FirstPiece(s).value.text)
  {
    assert Valid(REPLACEMENT) by { OneRuneValid(REPLACEMENT); assert REPLACEMENT[..3] == REPLACEMENT; }
    if s[0] == '\\' {
      if s[1] == 'u' {
        var r := CodeUnit(s);
        if !Surrogate(r) { EncodedRuneValid(r); }
        else if HighThenLow(r, CodeUnit(s[6..])) {
          EncodedRuneValid((r - 0xD800) * 0x400 + (CodeUnit(s[6..]) - 0xDC00) + 0x10000);
        }
      } else {
        var t := ShortEscape(s[1]);
        assert |t| == 1 && t[0] as int < 0x80;
        OneRuneValid(t);
        assert t[..1] == t;
      }
    } else if RuneSize(s) > 0 {
      OneRuneValid(s);
    }
  }

  lemma {:induction false} CharsValid(s: string)
    requires ParseChars(s).Got?
    ensures Valid(ParseChars(s).value)
    decreases |s|
  {
    if s[0] != '"' {
      PieceValid(s);
      var p := FirstPiece(s).value;
      hide FirstPiece, Valid;
      CharsValid(s[p.len..]);
      ValidConcat(p.text, ParseChars(s[p.len..]).value);
    }
  }

  lemma {:induction false} MapOfEntries(members: seq<(string, Json)>)
    ensures forall k :: k in MapOf(members) ==>
      exists i :: 0 <= i < |members| && members[i].0 == k && members[i].1 == MapOf(members)[k]
    ensures forall i | 0 <= i < |members| :: members[i].0 in MapOf(members)
    decreases |members|
  {
    if members != [] {
      var init, last := members[..|members| - 1], members[|members| - 1];
      MapOfEntries(init);
      forall k | k in MapOf(members)
        ensures exists i :: 0 <= i < |members| && members[i].0 == k && members[i].1 == MapOf(members)[k]
      {
        if k == last.0 { assert members[|members| - 1] == last; } else {
          assert k in MapOf(init);
          var i :| 0 <= i < |init| && init[i].0 == k && init[i].1 == MapOf(init)[k];
          assert members[i] == init[i];
        }
      }
      forall i | 0 <= i < |members| ensures members[i].0 in MapOf(members) {
        if i < |init| { assert init[i] == members[i]; }
      }
    }
  }

  predicate AllWellFormed(vs: seq<Json>) { forall i | 0 <= i < |vs| :: WellFormed(vs[i]) }

  predicate PairsWellFormed(ms: seq<(string, Json)>) {
    forall i | 0 <= i < |ms| :: Valid(ms[i].0) && WellFormed(ms[i].1)
  }

  lemma {:induction false} PrefixRun(s: string, n: nat)
    requires n <= |s|
    ensures DigitRun(s[..n]) == (if n < DigitRun(s) then n else DigitRun(s))
    decreases n
  {
    if n > 0 && IsDigit(s[0]) {
      assert s[..n][1..] == s[1..][..n - 1];
      PrefixRun(s[1..], n - 1);
    }
  }

  lemma IntPrefix(a: string, i: nat, more: nat)
    requires i == IntLen(a) && i > 0 && i + more <= |a|
    ensures IntLen(a[..i + more]) == i
  {
    PrefixRun(a, i + more);
  }

  lemma FracPrefix(a: string, f: nat, more: nat)
    requires FracLen(a) == Some(f) && f + more <= |a|
    ensures FracLen(a[..f + more]) == Some(f)
  {
    if f > 0 {
      assert a[..f + more][1..] == a[1..][..f + more - 1];
      PrefixRun(a[1..], f + more - 1);
    }
  }

  lemma ExpPrefix(a: string, e: nat)
    requires ExpLen(a) == Some(e)
    ensures ExpLen(a[..e]) == Some(e)
  {
    if e > 0 {
      var t := a[1..];
      var k := SignLen(t);
      assert a[..e][1..] == t[..e - 1];
      assert t[..e - 1][k..] == t[k..][..e - 1 - k];
      PrefixRun(t[k..], e - 1 - k);
    }
  }

  lemma FracExpPrefix(a: string, t: nat)
    requires FracExpLen(a) == Some(t)
    ensures FracExpLen(a[..t]) == Some(t)
  {
    var f := FracLen(a).value;
    var e := t - f;
    FracPrefix(a, f, e);
    ExpPrefix(a[f..], e);
    hide FracLen, ExpLen;
    assert a[..t][f..] == a[f..][..e];
  }

  lemma UnsignedPrefixIs(a: string, i: nat, t: nat)
    requires i == IntLen(a) && i > 0 && FracExpLen(a[i..]) == Some(t)
    ensures UnsignedLen(a[..i + t]) == i + t
  {
    hide FracExpLen;
    IntPrefix(a, i, t);
    hide IntLen;
    FracExpPrefix(a[i..], t);
    assert a[..i + t][i..] == a[i..][..t];
  }

  lemma UnsignedPrefix(a: string)
    requires UnsignedLen(a) > 0
    ensures UnsignedLen(a[..UnsignedLen(a)]) == UnsignedLen(a)
  {
    hide *;
    UnsignedParts(a);
    UnsignedPrefixIs(a, IntLen(a), FracExpLen(a[IntLen(a)..]).value);
  }

  lemma UnsignedParts(a: string)
    requires UnsignedLen(a) > 0
    ensures var i := IntLen(a);
      i > 0 && FracExpLen(a[i..]).Some? && UnsignedLen(a) == i + FracExpLen(a[i..]).value
  {
    hide IntLen, FracExpLen;
  }

  lemma NumberPrefix(s: string)
    requires NumberLen(s) > 0
    ensures NumberLen(s[..NumberLen(s)]) == NumberLen(s)
  {
    hide UnsignedLen;
    if s[0] == '-' {
      UnsignedPrefix(s[1..]);
      assert s[..NumberLen(s)][1..] == s[1..][..UnsignedLen(s[1..])];
    } else {
      UnsignedPrefix(s);
    }
  }

  /** Everything decoded is well formed. */
  lemma {:induction false} NodeWellFormed(s: string)
    requires ParseNode(s).Got?
    ensures WellFormed(ParseNode(s).value)
    decreases |s|, 0
  {
    if s[0] == '{' {
      var t := SkipWs(s[1..]);
      if !(t != "" && t[0] == '}') {
        MembersWellFormed(s[1..]);
        MapWellFormed(ParseMembers(s[1..]).value);
      }
    } else if s[0] == '[' {
      var t := SkipWs(s[1..]);
      if !(t != "" && t[0] == ']') { ItemsWellFormed(s[1..]); }
    } else if s[0] == '"' {
      CharsValid(s[1..]);
    } else if !Begins(s, "true") && !Begins(s, "false") && !Begins(s, "null") {
      NumberPrefix(s);
    }
  }

  lemma MapWellFormed(ms: seq<(string, Json)>)
    requires PairsWellFormed(ms)
    ensures WellFormed(Obj(MapOf(ms)))
  {
    MapOfEntries(ms);
    var m := MapOf(ms);
    forall k | k in m ensures Valid(k) && WellFormed(m[k]) {
      var i :| 0 <= i < |ms| && ms[i].0 == k && ms[i].1 == m[k];
    }
  }

  lemma {:induction false} ItemsWellFormed(s: string)
    requires ParseItems(s).Got?
    ensures AllWellFormed(ParseItems(s).value)
    decreases |s|, 2
  {
    NodeWellFormed(SkipWs(s));
    var t := SkipWs(ParseDoc(s).rest);
    if t[0] == ',' { ItemsWellFormed(t[1..]); }
  }

  lemma {:induction false} MembersWellFormed(s: string)
    requires ParseMembers(s).Got?
    ensures PairsWellFormed(ParseMembers(s).value)
    decreases |s|, 2
  {
    MemberWellFormed(s);
    var t := SkipWs(ParseMember(s).rest);
    if t[0] == ',' { MembersWellFormed(t[1..]); }
  }

  lemma {:induction false} MemberWellFormed(s: string)
    requires ParseMember(s).Got?
    ensures Valid(ParseMember(s).value.0) && WellFormed(ParseMember(s).value.1)
    decreases |s|, 1
  {
    var t := SkipWs(s);
    CharsValid(t[1..]);
    var u := SkipWs(ParseChars(t[1..]).rest);
    NodeWellFormed(SkipWs(u[1..]));
  }

  lemma DecodedWellFormed(s: string)
    requires DecodeAll(s).Some?
    ensures WellFormed(DecodeAll(s).value)
  {
    NodeWellFormed(SkipWs(s));
  }
}
