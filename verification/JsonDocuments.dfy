/** Which texts the decoder takes: exactly the documents, each with nothing behind it or what it tolerates
    (internal/canonicaljson/canonicaljson.go). */
module JsonDocuments {
  import opened Wrappers
  import opened Decimal
  import opened Utf8
  import opened Json

  // ---- behind a document ----

  /** What may stand behind a value: whitespace only, or a closing bracket and then anything. */
  predicate Tolerated(rest: string) {
    SkipWs(rest) == "" || SkipWs(rest)[0] == ']' || SkipWs(rest)[0] == '}'
  }

  /** The document ends with a number, and rest makes it a longer one. */
  predicate Prolongs(d: Doc, rest: string) {
    d.node.NNum? && d.after == "" && NumberLen(d.node.lit + rest) > |d.node.lit|
  }

  predicate IsNumberChar(c: char) { IsDigit(c) || c in ".eE+-" }

  lemma {:induction false} RunOfDigits(s: string, i: nat)
    requires i < DigitRun(s)
    ensures IsDigit(s[i])
  {
    if i > 0 { RunOfDigits(s[1..], i - 1); }
  }

  lemma FracExpChars(s: string, i: nat)
    requires FracExpLen(s).Some? && i < FracExpLen(s).value
    ensures IsNumberChar(s[i])
  {
    var f := FracLen(s).value;
    if 0 < i < f {
      RunOfDigits(s[1..], i - 1);
    } else if i > f {
      var t := s[f..];
      var k := SignLen(t[1..]);
      if i - f > k { RunOfDigits(t[1..][k..], i - f - 1 - k); }
    }
  }

  lemma UnsignedChars(s: string, i: nat)
    requires i < UnsignedLen(s)
    ensures IsNumberChar(s[i])
  {
    var n := IntLen(s);
    if i < n {
      if s[0] != '0' { RunOfDigits(s, i); }
    } else {
      FracExpChars(s[n..], i - n);
    }
  }

  lemma NumberChars(s: string, i: nat)
    requires i < NumberLen(s)
    ensures IsNumberChar(s[i])
  {
    hide UnsignedLen;
    if s[0] == '-' {
      if i > 0 { UnsignedChars(s[1..], i - 1); }
    } else {
      UnsignedChars(s, i);
    }
  }

  lemma ToleratedDelimits(rest: string)
    requires Tolerated(rest)
    ensures Delimited(rest)
  {
  }

  lemma DelimitedEnds(d: Doc, rest: string)
    requires DocOk(d) && Delimited(rest)
    ensures !Prolongs(d, rest)
  {
    if d.node.NNum? {
      NumberOver(d.node.lit, rest);
      hide NumberLen;
    }
  }

  lemma NumberCharNotTolerated(rest: string)
    requires rest != "" && IsNumberChar(rest[0])
    ensures !Tolerated(rest)
  {
  }

  /** A number with text glued to it that does not prolong it is refused. */
  lemma GluedRefused(lit: string, rest: string)
    requires lit != "" && NumberLen(lit) == |lit| && !Delimited(rest) && NumberLen(lit + rest) <= |lit|
    ensures match ParseNode(lit + rest) case Fail => true case Got(_, more) => !Tolerated(more)
  {
    var s := lit + rest;
    var n := NumberLen(s);
    assert lit[0] == '-' || IsDigit(lit[0]);
    if n > 0 {
      if n < |lit| { NumberChars(lit, n); }
      hide NumberLen, ParseNode, Tolerated;
      assert s[n] == if n < |lit| then lit[n] else rest[0];
      NumOpens(s);
      NumberCharNotTolerated(s[n..]);
    } else {
      NoNumber(s);
    }
  }

  lemma NoNumber(s: string)
    requires s != "" && NumberLen(s) == 0 && (s[0] == '-' || IsDigit(s[0]))
    ensures ParseNode(s) == Fail
  {
    hide NumberLen, ParseMembers, ParseItems, ParseChars, SkipWs;
    BeginsFirst(s, "true");
    BeginsFirst(s, "false");
    BeginsFirst(s, "null");
  }

  /** The decoder takes a document with something behind it exactly when that is tolerated, and then for
      the document alone; unless the document ends with a number and this is part of it. */
  lemma DecodesExactly(d: Doc, rest: string)
    requires DocOk(d) && !Prolongs(d, rest)
    ensures DecodeAll(RenderDoc(d) + rest) == if Tolerated(rest) then Some(DocValue(d)) else None
  {
    hide ParseNode, RenderDoc, DocValue, NumberLen;
    DocOkParts(d);
    if d.node.NNum? && d.after == "" && !Delimited(rest) {
      var lit := d.node.lit;
      SkipToNode(d, rest);
      assert RenderNode(d.node) + (d.after + rest) == lit + rest by { assert "" + rest == rest; }
      GluedRefused(lit, rest);
      if Tolerated(rest) { ToleratedDelimits(rest); }
    } else {
      DocRound(d, rest);
      SkipWsOver(d.after, rest);
      hide ParseDoc;
    }
  }

  // ---- every text that is taken is a document ----

  lemma {:induction false} WsPart(s: string) returns (w: string)
    ensures AllWs(w) && s == w + SkipWs(s)
    decreases |s|
  {
    w := "";
    if s != "" && IsWs(s[0]) {
      w := WsPart(s[1..]);
      w := [s[0]] + w;
    }
  }

  /** The first piece does not look behind the closing quote. */
  lemma FirstPieceBack(a: string, b: string)
    requires a != "" && FirstPiece(a + b).Some? && FirstPiece(a + b).value.len <= |a|
    requires HasQuote(a[FirstPiece(a + b).value.len..])
    ensures FirstPiece(a) == FirstPiece(a + b)
  {
    var n := FirstPiece(a + b).value.len;
    PieceLong(a + b);
    QuoteBehind(a, n);
    assert (a + b)[0] == a[0];
    if a[0] == '\\' { EscapeBack(a, b, n); } else { RuneBack(a, b, n); }
  }

  lemma EscapeBack(a: string, b: string, n: nat)
    requires |a| >= 2 && a[0] == '\\' && FirstPiece(a + b).Some? && n == FirstPiece(a + b).value.len < |a|
    requires forall k: nat | k <= n :: HasQuote(a[k..])
    ensures FirstPiece(a) == FirstPiece(a + b)
  {
    hide HasQuote, CodeUnit;
    assert (a + b)[0] == a[0] && (a + b)[1] == a[1];
    if a[1] == 'u' {
      assert a[0..] == a;
      CodeUnitOver(a, b);
      assert n >= 6;
      assert (a + b)[6..] == a[6..] + b;
      CodeUnitOver(a[6..], b);
    }
  }

  lemma RuneBack(a: string, b: string, n: nat)
    requires a != "" && a[0] != '\\' && FirstPiece(a + b).Some? && n == FirstPiece(a + b).value.len < |a|
    requires forall k: nat | k <= n :: HasQuote(a[k..])
    ensures FirstPiece(a) == FirstPiece(a + b)
  {
    hide HasQuote, RuneSize;
    assert (a + b)[0] == a[0] && n >= 1;
    RuneSizeOver(a, b);
    assert (a + b)[..n] == a[..n];
  }

  lemma QuoteBehind(a: string, n: nat)
    requires n <= |a| && HasQuote(a[n..])
    ensures forall k: nat | k <= n :: HasQuote(a[k..])
    ensures n < |a| && HasQuote(a)
  {
    var i :| 0 <= i < |a| - n && a[n..][i] == '"';
    forall k: nat | k <= n ensures HasQuote(a[k..]) { assert a[k..][n - k + i] == '"'; }
    assert a[n + i] == '"';
  }

  /** A decoded string body is a spelling with its closing quote. */
  lemma {:induction false} CharsSound(s: string) returns (raw: string)
    requires ParseChars(s).Got?
    ensures RawOk(raw) && RawText(raw) == ParseChars(s).value && s == raw + ("\"" + ParseChars(s).rest)
    decreases |s|
  {
    hide FirstPiece;
    ParsedSome(s);
    if s[0] == '"' {
      raw := "";
      assert "" + "\"" == "\"" && "\""[1..] == "";
    } else {
      var n := CharsStep(s);
      var more := CharsSound(s[n..]);
      raw := s[..n] + more;
      CharsGlue(s, n, more, raw);
    }
  }

  lemma CharsGlue(s: string, n: nat, more: string, raw: string)
    requires s != "" && ParseChars(s).Got? && s[0] != '"' && FirstPiece(s).Some? && n == FirstPiece(s).value.len <= |s|
    requires ParseChars(s[n..]).Got? && RawOk(more) && RawText(more) == ParseChars(s[n..]).value
    requires s[n..] == more + ("\"" + ParseChars(s[n..]).rest) && raw == s[..n] + more
    requires ParseChars(s) == Got(FirstPiece(s).value.text + ParseChars(s[n..]).value, ParseChars(s[n..]).rest)
    ensures RawOk(raw) && RawText(raw) == ParseChars(s).value && s == raw + ("\"" + ParseChars(s).rest)
  {
    hide *;
    var a, b := raw + "\"", ParseChars(s).rest;
    PieceLong(s);
    Split(s, n, more, raw, b);
    RawOpen(more);
    QuoteLast(more);
    FirstPieceBack(a, b);
    CharsOpen(a);
    RawClose(raw, ParseChars(s).value);
  }

  lemma Split(s: string, n: nat, more: string, raw: string, rest: string)
    requires 0 < n <= |s| && s[n..] == more + ("\"" + rest) && raw == s[..n] + more
    ensures var a := raw + "\""; s == a + rest && a[n..] == more + "\"" && a[0] == s[0] && n < |a|
    ensures s == raw + ("\"" + rest)
  {
    var a := raw + "\"";
    assert a == s[..n] + (more + "\"");
    assert s == s[..n] + s[n..];
  }

  lemma QuoteLast(more: string)
    ensures HasQuote(more + "\"")
  {
    assert (more + "\"")[|more|] == '"';
  }

  lemma RawOpen(raw: string)
    requires RawOk(raw)
    ensures ParseChars(raw + "\"") == Got(RawText(raw), "")
  {
    hide ParseChars;
  }

  lemma RawClose(raw: string, text: string)
    requires ParseChars(raw + "\"") == Got(text, "")
    ensures RawOk(raw) && RawText(raw) == text
  {
    hide ParseChars;
  }

  lemma PieceLong(s: string)
    requires s != "" && FirstPiece(s).Some?
    ensures FirstPiece(s).value.len >= 1
  {
  }

  /** A decoded value is a rendered node. */
  lemma {:induction false} NodeSound(s: string) returns (n: Node)
    requires ParseNode(s).Got?
    ensures NodeOk(n) && NodeValue(n) == ParseNode(s).value && s == RenderNode(n) + ParseNode(s).rest
    decreases |s|, 0
  {
    hide RenderNode, RawOk, NumberLen, SkipWs;
    var rest := ParseNode(s).rest;
    if s[0] == '{' {
      var t := SkipWs(s[1..]);
      if t != "" && t[0] == '}' {
        var gap := WsPart(s[1..]);
        n := NObj(gap, []);
        EmptyText(s, gap, t, '{', '}');
      } else {
        var members := MembersSound(s[1..]);
        n := NObj("", members);
        ObjText(s, members, rest);
      }
    } else if s[0] == '[' {
      var t := SkipWs(s[1..]);
      if t != "" && t[0] == ']' {
        var gap := WsPart(s[1..]);
        n := NArr(gap, []);
        EmptyText(s, gap, t, '[', ']');
      } else {
        var items := ItemsSound(s[1..]);
        n := NArr("", items);
        ArrText(s, items, rest);
      }
    } else if s[0] == '"' {
      var raw := CharsSound(s[1..]);
      n := NStr(raw);
      StrText(s, raw, rest);
    } else {
      n := PlainSound(s);
    }
  }

  lemma PlainSound(s: string) returns (n: Node)
    requires ParseNode(s).Got? && s[0] !in "{[\""
    ensures NodeOk(n) && NodeValue(n) == ParseNode(s).value && s == RenderNode(n) + ParseNode(s).rest
  {
    hide *;
    PlainOpens(s);
    if Begins(s, "true") {
      n := NBool(true);
      WordNode(s, n, "true", Bool(true));
    } else if Begins(s, "false") {
      n := NBool(false);
      WordNode(s, n, "false", Bool(false));
    } else if Begins(s, "null") {
      n := NNull;
      WordNode(s, n, "null", Null);
    } else {
      n := NNum(s[..NumberLen(s)]);
      NumberNode(s);
    }
  }

  lemma WordNode(s: string, n: Node, word: string, v: Json)
    requires Begins(s, word)
    requires (n, word, v) in {(NBool(true), "true", Bool(true)), (NBool(false), "false", Bool(false)),
      (NNull, "null", Null)}
    ensures NodeOk(n) && NodeValue(n) == v && RenderNode(n) == word && s == word + s[|word|..]
  {
  }

  lemma NumberNode(s: string)
    requires NumberLen(s) > 0
    ensures var lit := s[..NumberLen(s)];
      NodeOk(NNum(lit)) && NodeValue(NNum(lit)) == Num(lit) && RenderNode(NNum(lit)) == lit
        && s == lit + s[NumberLen(s)..]
  {
    hide *;
    var k := NumberLen(s);
    NumberPrefix(s);
    Halves(s, k);
    NumberNodeIs(s[..k]);
  }

  lemma Halves(s: string, k: nat)
    requires k <= |s|
    ensures s == s[..k] + s[k..] && |s[..k]| == k
  {
  }

  lemma NumberNodeIs(lit: string)
    requires |lit| > 0 && NumberLen(lit) == |lit|
    ensures NodeOk(NNum(lit)) && NodeValue(NNum(lit)) == Num(lit) && RenderNode(NNum(lit)) == lit
  {
    hide NumberLen;
  }

  lemma PlainOpens(s: string)
    requires ParseNode(s).Got? && s[0] !in "{[\""
    ensures s != "" && ParseNode(s) ==
      if Begins(s, "true") then Got(Bool(true), s[4..])
      else if Begins(s, "false") then Got(Bool(false), s[5..])
      else if Begins(s, "null") then Got(Null, s[4..])
      else Got(Num(s[..NumberLen(s)]), s[NumberLen(s)..])
    ensures Begins(s, "true") || Begins(s, "false") || Begins(s, "null") || NumberLen(s) > 0
  {
    hide NumberLen, SkipWs, ParseMembers, ParseItems, ParseChars;
  }

  lemma EmptyText(s: string, gap: string, t: string, open: char, close: char)
    requires s != "" && t != "" && s[0] == open && t[0] == close && s[1..] == gap + t
    ensures (open == '{' && close == '}' ==> s == RenderNode(NObj(gap, [])) + t[1..] && MapOf([]) == map[])
    ensures (open == '[' && close == ']' ==> s == RenderNode(NArr(gap, [])) + t[1..])
  {
    assert s == [open] + gap + [close] + t[1..];
    assert "{" == ['{'] && "}" == ['}'] && "[" == ['['] && "]" == [']'];
  }

  lemma ObjText(s: string, members: seq<Member>, rest: string)
    requires s != "" && s[0] == '{' && members != [] && s[1..] == RenderMembers(members) + ("}" + rest)
    ensures s == RenderNode(NObj("", members)) + rest
  {
    hide RenderMembers;
    assert s == ['{'] + s[1..];
  }

  lemma ArrText(s: string, items: seq<Doc>, rest: string)
    requires s != "" && s[0] == '[' && items != [] && s[1..] == RenderItems(items) + ("]" + rest)
    ensures s == RenderNode(NArr("", items)) + rest
  {
    hide RenderItems;
    assert s == ['['] + s[1..];
  }

  lemma StrText(s: string, raw: string, rest: string)
    requires s != "" && s[0] == '"' && s[1..] == raw + ("\"" + rest)
    ensures s == RenderNode(NStr(raw)) + rest
  {
    assert s == ['"'] + s[1..];
  }

  /** A decoded document, with the whitespace before the mark that follows it. */
  lemma {:induction false} DocSound(s: string) returns (d: Doc)
    requires ParseDoc(s).Got?
    ensures DocOk(d) && DocValue(d) == ParseDoc(s).value && s == RenderDoc(d) + SkipWs(ParseDoc(s).rest)
    decreases |s|, 1
  {
    var before := WsPart(s);
    var node := NodeSound(SkipWs(s));
    var after := WsPart(ParseDoc(s).rest);
    d := Doc(before, node, after);
    hide ParseNode, SkipWs, NodeOk, RenderNode, NodeValue, AllWs;
    DocText(s, d, SkipWs(s), ParseDoc(s).rest, SkipWs(ParseDoc(s).rest));
  }

  lemma DocText(s: string, d: Doc, t: string, rest: string, mark: string)
    requires s == d.before + t && t == RenderNode(d.node) + rest && rest == d.after + mark
    ensures s == RenderDoc(d) + mark
  {
    hide RenderNode;
  }

  lemma {:induction false} ItemsSound(s: string) returns (items: seq<Doc>)
    requires ParseItems(s).Got?
    ensures items != [] && (forall d | d in items :: DocOk(d)) && Values(items) == ParseItems(s).value
    ensures s == RenderItems(items) + ("]" + ParseItems(s).rest)
    decreases |s|, 2
  {
    hide ParseDoc, DocOk, DocValue, SkipWs, Values, RenderItems;
    var d := DocSound(s);
    var t := SkipWs(ParseDoc(s).rest);
    WsShorter(ParseDoc(s).rest);
    items := [d];
    if t[0] == ']' {
      OneItem(s, d, t);
    } else {
      var more := ItemsSound(t[1..]);
      items := [d] + more;
      MoreItems(s, d, more, t, ParseItems(s).rest);
    }
  }

  lemma WsShorter(s: string)
    ensures |SkipWs(s)| <= |s|
  {
  }

  lemma OneItem(s: string, d: Doc, t: string)
    requires DocOk(d) && t != "" && t[0] == ']' && s == RenderDoc(d) + t
    ensures (forall x | x in [d] :: DocOk(x)) && Values([d]) == [DocValue(d)]
    ensures s == RenderItems([d]) + ("]" + t[1..])
  {
    hide DocOk, DocValue, RenderDoc;
    assert t == "]" + t[1..];
    assert Values([d][1..]) == [];
    assert RenderItems([d]) == RenderDoc(d);
  }

  lemma MoreItems(s: string, d: Doc, more: seq<Doc>, t: string, rest: string)
    requires DocOk(d) && more != [] && (forall x | x in more :: DocOk(x)) && t != "" && t[0] == ','
    requires s == RenderDoc(d) + t && t[1..] == RenderItems(more) + ("]" + rest)
    ensures (forall x | x in [d] + more :: DocOk(x)) && Values([d] + more) == [DocValue(d)] + Values(more)
    ensures s == RenderItems([d] + more) + ("]" + rest)
  {
    hide DocOk, DocValue, RenderDoc;
    assert ([d] + more)[1..] == more;
    assert t == "," + t[1..];
    assert RenderItems([d] + more) == RenderDoc(d) + ("," + RenderItems(more));
    hide RenderItems, Values;
    assert Values([d] + more) == [DocValue(d)] + Values(more);
  }

  lemma {:induction false} MemberSound(s: string) returns (m: Member)
    requires ParseMember(s).Got?
    ensures MemberOk(m) && (RawText(m.raw), DocValue(m.doc)) == ParseMember(s).value
    ensures s == RenderMember(m) + SkipWs(ParseMember(s).rest)
    decreases |s|, 1
  {
    hide ParseDoc, ParseChars, DocOk, DocValue, RawOk, RawText, SkipWs, AllWs, RenderMember;
    var before := WsPart(s);
    var t := SkipWs(s);
    WsShorter(s);
    var raw := CharsSound(t[1..]);
    var after := ParseChars(t[1..]).rest;
    var mid := WsPart(after);
    var u := SkipWs(after);
    WsShorter(after);
    var doc := DocSound(u[1..]);
    m := Member(before, raw, mid, doc);
    MemberTextIs(s, m, t, u, after, SkipWs(ParseDoc(u[1..]).rest));
  }

  lemma MemberTextIs(s: string, m: Member, t: string, u: string, after: string, mark: string)
    requires s == m.before + t && t != "" && t[0] == '"' && t[1..] == m.raw + ("\"" + after)
    requires after == m.mid + u && u != "" && u[0] == ':' && u[1..] == RenderDoc(m.doc) + mark
    ensures s == RenderMember(m) + mark
  {
    hide RenderDoc;
    assert t == ['"'] + t[1..] && u == [':'] + u[1..];
    assert u == ":" + (RenderDoc(m.doc) + mark);
    hide RenderMember;
    MemberText(m, mark);
  }

  lemma {:induction false} MembersSound(s: string) returns (members: seq<Member>)
    requires ParseMembers(s).Got?
    ensures members != [] && (forall m | m in members :: MemberOk(m)) && Pairs(members) == ParseMembers(s).value
    ensures s == RenderMembers(members) + ("}" + ParseMembers(s).rest)
    decreases |s|, 2
  {
    hide ParseMember, MemberOk, SkipWs, Pairs, RenderMembers, DocValue, RawText;
    var m := MemberSound(s);
    var t := SkipWs(ParseMember(s).rest);
    WsShorter(ParseMember(s).rest);
    members := [m];
    if t[0] == '}' {
      OneMember(s, m, t);
    } else {
      var more := MembersSound(t[1..]);
      members := [m] + more;
      MoreMembers(s, m, more, t, ParseMembers(s).rest);
    }
  }

  lemma OneMember(s: string, m: Member, t: string)
    requires MemberOk(m) && t != "" && t[0] == '}' && s == RenderMember(m) + t
    ensures (forall x | x in [m] :: MemberOk(x)) && Pairs([m]) == [(RawText(m.raw), DocValue(m.doc))]
    ensures s == RenderMembers([m]) + ("}" + t[1..])
  {
    hide DocOk, DocValue, RenderMember, RawOk, RawText;
    assert t == "}" + t[1..];
    assert Pairs([m][1..]) == [];
    assert RenderMembers([m]) == RenderMember(m);
  }

  lemma MoreMembers(s: string, m: Member, more: seq<Member>, t: string, rest: string)
    requires MemberOk(m) && more != [] && (forall x | x in more :: MemberOk(x)) && t != "" && t[0] == ','
    requires s == RenderMember(m) + t && t[1..] == RenderMembers(more) + ("}" + rest)
    ensures (forall x | x in [m] + more :: MemberOk(x))
    ensures Pairs([m] + more) == [(RawText(m.raw), DocValue(m.doc))] + Pairs(more)
    ensures s == RenderMembers([m] + more) + ("}" + rest)
  {
    hide DocOk, DocValue, RenderMember, RawOk, RawText;
    assert ([m] + more)[1..] == more;
    assert t == "," + t[1..];
    assert RenderMembers([m] + more) == RenderMember(m) + ("," + RenderMembers(more));
    hide RenderMembers, Pairs;
    assert Pairs([m] + more) == [(RawText(m.raw), DocValue(m.doc))] + Pairs(more);
  }

  /** The text spells v and nothing else that matters. */
  ghost predicate Spells(s: string, v: Json) {
    exists d, rest :: DocOk(d) && Tolerated(rest) && s == RenderDoc(d) + rest && DocValue(d) == v
  }

  /** On every text: it is decoded as v exactly when it is a document with that value, followed by nothing
      or by what is tolerated. */
  lemma DecodedExactly(s: string, v: Json)
    ensures DecodeAll(s) == Some(v) <==> Spells(s, v)
  {
    if DecodeAll(s) == Some(v) {
      var d := DocSound(s);
      hide ParseDoc, RenderDoc, DocValue, DocOk;
      SkipTwice(ParseDoc(s).rest);
      assert Tolerated(SkipWs(ParseDoc(s).rest));
    }
    if Spells(s, v) {
      hide DecodeAll, RenderDoc, DocValue, DocOk, Prolongs, Delimited;
      var d, rest :| DocOk(d) && Tolerated(rest) && s == RenderDoc(d) + rest && DocValue(d) == v;
      ToleratedDelimits(rest);
      DelimitedEnds(d, rest);
      DecodesExactly(d, rest);
    }
  }

  lemma {:induction false} SkipTwice(s: string)
    ensures SkipWs(SkipWs(s)) == SkipWs(s)
    decreases |s|
  {
    if s != "" && IsWs(s[0]) { SkipTwice(s[1..]); }
  }
}
