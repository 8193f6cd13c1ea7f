/** The grammar of numbers, strings and whitespace the decoder follows, told apart from the decoder
    (sections 2, 6 and 7 of RFC 8259; internal/canonicaljson/canonicaljson.go). */
module JsonGrammar {
  import opened Wrappers
  import opened Decimal
  import opened Utf8
  import opened Json
  import opened JsonDocuments

  // ---- numbers ----

  ghost predicate DigitsOnly(s: string) { forall i | 0 <= i < |s| :: '0' <= s[i] <= '9' }

  /** Zero, or digits that begin with none. */
  ghost predicate IsInt(s: string) { s == "0" || (s != "" && s[0] != '0' && DigitsOnly(s)) }

  ghost predicate IsFrac(s: string) { s == "" || (|s| >= 2 && s[0] == '.' && DigitsOnly(s[1..])) }

  ghost predicate IsExp(s: string) {
    s == "" || (
      && (s[0] == 'e' || s[0] == 'E')
      && if |s| >= 2 && (s[1] == '+' || s[1] == '-') then |s| >= 3 && DigitsOnly(s[2..])
         else |s| >= 2 && DigitsOnly(s[1..]))
  }

  ghost predicate Numeral(s: string, i: string, f: string, e: string) {
    s == i + f + e && IsInt(i) && IsFrac(f) && IsExp(e)
  }

  ghost predicate IsNumber(s: string) {
    || (exists i, f, e :: Numeral(s, i, f, e))
    || (s != "" && s[0] == '-' && exists i, f, e :: Numeral(s[1..], i, f, e))
  }

  lemma {:induction false} DigitRunAll(s: string)
    requires DigitsOnly(s)
    ensures DigitRun(s) == |s|
    decreases |s|
  {
    if s != "" { DigitRunAll(s[1..]); }
  }

  lemma DigitRunFront(s: string)
    ensures DigitsOnly(s[..DigitRun(s)])
  {
    forall i | 0 <= i < DigitRun(s) ensures '0' <= s[i] <= '9' { RunOfDigits(s, i); }
  }

  lemma IntPart(i: string, rest: string)
    requires IsInt(i) && (rest == "" || !IsDigit(rest[0]))
    ensures IntLen(i + rest) == |i|
  {
    IntLenOver(i, rest);
    if i[0] != '0' { DigitRunAll(i); }
  }

  lemma FracPart(f: string, rest: string)
    requires IsFrac(f) && (rest == "" || (!IsDigit(rest[0]) && rest[0] != '.'))
    ensures FracLen(f + rest) == Some(|f|)
  {
    if f == "" {
      assert f + rest == rest;
    } else {
      assert (f + rest)[1..] == f[1..] + rest;
      DigitRunAll(f[1..]);
      DigitRunOver(f[1..], rest);
    }
  }

  lemma ExpPart(e: string)
    requires IsExp(e)
    ensures ExpLen(e) == Some(|e|)
  {
    if e != "" {
      var t := e[1..];
      var k := SignLen(t);
      assert t[k..] == if k == 1 then e[2..] else e[1..];
      DigitRunAll(t[k..]);
    }
  }

  lemma NumeralRead(s: string, i: string, f: string, e: string)
    requires Numeral(s, i, f, e)
    ensures UnsignedLen(s) == |s| > 0
  {
    Assoc(i, f, e);
    if f == "" { assert f + e == e; }
    IntPart(i, f + e);
    assert s[|i|..] == f + e;
    FracPart(f, e);
    assert (f + e)[|f|..] == e;
    ExpPart(e);
  }

  lemma FracRead(s: string)
    requires FracLen(s).Some?
    ensures IsFrac(s[..FracLen(s).value])
  {
    var n := FracLen(s).value;
    if n > 0 {
      DigitRunFront(s[1..]);
      assert s[..n][1..] == s[1..][..n - 1];
    }
  }

  lemma ExpRead(s: string)
    requires ExpLen(s) == Some(|s|)
    ensures IsExp(s)
  {
    if s != "" {
      var t := s[1..];
      var k := SignLen(t);
      DigitRunFront(t[k..]);
      assert t[k..][..DigitRun(t[k..])] == t[k..];
      assert t[k..] == if k == 1 then s[2..] else s[1..];
    }
  }

  lemma IntRead(s: string)
    requires IntLen(s) > 0
    ensures IsInt(s[..IntLen(s)])
  {
    if s[0] != '0' { DigitRunFront(s); } else { assert s[..1] == "0"; }
  }

  lemma UnsignedParts(s: string)
    requires UnsignedLen(s) == |s| > 0
    ensures IntLen(s) > 0
    ensures var t := s[IntLen(s)..]; FracLen(t).Some? && ExpLen(t[FracLen(t).value..]) == Some(|t| - FracLen(t).value)
  {
    hide IntLen, FracLen, ExpLen;
  }

  lemma UnsignedRead(s: string)
    requires UnsignedLen(s) == |s| > 0
    ensures exists i, f, e :: Numeral(s, i, f, e)
  {
    hide *;
    UnsignedParts(s);
    var n := IntLen(s);
    var t := s[n..];
    var m := FracLen(t).value;
    IntRead(s);
    FracRead(t);
    ExpRead(t[m..]);
    IsNumeral(s, s[..n], t[..m], t[m..]);
  }

  lemma IsNumeral(s: string, i: string, f: string, e: string)
    requires s == i + f + e && IsInt(i) && IsFrac(f) && IsExp(e)
    ensures Numeral(s, i, f, e)
  {
  }

  /** A text is read as one number exactly when it is one by the grammar. */
  lemma NumberExactly(s: string)
    ensures NumberLen(s) == |s| > 0 <==> IsNumber(s)
  {
    if NumberLen(s) == |s| > 0 {
      if s[0] == '-' { UnsignedRead(s[1..]); } else { UnsignedRead(s); }
    }
    if i, f, e :| Numeral(s, i, f, e) {
      NumeralRead(s, i, f, e);
      assert s[0] == i[0];
    } else if s != "" && s[0] == '-' && exists i, f, e :: Numeral(s[1..], i, f, e) {
      var i, f, e :| Numeral(s[1..], i, f, e);
      NumeralRead(s[1..], i, f, e);
    }
  }

  // ---- strings ----

  /** c is the digit of this value in hexadecimal, in either case. */
  ghost predicate IsHex(c: char, v: int) {
    0 <= v < 16 && (c == "0123456789abcdef"[v] || c == "0123456789ABCDEF"[v])
  }

  ghost predicate Digits4(s: string, a: int, b: int, c: int, d: int)
    requires |s| >= 6
  {
    IsHex(s[2], a) && IsHex(s[3], b) && IsHex(s[4], c) && IsHex(s[5], d)
  }

  /** s begins with the escape of the code unit u. */
  ghost predicate UnitAt(s: string, u: int) {
    && |s| >= 6 && s[0] == '\\' && s[1] == 'u'
    && exists a, b, c, d :: Digits4(s, a, b, c, d) && u == a * 4096 + b * 256 + c * 16 + d
  }

  lemma HexExactly(c: char, v: int)
    requires v >= 0
    ensures HexValue(c) == v <==> IsHex(c, v)
  {
  }

  lemma UnitExactly(s: string, u: int)
    requires u >= 0
    ensures CodeUnit(s) == u <==> UnitAt(s, u)
  {
    if |s| >= 6 && s[0] == '\\' && s[1] == 'u' {
      forall a, b, c, d | Digits4(s, a, b, c, d)
        ensures HexValue(s[2]) == a && HexValue(s[3]) == b && HexValue(s[4]) == c && HexValue(s[5]) == d
      {
        HexExactly(s[2], a);
        HexExactly(s[3], b);
        HexExactly(s[4], c);
        HexExactly(s[5], d);
      }
      var a, b, c, d := HexValue(s[2]), HexValue(s[3]), HexValue(s[4]), HexValue(s[5]);
      if a >= 0 && b >= 0 && c >= 0 && d >= 0 {
        HexExactly(s[2], a);
        HexExactly(s[3], b);
        HexExactly(s[4], c);
        HexExactly(s[5], d);
        assert Digits4(s, a, b, c, d);
      }
      hide HexValue, IsHex;
    }
  }

  ghost predicate ShortFor(c: char, v: char) {
    (c, v as int) in {('"', 0x22), ('\\', 0x5C), ('/', 0x2F), ('b', 0x08), ('f', 0x0C), ('n', 0x0A), ('r', 0x0D),
      ('t', 0x09)}
  }

  /** The escape of a character, taken alone. */
  ghost predicate OneUnit(s: string, n: nat, t: string) {
    exists u :: UnitAt(s, u) && !(0xD800 <= u <= 0xDFFF) && n == 6 && t == EncodeRune(u)
  }

  /** The escapes of a surrogate pair stand for one character. */
  ghost predicate TwoUnits(s: string, n: nat, t: string) {
    && n == 12 && |s| >= 6
    && exists u, v :: UnitAt(s, u) && UnitAt(s[6..], v) && 0xD800 <= u <= 0xDBFF && 0xDC00 <= v <= 0xDFFF
         && t == EncodeRune(0x10000 + (u - 0xD800) * 0x400 + (v - 0xDC00))
  }

  /** The escape of a surrogate without its partner stands for U+FFFD. */
  ghost predicate LoneUnit(s: string, n: nat, t: string) {
    && n == 6 && |s| >= 6 && t == "\U{EF}\U{BF}\U{BD}"
    && exists u :: UnitAt(s, u) && 0xD800 <= u <= 0xDFFF
         && (u <= 0xDBFF ==> forall v | UnitAt(s[6..], v) :: !(0xDC00 <= v <= 0xDFFF))
  }

  /** The character or escape a string body s begins with takes n bytes and stands for the text t. */
  ghost predicate Stands(s: string, n: nat, t: string) {
    if s == "" || s[0] == '"' || s[0] as int < 0x20 then false
    else if s[0] == '\\' then
      || (|s| >= 2 && n == 2 && |t| == 1 && ShortFor(s[1], t[0]))
      || OneUnit(s, n, t) || TwoUnits(s, n, t) || LoneUnit(s, n, t)
    else if RuneSize(s) > 0 then n == RuneSize(s) && t == s[..n]
    else n == 1 && t == "\U{EF}\U{BF}\U{BD}"
  }

  lemma ShortExactly(c: char, t: string)
    ensures ShortEscape(c) != "" && ShortEscape(c) == t <==> |t| == 1 && ShortFor(c, t[0])
  {
  }

  lemma UnitIs(s: string)
    ensures CodeUnit(s) >= 0 ==> UnitAt(s, CodeUnit(s))
    ensures forall u | UnitAt(s, u) :: u == CodeUnit(s) && 0 <= u < 0x10000 && |s| >= 6 && s[1] == 'u'
  {
    if CodeUnit(s) >= 0 { UnitExactly(s, CodeUnit(s)); }
    forall u | UnitAt(s, u) ensures u == CodeUnit(s) && 0 <= u < 0x10000 && |s| >= 6 && s[1] == 'u' {
      UnitExactly(s, u);
    }
  }

  lemma OneUnitIs(s: string, n: nat, t: string)
    ensures OneUnit(s, n, t) <==>
      CodeUnit(s) >= 0 && !Surrogate(CodeUnit(s)) && n == 6 && t == EncodeRune(CodeUnit(s))
  {
    UnitIs(s);
    hide UnitAt, CodeUnit, EncodeRune;
  }

  lemma TwoUnitsIs(s: string, n: nat, t: string)
    ensures TwoUnits(s, n, t) <==>
      && n == 12 && |s| >= 6 && HighThenLow(CodeUnit(s), CodeUnit(s[6..]))
      && t == EncodeRune(0x10000 + (CodeUnit(s) - 0xD800) * 0x400 + (CodeUnit(s[6..]) - 0xDC00))
  {
    hide UnitAt, CodeUnit, EncodeRune;
    if TwoUnits(s, n, t) {
      var u, v :| UnitAt(s, u) && UnitAt(s[6..], v) && 0xD800 <= u <= 0xDBFF && 0xDC00 <= v <= 0xDFFF
        && t == EncodeRune(0x10000 + (u - 0xD800) * 0x400 + (v - 0xDC00));
      assert u == CodeUnit(s) && v == CodeUnit(s[6..]) by { UnitIs(s); UnitIs(s[6..]); }
    } else if n == 12 && |s| >= 6 && HighThenLow(CodeUnit(s), CodeUnit(s[6..])) {
      assert UnitAt(s, CodeUnit(s)) && UnitAt(s[6..], CodeUnit(s[6..])) by { UnitIs(s); UnitIs(s[6..]); }
    }
  }

  lemma LoneUnitIs(s: string, n: nat, t: string)
    ensures LoneUnit(s, n, t) <==>
      && n == 6 && |s| >= 6 && Surrogate(CodeUnit(s)) && !HighThenLow(CodeUnit(s), CodeUnit(s[6..]))
      && t == REPLACEMENT
  {
    UnitIs(s);
    if |s| >= 6 { UnitIs(s[6..]); }
    hide UnitAt, CodeUnit;
  }

  lemma EscapeStands(s: string, n: nat, t: string)
    requires |s| >= 2 && s[0] == '\\' && s[1] == 'u'
    ensures FirstPiece(s) == Some(Piece(n, t)) <==> Stands(s, n, t)
  {
    assert ShortEscape('u') == "";
    ShortExactly('u', t);
    UnitIs(s);
    OneUnitIs(s, n, t);
    TwoUnitsIs(s, n, t);
    LoneUnitIs(s, n, t);
    hide UnitAt, CodeUnit, EncodeRune, ShortFor, ShortEscape, OneUnit, TwoUnits, LoneUnit, RuneSize;
  }

  lemma StandsExactly(s: string, n: nat, t: string)
    requires s != "" && s[0] != '"'
    ensures FirstPiece(s) == Some(Piece(n, t)) <==> Stands(s, n, t)
  {
    if s[0] == '\\' {
      UnitIs(s);
      if |s| >= 2 {
        if s[1] == 'u' {
          EscapeStands(s, n, t);
        } else {
          ShortExactly(s[1], t);
          hide UnitAt, CodeUnit, EncodeRune, ShortFor, ShortEscape, RuneSize;
        }
      }
    }
  }

  /** A string's body is read piece by piece: up to its closing quote, each piece for the text it stands
      for, and nothing else is a string. */
  lemma ScanExactly(s: string, n: nat, t: string)
    ensures s != "" && s[0] == '"' ==> ParseChars(s) == Got("", s[1..])
    ensures Stands(s, n, t) ==>
      && n <= |s|
      && ParseChars(s) == match ParseChars(s[n..]) case Fail => Fail case Got(text, rest) => Got(t + text, rest)
    ensures (s == "" || s[0] != '"') && (forall k: nat, x: string :: !Stands(s, k, x)) ==> ParseChars(s) == Fail
  {
    if s != "" && s[0] != '"' {
      StandsExactly(s, n, t);
      if FirstPiece(s).Some? {
        var p := FirstPiece(s).value;
        StandsExactly(s, p.len, p.text);
        assert Stands(s, p.len, p.text);
      }
    }
    hide Stands, FirstPiece;
  }

  // ---- whitespace ----

  ghost predicate Blank(s: string, n: nat)
    requires n <= |s|
  {
    forall i | 0 <= i < n :: s[i] as int in {0x20, 0x09, 0x0A, 0x0D}
  }

  lemma {:induction false} SkipExactly(s: string)
    ensures var n := |s| - |SkipWs(s)|;
      Blank(s, n) && SkipWs(s) == s[n..] && (n < |s| ==> s[n] as int !in {0x20, 0x09, 0x0A, 0x0D})
  {
    if s != "" && IsWs(s[0]) {
      SkipExactly(s[1..]);
      var n := |s[1..]| - |SkipWs(s[1..])|;
      assert forall i | 0 < i < n + 1 :: s[i] == s[1..][i - 1];
    }
  }

  /** What the decoder takes behind a value: blanks, then the end of the input or a closing bracket. */
  lemma ToleratedExactly(rest: string)
    ensures Tolerated(rest) <==>
      exists n: nat :: n <= |rest| && Blank(rest, n) && (n == |rest| || rest[n] == ']' || rest[n] == '}')
  {
    SkipExactly(rest);
    var m := |rest| - |SkipWs(rest)|;
    if n: nat :| n <= |rest| && Blank(rest, n) && (n == |rest| || rest[n] == ']' || rest[n] == '}') {
      assert n == m;
    }
  }

  // ---- objects ----

  /** Of members with the same key the last one counts. */
  lemma {:induction false} LastMemberCounts(ms: seq<(string, Json)>, k: string)
    ensures k !in MapOf(ms) ==> forall i | 0 <= i < |ms| :: ms[i].0 != k
    ensures k in MapOf(ms) ==> exists i ::
      0 <= i < |ms| && ms[i].0 == k && MapOf(ms)[k] == ms[i].1 && forall j | i < j < |ms| :: ms[j].0 != k
    decreases |ms|
  {
    if ms != [] {
      var init, last := ms[..|ms| - 1], ms[|ms| - 1];
      LastMemberCounts(init, k);
      if last.0 != k && k in MapOf(init) {
        var i :| 0 <= i < |init| && init[i].0 == k && MapOf(init)[k] == init[i].1
          && forall j | i < j < |init| :: init[j].0 != k;
        assert forall j | i < j < |ms| :: ms[j].0 == if j < |init| then init[j].0 else last.0;
        assert ms[i] == init[i];
      }
    }
  }
}
