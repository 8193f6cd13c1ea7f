/** How numbers and strings are printed, told apart from the printer: which numbers have a canonical form and
    which, and which characters are escaped and how (internal/canonicaljson/canonicaljson.go). */
module CanonicalForms {
  import opened Wrappers
  import opened Decimal
  import opened Utf8
  import opened Json
  import opened Canonical

  // ---- numbers ----

  /** A sign for negative numbers alone, and no leading zero. */
  lemma FormatExactly(i: int)
    ensures var s := FormatInt(i); var d := if i < 0 then s[1..] else s;
      && (i < 0 ==> s != "" && s[0] == '-')
      && d != "" && AllDigits(d) && ValueOf(d) == (if i < 0 then -i else i)
      && (d[0] == '0' ==> d == "0" && i == 0)
  {
    var n: nat := if i < 0 then -i else i;
    DigitsValue(n);
    assert i < 0 ==> FormatInt(i)[1..] == Digits(n);
    hide Digits, ValueOf;
  }

  /** What the nearest float of a literal prints: an integer in the safe range, or nothing. */
  ghost predicate PrintsFloat(fl: Floats, lit: string, out: Option<string>) {
    if fl(lit).Some? && -9007199254740991 <= fl(lit).value <= 9007199254740991
    then out == Some(FormatInt(fl(lit).value)) else out == None
  }

  /** An integer literal of 64 bits is printed exactly when it lies in the safe range; beyond 64 bits the
      nearest float decides. */
  lemma IntegerPrints(fl: Floats, neg: bool, d: string)
    requires d != "" && AllDigits(d)
    ensures var lit := if neg then "-" + d else d;
      var v: int := if neg then 0 - ValueOf(d) else ValueOf(d);
      if -9223372036854775808 <= v <= 9223372036854775807 then
        CanonNumber(fl, lit) ==
          if -9007199254740991 <= v <= 9007199254740991 then Some(FormatInt(v)) else None
      else PrintsFloat(fl, lit, CanonNumber(fl, lit))
  {
    var lit := if neg then "-" + d else d;
    assert neg ==> lit[1..] == d;
    assert d[0] in d;
    hide FormatInt, ValueOf;
  }

  /** A literal with a fraction or an exponent is printed as its nearest float decides. */
  lemma FractionPrints(fl: Floats, lit: string, i: nat)
    requires i < |lit| && (lit[i] == '.' || lit[i] == 'e' || lit[i] == 'E')
    ensures PrintsFloat(fl, lit, CanonNumber(fl, lit))
  {
    var body := if lit[0] in "+-" then lit[1..] else lit;
    assert lit[i] in body by {
      if lit[0] in "+-" { assert body[i - 1] == lit[i]; }
    }
    assert !IsDigit(lit[i]);
    hide FormatInt, ValueOf;
  }

  // ---- strings ----

  /** The printed form of an ASCII character: the quote, the backslash and five control characters have a
      short escape, the other control characters one of six characters with lower-case digits. */
  ghost predicate PrintsAs(c: char, e: string) {
    if c == '"' || c == '\\' then e == ['\\', c]
    else if c as int == 0x08 then e == "\\b"
    else if c as int == 0x09 then e == "\\t"
    else if c as int == 0x0A then e == "\\n"
    else if c as int == 0x0C then e == "\\f"
    else if c as int == 0x0D then e == "\\r"
    else if c as int < 0x10 then e == "\\u000" + [LowerHex(c as int)]
    else if c as int < 0x20 then e == "\\u001" + [LowerHex(c as int - 0x10)]
    else e == [c]
  }

  function LowerHex(d: int): char
    requires 0 <= d < 16
  {
    if d < 10 then ('0' as int + d) as char else ('a' as int + d - 10) as char
  }

  lemma EscapesExactly(c: char)
    requires c as int < 0x80
    ensures PrintsAs(c, EscapeByte(c))
  {
  }

  /** A string is printed character by character: ASCII as PrintsAs says, any other rune as it stands, and a
      byte that begins none as U+FFFD. */
  lemma StringPrints(s: string)
    requires s != ""
    ensures s[0] as int < 0x80 ==> exists e :: PrintsAs(s[0], e) && Quoted(s) == e + Quoted(s[1..])
    ensures s[0] as int >= 0x80 && RuneSize(s) > 0 ==> Quoted(s) == s[..RuneSize(s)] + Quoted(s[RuneSize(s)..])
    ensures s[0] as int >= 0x80 && RuneSize(s) == 0 ==> Quoted(s) == "\U{EF}\U{BF}\U{BD}" + Quoted(s[1..])
  {
    if s[0] as int < 0x80 {
      EscapesExactly(s[0]);
      assert Quoted(s) == EscapeByte(s[0]) + Quoted(s[1..]);
    }
    hide PrintsAs, EscapeByte, RuneSize;
  }
}
