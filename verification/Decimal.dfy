/** Decimal notation: strconv.ParseInt and strconv.FormatInt in base 10. */
module Decimal {
  import opened Wrappers

  const TWO_63 := 0x8000_0000_0000_0000

  predicate IsDigit(c: char) { '0' <= c <= '9' }

  function DigitValue(c: char): (d: nat)
    requires IsDigit(c)
    ensures d < 10
  {
    c as int - '0' as int
  }

  function DigitOf(d: nat): (c: char)
    requires d < 10
    ensures IsDigit(c) && DigitValue(c) == d
  {
    ('0' as int + d) as char
  }

  predicate AllDigits(s: string) { forall c | c in s :: IsDigit(c) }

  function ValueOf(s: string): nat
    requires AllDigits(s)
  {
    if s == "" then 0 else ValueOf(s[..|s| - 1]) * 10 + DigitValue(s[|s| - 1])
  }

  function Digits(n: nat): string {
    if n < 10 then [DigitOf(n)] else Digits(n / 10) + [DigitOf(n % 10)]
  }

  lemma {:induction false} DigitsValue(n: nat)
    ensures Digits(n) != "" && AllDigits(Digits(n)) && ValueOf(Digits(n)) == n
    ensures Digits(n)[0] == '0' ==> n == 0 && |Digits(n)| == 1
  {
    if n < 10 {
      assert Digits(n)[..0] == "";
    } else {
      DigitsValue(n / 10);
      LastDigit(Digits(n / 10), n % 10);
    }
  }

  lemma LastDigit(s: string, d: nat)
    requires AllDigits(s) && d < 10
    ensures AllDigits(s + [DigitOf(d)]) && ValueOf(s + [DigitOf(d)]) == ValueOf(s) * 10 + d
  {
    assert (s + [DigitOf(d)])[..|s|] == s;
  }

  function FormatInt(i: int): string {
    if i < 0 then "-" + Digits(-i) else Digits(i)
  }

  function ParseInt64(s: string): Option<int> {
    if s == "" then None else
      var body := if s[0] in "+-" then s[1..] else s;
      if body == "" || !AllDigits(body) then None else
        var n: int := ValueOf(body);
        if s[0] == '-' then (if n <= TWO_63 then Some(-n) else None)
        else if n < TWO_63 then Some(n) else None
  }

  /** Reading back what was written, for every int64. */
  lemma ParseFormat(i: int)
    requires -TWO_63 <= i < TWO_63
    ensures ParseInt64(FormatInt(i)) == Some(i)
  {
    hide Digits, ValueOf;
    if i < 0 {
      DigitsValue(-i);
      assert FormatInt(i)[1..] == Digits(-i);
    } else {
      DigitsValue(i);
      assert IsDigit(FormatInt(i)[0]);
    }
  }

  /** A leading plus sign is taken, and changes nothing. */
  lemma PlusSign(s: string)
    requires s != "" && AllDigits(s)
    ensures ParseInt64("+" + s) == ParseInt64(s)
  {
    assert ("+" + s)[1..] == s;
    assert s[0] in s;
    hide ValueOf;
  }
}
