/** UTF-8 (section 3 of RFC 3629) as unicode/utf8 decodes it. A Go string is a sequence of bytes,
    held here as characters below 256. */
module Utf8 {
  import opened Lexical

  const REPLACEMENT: string := "\U{EF}\U{BF}\U{BD}"

  predicate Within(c: char, lo: int, hi: int) { lo <= c as int <= hi }

  /** The permitted range of the second byte. */
  predicate SecondOk(b0: char, b1: char) {
    Within(b1, if b0 as int == 0xE0 then 0xA0 else if b0 as int == 0xF0 then 0x90 else 0x80,
               if b0 as int == 0xED then 0x9F else if b0 as int == 0xF4 then 0x8F else 0xBF)
  }

  /** The length of the rune s begins with; 0 when s is empty or the first byte begins none. */
  function RuneSize(s: string): (n: nat)
    ensures n <= |s| && n <= 4
  {
    if s == "" then 0
    else if s[0] as int < 0x80 then 1
    else if Within(s[0], 0xC2, 0xDF) then if |s| >= 2 && SecondOk(s[0], s[1]) then 2 else 0
    else if Within(s[0], 0xE0, 0xEF) then
      if |s| >= 3 && SecondOk(s[0], s[1]) && Within(s[2], 0x80, 0xBF) then 3 else 0
    else if Within(s[0], 0xF0, 0xF4) then
      if |s| >= 4 && SecondOk(s[0], s[1]) && Within(s[2], 0x80, 0xBF) && Within(s[3], 0x80, 0xBF) then 4 else 0
    else 0
  }

  /** The code point of the first rune. */
  function Rune(s: string): (r: int)
    requires RuneSize(s) > 0
    ensures 0 <= r <= 0x10FFFF && !(0xD800 <= r <= 0xDFFF)
  {
    match RuneSize(s)
    case 1 => s[0] as int
    case 2 => (s[0] as int - 0xC0) * 64 + (s[1] as int - 0x80)
    case 3 => (s[0] as int - 0xE0) * 4096 + (s[1] as int - 0x80) * 64 + (s[2] as int - 0x80)
    case _ =>
      (s[0] as int - 0xF0) * 262144 + (s[1] as int - 0x80) * 4096 + (s[2] as int - 0x80) * 64 + (s[3] as int - 0x80)
  }

  function EncodeRune(r: int): (s: string)
    requires 0 <= r <= 0x10FFFF && !(0xD800 <= r <= 0xDFFF)
    ensures s != ""
  {
    if r < 0x80 then [r as char]
    else if r < 0x800 then [(0xC0 + r / 64) as char, (0x80 + r % 64) as char]
    else if r < 0x10000 then [(0xE0 + r / 64 / 64) as char, (0x80 + r / 64 % 64) as char, (0x80 + r % 64) as char]
    else [(0xF0 + r / 64 / 64 / 64) as char, (0x80 + r / 64 / 64 % 64) as char, (0x80 + r / 64 % 64) as char,
      (0x80 + r % 64) as char]
  }

  /** Encoding and decoding one rune are inverse. */
  lemma EncodeDecode(r: int, rest: string)
    requires 0 <= r <= 0x10FFFF && !(0xD800 <= r <= 0xDFFF)
    ensures RuneSize(EncodeRune(r) + rest) == |EncodeRune(r)| && Rune(EncodeRune(r) + rest) == r
  {
    var e := EncodeRune(r);
    var s := e + rest;
    assert forall i | 0 <= i < |e| :: s[i] == e[i];
    var q := r / 64;
    assert r == q * 64 + r % 64;
    if r >= 0x800 {
      var p := q / 64;
      assert q == p * 64 + q % 64;
      if r < 0x10000 {
        ThreeBytes(s, p, q % 64, r % 64);
      } else {
        assert p == p / 64 * 64 + p % 64;
        FourBytes(s, p / 64, p % 64, q % 64, r % 64);
      }
    }
  }

  lemma ThreeBytes(s: string, a: int, b: int, c: int)
    requires 0 <= a < 16 && 0 <= b < 64 && 0 <= c < 64
    requires 0x800 <= (a * 64 + b) * 64 + c && !(0xD800 <= (a * 64 + b) * 64 + c <= 0xDFFF)
    requires |s| >= 3 && s[0] as int == 0xE0 + a && s[1] as int == 0x80 + b && s[2] as int == 0x80 + c
    ensures RuneSize(s) == 3 && Rune(s) == (a * 64 + b) * 64 + c
  {
  }

  lemma FourBytes(s: string, a: int, b: int, c: int, d: int)
    requires 0 <= a < 5 && 0 <= b < 64 && 0 <= c < 64 && 0 <= d < 64
    requires 0x10000 <= ((a * 64 + b) * 64 + c) * 64 + d <= 0x10FFFF
    requires |s| >= 4 && s[0] as int == 0xF0 + a && s[1] as int == 0x80 + b && s[2] as int == 0x80 + c
      && s[3] as int == 0x80 + d
    ensures RuneSize(s) == 4 && Rune(s) == ((a * 64 + b) * 64 + c) * 64 + d
  {
  }

  lemma Div64(a: int, b: int)
    requires 0 <= b < 64
    ensures (a * 64 + b) / 64 == a && (a * 64 + b) % 64 == b
  {
  }

  lemma ThreeBack(s: string)
    requires RuneSize(s) == 3
    ensures var e := EncodeRune(Rune(s)); |e| == 3 && e[0] == s[0] && e[1] == s[1] && e[2] == s[2]
  {
    var a, b, c := s[0] as int - 0xE0, s[1] as int - 0x80, s[2] as int - 0x80;
    assert Rune(s) == (a * 64 + b) * 64 + c;
    Div64(a * 64 + b, c);
    Div64(a, b);
  }

  lemma FourBack(s: string)
    requires RuneSize(s) == 4
    ensures var e := EncodeRune(Rune(s)); |e| == 4 && e[0] == s[0] && e[1] == s[1] && e[2] == s[2] && e[3] == s[3]
  {
    var a, b, c, d := s[0] as int - 0xF0, s[1] as int - 0x80, s[2] as int - 0x80, s[3] as int - 0x80;
    assert Rune(s) == ((a * 64 + b) * 64 + c) * 64 + d;
    Div64((a * 64 + b) * 64 + c, d);
    Div64(a * 64 + b, c);
    Div64(a, b);
  }

  lemma DecodeEncode(s: string)
    requires RuneSize(s) > 0
    ensures EncodeRune(Rune(s)) == s[..RuneSize(s)]
  {
    match RuneSize(s)
    case 1 =>
    case 2 => Div64(s[0] as int - 0xC0, s[1] as int - 0x80);
    case 3 => ThreeBack(s);
    case _ => FourBack(s);
    assert |EncodeRune(Rune(s))| == RuneSize(s);
    assert forall i | 0 <= i < RuneSize(s) :: EncodeRune(Rune(s))[i] == s[i];
  }

  predicate Valid(s: string)
    decreases |s|
  {
    s == "" || (RuneSize(s) > 0 && Valid(s[RuneSize(s)..]))
  }

  function Runes(s: string): seq<int>
    requires Valid(s)
    decreases |s|
  {
    if s == "" then [] else [Rune(s)] + Runes(s[RuneSize(s)..])
  }

  /** Rune by rune, a proper prefix first. */
  predicate LessRunes(a: seq<int>, b: seq<int>)
    decreases |a|
  {
    |b| > 0 && (|a| == 0 || a[0] < b[0] || (a[0] == b[0] && LessRunes(a[1..], b[1..])))
  }

  /** The rune at the front depends on its own bytes only. */
  lemma RuneFront(s: string, t: string)
    requires RuneSize(s) > 0 && RuneSize(s) <= |t| && t[..RuneSize(s)] == s[..RuneSize(s)]
    ensures RuneSize(t) == RuneSize(s) && Rune(t) == Rune(s)
  {
    assert forall i | 0 <= i < RuneSize(s) :: t[i] == t[..RuneSize(s)][i] && s[i] == s[..RuneSize(s)][i];
  }

  lemma LessUnfold(a: string, b: string, n: nat)
    requires n <= |a| && n <= |b| && a[..n] == b[..n]
    ensures Less(a, b) <==> Less(a[n..], b[n..])
    decreases n
  {
    if n > 0 {
      assert a[0] == a[..n][0] == b[..n][0] == b[0];
      assert a[1..][..n - 1] == a[..n][1..] && b[1..][..n - 1] == b[..n][1..];
      LessUnfold(a[1..], b[1..], n - 1);
      assert a[1..][n - 1..] == a[n..] && b[1..][n - 1..] == b[n..];
    }
  }

  /** The first differing byte decides. */
  lemma LessAt(a: string, b: string, n: nat)
    requires n < |a| && n < |b| && a[..n] == b[..n] && a[n] < b[n]
    ensures Less(a, b)
  {
    LessUnfold(a, b, n);
  }

  lemma SmallerRuneFirst(a: string, b: string)
    requires RuneSize(a) > 0 && RuneSize(b) > 0 && Rune(a) < Rune(b)
    ensures Less(a, b)
  {
    if a[0] != b[0] {
      assert a[0] < b[0];
      LessAt(a, b, 0);
    } else if a[1] != b[1] {
      assert a[1] < b[1];
      LessAt(a, b, 1);
    } else if a[2] != b[2] {
      assert a[2] < b[2];
      LessAt(a, b, 2);
    } else {
      assert a[3] < b[3];
      LessAt(a, b, 3);
    }
  }

  /** Comparing UTF-8 byte by byte is comparing the code points. */
  lemma {:induction false} ByteOrderIsCodePointOrder(a: string, b: string)
    requires Valid(a) && Valid(b)
    ensures Less(a, b) <==> LessRunes(Runes(a), Runes(b))
    decreases |a|
  {
    if a != "" && b != "" {
      if Rune(a) < Rune(b) {
        SmallerRuneFirst(a, b);
      } else if Rune(b) < Rune(a) {
        SmallerRuneFirst(b, a);
        if Less(a, b) {
          Transitive(a, b, a);
          Irreflexive(a);
        }
      } else {
        DecodeEncode(a);
        DecodeEncode(b);
        var n := RuneSize(a);
        assert n == |EncodeRune(Rune(a))| == RuneSize(b);
        LessUnfold(a, b, n);
        ByteOrderIsCodePointOrder(a[n..], b[n..]);
        assert Runes(a)[1..] == Runes(a[n..]) && Runes(b)[1..] == Runes(b[n..]);
      }
    }
  }

  lemma {:induction false} ValidConcat(a: string, b: string)
    requires Valid(a) && Valid(b)
    ensures Valid(a + b)
    decreases |a|
  {
    hide RuneSize, Rune;
    if a == "" {
      assert a + b == b;
    } else {
      var n := RuneSize(a);
      ValidConcat(a[n..], b);
      assert (a + b)[..n] == a[..n];
      RuneFront(a, a + b);
      assert (a + b)[n..] == a[n..] + b;
    }
  }

  lemma OneRuneValid(s: string)
    requires RuneSize(s) > 0
    ensures Valid(s[..RuneSize(s)])
  {
    var n := RuneSize(s);
    var t := s[..n];
    assert t[..n] == t;
    RuneFront(s, t);
    assert t[n..] == "";
  }

  lemma EncodedRuneValid(r: int)
    requires 0 <= r <= 0x10FFFF && !(0xD800 <= r <= 0xDFFF)
    ensures Valid(EncodeRune(r))
  {
    EncodeDecode(r, "");
    assert EncodeRune(r) + "" == EncodeRune(r);
    OneRuneValid(EncodeRune(r));
    assert EncodeRune(r)[..|EncodeRune(r)|] == EncodeRune(r);
  }
}
