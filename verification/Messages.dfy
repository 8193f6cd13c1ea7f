/** /messages pagination (internal/csapi/rooms.go): the tokens, one page, and what a client that follows
    the `end` tokens collects. */
module Messages {
  import opened Wrappers
  import opened Decimal
  import opened EventStore

  const MIN_INT64 := -TWO_63
  const TWO_64 := 0x1_0000_0000_0000_0000
  const TOKEN_BYTES := 20

  predicate Int64(n: int) { MIN_INT64 <= n < TWO_63 }

  /** Two's complement wrap-around of Go's int64. */
  function Wrap(n: int): (r: int)
    ensures Int64(r)
  {
    var m := n % TWO_64;
    if m >= TWO_63 then m - TWO_64 else m
  }

  // ---- tokens ----

  function Prefixless(s: string): string { if s != "" && s[0] == 's' then s[1..] else s }

  /** The stream part: up to the first 't'. */
  function StreamPart(s: string): string {
    if s == "" || s[0] == 't' then "" else [s[0]] + StreamPart(s[1..])
  }

  function Unsigned(s: string): string { if s != "" && s[0] == '-' then s[1..] else s }

  /** None for a bad token; too large a number wraps around. */
  function TokenValue(s: string): Option<int> {
    var part := StreamPart(Prefixless(s));
    var body := Unsigned(part);
    if !AllDigits(body) then None else
      var v: int := ValueOf(body);
      Some(if part != "" && part[0] == '-' then Wrap(-v) else Wrap(v))
  }

  lemma WrapDiffers(a: int) returns (q: int)
    ensures a == Wrap(a) + q * TWO_64
  {
    q := a / TWO_64 + (if a % TWO_64 >= TWO_63 then 1 else 0);
  }

  lemma WrapShift(a: int, q: int)
    ensures Wrap(a + q * TWO_64) == Wrap(a)
  {
  }

  lemma WrapStep(a: int, d: nat)
    ensures Wrap(Wrap(a) * 10 + d) == Wrap(a * 10 + d)
  {
    var q := WrapDiffers(a);
    WrapShift(Wrap(a) * 10 + d, 10 * q);
  }

  lemma WrapNegated(a: int)
    ensures Wrap(-Wrap(a)) == Wrap(-a)
  {
    var q := WrapDiffers(a);
    WrapShift(-a, q);
  }

  method CutAtCursor(t: string) returns (part: string)
    ensures part == StreamPart(t)
  {
    var i := 0;
    while i < |t| && t[i] != 't'
      invariant 0 <= i <= |t|
      invariant t[..i] + StreamPart(t[i..]) == StreamPart(t)
    {
      assert t[i..][1..] == t[i + 1..];
      assert t[..i + 1] + StreamPart(t[i + 1..]) == t[..i] + ([t[i]] + StreamPart(t[i + 1..]));
      i := i + 1;
    }
    part := t[..i];
    assert part + "" == part;
  }

  /** The digit loop, in int64 arithmetic. */
  method Accumulate(body: string) returns (n: Option<int>)
    ensures n == if AllDigits(body) then Some(Wrap(ValueOf(body))) else None
  {
    hide Wrap;
    var v := 0;
    ZeroWraps();
    for k := 0 to |body|
      invariant AllDigits(body[..k]) && v == Wrap(ValueOf(body[..k]))
    {
      if !IsDigit(body[k]) {
        assert body[k] in body;
        return None;
      }
      assert body[..k + 1][..k] == body[..k];
      assert forall c | c in body[..k + 1] :: c in body[..k] || c == body[k];
      WrapStep(ValueOf(body[..k]), DigitValue(body[k]));
      v := Wrap(v * 10 + DigitValue(body[k]));
    }
    assert body[..|body|] == body;
    return Some(v);
  }

  lemma ZeroWraps()
    ensures Wrap(0) == 0
  {
  }

  method ParseIntToken(s: string) returns (r: Option<int>)
    ensures r == TokenValue(s)
  {
    hide StreamPart, Wrap, ValueOf;
    var part := CutAtCursor(Prefixless(s));
    var body := Unsigned(part);
    var n := Accumulate(body);
    if n.Some? && part != "" && part[0] == '-' {
      WrapNegated(ValueOf(body));
      return Some(Wrap(-n.value));
    }
    return n;
  }

  function TenTo(n: nat): nat { if n == 0 then 1 else 10 * TenTo(n - 1) }

  lemma NineteenDigits()
    ensures TWO_63 <= TenTo(19)
  {
    assert TenTo(4) == 10000;
    assert TenTo(8) == 100000000;
    assert TenTo(12) == 1000000000000;
    assert TenTo(16) == 10000000000000000;
    assert TenTo(19) == 10000000000000000000;
  }

  lemma TenToStep(n: nat, k: nat)
    requires 0 < n < TenTo(k)
    ensures k > 0 && n / 10 < TenTo(k - 1)
  {
  }

  /** The written token; negating the least int64 gives itself, and no digit is written. */
  function TokenText(n: int): string
    requires Int64(n)
  {
    if n == MIN_INT64 then "s-0" else if n < 0 then "s-" + Digits(-n) else "s" + Digits(n)
  }

  lemma DigitsStep(n: nat, written: string)
    requires n > 0
    ensures (if n / 10 > 0 then Digits(n / 10) else "") + ([DigitOf(n % 10)] + written) == Digits(n) + written
  {
    if n < 10 {
      assert Digits(n) == [DigitOf(n % 10)];
    } else {
      assert Digits(n / 10) + ([DigitOf(n % 10)] + written) == Digits(n / 10) + [DigitOf(n % 10)] + written;
    }
  }

  /** The digits fill a 20-byte buffer from its end; nothing is written for 0. */
  method WriteDigits(value: nat) returns (s: string)
    requires value < TWO_63
    ensures s == if value > 0 then Digits(value) else ""
  {
    hide Digits, TenTo, DigitOf;
    var n := value;
    var buf := new char[TOKEN_BYTES];
    var i := TOKEN_BYTES;
    NineteenDigits();
    while n > 0
      invariant 0 < i <= TOKEN_BYTES && n < TenTo(i - 1)
      invariant value > 0 ==> (if n > 0 then Digits(n) else "") + buf[i..] == Digits(value)
      invariant value == 0 ==> n == 0 && buf[i..] == ""
    {
      ghost var written := buf[i..];
      DigitsStep(n, written);
      TenToStep(n, i - 1);
      i := i - 1;
      buf[i] := DigitOf(n % 10);
      assert buf[i..] == [DigitOf(n % 10)] + written;
      n := n / 10;
    }
    s := buf[i..];
    assert "" + s == s;
  }

  lemma SomeDigits(n: nat)
    ensures Digits(n) != ""
  {
  }

  /** formatIntToken. */
  method FormatIntToken(value: int) returns (s: string)
    requires Int64(value)
    ensures s == TokenText(value)
  {
    hide Wrap, Digits, TokenText;
    var neg := value < 0;
    var n := if neg then Wrap(-value) else value;
    if neg { NegatedWraps(value); }
    s := "";
    if n > 0 {
      s := WriteDigits(n);
      SomeDigits(n);
    }
    if s == "" {
      s := "0";
    }
    TokenTextIs(value);
    if neg {
      return "s-" + s;
    }
    return "s" + s;
  }

  /** The least int64 is its own negative. */
  lemma NegatedWraps(n: int)
    requires Int64(n) && n < 0
    ensures Wrap(-n) == if n == MIN_INT64 then n else -n
  {
  }

  lemma TokenTextIs(n: int)
    requires Int64(n)
    ensures TokenText(n) == (if n < 0 then "s-" else "s")
      + (if n == 0 || n == MIN_INT64 then "0" else Digits(if n < 0 then -n else n))
  {
    hide Digits;
    ZeroDigits();
  }

  lemma ZeroDigits()
    ensures Digits(0) == "0"
  {
  }

  lemma {:induction false} StreamPartOfDigits(s: string)
    requires forall c | c in s :: IsDigit(c) || c == '-'
    ensures StreamPart(s) == s
    decreases |s|
  {
    if s != "" {
      assert s[0] in s;
      StreamPartOfDigits(s[1..]);
    }
  }

  lemma LeastToken()
    ensures TokenValue("s-0") == Some(0)
  {
    assert Prefixless("s-0") == "-0";
    StreamPartOfDigits("-0");
    assert "-0"[1..] == "0" && "0"[..0] == "" && ValueOf("0") == 0;
  }

  lemma SmallWraps(n: int)
    requires Int64(n)
    ensures Wrap(n) == n
  {
  }

  lemma NegativeParts(digits: string)
    requires AllDigits(digits)
    ensures StreamPart(Prefixless("s-" + digits)) == "-" + digits && Unsigned("-" + digits) == digits
  {
    var part := "-" + digits;
    assert ("s-" + digits)[1..] == part;
    StreamPartOfDigits(part);
    assert part[1..] == digits;
  }

  lemma NegativeToken(n: int)
    requires 0 < n < TWO_63
    ensures TokenValue("s-" + Digits(n)) == Some(-n)
  {
    DigitsValue(n);
    SmallWraps(-n);
    hide Digits, ValueOf, Wrap;
    NegativeParts(Digits(n));
    hide StreamPart, AllDigits, Prefixless, Unsigned;
  }

  lemma PositiveToken(n: nat)
    requires n < TWO_63
    ensures TokenValue("s" + Digits(n)) == Some(n)
  {
    DigitsValue(n);
    var part := Digits(n);
    hide Digits, ValueOf, Wrap;
    SmallWraps(n);
    assert Prefixless("s" + part) == part by { assert ("s" + part)[1..] == part; }
    StreamPartOfDigits(part);
    hide StreamPart;
    assert IsDigit(part[0]);
  }

  /** A token reads back as the position it was written for, for every int64 but the least. */
  lemma TokenRoundTrip(n: int)
    requires Int64(n)
    ensures TokenValue(TokenText(n)) == Some(n) <==> n != MIN_INT64
  {
    if n == MIN_INT64 {
      LeastToken();
    } else if n < 0 {
      NegativeToken(-n);
    } else {
      PositiveToken(n);
    }
  }

  lemma {:induction false} CutOnce(s: string, cursor: string)
    ensures StreamPart(s + "t" + cursor) == StreamPart(s)
    decreases |s|
  {
    if s == "" {
      assert s + "t" + cursor == "t" + cursor;
    } else {
      CutOnce(s[1..], cursor);
      assert (s + "t" + cursor)[1..] == s[1..] + "t" + cursor;
    }
  }

  /** A to-device cursor behind a token, good or bad, is ignored. */
  lemma CursorIgnored(token: string, cursor: string)
    ensures TokenValue(token + "t" + cursor) == TokenValue(token)
  {
    var whole := token + "t" + cursor;
    hide ValueOf, Wrap, Unsigned;
    if token == "" {
      assert whole == "t" + cursor;
      assert Prefixless(whole) == whole;
      CutOnce("", cursor);
    } else if token[0] == 's' {
      assert whole[0] == 's' && whole[1..] == token[1..] + "t" + cursor;
      CutOnce(token[1..], cursor);
    } else {
      assert whole[0] == token[0];
      CutOnce(token, cursor);
    }
  }

  // ---- one page ----

  datatype Page = Page(chunk: seq<int>, start: int, end: Option<int>)

  function LimitOf(limit: Option<int>): (n: nat)
    ensures n > 0
  {
    if limit.Some? && 0 < limit.value < 1000 then limit.value else 30
  }

  /** On a backward page `from` is the upper bound and the client's `to` is not looked at. */
  function Chunk(evs: seq<int>, backward: bool, from: Option<int>, to: int, limit: Option<int>): seq<int> {
    if backward && from.Some? then
      if from.value == 0 then [] else EventsForRoomBackward(evs, 0, from.value, LimitOf(limit))
    else
      var f := if from.Some? then from.value else 0;
      if backward then EventsForRoomBackward(evs, f, to, LimitOf(limit)) else EventsForRoom(evs, f, to, LimitOf(limit))
  }

  /** maxTok starts from 0, so positions below that are not seen. */
  function NotBelowZero(n: int): int { if n > 0 then n else 0 }

  /** minTok 0 counts as unset: an event at position 0 that comes first is replaced by the next. */
  function FirstToken(chunk: seq<int>): int
    requires chunk != []
  {
    if chunk[0] == 0 && |chunk| > 1 then chunk[1] else chunk[0]
  }

  function PageOf(evs: seq<int>, backward: bool, from: Option<int>, to: int, limit: Option<int>): Page {
    var chunk := Chunk(evs, backward, from, to, limit);
    if chunk == [] then Page(chunk, if from.Some? then from.value else 0, None)
    else if backward then Page(chunk, NotBelowZero(chunk[0]), Some(chunk[|chunk| - 1] - 1))
    else Page(chunk, FirstToken(chunk), Some(NotBelowZero(chunk[|chunk| - 1])))
  }

  ghost predicate Falling(s: seq<int>) { forall i, j | 0 <= i < j < |s| :: s[i] > s[j] }

  /** RoomMessages, for a reader who sees every event. An absent token is the same as a missing one. */
  method RoomMessages(evs: seq<int>, backward: bool, fromTok: Option<int>, toTok: int, limit: Option<int>)
      returns (page: Page)
    requires Increasing(evs)
    ensures page == PageOf(evs, backward, fromTok, toTok, limit)
  {
    hide EventsForRoom, EventsForRoomBackward;
    var from := if fromTok.Some? then fromTok.value else 0;
    var to := toTok;
    var startTok := from;
    if backward && fromTok.Some? {
      if from != 0 {
        to := from;
        from := 0;
      } else {
        return Page([], startTok, None);
      }
    }
    var chunk := if backward then EventsForRoomBackward(evs, from, to, LimitOf(limit))
      else EventsForRoom(evs, from, to, LimitOf(limit));
    ChunkOrdered(evs, from, to, LimitOf(limit));
    var minTok, maxTok := 0, 0;
    for i := 0 to |chunk|
      invariant i == 0 ==> minTok == 0 && maxTok == 0
      invariant i > 0 && backward ==> minTok == chunk[i - 1] && maxTok == NotBelowZero(chunk[0])
      invariant i > 0 && !backward ==> minTok == FirstToken(chunk[..i]) && maxTok == NotBelowZero(chunk[i - 1])
    {
      if minTok == 0 || chunk[i] < minTok { minTok := chunk[i]; }
      if chunk[i] > maxTok { maxTok := chunk[i]; }
    }
    assert chunk[..|chunk|] == chunk;
    if |chunk| > 0 {
      page := if backward then Page(chunk, maxTok, Some(minTok - 1)) else Page(chunk, minTok, Some(maxTok));
    } else {
      page := Page(chunk, startTok, None);
    }
  }

  lemma ChunkOrdered(evs: seq<int>, from: int, to: int, n: nat)
    requires Increasing(evs)
    ensures Increasing(EventsForRoom(evs, from, to, n)) && Falling(EventsForRoomBackward(evs, from, to, n))
  {
    hide InRange, Reversed;
    var j, k := PieceOf(evs, Lower(from), Upper(to));
    FallingReversed(evs[j..k]);
    hide Lower, Upper, Count;
  }

  lemma FallingReversed(s: seq<int>)
    requires Increasing(s)
    ensures Falling(Reversed(s))
  {
    ReversedAt(s);
    hide Reversed;
  }

  /** One page, told from the timeline: which events it holds, and its two tokens. */
  lemma PageExactly(evs: seq<int>, backward: bool, from: Option<int>, to: int, limit: Option<int>)
      returns (j: nat, k: nat)
    requires Increasing(evs) && forall i | 0 <= i < |evs| :: -MAX_STREAM < evs[i] < MAX_STREAM
    ensures backward && from == Some(0) ==> PageOf(evs, backward, from, to, limit) == Page([], 0, None)
    ensures j <= k <= |evs| && forall i | 0 <= i < |evs| :: j <= i < k <==> PageWants(evs[i], backward, from, to)
    ensures var page := PageOf(evs, backward, from, to, limit);
      var n := if limit.Some? && 1 <= limit.value <= 999 then limit.value else 30;
      var m := if k - j > n then n else k - j;
      !(backward && from == Some(0)) ==>
        && page.chunk == (if backward then Reversed(evs[k - m..k]) else evs[j..j + m])
        && (m == 0 ==> page.end == None && page.start == if from.Some? then from.value else 0)
        && (m > 0 && backward ==>
              page.end == Some(evs[k - m] - 1) && page.start == if evs[k - 1] > 0 then evs[k - 1] else 0)
        && (m > 0 && !backward ==>
              && page.end == Some(if evs[j + m - 1] > 0 then evs[j + m - 1] else 0)
              && page.start == if evs[j] == 0 && m > 1 then evs[j + 1] else evs[j])
  {
    hide *;
    var lo := if backward && from.Some? then 0 else if from.Some? then from.value else 0;
    var hi := if backward && from.Some? then from.value else to;
    j, k := ReadsExactly(evs, lo, hi, LimitOf(limit));
    WantedBy(evs, backward, from, to, lo, hi, j, k);
    LimitIs(limit);
    PageOpens(evs, backward, from, to, limit);
    ChunkPage(evs, backward, from, j, k, LimitOf(limit), PageOf(evs, backward, from, to, limit));
  }

  /** The tokens of a page whose chunk is an end of the piece from j to k. */
  lemma ChunkPage(evs: seq<int>, backward: bool, from: Option<int>, j: nat, k: nat, n: nat, page: Page)
    requires j <= k <= |evs|
    requires var m := if k - j > n then n else k - j;
      var chunk := if backward then Reversed(evs[k - m..k]) else evs[j..j + m];
      !(backward && from == Some(0)) ==>
        && page.chunk == chunk
        && (chunk == [] ==> page.end == None && page.start == if from.Some? then from.value else 0)
        && (chunk != [] && backward ==>
              && page.end == Some(chunk[|chunk| - 1] - 1)
              && page.start == if chunk[0] > 0 then chunk[0] else 0)
        && (chunk != [] && !backward ==>
              && page.end == Some(if chunk[|chunk| - 1] > 0 then chunk[|chunk| - 1] else 0)
              && page.start == if chunk[0] == 0 && |chunk| > 1 then chunk[1] else chunk[0])
    ensures var m := if k - j > n then n else k - j;
      !(backward && from == Some(0)) ==>
        && page.chunk == (if backward then Reversed(evs[k - m..k]) else evs[j..j + m])
        && (m == 0 ==> page.end == None && page.start == if from.Some? then from.value else 0)
        && (m > 0 && backward ==>
              page.end == Some(evs[k - m] - 1) && page.start == if evs[k - 1] > 0 then evs[k - 1] else 0)
        && (m > 0 && !backward ==>
              && page.end == Some(if evs[j + m - 1] > 0 then evs[j + m - 1] else 0)
              && page.start == if evs[j] == 0 && m > 1 then evs[j + 1] else evs[j])
  {
    hide *;
    ChunkEnds(evs, j, k, if k - j > n then n else k - j);
  }

  lemma ChunkEnds(evs: seq<int>, j: nat, k: nat, m: nat)
    requires j + m <= k <= |evs|
    ensures |evs[j..j + m]| == |Reversed(evs[k - m..k])| == m
    ensures m > 0 ==> evs[j..j + m][0] == evs[j] && evs[j..j + m][m - 1] == evs[j + m - 1]
    ensures m > 1 ==> evs[j..j + m][1] == evs[j + 1]
    ensures m > 0 ==> Reversed(evs[k - m..k])[0] == evs[k - 1] && Reversed(evs[k - m..k])[m - 1] == evs[k - m]
  {
    ReversedAt(evs[k - m..k]);
    hide Reversed;
  }

  lemma LimitIs(limit: Option<int>)
    ensures LimitOf(limit) == if limit.Some? && 1 <= limit.value <= 999 then limit.value else 30
  {
  }

  lemma WantedBy(evs: seq<int>, backward: bool, from: Option<int>, to: int, lo: int, hi: int, j: nat, k: nat)
    requires forall i | 0 <= i < |evs| :: -MAX_STREAM < evs[i] < MAX_STREAM
    requires j <= k <= |evs| && forall i | 0 <= i < |evs| :: j <= i < k <==> Wanted(evs[i], lo, hi)
    requires lo == if backward || from.None? then 0 else from.value
    requires hi == if backward && from.Some? then from.value else to
    ensures forall i | 0 <= i < |evs| :: j <= i < k <==> PageWants(evs[i], backward, from, to)
  {
  }

  /** Backwards what stands at or before `from`, which is then all that counts; else what stands behind it and
      not behind `to`. */
  predicate PageWants(e: int, backward: bool, from: Option<int>, to: int) {
    if backward && from.Some? then e <= from.value || from.value == 0
    else (backward || from.None? || from.value <= 0 || e > from.value) && (to == 0 || e <= to)
  }

  /** The page that its chunk makes. */
  lemma PageOpens(evs: seq<int>, backward: bool, from: Option<int>, to: int, limit: Option<int>)
    ensures backward && from == Some(0) ==> PageOf(evs, backward, from, to, limit) == Page([], 0, None)
    ensures var lo := if backward && from.Some? then 0 else if from.Some? then from.value else 0;
      var hi := if backward && from.Some? then from.value else to;
      var page, n := PageOf(evs, backward, from, to, limit), LimitOf(limit);
      var chunk := if backward then EventsForRoomBackward(evs, lo, hi, n) else EventsForRoom(evs, lo, hi, n);
      !(backward && from == Some(0)) ==>
        && page.chunk == chunk
        && (chunk == [] ==> page.end == None && page.start == if from.Some? then from.value else 0)
        && (chunk != [] && backward ==>
              && page.end == Some(chunk[|chunk| - 1] - 1)
              && page.start == if chunk[0] > 0 then chunk[0] else 0)
        && (chunk != [] && !backward ==>
              && page.end == Some(if chunk[|chunk| - 1] > 0 then chunk[|chunk| - 1] else 0)
              && page.start == if chunk[0] == 0 && |chunk| > 1 then chunk[1] else chunk[0])
  {
    hide EventsForRoom, EventsForRoomBackward, LimitOf;
  }

  // ---- following the end tokens ----

  /** A room's timeline; backfilled events have positions that are not positive. */
  ghost predicate Timeline(evs: seq<int>) {
    Increasing(evs) && forall i | 0 <= i < |evs| :: -MAX_STREAM < evs[i] < MAX_STREAM
  }

  /** How many events lie at or before a position. */
  function AtMost(evs: seq<int>, pos: int): nat { |InRange(evs, -MAX_STREAM, pos)| }

  lemma AtMostIs(evs: seq<int>, pos: int, k: nat)
    requires Timeline(evs) && k <= |evs|
    requires (forall i | 0 <= i < k :: evs[i] <= pos) && (forall i | k <= i < |evs| :: evs[i] > pos)
    ensures AtMost(evs, pos) == k && InRange(evs, -MAX_STREAM, pos) == evs[..k]
  {
    var a, b := PieceOf(evs, -MAX_STREAM, pos);
    Divide(evs, pos, b, k);
    Divide(evs, -MAX_STREAM, a, 0);
  }

  lemma Divide(evs: seq<int>, pos: int, a: nat, b: nat)
    requires a <= |evs| && b <= |evs|
    requires forall i | 0 <= i < a :: evs[i] <= pos
    requires forall i | 0 <= i < b :: evs[i] <= pos
    requires a < |evs| ==> evs[a] > pos
    requires b < |evs| ==> evs[b] > pos
    ensures a == b
  {
  }

  /** Every position divides the timeline. */
  lemma AtMostDivides(evs: seq<int>, pos: int)
    requires Timeline(evs)
    ensures AtMost(evs, pos) <= |evs| && Divides(evs, pos, AtMost(evs, pos))
  {
    var k := FirstAbove(evs, pos);
    AtMostIs(evs, pos, k);
  }

  ghost predicate Divides(evs: seq<int>, pos: int, k: nat) {
    k <= |evs| && (forall i | 0 <= i < k :: evs[i] <= pos) && (forall i | k <= i < |evs| :: evs[i] > pos)
  }

  // ---- backwards ----

  /** A backward page: the next older events, newest first. */
  lemma BackwardChunk(evs: seq<int>, pos: int, k: nat, n: nat)
    requires Timeline(evs) && Divides(evs, pos, k) && n > 0 && pos != 0
    ensures EventsForRoomBackward(evs, 0, pos, n) == Reversed(evs[k - (if k < n then k else n)..k])
  {
    AtMostIs(evs, pos, k);
    FirstReversed(evs[..k], n);
    assert evs[..k][k - (if k < n then k else n)..] == evs[k - (if k < n then k else n)..k];
    hide InRange, Reversed;
  }

  lemma FirstReversed(s: seq<int>, n: nat)
    ensures (if |Reversed(s)| > n then Reversed(s)[..n] else Reversed(s))
      == Reversed(s[|s| - (if |s| < n then |s| else n)..])
  {
    hide *;
    var m := if |s| < n then |s| else n;
    ReversedPrefix(s, m);
    WholeOf(Reversed(s));
    assert |Reversed(s)| > n ==> m == n;
    assert |Reversed(s)| <= n ==> Reversed(s)[..m] == Reversed(s);
  }

  lemma WholeOf(s: seq<int>)
    ensures s[..|s|] == s
  {
  }

  lemma {:induction false} ReversedSplit(a: seq<int>, b: seq<int>)
    ensures Reversed(a + b) == Reversed(b) + Reversed(a)
    decreases |a|
  {
    if a == [] {
      assert a + b == b;
    } else {
      assert (a + b)[1..] == a[1..] + b;
      ReversedSplit(a[1..], b);
    }
  }

  /** from stands between the events below index k and those from k on. */
  ghost predicate Stands(evs: seq<int>, from: Option<int>, k: nat) {
    k <= |evs| && if from.None? then k == |evs| else Int64(from.value) && Divides(evs, from.value, k)
  }

  function Take(k: nat, limit: Option<int>): (m: nat)
    ensures m <= k && (m == 0 <==> k == 0)
  {
    if k < LimitOf(limit) then k else LimitOf(limit)
  }

  /** What a first request has within reach: what stands at or before `from`, or, without one, before `to`;
      nothing for the token 0. */
  function Within(evs: seq<int>, from: Option<int>, to: int): nat {
    if from == Some(0) then 0 else AtMost(evs, if from.Some? then from.value else Upper(to))
  }

  lemma ChunkBack(evs: seq<int>, from: Option<int>, to: int, limit: Option<int>)
    requires Timeline(evs)
    ensures var k := Within(evs, from, to);
      k <= |evs| && Chunk(evs, true, from, to, limit) == Reversed(evs[k - Take(k, limit)..k])
  {
    hide EventsForRoomBackward, AtMost, Divides;
    var pos := if from.Some? then from.value else Upper(to);
    AtMostDivides(evs, pos);
    var k := Within(evs, from, to);
    if from == Some(0) {
      assert evs[0..0] == [];
    } else {
      AtMostIsIndex(evs, pos);
      BackwardChunk(evs, pos, AtMost(evs, pos), LimitOf(limit));
      UpperSame(evs, to, LimitOf(limit));
    }
  }

  lemma AtMostIsIndex(evs: seq<int>, pos: int)
    requires Timeline(evs) && Divides(evs, pos, AtMost(evs, pos))
    ensures AtMost(evs, pos) <= |evs|
  {
  }

  lemma UpperSame(evs: seq<int>, to: int, n: nat)
    ensures EventsForRoomBackward(evs, 0, to, n) == EventsForRoomBackward(evs, 0, Upper(to), n) && Upper(to) != 0
  {
  }

  /** Where paging back from index k on ends: at the oldest event, or, before that, behind a page whose
      oldest event stands at position 1, as its `end` is the token 0. */
  function Reached(evs: seq<int>, k: nat, limit: Option<int>): (lo: nat)
    requires k <= |evs|
    ensures lo <= k
  {
    if k == 0 then 0 else
      var older := k - Take(k, limit);
      if evs[older] == 1 then older else Reached(evs, older, limit)
  }

  /** Nothing stays unreached exactly when no event at position 1, with older ones before it, is the last
      of a page; else the newest such event is where it ends. Pages have the limit, or 30 events where none
      between 1 and 999 is given. */
  lemma {:induction false} ReachedExactly(evs: seq<int>, k: nat, limit: Option<int>)
    requires k <= |evs|
    ensures var n := if limit.Some? && 1 <= limit.value <= 999 then limit.value else 30;
      var lo := Reached(evs, k, limit);
      && (lo == 0 <==> forall p | 0 < p < k && evs[p] == 1 :: !EndsPage(k, p, n))
      && (lo > 0 ==> evs[lo] == 1 && EndsPage(k, lo, n))
    decreases k
  {
    if k > 0 {
      var n, older := LimitOf(limit), k - Take(k, limit);
      assert older > 0 ==> older == k - n;
      if older > 0 { ReachedExactly(evs, older, limit); }
      PageEnds(k, n);
      hide EndsPage;
    }
  }

  /** Whole pages of n lie between p and k. */
  predicate EndsPage(k: nat, p: nat, n: nat)
    requires p <= k && n > 0
  {
    (k - p) % n == 0
  }

  /** The first page behind k ends n further back, or not at all. */
  lemma PageEnds(k: nat, n: nat)
    requires n > 0
    ensures forall p: nat | k - n < p < k :: !EndsPage(k, p, n)
    ensures k > n ==> EndsPage(k, k - n, n)
    ensures k > n ==> forall p: nat | p < k - n :: EndsPage(k, p, n) <==> EndsPage(k - n, p, n)
  {
    forall p: nat | k - n < p < k ensures !EndsPage(k, p, n) { Remainder(k - p, n, 0, k - p); }
    if k > n {
      Remainder(n, n, 1, 0);
      forall p: nat | p < k - n ensures EndsPage(k, p, n) <==> EndsPage(k - n, p, n) {
        Remainder(k - p, n, (k - n - p) / n + 1, (k - n - p) % n);
      }
    }
  }

  lemma Remainder(a: nat, n: nat, q: nat, r: nat)
    requires 0 <= r < n && a == q * n + r
    ensures a % n == r
  {
    OneQuotient(n, a / n, a % n, q, r);
  }

  lemma OneQuotient(n: nat, p: nat, s: nat, q: nat, r: nat)
    requires s < n && r < n && p * n + s == q * n + r
    ensures s == r
  {
    if p < q {
      Farther(n, p, q);
    } else if q < p {
      Farther(n, q, p);
    }
  }

  lemma Farther(n: nat, p: nat, q: nat)
    requires p < q
    ensures q * n >= p * n + n
  {
    assert q * n == p * n + (q - p) * n;
    assert (q - p) * n == n + (q - p - 1) * n;
  }

  lemma PageStep(evs: seq<int>, k: nat, m: nat, reachable: nat)
    requires m <= k <= reachable <= |evs|
    ensures Reversed(evs[k..reachable]) + Reversed(evs[k - m..k]) == Reversed(evs[k - m..reachable])
  {
    ReversedSplit(evs[k - m..k], evs[k..reachable]);
    assert evs[k - m..k] + evs[k..reachable] == evs[k - m..reachable];
  }

  /** The next request stands right before the page, unless its token is 0. */
  lemma NextBack(evs: seq<int>, k: nat, m: nat, to: int)
    requires Timeline(evs) && 0 < m <= k <= |evs|
    ensures var chunk := Reversed(evs[k - m..k]);
      && chunk != [] && chunk[|chunk| - 1] == evs[k - m] && Int64(evs[k - m] - 1) && evs[k - m] - 1 > MIN_INT64
      && Within(evs, Some(evs[k - m] - 1), to) == if evs[k - m] == 1 then 0 else k - m
  {
    ReversedAt(evs[k - m..k]);
    hide Reversed;
    AtMostIs(evs, evs[k - m] - 1, k - m);
  }

  lemma NothingReversed(evs: seq<int>, k: nat)
    requires k <= |evs|
    ensures evs[k..k] == [] && Reversed([]) == []
  {
  }

  /** One page: where the paging stands, and what `end` is. */
  lemma BackPage(evs: seq<int>, from: Option<int>, to: int, limit: Option<int>)
    requires Timeline(evs)
    ensures var page, k := PageOf(evs, true, from, to, limit), Within(evs, from, to);
      && k <= |evs| && page.chunk == Reversed(evs[k - Take(k, limit)..k])
      && (page.end.None? <==> k == 0)
      && (k > 0 ==> page.end == Some(evs[k - Take(k, limit)] - 1))
  {
    ChunkBack(evs, from, to, limit);
    hide Chunk, Within, Reversed, EventsForRoomBackward, EventsForRoom;
    var k := Within(evs, from, to);
    if k > 0 { NextBack(evs, k, Take(k, limit), to); } else { NothingReversed(evs, k); }
  }

  /** A client pages back from a position, or from the end of the timeline up to `to`, and takes each page's
      `end` token for the next `from`, as text; `to` is sent each time. It always stops, and gets every
      event within reach exactly once, newest first, down to where ReachedExactly says. */
  method PageBack(evs: seq<int>, start: Option<int>, to: int, limit: Option<int>) returns (all: seq<int>)
    requires Timeline(evs) && (start.Some? ==> Int64(start.value))
    ensures var k := Within(evs, start, to);
      && k <= |evs| && all == Reversed(evs[Reached(evs, k, limit)..k])
      && forall i | 0 <= i < |evs| :: i < k <==> if start.Some? then start.value != 0 && evs[i] <= start.value
           else to == 0 || evs[i] <= to
  {
    hide *;
    var from := start;
    all := [];
    IncreasingTimeline(evs);
    WithinAll(evs, start, to);
    WithinIs(evs, start, to);
    ghost var reachable: nat := Within(evs, start, to);
    ghost var k: nat := reachable;
    ghost var lo: nat := Reached(evs, reachable, limit);
    NothingReversed(evs, k);
    while true
      invariant k <= reachable <= |evs| && all == Reversed(evs[k..reachable])
      invariant Within(evs, from, to) == k || (Within(evs, from, to) == 0 && lo == k)
      invariant Within(evs, from, to) == k ==> lo == Reached(evs, k, limit)
      decreases Within(evs, from, to)
    {
      var page := RoomMessages(evs, true, from, to, limit);
      BackPage(evs, from, to, limit);
      ReachedOpens(evs, k, limit);
      if page.end.None? {
        return;
      }
      ghost var m: nat := Take(k, limit);
      NextBack(evs, k, m, to);
      PageStep(evs, k, m, reachable);
      all := all + page.chunk;
      k := k - m;
      var next := NextPosition(page.end.value);
      from := Some(next);
    }
  }

  lemma IncreasingTimeline(evs: seq<int>)
    requires Timeline(evs)
    ensures Increasing(evs)
  {
  }

  lemma WithinAll(evs: seq<int>, from: Option<int>, to: int)
    requires Timeline(evs)
    ensures Within(evs, from, to) <= |evs|
  {
    AtMostDivides(evs, if from.Some? then from.value else Upper(to));
  }

  lemma WithinIs(evs: seq<int>, from: Option<int>, to: int)
    requires Timeline(evs)
    ensures forall i | 0 <= i < |evs| :: i < Within(evs, from, to) <==>
      if from.Some? then from.value != 0 && evs[i] <= from.value else to == 0 || evs[i] <= to
  {
    AtMostDivides(evs, if from.Some? then from.value else Upper(to));
    hide AtMost;
  }

  lemma ReachedOpens(evs: seq<int>, k: nat, limit: Option<int>)
    requires k <= |evs|
    ensures Reached(evs, k, limit) == if k == 0 then 0 else
      var older := k - Take(k, limit); if evs[older] == 1 then older else Reached(evs, older, limit)
  {
  }

  /** The next request's token, through its text. */
  method NextPosition(end: int) returns (from: int)
    requires Int64(end) && end > MIN_INT64
    ensures from == end
  {
    var text := FormatIntToken(end);
    TokenRoundTrip(end);
    var value := ParseIntToken(text);
    from := value.value;
  }

  /** Where a position stands; it exists for every position. */
  lemma StandsSomewhere(evs: seq<int>, pos: int) returns (k: nat)
    requires Timeline(evs) && Int64(pos)
    ensures Stands(evs, Some(pos), k) && AtMost(evs, pos) == k
  {
    AtMostDivides(evs, pos);
    k := AtMost(evs, pos);
  }

  // ---- forwards ----

  /** The first event behind a position; from a position that is not positive, the first of all. */
  function Behind(evs: seq<int>, from: int): nat { if from <= 0 then 0 else AtMost(evs, from) }

  function Step(j: nat, k: nat, limit: Option<int>): (m: nat)
    ensures (m == 0 <==> k <= j) && (j <= k ==> j + m <= k)
  {
    if k <= j then 0 else if k - j < LimitOf(limit) then k - j else LimitOf(limit)
  }

  lemma Between(evs: seq<int>, from: int, to: int, j: nat, k: nat)
    requires Increasing(evs) && j <= |evs| && k <= |evs|
    requires (forall i | 0 <= i < j :: evs[i] <= from) || j == 0
    requires forall i | j <= i < |evs| :: evs[i] > from
    requires (forall i | 0 <= i < k :: evs[i] <= to) && (forall i | k <= i < |evs| :: evs[i] > to)
    ensures InRange(evs, from, to) == if k <= j then [] else evs[j..k]
  {
    var a, b := PieceOf(evs, from, to);
    Divide(evs, to, b, k);
    var x, y := if a < |evs| then evs[a] else 0, if j < |evs| then evs[j] else 0;
    if j < k { assert a == j; } else { assert a == b; }
  }

  /** What is behind a position and not behind `to`. */
  lemma Stretch(evs: seq<int>, from: int, to: int)
    requires Timeline(evs)
    ensures var j, k := Behind(evs, from), AtMost(evs, Upper(to));
      && j <= |evs| && k <= |evs| && Divides(evs, Upper(to), k)
      && (forall i | 0 <= i < j :: evs[i] <= from) && (forall i | j <= i < |evs| :: evs[i] > Lower(from))
      && InRange(evs, Lower(from), Upper(to)) == if k <= j then [] else evs[j..k]
  {
    AtMostDivides(evs, from);
    AtMostDivides(evs, Upper(to));
    hide InRange, AtMost;
    Between(evs, Lower(from), Upper(to), Behind(evs, from), AtMost(evs, Upper(to)));
  }

  /** One page forwards. */
  lemma ForwardPage(evs: seq<int>, from: int, to: int, limit: Option<int>)
    requires Timeline(evs)
    ensures var page := PageOf(evs, false, Some(from), to, limit);
      var j, k := Behind(evs, from), AtMost(evs, Upper(to));
      var m := Step(j, k, limit);
      && j <= |evs| && k <= |evs| && j + m <= |evs| && page.chunk == evs[j..j + m]
      && page.end == if m == 0 then None else Some(NotBelowZero(evs[j + m - 1]))
  {
    hide InRange, AtMost, Behind, Divides, EventsForRoom, EventsForRoomBackward, LimitOf;
    Stretch(evs, from, to);
    var j, k := Behind(evs, from), AtMost(evs, Upper(to));
    ForwardChunk(evs, from, to, j, k, LimitOf(limit));
  }

  lemma ForwardChunk(evs: seq<int>, from: int, to: int, j: nat, k: nat, n: nat)
    requires j <= |evs| && k <= |evs| && n > 0
    requires InRange(evs, Lower(from), Upper(to)) == if k <= j then [] else evs[j..k]
    ensures EventsForRoom(evs, from, to, n) == evs[j..j + (if k <= j then 0 else if k - j < n then k - j else n)]
  {
    hide *;
    ReadOpens(evs, from, to, n, if k <= j then [] else evs[j..k]);
    if j < k { FrontOf(evs, j, k, n); } else { assert evs[j..j] == []; }
  }

  /** The next request stands right behind the page, when that ends at a positive position; else it starts
      over. */
  lemma NextForward(evs: seq<int>, j: nat, m: nat)
    requires Timeline(evs) && 0 < m && j + m <= |evs|
    ensures var end := NotBelowZero(evs[j + m - 1]);
      && Int64(end) && end > MIN_INT64
      && Behind(evs, end) == if evs[j + m - 1] > 0 then j + m else 0
  {
    if evs[j + m - 1] > 0 { AtMostIs(evs, evs[j + m - 1], j + m); }
  }

  /** The first page is not empty, and none of its events has a positive position. */
  predicate StartsOver(evs: seq<int>, start: int, to: int, limit: Option<int>) {
    var chunk := Chunk(evs, false, Some(start), to, limit);
    chunk != [] && chunk[|chunk| - 1] <= 0
  }

  lemma StartsOverIs(evs: seq<int>, start: int, to: int, limit: Option<int>)
    requires Timeline(evs)
    ensures var j, k := Behind(evs, start), AtMost(evs, Upper(to));
      var m := Step(j, k, limit);
      && j <= |evs| && k <= |evs| && j + m <= |evs|
      && (StartsOver(evs, start, to, limit) <==> m > 0 && evs[j + m - 1] <= 0)
  {
    ForwardPage(evs, start, to, limit);
    hide EventsForRoom, EventsForRoomBackward, Behind, AtMost;
  }

  lemma Joined(evs: seq<int>, a: nat, b: nat, c: nat)
    requires a <= b <= c <= |evs|
    ensures evs[a..b] + evs[b..c] == evs[a..c] && evs[a..a] == []
  {
  }

  /** The loop below stands at index j, and has the events from `first` on. */
  ghost predicate Ahead(evs: seq<int>, from: int, to: int, limit: Option<int>, first: nat, j: nat, all: seq<int>) {
    && first <= j <= |evs| && Behind(evs, from) == j && AtMost(evs, Upper(to)) <= |evs|
    && (j > first ==> j <= AtMost(evs, Upper(to)) && evs[j - 1] > 0) && all == evs[first..j]
    && (j == first ==> var m := Step(j, AtMost(evs, Upper(to)), limit);
          m > 0 && j + m <= |evs| ==> evs[j + m - 1] > 0)
  }

  /** Forwards, unless the first page starts over: every event behind the start, up to `to`, exactly once,
      oldest first. */
  method PageForward(evs: seq<int>, start: int, to: int, limit: Option<int>) returns (all: seq<int>)
    requires Timeline(evs) && !StartsOver(evs, start, to, limit)
    ensures Increasing(all)
    ensures forall e :: e in all <==> e in evs && (start <= 0 || e > start) && (to == 0 || e <= to)
  {
    hide *;
    IncreasingTimeline(evs);
    StretchIs(evs, start, to);
    AheadFirst(evs, start, to, limit);
    ghost var first: nat := Behind(evs, start);
    ghost var j: nat := first;
    all := [];
    var from := start;
    while true
      invariant first == Behind(evs, start) && j <= |evs| && Ahead(evs, from, to, limit, first, j, all)
      decreases |evs| - j
    {
      var page := RoomMessages(evs, false, Some(from), to, limit);
      AheadTurn(evs, from, to, limit, first, j, all);
      if page.end.None? {
        AheadDone(evs, start, to);
        return;
      }
      all := all + page.chunk;
      j := j + |page.chunk|;
      from := NextPosition(page.end.value);
    }
  }

  lemma StretchIs(evs: seq<int>, start: int, to: int)
    requires Timeline(evs)
    ensures var all := InRange(evs, Lower(start), Upper(to));
      && Increasing(all)
      && forall e :: e in all <==> e in evs && (start <= 0 || e > start) && (to == 0 || e <= to)
  {
    var j, k := PieceOf(evs, Lower(start), Upper(to));
    hide InRange;
    var all := InRange(evs, Lower(start), Upper(to));
    forall e ensures e in all <==> e in evs && (start <= 0 || e > start) && (to == 0 || e <= to) {
      if e in all {
        var i :| 0 <= i < |all| && all[i] == e;
        assert evs[j + i] == e;
      }
      if e in evs {
        var i :| 0 <= i < |evs| && evs[i] == e;
        if j <= i < k { assert all[i - j] == e; }
      }
    }
  }

  lemma AheadFirst(evs: seq<int>, start: int, to: int, limit: Option<int>)
    requires Timeline(evs) && !StartsOver(evs, start, to, limit)
    ensures var first := Behind(evs, start); first <= |evs| && Ahead(evs, start, to, limit, first, first, [])
  {
    StartsOverIs(evs, start, to, limit);
    hide StartsOver, Behind, AtMost;
  }

  lemma AheadDone(evs: seq<int>, start: int, to: int)
    requires Timeline(evs)
    ensures var first, k := Behind(evs, start), AtMost(evs, Upper(to));
      && first <= |evs| && k <= |evs|
      && InRange(evs, Lower(start), Upper(to)) == if k <= first then evs[first..first] else evs[first..k]
  {
    Stretch(evs, start, to);
    hide Behind, AtMost, InRange;
  }

  /** One turn of the loop. */
  lemma AheadTurn(evs: seq<int>, from: int, to: int, limit: Option<int>, first: nat, j: nat, all: seq<int>)
    requires Timeline(evs) && Ahead(evs, from, to, limit, first, j, all)
    ensures var page := PageOf(evs, false, Some(from), to, limit);
      var k := AtMost(evs, Upper(to));
      if page.end.None? then
        first <= |evs| && k <= |evs| && all == if k <= first then evs[first..first] else evs[first..k]
      else
        var next := j + |page.chunk|;
        && j < next <= |evs| && Ahead(evs, page.end.value, to, limit, first, next, all + page.chunk)
        && Int64(page.end.value) && page.end.value > MIN_INT64
  {
    hide Timeline, PageOf, Behind, AtMost, Int64;
    ForwardPage(evs, from, to, limit);
    var m := Step(j, AtMost(evs, Upper(to)), limit);
    hide Upper;
    if m > 0 {
      NextForward(evs, j, m);
      Joined(evs, first, j, j + m);
      LaterIsPositive(evs, j, m);
      hide NotBelowZero, Step;
    }
  }

  lemma LaterIsPositive(evs: seq<int>, j: nat, m: nat)
    requires Timeline(evs) && 0 < m && j + m <= |evs|
    ensures j > 0 && evs[j - 1] > 0 ==> evs[j + m - 1] > 0
  {
  }

  /** The n-th page of a client that follows the `end` tokens. */
  function NthPage(evs: seq<int>, start: int, to: int, limit: Option<int>, n: nat): Page {
    if n == 0 then PageOf(evs, false, Some(start), to, limit) else
      var before := NthPage(evs, start, to, limit, n - 1);
      if before.end.None? then before else PageOf(evs, false, before.end, to, limit)
  }

  /** Otherwise it is served its first page for ever. */
  lemma {:induction false} RepeatsForever(evs: seq<int>, start: int, to: int, limit: Option<int>, n: nat)
    requires Timeline(evs) && StartsOver(evs, start, to, limit)
    ensures var page := NthPage(evs, start, to, limit, n);
      page.end == Some(0) && page.chunk == PageOf(evs, false, Some(start), to, limit).chunk != []
  {
    hide PageOf, Chunk, AtMost, Timeline;
    StartsOverIs(evs, start, to, limit);
    ForwardPage(evs, start, to, limit);
    hide StartsOver;
    ghost var j, k := Behind(evs, start), AtMost(evs, Upper(to));
    BehindPositive(evs, start, Step(j, k, limit));
    if n > 0 {
      RepeatsForever(evs, start, to, limit, n - 1);
      ForwardPage(evs, 0, to, limit);
    }
  }

  lemma BehindPositive(evs: seq<int>, from: int, m: nat)
    requires Timeline(evs) && 0 < m && Behind(evs, from) + m <= |evs| && evs[Behind(evs, from) + m - 1] <= 0
    ensures Behind(evs, from) == 0
  {
    AtMostDivides(evs, from);
  }

  /** From a position that stands at index j > 0 behind a positive event the pages come to an end. */
  lemma {:induction false} ComesToAnEnd(evs: seq<int>, start: int, to: int, limit: Option<int>, n: nat, from: int)
      returns (last: nat)
    requires Timeline(evs) && PageOf(evs, false, Some(from), to, limit) == NthPage(evs, start, to, limit, n)
    requires !StartsOver(evs, from, to, limit)
    ensures NthPage(evs, start, to, limit, last).end.None?
    decreases |evs| - Behind(evs, from)
  {
    hide *;
    ForwardPage(evs, from, to, limit);
    StartsOverIs(evs, from, to, limit);
    var j, k := Behind(evs, from), AtMost(evs, Upper(to));
    var m := Step(j, k, limit);
    if m == 0 {
      last := n;
    } else {
      var end := NotBelowZero(evs[j + m - 1]);
      NextForward(evs, j, m);
      NthOpens(evs, start, to, limit, n);
      PositiveGoesOn(evs, j + m, end, to, limit);
      last := ComesToAnEnd(evs, start, to, limit, n + 1, end);
    }
  }

  lemma NthOpens(evs: seq<int>, start: int, to: int, limit: Option<int>, n: nat)
    requires NthPage(evs, start, to, limit, n).end.Some?
    ensures NthPage(evs, start, to, limit, n + 1)
      == PageOf(evs, false, NthPage(evs, start, to, limit, n).end, to, limit)
  {
    hide PageOf;
  }

  lemma PositiveGoesOn(evs: seq<int>, j: nat, from: int, to: int, limit: Option<int>)
    requires Timeline(evs) && 0 < j <= |evs| && evs[j - 1] > 0 && Behind(evs, from) == j
    ensures !StartsOver(evs, from, to, limit)
  {
    StartsOverIs(evs, from, to, limit);
    hide StartsOver, Behind;
  }

  /** Paging forwards comes to an end exactly when the first page is empty or has an event at a positive
      position. */
  lemma ForwardEndsExactly(evs: seq<int>, start: int, to: int, limit: Option<int>)
    requires Timeline(evs)
    ensures (exists n: nat :: NthPage(evs, start, to, limit, n).end.None?) <==> !StartsOver(evs, start, to, limit)
  {
    hide *;
    if StartsOver(evs, start, to, limit) {
      forall n: nat ensures NthPage(evs, start, to, limit, n).end.Some? {
        RepeatsForever(evs, start, to, limit, n);
      }
    } else {
      NthFirst(evs, start, to, limit);
      var n := ComesToAnEnd(evs, start, to, limit, 0, start);
    }
  }

  lemma NthFirst(evs: seq<int>, start: int, to: int, limit: Option<int>)
    ensures NthPage(evs, start, to, limit, 0) == PageOf(evs, false, Some(start), to, limit)
  {
    hide PageOf;
  }
}
