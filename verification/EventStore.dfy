/** A room's timeline as EventsForRoom reads it (internal/storage/rooms.go): stream orderings in
    ascending order, an exclusive lower and an inclusive upper bound. */
module EventStore {

  const MAX_STREAM := 0x4000_0000_0000_0000

  function InRange(evs: seq<int>, from: int, to: int): seq<int> {
    if evs == [] then [] else
      InRange(evs[..|evs| - 1], from, to) + (if from < evs[|evs| - 1] <= to then [evs[|evs| - 1]] else [])
  }

  function Upper(to: int): int { if to == 0 then MAX_STREAM - 1 else to }
  function Lower(from: int): int { if from <= 0 then -MAX_STREAM else from }
  function Count(limit: int): nat { if limit <= 0 then 100 else limit }

  /** Forwards: after `from`, up to and including `to`, the first `limit` of them. */
  function EventsForRoom(evs: seq<int>, from: int, to: int, limit: int): seq<int> {
    var found := InRange(evs, Lower(from), Upper(to));
    if |found| > Count(limit) then found[..Count(limit)] else found
  }

  function Reversed(s: seq<int>): seq<int> {
    if s == [] then [] else Reversed(s[1..]) + [s[0]]
  }

  /** Backwards: the same range from its newest end. */
  function EventsForRoomBackward(evs: seq<int>, from: int, to: int, limit: int): seq<int> {
    var found := Reversed(InRange(evs, Lower(from), Upper(to)));
    if |found| > Count(limit) then found[..Count(limit)] else found
  }

  ghost predicate Increasing(evs: seq<int>) {
    forall i, j | 0 <= i < j < |evs| :: evs[i] < evs[j]
  }

  lemma {:induction false} EmptyRange(evs: seq<int>, from: int, to: int)
    requires forall i | 0 <= i < |evs| :: evs[i] <= from
    ensures InRange(evs, from, to) == []
    decreases |evs|
  {
    if evs != [] { EmptyRange(evs[..|evs| - 1], from, to); }
  }

  lemma Extended(evs: seq<int>, n: nat, k: nat)
    requires |evs| == n + 1 && k <= n
    ensures evs[..n][k..] + [evs[n]] == evs[k..]
  {
  }

  lemma {:induction false} SplitAt(evs: seq<int>, from: int, to: int) returns (k: nat)
    requires Increasing(evs) && forall i | 0 <= i < |evs| :: evs[i] <= to
    ensures k <= |evs| && InRange(evs, from, to) == evs[k..]
    ensures forall i | 0 <= i < k :: evs[i] <= from
    ensures forall i | k <= i < |evs| :: evs[i] > from
    decreases |evs|
  {
    if evs == [] {
      k := 0;
    } else {
      var n := |evs| - 1;
      var init, last := evs[..n], evs[n];
      if last <= from {
        k := |evs|;
        assert evs[k..] == [];
        EmptyRange(evs, from, to);
      } else {
        assert Increasing(init);
        k := SplitAt(init, from, to);
        assert InRange(evs, from, to) == InRange(init, from, to) + [last];
        hide InRange, Increasing;
        Extended(evs, n, k);
        assert forall i | 0 <= i < n :: evs[i] == init[i];
      }
    }
  }

  lemma {:induction false} Crowded(evs: seq<int>, from: int, to: int)
    requires Increasing(evs) && from <= to && forall i | 0 <= i < |evs| :: from < evs[i] <= to
    ensures |evs| <= to - from
    decreases |evs|
  {
    if evs != [] {
      var last := evs[|evs| - 1];
      Crowded(evs[..|evs| - 1], from, last - 1);
    }
  }

  lemma {:induction false} FirstAbove(evs: seq<int>, to: int) returns (m: nat)
    requires Increasing(evs)
    ensures m <= |evs| && (forall i | 0 <= i < m :: evs[i] <= to) && (forall i | m <= i < |evs| :: evs[i] > to)
    decreases |evs|
  {
    if evs == [] || evs[|evs| - 1] <= to {
      m := |evs|;
    } else {
      m := FirstAbove(evs[..|evs| - 1], to);
    }
  }

  lemma {:induction false} DropAbove(evs: seq<int>, m: nat, from: int, to: int)
    requires m <= |evs| && forall i | m <= i < |evs| :: evs[i] > to
    ensures InRange(evs, from, to) == InRange(evs[..m], from, to)
    decreases |evs|
  {
    if m == |evs| {
      assert evs[..m] == evs;
    } else {
      var init := evs[..|evs| - 1];
      assert init[..m] == evs[..m];
      DropAbove(init, m, from, to);
    }
  }

  /** A range is one piece of the timeline: everything before it is at most `from`, everything behind
      it above `to`. */
  lemma PieceOf(evs: seq<int>, from: int, to: int) returns (j: nat, k: nat)
    requires Increasing(evs)
    ensures j <= k <= |evs| && InRange(evs, from, to) == evs[j..k]
    ensures forall i | 0 <= i < j :: evs[i] <= from
    ensures forall i | j <= i < k :: from < evs[i]
    ensures forall i | 0 <= i < k :: evs[i] <= to
    ensures forall i | k <= i < |evs| :: evs[i] > to
  {
    k := FirstAbove(evs, to);
    DropAbove(evs, k, from, to);
    var upTo := evs[..k];
    j := SplitAt(upTo, from, to);
    assert upTo[j..] == evs[j..k];
    assert forall i | 0 <= i < k :: upTo[i] == evs[i];
  }

  lemma {:induction false} ReversedAt(s: seq<int>)
    ensures |Reversed(s)| == |s| && forall i | 0 <= i < |s| :: Reversed(s)[i] == s[|s| - 1 - i]
    decreases |s|
  {
    if s != [] { ReversedAt(s[1..]); }
  }

  /** What a read is after: behind `from`, behind -2^62 when that is not positive; and up to `to`, up to
      2^62 - 1 when that is 0. */
  predicate Wanted(e: int, from: int, to: int) {
    && e > (if from > 0 then from else -4611686018427387904)
    && e <= (if to != 0 then to else 4611686018427387903)
  }

  lemma {:induction false} ReversedPrefix(s: seq<int>, n: nat)
    requires n <= |s|
    ensures |Reversed(s)| == |s| && Reversed(s)[..n] == Reversed(s[|s| - n..])
  {
    hide Reversed;
    ReversedAt(s);
    ReversedAt(s[|s| - n..]);
  }

  /** A read returns, of the one piece of the timeline that is wanted, the first `limit` events in order, or
      the last ones, newest first; 100 where no limit is given. */
  lemma ReadsExactly(evs: seq<int>, from: int, to: int, limit: int) returns (j: nat, k: nat)
    requires Increasing(evs)
    ensures j <= k <= |evs| && forall i | 0 <= i < |evs| :: j <= i < k <==> Wanted(evs[i], from, to)
    ensures var n := if limit <= 0 then 100 else limit;
      var m := if k - j > n then n else k - j;
      && EventsForRoom(evs, from, to, limit) == evs[j..j + m]
      && EventsForRoomBackward(evs, from, to, limit) == Reversed(evs[k - m..k])
  {
    hide *;
    j, k := PieceOf(evs, Lower(from), Upper(to));
    WantedIs(evs, from, to, j, k);
    var n := if limit <= 0 then 100 else limit;
    ReadOpens(evs, from, to, limit, evs[j..k]);
    FrontOf(evs, j, k, n);
    BackOf(evs, j, k, n);
  }

  lemma WantedIs(evs: seq<int>, from: int, to: int, j: nat, k: nat)
    requires j <= k <= |evs|
    requires forall i | 0 <= i < j :: evs[i] <= Lower(from)
    requires forall i | j <= i < k :: Lower(from) < evs[i]
    requires forall i | 0 <= i < k :: evs[i] <= Upper(to)
    requires forall i | k <= i < |evs| :: evs[i] > Upper(to)
    ensures forall i | 0 <= i < |evs| :: j <= i < k <==> Wanted(evs[i], from, to)
  {
  }

  lemma ReadOpens(evs: seq<int>, from: int, to: int, limit: int, found: seq<int>)
    requires InRange(evs, Lower(from), Upper(to)) == found
    ensures var n := if limit <= 0 then 100 else limit;
      && EventsForRoom(evs, from, to, limit) == (if |found| > n then found[..n] else found)
      && EventsForRoomBackward(evs, from, to, limit)
        == (if |Reversed(found)| > n then Reversed(found)[..n] else Reversed(found))
  {
    hide InRange, Reversed, Lower, Upper;
  }

  lemma FrontOf(evs: seq<int>, j: nat, k: nat, n: nat)
    requires j <= k <= |evs|
    ensures (if |evs[j..k]| > n then evs[j..k][..n] else evs[j..k]) == evs[j..j + if k - j > n then n else k - j]
  {
  }

  lemma BackOf(evs: seq<int>, j: nat, k: nat, n: nat)
    requires j <= k <= |evs|
    ensures var r := Reversed(evs[j..k]);
      (if |r| > n then r[..n] else r) == Reversed(evs[k - (if k - j > n then n else k - j)..k])
  {
    hide Reversed;
    var found := evs[j..k];
    var m := if k - j > n then n else k - j;
    ReversedPrefix(found, m);
    assert found[|found| - m..] == evs[k - m..k];
    assert Reversed(found)[..|found|] == Reversed(found);
  }
}
