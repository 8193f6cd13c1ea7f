/** Strict total orders, and sorting as the unique ascending listing of a finite set.
    The repository sorts with Go's sort.Slice under comparators that never tie on
    distinct elements, so the sorted slice is a function of the set of its elements. */
module Sorting {

  ghost predicate StrictTotal<T(!new)>(less: (T, T) -> bool, s: set<T>) {
    && (forall a | a in s :: !less(a, a))
    && (forall a, b | a in s && b in s && a != b :: less(a, b) || less(b, a))
    && (forall a, b, c | a in s && b in s && c in s && less(a, b) && less(b, c) :: less(a, c))
  }

  ghost predicate IsLeast<T(!new)>(less: (T, T) -> bool, s: set<T>, m: T) {
    m in s && forall x | x in s && x != m :: less(m, x)
  }

  lemma {:induction false} LeastExists<T(!new)>(less: (T, T) -> bool, s: set<T>)
    requires s != {} && StrictTotal(less, s)
    ensures exists m :: IsLeast(less, s, m)
    decreases |s|
  {
    var x :| x in s;
    var rest := s - {x};
    if rest == {} {
      assert s == {x};
      assert IsLeast(less, s, x);
    } else {
      LeastExists(less, rest);
      var m :| IsLeast(less, rest, m);
      assert IsLeast(less, s, if less(x, m) then x else m);
    }
  }

  ghost function Least<T(!new)>(less: (T, T) -> bool, s: set<T>): (m: T)
    requires s != {} && StrictTotal(less, s)
    ensures IsLeast(less, s, m)
  {
    LeastExists(less, s);
    var m :| IsLeast(less, s, m);
    m
  }

  /** The ascending listing of s. */
  ghost function SortSet<T(!new)>(less: (T, T) -> bool, s: set<T>): (r: seq<T>)
    requires StrictTotal(less, s)
    ensures |r| == |s|
    ensures forall x :: x in r <==> x in s
    decreases |s|
  {
    if s == {} then [] else
      var m := Least(less, s);
      [m] + SortSet(less, s - {m})
  }

  ghost predicate Ascending<T(!new)>(less: (T, T) -> bool, r: seq<T>) {
    forall i, j | 0 <= i < j < |r| :: less(r[i], r[j])
  }

  lemma Regroup<T>(a: seq<T>, x: T, b: seq<T>)
    ensures a + ([x] + b) == (a + [x]) + b
  {
  }

  ghost function Elems<T>(xs: seq<T>): set<T> {
    set x | x in xs
  }

  lemma {:induction false} SortSetAscending<T(!new)>(less: (T, T) -> bool, s: set<T>)
    requires StrictTotal(less, s)
    ensures Ascending(less, SortSet(less, s))
    decreases |s|
  {
    if s != {} {
      var m := Least(less, s);
      SortSetAscending(less, s - {m});
      var rest := SortSet(less, s - {m});
      forall i, j | 0 <= i < j < |rest| + 1
        ensures less(([m] + rest)[i], ([m] + rest)[j])
      {
        assert rest[j - 1] in s - {m};
      }
    }
  }

  /** An ascending sequence is the listing of its own elements: sorting has one outcome. */
  lemma {:induction false} AscendingIsSortSet<T(!new)>(less: (T, T) -> bool, r: seq<T>)
    requires StrictTotal(less, Elems(r)) && Ascending(less, r)
    ensures r == SortSet(less, Elems(r))
    decreases |r|
  {
    if r != [] {
      var s := Elems(r);
      assert r[0] in s;
      var m := Least(less, s);
      var k :| 0 <= k < |r| && r[k] == m;
      assert r[0] == m;
      assert Elems(r[1..]) == s - {m} by {
        forall x | x in r[1..] ensures x in s && x != m {
          var j :| 0 <= j < |r| - 1 && r[1..][j] == x;
          assert r[j + 1] == x && less(r[0], r[j + 1]);
        }
        forall x | x in s - {m} ensures x in r[1..] {
          var j :| 0 <= j < |r| && r[j] == x;
          assert r[1..][j - 1] == x;
        }
      }
      AscendingIsSortSet(less, r[1..]);
    }
  }

  /** Ranging over the elements of a set, in no particular order. */
  method ListOf<T>(ids: set<T>) returns (list: seq<T>)
    ensures Elems(list) == ids
    ensures forall i, j | 0 <= i < j < |list| :: list[i] != list[j]
  {
    list := [];
    var rest := ids;
    while rest != {}
      invariant Elems(list) == ids - rest && rest <= ids
      invariant forall i, j | 0 <= i < j < |list| :: list[i] != list[j]
    {
      var id :| id in rest;
      assert id !in Elems(list) && Elems(list + [id]) == Elems(list) + {id};
      list, rest := list + [id], rest - {id};
    }
  }

  /** x put where it belongs in an ascending sequence. */
  lemma Insertion<T(!new)>(less: (T, T) -> bool, ys: seq<T>, k: nat, x: T)
    requires StrictTotal(less, Elems(ys) + {x}) && x !in ys && Ascending(less, ys) && k <= |ys|
    requires forall j | 0 <= j < k :: less(ys[j], x)
    requires k < |ys| ==> !less(ys[k], x)
    ensures var zs := ys[..k] + [x] + ys[k..]; Ascending(less, zs) && Elems(zs) == Elems(ys) + {x}
  {
    var zs := ys[..k] + [x] + ys[k..];
    forall j | k <= j < |ys| ensures less(x, ys[j]) {
      assert ys[j] in Elems(ys) && ys[k] in Elems(ys);
      if j > k { assert less(ys[k], ys[j]); }
    }
    forall y | y in ys ensures y in zs {
      var j :| 0 <= j < |ys| && ys[j] == y;
      assert zs[if j < k then j else j + 1] == y;
    }
    assert zs[k] == x;
  }

  /** sort.Slice / sort.SliceStable under a comparator that is total on the elements. */
  method Sort<T(!new)>(less: (T, T) -> bool, xs: seq<T>) returns (ys: seq<T>)
    requires StrictTotal(less, Elems(xs))
    requires forall i, j | 0 <= i < j < |xs| :: xs[i] != xs[j]
    ensures ys == SortSet(less, Elems(xs))
  {
    ys := [];
    for i := 0 to |xs|
      invariant Elems(ys) == Elems(xs[..i])
      invariant Ascending(less, ys)
    {
      var x := xs[i];
      assert x !in Elems(xs[..i]) && x !in Elems(ys) && Elems(ys) + {x} <= Elems(xs);
      var k := 0;
      while k < |ys| && less(ys[k], x)
        invariant 0 <= k <= |ys|
        invariant forall j | 0 <= j < k :: less(ys[j], x)
      {
        k := k + 1;
      }
      Insertion(less, ys, k, x);
      ys := ys[..k] + [x] + ys[k..];
      assert Elems(xs[..i + 1]) == Elems(xs[..i]) + {x};
    }
    assert xs[..|xs|] == xs;
    AscendingIsSortSet(less, ys);
  }
}

/** Go's ordering of strings: byte by byte, a proper prefix first. */
module Lexical {
  import opened Sorting

  predicate Less(a: string, b: string)
    decreases |a|
  {
    |b| > 0 && (|a| == 0 || a[0] < b[0] || (a[0] == b[0] && Less(a[1..], b[1..])))
  }

  lemma {:induction false} Irreflexive(a: string)
    ensures !Less(a, a)
    decreases |a|
  {
    if a != "" { Irreflexive(a[1..]); }
  }

  lemma {:induction false} Connected(a: string, b: string)
    ensures a == b || Less(a, b) || Less(b, a)
    decreases |a|
  {
    if a != "" && b != "" && a[0] == b[0] {
      Connected(a[1..], b[1..]);
      assert a == [a[0]] + a[1..] && b == [b[0]] + b[1..];
    }
  }

  lemma {:induction false} Transitive(a: string, b: string, c: string)
    requires Less(a, b) && Less(b, c)
    ensures Less(a, c)
    decreases |a|
  {
    if a != "" && a[0] == b[0] && b[0] == c[0] { Transitive(a[1..], b[1..], c[1..]); }
  }

  /** Behind a common part the first string ends, or has the smaller byte. */
  ghost predicate SplitsAt(a: string, b: string, k: int) {
    0 <= k <= |a| && k < |b| && a[..k] == b[..k] && (k == |a| || a[k] < b[k])
  }

  /** Byte order, as the first difference decides it. */
  lemma {:induction false} LessExactly(a: string, b: string)
    ensures Less(a, b) <==> exists k :: SplitsAt(a, b, k)
    decreases |a|
  {
    if Less(a, b) {
      if a == "" || a[0] < b[0] {
        assert SplitsAt(a, b, 0);
      } else {
        LessExactly(a[1..], b[1..]);
        var k :| SplitsAt(a[1..], b[1..], k);
        assert a[..k + 1] == [a[0]] + a[1..][..k] && b[..k + 1] == [b[0]] + b[1..][..k];
        assert SplitsAt(a, b, k + 1);
      }
    }
    if k :| SplitsAt(a, b, k) {
      if k > 0 {
        assert a[..k][0] == b[..k][0] && a[..k][1..] == a[1..][..k - 1] && b[..k][1..] == b[1..][..k - 1];
        assert SplitsAt(a[1..], b[1..], k - 1);
        LessExactly(a[1..], b[1..]);
      }
    }
  }

  function ByBytes(): (string, string) -> bool {
    (a, b) => Less(a, b)
  }

  lemma LessIsTotal(s: set<string>)
    ensures StrictTotal(ByBytes(), s)
  {
    var less := ByBytes();
    forall a | a in s ensures !less(a, a) { Irreflexive(a); }
    forall a, b | a in s && b in s && a != b ensures less(a, b) || less(b, a) { Connected(a, b); }
    forall a, b, c | a in s && b in s && c in s && less(a, b) && less(b, c) ensures less(a, c) { Transitive(a, b, c); }
  }
}
