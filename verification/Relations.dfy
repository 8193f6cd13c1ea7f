/** The MSC2836 relation walk (internal/csapi/relations.go) over the relation index
    (internal/storage/relations.go). */
module Relations {
  import opened Wrappers
  import opened Sorting
  import opened Lexical

  /** One m.reference row of the room's index, keyed by the child's event id. */
  datatype Rel = Rel(parent: string, stream: int, ts: int)
  type Index = map<string, Rel>

  /** parents: what relationParent reads from each stored event, "" when it relates to none. */
  datatype Query = Query(
    index: Index, parents: map<string, string>, down: bool, recentFirst: bool, limit: nat, maxDepth: nat)

  // ---- children ----

  predicate Earlier(index: Index, a: string, b: string)
    requires a in index && b in index
  {
    index[a].stream < index[b].stream || (index[a].stream == index[b].stream && Less(a, b))
  }

  predicate Before(index: Index, recentFirst: bool, a: string, b: string)
    requires a in index && b in index
  {
    if index[a].ts != index[b].ts then (if recentFirst then index[a].ts > index[b].ts else index[a].ts < index[b].ts)
    else Less(a, b)
  }

  function ByStream(index: Index): (string, string) -> bool {
    (a: string, b: string) => a in index && b in index && Earlier(index, a, b)
  }

  function ByAge(index: Index, recentFirst: bool): (string, string) -> bool {
    (a: string, b: string) => a in index && b in index && Before(index, recentFirst, a, b)
  }

  lemma OrdersTotal(index: Index, recentFirst: bool, s: set<string>)
    requires s <= index.Keys
    ensures StrictTotal(ByStream(index), s) && StrictTotal(ByAge(index, recentFirst), s)
  {
    LessIsTotal(s);
    var less := ByBytes();
    assert forall a, b :: less(a, b) <==> Less(a, b);
  }

  function ChildrenOf(index: Index, id: string): set<string> {
    set c | c in index && index[c].parent == id
  }

  lemma ByStreamApart(index: Index, rows: seq<string>)
    requires Ascending(ByStream(index), rows)
    ensures forall i, j | 0 <= i < j < |rows| :: rows[i] != rows[j]
  {
    forall i, j | 0 <= i < j < |rows| ensures rows[i] != rows[j] {
      assert ByStream(index)(rows[i], rows[j]);
      Irreflexive(rows[i]);
    }
  }

  /** The first limit+1 children in stream order. */
  ghost function Fetched(q: Query, id: string): (r: seq<string>)
    ensures |r| <= q.limit + 1 && forall c | c in r :: c in ChildrenOf(q.index, id)
  {
    OrdersTotal(q.index, q.recentFirst, ChildrenOf(q.index, id));
    var all := SortSet(ByStream(q.index), ChildrenOf(q.index, id));
    if |all| > q.limit + 1 then all[..q.limit + 1] else all
  }

  ghost function Children(q: Query, id: string): (r: seq<string>)
    ensures forall c :: c in r <==> c in Fetched(q, id)
  {
    OrdersTotal(q.index, q.recentFirst, Elems(Fetched(q, id)));
    SortSet(ByAge(q.index, q.recentFirst), Elems(Fetched(q, id)))
  }

  lemma ChildrenTotal(q: Query, id: string)
    ensures StrictTotal(ByStream(q.index), ChildrenOf(q.index, id))
  {
    OrdersTotal(q.index, q.recentFirst, ChildrenOf(q.index, id));
  }

  lemma FetchedIs(q: Query, id: string, rows: seq<string>, kept: seq<string>)
    requires StrictTotal(ByStream(q.index), ChildrenOf(q.index, id))
    requires rows == SortSet(ByStream(q.index), ChildrenOf(q.index, id))
    requires kept == if |rows| > q.limit + 1 then rows[..q.limit + 1] else rows
    ensures kept == Fetched(q, id) && StrictTotal(ByAge(q.index, q.recentFirst), Elems(kept))
    ensures forall i, j | 0 <= i < j < |kept| :: kept[i] != kept[j]
  {
    hide *;
    FetchedOpens(q, id, rows, kept);
    SortSetAscending(ByStream(q.index), ChildrenOf(q.index, id));
    ByStreamApart(q.index, rows);
    PrefixApart(rows, kept);
    KeptInIndex(q, id, kept);
    OrdersTotal(q.index, q.recentFirst, Elems(kept));
  }

  lemma PrefixApart(rows: seq<string>, kept: seq<string>)
    requires kept <= rows && forall i, j | 0 <= i < j < |rows| :: rows[i] != rows[j]
    ensures forall i, j | 0 <= i < j < |kept| :: kept[i] != kept[j]
  {
  }

  lemma FetchedOpens(q: Query, id: string, rows: seq<string>, kept: seq<string>)
    requires StrictTotal(ByStream(q.index), ChildrenOf(q.index, id))
    requires rows == SortSet(ByStream(q.index), ChildrenOf(q.index, id))
    requires kept == if |rows| > q.limit + 1 then rows[..q.limit + 1] else rows
    ensures kept == Fetched(q, id)
  {
    hide SortSet, ByStream, StrictTotal, ChildrenOf;
  }

  lemma KeptInIndex(q: Query, id: string, kept: seq<string>)
    requires kept == Fetched(q, id)
    ensures Elems(kept) <= q.index.Keys
  {
    hide Fetched;
  }

  lemma ChildrenIs(q: Query, id: string)
    ensures StrictTotal(ByAge(q.index, q.recentFirst), Elems(Fetched(q, id)))
    ensures Children(q, id) == SortSet(ByAge(q.index, q.recentFirst), Elems(Fetched(q, id)))
  {
    OrdersTotal(q.index, q.recentFirst, Elems(Fetched(q, id)));
    hide Fetched, SortSet, ByAge, StrictTotal;
  }

  lemma FetchedExactly(q: Query, id: string, c: string)
    requires c in q.index && q.index[c].parent == id && c !in Fetched(q, id)
    ensures |Fetched(q, id)| == q.limit + 1
    ensures forall k | k in Fetched(q, id) :: k in q.index && Earlier(q.index, k, c)
  {
    var s := ChildrenOf(q.index, id);
    ChildrenTotal(q, id);
    SortSetAscending(ByStream(q.index), s);
    var all := SortSet(ByStream(q.index), s);
    assert c in s;
    var j :| 0 <= j < |all| && all[j] == c;
    hide SortSet, Earlier, StrictTotal;
    assert |all| > q.limit + 1 && Fetched(q, id) == all[..q.limit + 1];
    forall k | k in Fetched(q, id) ensures k in q.index && Earlier(q.index, k, c) {
      var i :| 0 <= i < q.limit + 1 && all[i] == k;
      assert forall x | 0 <= x < q.limit + 1 :: all[x] in Fetched(q, id);
      assert ByStream(q.index)(all[i], all[j]);
    }
  }

  lemma FetchedSize(q: Query, id: string)
    ensures |Children(q, id)| == |Fetched(q, id)|
  {
    hide *;
    ChildrenDistinct(q, id);
    ChildrenAreFetched(q, id);
    CountElems(Fetched(q, id));
    CountElems(Children(q, id));
  }

  lemma ChildrenAreFetched(q: Query, id: string)
    ensures Elems(Children(q, id)) == Elems(Fetched(q, id)) && Distinct(Fetched(q, id))
  {
    ChildrenTotal(q, id);
    var s := ChildrenOf(q.index, id);
    SortSetAscending(ByStream(q.index), s);
    ByStreamApart(q.index, SortSet(ByStream(q.index), s));
    hide Children;
  }

  lemma {:induction false} CountElems(xs: seq<string>)
    requires Distinct(xs)
    ensures |Elems(xs)| == |xs|
    decreases |xs|
  {
    if xs != [] {
      var init := xs[..|xs| - 1];
      CountElems(init);
      assert Elems(xs) == Elems(init) + {xs[|xs| - 1]};
    }
  }

  /** The children of an event, told from the index: the limit + 1 that came first in the stream, ties by
      id, where there are more; then in the order of their time, newest first when asked for, ties by id. */
  lemma ChildrenExactly(q: Query, id: string)
    ensures var r := Children(q, id);
      && (forall c | c in r :: c in q.index && q.index[c].parent == id)
      && |r| <= q.limit + 1
      && (forall c | c in q.index && q.index[c].parent == id && c !in r ::
            && |r| == q.limit + 1
            && forall k | k in r :: q.index[k].stream < q.index[c].stream
                 || (q.index[k].stream == q.index[c].stream && Less(k, c)))
      && forall i, j | 0 <= i < j < |r| ::
           && r[i] != r[j]
           && (if q.recentFirst then q.index[r[i]].ts >= q.index[r[j]].ts else q.index[r[i]].ts <= q.index[r[j]].ts)
           && (q.index[r[i]].ts == q.index[r[j]].ts ==> Less(r[i], r[j]))
  {
    hide Fetched, Children;
    var r := Children(q, id);
    FetchedSize(q, id);
    forall c | c in q.index && q.index[c].parent == id && c !in r
      ensures |r| == q.limit + 1 && forall k | k in r :: k in q.index && Earlier(q.index, k, c)
    {
      FetchedExactly(q, id, c);
    }
    forall i, j | 0 <= i < j < |r|
      ensures r[i] in q.index && r[j] in q.index && r[i] != r[j] && Before(q.index, q.recentFirst, r[i], r[j])
    {
      SiblingOrder(q, id, i, j);
    }
  }

  lemma SiblingOrder(q: Query, id: string, i: nat, j: nat)
    requires i < j < |Children(q, id)|
    ensures var r := Children(q, id);
      && r[i] in q.index && r[j] in q.index && r[i] != r[j] && Before(q.index, q.recentFirst, r[i], r[j])
  {
    ChildrenDistinct(q, id);
    ChildrenIs(q, id);
    SortSetAscending(ByAge(q.index, q.recentFirst), Elems(Fetched(q, id)));
    hide Fetched, Children, SortSet, StrictTotal, Before;
    assert ByAge(q.index, q.recentFirst)(Children(q, id)[i], Children(q, id)[j]);
  }

  /** Where the walk goes from an event. */
  ghost function Onward(q: Query, id: string): seq<string> {
    if q.down then Children(q, id)
    else if id in q.parents && q.parents[id] != "" then [q.parents[id]] else []
  }

  // ---- the walk ----

  /** What has been collected after walking id, given what had been before. */
  ghost function Visit(q: Query, id: string, depth: nat, acc: seq<string>): seq<string>
    requires depth <= q.maxDepth + 1
    decreases q.maxDepth + 1 - depth, 0
  {
    if id == "" || id in acc || depth > q.maxDepth then acc
    else VisitAll(q, Onward(q, id), depth + 1, acc + [id])
  }

  ghost function VisitAll(q: Query, ids: seq<string>, depth: nat, acc: seq<string>): seq<string>
    requires depth <= q.maxDepth + 1
    decreases q.maxDepth + 1 - depth, |ids| + 1
  {
    if ids == [] then acc else VisitAll(q, ids[1..], depth, Visit(q, ids[0], depth, acc))
  }

  lemma VisitOpens(q: Query, id: string, depth: nat, acc: seq<string>)
    requires depth <= q.maxDepth && id != ""
    ensures Visit(q, id, depth, acc) == if id in acc then acc else VisitAll(q, Onward(q, id), depth + 1, acc + [id])
  {
    hide Onward;
  }

  lemma VisitAllStep(q: Query, ids: seq<string>, i: nat, depth: nat, acc: seq<string>)
    requires depth <= q.maxDepth + 1 && i < |ids|
    ensures VisitAll(q, ids[i..], depth, acc) == VisitAll(q, ids[i + 1..], depth, Visit(q, ids[i], depth, acc))
  {
    hide Visit;
    assert ids[i..][0] == ids[i] && ids[i..][1..] == ids[i + 1..];
  }

  lemma VisitSeen(q: Query, id: string, depth: nat, acc: seq<string>)
    requires depth <= q.maxDepth + 1 && id in acc
    ensures Visit(q, id, depth, acc) == acc
  {
  }

  lemma VisitBlocked(q: Query, id: string, depth: nat, acc: seq<string>)
    requires depth <= q.maxDepth + 1 && (id == "" || id in acc || depth > q.maxDepth)
    ensures Visit(q, id, depth, acc) == acc
  {
  }

  lemma VisitNone(q: Query, depth: nat, acc: seq<string>)
    requires depth <= q.maxDepth + 1
    ensures VisitAll(q, [], depth, acc) == acc
  {
  }

  /** The closure's captured variables. */
  class Walker {
    const q: Query
    var collected: seq<string>
    var seen: set<string>

    constructor (query: Query)
      ensures q == query && collected == [] && seen == {}
    {
      q, collected, seen := query, [], {};
    }

    ghost predicate Valid()
      reads this
    {
      forall id :: id in seen <==> id in collected
    }

    method ChildrenOfEvent(id: string) returns (out: seq<string>)
      ensures out == Children(q, id)
    {
      var all := ListOf(ChildrenOf(q.index, id));
      assert Elems(all) == ChildrenOf(q.index, id);
      hide *;
      ChildrenTotal(q, id);
      var rows := Sort(ByStream(q.index), all);
      var kept := if |rows| > q.limit + 1 then rows[..q.limit + 1] else rows;
      FetchedIs(q, id, rows, kept);
      out := Sort(ByAge(q.index, q.recentFirst), kept);
      ChildrenIs(q, id);
    }

    /** walk: it ends on every graph, cyclic or not. */
    method Walk(id: string, depth: nat)
      requires Valid() && depth <= q.maxDepth + 1
      modifies this`collected, this`seen
      ensures Valid() && collected == Visit(q, id, depth, old(collected))
      decreases q.maxDepth + 1 - depth, 0
    {
      hide Visit, VisitAll, Onward, Children;
      if id == "" || id in seen || depth > q.maxDepth {
        VisitBlocked(q, id, depth, collected);
        return;
      }
      VisitOpens(q, id, depth, collected);
      seen := seen + {id};
      collected := collected + [id];
      if q.down {
        OnwardDown(q, id);
        var ids := ChildrenOfEvent(id);
        WalkAll(ids, depth + 1);
      } else {
        WalkParent(id, depth + 1);
      }
    }

    method WalkParent(id: string, depth: nat)
      requires Valid() && !q.down && depth <= q.maxDepth + 1
      modifies this`collected, this`seen
      ensures Valid() && collected == VisitAll(q, Onward(q, id), depth, old(collected))
      decreases q.maxDepth + 1 - depth, 1
    {
      var parent := if id in q.parents then q.parents[id] else "";
      if parent != "" {
        SingleVisit(q, parent, depth, collected);
        hide Visit, VisitAll;
        if parent !in seen {
          Walk(parent, depth);
        } else {
          VisitSeen(q, parent, depth, collected);
        }
      } else {
        VisitNone(q, depth, collected);
      }
    }

    method WalkAll(ids: seq<string>, depth: nat)
      requires Valid() && depth <= q.maxDepth + 1
      modifies this`collected, this`seen
      ensures Valid() && collected == VisitAll(q, ids, depth, old(collected))
      decreases q.maxDepth + 1 - depth, 1
    {
      hide Visit, VisitAll;
      assert ids[0..] == ids;
      for i := 0 to |ids|
        invariant Valid()
        invariant VisitAll(q, ids[i..], depth, collected) == VisitAll(q, ids, depth, old(collected))
      {
        VisitAllStep(q, ids, i, depth, collected);
        if ids[i] !in seen {
          Walk(ids[i], depth);
        } else {
          VisitSeen(q, ids[i], depth, collected);
        }
      }
      assert ids[|ids|..] == [];
      VisitNone(q, depth, collected);
    }
  }

  lemma OnwardDown(q: Query, id: string)
    requires q.down
    ensures Onward(q, id) == Children(q, id)
  {
  }

  lemma SingleVisit(q: Query, id: string, depth: nat, acc: seq<string>)
    requires depth <= q.maxDepth + 1
    ensures VisitAll(q, [id], depth, acc) == Visit(q, id, depth, acc)
  {
    assert [id][1..] == [];
    assert VisitAll(q, [id], depth, acc) == VisitAll(q, [], depth, Visit(q, id, depth, acc));
  }

  // ---- every walk ----

  ghost predicate Distinct(xs: seq<string>) {
    forall i, j | 0 <= i < j < |xs| :: xs[i] != xs[j]
  }

  /** to is reached from `from` in at most n steps. */
  ghost predicate Within(q: Query, from: string, to: string, n: nat)
    decreases n
  {
    from == to || (n > 0 && exists x :: x in Onward(q, from) && Within(q, x, to, n - 1))
  }

  lemma {:induction false} WithinMore(q: Query, from: string, to: string, n: nat, m: nat)
    requires Within(q, from, to, n) && n <= m
    ensures Within(q, from, to, m)
    decreases n
  {
    if from != to {
      var x :| x in Onward(q, from) && Within(q, x, to, n - 1);
      WithinMore(q, x, to, n - 1, m - 1);
    }
  }

  lemma {:induction false} VisitSound(q: Query, id: string, depth: nat, acc: seq<string>)
    requires depth <= q.maxDepth + 1 && Distinct(acc)
    ensures var r := Visit(q, id, depth, acc);
      && Distinct(r) && acc <= r
      && forall x | x in r && x !in acc :: depth <= q.maxDepth && Within(q, id, x, q.maxDepth - depth)
    decreases q.maxDepth + 1 - depth, 0
  {
    if !(id == "" || id in acc || depth > q.maxDepth) {
      VisitAllSound(q, Onward(q, id), depth + 1, acc + [id]);
      var r := Visit(q, id, depth, acc);
      forall x | x in r && x !in acc ensures Within(q, id, x, q.maxDepth - depth) {
        if x != id {
          var y :| y in Onward(q, id) && depth + 1 <= q.maxDepth && Within(q, y, x, q.maxDepth - depth - 1);
        }
      }
    }
  }

  lemma {:induction false} VisitAllSound(q: Query, ids: seq<string>, depth: nat, acc: seq<string>)
    requires depth <= q.maxDepth + 1 && Distinct(acc)
    ensures var r := VisitAll(q, ids, depth, acc);
      && Distinct(r) && acc <= r
      && forall x | x in r && x !in acc :: exists y ::
        y in ids && depth <= q.maxDepth && Within(q, y, x, q.maxDepth - depth)
    decreases q.maxDepth + 1 - depth, |ids| + 1
  {
    if ids != [] {
      VisitSound(q, ids[0], depth, acc);
      var mid := Visit(q, ids[0], depth, acc);
      VisitAllSound(q, ids[1..], depth, mid);
      var r := VisitAll(q, ids, depth, acc);
      forall x | x in r && x !in acc
        ensures exists y :: y in ids && depth <= q.maxDepth && Within(q, y, x, q.maxDepth - depth)
      {
        if x in mid { assert ids[0] in ids; } else {
          var y :| y in ids[1..] && depth <= q.maxDepth && Within(q, y, x, q.maxDepth - depth);
          assert y in ids;
        }
      }
    }
  }

  /** On any graph, cyclic or not: no event twice, the anchor first, and nothing beyond max_depth. */
  lemma WalkSound(q: Query, anchor: string)
    requires anchor != ""
    ensures var r := Visit(q, anchor, 0, []);
      && Distinct(r) && r != [] && r[0] == anchor
      && forall x | x in r :: Within(q, anchor, x, q.maxDepth)
  {
    VisitSound(q, anchor, 0, []);
    VisitAllSound(q, Onward(q, anchor), 1, [] + [anchor]);
    assert [] + [anchor] == [anchor];
    assert Visit(q, anchor, 0, []) == VisitAll(q, Onward(q, anchor), 1, [anchor]);
    assert [anchor] <= Visit(q, anchor, 0, []);
  }

  // ---- the walk down: depth-first order, complete ----

  function ParentOf(q: Query, id: string): string {
    if id in q.parents then q.parents[id] else ""
  }

  /** Each event of the path is followed by its parent. */
  ghost predicate UpPath(q: Query, path: seq<string>) {
    forall i | 0 <= i < |path| - 1 :: ParentOf(q, path[i]) == path[i + 1]
  }

  /** The path cannot be prolonged: it is as deep as allowed, or ends at an event that relates to nothing
      or to an event of the path. */
  ghost predicate UpEnd(q: Query, path: seq<string>) {
    path != [] && (|path| == q.maxDepth + 1 || ParentOf(q, path[|path| - 1]) in path + [""])
  }

  lemma {:induction false} VisitUp(q: Query, id: string, depth: nat, acc: seq<string>)
    requires !q.down && |acc| == depth <= q.maxDepth + 1 && UpPath(q, acc)
    requires if acc == [] then id != "" else ParentOf(q, acc[|acc| - 1]) == id
    ensures var r := Visit(q, id, depth, acc); UpPath(q, r) && UpEnd(q, r) && |r| <= q.maxDepth + 1
    decreases q.maxDepth + 1 - depth
  {
    if id != "" && id !in acc && depth <= q.maxDepth {
      var next := ParentOf(q, id);
      if next == "" {
        VisitNone(q, depth + 1, acc + [id]);
      } else {
        SingleVisit(q, next, depth + 1, acc + [id]);
        VisitUp(q, next, depth + 1, acc + [id]);
      }
    }
  }

  /** The walk up is the chain of parents from the anchor, as far as max_depth and the first repetition
      allow. */
  lemma WalkUpExact(q: Query, anchor: string)
    requires !q.down && anchor != ""
    ensures var r := Visit(q, anchor, 0, []);
      r != [] && r[0] == anchor && Distinct(r) && UpPath(q, r) && UpEnd(q, r) && |r| <= q.maxDepth + 1
  {
    VisitUp(q, anchor, 0, []);
    WalkSound(q, anchor);
  }

  /** x lies d links below the anchor; the chain up from x meets the anchor first after d links. */
  ghost predicate At(index: Index, anchor: string, x: string, d: nat)
    decreases d
  {
    if d == 0 then x == anchor
    else x != anchor && x in index && At(index, anchor, index[x].parent, d - 1)
  }

  /** The event k links above x. */
  function Climb(index: Index, x: string, k: nat): string
    decreases k
  {
    if k == 0 then x else if x in index then Climb(index, index[x].parent, k - 1) else ""
  }

  lemma {:induction false} OneDepth(index: Index, anchor: string, x: string, d: nat, e: nat)
    requires At(index, anchor, x, d) && At(index, anchor, x, e)
    ensures d == e
    decreases d
  {
    if d > 0 && e > 0 { OneDepth(index, anchor, index[x].parent, d - 1, e - 1); }
  }

  /** The events at most n links below id, in depth-first order, the anchor never entered again. */
  ghost function Preorder(q: Query, anchor: string, id: string, n: nat): seq<string>
    decreases n, 0
  {
    [id] + if n == 0 then [] else PreorderAll(q, anchor, Children(q, id), n - 1)
  }

  ghost function PreorderAll(q: Query, anchor: string, ids: seq<string>, n: nat): seq<string>
    decreases n, |ids| + 1
  {
    if ids == [] then [] else
      (if ids[0] == anchor then [] else Preorder(q, anchor, ids[0], n)) + PreorderAll(q, anchor, ids[1..], n)
  }

  /** No event has more than limit+1 children, and ids are not empty. */
  ghost predicate Narrow(q: Query) {
    "" !in q.index && forall id :: |ChildrenOf(q.index, id)| <= q.limit + 1
  }

  lemma ChildIs(q: Query, id: string, c: string)
    ensures c in Children(q, id) ==> c in q.index && q.index[c].parent == id
    ensures Narrow(q) && c in q.index && q.index[c].parent == id ==> c in Children(q, id)
  {
    OrdersTotal(q.index, q.recentFirst, ChildrenOf(q.index, id));
  }

  lemma ChildrenDistinct(q: Query, id: string)
    ensures Distinct(Children(q, id))
  {
    var s := Elems(Fetched(q, id));
    OrdersTotal(q.index, q.recentFirst, s);
    SortSetAscending(ByAge(q.index, q.recentFirst), s);
    var r := Children(q, id);
    forall i, j | 0 <= i < j < |r| ensures r[i] != r[j] {
      assert ByAge(q.index, q.recentFirst)(r[i], r[j]);
      Irreflexive(r[i]);
    }
  }

  /** x is one of the events Preorder lists below id, which lies at depth d. */
  ghost predicate Below(q: Query, anchor: string, id: string, d: nat, n: nat, x: string) {
    exists e: nat :: IsBelow(q, anchor, id, d, n, x, e)
  }

  ghost predicate IsBelow(q: Query, anchor: string, id: string, d: nat, n: nat, x: string, e: nat) {
    d <= e <= d + n && At(q.index, anchor, x, e) && Climb(q.index, x, e - d) == id
  }

  lemma {:induction false} ClimbOne(index: Index, x: string, k: nat, c: string)
    requires Climb(index, x, k) == c && c in index && c != ""
    ensures Climb(index, x, k + 1) == index[c].parent
    decreases k
  {
    if k > 0 && x in index { ClimbOne(index, index[x].parent, k - 1, c); }
  }

  lemma ChildDepth(q: Query, anchor: string, id: string, c: string, d: nat)
    requires At(q.index, anchor, id, d) && c != anchor && c in q.index && q.index[c].parent == id
    ensures At(q.index, anchor, c, d + 1)
  {
  }

  lemma BelowParent(q: Query, anchor: string, id: string, c: string, d: nat, n: nat, x: string)
    requires "" !in q.index && c in q.index && q.index[c].parent == id && Below(q, anchor, c, d + 1, n, x)
    ensures Below(q, anchor, id, d, n + 1, x)
  {
    var e: nat :| IsBelow(q, anchor, c, d + 1, n, x, e);
    ClimbOne(q.index, x, e - d - 1, c);
    hide At, Climb;
    assert IsBelow(q, anchor, id, d, n + 1, x, e);
  }

  lemma SelfBelow(q: Query, anchor: string, id: string, d: nat, n: nat)
    requires At(q.index, anchor, id, d)
    ensures Below(q, anchor, id, d, n, id)
  {
    assert Climb(q.index, id, 0) == id;
    hide At, Climb;
    assert IsBelow(q, anchor, id, d, n, id, d);
  }

  lemma {:induction false} PreorderBelow(q: Query, anchor: string, id: string, d: nat, n: nat, x: string)
    requires "" !in q.index && At(q.index, anchor, id, d) && x in Preorder(q, anchor, id, n)
    ensures Below(q, anchor, id, d, n, x)
    decreases n, 0
  {
    hide Children, PreorderAll, Below, IsBelow;
    if x == id {
      SelfBelow(q, anchor, id, d, n);
    } else {
      PreorderAllBelow(q, anchor, id, Children(q, id), d, n - 1, x);
    }
  }

  lemma {:induction false} PreorderAllBelow(q: Query, anchor: string, id: string, ids: seq<string>, d: nat, n: nat,
      x: string)
    requires "" !in q.index && At(q.index, anchor, id, d) && x in PreorderAll(q, anchor, ids, n)
    requires forall c | c in ids :: c in Children(q, id)
    ensures Below(q, anchor, id, d, n + 1, x)
    ensures exists c :: c in ids && c != anchor && x in Preorder(q, anchor, c, n)
    decreases n, |ids| + 1
  {
    hide Children, Below, IsBelow, Preorder;
    var c := ids[0];
    assert c in ids;
    ChildIs(q, id, c);
    if c != anchor && x in Preorder(q, anchor, c, n) {
      ChildDepth(q, anchor, id, c, d);
      PreorderBelow(q, anchor, c, d + 1, n, x);
      BelowParent(q, anchor, id, c, d, n, x);
    } else {
      assert x in PreorderAll(q, anchor, ids[1..], n);
      PreorderAllBelow(q, anchor, id, ids[1..], d, n, x);
      var y :| y in ids[1..] && y != anchor && x in Preorder(q, anchor, y, n);
      assert y in ids;
    }
  }

  /** Different events at one depth have no event below them in common. */
  lemma SiblingsApart(q: Query, anchor: string, a: string, b: string, d: nat, n: nat, x: string)
    requires "" !in q.index && At(q.index, anchor, a, d) && At(q.index, anchor, b, d)
    requires x in Preorder(q, anchor, a, n) && x in Preorder(q, anchor, b, n)
    ensures a == b
  {
    hide *;
    PreorderBelow(q, anchor, a, d, n, x);
    PreorderBelow(q, anchor, b, d, n, x);
    var e := DepthBelow(q, anchor, a, d, n, x);
    var f := DepthBelow(q, anchor, b, d, n, x);
    OneDepth(q.index, anchor, x, e, f);
  }

  lemma DepthBelow(q: Query, anchor: string, id: string, d: nat, n: nat, x: string) returns (e: nat)
    requires Below(q, anchor, id, d, n, x)
    ensures d <= e && At(q.index, anchor, x, e) && Climb(q.index, x, e - d) == id
  {
    hide At, Climb;
    e :| IsBelow(q, anchor, id, d, n, x, e);
  }

  ghost predicate Apart(xs: seq<string>, ys: seq<string>) {
    forall x | x in xs :: x !in ys
  }

  /** The walk down from id appends exactly its preorder. */
  lemma {:induction false} VisitIsPreorder(q: Query, anchor: string, id: string, depth: nat, acc: seq<string>)
    requires q.down && "" !in q.index && id != "" && depth <= q.maxDepth && At(q.index, anchor, id, depth)
    requires (depth > 0 ==> anchor in acc) && Apart(Preorder(q, anchor, id, q.maxDepth - depth), acc)
    ensures Visit(q, id, depth, acc) == acc + Preorder(q, anchor, id, q.maxDepth - depth)
    decreases q.maxDepth + 1 - depth, 0
  {
    hide Children, At, PreorderAll, Visit, VisitAll, Apart, Distinct;
    var n := q.maxDepth - depth;
    var ids, next := Children(q, id), acc + [id];
    RootApart(q, anchor, id, depth, n, acc);
    VisitOpens(q, id, depth, acc);
    if n == 0 {
      BeyondDepth(q, ids, next);
    } else {
      ChildrenDistinct(q, id);
      VisitAllIsPreorder(q, anchor, id, ids, depth + 1, next);
      Regroup(acc, id, PreorderAll(q, anchor, ids, n - 1));
    }
  }

  lemma RootApart(q: Query, anchor: string, id: string, depth: nat, n: nat, acc: seq<string>)
    requires "" !in q.index && At(q.index, anchor, id, depth) && Apart(Preorder(q, anchor, id, n), acc)
    ensures depth == 0 ==> id == anchor
    ensures id !in acc && (n > 0 ==> Apart(PreorderAll(q, anchor, Children(q, id), n - 1), acc + [id]))
  {
    hide Children, PreorderAll;
    assert id in Preorder(q, anchor, id, n);
    hide At;
    if n > 0 {
      forall x | x in PreorderAll(q, anchor, Children(q, id), n - 1) ensures x !in acc + [id] {
        assert x in Preorder(q, anchor, id, n);
        OwnSubtree(q, anchor, id, depth, n - 1);
      }
    }
  }

  lemma {:induction false} BeyondDepth(q: Query, ids: seq<string>, acc: seq<string>)
    ensures VisitAll(q, ids, q.maxDepth + 1, acc) == acc
    decreases |ids|
  {
    if ids != [] { BeyondDepth(q, ids[1..], acc); }
  }

  /** An event is not below its own children. */
  lemma OwnSubtree(q: Query, anchor: string, id: string, d: nat, n: nat)
    requires "" !in q.index && At(q.index, anchor, id, d)
    ensures id !in PreorderAll(q, anchor, Children(q, id), n)
  {
    hide Children, At, PreorderAll, Preorder;
    if id in PreorderAll(q, anchor, Children(q, id), n) {
      PreorderAllBelow(q, anchor, id, Children(q, id), d, n, id);
      var c :| c in Children(q, id) && c != anchor && id in Preorder(q, anchor, c, n);
      ChildIs(q, id, c);
      ChildDepth(q, anchor, id, c, d);
      PreorderBelow(q, anchor, c, d + 1, n, id);
      var e: nat :| IsBelow(q, anchor, c, d + 1, n, id, e);
      OneDepth(q.index, anchor, id, d, e);
      assert false;
    }
  }

  lemma PreorderAllOpens(q: Query, anchor: string, ids: seq<string>, n: nat)
    requires ids != []
    ensures PreorderAll(q, anchor, ids, n) ==
      (if ids[0] == anchor then [] else Preorder(q, anchor, ids[0], n)) + PreorderAll(q, anchor, ids[1..], n)
  {
    hide Preorder;
  }

  lemma Append3(a: seq<string>, b: seq<string>, c: seq<string>)
    ensures a + b + c == a + (b + c)
  {
  }

  lemma PreorderNone(q: Query, anchor: string, n: nat)
    ensures PreorderAll(q, anchor, [], n) == []
  {
  }

  lemma OneChild(q: Query, anchor: string, id: string, c: string, depth: nat, acc: seq<string>)
    requires q.down && "" !in q.index && 0 < depth <= q.maxDepth && At(q.index, anchor, id, depth - 1) && anchor in acc
    requires c in q.index && q.index[c].parent == id
    requires c != anchor ==> Apart(Preorder(q, anchor, c, q.maxDepth - depth), acc)
    ensures Visit(q, c, depth, acc) == acc + (if c == anchor then [] else Preorder(q, anchor, c, q.maxDepth - depth))
    decreases q.maxDepth + 1 - depth, 1
  {
    if c == anchor {
      assert acc + [] == acc;
    } else {
      ChildDepth(q, anchor, id, c, depth - 1);
      VisitIsPreorder(q, anchor, c, depth, acc);
    }
  }

  lemma {:induction false} VisitAllIsPreorder(q: Query, anchor: string, id: string, ids: seq<string>, depth: nat,
      acc: seq<string>)
    requires q.down && "" !in q.index && 0 < depth <= q.maxDepth && At(q.index, anchor, id, depth - 1)
    requires Distinct(ids) && (forall c | c in ids :: c in Children(q, id)) && anchor in acc
    requires Apart(PreorderAll(q, anchor, ids, q.maxDepth - depth), acc)
    ensures VisitAll(q, ids, depth, acc) == acc + PreorderAll(q, anchor, ids, q.maxDepth - depth)
    decreases q.maxDepth + 1 - depth, |ids| + 2
  {
    hide *;
    if ids != [] {
      var n := q.maxDepth - depth;
      var rest := PreorderAll(q, anchor, ids[1..], n);
      var own := if ids[0] == anchor then [] else Preorder(q, anchor, ids[0], n);
      assert ids[0] in ids;
      ChildIs(q, id, ids[0]);
      PreorderAllOpens(q, anchor, ids, n);
      RestOk(q, anchor, id, ids, depth, n, acc);
      OneChild(q, anchor, id, ids[0], depth, acc);
      TailDistinct(ids);
      assert ids[0..] == ids;
      VisitAllStep(q, ids, 0, depth, acc);
      assert anchor in acc + own;
      VisitAllIsPreorder(q, anchor, id, ids[1..], depth, acc + own);
      Append3(acc, own, rest);
    } else {
      VisitNone(q, depth, acc);
      PreorderNone(q, anchor, q.maxDepth - depth);
      assert acc + [] == acc;
    }
  }

  lemma TailDistinct(ids: seq<string>)
    requires Distinct(ids) && ids != []
    ensures Distinct(ids[1..]) && ids[0] !in ids[1..]
  {
  }

  lemma RestOk(q: Query, anchor: string, id: string, ids: seq<string>, depth: nat, n: nat, acc: seq<string>)
    requires "" !in q.index && 0 < depth && At(q.index, anchor, id, depth - 1) && ids != [] && Distinct(ids)
    requires (forall c | c in ids :: c in Children(q, id)) && Apart(PreorderAll(q, anchor, ids, n), acc)
    ensures var own := if ids[0] == anchor then [] else Preorder(q, anchor, ids[0], n);
      Apart(PreorderAll(q, anchor, ids[1..], n), acc + own) && Apart(own, acc)
  {
    hide Children, At, Preorder, Distinct;
    var own := if ids[0] == anchor then [] else Preorder(q, anchor, ids[0], n);
    var rest := PreorderAll(q, anchor, ids[1..], n);
    assert PreorderAll(q, anchor, ids, n) == own + rest;
    hide PreorderAll;
    forall x | x in rest ensures x !in acc + own {
      if x in own { RestApart(q, anchor, id, ids, depth, n, x); }
    }
  }

  lemma ChildrenAt(q: Query, anchor: string, id: string, a: string, b: string, depth: nat)
    requires 0 < depth && At(q.index, anchor, id, depth - 1) && a != anchor && b != anchor
    requires a in Children(q, id) && b in Children(q, id)
    ensures At(q.index, anchor, a, depth) && At(q.index, anchor, b, depth)
  {
    ChildIs(q, id, a);
    ChildIs(q, id, b);
    hide Children;
    ChildDepth(q, anchor, id, a, depth - 1);
    ChildDepth(q, anchor, id, b, depth - 1);
  }

  lemma RestApart(q: Query, anchor: string, id: string, ids: seq<string>, depth: nat, n: nat, x: string)
    requires "" !in q.index && 0 < depth && At(q.index, anchor, id, depth - 1) && ids != [] && Distinct(ids)
    requires forall c | c in ids :: c in Children(q, id)
    requires ids[0] != anchor && x in Preorder(q, anchor, ids[0], n)
    ensures x !in PreorderAll(q, anchor, ids[1..], n)
  {
    hide Children, At, PreorderAll, Preorder, Below, IsBelow;
    TailDistinct(ids);
    hide Distinct;
    if x in PreorderAll(q, anchor, ids[1..], n) {
      PreorderAllBelow(q, anchor, id, ids[1..], depth - 1, n, x);
      var c :| c in ids[1..] && c != anchor && x in Preorder(q, anchor, c, n);
      assert c in ids && ids[0] in ids && c != ids[0];
      ChildrenAt(q, anchor, id, c, ids[0], depth);
      SiblingsApart(q, anchor, c, ids[0], depth, n, x);
      assert false;
    }
  }

  lemma {:induction false} BelowInPreorder(q: Query, anchor: string, id: string, d: nat, n: nat, x: string, e: nat)
    requires Narrow(q) && id != "" && IsBelow(q, anchor, id, d, n, x, e) && At(q.index, anchor, id, d)
    ensures x in Preorder(q, anchor, id, n)
    decreases n
  {
    hide *;
    if e == d {
      BelowIsSelf(q, anchor, id, d, n, x);
    } else {
      var c := NextTowards(q, anchor, id, d, n, x, e);
      BelowInPreorder(q, anchor, c, d + 1, n - 1, x, e);
      ListedBelow(q, anchor, Children(q, id), n - 1, c, x);
      PreorderOpens(q, anchor, id, n);
    }
  }

  lemma BelowIsSelf(q: Query, anchor: string, id: string, d: nat, n: nat, x: string)
    requires IsBelow(q, anchor, id, d, n, x, d)
    ensures x == id && x in Preorder(q, anchor, id, n)
  {
  }

  lemma PreorderOpens(q: Query, anchor: string, id: string, n: nat)
    requires n > 0
    ensures forall x | x in PreorderAll(q, anchor, Children(q, id), n - 1) :: x in Preorder(q, anchor, id, n)
  {
    hide PreorderAll, Children;
  }

  /** The child of id through which x lies below it. */
  lemma NextTowards(q: Query, anchor: string, id: string, d: nat, n: nat, x: string, e: nat) returns (c: string)
    requires Narrow(q) && id != "" && IsBelow(q, anchor, id, d, n, x, e) && At(q.index, anchor, id, d) && e != d
    ensures n > 0 && c != "" && c != anchor && c in Children(q, id)
    ensures IsBelow(q, anchor, c, d + 1, n - 1, x, e) && At(q.index, anchor, c, d + 1)
  {
    c := ChildTowards(q, anchor, x, e, e - d - 1);
    ChildIs(q, id, c);
    hide Children, Climb, At;
  }

  lemma {:induction false} ChildTowards(q: Query, anchor: string, x: string, e: nat, k: nat) returns (c: string)
    requires "" !in q.index && At(q.index, anchor, x, e) && k < e
    ensures c == Climb(q.index, x, k) && c != anchor && c in q.index && At(q.index, anchor, c, e - k)
    ensures q.index[c].parent == Climb(q.index, x, k + 1)
    decreases k
  {
    if k == 0 {
      c := x;
      assert Climb(q.index, x, 1) == Climb(q.index, q.index[x].parent, 0);
    } else {
      c := ChildTowards(q, anchor, q.index[x].parent, e - 1, k - 1);
    }
  }

  lemma {:induction false} ListedBelow(q: Query, anchor: string, ids: seq<string>, n: nat, c: string, x: string)
    requires c in ids && c != anchor && x in Preorder(q, anchor, c, n)
    ensures x in PreorderAll(q, anchor, ids, n)
    decreases |ids|
  {
    if ids[0] != c { ListedBelow(q, anchor, ids[1..], n, c, x); }
  }

  ghost predicate WithinDepth(q: Query, anchor: string, x: string) {
    exists d: nat :: d <= q.maxDepth && At(q.index, anchor, x, d)
  }

  lemma PreorderExact(q: Query, anchor: string, x: string)
    requires Narrow(q) && anchor != ""
    ensures x in Preorder(q, anchor, anchor, q.maxDepth) <==> WithinDepth(q, anchor, x)
  {
    assert At(q.index, anchor, anchor, 0);
    hide Preorder;
    if x in Preorder(q, anchor, anchor, q.maxDepth) {
      PreorderBelow(q, anchor, anchor, 0, q.maxDepth, x);
      var e: nat :| IsBelow(q, anchor, anchor, 0, q.maxDepth, x, e);
    }
    if d: nat :| d <= q.maxDepth && At(q.index, anchor, x, d) {
      ClimbToAnchor(q.index, anchor, x, d);
      assert IsBelow(q, anchor, anchor, 0, q.maxDepth, x, d);
      BelowInPreorder(q, anchor, anchor, 0, q.maxDepth, x, d);
    }
  }

  lemma AnchorAtTop(q: Query, anchor: string)
    requires Narrow(q)
    ensures "" !in q.index && At(q.index, anchor, anchor, 0) && Apart(Preorder(q, anchor, anchor, q.maxDepth), [])
  {
  }

  /** With at most limit+1 children per event the walk down is the depth-first listing of exactly the
      events within max_depth below the anchor; a cycle back to the anchor adds nothing. */
  lemma WalkDownExact(q: Query, anchor: string)
    requires q.down && Narrow(q) && anchor != ""
    ensures Visit(q, anchor, 0, []) == Preorder(q, anchor, anchor, q.maxDepth)
    ensures forall x :: x in Visit(q, anchor, 0, []) <==> WithinDepth(q, anchor, x)
  {
    AnchorAtTop(q, anchor);
    hide *;
    VisitIsPreorder(q, anchor, anchor, 0, []);
    assert [] + Preorder(q, anchor, anchor, q.maxDepth) == Preorder(q, anchor, anchor, q.maxDepth);
    forall x ensures x in Preorder(q, anchor, anchor, q.maxDepth) <==> WithinDepth(q, anchor, x) {
      PreorderExact(q, anchor, x);
    }
  }

  lemma {:induction false} ClimbToAnchor(index: Index, anchor: string, x: string, d: nat)
    requires At(index, anchor, x, d)
    ensures Climb(index, x, d) == anchor
    decreases d
  {
    if d > 0 { ClimbToAnchor(index, anchor, index[x].parent, d - 1); }
  }

  // ---- the answer ----

  function UpTo(ids: seq<string>, last: string): seq<string> {
    if ids == [] then [] else if ids[0] == last then [last] else [ids[0]] + UpTo(ids[1..], last)
  }

  ghost function WithParent(q: Query, anchor: string, withParent: bool, walked: seq<string>): seq<string>
  {
    if withParent && walked != [] && anchor in q.parents && q.parents[anchor] != "" && q.parents[anchor] !in walked
    then [anchor, q.parents[anchor]] + walked[1..] else walked
  }

  /** Everything up to and including the terminating event, all of it when that was not met. */
  function Cut(ids: seq<string>, terminating: string): seq<string> {
    if terminating != "" && terminating in ids then UpTo(ids, terminating) else ids
  }

  lemma {:induction false} UpToFirst(ids: seq<string>, terminating: string, i: nat)
    requires i < |ids| && ids[i] == terminating && forall j | 0 <= j < i :: ids[j] != terminating
    ensures UpTo(ids, terminating) == ids[..i + 1]
    decreases i
  {
    if i > 0 {
      assert ids[0] != terminating && ids[1..][i - 1] == terminating;
      UpToFirst(ids[1..], terminating, i - 1);
      assert [ids[0]] + ids[1..][..i] == ids[..i + 1];
    }
  }

  method TrimTo(collected: seq<string>, terminating: string) returns (trimmed: seq<string>)
    ensures trimmed == Cut(collected, terminating) && trimmed <= collected
    ensures terminating != "" ==> forall i | 0 <= i < |trimmed| - 1 :: trimmed[i] != terminating
    ensures collected != [] ==> trimmed != []
  {
    hide UpTo;
    trimmed := collected;
    if terminating != "" {
      var i := 0;
      while i < |collected| && collected[i] != terminating
        invariant 0 <= i <= |collected|
        invariant forall j | 0 <= j < i :: collected[j] != terminating
      {
        i := i + 1;
      }
      if i < |collected| {
        UpToFirst(collected, terminating, i);
        trimmed := collected[..i + 1];
      }
    }
  }

  lemma ParentInserted(q: Query, anchor: string, withParent: bool, walked: seq<string>)
    requires Distinct(walked) && walked != [] && walked[0] == anchor
    ensures var all := WithParent(q, anchor, withParent, walked); Distinct(all) && all != [] && all[0] == anchor
  {
  }

  /** The ids the answer renders, and whether the limit cut it: no event twice, the anchor first, the
      parent right behind it when asked for, nothing behind the terminating event. */
  method Relationships(q: Query, anchor: string, includeParent: bool, terminating: string)
    returns (ids: seq<string>, limited: bool)
    requires anchor != "" && q.limit > 0
    ensures var cut := Cut(WithParent(q, anchor, includeParent, Visit(q, anchor, 0, [])), terminating);
      limited == (|cut| > q.limit) && ids == if limited then cut[..q.limit] else cut
    ensures Distinct(ids) && ids != [] && ids[0] == anchor && |ids| <= q.limit
    ensures terminating != "" ==> forall i | 0 <= i < |ids| - 1 :: ids[i] != terminating
  {
    hide Visit, Within, Cut;
    var w := new Walker(q);
    w.Walk(anchor, 0);
    WalkSound(q, anchor);
    var collected := w.collected;
    var parent := if anchor in q.parents then q.parents[anchor] else "";
    ParentInserted(q, anchor, includeParent, collected);
    if includeParent && parent != "" && parent !in w.seen {
      collected := [anchor, parent] + collected[1..];
    }
    assert collected == WithParent(q, anchor, includeParent, Visit(q, anchor, 0, []));
    var trimmed := TrimTo(collected, terminating);
    limited := |trimmed| > q.limit;
    ids := if limited then trimmed[..q.limit] else trimmed;
  }
}
