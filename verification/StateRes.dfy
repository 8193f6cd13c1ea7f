/** State resolution v2 / v2.1 (internal/stateres/stateres.go): the ordering of the
    candidate state events and the fold of that order into a state map. */
module StateRes {
  import opened Sorting
  import opened Lexical

  datatype Key = Key(typ: string, stateKey: string)

  /** What resolution reads of a candidate (EventMeta). */
  datatype Meta = Meta(
    id: string, key: Key, depth: int, ts: int, power: bool,
    auth: seq<string>, prev: seq<string>, level: int)
  {
    predicate IsPowerLevels() { key.typ == "m.room.power_levels" }
    predicate Cites(ref: string) { ref in auth || ref in prev }
  }

  type State = map<Key, string>

  ghost predicate DistinctIds(s: set<Meta>) {
    forall a, b | a in s && b in s && a != b :: a.id != b.id
  }

  // ---- comparators ----

  predicate LeafLess(a: Meta, b: Meta) {
    if a.level != b.level then a.level > b.level
    else if a.ts != b.ts then a.ts < b.ts
    else if a.id != b.id then Less(a.id, b.id)
    else a.depth < b.depth
  }

  predicate MainlineLess(a: Meta, b: Meta, mainline: seq<string>) {
    var da, db := MainlineDepth(a.auth, mainline), MainlineDepth(b.auth, mainline);
    if da != db then da < db
    else if a.depth != b.depth then a.depth < b.depth
    else if a.ts != b.ts then a.ts < b.ts
    else Less(a.id, b.id)
  }

  function ByLeaf(): (Meta, Meta) -> bool {
    (a: Meta, b: Meta) => LeafLess(a, b)
  }

  function ByMainline(mainline: seq<string>): (Meta, Meta) -> bool {
    (a: Meta, b: Meta) => MainlineLess(a, b, mainline)
  }

  lemma LeafTransitive(a: Meta, b: Meta, c: Meta)
    requires LeafLess(a, b) && LeafLess(b, c)
    ensures LeafLess(a, c)
  {
    hide Less;
    if Less(a.id, b.id) && Less(b.id, c.id) {
      Transitive(a.id, b.id, c.id);
      NotBoth(a.id, c.id);
    }
  }

  lemma NotBoth(a: string, b: string)
    requires Less(a, b)
    ensures a != b
  {
    Irreflexive(a);
  }

  lemma ByLeafTotal(s: set<Meta>)
    requires DistinctIds(s)
    ensures StrictTotal(ByLeaf(), s)
  {
    var less := ByLeaf();
    forall a | a in s ensures !less(a, a) { Irreflexive(a.id); }
    forall a, b | a in s && b in s && a != b ensures less(a, b) || less(b, a) { Connected(a.id, b.id); }
    forall a, b, c | a in s && b in s && c in s && less(a, b) && less(b, c) ensures less(a, c) {
      LeafTransitive(a, b, c);
    }
  }

  lemma MainlineTransitive(a: Meta, b: Meta, c: Meta, mainline: seq<string>)
    requires MainlineLess(a, b, mainline) && MainlineLess(b, c, mainline)
    ensures MainlineLess(a, c, mainline)
  {
    hide Less, MainlineDepth;
    if Less(a.id, b.id) && Less(b.id, c.id) { Transitive(a.id, b.id, c.id); }
  }

  lemma ByMainlineTotal(s: set<Meta>, mainline: seq<string>)
    requires DistinctIds(s)
    ensures StrictTotal(ByMainline(mainline), s)
  {
    var less := ByMainline(mainline);
    forall a | a in s ensures !less(a, a) { Irreflexive(a.id); }
    forall a, b | a in s && b in s && a != b ensures less(a, b) || less(b, a) { Connected(a.id, b.id); }
    forall a, b, c | a in s && b in s && c in s && less(a, b) && less(b, c) ensures less(a, c) {
      MainlineTransitive(a, b, c, mainline);
    }
  }

  // ---- power events: Kahn's algorithm ----

  /** Power events that cite no power event still to be placed. */
  ghost function Leaves(rem: set<Meta>): set<Meta> {
    set e | e in rem && forall f | f in rem :: !e.Cites(f.id)
  }

  ghost function Choices(rem: set<Meta>): set<Meta> {
    if Leaves(rem) == {} then rem else Leaves(rem)
  }

  ghost function NextChoice(rem: set<Meta>): (m: Meta)
    requires DistinctIds(rem) && rem != {}
    ensures m in rem
  {
    ByLeafTotal(Choices(rem));
    Least(ByLeaf(), Choices(rem))
  }

  ghost function KahnOrder(rem: set<Meta>): seq<Meta>
    requires DistinctIds(rem)
    decreases |rem|
  {
    if rem == {} then [] else [NextChoice(rem)] + KahnOrder(rem - {NextChoice(rem)})
  }

  lemma {:induction false} KahnElements(rem: set<Meta>)
    requires DistinctIds(rem)
    ensures |KahnOrder(rem)| == |rem|
    ensures forall e :: e in KahnOrder(rem) <==> e in rem
    decreases |rem|
  {
    if rem != {} {
      var m := NextChoice(rem);
      var rest := KahnOrder(rem - {m});
      KahnElements(rem - {m});
      assert KahnOrder(rem) == [m] + rest;
      assert forall e :: e in [m] + rest <==> e == m || e in rest;
    }
  }

  ghost predicate Topological(order: seq<Meta>) {
    forall i, j | 0 <= i < |order| && 0 <= j < |order| && order[i].Cites(order[j].id) :: j < i
  }

  /** Citations strictly descend under some ranking of the ids. */
  ghost predicate Acyclic(s: set<Meta>, rank: map<string, nat>) {
    && (forall e | e in s :: e.id in rank)
    && forall e, f | e in s && f in s && e.Cites(f.id) :: rank[f.id] < rank[e.id]
  }

  lemma {:induction false} SomeLeaf(rem: set<Meta>, rank: map<string, nat>, e: Meta)
    requires e in rem && Acyclic(rem, rank)
    ensures Leaves(rem) != {}
    decreases rank[e.id]
  {
    if f :| f in rem && e.Cites(f.id) {
      SomeLeaf(rem, rank, f);
    } else {
      assert e in Leaves(rem);
    }
  }

  /** On an acyclic reference graph every power event follows all the power events it
      references, so the cycle fallback is never taken. */
  lemma {:induction false} KahnTopological(rem: set<Meta>, rank: map<string, nat>)
    requires DistinctIds(rem) && Acyclic(rem, rank)
    ensures Topological(KahnOrder(rem))
    decreases |rem|
  {
    if rem != {} {
      var e :| e in rem;
      SomeLeaf(rem, rank, e);
      var m := NextChoice(rem);
      KahnTopological(rem - {m}, rank);
      KahnElements(rem - {m});
      LeafFirst(rem, m, KahnOrder(rem - {m}));
    }
  }

  lemma LeafFirst(rem: set<Meta>, m: Meta, rest: seq<Meta>)
    requires m in Leaves(rem) && Topological(rest)
    requires forall e | e in rest :: e in rem
    ensures Topological([m] + rest)
  {
    var order := [m] + rest;
    forall i, j | 0 <= i < |order| && 0 <= j < |order| && order[i].Cites(order[j].id)
      ensures j < i
    {
      assert order[j] in rem;
      assert i != 0;
      if j > 0 {
        assert order[i] == rest[i - 1] && order[j] == rest[j - 1];
      }
    }
  }

  // ---- the mainline ----

  /** The last m.room.power_levels event of the order, or "" (an id no event has). */
  function LastPowerLevels(order: seq<Meta>): string {
    if order == [] then "" else
      var e := order[|order| - 1];
      if e.IsPowerLevels() then e.id else LastPowerLevels(order[..|order| - 1])
  }

  /** The last occurrence of id in the order: Go's map built by successive assignment. */
  function Find(order: seq<Meta>, id: string): (r: seq<Meta>)
    ensures |r| <= 1
    ensures r == [] <==> forall e | e in order :: e.id != id
    ensures r != [] ==> r[0] in order && r[0].id == id
  {
    if order == [] then [] else
      var e := order[|order| - 1];
      if e.id == id then [e] else
        var r := Find(order[..|order| - 1], id);
        assert forall x | x in order :: x == e || x in order[..|order| - 1];
        r
  }

  /** The first auth reference that is a power_levels event among the ordered power events. */
  function FirstPowerLevels(order: seq<Meta>, auth: seq<string>): string {
    if auth == [] then "" else
      var f := Find(order, auth[0]);
      if f != [] && f[0].IsPowerLevels() then auth[0] else FirstPowerLevels(order, auth[1..])
  }

  function Chain(order: seq<Meta>, cur: string, seen: set<string>): seq<string>
    decreases (set e | e in order :: e.id) - seen
  {
    if cur == "" || cur in seen then [] else
      var f := Find(order, cur);
      if f == [] then [cur] else
        assert cur in (set e | e in order :: e.id);
        [cur] + Chain(order, FirstPowerLevels(order, f[0].auth), seen + {cur})
  }

  function Mainline(order: seq<Meta>): seq<string> {
    Chain(order, LastPowerLevels(order), {})
  }

  /** The position of an id's last occurrence in the mainline, counted from the oldest, or 0. */
  function PositionFromOldest(mainline: seq<string>, id: string): nat {
    if mainline == [] then 0
    else if id in mainline[1..] then PositionFromOldest(mainline[1..], id)
    else if mainline[0] == id then |mainline| else 0
  }

  /** The least non-zero position among the auth references, 0 when none is on the mainline. */
  function MainlineDepth(auth: seq<string>, mainline: seq<string>): nat {
    if auth == [] then 0 else
      var rest := MainlineDepth(auth[..|auth| - 1], mainline);
      var d := PositionFromOldest(mainline, auth[|auth| - 1]);
      if d != 0 && (rest == 0 || d < rest) then d else rest
  }

  // ---- the resolved order and its fold ----

  ghost function PowerOf(s: set<Meta>): set<Meta> { set e | e in s && e.power }
  ghost function OthersOf(s: set<Meta>): set<Meta> { set e | e in s && !e.power }

  ghost function ResolvedOrder(s: set<Meta>): (r: seq<Meta>)
    requires DistinctIds(s)
    ensures |r| == |s|
    ensures forall e :: e in r <==> e in s
  {
    var power := KahnOrder(PowerOf(s));
    var mainline := Mainline(power);
    KahnElements(PowerOf(s));
    ByMainlineTotal(OthersOf(s), mainline);
    assert s == PowerOf(s) + OthersOf(s);
    power + SortSet(ByMainline(mainline), OthersOf(s))
  }

  function IdsOf(order: seq<Meta>): (r: seq<string>)
    ensures |r| == |order|
    ensures forall i | 0 <= i < |r| :: r[i] == order[i].id
  {
    seq(|order|, i requires 0 <= i < |order| => order[i].id)
  }

  /** Later events overwrite earlier ones under the same (type, state_key). */
  function Fold(order: seq<Meta>): State {
    if order == [] then map[] else
      var e := order[|order| - 1];
      Fold(order[..|order| - 1])[e.key := e.id]
  }

  lemma {:induction false} FoldEntries(order: seq<Meta>)
    ensures forall k :: k in Fold(order) <==> exists e :: e in order && e.key == k
    ensures forall k | k in Fold(order) :: exists e :: e in order && e.key == k && e.id == Fold(order)[k]
    decreases |order|
  {
    if order != [] {
      var init, e := order[..|order| - 1], order[|order| - 1];
      FoldEntries(init);
      assert forall x :: x in order <==> x in init || x == e;
    }
  }

  ghost function Resolve(s: set<Meta>): State
    requires DistinctIds(s)
  {
    Fold(ResolvedOrder(s))
  }

  /** The result covers exactly the candidates' keys, each entry a candidate under its own key. */
  lemma ResolveEntries(s: set<Meta>)
    requires DistinctIds(s)
    ensures forall k :: k in Resolve(s) <==> exists e :: e in s && e.key == k
    ensures forall k | k in Resolve(s) :: exists e :: e in s && e.key == k && e.id == Resolve(s)[k]
  {
    FoldEntries(ResolvedOrder(s));
    forall k | k in Resolve(s)
      ensures exists e :: e in s && e.key == k && e.id == Resolve(s)[k]
    {
      var e :| e in ResolvedOrder(s) && e.key == k && e.id == Resolve(s)[k];
      assert e in s;
    }
  }

  /** Candidates drawn from a single state resolve to that state. */
  lemma ResolveOneState(s: set<Meta>, st: State)
    requires DistinctIds(s)
    requires forall e | e in s :: e.key in st && st[e.key] == e.id
    requires forall k | k in st :: exists e :: e in s && e.key == k
    ensures Resolve(s) == st
  {
    ResolveEntries(s);
    assert Resolve(s).Keys == st.Keys;
  }

  /** When two candidates claim a key, the one placed last in the resolved order wins. */
  lemma {:induction false} LastWins(order: seq<Meta>, i: nat)
    requires i < |order|
    requires forall j | i < j < |order| :: order[j].key != order[i].key
    ensures order[i].key in Fold(order) && Fold(order)[order[i].key] == order[i].id
    decreases |order|
  {
    if i < |order| - 1 {
      var init := order[..|order| - 1];
      assert forall j | 0 <= j < |init| :: init[j] == order[j];
      LastWins(init, i);
    }
  }

  ghost predicate DistinctSeq(order: seq<Meta>) {
    forall i, j | 0 <= i < j < |order| :: order[i].id != order[j].id
  }

  lemma PrependDistinct(m: Meta, rest: seq<Meta>)
    requires DistinctSeq(rest) && forall e | e in rest :: e.id != m.id
    ensures DistinctSeq([m] + rest)
  {
  }

  lemma KahnOpens(rem: set<Meta>)
    requires DistinctIds(rem) && rem != {}
    ensures DistinctIds(rem - {NextChoice(rem)})
      && KahnOrder(rem) == [NextChoice(rem)] + KahnOrder(rem - {NextChoice(rem)})
    ensures forall e | e in rem - {NextChoice(rem)} :: e.id != NextChoice(rem).id
  {
    hide NextChoice;
  }

  lemma {:induction false} KahnDistinct(rem: set<Meta>)
    requires DistinctIds(rem)
    ensures DistinctSeq(KahnOrder(rem))
    decreases |rem|
  {
    hide *;
    if rem == {} {
      KahnNone();
      NoneDistinct();
    } else {
      KahnOpens(rem);
      KahnDistinct(rem - {NextChoice(rem)});
      KahnElements(rem - {NextChoice(rem)});
      PrependDistinct(NextChoice(rem), KahnOrder(rem - {NextChoice(rem)}));
    }
  }

  lemma NoneDistinct()
    ensures DistinctSeq([])
  {
  }

  /** The key of the earlier of two events with one key does not go to the earlier one, whatever
      follows them. */
  lemma {:induction false} EarlierLoses(order: seq<Meta>, i: nat, j: nat)
    requires i < j < |order| && order[i].key == order[j].key
    requires forall k | j <= k < |order| :: order[k].id != order[i].id
    ensures order[i].key in Fold(order) && Fold(order)[order[i].key] != order[i].id
    decreases |order|
  {
    var n := |order| - 1;
    if order[n].key != order[i].key { EarlierLoses(order[..n], i, j); }
  }

  lemma PowerDistinct(s: set<Meta>)
    requires DistinctIds(s)
    ensures DistinctIds(PowerOf(s))
  {
  }

  lemma PowerFirst(s: set<Meta>)
    requires DistinctIds(s)
    ensures |KahnOrder(PowerOf(s))| <= |ResolvedOrder(s)|
      && ResolvedOrder(s)[..|KahnOrder(PowerOf(s))|] == KahnOrder(PowerOf(s))
  {
    hide KahnOrder, Mainline;
    ByMainlineTotal(OthersOf(s), Mainline(KahnOrder(PowerOf(s))));
  }

  lemma PlaceOf(s: set<Meta>, e: Meta) returns (i: nat)
    requires DistinctIds(s) && e in s && e.power
    ensures i < |KahnOrder(PowerOf(s))| && KahnOrder(PowerOf(s))[i] == e
  {
    KahnElements(PowerOf(s));
    hide KahnOrder;
    assert e in PowerOf(s);
    i :| 0 <= i < |KahnOrder(PowerOf(s))| && KahnOrder(PowerOf(s))[i] == e;
  }

  lemma SeqDistinct(order: seq<Meta>, i: nat, j: nat)
    requires DistinctSeq(order) && i < j < |order|
    ensures order[i].id != order[j].id
  {
  }

  lemma CitedFirst(order: seq<Meta>, i: nat, j: nat)
    requires Topological(order) && i < |order| && j < |order| && order[j].Cites(order[i].id)
    ensures i < j
  {
  }

  lemma OtherIds(s: set<Meta>, e: Meta, k: nat)
    requires DistinctIds(s) && e in s && e.power && |KahnOrder(PowerOf(s))| <= k < |ResolvedOrder(s)|
    ensures ResolvedOrder(s)[k].id != e.id
  {
    BehindPower(s, k);
    hide ResolvedOrder, KahnOrder;
  }

  lemma ResolveIsFold(s: set<Meta>)
    requires DistinctIds(s)
    ensures Resolve(s) == Fold(ResolvedOrder(s))
  {
    hide ResolvedOrder, Fold;
  }

  /** A power event never keeps its key against one that cites it. */
  lemma CitedLoses(s: set<Meta>, rank: map<string, nat>, e: Meta, f: Meta)
    requires DistinctIds(s) && Acyclic(PowerOf(s), rank)
    requires e in s && f in s && e.power && f.power && e.key == f.key && f.Cites(e.id)
    ensures e.key in Resolve(s) && Resolve(s)[e.key] != e.id
  {
    hide *;
    PowerDistinct(s);
    var power, order := KahnOrder(PowerOf(s)), ResolvedOrder(s);
    KahnTopological(PowerOf(s), rank);
    KahnDistinct(PowerOf(s));
    PowerFirst(s);
    var i := PlaceOf(s, e);
    var j := PlaceOf(s, f);
    CitedFirst(power, i, j);
    forall k | j <= k < |order| ensures order[k].id != e.id {
      if k < |power| {
        assert order[..|power|][k] == order[k];
        SeqDistinct(power, i, k);
      } else {
        OtherIds(s, e, k);
      }
    }
    assert order[..|power|][i] == order[i] && order[..|power|][j] == order[j];
    EarlierLoses(order, i, j);
    ResolveIsFold(s);
  }

  lemma ResolvedParts(s: set<Meta>)
    requires DistinctIds(s)
    ensures DistinctIds(PowerOf(s))
    ensures var power := KahnOrder(PowerOf(s)); var mainline := Mainline(power);
      && StrictTotal(ByMainline(mainline), OthersOf(s))
      && ResolvedOrder(s) == power + SortSet(ByMainline(mainline), OthersOf(s))
  {
    PowerDistinct(s);
    ByMainlineTotal(OthersOf(s), Mainline(KahnOrder(PowerOf(s))));
    hide KahnOrder, PowerOf, OthersOf, Mainline, SortSet, ByMainline, StrictTotal, DistinctIds;
  }

  lemma BehindPower(s: set<Meta>, k: nat)
    requires DistinctIds(s) && |KahnOrder(PowerOf(s))| <= k < |ResolvedOrder(s)|
    ensures ResolvedOrder(s)[k] in s && !ResolvedOrder(s)[k].power
  {
    hide *;
    ResolvedParts(s);
    var power := KahnOrder(PowerOf(s));
    var others := SortSet(ByMainline(Mainline(power)), OthersOf(s));
    assert ResolvedOrder(s)[k] == others[k - |power|];
    OtherIs(s, others[k - |power|]);
  }

  lemma OtherIs(s: set<Meta>, e: Meta)
    requires e in OthersOf(s)
    ensures e in s && !e.power
  {
  }

  // ---- the program ----

  /** edges[id]: the power events of the set that the event cites. */
  method BuildEdges(power: seq<Meta>) returns (edges: map<string, set<string>>)
    requires DistinctIds(Elems(power))
    requires forall i, j | 0 <= i < j < |power| :: power[i] != power[j]
    ensures forall e | e in power :: e.id in edges && EdgesOf(power, e, edges[e.id])
  {
    var ids := set e | e in power :: e.id;
    edges := map[];
    for i := 0 to |power|
      invariant forall j | 0 <= j < i :: power[j].id in edges && EdgesOf(power, power[j], edges[power[j].id])
    {
      forall j | 0 <= j < i ensures power[j].id != power[i].id {
        assert power[j] in Elems(power) && power[i] in Elems(power);
      }
      var e := power[i];
      var cited := (set r | r in e.auth && r in ids) + (set r | r in e.prev && r in ids);
      assert EdgesOf(power, e, cited);
      edges := edges[e.id := cited];
    }
  }

  ghost predicate EdgesOf(power: seq<Meta>, e: Meta, refs: set<string>) {
    && (forall f | f in power && e.Cites(f.id) :: f.id in refs)
    && (forall r | r in refs :: e.Cites(r) && exists f :: f in power && f.id == r)
  }

  lemma LeafTest(power: seq<Meta>, rem: set<Meta>, processed: set<string>, e: Meta, refs: set<string>)
    requires rem <= Elems(power) && e in power && EdgesOf(power, e, refs)
    requires forall x | x in power :: x.id in processed <==> x !in rem
    ensures e in Leaves(rem) <==> e.id !in processed && refs <= processed
  {
    if e in rem && refs <= processed {
      forall f | f in rem ensures !e.Cites(f.id) {
        assert f in power && f.id !in processed;
      }
    }
    if e in Leaves(rem) {
      forall r | r in refs ensures r in processed {
        var f :| f in power && f.id == r;
      }
    }
  }

  /** The test of one event in the loop below. */
  method IsFree(power: seq<Meta>, edges: map<string, set<string>>, processed: set<string>, ghost rem: set<Meta>,
      e: Meta)
    returns (free: bool)
    requires rem <= Elems(power) && e in power && e.id in edges && EdgesOf(power, e, edges[e.id])
    requires forall x | x in power :: x.id in processed <==> x !in rem
    ensures free <==> e in Leaves(rem)
  {
    LeafTest(power, rem, processed, e, edges[e.id]);
    return e.id !in processed && edges[e.id] <= processed;
  }

  method FreeEvents(power: seq<Meta>, edges: map<string, set<string>>, processed: set<string>, ghost rem: set<Meta>)
    returns (leaves: seq<Meta>)
    requires forall i, j | 0 <= i < j < |power| :: power[i] != power[j]
    requires rem <= Elems(power)
    requires forall e | e in power :: e.id in edges && EdgesOf(power, e, edges[e.id])
    requires forall e | e in power :: e.id in processed <==> e !in rem
    ensures forall e :: e in leaves <==> e in power && e in Leaves(rem)
    ensures Leaves(rem) <= Elems(power)
    ensures forall a, b | 0 <= a < b < |leaves| :: leaves[a] != leaves[b]
  {
    assert Leaves(rem) <= rem;
    hide Leaves, EdgesOf, Elems;
    leaves := [];
    for i := 0 to |power|
      invariant forall e :: e in leaves <==> e in power[..i] && e in Leaves(rem)
      invariant forall a, b | 0 <= a < b < |leaves| :: leaves[a] != leaves[b]
    {
      var e := power[i];
      assert e in power && e !in power[..i];
      var free := IsFree(power, edges, processed, rem, e);
      if free {
        leaves := leaves + [e];
      }
      assert forall x :: x in power[..i + 1] <==> x in power[..i] || x == e;
    }
    assert power[..|power|] == power;
  }

  /** The inner loops of orderPowerEvents: the leaves, or every unprocessed event on a cycle. */
  method CollectLeaves(power: seq<Meta>, edges: map<string, set<string>>, processed: set<string>, ghost rem: set<Meta>)
    returns (leaves: seq<Meta>)
    requires forall i, j | 0 <= i < j < |power| :: power[i] != power[j]
    requires rem <= Elems(power)
    requires forall e | e in power :: e.id in edges && EdgesOf(power, e, edges[e.id])
    requires forall e | e in power :: e.id in processed <==> e !in rem
    ensures Elems(leaves) == Choices(rem)
    ensures forall a, b | 0 <= a < b < |leaves| :: leaves[a] != leaves[b]
  {
    hide *;
    leaves := FreeEvents(power, edges, processed, rem);
    LeavesListed(leaves, power, rem);
    if |leaves| > 0 {
      return;
    }
    leaves := Unprocessed(power, processed, rem);
  }

  lemma LeavesListed(leaves: seq<Meta>, power: seq<Meta>, rem: set<Meta>)
    requires Leaves(rem) <= Elems(power) && forall e :: e in leaves <==> e in power && e in Leaves(rem)
    ensures if |leaves| > 0 then Elems(leaves) == Choices(rem) else Choices(rem) == rem
  {
    hide Leaves;
    if |leaves| > 0 {
      assert leaves[0] in Leaves(rem);
      assert Elems(leaves) == Leaves(rem);
    } else {
      assert forall e :: e in Leaves(rem) ==> e in leaves;
    }
  }

  method Unprocessed(power: seq<Meta>, processed: set<string>, ghost rem: set<Meta>) returns (left: seq<Meta>)
    requires forall i, j | 0 <= i < j < |power| :: power[i] != power[j]
    requires rem <= Elems(power)
    requires forall e | e in power :: e.id in processed <==> e !in rem
    ensures Elems(left) == rem
    ensures forall a, b | 0 <= a < b < |left| :: left[a] != left[b]
  {
    left := [];
    for i := 0 to |power|
      invariant forall e :: e in left <==> e in power[..i] && e in rem
      invariant forall a, b | 0 <= a < b < |left| :: left[a] != left[b]
    {
      var e := power[i];
      assert e in power && e !in power[..i];
      if e.id !in processed { left := left + [e]; }
      assert forall x :: x in power[..i + 1] <==> x in power[..i] || x == e;
    }
    assert power[..|power|] == power;
  }

  method NextPowerEvent(power: seq<Meta>, edges: map<string, set<string>>, processed: set<string>, ghost rem: set<Meta>)
    returns (chosen: Meta)
    requires forall i, j | 0 <= i < j < |power| :: power[i] != power[j]
    requires rem <= Elems(power) && rem != {} && DistinctIds(rem)
    requires forall e | e in power :: e.id in edges && EdgesOf(power, e, edges[e.id])
    requires forall e | e in power :: e.id in processed <==> e !in rem
    ensures chosen == NextChoice(rem)
  {
    var leaves := CollectLeaves(power, edges, processed, rem);
    ByLeafTotal(Choices(rem));
    leaves := Sort(ByLeaf(), leaves);
    chosen := leaves[0];
  }

  lemma KahnStep(power: set<Meta>, ordered: seq<Meta>, rem: set<Meta>)
    requires DistinctIds(power) && DistinctIds(rem) && rem != {}
    requires KahnOrder(power) == ordered + KahnOrder(rem)
    ensures KahnOrder(power) == ordered + [NextChoice(rem)] + KahnOrder(rem - {NextChoice(rem)})
  {
    Regroup(ordered, NextChoice(rem), KahnOrder(rem - {NextChoice(rem)}));
  }

  lemma KahnNone()
    ensures KahnOrder({}) == []
  {
  }

  method OrderPowerEvents(power: seq<Meta>) returns (ordered: seq<Meta>)
    requires DistinctIds(Elems(power))
    requires forall i, j | 0 <= i < j < |power| :: power[i] != power[j]
    ensures ordered == KahnOrder(Elems(power))
  {
    hide KahnOrder, NextChoice, EdgesOf;
    KahnNone();
    Cardinality(power);
    ghost var all := Elems(power);
    var edges := BuildEdges(power);
    var processed: set<string> := {};
    ordered := [];
    ghost var rem := all;
    while |ordered| < |power|
      invariant rem <= all && |rem| == |power| - |ordered|
      invariant forall e | e in power :: e.id in processed <==> e !in rem
      invariant KahnOrder(all) == ordered + KahnOrder(rem)
      decreases |power| - |ordered|
    {
      var chosen := NextPowerEvent(power, edges, processed, rem);
      KahnStep(all, ordered, rem);
      ordered := ordered + [chosen];
      processed := processed + {chosen.id};
      rem := rem - {chosen};
    }
  }

  lemma {:induction false} Cardinality(xs: seq<Meta>)
    requires forall i, j | 0 <= i < j < |xs| :: xs[i] != xs[j]
    ensures |Elems(xs)| == |xs|
    decreases |xs|
  {
    if xs != [] {
      var init := xs[..|xs| - 1];
      Cardinality(init);
      assert Elems(xs) == Elems(init) + {xs[|xs| - 1]};
    }
  }

  method FindHead(order: seq<Meta>) returns (head: string)
    ensures head == LastPowerLevels(order)
  {
    head := "";
    var i := |order| - 1;
    assert order[..|order|] == order;
    while i >= 0
      invariant -1 <= i < |order|
      invariant LastPowerLevels(order) == LastPowerLevels(order[..i + 1])
      decreases i
    {
      if order[i].IsPowerLevels() {
        assert order[..i + 1][i] == order[i];
        return order[i].id;
      }
      assert order[..i + 1][..i] == order[..i];
      i := i - 1;
    }
  }

  method NextOnMainline(order: seq<Meta>, auth: seq<string>) returns (next: string)
    ensures next == FirstPowerLevels(order, auth)
  {
    for k := 0 to |auth|
      invariant FirstPowerLevels(order, auth) == FirstPowerLevels(order, auth[k..])
    {
      var a := Find(order, auth[k]);
      assert auth[k..][1..] == auth[k + 1..];
      if a != [] && a[0].IsPowerLevels() {
        return auth[k];
      }
    }
    return "";
  }

  method BuildMainline(order: seq<Meta>) returns (chain: seq<string>)
    ensures chain == Mainline(order)
  {
    var cur := FindHead(order);
    ghost var ids := set e | e in order :: e.id;
    chain := [];
    var seen: set<string> := {};
    while cur != "" && cur !in seen
      invariant chain + Chain(order, cur, seen) == Mainline(order)
      decreases ids - seen
    {
      var f := Find(order, cur);
      if f == [] {
        return chain + [cur];
      }
      assert f[0] in order && cur in ids;
      var next := NextOnMainline(order, f[0].auth);
      Regroup(chain, cur, Chain(order, next, seen + {cur}));
      chain, seen, cur := chain + [cur], seen + {cur}, next;
    }
  }

  /** The last occurrence of id among the first n ids of the mainline. */
  ghost predicate LastAt(mainline: seq<string>, n: nat, id: string, j: int) {
    0 <= j < n <= |mainline| && mainline[j] == id && forall k | j < k < n :: mainline[k] != id
  }

  lemma {:induction false} PositionOfLast(mainline: seq<string>, id: string, j: int)
    requires LastAt(mainline, |mainline|, id, j)
    ensures PositionFromOldest(mainline, id) == |mainline| - j
    decreases j
  {
    if j > 0 {
      assert mainline[1..][j - 1] == id;
      PositionOfLast(mainline[1..], id, j - 1);
    } else {
      assert forall x | x in mainline[1..] :: exists k :: 0 < k < |mainline| && mainline[k] == x;
    }
  }

  lemma {:induction false} PositionOfNone(mainline: seq<string>, id: string)
    requires id !in mainline
    ensures PositionFromOldest(mainline, id) == 0
    decreases |mainline|
  {
    if mainline != [] { PositionOfNone(mainline[1..], id); }
  }

  /** mainlineDepth's map: the newest mainline event stands highest, a repeated id at its last place. */
  method IndexMainline(mainline: seq<string>) returns (index: map<string, nat>)
    ensures forall id :: id in index <==> id in mainline
    ensures forall id | id in index :: index[id] == PositionFromOldest(mainline, id) > 0
  {
    index := map[];
    for i := 0 to |mainline|
      invariant forall id :: id in index <==> id in mainline[..i]
      invariant forall id | id in index :: exists j :: LastAt(mainline, i, id, j) && index[id] == |mainline| - j
    {
      ghost var was, n := index, i + 1;
      index := index[mainline[i] := |mainline| - i];
      forall id | id in index ensures exists j :: LastAt(mainline, n, id, j) && index[id] == |mainline| - j {
        if id == mainline[i] {
          assert LastAt(mainline, n, id, i);
        } else {
          var j :| LastAt(mainline, i, id, j) && was[id] == |mainline| - j;
          assert LastAt(mainline, n, id, j);
        }
      }
    }
    assert mainline[..|mainline|] == mainline;
    forall id | id in index ensures index[id] == PositionFromOldest(mainline, id) > 0 {
      var j :| LastAt(mainline, |mainline|, id, j) && index[id] == |mainline| - j;
      PositionOfLast(mainline, id, j);
    }
  }

  method ClosestOnMainline(auth: seq<string>, mainline: seq<string>) returns (best: nat)
    ensures best == MainlineDepth(auth, mainline)
  {
    var index := IndexMainline(mainline);
    best := 0;
    for i := 0 to |auth|
      invariant best == MainlineDepth(auth[..i], mainline)
    {
      assert auth[..i + 1][..i] == auth[..i];
      if auth[i] !in mainline { PositionOfNone(mainline, auth[i]); }
      if auth[i] in index && (best == 0 || index[auth[i]] < best) {
        best := index[auth[i]];
      }
    }
    assert auth[..|auth|] == auth;
  }

  /** ResolveV2: whatever order the candidates are read in, the resolved order is a function of
      the set of candidates alone. */
  method ResolveV2(candidates: seq<Meta>) returns (out: seq<string>)
    requires DistinctIds(Elems(candidates))
    requires forall i, j | 0 <= i < j < |candidates| :: candidates[i] != candidates[j]
    ensures out == IdsOf(ResolvedOrder(Elems(candidates)))
  {
    var power, other := [], [];
    for i := 0 to |candidates|
      invariant forall e :: e in power <==> e in candidates[..i] && e.power
      invariant forall e :: e in other <==> e in candidates[..i] && !e.power
      invariant forall a, b | 0 <= a < b < |power| :: power[a] != power[b]
      invariant forall a, b | 0 <= a < b < |other| :: other[a] != other[b]
    {
      var e := candidates[i];
      assert e !in candidates[..i];
      assert forall x :: x in candidates[..i + 1] <==> x in candidates[..i] || x == e;
      if e.power { power := power + [e]; } else { other := other + [e]; }
    }
    assert candidates[..|candidates|] == candidates;
    assert Elems(power) == PowerOf(Elems(candidates));
    assert Elems(other) == OthersOf(Elems(candidates));
    var orderedPower := OrderPowerEvents(power);
    var mainline := BuildMainline(orderedPower);
    ByMainlineTotal(Elems(other), mainline);
    other := Sort(ByMainline(mainline), other);
    out := IdsOf(orderedPower + other);
  }
}
