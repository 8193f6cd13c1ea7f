/** The order state resolution gives its candidates, told from what the events hold: levels, timestamps,
    depths, ids, and positions on the mainline (internal/stateres/stateres.go). */
module StateResOrder {
  import opened Sorting
  import opened Lexical
  import opened StateRes

  // ---- the mainline ----

  /** p is the oldest place of the mainline, newest first, that the references name. */
  ghost predicate OldestCited(auth: seq<string>, mainline: seq<string>, p: int) {
    0 <= p < |mainline| && mainline[p] in auth && forall q | p < q < |mainline| :: mainline[q] !in auth
  }

  ghost predicate CitesNone(auth: seq<string>, mainline: seq<string>) {
    forall q | 0 <= q < |mainline| :: mainline[q] !in auth
  }

  lemma {:induction false} PositionIs(mainline: seq<string>, id: string, p: nat)
    requires p < |mainline| && mainline[p] == id && forall q | p < q < |mainline| :: mainline[q] != id
    ensures PositionFromOldest(mainline, id) == |mainline| - p
    decreases |mainline|
  {
    if p > 0 {
      assert mainline[1..][p - 1] == id;
      PositionIs(mainline[1..], id, p - 1);
    } else {
      assert forall x | x in mainline[1..] :: x != id;
    }
  }

  lemma {:induction false} PositionNone(mainline: seq<string>, id: string)
    requires id !in mainline
    ensures PositionFromOldest(mainline, id) == 0
    decreases |mainline|
  {
    if mainline != [] { PositionNone(mainline[1..], id); }
  }

  lemma {:induction false} LastPlace(mainline: seq<string>, id: string) returns (p: nat)
    requires id in mainline
    ensures p < |mainline| && mainline[p] == id && forall q | p < q < |mainline| :: mainline[q] != id
    decreases |mainline|
  {
    p := |mainline| - 1;
    if mainline[p] != id {
      p := LastPlace(mainline[..p], id);
      assert forall q | 0 <= q < |mainline| - 1 :: mainline[..|mainline| - 1][q] == mainline[q];
    }
  }

  /** The depth is the least position of a reference, 0 without one. */
  lemma {:induction false} DepthIsLeast(auth: seq<string>, mainline: seq<string>)
    ensures var d := MainlineDepth(auth, mainline);
      && (d == 0 <==> forall r | r in auth :: r !in mainline)
      && (forall r | r in auth && r in mainline :: 0 < d <= PositionFromOldest(mainline, r))
      && (d > 0 ==> exists r :: r in auth && r in mainline && PositionFromOldest(mainline, r) == d)
    decreases |auth|
  {
    if auth != [] {
      var init, last := auth[..|auth| - 1], auth[|auth| - 1];
      DepthIsLeast(init, mainline);
      assert forall r :: r in auth <==> r in init || r == last;
      if last in mainline {
        var p := LastPlace(mainline, last);
        PositionIs(mainline, last, p);
      } else {
        PositionNone(mainline, last);
      }
      hide PositionFromOldest;
    }
  }

  lemma DepthIs(auth: seq<string>, mainline: seq<string>, p: int)
    requires OldestCited(auth, mainline, p)
    ensures MainlineDepth(auth, mainline) == |mainline| - p
  {
    hide MainlineDepth, PositionFromOldest;
    DepthIsLeast(auth, mainline);
    assert mainline[p] in mainline;
    PositionIs(mainline, mainline[p], p);
    var r :| r in auth && r in mainline && PositionFromOldest(mainline, r) == MainlineDepth(auth, mainline);
    var q := LastPlace(mainline, r);
    PositionIs(mainline, r, q);
  }

  lemma DepthNone(auth: seq<string>, mainline: seq<string>)
    requires CitesNone(auth, mainline)
    ensures MainlineDepth(auth, mainline) == 0
  {
    DepthIsLeast(auth, mainline);
    forall r | r in auth ensures r !in mainline {}
    hide MainlineDepth, PositionFromOldest;
  }

  lemma SomeCited(auth: seq<string>, mainline: seq<string>) returns (p: int)
    ensures CitesNone(auth, mainline) || OldestCited(auth, mainline, p)
  {
    p := |mainline| - 1;
    while p >= 0 && mainline[p] !in auth
      invariant -1 <= p < |mainline| && forall q | p < q < |mainline| :: mainline[q] !in auth
    {
      p := p - 1;
    }
  }

  /** The id is that of a power_levels event among these. */
  ghost predicate LevelsIn(order: seq<Meta>, id: string) {
    exists e :: e in order && e.id == id && e.key.typ == "m.room.power_levels"
  }

  /** next is the first power_levels event among these that the event `id` cites as an auth event. */
  ghost predicate Follows(order: seq<Meta>, id: string, next: string) {
    exists e, a :: FirstLevels(order, e, a) && e.id == id && e.auth[a] == next
  }

  ghost predicate FirstLevels(order: seq<Meta>, e: Meta, a: int) {
    e in order && 0 <= a < |e.auth| && LevelsIn(order, e.auth[a])
    && forall b | 0 <= b < a :: !LevelsIn(order, e.auth[b])
  }

  /** The event cites no power_levels event among these. */
  ghost predicate CitesNoLevels(order: seq<Meta>, id: string) {
    exists e :: e in order && e.id == id && forall r | r in e.auth :: !LevelsIn(order, r)
  }

  ghost predicate IdsApart(order: seq<Meta>) {
    forall e, f | e in order && f in order && e.id == f.id :: e == f
  }

  lemma FoundIsLevels(order: seq<Meta>, id: string)
    requires IdsApart(order)
    ensures Find(order, id) != [] && Find(order, id)[0].IsPowerLevels() <==> LevelsIn(order, id)
  {
    hide Find;
    if Find(order, id) != [] { assert Find(order, id)[0] in order; }
  }

  lemma {:induction false} FirstRef(order: seq<Meta>, auth: seq<string>) returns (a: int)
    requires IdsApart(order)
    ensures (forall r | r in auth :: !LevelsIn(order, r)) ==> FirstPowerLevels(order, auth) == ""
    ensures (exists r :: r in auth && LevelsIn(order, r)) ==>
      && 0 <= a < |auth| && LevelsIn(order, auth[a]) && FirstPowerLevels(order, auth) == auth[a]
      && forall b | 0 <= b < a :: !LevelsIn(order, auth[b])
    decreases |auth|
  {
    a := 0;
    if auth != [] {
      FoundIsLevels(order, auth[0]);
      hide Find, LevelsIn;
      if !LevelsIn(order, auth[0]) {
        a := FirstRef(order, auth[1..]);
        a := a + 1;
        assert forall r | r in auth :: r == auth[0] || r in auth[1..];
      }
    }
  }

  /** A chain: no repeats, each the first power_levels event the one before cites, and at the end none is
      cited or the cited one is empty or stands in the chain already. */
  ghost predicate IsChain(order: seq<Meta>, chain: seq<string>, seen: set<string>) {
    && (forall i, j | 0 <= i < j < |chain| :: chain[i] != chain[j])
    && (forall i | 0 <= i < |chain| :: chain[i] !in seen && chain[i] != "" && LevelsIn(order, chain[i]))
    && (forall i | 0 <= i < |chain| - 1 :: Follows(order, chain[i], chain[i + 1]))
    && (chain != [] ==> EndsAt(order, chain, seen))
  }

  ghost predicate EndsAt(order: seq<Meta>, chain: seq<string>, seen: set<string>)
    requires chain != []
  {
    var last := chain[|chain| - 1];
    || CitesNoLevels(order, last)
    || exists next :: Follows(order, last, next) && (next == "" || next in seen || next in chain)
  }

  lemma NextLevels(order: seq<Meta>, cur: string) returns (next: string)
    requires IdsApart(order) && LevelsIn(order, cur)
    ensures Find(order, cur) != [] && next == FirstPowerLevels(order, Find(order, cur)[0].auth)
    ensures (next == "" && CitesNoLevels(order, cur)) || (Follows(order, cur, next) && LevelsIn(order, next))
  {
    FoundIsLevels(order, cur);
    var e := Find(order, cur)[0];
    var a := FirstRef(order, e.auth);
    next := FirstPowerLevels(order, e.auth);
    hide Find, FirstPowerLevels, LevelsIn;
    if exists r :: r in e.auth && LevelsIn(order, r) {
      assert FirstLevels(order, e, a);
    }
  }

  lemma ChainStep(order: seq<Meta>, cur: string, next: string, seen: set<string>, rest: seq<string>)
    requires cur != "" && cur !in seen && LevelsIn(order, cur) && IsChain(order, rest, seen + {cur})
    requires (next == "" && CitesNoLevels(order, cur)) || Follows(order, cur, next)
    requires if next == "" || next in seen + {cur} then rest == [] else rest != [] && rest[0] == next
    ensures IsChain(order, [cur] + rest, seen)
  {
    var chain := [cur] + rest;
    hide LevelsIn, Follows, CitesNoLevels;
    forall i, j | 0 <= i < j < |chain| ensures chain[i] != chain[j] {
      assert chain[j] == rest[j - 1];
      if i > 0 { assert chain[i] == rest[i - 1]; }
    }
    forall i | 0 <= i < |chain| ensures chain[i] !in seen && chain[i] != "" && LevelsIn(order, chain[i]) {
      if i > 0 { assert chain[i] == rest[i - 1]; }
    }
    forall i | 0 <= i < |chain| - 1 ensures Follows(order, chain[i], chain[i + 1]) {
      assert chain[i + 1] == rest[i];
      if i > 0 { assert chain[i] == rest[i - 1]; }
    }
    if rest != [] {
      assert chain[|chain| - 1] == rest[|rest| - 1];
      assert forall x | x in rest :: x in chain;
      assert cur in chain;
    } else {
      assert chain == [cur];
    }
  }

  lemma {:induction false} ChainIs(order: seq<Meta>, cur: string, seen: set<string>)
    requires IdsApart(order) && (cur == "" || LevelsIn(order, cur))
    ensures var c := Chain(order, cur, seen);
      IsChain(order, c, seen) && if cur == "" || cur in seen then c == [] else c != [] && c[0] == cur
    decreases (set e | e in order :: e.id) - seen
  {
    if cur != "" && cur !in seen {
      assert cur in (set e | e in order :: e.id);
      var next := NextLevels(order, cur);
      ChainIs(order, next, seen + {cur});
      ChainOpens(order, cur, next, seen);
      hide *;
      ChainStep(order, cur, next, seen, Chain(order, next, seen + {cur}));
    } else {
      NoChain(order, cur, seen);
    }
  }

  lemma ChainOpens(order: seq<Meta>, cur: string, next: string, seen: set<string>)
    requires cur != "" && cur !in seen && Find(order, cur) != []
    requires next == FirstPowerLevels(order, Find(order, cur)[0].auth)
    ensures Chain(order, cur, seen) == [cur] + Chain(order, next, seen + {cur})
  {
    hide Find, FirstPowerLevels;
  }

  lemma NoChain(order: seq<Meta>, cur: string, seen: set<string>)
    requires cur == "" || cur in seen
    ensures Chain(order, cur, seen) == [] && IsChain(order, [], seen)
  {
  }

  /** i is the last place of a power_levels event. */
  ghost predicate LastLevels(order: seq<Meta>, i: int) {
    0 <= i < |order| && order[i].key.typ == "m.room.power_levels"
    && forall j | i < j < |order| :: order[j].key.typ != "m.room.power_levels"
  }

  lemma {:induction false} NewestIs(order: seq<Meta>) returns (i: int)
    ensures (forall e | e in order :: e.key.typ != "m.room.power_levels") ==> LastPowerLevels(order) == ""
    ensures (exists e :: e in order && e.key.typ == "m.room.power_levels") ==>
      LastLevels(order, i) && LastPowerLevels(order) == order[i].id
    decreases |order|
  {
    i := |order| - 1;
    if order != [] && order[i].key.typ != "m.room.power_levels" {
      var init := order[..i];
      assert forall e | e in order :: e in init || e == order[|order| - 1];
      i := NewestIs(init);
      assert forall j | 0 <= j < |init| :: init[j] == order[j];
    }
  }

  /** The mainline starts at the power_levels event placed last, follows the power_levels events its
      members cite, and ends where that stops or repeats; without any there is none. */
  lemma MainlineExactly(order: seq<Meta>) returns (head: int)
    requires IdsApart(order)
    ensures IsChain(order, Mainline(order), {})
    ensures (forall e | e in order :: e.key.typ != "m.room.power_levels") ==> Mainline(order) == []
    ensures (exists e :: e in order && e.key.typ == "m.room.power_levels") ==>
      && LastLevels(order, head)
      && (order[head].id != "" ==> Mainline(order) != [] && Mainline(order)[0] == order[head].id)
  {
    head := NewestIs(order);
    if exists e :: e in order && e.key.typ == "m.room.power_levels" {
      assert order[head] in order;
    }
    hide LastPowerLevels, IsChain, Chain;
    ChainIs(order, LastPowerLevels(order), {});
  }

  // ---- the events that are no power events ----

  /** An event that cites no mainline event comes first, then the nearer the oldest cited one stands to the
      head the later; ties go by depth, then timestamp, then the bytes of the id. */
  ghost predicate Earlier(a: Meta, b: Meta, mainline: seq<string>) {
    || (CitesNone(a.auth, mainline) && !CitesNone(b.auth, mainline))
    || (exists p, q :: OldestCited(a.auth, mainline, p) && OldestCited(b.auth, mainline, q) && p > q)
    || (SamePlace(a, b, mainline)
        && (a.depth < b.depth || (a.depth == b.depth
            && (a.ts < b.ts || (a.ts == b.ts && Less(a.id, b.id))))))
  }

  ghost predicate SamePlace(a: Meta, b: Meta, mainline: seq<string>) {
    || (CitesNone(a.auth, mainline) && CitesNone(b.auth, mainline))
    || exists p :: OldestCited(a.auth, mainline, p) && OldestCited(b.auth, mainline, p)
  }

  lemma OneOldest(auth: seq<string>, mainline: seq<string>)
    ensures forall p, q | OldestCited(auth, mainline, p) && OldestCited(auth, mainline, q) :: p == q
    ensures forall p | OldestCited(auth, mainline, p) :: !CitesNone(auth, mainline)
  {
  }

  lemma LessIsEarlier(a: Meta, b: Meta, mainline: seq<string>)
    ensures MainlineLess(a, b, mainline) <==> Earlier(a, b, mainline)
  {
    var p := SomeCited(a.auth, mainline);
    var q := SomeCited(b.auth, mainline);
    if CitesNone(a.auth, mainline) { DepthNone(a.auth, mainline); } else { DepthIs(a.auth, mainline, p); }
    if CitesNone(b.auth, mainline) { DepthNone(b.auth, mainline); } else { DepthIs(b.auth, mainline, q); }
    OneOldest(a.auth, mainline);
    OneOldest(b.auth, mainline);
    hide MainlineDepth, OldestCited, CitesNone, Less;
    assert !CitesNone(a.auth, mainline) ==> OldestCited(a.auth, mainline, p);
    assert !CitesNone(b.auth, mainline) ==> OldestCited(b.auth, mainline, q);
  }

  // ---- the whole order ----

  /** The mainline of the candidates. */
  ghost function MainlineOf(s: set<Meta>): seq<string>
    requires DistinctIds(s)
  {
    PowerDistinct(s);
    Mainline(KahnOrder(set e | e in s && e.power))
  }

  lemma OrderParts(s: set<Meta>) returns (power: seq<Meta>, others: seq<Meta>)
    requires DistinctIds(s)
    ensures DistinctIds(PowerOf(s)) && power == KahnOrder(PowerOf(s)) && MainlineOf(s) == Mainline(power)
    ensures ResolvedOrder(s) == power + others
    ensures forall e :: e in power <==> e in s && e.power
    ensures forall e :: e in others <==> e in s && !e.power
    ensures forall i, j | 0 <= i < j < |others| :: MainlineLess(others[i], others[j], MainlineOf(s))
  {
    PowerDistinct(s);
    KahnElements(PowerOf(s));
    power := KahnOrder(PowerOf(s));
    var mainline := Mainline(power);
    ByMainlineTotal(OthersOf(s), mainline);
    others := SortSet(ByMainline(mainline), OthersOf(s));
    SortSetAscending(ByMainline(mainline), OthersOf(s));
    assert PowerOf(s) == set e | e in s && e.power;
    hide KahnOrder, Mainline, SortSet, MainlineLess;
  }

  lemma OthersAscend(s: set<Meta>, i: nat, j: nat)
    requires DistinctIds(s) && i < j < |ResolvedOrder(s)| && !ResolvedOrder(s)[i].power
    ensures !ResolvedOrder(s)[j].power && Earlier(ResolvedOrder(s)[i], ResolvedOrder(s)[j], MainlineOf(s))
  {
    hide *;
    var power, others := OrderParts(s);
    var order, n := ResolvedOrder(s), |power|;
    forall k | 0 <= k < n ensures order[k].power { assert order[k] == power[k] && power[k] in power; }
    assert order[i] == others[i - n] && order[j] == others[j - n] && others[j - n] in others;
    LessIsEarlier(order[i], order[j], MainlineOf(s));
  }

  /** Of two candidates that are no power events the earlier one comes first, and any power event comes
      before either. */
  lemma OthersOrdered(s: set<Meta>, i: nat, j: nat)
    requires DistinctIds(s) && i < |ResolvedOrder(s)| && j < |ResolvedOrder(s)| && i != j
    requires !ResolvedOrder(s)[j].power
    ensures i < j <==>
      ResolvedOrder(s)[i].power || Earlier(ResolvedOrder(s)[i], ResolvedOrder(s)[j], MainlineOf(s))
  {
    hide *;
    var a, b := ResolvedOrder(s)[i], ResolvedOrder(s)[j];
    if i > j {
      OthersAscend(s, j, i);
      NotBothEarlier(b, a, MainlineOf(s));
    } else if !a.power {
      OthersAscend(s, i, j);
    }
  }

  lemma NotBothEarlier(a: Meta, b: Meta, mainline: seq<string>)
    requires Earlier(a, b, mainline)
    ensures !Earlier(b, a, mainline)
  {
    LessIsEarlier(a, b, mainline);
    LessIsEarlier(b, a, mainline);
    if Earlier(b, a, mainline) {
      hide Earlier, MainlineDepth, Less;
      if Less(a.id, b.id) && Less(b.id, a.id) {
        Transitive(a.id, b.id, a.id);
        Irreflexive(a.id);
      }
    }
  }

  // ---- the power events ----

  /** e cites none of the events placed from k on, as an auth event or a previous one. */
  ghost predicate FreeAt(order: seq<Meta>, k: int, e: Meta) {
    forall m | k <= m < |order| && 0 <= m :: order[m].id !in e.auth && order[m].id !in e.prev
  }

  /** The higher level first, then the earlier timestamp, then the smaller id. */
  predicate Stronger(a: Meta, b: Meta) {
    || a.level > b.level
    || (a.level == b.level && (a.ts < b.ts || (a.ts == b.ts && Less(a.id, b.id))))
  }

  /** Each place goes to the strongest of the events that are free by then; where none is, on a cycle, to
      the strongest of all that are left. */
  ghost predicate WellPlaced(order: seq<Meta>, k: nat)
    requires k < |order|
  {
    && (FreeAt(order, k, order[k]) || forall m | k <= m < |order| :: !FreeAt(order, k, order[m]))
    && forall m | k < m < |order| && (FreeAt(order, k, order[m]) || !FreeAt(order, k, order[k])) ::
         Stronger(order[k], order[m])
  }

  lemma LeavesAre(rem: set<Meta>, order: seq<Meta>)
    requires forall e :: e in order <==> e in rem
    ensures forall e | e in rem :: e in Leaves(rem) <==> FreeAt(order, 0, e)
  {
    forall e | e in rem ensures e in Leaves(rem) <==> FreeAt(order, 0, e) {
      if FreeAt(order, 0, e) {
        forall f | f in rem ensures !e.Cites(f.id) { assert f in order; }
      }
    }
  }

  lemma LeafIsStronger(a: Meta, b: Meta)
    requires a.id != b.id
    ensures LeafLess(a, b) <==> Stronger(a, b)
  {
    hide Less;
  }

  /** The event placed first is the strongest choice. */
  lemma ChosenFirst(rem: set<Meta>)
    requires DistinctIds(rem) && rem != {}
    ensures |KahnOrder(rem)| > 0 && KahnOrder(rem)[0] in Choices(rem)
    ensures forall e | e in Choices(rem) && e != KahnOrder(rem)[0] :: LeafLess(KahnOrder(rem)[0], e)
  {
    ByLeafTotal(Choices(rem));
    var less := ByLeaf();
    var m := NextChoice(rem);
    assert m == Least(less, Choices(rem)) && KahnOrder(rem)[0] == m;
    hide Choices, LeafLess, KahnOrder, NextChoice;
    forall e | e in Choices(rem) && e != m ensures LeafLess(m, e) { assert less(m, e); }
  }

  lemma ChoicesAre(rem: set<Meta>, order: seq<Meta>, e: Meta)
    requires (forall x :: x in order <==> x in rem) && e in rem
    ensures e in Choices(rem) <==>
      FreeAt(order, 0, e) || forall m | 0 <= m < |order| :: !FreeAt(order, 0, order[m])
  {
    LeavesAre(rem, order);
    hide Leaves, FreeAt;
    if Leaves(rem) == {} {
      forall m | 0 <= m < |order| ensures !FreeAt(order, 0, order[m]) { assert order[m] in order; }
    } else {
      var f :| f in Leaves(rem);
      assert f in rem by { LeafIn(rem, f); }
      var m :| 0 <= m < |order| && order[m] == f;
    }
  }

  lemma LeafIn(rem: set<Meta>, f: Meta)
    requires f in Leaves(rem)
    ensures f in rem
  {
  }

  /** The choice, in terms of its place. */
  lemma FirstPlaced(rem: set<Meta>)
    requires DistinctIds(rem) && rem != {}
    ensures |KahnOrder(rem)| > 0 && WellPlaced(KahnOrder(rem), 0)
  {
    hide *;
    var order := KahnOrder(rem);
    KahnElements(rem);
    KahnDistinct(rem);
    ChosenFirst(rem);
    assert order[0] in order;
    ChoicesAre(rem, order, order[0]);
    forall k | 0 < k < |order| && (FreeAt(order, 0, order[k]) || !FreeAt(order, 0, order[0]))
      ensures Stronger(order[0], order[k])
    {
      assert order[k] in order;
      DistinctPlaces(order, 0, k);
      ChoicesAre(rem, order, order[k]);
      LeafIsStronger(order[0], order[k]);
    }
    PlacedFirst(order);
  }

  lemma PlacedFirst(order: seq<Meta>)
    requires order != []
    requires FreeAt(order, 0, order[0]) || forall m | 0 <= m < |order| :: !FreeAt(order, 0, order[m])
    requires forall k | 0 < k < |order| && (FreeAt(order, 0, order[k]) || !FreeAt(order, 0, order[0])) ::
      Stronger(order[0], order[k])
    ensures WellPlaced(order, 0)
  {
    hide FreeAt, Stronger;
  }

  lemma ShiftFree(m: Meta, rest: seq<Meta>, k: nat, e: Meta)
    ensures FreeAt([m] + rest, k + 1, e) <==> FreeAt(rest, k, e)
  {
    var all := [m] + rest;
    forall i | 0 <= i < |rest| ensures all[i + 1] == rest[i] {}
    if FreeAt(all, k + 1, e) {
      forall i | k <= i < |rest| ensures rest[i].id !in e.auth && rest[i].id !in e.prev {
        assert all[i + 1] == rest[i];
      }
    }
  }

  lemma ShiftPlaced(m: Meta, rest: seq<Meta>, k: nat)
    requires k < |rest| && WellPlaced(rest, k)
    ensures WellPlaced([m] + rest, k + 1)
  {
    var all := [m] + rest;
    hide FreeAt, Stronger;
    ShiftFree(m, rest, k, rest[k]);
    assert all[k + 1] == rest[k];
    if !FreeAt(all, k + 1, all[k + 1]) {
      forall i | k + 1 <= i < |all| ensures !FreeAt(all, k + 1, all[i]) {
        assert all[i] == rest[i - 1];
        ShiftFree(m, rest, k, rest[i - 1]);
      }
    }
    forall i | k + 1 < i < |all| && (FreeAt(all, k + 1, all[i]) || !FreeAt(all, k + 1, all[k + 1]))
      ensures Stronger(all[k + 1], all[i])
    {
      assert all[i] == rest[i - 1];
      ShiftFree(m, rest, k, rest[i - 1]);
    }
  }

  /** The power events stand exactly so, at every place. */
  lemma {:induction false} PowerPlaced(rem: set<Meta>, k: nat)
    requires DistinctIds(rem) && k < |KahnOrder(rem)|
    ensures WellPlaced(KahnOrder(rem), k)
    decreases |rem|
  {
    hide *;
    if k == 0 {
      NotEmptied(rem);
      FirstPlaced(rem);
    } else {
      NotEmptied(rem);
      KahnOpens(rem);
      var m := NextChoice(rem);
      PowerPlaced(rem - {m}, k - 1);
      ShiftPlaced(m, KahnOrder(rem - {m}), k - 1);
    }
  }

  lemma NotEmptied(rem: set<Meta>)
    requires DistinctIds(rem) && |KahnOrder(rem)| > 0
    ensures rem != {}
  {
  }

  // ---- who gets a key ----

  /** The key goes to e exactly when no candidate with that key comes behind it. */
  lemma WinnerExactly(s: set<Meta>, i: nat)
    requires DistinctIds(s) && i < |ResolvedOrder(s)|
    ensures var order := ResolvedOrder(s); var e := order[i];
      e.key in Resolve(s)
      && (Resolve(s)[e.key] == e.id <==> forall j | i < j < |order| :: order[j].key != e.key)
  {
    hide *;
    var order := ResolvedOrder(s);
    ResolveIsFold(s);
    var k := LastOfKey(order, i);
    LastWins(order, k);
    OrderDistinct(s);
    if k != i { DistinctPlaces(order, i, k); }
  }

  lemma LastOfKey(order: seq<Meta>, i: nat) returns (k: nat)
    requires i < |order|
    ensures i <= k < |order| && order[k].key == order[i].key
    ensures forall j | k < j < |order| :: order[j].key != order[i].key
  {
    k := |order| - 1;
    while order[k].key != order[i].key
      invariant i <= k < |order| && forall j | k < j < |order| :: order[j].key != order[i].key
      decreases k
    {
      k := k - 1;
    }
  }

  lemma OrderDistinct(s: set<Meta>)
    requires DistinctIds(s)
    ensures DistinctSeq(ResolvedOrder(s))
  {
    var order := ResolvedOrder(s);
    forall i, j | 0 <= i < j < |order| ensures order[i].id != order[j].id {
      assert order[i] in s && order[j] in s;
      if order[i] == order[j] { TwiceTooShort(order, s, i, j); }
    }
  }

  lemma TwiceTooShort(order: seq<Meta>, s: set<Meta>, i: nat, j: nat)
    requires |order| == |s| && (forall e :: e in order <==> e in s) && i < j < |order|
    ensures order[i] != order[j]
  {
    if order[i] == order[j] {
      var less := order[..j] + order[j + 1..];
      forall e | e in s ensures e in less {
        var k :| 0 <= k < |order| && order[k] == e;
        if k < j { assert less[k] == e; } else if k > j { assert less[k - 1] == e; } else { assert less[i] == e; }
      }
      FewElems(less, s);
    }
  }

  lemma {:induction false} FewElems(xs: seq<Meta>, s: set<Meta>)
    requires forall e | e in s :: e in xs
    ensures |s| <= |xs|
    decreases |xs|
  {
    if xs == [] {
      assert s == {};
    } else {
      FewElems(xs[1..], s - {xs[0]});
    }
  }

  lemma DistinctPlaces(order: seq<Meta>, i: nat, j: nat)
    requires DistinctSeq(order) && i < j < |order|
    ensures order[i].id != order[j].id
  {
  }

  /** So of two events alone on a key, neither a power event, the one nearer the head of the mainline gets
      it, and on one place the deeper, the younger, or the one with the greater id. */
  lemma LaterGetsKey(s: set<Meta>, a: Meta, b: Meta)
    requires DistinctIds(s) && a in s && b in s && a != b && !a.power && !b.power && a.key == b.key
    requires forall e | e in s && e.key == a.key :: e == a || e == b
    ensures a.key in Resolve(s)
    ensures Resolve(s)[a.key] == (if Earlier(a, b, MainlineOf(s)) then b.id else a.id)
  {
    hide *;
    var order := ResolvedOrder(s);
    InOrder(s, a);
    InOrder(s, b);
    var i: nat :| i < |order| && order[i] == a;
    var j: nat :| j < |order| && order[j] == b;
    OthersOrdered(s, i, j);
    WinnerExactly(s, i);
    WinnerExactly(s, j);
    OrderDistinct(s);
    forall k | 0 <= k < |order| && order[k].key == a.key ensures k == i || k == j {
      OutOfOrder(s, k);
      if k < i { DistinctPlaces(order, k, i); } else if i < k { DistinctPlaces(order, i, k); }
      if k < j { DistinctPlaces(order, k, j); } else if j < k { DistinctPlaces(order, j, k); }
    }
  }

  lemma InOrder(s: set<Meta>, e: Meta)
    requires DistinctIds(s) && e in s
    ensures e in ResolvedOrder(s)
  {
  }

  lemma OutOfOrder(s: set<Meta>, k: nat)
    requires DistinctIds(s) && k < |ResolvedOrder(s)|
    ensures ResolvedOrder(s)[k] in s
  {
    assert ResolvedOrder(s)[k] in ResolvedOrder(s);
  }
}
