/** Retrying on missing parents: repeating the deliveries settles every event that can be decided. */
module StateDagRetry {
  import opened Wrappers
  import opened Sorting
  import opened StateRes
  import opened StateDag
  import opened StateDagInvariant
  import opened StateDagConvergence

  /** The whole list delivered n times over. */
  function Rounds(d: seq<Event>, n: nat): seq<Event> {
    if n == 0 then [] else Rounds(d, n - 1) + d
  }

  ghost function Ids(d: seq<Event>): set<string> {
    set e | e in d :: e.id
  }

  lemma {:induction false} RunAppend(env: Env, s: Store, a: seq<Event>, b: seq<Event>)
    ensures Run(env, s, a + b) == Run(env, Run(env, s, a), b)
    decreases |b|
  {
    if b == [] {
      assert a + b == a;
    } else {
      var init := b[..|b| - 1];
      assert (a + b)[..|a + b| - 1] == a + init;
      RunAppend(env, s, a, init);
    }
  }

  lemma AcceptStores(env: Env, s: Store, ev: Event)
    ensures AcceptEvent(env, s, ev).rows == Persist(s, ev).rows
  {
    hide StateBefore, StateAfter, Selected, Selection, WithOwnTuple, AdvancedHeads, HeadIds, HeadList;
  }

  lemma RejectStores(s: Store, ev: Event)
    ensures RejectEvent(s, ev).rows == Persist(s, ev).rows
  {
  }

  lemma PersistStores(s: Store, ev: Event)
    ensures Persist(s, ev).rows.Keys == s.rows.Keys + {ev.id}
  {
  }

  /** A delivery changes nothing, or stores the event. */
  lemma DeliverStores(env: Env, s: Store, ev: Event)
    ensures var t := Deliver(env, s, ev);
      if ev.Deliverable() && ev.id !in s.rows && Check(env, s, ev) != Missing
      then t.rows.Keys == s.rows.Keys + {ev.id} else t == s
  {
    hide *;
    DeliverCases(env, s, ev);
    AcceptStores(env, s, ev);
    RejectStores(s, ev);
    PersistStores(s, ev);
  }

  lemma {:induction false} RunStores(env: Env, s: Store, d: seq<Event>)
    ensures s.rows.Keys <= Run(env, s, d).rows.Keys <= s.rows.Keys + Ids(d)
    decreases |d|
  {
    if d != [] {
      var init, e := d[..|d| - 1], d[|d| - 1];
      hide Deliver, Check;
      RunStores(env, s, init);
      DeliverStores(env, Run(env, s, init), e);
      assert Run(env, s, d) == Deliver(env, Run(env, s, init), e);
      hide Run;
      IdsOfInit(d);
    }
  }

  lemma IdsOfInit(d: seq<Event>)
    requires d != []
    ensures Ids(d) == Ids(d[..|d| - 1]) + {d[|d| - 1].id}
  {
    assert forall x :: x in d <==> x in d[..|d| - 1] || x == d[|d| - 1];
  }

  /** A pass that stores nothing changes nothing, and leaves nothing it could have decided. */
  lemma {:induction false} Unmoved(env: Env, s: Store, d: seq<Event>)
    requires Run(env, s, d).rows.Keys == s.rows.Keys
    ensures Run(env, s, d) == s && Settled(env, s, Elems(d))
    decreases |d|
  {
    if d != [] {
      var init, e := d[..|d| - 1], d[|d| - 1];
      var m := Run(env, s, init);
      hide Deliver, Check;
      RunStores(env, s, init);
      DeliverStores(env, m, e);
      assert Run(env, s, d) == Deliver(env, m, e);
      assert m.rows.Keys <= Deliver(env, m, e).rows.Keys;
      assert m.rows.Keys == s.rows.Keys;
      Unmoved(env, s, init);
      assert m == s;
      hide Run;
      forall x | x in Elems(d) && x.Deliverable() ensures x.id in s.rows || Check(env, s, x) == Missing {
        if x != e { assert x in Elems(init); }
      }
    }
  }

  lemma Quiet(env: Env, s: Store, d: seq<Event>)
    requires Settled(env, s, Elems(d))
    ensures Run(env, s, d) == s
  {
    if d != [] {
      var init, e := d[..|d| - 1], d[|d| - 1];
      assert Elems(init) <= Elems(d) && e in Elems(d);
      hide Deliver, Check;
      Quiet(env, s, init);
      DeliverStores(env, s, e);
    }
  }

  lemma {:induction false} StoredWithin(env: Env, d: seq<Event>, n: nat)
    ensures Run(env, EMPTY, Rounds(d, n)).rows.Keys <= Ids(d)
  {
    if n > 0 {
      StoredWithin(env, d, n - 1);
      RunAppend(env, EMPTY, Rounds(d, n - 1), d);
      RunStores(env, Run(env, EMPTY, Rounds(d, n - 1)), d);
    }
  }

  /** Each round stores something new, until nothing is left to decide. */
  lemma {:induction false} RoundsProgress(env: Env, d: seq<Event>, n: nat)
    ensures var s := Run(env, EMPTY, Rounds(d, n)); Settled(env, s, Elems(d)) || |s.rows.Keys| >= n
  {
    hide *;
    if n > 0 {
      var s := Run(env, EMPTY, Rounds(d, n - 1));
      RoundsProgress(env, d, n - 1);
      RunAppend(env, EMPTY, Rounds(d, n - 1), d);
      RoundsOpen(d, n);
      AnotherRound(env, s, d);
    }
  }

  lemma RoundsOpen(d: seq<Event>, n: nat)
    requires n > 0
    ensures Rounds(d, n) == Rounds(d, n - 1) + d
  {
  }

  lemma AnotherRound(env: Env, s: Store, d: seq<Event>)
    ensures var t := Run(env, s, d);
      if Settled(env, s, Elems(d)) then t == s else Settled(env, t, Elems(d)) || |t.rows.Keys| > |s.rows.Keys|
  {
    hide Run, Settled;
    if Settled(env, s, Elems(d)) {
      Quiet(env, s, d);
    } else {
      RunStores(env, s, d);
      if Run(env, s, d).rows.Keys == s.rows.Keys {
        Unmoved(env, s, d);
      } else {
        Grown(s.rows.Keys, Run(env, s, d).rows.Keys);
      }
    }
  }

  lemma {:induction false} Grown(a: set<string>, b: set<string>)
    requires a <= b && a != b
    ensures |a| < |b|
  {
    var x :| x in b && x !in a;
    Included(a + {x}, b);
  }

  lemma {:induction false} Included(a: set<string>, b: set<string>)
    requires a <= b
    ensures |a| <= |b|
    decreases |a|
  {
    if x :| x in a { Included(a - {x}, b - {x}); }
  }

  /** As many rounds as there are distinct events suffice. */
  lemma RetrySettles(env: Env, d: seq<Event>, n: nat)
    requires n >= |Ids(d)|
    ensures Settled(env, Run(env, EMPTY, Rounds(d, n)), Elems(d))
  {
    var s := Run(env, EMPTY, Rounds(d, n));
    RoundsProgress(env, d, n);
    StoredWithin(env, d, n);
    hide Run, Check, Rounds;
    if |s.rows.Keys| >= n {
      if s.rows.Keys != Ids(d) { Grown(s.rows.Keys, Ids(d)); }
      forall e | e in Elems(d) ensures e.id in s.rows { assert e.id in Ids(d); }
    }
  }

  lemma {:induction false} RoundsElems(d: seq<Event>, n: nat)
    requires n > 0 || d == []
    ensures Elems(Rounds(d, n)) == Elems(d)
    decreases n
  {
    if n > 1 || (n > 0 && d == []) {
      RoundsElems(d, n - 1);
      assert forall e :: e in Rounds(d, n) <==> e in Rounds(d, n - 1) || e in d;
    } else if n == 1 {
      assert Rounds(d, 1) == [] + d == d;
    }
  }

  /** Convergence with retries: two servers hand themselves the same events in any two orders, and
      try the list again as often as it has events; verdicts, snapshots, calculated auth events,
      edges, heads and room state come out equal. */
  lemma ConvergenceWithRetries(env: Env, d1: seq<Event>, d2: seq<Event>, n1: nat, n2: nat)
    requires AuthRules(env) && Universe(Elems(d1)) && Elems(d1) == Elems(d2)
    requires n1 >= |Ids(d1)| && n2 >= |Ids(d2)|
    ensures SameView(Run(env, EMPTY, Rounds(d1, n1)), Run(env, EMPTY, Rounds(d2, n2)))
  {
    hide Run, Settled, Universe;
    RetrySettles(env, d1, n1);
    RetrySettles(env, d2, n2);
    SomeRound(d1, n1);
    SomeRound(d2, n2);
    RoundsElems(d1, n1);
    RoundsElems(d2, n2);
    Convergence(env, Rounds(d1, n1), Rounds(d2, n2));
  }

  lemma SomeRound(d: seq<Event>, n: nat)
    requires n >= |Ids(d)|
    ensures n > 0 || d == []
  {
    if d != [] { assert d[0].id in Ids(d); }
  }
}
