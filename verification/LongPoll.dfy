/** The park protocol of /sync and sliding sync (internal/csapi/sync.go, internal/csapi/sliding_sync.go)
    over the notifier (internal/homeserver/notifier.go): no wake-up is lost. */
module LongPoll {

  type Chan = nat

  // ---- the notifier ----

  /** The list without the first occurrence of ch. */
  function Without(list: seq<Chan>, ch: Chan): seq<Chan> {
    if list == [] then [] else if list[0] == ch then list[1..] else [list[0]] + Without(list[1..], ch)
  }

  /** What is kept from position i on, the channels before it standing. */
  lemma WithoutFrom(list: seq<Chan>, i: nat, ch: Chan)
    requires i <= |list|
    ensures i == 0 ==> list[..i] + Without(list[i..], ch) == Without(list, ch)
    ensures i < |list| && list[i] == ch ==> list[..i] + Without(list[i..], ch) == list[..i] + list[i + 1..]
    ensures i < |list| && list[i] != ch ==>
      list[..i] + Without(list[i..], ch) == list[..i + 1] + Without(list[i + 1..], ch)
    ensures i == |list| ==> list[..i] + Without(list[i..], ch) == list
  {
    if i == 0 { assert list[0..] == list; }
    if i < |list| {
      assert list[i..][1..] == list[i + 1..];
      assert list[..i] + ([list[i]] + Without(list[i + 1..], ch)) == list[..i + 1] + Without(list[i + 1..], ch);
    } else {
      assert list[i..] == [] && list[..i] + [] == list;
    }
  }

  function Waiting(waiters: map<string, seq<Chan>>, user: string): seq<Chan> {
    if user in waiters then waiters[user] else []
  }

  function Forget(waiters: map<string, seq<Chan>>, user: string, ch: Chan): map<string, seq<Chan>> {
    var rest := Without(Waiting(waiters, user), ch);
    if rest == [] then waiters - {user} else waiters[user := rest]
  }

  class Notifier {
    var waiters: map<string, seq<Chan>>
    var closed: set<Chan>
    var made: Chan

    constructor ()
      ensures waiters == map[] && closed == {} && made == 0
    {
      waiters, closed, made := map[], {}, 0;
    }

    method Wait(user: string) returns (ch: Chan)
      modifies this
      ensures ch == old(made) && made == ch + 1 && closed == old(closed)
      ensures waiters == old(waiters)[user := Waiting(old(waiters), user) + [ch]]
    {
      ch, made := made, made + 1;
      waiters := waiters[user := Waiting(waiters, user) + [ch]];
    }

    method Cancel(user: string, ch: Chan)
      modifies this
      ensures waiters == Forget(old(waiters), user, ch) && closed == old(closed) && made == old(made)
    {
      hide Without;
      var list := Waiting(waiters, user);
      WithoutFrom(list, 0, ch);
      var i := 0;
      while i < |list| && list[i] != ch
        invariant 0 <= i <= |list|
        invariant list[..i] + Without(list[i..], ch) == Without(list, ch)
        invariant waiters == old(waiters) && closed == old(closed) && made == old(made)
      {
        WithoutFrom(list, i, ch);
        i := i + 1;
      }
      WithoutFrom(list, i, ch);
      if i < |list| {
        list := list[..i] + list[i + 1..];
      }
      waiters := if |list| == 0 then waiters - {user} else waiters[user := list];
    }

    method NotifyUser(user: string)
      modifies this
      ensures waiters == old(waiters) - {user} && made == old(made)
      ensures closed == old(closed) + set ch | ch in Waiting(old(waiters), user)
    {
      var list := Waiting(waiters, user);
      waiters := waiters - {user};
      for i := 0 to |list|
        invariant waiters == old(waiters) - {user} && made == old(made)
        invariant closed == old(closed) + set ch | ch in list[..i]
      {
        assert forall c :: c in list[..i + 1] <==> c in list[..i] || c == list[i];
        closed := closed + {list[i]};
      }
      assert list[..|list|] == list;
    }
  }

  // ---- requests and publishers, step by step ----

  /** A publisher has written its data: the users it has still to notify, and the channels it took from
      the notifier and has still to close. */
  datatype Publisher = Publisher(users: seq<string>, closing: set<Chan>)

  /** since: how much of the user's data the request's token covers. */
  datatype Request =
    | Computed(user: string, since: nat)                 // the first compute found nothing
    | Registered(user: string, since: nat, ch: Chan)     // the waiter is registered, the recompute to come
    | Parked(user: string, since: nat, ch: Chan)

  datatype Sys = Sys(
    data: map<string, nat>,               // how much has been published for each user
    waiters: map<string, seq<Chan>>,
    closed: set<Chan>,
    made: Chan,
    publishers: map<nat, Publisher>,
    requests: map<nat, Request>)

  datatype Step =
    | Publish(pid: nat, users: seq<string>)      // the store write
    | Take(pid: nat)                             // NotifyUser's locked part
    | Close(pid: nat, ch: Chan)
    | Return(pid: nat)
    | Begin(rid: nat, user: string, since: nat)
    | Register(rid: nat)
    | Recompute(rid: nat)
    | Leave(rid: nat)                            // woken, timed out or gone: answer, then cancel

  function Amount(s: Sys, user: string): nat {
    if user in s.data then s.data[user] else 0
  }

  function More(data: map<string, nat>, users: seq<string>): map<string, nat> {
    map u | u in data.Keys + (set v | v in users) ::
      (if u in data then data[u] else 0) + (if u in users then 1 else 0)
  }

  predicate Enabled(s: Sys, a: Step) {
    match a
    case Publish(pid, _) => pid !in s.publishers
    case Take(pid) => pid in s.publishers && s.publishers[pid].users != []
    case Close(pid, ch) => pid in s.publishers && ch in s.publishers[pid].closing
    case Return(pid) => pid in s.publishers && s.publishers[pid] == Publisher([], {})
    case Begin(rid, user, since) => rid !in s.requests && Amount(s, user) <= since
    case Register(rid) => rid in s.requests && s.requests[rid].Computed?
    case Recompute(rid) => rid in s.requests && s.requests[rid].Registered?
    case Leave(rid) => rid in s.requests && s.requests[rid].Parked?
  }

  /** Registering, and answering: the deferred cancel forgets the waiter. */
  function Next(s: Sys, a: Step): Sys
    requires Enabled(s, a)
  {
    match a
    case Publish(pid, users) => s.(data := More(s.data, users), publishers := s.publishers[pid := Publisher(users, {})])
    case Take(pid) =>
      var p := s.publishers[pid];
      s.(waiters := s.waiters - {p.users[0]},
         publishers := s.publishers[pid :=
           Publisher(p.users[1..], p.closing + set c | c in Waiting(s.waiters, p.users[0]))])
    case Close(pid, ch) =>
      s.(closed := s.closed + {ch},
         publishers := s.publishers[pid := s.publishers[pid].(closing := s.publishers[pid].closing - {ch})])
    case Return(pid) => s.(publishers := s.publishers - {pid})
    case Begin(rid, user, since) => s.(requests := s.requests[rid := Computed(user, since)])
    case Register(rid) =>
      var q := s.requests[rid];
      s.(waiters := s.waiters[q.user := Waiting(s.waiters, q.user) + [s.made]], made := s.made + 1,
         requests := s.requests[rid := Registered(q.user, q.since, s.made)])
    case Recompute(rid) =>
      var q := s.requests[rid];
      if Amount(s, q.user) > q.since then
        s.(requests := s.requests - {rid}, waiters := Forget(s.waiters, q.user, q.ch))
      else s.(requests := s.requests[rid := Parked(q.user, q.since, q.ch)])
    case Leave(rid) =>
      var q := s.requests[rid];
      s.(requests := s.requests - {rid}, waiters := Forget(s.waiters, q.user, q.ch))
  }

  /** The channel is closed, or a publisher holds it and is about to close it. */
  ghost predicate Signalled(s: Sys, ch: Chan) {
    ch in s.closed || exists pid :: pid in s.publishers && ch in s.publishers[pid].closing
  }

  /** A publisher is between its write and its notify of the user. */
  ghost predicate Coming(s: Sys, user: string) {
    exists pid :: pid in s.publishers && user in s.publishers[pid].users
  }

  ghost predicate HasChan(q: Request) { q.Registered? || q.Parked? }

  ghost predicate RequestOk(s: Sys, rid: nat)
    requires rid in s.requests
  {
    var q := s.requests[rid];
    HasChan(q) ==>
      && q.ch < s.made
      && (q.ch in Waiting(s.waiters, q.user) || Signalled(s, q.ch))
      && (q.Parked? && Amount(s, q.user) > q.since ==> Signalled(s, q.ch) || Coming(s, q.user))
  }

  ghost predicate Inv(s: Sys) {
    && (forall rid | rid in s.requests :: RequestOk(s, rid))
    && (forall a, b | a in s.requests && b in s.requests && a != b && HasChan(s.requests[a])
      && HasChan(s.requests[b]) ::
          s.requests[a].ch != s.requests[b].ch)
  }

  lemma {:induction false} WithoutKeeps(list: seq<Chan>, ch: Chan, other: Chan)
    requires other != ch
    ensures other in Without(list, ch) <==> other in list
    decreases |list|
  {
    if list != [] && list[0] != ch { WithoutKeeps(list[1..], ch, other); }
  }

  lemma ForgetKeeps(waiters: map<string, seq<Chan>>, user: string, ch: Chan, of: string, other: Chan)
    requires other != ch
    ensures other in Waiting(Forget(waiters, user, ch), of) <==> other in Waiting(waiters, of)
  {
    WithoutKeeps(Waiting(waiters, user), ch, other);
  }

  lemma PublisherStepKeeps(s: Sys, a: Step, rid: nat)
    requires Inv(s) && Enabled(s, a) && (a.Publish? || a.Take? || a.Close? || a.Return?) && rid in s.requests
    ensures RequestOk(Next(s, a), rid)
  {
    var t, q := Next(s, a), s.requests[rid];
    assert RequestOk(s, rid);
    if HasChan(q) {
      if Signalled(s, q.ch) {
        SignalStays(s, a, q.ch);
      } else if a.Take? && s.publishers[a.pid].users[0] == q.user {
        assert q.ch in t.publishers[a.pid].closing;
      }
      if Coming(s, q.user) && !(a.Take? && s.publishers[a.pid].users[0] == q.user) { ComingStays(s, a, q.user); }
      if a.Publish? && q.user in a.users { assert q.user in t.publishers[a.pid].users; }
    }
  }

  lemma SignalStays(s: Sys, a: Step, ch: Chan)
    requires Enabled(s, a) && Signalled(s, ch)
    ensures Signalled(Next(s, a), ch)
  {
    if ch !in s.closed {
      var pid :| pid in s.publishers && ch in s.publishers[pid].closing;
      if !(a.Close? && a.ch == ch) { assert pid in Next(s, a).publishers && ch in Next(s, a).publishers[pid].closing; }
    }
  }

  lemma ComingStays(s: Sys, a: Step, user: string)
    requires Enabled(s, a) && Coming(s, user) && !(a.Take? && s.publishers[a.pid].users[0] == user)
    ensures Coming(Next(s, a), user)
  {
    var pid :| pid in s.publishers && user in s.publishers[pid].users;
    assert pid in Next(s, a).publishers && user in Next(s, a).publishers[pid].users;
  }

  lemma RequestStepKeeps(s: Sys, a: Step, rid: nat)
    requires Inv(s) && Enabled(s, a) && !(a.Publish? || a.Take? || a.Close? || a.Return?) && rid in Next(s, a).requests
    ensures RequestOk(Next(s, a), rid)
  {
    var t := Next(s, a);
    assert t.publishers == s.publishers && t.closed == s.closed && t.data == s.data;
    var q := t.requests[rid];
    if rid in s.requests { assert RequestOk(s, rid); }
    if HasChan(q) {
      if rid == a.rid && a.Register? {
        assert q.ch in t.waiters[q.user];
      } else {
        assert s.requests[rid].ch == q.ch && HasChan(s.requests[rid]);
        if a.rid != rid && (a.Leave? || a.Recompute?) {
          assert q.ch != s.requests[a.rid].ch;
          ForgetKeeps(s.waiters, s.requests[a.rid].user, s.requests[a.rid].ch, q.user, q.ch);
        }
      }
    }
  }

  lemma StepKeeps(s: Sys, a: Step)
    requires Inv(s) && Enabled(s, a)
    ensures Inv(Next(s, a))
  {
    var t := Next(s, a);
    forall rid | rid in t.requests ensures RequestOk(t, rid) {
      if a.Publish? || a.Take? || a.Close? || a.Return? { PublisherStepKeeps(s, a, rid); } else {
        RequestStepKeeps(s, a, rid);
      }
    }
    forall x, y | x in t.requests && y in t.requests && x != y && HasChan(t.requests[x]) && HasChan(t.requests[y])
      ensures t.requests[x].ch != t.requests[y].ch
    {
      if x in s.requests { assert RequestOk(s, x); }
      if y in s.requests { assert RequestOk(s, y); }
    }
  }

  const START := Sys(map[], map[], {}, 0, map[], map[])

  ghost predicate Runs(steps: seq<Step>, states: seq<Sys>) {
    && |states| == |steps| + 1 && states[0] == START
    && forall i | 0 <= i < |steps| :: Enabled(states[i], steps[i]) && states[i + 1] == Next(states[i], steps[i])
  }

  lemma {:induction false} RunKeeps(steps: seq<Step>, states: seq<Sys>, i: nat)
    requires Runs(steps, states) && i < |states|
    ensures Inv(states[i])
    decreases i
  {
    hide Next, Enabled, Inv;
    if i > 0 {
      RunKeeps(steps, states, i - 1);
      StepKeeps(states[i - 1], steps[i - 1]);
    } else {
      NothingYet();
    }
  }

  lemma NothingYet()
    ensures Inv(START)
  {
  }

  /** No lost wake-up: while a request is parked on data it has not seen, its channel is closed or held by
      a publisher that is closing it, or a publisher of that user's data has its notify still to come. */
  lemma NoLostWakeup(steps: seq<Step>, states: seq<Sys>, i: nat, rid: nat)
    requires Runs(steps, states) && i < |states| && rid in states[i].requests && states[i].requests[rid].Parked?
    requires Amount(states[i], states[i].requests[rid].user) > states[i].requests[rid].since
    ensures Signalled(states[i], states[i].requests[rid].ch) || Coming(states[i], states[i].requests[rid].user)
  {
    RunKeeps(steps, states, i);
    assert RequestOk(states[i], rid);
  }

  /** Once the publishers have returned, such a request's channel is closed. */
  lemma QuietMeansClosed(steps: seq<Step>, states: seq<Sys>, i: nat, rid: nat)
    requires Runs(steps, states) && i < |states| && rid in states[i].requests && states[i].requests[rid].Parked?
    requires Amount(states[i], states[i].requests[rid].user) > states[i].requests[rid].since
      && states[i].publishers == map[]
    ensures states[i].requests[rid].ch in states[i].closed
  {
    NoLostWakeup(steps, states, i, rid);
  }

  /** A registered request has data to see, and nobody is left to wake it. */
  ghost predicate WouldMiss(s: Sys, rid: nat) {
    && rid in s.requests && s.requests[rid].Registered?
    && Amount(s, s.requests[rid].user) > s.requests[rid].since
    && s.publishers == map[] && s.requests[rid].ch !in s.closed
  }

  const MISS_STEPS := [Begin(1, "u", 0), Publish(7, ["u"]), Take(7), Return(7), Register(1)]

  /** A publish that runs to its end between the first compute and the registration. */
  function MissState(i: nat): Sys {
    var asked := map[1 := Computed("u", 0)];
    if i == 0 then START
    else if i == 1 then START.(requests := asked)
    else if i == 2 then Sys(map["u" := 1], map[], {}, 0, map[7 := Publisher(["u"], {})], asked)
    else if i == 3 then Sys(map["u" := 1], map[], {}, 0, map[7 := Publisher([], {})], asked)
    else if i == 4 then Sys(map["u" := 1], map[], {}, 0, map[], asked)
    else Sys(map["u" := 1], map["u" := [0]], {}, 1, map[], map[1 := Registered("u", 0, 0)])
  }

  lemma MissSteps(i: nat)
    requires i < 5
    ensures Enabled(MissState(i), MISS_STEPS[i]) && MissState(i + 1) == Next(MissState(i), MISS_STEPS[i])
  {
    var s := MissState(i);
    if i == 1 {
      assert More(map[], ["u"]) == map["u" := 1];
    } else if i == 2 {
      assert s.waiters - {"u"} == map[] && ["u"][1..] == [];
      var t := Next(s, Take(7));
      assert t.publishers[7].closing == {};
      assert t.publishers == map[7 := Publisher([], {})];
    } else if i == 3 {
      assert s.publishers - {7} == map[];
    } else if i == 4 {
      assert Waiting(s.waiters, "u") + [0] == [0];
    }
  }

  /** It is the recompute that makes this so: parking straight after registering, as the legacy /events
      poll does, can sleep on data published just before. */
  lemma ParkingUncheckedLoses()
    ensures exists steps: seq<Step>, states: seq<Sys> :: Runs(steps, states) && WouldMiss(states[|steps|], 1)
  {
    var states := [MissState(0), MissState(1), MissState(2), MissState(3), MissState(4), MissState(5)];
    forall i | 0 <= i < 5 ensures Enabled(states[i], MISS_STEPS[i]) && states[i + 1] == Next(states[i], MISS_STEPS[i]) {
      MissSteps(i);
      hide Next, Enabled, MissState;
      assert states[i] == MissState(i) && states[i + 1] == MissState(i + 1);
    }
    assert WouldMiss(states[5], 1);
    hide Next, Enabled, MissState;
    assert |MISS_STEPS| == 5;
    assert Runs(MISS_STEPS, states);
  }
}
