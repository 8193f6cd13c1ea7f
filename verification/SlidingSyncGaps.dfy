/** Exactly when what a sliding-sync client holds of a room has a gap, over every run of requests: any
    lists, any scrolling, any subscriptions, each request echoing the last position. */
module SlidingSyncGaps {
  import opened Wrappers
  import opened EventStore
  import opened SlidingSync
  import opened SlidingSyncResponse
  import opened SlidingSyncClient

  // ---- end pieces of a timeline ----

  /** Something newer than the first event held is not held. */
  ghost predicate Broken(h: seq<int>, evs: seq<int>) {
    h != [] && exists e :: e in evs && e > h[0] && e !in h
  }

  lemma SuffixWhole(h: seq<int>, evs: seq<int>)
    requires Increasing(evs) && IsSuffix(h, evs)
    ensures !Broken(h, evs)
  {
    if h != [] {
      var k := |evs| - |h|;
      forall e | e in evs && e > h[0] ensures e in h {
        var i :| 0 <= i < |evs| && evs[i] == e;
        assert h[0] == evs[k] && i >= k && h[i - k] == e;
      }
    }
  }

  lemma SuffixGrows(h: seq<int>, evs: seq<int>, more: seq<int>)
    requires IsSuffix(h, evs) && evs <= more
    ensures IsSuffix(h + more[|evs|..], more)
  {
  }

  /** What a hold lost stays lost when the newest events are appended. */
  lemma BrokenGrows(h: seq<int>, evs: seq<int>, more: seq<int>)
    requires Broken(h, evs) && Increasing(more) && evs <= more
    ensures Broken(h + more[|evs|..], more)
  {
    var e :| e in evs && e > h[0] && e !in h;
    var i :| 0 <= i < |evs| && evs[i] == e;
    assert more[i] == e && forall j | |evs| <= j < |more| :: more[j] > e;
    assert e in more && e !in more[|evs|..] && (h + more[|evs|..])[0] == h[0];
  }

  lemma BrokenStays(h: seq<int>, evs: seq<int>, more: seq<int>)
    requires Broken(h, evs) && evs <= more
    ensures Broken(h, more)
  {
    var e :| e in evs && e > h[0] && e !in h;
    var i :| 0 <= i < |evs| && evs[i] == e;
    assert more[i] == e;
  }

  /** A hold that is not given the new events breaks, unless it is empty. */
  lemma SuffixBreaks(h: seq<int>, evs: seq<int>, more: seq<int>)
    requires IsSuffix(h, evs) && h != [] && evs < more && Increasing(more)
    ensures Broken(h, more)
  {
    var e := more[|evs|];
    forall i | 0 <= i < |h| ensures h[i] < e { assert h[i] == more[|evs| - |h| + i]; }
    assert e in more && e > h[0] && e !in h;
  }

  // ---- one turn ----

  /** The response replaces what the client holds of the room. */
  predicate Restarts(s: Session, x: Exchange, room: string)
    requires Answerable(x.w, x.req)
  {
    room in Reply(s, x).rooms && Reply(s, x).rooms[room].initial
  }

  /** The response brings the joined room's events. */
  predicate Brings(s: Session, x: Exchange, room: string)
    requires Answerable(x.w, x.req)
  {
    room in Reply(s, x).rooms && Reply(s, x).rooms[room].kind == Join
  }

  /** The room got events that the response does not bring. */
  predicate Misses(s: Session, x: Exchange, room: string)
    requires Answerable(x.w, x.req)
  {
    EventsOf(x.w, room) != EventsOf(s.w, room) && !Brings(s, x, room)
  }

  lemma HeldAfter(s: Session, x: Exchange, room: string)
    requires Answerable(x.w, x.req)
    ensures var rooms := Reply(s, x).rooms;
      Held(Turn(s, x).client, room) ==
        if room !in rooms then Held(s.client, room)
        else if rooms[room].initial then rooms[room].timeline
        else Held(s.client, room) + rooms[room].timeline
  {
    hide Build;
  }

  /** A new result is an end piece of the timeline; any other brings what came since, or nothing. */
  lemma ResultIs(s: Session, x: Exchange, room: string, rr: RoomResp, shown: bool)
    requires Level(s) && WorldOk(x.w) && Evolves(s.w, x.w) && Sent(x.w, s.client.pos, room, rr, shown)
    ensures rr.kind == x.w.members[room].kind
    ensures rr.initial ==> Tail(x.w, room, rr.timeline, shown && rr.kind == Join)
    ensures !rr.initial && rr.kind == Join ==>
      s.w.maxStream > 0 && x.w.members[room].stream <= s.w.maxStream
      && rr.timeline == EventsOf(x.w, room)[|EventsOf(s.w, room)|..]
    ensures !rr.initial && rr.kind != Join ==> rr.timeline == []
  {
    hide RoomResult, EventsForRoom, Evolves, Tail;
    var since, m := s.client.pos, x.w.members[room];
    var limit, force :| rr == RoomResult(x.w, room, m, since, limit, force) && (shown ==> Limit(limit) > 0);
    ResultShape(x.w, room, m, since, limit, force);
    assert since == s.w.maxStream >= 0;
    hide WorldOk, EventsOf;
    if m.kind == Join {
      if since == 0 || m.stream > since || force {
        FreshIsTail(x.w, room, m, since, limit, force);
        TailWeaker(x.w, room, rr.timeline, Limit(limit) > 0, shown);
      } else {
        DeltaIsRest(s.w, x.w, room);
      }
    } else {
      EmptyTail(x.w, room);
    }
  }

  lemma ResultShape(w: World, room: string, m: Membership, since: int, limit: Option<int>, force: bool)
    ensures var r := RoomResult(w, room, m, since, limit, force);
      && r.kind == m.kind
      && (m.kind != Join ==> r.timeline == [])
      && (m.kind == Join ==> (r.initial <==> since == 0 || m.stream > since || force))
      && (m.kind == Join && !r.initial ==>
            r.timeline == EventsForRoom(EventsOf(w, room), since, w.maxStream, UNBOUNDED))
  {
    hide InitialEvents, EventsForRoom, EventsOf, Limit;
  }

  lemma TailWeaker(w: World, room: string, h: seq<int>, strong: bool, weak: bool)
    requires Tail(w, room, h, strong) && (weak ==> strong)
    ensures Tail(w, room, h, weak)
  {
    hide IsSuffix, EventsOf;
  }

  lemma EmptyTail(w: World, room: string)
    ensures Tail(w, room, [], false)
  {
    hide EventsOf;
  }

  /** What the client holds after a turn. */
  lemma TurnHolds(s: Session, x: Exchange, room: string, shown: bool)
    requires Level(s) && WorldOk(x.w) && Evolves(s.w, x.w) && Answerable(x.w, x.req) && (shown ==> Showing(x.req))
    ensures var h, after := Held(s.client, room), Held(Turn(s, x).client, room);
      && (Restarts(s, x, room) ==> Tail(x.w, room, after, shown && Brings(s, x, room)))
      && (!Restarts(s, x, room) && Brings(s, x, room) ==>
            s.w.maxStream > 0 && room in x.w.members && x.w.members[room].stream <= s.w.maxStream
            && after == h + EventsOf(x.w, room)[|EventsOf(s.w, room)|..])
      && (!Restarts(s, x, room) && !Brings(s, x, room) ==> after == h)
    ensures EventsOf(s.w, room) <= EventsOf(x.w, room)
  {
    HeldAfter(s, x, room);
    assert Extends(EventsOf(s.w, room), EventsOf(x.w, room), s.w.maxStream);
    hide Build, Receive, Turn, Held, WorldOk, Evolves, Tail, Sent, EventsOf, Showing, Answerable;
    if room in Reply(s, x).rooms {
      AllSent(x.w, s.client.pos, x.req, s.conn, room, shown);
      ResultIs(s, x, room, Reply(s, x).rooms[room], shown);
    }
  }

  // ---- the exact condition ----

  /** The session after the first n exchanges. */
  ghost function At(xs: seq<Exchange>, n: nat): Session
    requires AllAnswerable(xs) && n <= |xs|
  {
    assert forall y | y in xs[..n] :: y in xs;
    Converse(xs[..n])
  }

  /** Turn j does not bring the room's new events to a client that holds older ones of it. */
  ghost predicate LeavesOut(xs: seq<Exchange>, j: nat, room: string)
    requires AllAnswerable(xs) && j < |xs|
  {
    assert xs[j] in xs;
    Misses(At(xs, j), xs[j], room) && Held(At(xs, j).client, room) != []
  }

  ghost predicate RestartsAt(xs: seq<Exchange>, i: nat, room: string)
    requires AllAnswerable(xs) && i < |xs|
  {
    assert xs[i] in xs;
    Restarts(At(xs, i), xs[i], room)
  }

  /** Some turn left events out, and neither it nor a later one sent the room as new. */
  ghost predicate Gap(xs: seq<Exchange>, room: string)
    requires AllAnswerable(xs)
  {
    exists j :: 0 <= j < |xs| && LeavesOut(xs, j, room) && forall i | j <= i < |xs| :: !RestartsAt(xs, i, room)
  }

  lemma AtInit(xs: seq<Exchange>, n: nat)
    requires AllAnswerable(xs) && n < |xs| && AllAnswerable(xs[..|xs| - 1])
    ensures At(xs, n) == At(xs[..|xs| - 1], n)
  {
    hide Converse, AllAnswerable;
    assert xs[..|xs| - 1][..n] == xs[..n];
  }

  lemma AtLast(xs: seq<Exchange>)
    requires AllAnswerable(xs) && xs != [] && AllAnswerable(xs[..|xs| - 1])
    ensures At(xs, |xs| - 1) == Converse(xs[..|xs| - 1])
  {
    hide Converse, AllAnswerable;
  }

  lemma AtEnd(xs: seq<Exchange>)
    requires AllAnswerable(xs)
    ensures At(xs, |xs|) == Converse(xs)
  {
    hide Converse, AllAnswerable;
    assert xs[..|xs|] == xs;
  }

  lemma TurnInit(xs: seq<Exchange>, j: nat, room: string)
    requires j < |xs| - 1 && AllAnswerable(xs) && AllAnswerable(xs[..|xs| - 1])
    ensures LeavesOut(xs, j, room) <==> LeavesOut(xs[..|xs| - 1], j, room)
    ensures RestartsAt(xs, j, room) <==> RestartsAt(xs[..|xs| - 1], j, room)
  {
    AtInit(xs, j);
    hide Restarts, Misses, At, Answerable;
  }

  /** A gap is the last turn's, or was there before and stays. */
  lemma GapOpens(xs: seq<Exchange>, room: string)
    requires xs != [] && AllAnswerable(xs) && AllAnswerable(xs[..|xs| - 1])
    ensures Answerable(xs[|xs| - 1].w, xs[|xs| - 1].req)
    ensures var init, x := xs[..|xs| - 1], xs[|xs| - 1];
      var s := Converse(init);
      var lost := Gap(init, room) || (Misses(s, x, room) && Held(s.client, room) != []);
      Gap(xs, room) <==> lost && !Restarts(s, x, room)
  {
    hide *;
    LastOpens(xs, room);
    if Gap(xs, room) { GapBefore(xs, room); }
    if LeavesOut(xs, |xs| - 1, room) && !RestartsAt(xs, |xs| - 1, room) { LastGap(xs, room); }
    if Gap(xs[..|xs| - 1], room) && !RestartsAt(xs, |xs| - 1, room) { GapStays(xs, room); }
  }

  lemma LastOpens(xs: seq<Exchange>, room: string)
    requires xs != [] && AllAnswerable(xs) && AllAnswerable(xs[..|xs| - 1])
    ensures Answerable(xs[|xs| - 1].w, xs[|xs| - 1].req)
    ensures var s, x, n := Converse(xs[..|xs| - 1]), xs[|xs| - 1], |xs| - 1;
      && (LeavesOut(xs, n, room) <==> Misses(s, x, room) && Held(s.client, room) != [])
      && (RestartsAt(xs, n, room) <==> Restarts(s, x, room))
  {
    assert xs[|xs| - 1] in xs;
    AtLast(xs);
    hide Answerable, Misses, Restarts, Converse, At;
  }

  lemma LastGap(xs: seq<Exchange>, room: string)
    requires xs != [] && AllAnswerable(xs) && LeavesOut(xs, |xs| - 1, room) && !RestartsAt(xs, |xs| - 1, room)
    ensures Gap(xs, room)
  {
    hide LeavesOut, RestartsAt, Answerable, AllAnswerable;
  }

  lemma GapBefore(xs: seq<Exchange>, room: string)
    requires xs != [] && AllAnswerable(xs) && AllAnswerable(xs[..|xs| - 1]) && Gap(xs, room)
    ensures !RestartsAt(xs, |xs| - 1, room) && (Gap(xs[..|xs| - 1], room) || LeavesOut(xs, |xs| - 1, room))
  {
    hide LeavesOut, RestartsAt, Answerable, AllAnswerable;
    var init, n := xs[..|xs| - 1], |xs| - 1;
    var j :| 0 <= j < |xs| && LeavesOut(xs, j, room) && forall i | j <= i < |xs| :: !RestartsAt(xs, i, room);
    assert !RestartsAt(xs, n, room);
    if j < n {
      TurnInit(xs, j, room);
      forall i | j <= i < |init| ensures !RestartsAt(init, i, room) { TurnInit(xs, i, room); }
      assert LeavesOut(init, j, room);
    }
  }

  lemma GapStays(xs: seq<Exchange>, room: string)
    requires xs != [] && AllAnswerable(xs) && AllAnswerable(xs[..|xs| - 1]) && Gap(xs[..|xs| - 1], room)
    requires !RestartsAt(xs, |xs| - 1, room)
    ensures Gap(xs, room)
  {
    hide LeavesOut, RestartsAt, Answerable, AllAnswerable;
    var init := xs[..|xs| - 1];
    var j :| 0 <= j < |init| && LeavesOut(init, j, room) && forall i | j <= i < |init| :: !RestartsAt(init, i, room);
    TurnInit(xs, j, room);
    forall i | j <= i < |xs| ensures !RestartsAt(xs, i, room) { if i < |init| { TurnInit(xs, i, room); } }
    assert LeavesOut(xs, j, room);
  }

  /** With a gap something newer than the first event held is missing, without one nothing is. */
  lemma TurnDecides(s: Session, x: Exchange, room: string, gap: bool)
    requires Level(s) && WorldOk(x.w) && Evolves(s.w, x.w) && Answerable(x.w, x.req)
    requires var h, evs := Held(s.client, room), EventsOf(s.w, room); if gap then Broken(h, evs) else IsSuffix(h, evs)
    ensures var h, evs := Held(Turn(s, x).client, room), EventsOf(x.w, room);
      if !Restarts(s, x, room) && (gap || (Misses(s, x, room) && Held(s.client, room) != []))
      then Broken(h, evs) else IsSuffix(h, evs)
  {
    TurnHolds(s, x, room, false);
    var h, evs, more := Held(s.client, room), EventsOf(s.w, room), EventsOf(x.w, room);
    assert Increasing(more);
    hide Restarts, Brings, Turn, Held, WorldOk, Evolves, EventsOf, Broken, IsSuffix, Increasing, Answerable;
    if !Restarts(s, x, room) {
      if Brings(s, x, room) {
        if gap { BrokenGrows(h, evs, more); } else { SuffixGrows(h, evs, more); }
      } else if gap {
        BrokenStays(h, evs, more);
      } else if evs != more && h != [] {
        SuffixBreaks(h, evs, more);
      } else {
        EmptySuffix(h, more);
      }
    }
  }

  lemma EmptySuffix(h: seq<int>, evs: seq<int>)
    ensures h == [] ==> IsSuffix(h, evs)
  {
  }

  lemma {:induction false} HeldIs(xs: seq<Exchange>, room: string)
    requires AllAnswerable(xs) && MovesOn(xs)
    ensures var s := Converse(xs);
      if Gap(xs, room) then Broken(Held(s.client, room), EventsOf(s.w, room))
      else IsSuffix(Held(s.client, room), EventsOf(s.w, room))
    decreases |xs|
  {
    hide *;
    if xs == [] {
      StartHeld(room);
    } else {
      LastTurn(xs);
      var init, x := xs[..|xs| - 1], xs[|xs| - 1];
      HeldIs(init, room);
      GapOpens(xs, room);
      TurnDecides(Converse(init), x, room, Gap(init, room));
      TurnLevel(Converse(init), x);
    }
  }

  lemma StartHeld(room: string)
    ensures Converse([]) == START && Held(START.client, room) == [] && EventsOf(START.w, room) == []
    ensures !Gap([], room) && IsSuffix([], [])
  {
  }

  /** In every run: a client that replaces on initial and appends otherwise holds a contiguous end piece of
      the room's timeline, up to the world of the last response, exactly when no turn left out events of
      the room while the client held older ones, without the room being sent as new then or later. */
  lemma TailExactly(xs: seq<Exchange>, room: string)
    requires AllAnswerable(xs) && MovesOn(xs)
    ensures Tail(Converse(xs).w, room, Held(Converse(xs).client, room), false) <==> !Gap(xs, room)
  {
    HeldIs(xs, room);
    RunLevel(xs);
    var s := Converse(xs);
    assert Increasing(EventsOf(s.w, room));
    hide Converse, Held, EventsOf, Gap, Broken, IsSuffix;
    if !Gap(xs, room) { assert IsSuffix(Held(s.client, room), EventsOf(s.w, room)); }
    if IsSuffix(Held(s.client, room), EventsOf(s.w, room)) {
      SuffixWhole(Held(s.client, room), EventsOf(s.w, room));
    }
  }

  // ---- a room that comes back ----

  /** A run up to its n-th exchange. */
  lemma AtTurn(xs: seq<Exchange>, n: nat)
    requires AllAnswerable(xs) && MovesOn(xs) && n < |xs|
    ensures var s, x := At(xs, n), xs[n];
      && Answerable(x.w, x.req) && WorldOk(x.w) && Level(s) && Evolves(s.w, x.w)
      && At(xs, n + 1) == Turn(s, x) && At(xs, n + 1).w == x.w
  {
    hide *;
    var ys := xs[..n + 1];
    assert ys[..n] == xs[..n] && ys[n] == xs[n];
    PrefixMoves(xs, n + 1);
    AtIs(xs, n);
    AtIs(xs, n + 1);
    LastTurn(ys);
    TurnLevel(At(xs, n), xs[n]);
  }

  lemma AtIs(xs: seq<Exchange>, n: nat)
    requires AllAnswerable(xs) && n <= |xs|
    ensures AllAnswerable(xs[..n]) && At(xs, n) == Converse(xs[..n])
  {
    hide Answerable, Converse;
    assert forall y | y in xs[..n] :: y in xs;
  }

  lemma PrefixMoves(xs: seq<Exchange>, n: nat)
    requires AllAnswerable(xs) && MovesOn(xs) && n <= |xs|
    ensures AllAnswerable(xs[..n]) && MovesOn(xs[..n])
  {
    hide Answerable, WorldOk, Evolves;
    assert forall y | y in xs[..n] :: y in xs;
  }

  /** Response i does not mention the room. */
  ghost predicate SilentAt(xs: seq<Exchange>, i: nat, room: string)
    requires AllAnswerable(xs) && i < |xs|
  {
    assert xs[i] in xs;
    room !in Reply(At(xs, i), xs[i]).rooms
  }

  lemma {:induction false} HeldThrough(xs: seq<Exchange>, a: nat, n: nat, room: string)
    requires AllAnswerable(xs) && MovesOn(xs) && a <= n <= |xs|
    requires forall i | a <= i < n :: SilentAt(xs, i, room)
    ensures Held(At(xs, n).client, room) == Held(At(xs, a).client, room)
    ensures EventsOf(At(xs, a).w, room) <= EventsOf(At(xs, n).w, room)
    decreases n
  {
    if n > a {
      hide *;
      HeldThrough(xs, a, n - 1, room);
      AtTurn(xs, n - 1);
      SilentHolds(xs, n - 1, room);
    }
  }

  lemma SilentHolds(xs: seq<Exchange>, i: nat, room: string)
    requires AllAnswerable(xs) && i < |xs| && SilentAt(xs, i, room)
    requires Answerable(xs[i].w, xs[i].req) && Evolves(At(xs, i).w, xs[i].w)
    requires At(xs, i + 1) == Turn(At(xs, i), xs[i]) && At(xs, i + 1).w == xs[i].w
    ensures Held(At(xs, i + 1).client, room) == Held(At(xs, i).client, room)
    ensures EventsOf(At(xs, i).w, room) <= EventsOf(At(xs, i + 1).w, room)
  {
    HeldAfter(At(xs, i), xs[i], room);
    assert Extends(EventsOf(At(xs, i).w, room), EventsOf(xs[i].w, room), At(xs, i).w.maxStream);
    hide Turn, Reply, EventsOf, Held, Answerable, AllAnswerable, At;
  }

  /** The newest events appended to an older end piece make an end piece exactly when nothing came between. */
  lemma AppendedExactly(h: seq<int>, past: seq<int>, before: seq<int>, now: seq<int>)
    requires IsSuffix(h, past) && past <= before <= now && Increasing(now)
    ensures IsSuffix(h + now[|before|..], now) <==> h == [] || past == before
  {
    if h == [] {
      SuffixGrows(h, before, now);
    } else if past == before {
      SuffixGrows(h, before, now);
    } else {
      assert forall i | 0 <= i < |before| :: before[i] == now[i];
      SuffixBreaks(h, past, before);
      BrokenGrows(h, before, now);
      hide IsSuffix, Broken;
      if IsSuffix(h + now[|before|..], now) { SuffixWhole(h + now[|before|..], now); }
    }
  }

  /** A joined room comes back after any number of responses that did not mention it: what the client then
      holds of it is whole exactly when the result is new, or it held nothing, or nothing happened in
      the room in between. */
  lemma ReturnExactly(xs: seq<Exchange>, a: nat, room: string)
    requires xs != [] && a < |xs| && AllAnswerable(xs) && MovesOn(xs)
    requires Tail(At(xs, a).w, room, Held(At(xs, a).client, room), false)
    requires forall i | a <= i < |xs| - 1 :: SilentAt(xs, i, room)
    requires BringsAt(xs, |xs| - 1, room)
    ensures Tail(Converse(xs).w, room, Held(Converse(xs).client, room), false) <==>
      || RestartsAt(xs, |xs| - 1, room)
      || Held(At(xs, a).client, room) == []
      || EventsOf(At(xs, a).w, room) == EventsOf(At(xs, |xs| - 1).w, room)
  {
    hide *;
    var n := |xs| - 1;
    HeldThrough(xs, a, n, room);
    AtTurn(xs, n);
    AtEnd(xs);
    LastTerms(xs, room);
    TailIsSuffix(At(xs, a).w, room, Held(At(xs, a).client, room));
    TailIsSuffix(xs[n].w, room, Held(Converse(xs).client, room));
    LastReturns(At(xs, n), xs[n], room, Held(At(xs, a).client, room), EventsOf(At(xs, a).w, room));
  }

  ghost predicate BringsAt(xs: seq<Exchange>, i: nat, room: string)
    requires AllAnswerable(xs) && i < |xs|
  {
    assert xs[i] in xs;
    Brings(At(xs, i), xs[i], room)
  }

  lemma LastTerms(xs: seq<Exchange>, room: string)
    requires xs != [] && AllAnswerable(xs)
    ensures Answerable(xs[|xs| - 1].w, xs[|xs| - 1].req)
    ensures var n := |xs| - 1;
      && (RestartsAt(xs, n, room) <==> Restarts(At(xs, n), xs[n], room))
      && (BringsAt(xs, n, room) <==> Brings(At(xs, n), xs[n], room))
  {
    assert xs[|xs| - 1] in xs;
    hide Restarts, Brings, At, Answerable;
  }

  lemma TailIsSuffix(w: World, room: string, h: seq<int>)
    ensures Tail(w, room, h, false) <==> IsSuffix(h, EventsOf(w, room))
  {
    hide IsSuffix, EventsOf;
  }

  lemma LastReturns(s: Session, x: Exchange, room: string, h: seq<int>, past: seq<int>)
    requires Level(s) && WorldOk(x.w) && Evolves(s.w, x.w) && Answerable(x.w, x.req) && Brings(s, x, room)
    requires Held(s.client, room) == h && past <= EventsOf(s.w, room) && IsSuffix(h, past)
    ensures IsSuffix(Held(Turn(s, x).client, room), EventsOf(x.w, room)) <==>
      Restarts(s, x, room) || h == [] || past == EventsOf(s.w, room)
  {
    TurnHolds(s, x, room, false);
    assert Increasing(EventsOf(x.w, room));
    hide Turn, Restarts, Brings, Held, EventsOf, WorldOk, Evolves, IsSuffix, Increasing;
    AppendedExactly(h, past, EventsOf(s.w, room), EventsOf(x.w, room));
  }

  // ---- the same, told from the requests ----

  lemma SilentKeeps(xs: seq<Exchange>, i: nat, room: string)
    requires AllAnswerable(xs) && i < |xs| && SilentAt(xs, i, room) && Answerable(xs[i].w, xs[i].req)
    requires At(xs, i + 1) == Turn(At(xs, i), xs[i])
    ensures SameDelivered(At(xs, i).conn, At(xs, i + 1).conn, room)
    ensures room in At(xs, i + 1).conn.window <==> room in At(xs, i).conn.window && xs[i].req.lists == []
  {
    var s, x := At(xs, i), xs[i];
    ResponseExactly(x.w, s.client.pos, x.req, s.conn, room);
    WindowExactly(x.w, s.client.pos, x.req, s.conn, room);
    hide Build, At, Answerable, AllAnswerable, SomeListed, SameDelivered;
  }

  predicate Listless(xs: seq<Exchange>, a: nat, n: nat)
    requires n <= |xs|
  {
    forall i | a <= i < n :: xs[i].req.lists == []
  }

  /** Through responses that do not mention it the connection remembers the room as delivered, and in its
      window as long as the requests carry no lists. */
  lemma {:induction false} ConnThrough(xs: seq<Exchange>, a: nat, n: nat, room: string)
    requires AllAnswerable(xs) && MovesOn(xs) && a <= n <= |xs|
    requires forall i | a <= i < n :: SilentAt(xs, i, room)
    ensures SameDelivered(At(xs, a).conn, At(xs, n).conn, room)
    ensures room in At(xs, n).conn.window <==>
      room in At(xs, a).conn.window && Listless(xs, a, n)
    decreases n
  {
    if n > a {
      ConnThrough(xs, a, n - 1, room);
      hide At, AllAnswerable, MovesOn, SilentAt;
      AtTurn(xs, n - 1);
      hide Answerable, Turn, WorldOk, Evolves, Level;
      SilentKeeps(xs, n - 1, room);
    }
  }

  /** A subscription to the room asks for more than was delivered; else the first list that shows the room
      does, or the room was not in the window, or a request with lists came since. */
  ghost predicate Forced(x: Exchange, room: string, conn: Conn, listless: bool)
    requires Answerable(x.w, x.req)
  {
    if Subscribed(x.req, room)
    then exists s :: s in x.req.subs && s.0 == room && AsksMore(conn, room, s.1.limit, s.1.required)
    else exists i ::
      && FirstListed(x.w, x.req.lists, i, room)
      && (room !in conn.window || !listless
        || AsksMore(conn, room, x.req.lists[i].limit, x.req.lists[i].required))
  }

  lemma ForcedIs(s: Session, x: Exchange, room: string, conn: Conn, listless: bool)
    requires Level(s) && Answerable(x.w, x.req) && DistinctSubs(x.req.subs) && Brings(s, x, room)
    requires SameDelivered(conn, s.conn, room) && (room in s.conn.window <==> room in conn.window && listless)
    ensures room in x.w.members
    ensures Restarts(s, x, room) <==>
      s.client.pos == 0 || x.w.members[room].stream > s.client.pos || Forced(x, room, conn, listless)
  {
    AllSent(x.w, s.client.pos, x.req, s.conn, room, false);
    var rr := Reply(s, x).rooms[room];
    SentKind(x.w, s.client.pos, room, rr);
    InitialExactly(x.w, s.client.pos, x.req, s.conn, room);
    assert s.client.pos >= 0;
    SameNeeds(conn, s.conn, room);
    hide Build, Sent, RoomResult, FirstListed, AsksMore, Answerable, SameDelivered, DistinctSubs, WorldOk;
  }

  lemma SentKind(w: World, since: int, room: string, rr: RoomResp)
    requires Sent(w, since, room, rr, false)
    ensures room in w.members && rr.kind == w.members[room].kind
  {
    hide InitialEvents, EventsForRoom;
  }

  lemma SameNeeds(a: Conn, b: Conn, room: string)
    requires SameDelivered(a, b, room)
    ensures forall limit, required ::
      AsksMore(a, room, limit, required) == AsksMore(b, room, limit, required)
  {
  }

  /** The last request is answered as the first of all, the membership is newer than the last response, or
      the request forces the room new; all told from the requests and the session after exchange a. */
  ghost predicate NewAgain(xs: seq<Exchange>, a: nat, room: string)
    requires xs != [] && a < |xs| && AllAnswerable(xs)
  {
    var n := |xs| - 1;
    var pos, x := At(xs, n).client.pos, xs[n];
    assert x in xs;
    || pos == 0 || (room in x.w.members && x.w.members[room].stream > pos)
    || Forced(x, room, At(xs, a).conn, Listless(xs, a, n))
  }

  lemma NewAgainIs(xs: seq<Exchange>, a: nat, room: string)
    requires xs != [] && a < |xs| && AllAnswerable(xs) && Answerable(xs[|xs| - 1].w, xs[|xs| - 1].req)
    requires room in xs[|xs| - 1].w.members
    ensures var n := |xs| - 1; var pos, x := At(xs, n).client.pos, xs[n];
      NewAgain(xs, a, room) <==>
        pos == 0 || x.w.members[room].stream > pos || Forced(x, room, At(xs, a).conn, Listless(xs, a, n))
  {
    hide At, AllAnswerable, Answerable, Forced, Listless;
  }

  /** In terms of the requests, what was delivered, and the window when the room was last mentioned: what
      the client holds of a room that comes back is whole exactly when it is sent as new again, or nothing
      was held, or nothing happened in the room in between. */
  lemma ReturnByRequest(xs: seq<Exchange>, a: nat, room: string)
    requires xs != [] && a < |xs| && AllAnswerable(xs) && MovesOn(xs)
    requires Tail(At(xs, a).w, room, Held(At(xs, a).client, room), false)
    requires forall i | a <= i < |xs| - 1 :: SilentAt(xs, i, room)
    requires BringsAt(xs, |xs| - 1, room) && DistinctSubs(xs[|xs| - 1].req.subs)
    ensures Tail(Converse(xs).w, room, Held(Converse(xs).client, room), false) <==>
      || NewAgain(xs, a, room)
      || Held(At(xs, a).client, room) == []
      || EventsOf(At(xs, a).w, room) == EventsOf(At(xs, |xs| - 1).w, room)
  {
    hide *;
    var n := |xs| - 1;
    ReturnExactly(xs, a, room);
    ConnThrough(xs, a, n, room);
    AtTurn(xs, n);
    LastTerms(xs, room);
    ForcedIs(At(xs, n), xs[n], room, At(xs, a).conn, Listless(xs, a, n));
    NewAgainIs(xs, a, room);
  }

  // ---- clients without gaps ----

  /** Wherever the client sees the joined room after a turn, the response brought it, as new unless the
      client saw it before. */
  ghost predicate Served(xs: seq<Exchange>, room: string, sees: Session -> bool)
    requires AllAnswerable(xs)
  {
    forall j: nat | j < |xs| && sees(At(xs, j + 1)) && JoinedIn(xs[j].w, room) ::
      BringsAt(xs, j, room) && (RestartsAt(xs, j, room) || sees(At(xs, j)))
  }

  /** Nothing is missing of the room, and if `shown` the newest event is there. */
  ghost predicate Whole(xs: seq<Exchange>, room: string, shown: bool)
    requires AllAnswerable(xs)
  {
    var s := Converse(xs);
    !Gap(xs, room) && (shown && EventsOf(s.w, room) != [] ==> Held(s.client, room) != []) && room in s.client.rooms
  }

  lemma {:induction false} ServedIsWhole(xs: seq<Exchange>, room: string, sees: Session -> bool, shown: bool)
    requires AllAnswerable(xs) && MovesOn(xs) && Served(xs, room, sees)
    requires shown ==> forall x | x in xs :: Showing(x.req)
    ensures sees(Converse(xs)) && JoinedIn(Converse(xs).w, room) ==> Whole(xs, room, shown)
    decreases |xs|
  {
    if xs == [] {
      assert !JoinedIn(Converse(xs).w, room);
    } else {
      hide *;
      var init, x := xs[..|xs| - 1], xs[|xs| - 1];
      assert x in xs && forall y | y in init :: y in xs;
      LastTurn(xs);
      ServedInit(xs, room, sees);
      ServedIsWhole(init, room, sees, shown);
      GapOpens(xs, room);
      TurnHolds(Converse(init), x, room, shown);
      TurnLevel(Converse(init), x);
      ServedTurn(xs, room, sees, shown);
    }
  }

  lemma ServedInit(xs: seq<Exchange>, room: string, sees: Session -> bool)
    requires xs != [] && AllAnswerable(xs) && AllAnswerable(xs[..|xs| - 1]) && Served(xs, room, sees)
    ensures Served(xs[..|xs| - 1], room, sees)
  {
    var init := xs[..|xs| - 1];
    assert At(xs, |init|) == Converse(init) && At(init, |init|) == Converse(init) by { assert init[..|init|] == init; }
    hide RestartsAt, BringsAt, At, JoinedIn, Answerable, Converse;
    forall j: nat | j < |init| && sees(At(init, j + 1)) && JoinedIn(init[j].w, room)
      ensures BringsAt(init, j, room) && (RestartsAt(init, j, room) || sees(At(init, j)))
    {
      AtInit(xs, j);
      if j + 1 < |init| { AtInit(xs, j + 1); }
      TurnInit(xs, j, room);
      BringsInit(xs, j, room);
      assert sees(At(xs, j + 1)) && JoinedIn(xs[j].w, room);
    }
  }

  lemma BringsInit(xs: seq<Exchange>, j: nat, room: string)
    requires j < |xs| - 1 && AllAnswerable(xs) && AllAnswerable(xs[..|xs| - 1])
    ensures BringsAt(xs, j, room) <==> BringsAt(xs[..|xs| - 1], j, room)
  {
    AtInit(xs, j);
    hide Brings, At, Answerable;
  }

  /** The last turn keeps the hold whole. */
  lemma ServedTurn(xs: seq<Exchange>, room: string, sees: Session -> bool, shown: bool)
    requires xs != [] && AllAnswerable(xs) && AllAnswerable(xs[..|xs| - 1]) && Served(xs, room, sees)
    requires var s, x := Converse(xs[..|xs| - 1]), xs[|xs| - 1];
      && Answerable(x.w, x.req) && Converse(xs) == Turn(s, x) && Turn(s, x).w == x.w && Evolves(s.w, x.w)
      && (Restarts(s, x, room) ==> Tail(x.w, room, Held(Converse(xs).client, room), shown && Brings(s, x, room)))
      && (!Restarts(s, x, room) && Brings(s, x, room) ==>
            s.w.maxStream > 0 && room in x.w.members && x.w.members[room].stream <= s.w.maxStream
            && Held(Converse(xs).client, room)
              == Held(s.client, room) + EventsOf(x.w, room)[|EventsOf(s.w, room)|..])
      && EventsOf(s.w, room) <= EventsOf(x.w, room)
      && (Gap(xs, room) <==>
            (Gap(xs[..|xs| - 1], room) || (Misses(s, x, room) && Held(s.client, room) != [])) && !Restarts(s, x, room))
      && (sees(s) && JoinedIn(s.w, room) ==> Whole(xs[..|xs| - 1], room, shown))
    ensures sees(Converse(xs)) && JoinedIn(Converse(xs).w, room) ==> Whole(xs, room, shown)
  {
    var s, x := Converse(xs[..|xs| - 1]), xs[|xs| - 1];
    ServedLast(xs, room, sees);
    hide Gap, Turn, Reply, Converse, Served, At, Held, EventsOf, Restarts, Brings, AllAnswerable, Answerable, Evolves;
    if sees(Converse(xs)) && JoinedIn(x.w, room) {
      BroughtIsHeld(s, x, room);
      if Restarts(s, x, room) {
        hide Misses;
      } else {
        JoinedBefore(s.w, x.w, room);
      }
    }
  }

  lemma JoinedBefore(w0: World, w: World, room: string)
    requires Evolves(w0, w) && JoinedIn(w, room) && w.members[room].stream <= w0.maxStream
    ensures JoinedIn(w0, room)
  {
  }

  lemma ServedLast(xs: seq<Exchange>, room: string, sees: Session -> bool)
    requires xs != [] && AllAnswerable(xs) && AllAnswerable(xs[..|xs| - 1]) && Served(xs, room, sees)
    ensures Answerable(xs[|xs| - 1].w, xs[|xs| - 1].req)
    ensures var s, x := Converse(xs[..|xs| - 1]), xs[|xs| - 1];
      sees(Converse(xs)) && JoinedIn(x.w, room) ==> Brings(s, x, room) && (Restarts(s, x, room) || sees(s))
  {
    hide *;
    AtEnd(xs);
    AtLast(xs);
    LastTerms(xs, room);
    ServedAt(xs, room, sees, |xs| - 1);
  }

  lemma ServedAt(xs: seq<Exchange>, room: string, sees: Session -> bool, j: nat)
    requires AllAnswerable(xs) && Served(xs, room, sees) && j < |xs|
    ensures sees(At(xs, j + 1)) && JoinedIn(xs[j].w, room) ==>
      BringsAt(xs, j, room) && (RestartsAt(xs, j, room) || sees(At(xs, j)))
  {
    hide BringsAt, RestartsAt, At, JoinedIn, AllAnswerable;
  }

  lemma BroughtIsHeld(s: Session, x: Exchange, room: string)
    requires Answerable(x.w, x.req) && Brings(s, x, room)
    ensures room in Turn(s, x).client.rooms
  {
    hide Build;
  }

  lemma WholeIsTail(xs: seq<Exchange>, room: string, shown: bool)
    requires AllAnswerable(xs) && MovesOn(xs) && Whole(xs, room, shown)
    ensures var s := Converse(xs); room in s.client.rooms && Tail(s.w, room, s.client.rooms[room], shown)
  {
    TailExactly(xs, room);
    hide Gap, Converse, IsSuffix;
  }

  /** Gap-free: a client that sees a joined room only where it is served holds a contiguous tail of it, up
      to the position it was given; with limits of at least 1 the tail ends at the newest event. */
  lemma ServedGapFree(xs: seq<Exchange>, room: string, sees: Session -> bool, shown: bool)
    requires AllAnswerable(xs) && MovesOn(xs) && Served(xs, room, sees)
    requires shown ==> forall x | x in xs :: Showing(x.req)
    ensures var s := Converse(xs);
      sees(s) && JoinedIn(s.w, room) ==> room in s.client.rooms && Tail(s.w, room, s.client.rooms[room], shown)
  {
    hide *;
    ServedIsWhole(xs, room, sees, shown);
    if sees(Converse(xs)) && JoinedIn(Converse(xs).w, room) { WholeIsTail(xs, room, shown); }
  }

  lemma MentionedBrings(xs: seq<Exchange>, j: nat, room: string)
    requires AllAnswerable(xs) && j < |xs| && !SilentAt(xs, j, room) && JoinedIn(xs[j].w, room)
    ensures BringsAt(xs, j, room)
  {
    assert xs[j] in xs;
    var s, x := At(xs, j), xs[j];
    AllSent(x.w, s.client.pos, x.req, s.conn, room, false);
    hide Build, At, Answerable, InitialEvents, EventsForRoom;
  }

  /** In particular when every response mentions the room while it is joined, however it was requested. */
  lemma MentionedGapFree(xs: seq<Exchange>, room: string, shown: bool)
    requires AllAnswerable(xs) && MovesOn(xs)
    requires forall j: nat | j < |xs| && JoinedIn(xs[j].w, room) :: !SilentAt(xs, j, room)
    requires shown ==> forall x | x in xs :: Showing(x.req)
    ensures var s := Converse(xs);
      JoinedIn(s.w, room) ==> room in s.client.rooms && Tail(s.w, room, s.client.rooms[room], shown)
  {
    var sees := (s: Session) => true;
    hide *;
    forall j: nat | j < |xs| && JoinedIn(xs[j].w, room) ensures BringsAt(xs, j, room) { MentionedBrings(xs, j, room); }
    AlwaysServed(xs, room, sees);
    ServedGapFree(xs, room, sees, shown);
  }

  lemma AlwaysServed(xs: seq<Exchange>, room: string, sees: Session -> bool)
    requires AllAnswerable(xs) && (forall s :: sees(s))
    requires forall j: nat | j < |xs| && JoinedIn(xs[j].w, room) :: BringsAt(xs, j, room)
    ensures Served(xs, room, sees)
  {
    hide BringsAt, RestartsAt, At, JoinedIn;
  }

  /** So also when every request subscribes to the room, with or without lists. */
  lemma SubscribedGapFree(xs: seq<Exchange>, room: string, shown: bool)
    requires AllAnswerable(xs) && MovesOn(xs)
    requires forall x | x in xs :: Subscribed(x.req, room) && (shown ==> Showing(x.req))
    ensures var s := Converse(xs);
      JoinedIn(s.w, room) ==> room in s.client.rooms && Tail(s.w, room, s.client.rooms[room], shown)
  {
    forall j: nat | j < |xs| && JoinedIn(xs[j].w, room) ensures !SilentAt(xs, j, room) {
      assert xs[j] in xs;
      SubscribedIsSent(xs[j].w, At(xs, j).client.pos, xs[j].req, At(xs, j).conn, room, false);
      hide Build, At, Subscribed, Sent, Answerable;
    }
    hide *;
    MentionedGapFree(xs, room, shown);
  }

  /** And with lists in every request and no subscription to the room: under any scrolling, limits and
      required state, wherever the room is in the window. */
  lemma GapFree(xs: seq<Exchange>, room: string, shown: bool)
    requires AllAnswerable(xs) && MovesOn(xs)
    requires forall x | x in xs :: x.req.lists != [] && !Subscribed(x.req, room) && (shown ==> Showing(x.req))
    ensures var s := Converse(xs);
      room in s.conn.window && JoinedIn(s.w, room) ==>
        room in s.client.rooms && Tail(s.w, room, s.client.rooms[room], shown)
  {
    var sees := (s: Session) => room in s.conn.window;
    forall j: nat | j < |xs| && sees(At(xs, j + 1)) && JoinedIn(xs[j].w, room)
      ensures BringsAt(xs, j, room) && (RestartsAt(xs, j, room) || sees(At(xs, j)))
    {
      assert xs[j] in xs;
      hide *;
      AtTurn(xs, j);
      WindowServes(xs, j, room);
      MentionedBrings(xs, j, room);
    }
    hide *;
    IsServed(xs, room, sees);
    ServedGapFree(xs, room, sees, shown);
  }

  lemma IsServed(xs: seq<Exchange>, room: string, sees: Session -> bool)
    requires AllAnswerable(xs)
    requires forall j: nat | j < |xs| && sees(At(xs, j + 1)) && JoinedIn(xs[j].w, room) ::
      BringsAt(xs, j, room) && (RestartsAt(xs, j, room) || sees(At(xs, j)))
    ensures Served(xs, room, sees)
  {
    hide BringsAt, RestartsAt, At, JoinedIn;
  }

  lemma WindowServes(xs: seq<Exchange>, j: nat, room: string)
    requires AllAnswerable(xs) && j < |xs| && xs[j].req.lists != [] && !Subscribed(xs[j].req, room)
    requires Answerable(xs[j].w, xs[j].req) && Level(At(xs, j))
    requires At(xs, j + 1) == Turn(At(xs, j), xs[j]) && room in At(xs, j + 1).conn.window && JoinedIn(xs[j].w, room)
    ensures !SilentAt(xs, j, room) && (RestartsAt(xs, j, room) || room in At(xs, j).conn.window)
  {
    assert xs[j] in xs;
    var s, x := At(xs, j), xs[j];
    VisibleIsDelivered(x.w, s.client.pos, x.req, s.conn, room);
    assert s.client.pos >= 0;
    hide Build, At, Answerable, Subscribed, WorldOk;
  }

  // ---- two ways to a gap ----

  /** The user is in one room, which holds the events 1 to n. */
  function OneRoom(n: nat): World {
    World(n, map["!a" := seq(n, i => i + 1)], map["!a" := Membership(Join, 1)], ["!a"])
  }

  const QUIET := Request([], [])
  const SUBSCRIBED := Request([("!a", Sub(Some(1), []))], [])
  const LISTED := Request([], [ListReq([(0, 0)], Some(1), [], None)])

  /** The room is asked for, then not while an event arrives, then again; without lists in between. */
  function Dropped(req: Request): seq<Exchange> {
    [Exchange(OneRoom(1), req), Exchange(OneRoom(2), QUIET), Exchange(OneRoom(3), req)]
  }

  lemma OneRoomOk(n: nat)
    requires 0 < n <= 3
    ensures WorldOk(OneRoom(n)) && Evolves(OneRoom(n), OneRoom(n + 1)) && Evolves(EMPTY_WORLD, OneRoom(1))
    ensures |EventsOf(OneRoom(n), "!a")| == n
  {
  }

  predicate Asks(req: Request) { req == SUBSCRIBED || req == LISTED }

  lemma Asked(n: nat, req: Request)
    requires Asks(req) || req == QUIET
    ensures Answerable(OneRoom(n), req) && Showing(req) && DistinctSubs(req.subs)
    ensures Subscribed(req, "!a") <==> req == SUBSCRIBED
    ensures SomeListed(OneRoom(n), req.lists, "!a") <==> req == LISTED
  {
    if req == LISTED {
      var l := LISTED.lists[0];
      assert (0, 0) in l.ranges && Filtered(OneRoom(n), ["!a"], None) == ["!a"];
      assert InSpan(l, (0, 0), ["!a"], 0) && AtPosition(OneRoom(n), l, "!a");
    } else if req == SUBSCRIBED {
      assert SUBSCRIBED.subs[0] in SUBSCRIBED.subs;
    }
  }

  lemma DroppedRun(req: Request)
    requires Asks(req)
    ensures AllAnswerable(Dropped(req)) && MovesOn(Dropped(req))
  {
    hide *;
    Asked(1, req);
    Asked(2, QUIET);
    Asked(3, req);
    OneRoomOk(1);
    OneRoomOk(2);
    OneRoomOk(3);
    DroppedIs(req);
    ThreeRun(Dropped(req));
  }

  lemma ThreeRun(xs: seq<Exchange>)
    requires |xs| == 3 && forall i | 0 <= i < 3 :: WorldOk(xs[i].w) && Answerable(xs[i].w, xs[i].req)
    requires Evolves(EMPTY_WORLD, xs[0].w) && Evolves(xs[0].w, xs[1].w) && Evolves(xs[1].w, xs[2].w)
    ensures AllAnswerable(xs) && MovesOn(xs)
  {
    hide WorldOk, Evolves, Answerable;
    forall x | x in xs ensures WorldOk(x.w) && Answerable(x.w, x.req) {
      var i :| 0 <= i < |xs| && xs[i] == x;
    }
  }

  /** Whatever asks for the room with limit 1 and no state, the connection then remembers that. */
  lemma AskedRemembers(w: World, since: int, req: Request, conn: Conn)
    requires Answerable(w, req) && Asks(req) && "!a" in Build(w, since, req, conn).0.rooms
    requires Subscribed(req, "!a") <==> req == SUBSCRIBED
    ensures Remembers(Build(w, since, req, conn).1, "!a", Some(1), [])
  {
    ResponseExactly(w, since, req, conn, "!a");
    hide Build, RoomResult, AsksMore, Answerable, AtPosition;
  }

  /** The first response brings the one event. */
  lemma Opening(req: Request)
    requires Asks(req) && AllAnswerable(Dropped(req)) && MovesOn(Dropped(req))
    ensures var s := At(Dropped(req), 1);
      && Held(s.client, "!a") != [] && Tail(s.w, "!a", Held(s.client, "!a"), false)
      && Remembers(s.conn, "!a", Some(1), []) && (req == LISTED ==> "!a" in s.conn.window)
      && |EventsOf(s.w, "!a")| == 1
  {
    hide *;
    var xs := Dropped(req);
    DroppedIs(req);
    AtTurn(xs, 0);
    AtStart(xs);
    Asked(1, req);
    OneRoomOk(1);
    OpeningTurn(At(xs, 0), xs[0]);
  }

  lemma DroppedIs(req: Request)
    ensures var xs := Dropped(req);
      |xs| == 3 && xs[0] == Exchange(OneRoom(1), req) && xs[1] == Exchange(OneRoom(2), QUIET)
      && xs[2] == Exchange(OneRoom(3), req)
  {
    hide OneRoom;
  }

  lemma AtStart(xs: seq<Exchange>)
    requires AllAnswerable(xs)
    ensures At(xs, 0) == START
  {
  }

  lemma OpeningTurn(s: Session, x: Exchange)
    requires s == START && Level(s) && x.w == OneRoom(1) && Asks(x.req) && Showing(x.req) && DistinctSubs(x.req.subs)
    requires WorldOk(x.w) && Evolves(s.w, x.w) && Answerable(x.w, x.req) && |EventsOf(x.w, "!a")| == 1
    requires Subscribed(x.req, "!a") <==> x.req == SUBSCRIBED
    requires SomeListed(x.w, x.req.lists, "!a") <==> x.req == LISTED
    ensures var t := Turn(s, x);
      && Held(t.client, "!a") != [] && Tail(t.w, "!a", Held(t.client, "!a"), false)
      && Remembers(t.conn, "!a", Some(1), []) && (x.req == LISTED ==> "!a" in t.conn.window)
  {
    ResponseExactly(x.w, 0, x.req, s.conn, "!a");
    WindowExactly(x.w, 0, x.req, s.conn, "!a");
    AskedRemembers(x.w, 0, x.req, s.conn);
    InitialExactly(x.w, 0, x.req, s.conn, "!a");
    AllSent(x.w, 0, x.req, s.conn, "!a", false);
    SentKind(x.w, 0, "!a", Reply(s, x).rooms["!a"]);
    hide Build, Held, WorldOk, Evolves, SomeListed, Sent, BySub, Subscribed, Answerable, EventsOf, Level, Showing;
    TurnHolds(s, x, "!a", true);
    TailWeaker(x.w, "!a", Held(Turn(s, x).client, "!a"), true, false);
    hide IsSuffix, Receive;
  }

  /** The quiet response says nothing of the room, the last one brings it. */
  lemma ThenSilent(req: Request)
    requires Asks(req) && AllAnswerable(Dropped(req)) && MovesOn(Dropped(req))
    ensures SilentAt(Dropped(req), 1, "!a") && BringsAt(Dropped(req), 2, "!a")
  {
    var xs := Dropped(req);
    assert xs[1] in xs && xs[2] in xs;
    Asked(2, QUIET);
    Asked(3, req);
    ResponseExactly(xs[1].w, At(xs, 1).client.pos, QUIET, At(xs, 1).conn, "!a");
    ResponseExactly(xs[2].w, At(xs, 2).client.pos, req, At(xs, 2).conn, "!a");
    assert JoinedIn(xs[2].w, "!a");
    hide Build, At, SomeListed, Subscribed, Answerable, AllAnswerable, BySub, JoinedIn, MovesOn;
    MentionedBrings(xs, 2, "!a");
  }

  lemma NotNewAgain(req: Request)
    requires Asks(req) && AllAnswerable(Dropped(req)) && At(Dropped(req), 2).client.pos == 2
    requires var conn := At(Dropped(req), 1).conn;
      Remembers(conn, "!a", Some(1), []) && (req == LISTED ==> "!a" in conn.window)
    requires Subscribed(req, "!a") <==> req == SUBSCRIBED
    ensures !NewAgain(Dropped(req), 1, "!a")
  {
    var xs := Dropped(req);
    assert xs[2] in xs && xs[2] == Exchange(OneRoom(3), req) && |xs| - 1 == 2 && Listless(xs, 1, 2);
    assert "!a" in OneRoom(3).members && OneRoom(3).members["!a"].stream <= 2;
    NotForcedAgain(req, At(xs, 1).conn);
    NewAgainIs(xs, 1, "!a");
    hide *;
  }

  lemma NotForcedAgain(req: Request, conn: Conn)
    requires Asks(req) && Answerable(OneRoom(3), req)
    requires Remembers(conn, "!a", Some(1), []) && (req == LISTED ==> "!a" in conn.window)
    requires Subscribed(req, "!a") <==> req == SUBSCRIBED
    ensures !Forced(Exchange(OneRoom(3), req), "!a", conn, true)
  {
    hide Answerable, AtPosition, Subscribed;
    assert forall i | FirstListed(OneRoom(3), req.lists, i, "!a") :: req.lists[i] == LISTED.lists[0];
  }

  /** Either way the client misses the second event. */
  lemma DroppedLeavesGap(req: Request)
    requires Asks(req)
    ensures AllAnswerable(Dropped(req)) && MovesOn(Dropped(req)) && Gap(Dropped(req), "!a")
  {
    hide *;
    var xs := Dropped(req);
    DroppedRun(req);
    DroppedIs(req);
    Opening(req);
    ThenSilent(req);
    AtTurn(xs, 1);
    AtTurn(xs, 2);
    OneRoomOk(2);
    Asked(3, req);
    LevelPos(At(xs, 2), 2);
    NotNewAgain(req);
    ReturnByRequest(xs, 1, "!a");
    TailExactly(xs, "!a");
  }

  lemma LevelPos(s: Session, n: nat)
    requires s.w == OneRoom(n) && Level(s)
    ensures s.client.pos == n
  {
  }

  /** A subscription dropped and taken up again leaves a gap: the room counts as delivered. */
  lemma ResubscriptionGap()
    ensures AllAnswerable(Dropped(SUBSCRIBED)) && MovesOn(Dropped(SUBSCRIBED)) && Gap(Dropped(SUBSCRIBED), "!a")
  {
    DroppedLeavesGap(SUBSCRIBED);
  }

  /** So does a request without lists between two with: the room counts as visible all along. */
  lemma OmittedListsGap()
    ensures AllAnswerable(Dropped(LISTED)) && MovesOn(Dropped(LISTED)) && Gap(Dropped(LISTED), "!a")
  {
    DroppedLeavesGap(LISTED);
  }
}
