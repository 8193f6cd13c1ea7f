/** Where a sliding-sync timeline ends, /messages goes on: prev_batch, and what `limited` tells. */
module SlidingSyncHistory {
  import opened Wrappers
  import opened EventStore
  import opened SlidingSync
  import opened SlidingSyncClient
  import Messages

  /** The timeline is the room's events from index k on, and prev_batch stands right before them: paging
      back from it yields exactly the events the timeline left out. */
  ghost predicate MeetsHistory(evs: seq<int>, r: RoomResp, k: nat) {
    k <= |evs| && r.timeline == evs[k..]
      && (r.timeline != [] ==> r.prevBatch.Some? && Messages.Stands(evs, r.prevBatch, k))
  }

  lemma FreshPrevBatch(w: World, room: string, m: Membership, since: int, limit: Option<int>, force: bool)
    requires m.kind == Join && (since == 0 || m.stream > since || force)
    ensures var r := RoomResult(w, room, m, since, limit, force);
      r.timeline != [] ==> r.prevBatch == Some(r.timeline[0] - 1)
  {
    hide InitialEvents;
  }

  lemma RoomIncreases(w: World, room: string)
    requires WorldOk(w)
    ensures var evs := EventsOf(w, room); Increasing(evs) && forall i | 0 <= i < |evs| :: 0 < evs[i] < MAX_STREAM
  {
    hide EventsOf;
  }

  lemma StandsBefore(evs: seq<int>, k: nat)
    requires Increasing(evs) && k < |evs| && 0 < evs[k] < MAX_STREAM
    ensures Messages.Stands(evs, Some(evs[k] - 1), k)
  {
  }

  lemma SuffixMeets(evs: seq<int>, r: RoomResp, k: nat)
    requires Increasing(evs) && forall i | 0 <= i < |evs| :: 0 < evs[i] < MAX_STREAM
    requires k <= |evs| && r.timeline == evs[k..] && (r.timeline != [] ==> r.prevBatch == Some(r.timeline[0] - 1))
    ensures MeetsHistory(evs, r, k)
  {
    hide Messages.Stands;
    if k < |evs| {
      assert r.timeline[0] == evs[k];
      StandsBefore(evs, k);
    }
  }

  lemma TailMeets(w: World, room: string, r: RoomResp, shown: bool)
    requires var evs := EventsOf(w, room); Increasing(evs) && forall i | 0 <= i < |evs| :: 0 < evs[i] < MAX_STREAM
    requires Tail(w, room, r.timeline, shown) && (r.timeline != [] ==> r.prevBatch == Some(r.timeline[0] - 1))
    ensures exists k :: MeetsHistory(EventsOf(w, room), r, k)
  {
    hide Increasing, EventsOf, MeetsHistory;
    SuffixMeets(EventsOf(w, room), r, |EventsOf(w, room)| - |r.timeline|);
  }

  /** A room delivered as new. */
  lemma NewRoomMeetsHistory(w: World, room: string, m: Membership, since: int, limit: Option<int>, force: bool)
    requires WorldOk(w) && m.kind == Join && (since == 0 || m.stream > since || force)
    ensures exists k :: MeetsHistory(EventsOf(w, room), RoomResult(w, room, m, since, limit, force), k)
  {
    hide *;
    FreshIsTail(w, room, m, since, limit, force);
    FreshPrevBatch(w, room, m, since, limit, force);
    RoomIncreases(w, room);
    TailMeets(w, room, RoomResult(w, room, m, since, limit, force), Limit(limit) > 0);
  }

  /** A room the client holds, at the position of its last response. */
  lemma DeltaMeetsHistory(w0: World, w: World, room: string, m: Membership, limit: Option<int>)
    requires WorldOk(w0) && WorldOk(w) && Evolves(w0, w) && w0.maxStream > 0 && m.kind == Join
      && m.stream <= w0.maxStream
    ensures MeetsHistory(EventsOf(w, room), RoomResult(w, room, m, w0.maxStream, limit, false), |EventsOf(w0, room)|)
  {
    DeltaIsRest(w0, w, room);
    hide EventsForRoom;
    assert Extends(EventsOf(w0, room), EventsOf(w, room), w0.maxStream);
  }

  /** n positions lie between an event and the n-th after it. */
  lemma SpreadOut(evs: seq<int>, j: nat)
    requires Increasing(evs) && j < |evs|
    ensures evs[j] <= evs[|evs| - 1] - (|evs| - 1 - j)
  {
    var tail := evs[j..];
    forall i | 0 <= i < |tail| ensures evs[j] - 1 < tail[i] <= evs[|evs| - 1] { assert tail[i] == evs[j + i]; }
    Crowded(tail, evs[j] - 1, evs[|evs| - 1]);
  }

  /** `limited` is set exactly when each of the last limit+1 positions of the shared stream up to the
      room's newest event is an event of this room. */
  lemma LimitedExactly(w: World, room: string, m: Membership, since: int, limit: Option<int>, force: bool)
    requires WorldOk(w) && m.kind == Join && (since == 0 || m.stream > since || force)
    ensures var evs, n := EventsOf(w, room), Limit(limit);
      RoomResult(w, room, m, since, limit, force).limited <==> |evs| > n && evs[|evs| - 1 - n] == evs[|evs| - 1] - n
  {
    var evs, n := EventsOf(w, room), Limit(limit);
    var k := InitialSplit(w, room, n);
    assert RoomResult(w, room, m, since, limit, force).limited <==> |evs| - k > n;
    hide RoomResult, InitialEvents;
    if |evs| > n {
      var j := |evs| - 1 - n;
      SpreadOut(evs, j);
      assert evs[j] > 0 && (j >= k <==> evs[j] > WindowStart(w, room, n));
    }
  }

  /** The flag tells whether the timeline leaves older events out exactly when there is nothing to leave
      out, or all of the room lies in the window, or the flag is set. */
  lemma FlagTruthfulExactly(w: World, room: string, m: Membership, since: int, limit: Option<int>, force: bool)
    requires WorldOk(w) && m.kind == Join && (since == 0 || m.stream > since || force)
    ensures var evs, n, r := EventsOf(w, room), Limit(limit), RoomResult(w, room, m, since, limit, force);
      (r.limited <==> |r.timeline| < |evs|) <==>
        || evs == [] || evs[0] > WindowStart(w, room, n)
        || (|evs| > n && evs[|evs| - 1 - n] == evs[|evs| - 1] - n)
  {
    LimitedExactly(w, room, m, since, limit, force);
    var evs, n := EventsOf(w, room), Limit(limit);
    var k := InitialSplit(w, room, n);
    FreshLength(w, room, m, since, limit, force, k);
    hide RoomResult, InitialEvents, WorldOk;
    if evs != [] { assert 0 >= k <==> evs[0] > WindowStart(w, room, n); }
  }

  lemma FreshLength(w: World, room: string, m: Membership, since: int, limit: Option<int>, force: bool, k: nat)
    requires m.kind == Join && (since == 0 || m.stream > since || force)
    requires k <= |EventsOf(w, room)| && InitialEvents(w, room, Limit(limit)) == EventsOf(w, room)[k..]
    ensures var evs, n, r := EventsOf(w, room), Limit(limit), RoomResult(w, room, m, since, limit, force);
      (r.limited <==> |evs| - k > n) && |r.timeline| == if |evs| - k > n then n else |evs| - k
  {
    hide InitialEvents, EventsOf;
  }

  /** An instance: two events ten positions apart, of which one is sent, unflagged. */
  lemma TruncatedUnflagged()
    ensures var w := World(20, map["!a" := [10, 20]], map["!a" := Membership(Join, 1)], ["!a"]);
      var r := RoomResult(w, "!a", w.members["!a"], 0, Some(2), false);
      r.timeline == [20] && !r.limited
  {
    ThinWindow();
    hide RoomResult;
    var w := World(20, map["!a" := [10, 20]], map["!a" := Membership(Join, 1)], ["!a"]);
    assert WorldOk(w);
    LimitedExactly(w, "!a", w.members["!a"], 0, Some(2), false);
  }
}
