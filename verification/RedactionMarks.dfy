/** Applying redactions on either order of arrival (internal/eventstate/redact.go, and the call sites in
    internal/csapi/rooms.go). */
module RedactionMarks {
  import opened Wrappers
  import opened Sorting

  datatype Event = Event(id: string, room: string, typ: string, sender: string, redacts: string)
  {
    predicate IsRedaction() { typ == "m.room.redaction" && redacts != "" }
    /** The arrival of the event looks for a redaction that came before it. */
    predicate Plain() { typ != "m.room.redaction" && redacts == "" }
  }

  /** mark: the redaction that marked the event. */
  datatype Row = Row(ev: Event, mark: Option<string>)
  type Store = map<string, Row>

  /** Power levels that do not change during the run. */
  datatype Levels = Levels(user: (string, string) -> int, redact: string -> int)

  function DomainOf(user: string): string {
    if user == "" then "" else if user[0] == ':' then user[1..] else DomainOf(user[1..])
  }

  /** The redaction may be applied: enough power in the room, or the target's own server. */
  predicate Allowed(l: Levels, redaction: Event, target: Event) {
    || l.user(redaction.room, redaction.sender) >= l.redact(redaction.room)
    || (DomainOf(redaction.sender) != "" && DomainOf(redaction.sender) == DomainOf(target.sender))
  }

  /** A same-room redaction of the target that the rules allow. */
  predicate Redacts(l: Levels, redaction: Event, target: Event) {
    redaction.IsRedaction() && redaction.redacts == target.id && redaction.room == target.room
      && Allowed(l, redaction, target)
  }

  function Apply(l: Levels, s: Store, redaction: Event): Store {
    if redaction.redacts in s && s[redaction.redacts].mark.None? && s[redaction.redacts].ev.id == redaction.redacts
       && Redacts(l, redaction, s[redaction.redacts].ev)
    then s[redaction.redacts := s[redaction.redacts].(mark := Some(redaction.id))] else s
  }

  function Insert(s: Store, ev: Event): Store {
    if ev.id in s then s else s[ev.id := Row(ev, None)]
  }

  /** What RedactionForEvent may return: LIMIT 1 picks any event, of any type, that names the target. */
  predicate MayPick(s: Store, target: string, pick: Option<string>) {
    match pick
    case None => forall id | id in s :: s[id].ev.redacts != target
    case Some(id) => id in s && s[id].ev.redacts == target
  }

  /** persistEventInRoom, given the event the pending-redaction query picked. */
  function Persist(l: Levels, s: Store, ev: Event, pick: Option<string>): Store {
    var s1 := Insert(s, ev);
    if ev.IsRedaction() then Apply(l, s1, ev)
    else if ev.Plain() && pick.Some? && pick.value in s1 then Apply(l, s1, s1[pick.value].ev)
    else s1
  }

  // ---- the program ----

  class EventTable {
    var rows: Store

    constructor ()
      ensures rows == map[]
    {
      rows := map[];
    }

    /** ApplyRedaction; applied is the target's id, "" when it was not applied. */
    method ApplyRedaction(l: Levels, redaction: Event) returns (applied: string)
      requires forall id | id in rows :: rows[id].ev.id == id
      modifies this
      ensures rows == Apply(l, old(rows), redaction)
      ensures
        redaction.IsRedaction() && redaction.redacts in rows && rows[redaction.redacts].mark == Some(redaction.id) ==>
        applied == redaction.redacts || rows[redaction.redacts].ev.room != redaction.room
    {
      if !redaction.IsRedaction() || redaction.redacts !in rows {
        return "";
      }
      var target := rows[redaction.redacts];
      if target.ev.room != redaction.room {
        return "";
      }
      if target.mark.Some? {
        return target.ev.id;
      }
      if l.user(redaction.room, redaction.sender) >= l.redact(redaction.room) {
        rows := rows[target.ev.id := target.(mark := Some(redaction.id))];
        return target.ev.id;
      }
      var dom := DomainOf(redaction.sender);
      if dom != "" && dom == DomainOf(target.ev.sender) {
        rows := rows[target.ev.id := target.(mark := Some(redaction.id))];
        return target.ev.id;
      }
      return "";
    }

    method RedactionForEvent(target: string) returns (pick: Option<string>)
      ensures MayPick(rows, target, pick)
    {
      var ids := ListOf(rows.Keys);
      for i := 0 to |ids|
        invariant forall j | 0 <= j < i :: ids[j] in rows && rows[ids[j]].ev.redacts != target
      {
        assert ids[i] in Elems(ids);
        if rows[ids[i]].ev.redacts == target {
          return Some(ids[i]);
        }
      }
      forall id | id in rows ensures rows[id].ev.redacts != target { assert id in Elems(ids); }
      return None;
    }

    method PersistEvent(l: Levels, ev: Event) returns (ghost pick: Option<string>)
      requires forall id | id in rows :: rows[id].ev.id == id
      modifies this
      ensures MayPick(Insert(old(rows), ev), ev.id, pick) && rows == Persist(l, old(rows), ev, pick)
    {
      rows := Insert(rows, ev);
      ghost var inserted := rows;
      var red := RedactionForEvent(ev.id);
      pick := red;
      if ev.IsRedaction() {
        var _ := ApplyRedaction(l, ev);
      } else if ev.Plain() {
        if red.Some? {
          var _ := ApplyRedaction(l, rows[red.value].ev);
        }
      }
    }
  }

  // ---- what every run keeps ----

  /** Rows are filed under their ids, and every mark was put by a stored redaction that may. */
  ghost predicate Inv(l: Levels, s: Store) {
    forall id | id in s ::
      && s[id].ev.id == id
      && (s[id].mark.Some? ==> s[id].mark.value in s && Redacts(l, s[s[id].mark.value].ev, s[id].ev))
  }

  lemma ApplyKeeps(l: Levels, s: Store, redaction: Event)
    requires Inv(l, s) && redaction.id in s && s[redaction.id].ev == redaction
    ensures Inv(l, Apply(l, s, redaction))
    ensures forall id | id in s ::
      id in Apply(l, s, redaction) && (s[id].mark.Some? ==> Apply(l, s, redaction)[id] == s[id])
  {
    hide Redacts;
  }

  /** A mark is only put by a same-room redaction that meets the power or domain rule, and it is never
      removed nor changed. */
  lemma PersistKeeps(l: Levels, s: Store, ev: Event, pick: Option<string>)
    requires Inv(l, s) && (ev.id in s ==> s[ev.id].ev == ev) && MayPick(Insert(s, ev), ev.id, pick)
    ensures Inv(l, Persist(l, s, ev, pick))
    ensures forall id | id in s && s[id].mark.Some? ::
      id in Persist(l, s, ev, pick) && Persist(l, s, ev, pick)[id] == s[id]
  {
    hide Redacts;
    var s1 := Insert(s, ev);
    assert Inv(l, s1);
    if ev.IsRedaction() {
      ApplyKeeps(l, s1, ev);
    } else if ev.Plain() && pick.Some? {
      ApplyKeeps(l, s1, s1[pick.value].ev);
    }
  }

  // ---- independence of the order ----

  datatype Arrival = Arrival(ev: Event, pick: Option<string>)

  function Run(l: Levels, arrivals: seq<Arrival>): Store {
    if arrivals == [] then map[] else
      var a := arrivals[|arrivals| - 1];
      Persist(l, Run(l, arrivals[..|arrivals| - 1]), a.ev, a.pick)
  }

  /** The picks are answers the query could have given at the time. */
  predicate Faithful(l: Levels, arrivals: seq<Arrival>)
    decreases |arrivals|
  {
    arrivals == [] ||
    (var init, a := arrivals[..|arrivals| - 1], arrivals[|arrivals| - 1];
     Faithful(l, init) && MayPick(Insert(Run(l, init), a.ev), a.ev.id, a.pick))
  }

  ghost function Events(arrivals: seq<Arrival>): set<Event> {
    set a | a in arrivals :: a.ev
  }

  /** Ids identify events. */
  ghost predicate Ids(events: set<Event>) {
    forall a, b | a in events && b in events && a.id == b.id :: a == b
  }

  /** Some redaction among the events may be applied to the target. */
  ghost predicate Redactable(l: Levels, events: set<Event>, target: Event) {
    exists r :: r in events && Redacts(l, r, target)
  }

  /** Some event names the target without being allowed to redact it. */
  ghost predicate Blocked(l: Levels, events: set<Event>, target: Event) {
    exists a :: a in events && a.redacts == target.id && !Redacts(l, a, target)
  }

  /** Ids identify events, and of the events that name a plain one all may redact it or none may; in
      particular there may be at most one. */
  ghost predicate Unmixed(l: Levels, events: set<Event>) {
    Ids(events) && forall t | t in events && t.Plain() && Redactable(l, events, t) :: !Blocked(l, events, t)
  }

  /** The store holds exactly these events. */
  ghost predicate Holds(events: set<Event>, s: Store) {
    (forall id | id in s :: s[id].ev in events) && (forall e | e in events :: e.id in s && s[e.id].ev == e)
  }

  /** The store holds the events, and its plain ones are marked exactly when redactable. */
  ghost predicate MarksExactly(l: Levels, events: set<Event>, s: Store) {
    && Inv(l, s) && Holds(events, s)
    && (forall e | e in events && e.Plain() && e.id in s :: s[e.id].mark.Some? <==> Redactable(l, events, e))
  }

  lemma ApplyRows(l: Levels, s: Store, r: Event)
    ensures forall id :: id in Apply(l, s, r) <==> id in s
    ensures forall id | id in s :: Apply(l, s, r)[id].ev == s[id].ev
  {
    hide Redacts;
  }

  lemma PersistHolds(l: Levels, events: set<Event>, s: Store, ev: Event, pick: Option<string>)
    requires Holds(events, s) && (ev.id in s ==> s[ev.id].ev == ev)
    ensures Holds(events + {ev}, Persist(l, s, ev, pick)) && Holds(events + {ev}, Insert(s, ev))
  {
    var s1 := Insert(s, ev);
    assert Holds(events + {ev}, s1);
    ApplyRows(l, s1, ev);
    if pick.Some? && pick.value in s1 { ApplyRows(l, s1, s1[pick.value].ev); }
    hide Apply;
  }

  lemma EventsOfInit(arrivals: seq<Arrival>)
    requires arrivals != []
    ensures Events(arrivals) == Events(arrivals[..|arrivals| - 1]) + {arrivals[|arrivals| - 1].ev}
  {
    var init, a := arrivals[..|arrivals| - 1], arrivals[|arrivals| - 1];
    assert a in arrivals;
    forall x | x in arrivals ensures x in init || x == a {}
    forall x | x in init ensures x in arrivals {}
  }

  lemma NothingHeld(l: Levels)
    ensures Events([]) == {} && Run(l, []) == map[] && Inv(l, map[]) && Holds({}, map[])
  {
  }

  lemma RunOpens(l: Levels, arrivals: seq<Arrival>)
    requires arrivals != [] && Faithful(l, arrivals)
    ensures var init, a := arrivals[..|arrivals| - 1], arrivals[|arrivals| - 1];
      && Faithful(l, init) && MayPick(Insert(Run(l, init), a.ev), a.ev.id, a.pick)
      && Run(l, arrivals) == Persist(l, Run(l, init), a.ev, a.pick)
  {
    hide Persist, Insert, MayPick;
  }

  lemma KnownEvent(l: Levels, events: set<Event>, s: Store, ev: Event)
    requires Inv(l, s) && Holds(events, s) && Ids(events + {ev})
    ensures ev.id in s ==> s[ev.id].ev == ev
  {
    hide Redacts;
    if ev.id in s {
      assert s[ev.id].ev in events + {ev} && ev in events + {ev};
    }
  }

  lemma FewerIds(events: set<Event>, more: set<Event>)
    requires events <= more && Ids(more)
    ensures Ids(events)
  {
  }

  lemma {:induction false} RunHolds(l: Levels, arrivals: seq<Arrival>)
    requires Faithful(l, arrivals) && Ids(Events(arrivals))
    ensures Inv(l, Run(l, arrivals)) && Holds(Events(arrivals), Run(l, arrivals))
    decreases |arrivals|
  {
    hide *;
    if arrivals == [] {
      NothingHeld(l);
    } else {
      var init, a := arrivals[..|arrivals| - 1], arrivals[|arrivals| - 1];
      EventsOfInit(arrivals);
      FewerIds(Events(init), Events(arrivals));
      RunOpens(l, arrivals);
      RunHolds(l, init);
      KnownEvent(l, Events(init), Run(l, init), a.ev);
      PersistKeeps(l, Run(l, init), a.ev, a.pick);
      PersistHolds(l, Events(init), Run(l, init), a.ev, a.pick);
    }
  }

  // ---- which arrivals mark an event ----

  /** The arrival marks e: it redacts e, which is there, or it is e, plain, and the query picks an event
      that may redact it. */
  ghost predicate Marking(l: Levels, s: Store, ev: Event, pick: Option<string>, e: Event) {
    || Redacts(l, ev, e)
    || (ev == e && e.Plain() && pick.Some? && pick.value in Insert(s, ev)
      && Redacts(l, Insert(s, ev)[pick.value].ev, e))
  }

  lemma PersistMarks(l: Levels, s: Store, ev: Event, pick: Option<string>, e: Event)
    requires MayPick(Insert(s, ev), ev.id, pick) && (ev.id in s ==> s[ev.id].ev == ev)
    requires e.id in Insert(s, ev) && Insert(s, ev)[e.id].ev == e
    ensures e.id in Persist(l, s, ev, pick)
    ensures Persist(l, s, ev, pick)[e.id].mark.Some?
      <==> (e.id in s && s[e.id].mark.Some?) || Marking(l, s, ev, pick, e)
  {
    hide Allowed;
  }

  // ---- the same, told from the events ----

  /** Both user ids name a server, behind their first colon, and it is the same one. */
  ghost predicate SameServer(a: string, b: string) {
    exists i, j :: ServerAt(a, i) && ServerAt(b, j) && a[i + 1..] == b[j + 1..] && a[i + 1..] != ""
  }

  ghost predicate ServerAt(user: string, i: int) {
    0 <= i < |user| && user[i] == ':' && forall k | 0 <= k < i :: user[k] != ':'
  }

  lemma {:induction false} DomainExactly(user: string)
    ensures forall i | ServerAt(user, i) :: DomainOf(user) == user[i + 1..]
    ensures DomainOf(user) != "" ==> exists i :: ServerAt(user, i)
    decreases |user|
  {
    if user != "" && user[0] != ':' {
      DomainExactly(user[1..]);
      forall i | ServerAt(user, i) ensures DomainOf(user) == user[i + 1..] {
        assert ServerAt(user[1..], i - 1) && user[1..][i..] == user[i + 1..];
      }
      if i :| ServerAt(user[1..], i) { assert ServerAt(user, i + 1); }
    } else if user != "" {
      assert ServerAt(user, 0);
    }
  }

  /** A redaction may be applied to an event it names, in its own room, when its sender's power reaches the
      room's redact level there, or when both senders are of one server. */
  ghost predicate MayRedact(l: Levels, r: Event, e: Event) {
    && r.typ == "m.room.redaction" && r.redacts != "" && r.redacts == e.id && r.room == e.room
    && (l.user(r.room, r.sender) >= l.redact(r.room) || SameServer(r.sender, e.sender))
  }

  lemma RedactsExactly(l: Levels, r: Event, e: Event)
    ensures Redacts(l, r, e) <==> MayRedact(l, r, e)
  {
    DomainExactly(r.sender);
    DomainExactly(e.sender);
    hide DomainOf;
  }

  /** An arrival stores the event if it is new. It marks an event exactly when it is a redaction that may be
      applied to it, or when it is the event itself, neither a redaction nor one that names a target, and
      the query picks such a redaction; marks from before stay. */
  lemma ArrivalExactly(l: Levels, s: Store, ev: Event, pick: Option<string>, id: string)
    requires MayPick(Insert(s, ev), ev.id, pick) && Inv(l, s) && (ev.id in s ==> s[ev.id].ev == ev)
    ensures var t := Persist(l, s, ev, pick);
      && (id in t <==> id in s || id == ev.id)
      && (id in t ==>
            && t[id].ev == (if id in s then s[id].ev else ev)
            && (id in s && s[id].mark.Some? ==> t[id].mark == s[id].mark)
            && (!(id in s && s[id].mark.Some?) ==> (t[id].mark.Some? <==>
                  || MayRedact(l, ev, t[id].ev)
                  || (id == ev.id && ev.typ != "m.room.redaction" && ev.redacts == "" && pick.Some? && pick.value in t
                        && MayRedact(l, t[pick.value].ev, ev)))))
  {
    var s1, t := Insert(s, ev), Persist(l, s, ev, pick);
    ApplyRows(l, s1, ev);
    if pick.Some? && pick.value in s1 {
      ApplyRows(l, s1, s1[pick.value].ev);
      RedactsExactly(l, s1[pick.value].ev, ev);
    }
    PersistKeeps(l, s, ev, pick);
    hide Redacts, MayRedact, Apply;
    if id in s1 {
      var e := s1[id].ev;
      RedactsExactly(l, ev, e);
      assert e.id == id;
      PersistMarks(l, s, ev, pick, e);
    }
  }

  /** Arrival j marks e, which arrived with it or before. */
  ghost predicate Marks(l: Levels, arrivals: seq<Arrival>, j: nat, e: Event)
    requires j < |arrivals|
  {
    var before, a := arrivals[..j], arrivals[j];
    (e == a.ev || e in Events(before)) && Marking(l, Run(l, before), a.ev, a.pick, e)
  }

  ghost predicate SomeMarks(l: Levels, arrivals: seq<Arrival>, e: Event) {
    exists j :: 0 <= j < |arrivals| && Marks(l, arrivals, j, e)
  }

  lemma MarksEarlier(l: Levels, arrivals: seq<Arrival>, j: nat, e: Event)
    requires j < |arrivals| - 1
    ensures Marks(l, arrivals, j, e) <==> Marks(l, arrivals[..|arrivals| - 1], j, e)
  {
    assert arrivals[..|arrivals| - 1][..j] == arrivals[..j];
    hide Marking;
  }

  lemma SomeMarksOpens(l: Levels, arrivals: seq<Arrival>, e: Event)
    requires arrivals != []
    ensures SomeMarks(l, arrivals, e) <==>
      SomeMarks(l, arrivals[..|arrivals| - 1], e) || Marks(l, arrivals, |arrivals| - 1, e)
  {
    hide Marks;
    var init := arrivals[..|arrivals| - 1];
    forall j: nat | j < |init| ensures Marks(l, arrivals, j, e) <==> Marks(l, init, j, e) {
      MarksEarlier(l, arrivals, j, e);
    }
    if SomeMarks(l, init, e) {
      var j: int :| 0 <= j < |init| && Marks(l, init, j, e);
      assert Marks(l, arrivals, j, e);
    }
    if SomeMarks(l, arrivals, e) {
      var j: int :| 0 <= j < |arrivals| && Marks(l, arrivals, j, e);
      assert j < |init| ==> Marks(l, init, j, e);
    }
  }

  /** Nothing marks an event before it is there. */
  lemma NotYetMarked(l: Levels, arrivals: seq<Arrival>, e: Event)
    requires e !in Events(arrivals)
    ensures !SomeMarks(l, arrivals, e)
  {
    forall j: nat | j < |arrivals| ensures !Marks(l, arrivals, j, e) {
      assert arrivals[j] in arrivals && forall a | a in arrivals[..j] :: a in arrivals;
    }
    hide Marks;
  }

  /** In every run, of whatever events: one of them is marked exactly when some arrival marks it. */
  lemma {:induction false} MarkedExactly(l: Levels, arrivals: seq<Arrival>, e: Event)
    requires Faithful(l, arrivals) && Ids(Events(arrivals)) && e in Events(arrivals)
    ensures e.id in Run(l, arrivals)
    ensures Run(l, arrivals)[e.id].mark.Some? <==> SomeMarks(l, arrivals, e)
    decreases |arrivals|
  {
    hide *;
    assert arrivals != [] by { NothingHeld(l); }
    var init, a := arrivals[..|arrivals| - 1], arrivals[|arrivals| - 1];
    EventsOfInit(arrivals);
    FewerIds(Events(init), Events(arrivals));
    RunOpens(l, arrivals);
    RunHolds(l, init);
    KnownEvent(l, Events(init), Run(l, init), a.ev);
    PersistHolds(l, Events(init), Run(l, init), a.ev, a.pick);
    HeldEvent(Events(arrivals), Insert(Run(l, init), a.ev), e);
    PersistMarks(l, Run(l, init), a.ev, a.pick, e);
    SomeMarksOpens(l, arrivals, e);
    LastMarks(l, arrivals, e);
    if e in Events(init) {
      MarkedExactly(l, init, e);
    } else {
      NotYetMarked(l, init, e);
      HeldOnly(l, Events(init), Run(l, init), Events(arrivals), e);
    }
  }

  lemma LastMarks(l: Levels, arrivals: seq<Arrival>, e: Event)
    requires arrivals != [] && e in Events(arrivals)
    ensures var init, a := arrivals[..|arrivals| - 1], arrivals[|arrivals| - 1];
      Marks(l, arrivals, |arrivals| - 1, e) <==> Marking(l, Run(l, init), a.ev, a.pick, e)
  {
    hide Marking, Run;
    EventsOfInit(arrivals);
  }

  lemma HeldEvent(events: set<Event>, s: Store, e: Event)
    requires Holds(events, s) && e in events
    ensures e.id in s && s[e.id].ev == e
  {
  }

  lemma HeldOnly(l: Levels, events: set<Event>, s: Store, all: set<Event>, e: Event)
    requires Inv(l, s) && Holds(events, s) && events <= all && Ids(all) && e in all && e !in events
    ensures e.id !in s
  {
    hide Redacts;
    assert forall id | id in s :: s[id].ev in all && s[id].ev != e && s[id].ev.id == id;
  }

  lemma HeldWithin(events: set<Event>, s: Store, all: set<Event>)
    requires Holds(events, s) && events <= all
    ensures forall id | id in s :: s[id].ev in all
  {
  }

  // ---- independence of the order ----

  lemma MarkedIsRedactable(l: Levels, events: set<Event>, s: Store, e: Event)
    requires Inv(l, s) && Holds(events, s) && e.id in s && s[e.id].ev == e && s[e.id].mark.Some?
    ensures Redactable(l, events, e)
  {
    hide Redacts;
    assert Redacts(l, s[s[e.id].mark.value].ev, e);
  }

  lemma SomeRedaction(l: Levels, events: set<Event>, e: Event) returns (r: Event)
    requires Redactable(l, events, e)
    ensures r in events && Redacts(l, r, e)
  {
    r :| r in events && Redacts(l, r, e);
  }

  /** The first moment at which both events have arrived. */
  lemma {:induction false} BothArrive(arrivals: seq<Arrival>, r: Event, e: Event) returns (j: nat)
    requires r in Events(arrivals) && e in Events(arrivals)
    ensures j < |arrivals| && (arrivals[j].ev == r || arrivals[j].ev == e)
    ensures r == arrivals[j].ev || r in Events(arrivals[..j])
    ensures e == arrivals[j].ev || e in Events(arrivals[..j])
    decreases |arrivals|
  {
    assert arrivals != [];
    var n := |arrivals| - 1;
    EventsOfInit(arrivals);
    if r in Events(arrivals[..n]) && e in Events(arrivals[..n]) {
      j := BothArrive(arrivals[..n], r, e);
      assert arrivals[..n][..j] == arrivals[..j];
    } else {
      j := n;
    }
  }

  lemma {:induction false} FaithfulAt(l: Levels, arrivals: seq<Arrival>, j: nat)
    requires Faithful(l, arrivals) && j < |arrivals|
    ensures Faithful(l, arrivals[..j])
    ensures MayPick(Insert(Run(l, arrivals[..j]), arrivals[j].ev), arrivals[j].ev.id, arrivals[j].pick)
    decreases |arrivals|
  {
    hide MayPick, Insert, Run;
    if j < |arrivals| - 1 {
      FaithfulAt(l, arrivals[..|arrivals| - 1], j);
      assert arrivals[..|arrivals| - 1][..j] == arrivals[..j];
    }
  }

  /** A plain event that some arrived redaction may redact, and no arrived event names in vain. */
  lemma PlainIsMarked(l: Levels, arrivals: seq<Arrival>, e: Event)
    requires Faithful(l, arrivals) && Ids(Events(arrivals)) && e in Events(arrivals) && e.Plain()
    requires Redactable(l, Events(arrivals), e) && !Blocked(l, Events(arrivals), e)
    ensures SomeMarks(l, arrivals, e)
  {
    hide *;
    var r := SomeRedaction(l, Events(arrivals), e);
    var j := BothArrive(arrivals, r, e);
    var before, a := arrivals[..j], arrivals[j];
    FaithfulAt(l, arrivals, j);
    PrefixEvents(arrivals, j);
    FewerIds(Events(before), Events(arrivals));
    FewerIds(Events(before) + {a.ev}, Events(arrivals));
    RunHolds(l, before);
    KnownEvent(l, Events(before), Run(l, before), a.ev);
    PersistHolds(l, Events(before), Run(l, before), a.ev, a.pick);
    HeldEvent(Events(before) + {a.ev}, Insert(Run(l, before), a.ev), r);
    HeldWithin(Events(before) + {a.ev}, Insert(Run(l, before), a.ev), Events(arrivals));
    ArrivalMarks(l, Events(arrivals), arrivals, j, r, e);
    ThisMarks(l, arrivals, j, e);
  }

  lemma ThisMarks(l: Levels, arrivals: seq<Arrival>, j: nat, e: Event)
    requires j < |arrivals| && Marks(l, arrivals, j, e)
    ensures SomeMarks(l, arrivals, e)
  {
  }

  lemma PrefixEvents(arrivals: seq<Arrival>, j: nat)
    requires j < |arrivals|
    ensures Events(arrivals[..j]) + {arrivals[j].ev} <= Events(arrivals)
  {
    assert arrivals[j] in arrivals && forall a | a in arrivals[..j] :: a in arrivals;
  }

  lemma ArrivalMarks(l: Levels, events: set<Event>, arrivals: seq<Arrival>, j: nat, r: Event, e: Event)
    requires j < |arrivals| && e.Plain() && Redacts(l, r, e) && !Blocked(l, events, e)
    requires var s, a := Run(l, arrivals[..j]), arrivals[j];
      && (a.ev == r || a.ev == e) && (e == a.ev || e in Events(arrivals[..j]))
      && MayPick(Insert(s, a.ev), a.ev.id, a.pick)
      && r.id in Insert(s, a.ev) && Insert(s, a.ev)[r.id].ev == r
      && forall id | id in Insert(s, a.ev) :: Insert(s, a.ev)[id].ev in events
    ensures Marks(l, arrivals, j, e)
  {
    hide Run, Insert, Allowed;
    var s, a := Insert(Run(l, arrivals[..j]), arrivals[j].ev), arrivals[j];
    if a.ev != r {
      assert s[r.id].ev.redacts == e.id;
      assert a.pick.Some? && s[a.pick.value].ev in events && s[a.pick.value].ev.redacts == e.id;
    }
  }

  /** After any arrivals of unmixed events the plain ones are marked exactly when redactable. */
  lemma RunMarks(l: Levels, arrivals: seq<Arrival>)
    requires Faithful(l, arrivals) && Unmixed(l, Events(arrivals))
    ensures MarksExactly(l, Events(arrivals), Run(l, arrivals))
  {
    var events, s := Events(arrivals), Run(l, arrivals);
    RunHolds(l, arrivals);
    hide Inv, Holds, Redactable, Blocked, Run, Faithful, Events, SomeMarks;
    forall e | e in events && e.Plain() && e.id in s
      ensures s[e.id].mark.Some? <==> Redactable(l, events, e)
    {
      MarkedExactly(l, arrivals, e);
      HeldEvent(events, s, e);
      if s[e.id].mark.Some? { MarkedIsRedactable(l, events, s, e); }
      if Redactable(l, events, e) { PlainIsMarked(l, arrivals, e); }
    }
  }

  /** Which plain events end up redacted does not depend on the order of arrival, nor on replays; and
      with one redaction of an event that may be applied, nor does the redaction that is recorded. */
  lemma OrderIndependent(l: Levels, xs: seq<Arrival>, ys: seq<Arrival>, e: Event)
    requires Faithful(l, xs) && Faithful(l, ys) && Events(xs) == Events(ys) && Unmixed(l, Events(xs))
    requires e in Events(xs) && e.Plain()
    ensures e.id in Run(l, xs) && e.id in Run(l, ys)
    ensures Run(l, xs)[e.id].mark.Some? <==> Redactable(l, Events(xs), e)
    ensures Run(l, ys)[e.id].mark.Some? <==> Redactable(l, Events(xs), e)
    ensures (forall a, b | a in Events(xs) && b in Events(xs) && Redacts(l, a, e) && Redacts(l, b, e) :: a == b) ==>
      Run(l, xs)[e.id].mark == Run(l, ys)[e.id].mark
  {
    RunMarks(l, xs);
    RunMarks(l, ys);
    hide Redactable, Blocked;
    var s, t := Run(l, xs), Run(l, ys);
    if s[e.id].mark.Some? {
      var a, b := s[s[e.id].mark.value].ev, t[t[e.id].mark.value].ev;
      assert Redacts(l, a, e) && Redacts(l, b, e);
    }
  }

  /** A redaction, or an event with a redacts field of its own, ends up marked exactly when an allowed
      redaction of it arrives with it or after it. */
  lemma NonPlainExactly(l: Levels, arrivals: seq<Arrival>, e: Event)
    requires Faithful(l, arrivals) && Ids(Events(arrivals)) && e in Events(arrivals) && !e.Plain()
    ensures e.id in Run(l, arrivals)
    ensures Run(l, arrivals)[e.id].mark.Some? <==>
      exists j :: 0 <= j < |arrivals| && e in Events(arrivals[..j + 1]) && Redacts(l, arrivals[j].ev, e)
  {
    MarkedExactly(l, arrivals, e);
    hide Run, Faithful, Redacts;
    forall j: nat | j < |arrivals|
      ensures Marks(l, arrivals, j, e) <==> e in Events(arrivals[..j + 1]) && Redacts(l, arrivals[j].ev, e)
    {
      EventsOfInit(arrivals[..j + 1]);
      assert arrivals[..j + 1][..j] == arrivals[..j];
    }
    hide Marks, Events;
    if SomeMarks(l, arrivals, e) {
      var j: int :| 0 <= j < |arrivals| && Marks(l, arrivals, j, e);
      assert e in Events(arrivals[..j + 1]) && Redacts(l, arrivals[j].ev, e);
    }
    if j: int :| 0 <= j < |arrivals| && e in Events(arrivals[..j + 1]) && Redacts(l, arrivals[j].ev, e) {
      assert Marks(l, arrivals, j, e);
    }
  }

  // ---- where the order matters ----

  /** Two runs over these events leave e marked and unmarked. */
  ghost predicate DependsOnOrder(l: Levels, events: set<Event>, e: Event) {
    exists xs, ys ::
      && Faithful(l, xs) && Faithful(l, ys) && Events(xs) == events && Events(ys) == events
      && e.id in Run(l, xs) && e.id in Run(l, ys)
      && Run(l, xs)[e.id].mark.Some? && Run(l, ys)[e.id].mark.None?
  }

  /** Some answer the query may give. */
  lemma SomePick(s: Store, id: string) returns (pick: Option<string>)
    ensures MayPick(s, id, pick)
  {
    if k :| k in s && s[k].ev.redacts == id { pick := Some(k); } else { pick := None; }
  }

  /** The events, arriving in this order. */
  ghost predicate InOrder(evs: seq<Event>, arrivals: seq<Arrival>) {
    |arrivals| == |evs| && forall i | 0 <= i < |evs| :: arrivals[i].ev == evs[i]
  }

  lemma {:induction false} SomeRun(l: Levels, evs: seq<Event>) returns (arrivals: seq<Arrival>)
    ensures InOrder(evs, arrivals) && Faithful(l, arrivals)
    decreases |evs|
  {
    if evs == [] {
      arrivals := [];
    } else {
      var n := |evs| - 1;
      var init := SomeRun(l, evs[..n]);
      var pick := SomePick(Insert(Run(l, init), evs[n]), evs[n].id);
      arrivals := init + [Arrival(evs[n], pick)];
      FaithfulMore(l, init, Arrival(evs[n], pick));
    }
  }

  lemma FaithfulMore(l: Levels, init: seq<Arrival>, a: Arrival)
    requires Faithful(l, init) && MayPick(Insert(Run(l, init), a.ev), a.ev.id, a.pick)
    ensures Faithful(l, init + [a])
  {
    assert (init + [a])[..|init|] == init;
    hide Run, MayPick;
  }

  lemma OrderedEvents(evs: seq<Event>, arrivals: seq<Arrival>)
    requires InOrder(evs, arrivals)
    ensures Events(arrivals) == Elems(evs)
  {
    forall i | 0 <= i < |evs| ensures evs[i] in Events(arrivals) { assert arrivals[i] in arrivals; }
  }

  function Others(evs: seq<Event>, e: Event): (r: seq<Event>)
    ensures forall x :: x in r <==> x in evs && x != e
  {
    if evs == [] then [] else (if evs[0] == e then [] else [evs[0]]) + Others(evs[1..], e)
  }

  /** Arriving before all others, e is marked if anything may redact it. */
  lemma FirstIsMarked(l: Levels, evs: seq<Event>, e: Event) returns (arrivals: seq<Arrival>)
    requires Ids(Elems(evs)) && e in evs && Redactable(l, Elems(evs), e)
    ensures Faithful(l, arrivals) && Events(arrivals) == Elems(evs)
    ensures e.id in Run(l, arrivals) && Run(l, arrivals)[e.id].mark.Some?
  {
    hide *;
    var order := [e] + Others(evs, e);
    arrivals := SomeRun(l, order);
    OrderedEvents(order, arrivals);
    FirstOfAll(evs, e);
    var r := SomeRedaction(l, Elems(evs), e);
    MarkedExactly(l, arrivals, e);
    FirstMarks(l, order, arrivals, r, e);
  }

  lemma FirstOfAll(evs: seq<Event>, e: Event)
    requires e in evs
    ensures Elems([e] + Others(evs, e)) == Elems(evs) && Elems(Others(evs, e) + [e]) == Elems(evs)
    ensures e in Elems(evs)
  {
  }

  lemma FirstMarks(l: Levels, order: seq<Event>, arrivals: seq<Arrival>, r: Event, e: Event)
    requires InOrder(order, arrivals) && order != [] && order[0] == e && r in Elems(order) && Redacts(l, r, e)
    ensures SomeMarks(l, arrivals, e)
  {
    hide Redacts, Run;
    var j: int :| 0 <= j < |order| && order[j] == r;
    if j > 0 { assert arrivals[0] in arrivals[..j]; }
    assert Marks(l, arrivals, j, e);
  }

  /** Arriving behind all others, e is left alone: nothing looks back for it, or the query picks an event
      that may not redact it. */
  lemma LastIsSpared(l: Levels, evs: seq<Event>, e: Event) returns (arrivals: seq<Arrival>)
    requires Ids(Elems(evs)) && e in evs && !Redacts(l, e, e) && (e.Plain() ==> Blocked(l, Elems(evs), e))
    ensures Faithful(l, arrivals) && Events(arrivals) == Elems(evs)
    ensures e.id in Run(l, arrivals) && Run(l, arrivals)[e.id].mark.None?
  {
    hide *;
    var others := Others(evs, e);
    var init := SomeRun(l, others);
    FirstOfAll(evs, e);
    OrderedEvents(others, init);
    OthersFewer(evs, e);
    FewerIds(Elems(others), Elems(evs));
    RunHolds(l, init);
    HeldOnly(l, Elems(others), Run(l, init), Elems(evs), e);
    PersistHolds(l, Elems(others), Run(l, init), e, None);
    var pick := SparingPick(l, Elems(evs), Run(l, init), e);
    arrivals := init + [Arrival(e, pick)];
    FaithfulMore(l, init, Arrival(e, pick));
    InOrderMore(others, init, Arrival(e, pick));
    OrderedEvents(others + [e], arrivals);
    MarkedExactly(l, arrivals, e);
    NotYetMarked(l, init, e);
    LastSpares(l, init, e, pick);
  }

  lemma OthersFewer(evs: seq<Event>, e: Event)
    requires e in evs
    ensures Elems(Others(evs, e)) <= Elems(evs) && e !in Elems(Others(evs, e))
    ensures Elems(Others(evs, e)) + {e} == Elems(evs)
  {
  }

  lemma InOrderMore(evs: seq<Event>, init: seq<Arrival>, a: Arrival)
    requires InOrder(evs, init)
    ensures InOrder(evs + [a.ev], init + [a])
  {
  }

  lemma SparingPick(l: Levels, events: set<Event>, s: Store, e: Event) returns (pick: Option<string>)
    requires Holds(events, Insert(s, e)) && !Redacts(l, e, e) && (e.Plain() ==> Blocked(l, events, e))
    ensures MayPick(Insert(s, e), e.id, pick) && !Marking(l, s, e, pick, e)
  {
    hide Redacts, Insert;
    if e.Plain() {
      var a :| a in events && a.redacts == e.id && !Redacts(l, a, e);
      pick := Some(a.id);
    } else {
      pick := SomePick(Insert(s, e), e.id);
    }
  }

  lemma LastSpares(l: Levels, init: seq<Arrival>, e: Event, pick: Option<string>)
    requires !SomeMarks(l, init, e) && !Marking(l, Run(l, init), e, pick, e)
    ensures !SomeMarks(l, init + [Arrival(e, pick)], e)
  {
    var all := init + [Arrival(e, pick)];
    assert all[..|init|] == init;
    SomeMarksOpens(l, all, e);
    hide Marking, SomeMarks;
  }

  /** Over any events: whether e ends up marked depends on the order exactly when something may redact
      it, it does not redact itself, and it is no plain event or something else names it in vain. */
  lemma OrderMattersExactly(l: Levels, evs: seq<Event>, e: Event)
    requires Ids(Elems(evs)) && e in evs
    ensures DependsOnOrder(l, Elems(evs), e) <==>
      && Redactable(l, Elems(evs), e) && !Redacts(l, e, e)
      && (e.Plain() ==> Blocked(l, Elems(evs), e))
  {
    hide *;
    assert e in Elems(evs) by { FirstOfAll(evs, e); }
    if Redactable(l, Elems(evs), e) && !Redacts(l, e, e) && (e.Plain() ==> Blocked(l, Elems(evs), e)) {
      var xs := FirstIsMarked(l, evs, e);
      var ys := LastIsSpared(l, evs, e);
      TwoRuns(l, Elems(evs), e, xs, ys);
    }
    if DependsOnOrder(l, Elems(evs), e) {
      var xs, ys := RunsThatDiffer(l, Elems(evs), e);
      RunHolds(l, xs);
      HeldEvent(Elems(evs), Run(l, xs), e);
      MarkedIsRedactable(l, Elems(evs), Run(l, xs), e);
      MarkedExactly(l, ys, e);
      if Redacts(l, e, e) { SelfMarks(l, ys, e); }
      if e.Plain() && !Blocked(l, Elems(evs), e) { PlainIsMarked(l, ys, e); }
    }
  }

  lemma SelfMarks(l: Levels, arrivals: seq<Arrival>, e: Event)
    requires e in Events(arrivals) && Redacts(l, e, e)
    ensures SomeMarks(l, arrivals, e)
  {
    hide Redacts, Run;
    var a :| a in arrivals && a.ev == e;
    var j: int :| 0 <= j < |arrivals| && arrivals[j] == a;
    assert Marks(l, arrivals, j, e);
  }

  lemma TwoRuns(l: Levels, events: set<Event>, e: Event, xs: seq<Arrival>, ys: seq<Arrival>)
    requires Faithful(l, xs) && Faithful(l, ys) && Events(xs) == events && Events(ys) == events
    requires e.id in Run(l, xs) && e.id in Run(l, ys)
    requires Run(l, xs)[e.id].mark.Some? && Run(l, ys)[e.id].mark.None?
    ensures DependsOnOrder(l, events, e)
  {
    hide Faithful, Run, Events;
  }

  lemma RunsThatDiffer(l: Levels, events: set<Event>, e: Event) returns (xs: seq<Arrival>, ys: seq<Arrival>)
    requires DependsOnOrder(l, events, e)
    ensures Faithful(l, xs) && Faithful(l, ys) && Events(xs) == events && Events(ys) == events
    ensures e.id in Run(l, xs) && e.id in Run(l, ys)
    ensures Run(l, xs)[e.id].mark.Some? && Run(l, ys)[e.id].mark.None?
  {
    hide Faithful, Run, Events;
    xs, ys :| && Faithful(l, xs) && Faithful(l, ys) && Events(xs) == events && Events(ys) == events
      && e.id in Run(l, xs) && e.id in Run(l, ys)
      && Run(l, xs)[e.id].mark.Some? && Run(l, ys)[e.id].mark.None?;
  }

  /** The shortest case: nothing looks back when a redaction arrives after the event that redacts it. */
  lemma RedactedRedactionDependsOnOrder(l: Levels)
    requires l.user("!r", "@a:x") >= l.redact("!r")
    ensures var r1, r2 := Event("$1", "!r", "m.room.redaction", "@a:x", "$2"),
      Event("$2", "!r", "m.room.redaction", "@a:x", "$9");
      var before := Run(l, [Arrival(r2, Some("$1")), Arrival(r1, None)]);
      var after := Run(l, [Arrival(r1, None), Arrival(r2, Some("$1"))]);
      "$2" in before && "$2" in after && before["$2"].mark == Some("$1") && after["$2"].mark == None
  {
    var r1, r2 := Event("$1", "!r", "m.room.redaction", "@a:x", "$2"),
      Event("$2", "!r", "m.room.redaction", "@a:x", "$9");
    var xs, ys := [Arrival(r2, Some("$1")), Arrival(r1, None)], [Arrival(r1, None), Arrival(r2, Some("$1"))];
    assert xs[..1] == [xs[0]] && ys[..1] == [ys[0]] && xs[..1][..0] == [] && ys[..1][..0] == [];
    assert Run(l, xs[..1]) == map["$2" := Row(r2, None)];
    assert Run(l, ys[..1]) == map["$1" := Row(r1, None)];
  }
}
