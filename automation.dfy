/**
 * The automation engine of src/lib/logic/automation.ts: three jobs run
 * against the events store. The `events` and `event_types` tables are maps
 * keyed by their primary key. The order in which the backend returns rows,
 * every backend failure, the clock and the parsing of local date-times are
 * parameters of the jobs; a failure ends the job quietly, as the jobs catch
 * every error.
 */
module Automation {
  import opened Wrappers
  import opened Types

  // ---------------------------------------------------------------------------
  // Tables
  // ---------------------------------------------------------------------------

  /** Every row is stored under its own `event_id`. */
  predicate Keyed(events: map<int, AttendanceEvent>) {
    forall id :: id in events ==> events[id].eventId == id
  }

  predicate TypesKeyed(types: map<int, EventType>) {
    forall id :: id in types ==> types[id].eventTypeId == id
  }

  /** `order` lists every id of `ids` exactly once: the rows a query returned, in the backend's order. */
  ghost predicate Enumerates(order: seq<int>, ids: set<int>) {
    (forall i, j :: 0 <= i < j < |order| ==> order[i] != order[j])
    && (forall i :: 0 <= i < |order| ==> order[i] in ids)
    && (forall id :: id in ids ==> id in order)
  }

  /** Rows of `eventsApi.getActiveEvents`: status upcoming or ongoing. */
  function ActiveIds(events: map<int, AttendanceEvent>): set<int> {
    set id | id in events && events[id].status != Completed
  }

  /** `eventsApi.updateEventStatus`: the row with that id gets the new status. */
  function SetStatus(events: map<int, AttendanceEvent>, id: int, s: EventStatus): map<int, AttendanceEvent> {
    if id in events then events[id := events[id].(status := s)] else events
  }

  // ---------------------------------------------------------------------------
  // Job 2: status updates
  // ---------------------------------------------------------------------------

  /** The one rule of the status job, applied to a single event at instant `now`. */
  function Step(e: AttendanceEvent, now: int): (r: AttendanceEvent)
    ensures r == e.(status := r.status)
    ensures e.status == Upcoming && e.start <= now < e.end ==> r.status == Ongoing
    ensures e.status == Ongoing && now >= e.end ==> r.status == Completed
    ensures r.status != e.status ==>
      (e.status == Upcoming && e.start <= now < e.end) || (e.status == Ongoing && now >= e.end)
  {
    if e.status == Upcoming && e.start <= now && now < e.end then e.(status := Ongoing)
    else if e.status == Ongoing && now >= e.end then e.(status := Completed)
    else e
  }

  /** An upcoming event whose end has already passed is left upcoming. */
  lemma MissedEventStaysUpcoming(e: AttendanceEvent, now: int)
    requires e.status == Upcoming && now >= e.end
    ensures Step(e, now) == e
  {
  }

  /** A second application at the same instant changes nothing. */
  lemma StepIdempotent(e: AttendanceEvent, now: int)
    ensures Step(Step(e, now), now) == Step(e, now)
  {
  }

  function StepAll(events: map<int, AttendanceEvent>, now: int): map<int, AttendanceEvent> {
    map id | id in events :: Step(events[id], now)
  }

  /**
   * The status job over the rows the query returned in `order`, from the
   * `k`-th row on: each row needing a transition gets one update call, and
   * the first update that throws (`updateThrows(k)`) ends the job.
   */
  function StatusRun(events: map<int, AttendanceEvent>, order: seq<int>, now: int,
                     updateThrows: nat -> bool, k: nat): map<int, AttendanceEvent>
    requires k <= |order|
    decreases |order| - k
  {
    if k == |order| || order[k] !in events then events
    else
      var e := events[order[k]];
      if e.status == Upcoming && e.start <= now && now < e.end then
        if updateThrows(k) then events
        else StatusRun(SetStatus(events, e.eventId, Ongoing), order, now, updateThrows, k + 1)
      else if e.status == Ongoing && now >= e.end then
        if updateThrows(k) then events
        else StatusRun(SetStatus(events, e.eventId, Completed), order, now, updateThrows, k + 1)
      else StatusRun(events, order, now, updateThrows, k + 1)
  }

  /**
   * The status job touches no other row and gives each event at most one
   * transition; when no update throws, every event has been stepped.
   */
  lemma {:induction false} StatusRunSteps(orig: map<int, AttendanceEvent>, m: map<int, AttendanceEvent>,
                                          order: seq<int>, now: int, updateThrows: nat -> bool, k: nat)
    requires Keyed(orig) && Enumerates(order, ActiveIds(orig))
    requires k <= |order| && m.Keys == orig.Keys && Keyed(m)
    requires forall j :: k <= j < |order| ==> m[order[j]] == orig[order[j]]
    requires forall id :: id in m && id !in order[k..] ==> m[id] == Step(orig[id], now)
    ensures var r := StatusRun(m, order, now, updateThrows, k);
      r.Keys == orig.Keys
      && (forall id :: id in r ==> r[id] == orig[id] || r[id] == Step(orig[id], now))
      && ((forall n: nat :: !updateThrows(n)) ==> r == StepAll(orig, now))
    decreases |order| - k
  {
    if k == |order| {
      FinishedRunStepsAll(orig, m, order, now);
    } else {
      var id := order[k];
      assert order[k] in order;
      var e := m[id];
      var next := if e.status == Upcoming && e.start <= now && now < e.end then SetStatus(m, id, Ongoing)
                  else if e.status == Ongoing && now >= e.end then SetStatus(m, id, Completed)
                  else m;
      if Step(e, now) != e && updateThrows(k) {
        assert StatusRun(m, order, now, updateThrows, k) == m;
        StoppedRunBounded(orig, m, order, now, k);
      } else {
        assert next == m[id := Step(e, now)];
        assert StatusRun(m, order, now, updateThrows, k) == StatusRun(next, order, now, updateThrows, k + 1);
        VisitKeepsInvariant(orig, m, order, now, k);
        StatusRunSteps(orig, next, order, now, updateThrows, k + 1);
      }
    }
  }

  /** Once every listed row has been visited, every row is stepped. */
  lemma FinishedRunStepsAll(orig: map<int, AttendanceEvent>, m: map<int, AttendanceEvent>, order: seq<int>, now: int)
    requires m.Keys == orig.Keys
    requires forall id :: id in m && id !in order[|order|..] ==> m[id] == Step(orig[id], now)
    ensures m == StepAll(orig, now)
  {
    assert order[|order|..] == [];
    forall id | id in m
      ensures m[id] == StepAll(orig, now)[id]
    {
    }
  }

  /** Where the job stops, every row is either untouched or stepped once. */
  lemma StoppedRunBounded(orig: map<int, AttendanceEvent>, m: map<int, AttendanceEvent>,
                          order: seq<int>, now: int, k: nat)
    requires Keyed(orig) && Enumerates(order, ActiveIds(orig))
    requires k <= |order| && m.Keys == orig.Keys && Keyed(m)
    requires forall j :: k <= j < |order| ==> m[order[j]] == orig[order[j]]
    requires forall id :: id in m && id !in order[k..] ==> m[id] == Step(orig[id], now)
    ensures forall id :: id in m ==> m[id] == orig[id] || m[id] == Step(orig[id], now)
  {
    forall x | x in m
      ensures m[x] == orig[x] || m[x] == Step(orig[x], now)
    {
      if x in order[k..] {
        var j :| k <= j < |order| && order[j] == x;
      }
    }
  }

  /** Stepping the `k`-th listed row moves the job's invariant on to the next row. */
  lemma VisitKeepsInvariant(orig: map<int, AttendanceEvent>, m: map<int, AttendanceEvent>,
                            order: seq<int>, now: int, k: nat)
    requires Keyed(orig) && Enumerates(order, ActiveIds(orig))
    requires k < |order| && m.Keys == orig.Keys && Keyed(m)
    requires forall j :: k <= j < |order| ==> m[order[j]] == orig[order[j]]
    requires forall id :: id in m && id !in order[k..] ==> m[id] == Step(orig[id], now)
    ensures var next := m[order[k] := Step(m[order[k]], now)];
      next.Keys == orig.Keys && Keyed(next)
      && (forall j :: k + 1 <= j < |order| ==> next[order[j]] == orig[order[j]])
      && (forall id :: id in next && id !in order[k + 1..] ==> next[id] == Step(orig[id], now))
  {
    var id := order[k];
    assert order[k] in order;
    var next := m[id := Step(m[id], now)];
    assert order[k..] == [id] + order[k + 1..];
    forall j | k + 1 <= j < |order|
      ensures order[j] != id
    {
    }
    forall x | x in next && x !in order[k + 1..]
      ensures next[x] == Step(orig[x], now)
    {
      if x != id {
        assert x !in order[k..];
      }
    }
  }

  /** Running the status job twice at the same instant, without failures, equals running it once. */
  lemma StepAllIdempotent(events: map<int, AttendanceEvent>, now: int)
    ensures StepAll(StepAll(events, now), now) == StepAll(events, now)
  {
    forall id | id in events
      ensures StepAll(StepAll(events, now), now)[id] == StepAll(events, now)[id]
    {
      StepIdempotent(events[id], now);
    }
  }

  // ---------------------------------------------------------------------------
  // Job 1: event creation from the day's templates
  // ---------------------------------------------------------------------------

  /** Ids of `eventsApi.getEventTypesForDay(day)`: active templates of that weekday. */
  function TemplateIds(types: map<int, EventType>, day: int): set<int> {
    set id | id in types && types[id].dayOfWeek == day && types[id].isActive
  }

  function Rows<T>(table: map<int, T>, order: seq<int>): (rows: seq<T>)
    requires forall i :: 0 <= i < |order| ==> order[i] in table
    ensures |rows| == |order| && forall i :: 0 <= i < |order| ==> rows[i] == table[order[i]]
  {
    seq(|order|, i requires 0 <= i < |order| => table[order[i]])
  }

  /** The `event_type_id`s of the events on `date` (`eventsApi.getEventsByDate`). */
  function TypeIdsOn(events: map<int, AttendanceEvent>, date: string): set<Option<int>> {
    set id | id in events && events[id].eventDate == date :: events[id].eventTypeId
  }

  /** The templates, in order, whose id matches no event already on the date. */
  function Missing(templates: seq<EventType>, existing: set<Option<int>>): (r: seq<EventType>)
    ensures |r| <= |templates|
  {
    if templates == [] then []
    else (if Some(templates[0].eventTypeId) in existing then [] else [templates[0]])
         + Missing(templates[1..], existing)
  }

  /** A template is still to be created iff no event on the date carries its id. */
  lemma {:induction false} MissingMembers(templates: seq<EventType>, existing: set<Option<int>>)
    ensures forall t :: t in Missing(templates, existing) <==> t in templates && Some(t.eventTypeId) !in existing
    decreases |templates|
  {
    if templates != [] {
      MissingMembers(templates[1..], existing);
      assert templates == [templates[0]] + templates[1..];
    }
  }

  /** `createEventFromTemplate`: the new row, before the backend stores it. */
  function Created(t: EventType, date: string, start: int, end: int, id: int): AttendanceEvent {
    AttendanceEvent(id, Some(t.eventTypeId), t.name, date, start, end, Upcoming, false, None, JObject(map[]))
  }

  /** What the job promises of an event it created on `date`. */
  predicate FromTemplate(e: AttendanceEvent, todo: seq<EventType>, date: string) {
    exists t :: t in todo && e.eventTypeId == Some(t.eventTypeId) && e.eventName == t.name
      && e.eventDate == date && e.status == Upcoming && !e.isCustom
      && e.metadata == JObject(map[]) && e.description == None
  }

  /**
   * The creation loop over the templates still to create, in order.
   * `parse(date, time)` is the instant of `new Date(`<date>T<time>`)` (local
   * time), or `None` for an invalid date, on which `toISOString` throws. The `calls`-th insert
   * throws when `insertThrows(calls)`. Either error ends the job. New rows
   * get the next value of the `event_id` sequence.
   */
  function CreateAll(events: map<int, AttendanceEvent>, nextId: int, todo: seq<EventType>, date: string,
                     parse: (string, string) -> Option<int>, insertThrows: nat -> bool, calls: nat): (map<int, AttendanceEvent>, int)
    decreases |todo|
  {
    if todo == [] then (events, nextId)
    else
      var t := todo[0];
      var start := parse(date, t.startTime);
      var end := parse(date, t.endTime);
      if start.None? || end.None? || insertThrows(calls) then (events, nextId)
      else CreateAll(events[nextId := Created(t, date, start.value, end.value, nextId)], nextId + 1,
                     todo[1..], date, parse, insertThrows, calls + 1)
  }

  /**
   * The creation job keeps every existing row, adds rows only under fresh
   * ids, and every row it adds is an upcoming, non-custom event on the date
   * built from one of the templates.
   */
  lemma {:induction false} CreateAllAddsFromTemplates(events: map<int, AttendanceEvent>, nextId: int, todo: seq<EventType>,
                                                      date: string, parse: (string, string) -> Option<int>,
                                                      insertThrows: nat -> bool, calls: nat)
    requires Keyed(events) && forall id :: id in events ==> id < nextId
    ensures var (r, n) := CreateAll(events, nextId, todo, date, parse, insertThrows, calls);
      Keyed(r) && nextId <= n && n - nextId <= |todo|
      && (forall id :: id in events ==> id in r && r[id] == events[id])
      && (forall id :: id in r ==> id < n)
      && (forall id :: id in r && id !in events ==> nextId <= id && FromTemplate(r[id], todo, date))
    decreases |todo|
  {
    if todo != [] {
      var t := todo[0];
      var start := parse(date, t.startTime);
      var end := parse(date, t.endTime);
      if !(start.None? || end.None? || insertThrows(calls)) {
        var e := Created(t, date, start.value, end.value, nextId);
        var events' := events[nextId := e];
        CreateAllAddsFromTemplates(events', nextId + 1, todo[1..], date, parse, insertThrows, calls + 1);
        var (r, n) := CreateAll(events', nextId + 1, todo[1..], date, parse, insertThrows, calls + 1);
        assert t in todo;
        assert FromTemplate(e, todo, date);
        forall id | id in r && id !in events
          ensures nextId <= id && FromTemplate(r[id], todo, date)
        {
          if id in events' {
            assert id == nextId;
          } else {
            var u :| u in todo[1..] && r[id].eventTypeId == Some(u.eventTypeId) && r[id].eventName == u.name
              && r[id].eventDate == date && r[id].status == Upcoming && !r[id].isCustom
              && r[id].metadata == JObject(map[]) && r[id].description == None;
            assert u in todo;
          }
        }
      }
    }
  }

  lemma TypeIdsOnInsert(events: map<int, AttendanceEvent>, id: int, e: AttendanceEvent, date: string)
    requires id !in events && e.eventDate == date
    ensures TypeIdsOn(events[id := e], date) == TypeIdsOn(events, date) + {e.eventTypeId}
  {
    var after := events[id := e];
    forall x | x in TypeIdsOn(events, date)
      ensures x in TypeIdsOn(after, date)
    {
      var y :| y in events && events[y].eventDate == date && events[y].eventTypeId == x;
      assert y in after && after[y] == events[y];
    }
    assert id in after && after[id].eventTypeId == e.eventTypeId;
  }

  function TypeIdsOf(templates: seq<EventType>): set<Option<int>> {
    set t | t in templates :: Some(t.eventTypeId)
  }

  /** Every template of the day can be turned into an instant pair, and no insert throws. */
  ghost predicate NoFailures(todo: seq<EventType>, date: string, parse: (string, string) -> Option<int>, insertThrows: nat -> bool) {
    (forall t :: t in todo ==> parse(date, t.startTime).Some? && parse(date, t.endTime).Some?)
    && (forall n: nat :: !insertThrows(n))
  }

  /** Without failures, one event is created per template to create, each carrying that template's id. */
  lemma {:induction false} CreateAllCovers(events: map<int, AttendanceEvent>, nextId: int, todo: seq<EventType>,
                                           date: string, parse: (string, string) -> Option<int>,
                                           insertThrows: nat -> bool, calls: nat)
    requires forall id :: id in events ==> id < nextId
    requires NoFailures(todo, date, parse, insertThrows)
    ensures var (r, n) := CreateAll(events, nextId, todo, date, parse, insertThrows, calls);
      n == nextId + |todo| && |r.Keys| == |events.Keys| + |todo|
      && TypeIdsOn(r, date) == TypeIdsOn(events, date) + TypeIdsOf(todo)
    decreases |todo|
  {
    if todo == [] {
      assert TypeIdsOf(todo) == {};
    } else {
      var t := todo[0];
      assert t in todo;
      var e := Created(t, date, parse(date, t.startTime).value, parse(date, t.endTime).value, nextId);
      var events' := events[nextId := e];
      assert CreateAll(events, nextId, todo, date, parse, insertThrows, calls)
             == CreateAll(events', nextId + 1, todo[1..], date, parse, insertThrows, calls + 1);
      assert nextId !in events;
      assert events'.Keys == events.Keys + {nextId};
      TypeIdsOnInsert(events, nextId, e, date);
      NoFailuresTail(todo, date, parse, insertThrows);
      CreateAllCovers(events', nextId + 1, todo[1..], date, parse, insertThrows, calls + 1);
      TypeIdsOfCons(todo);
    }
  }

  lemma NoFailuresTail(todo: seq<EventType>, date: string, parse: (string, string) -> Option<int>, insertThrows: nat -> bool)
    requires todo != [] && NoFailures(todo, date, parse, insertThrows)
    ensures NoFailures(todo[1..], date, parse, insertThrows)
  {
    forall u | u in todo[1..]
      ensures u in todo
    {
    }
  }

  lemma TypeIdsOfCons(todo: seq<EventType>)
    requires todo != []
    ensures TypeIdsOf(todo) == {Some(todo[0].eventTypeId)} + TypeIdsOf(todo[1..])
  {
    assert todo == [todo[0]] + todo[1..];
    forall x | x in TypeIdsOf(todo)
      ensures x in {Some(todo[0].eventTypeId)} + TypeIdsOf(todo[1..])
    {
      var u :| u in todo && Some(u.eventTypeId) == x;
      if u != todo[0] {
        assert u in todo[1..];
      }
    }
  }

  /**
   * Running the creation job a second time on the same day, after a run
   * without failures, has nothing left to create: the de-duplication by
   * `event_type_id` makes the job idempotent.
   */
  lemma CreationJobIdempotent(events: map<int, AttendanceEvent>, nextId: int, templates: seq<EventType>,
                              date: string, parse: (string, string) -> Option<int>, insertThrows: nat -> bool)
    requires forall id :: id in events ==> id < nextId
    requires NoFailures(Missing(templates, TypeIdsOn(events, date)), date, parse, insertThrows)
    ensures var (r, _) := CreateAll(events, nextId, Missing(templates, TypeIdsOn(events, date)), date, parse, insertThrows, 0);
      Missing(templates, TypeIdsOn(r, date)) == []
  {
    var todo := Missing(templates, TypeIdsOn(events, date));
    MissingMembers(templates, TypeIdsOn(events, date));
    CreateAllCovers(events, nextId, todo, date, parse, insertThrows, 0);
    var (r, _) := CreateAll(events, nextId, todo, date, parse, insertThrows, 0);
    forall t | t in templates
      ensures Some(t.eventTypeId) in TypeIdsOn(r, date)
    {
      if Some(t.eventTypeId) !in TypeIdsOn(events, date) {
        assert t in todo;
      }
    }
    NothingMissing(templates, TypeIdsOn(r, date));
  }

  /** Nothing is missing when every template's id is already on the date. */
  lemma {:induction false} NothingMissing(templates: seq<EventType>, existing: set<Option<int>>)
    requires forall t :: t in templates ==> Some(t.eventTypeId) in existing
    ensures Missing(templates, existing) == []
    decreases |templates|
  {
    if templates != [] {
      assert templates[0] in templates;
      forall t | t in templates[1..]
        ensures Some(t.eventTypeId) in existing
      {
        assert t in templates;
      }
      NothingMissing(templates[1..], existing);
    }
  }

  lemma MissingFrom(templates: seq<EventType>, k: nat, existing: set<Option<int>>)
    requires k < |templates|
    ensures Missing(templates[k..], existing)
      == (if Some(templates[k].eventTypeId) in existing then [] else [templates[k]]) + Missing(templates[k + 1..], existing)
  {
    assert templates[k..][0] == templates[k] && templates[k..][1..] == templates[k + 1..];
  }

  /** One step of the creation loop: the head template is created, or the job ends. */
  lemma CreateAllCons(events: map<int, AttendanceEvent>, nextId: int, t: EventType, rest: seq<EventType>,
                      date: string, parse: (string, string) -> Option<int>, insertThrows: nat -> bool, calls: nat)
    ensures var start := parse(date, t.startTime);
      var end := parse(date, t.endTime);
      CreateAll(events, nextId, [t] + rest, date, parse, insertThrows, calls)
      == if start.None? || end.None? || insertThrows(calls) then (events, nextId)
         else CreateAll(events[nextId := Created(t, date, start.value, end.value, nextId)], nextId + 1,
                        rest, date, parse, insertThrows, calls + 1)
  {
    assert ([t] + rest)[0] == t && ([t] + rest)[1..] == rest;
  }

  // ---------------------------------------------------------------------------
  // Job 3: archival
  // ---------------------------------------------------------------------------

  /**
   * Ids of `eventsApi.getCompletedEventsWithPendingScans`: completed events
   * that still have a row in `attendance_scans` (`scanEventIds` is that
   * table's `event_id` column).
   */
  function PendingArchival(events: map<int, AttendanceEvent>, scanEventIds: seq<int>): set<int> {
    if |scanEventIds| == 0 then {}
    else set id | id in events && events[id].status == Completed && id in scanEventIds
  }

  /** How many `process_event_attendance` calls, from the `k`-th on, return before one throws. */
  function Processed(order: seq<int>, rpcThrows: nat -> bool, k: nat): (n: nat)
    requires k <= |order|
    ensures k <= n <= |order|
    ensures n < |order| ==> rpcThrows(n)
    ensures forall j :: k <= j < n ==> !rpcThrows(j)
    decreases |order| - k
  {
    if k == |order| || rpcThrows(k) then k else Processed(order, rpcThrows, k + 1)
  }

  /**
   * The archival job processes only completed events with pending scans,
   * each at most once, and, when no call throws, all of them.
   */
  lemma ArchivalProcessesPending(events: map<int, AttendanceEvent>, scanEventIds: seq<int>,
                                 order: seq<int>, rpcThrows: nat -> bool)
    requires Enumerates(order, PendingArchival(events, scanEventIds))
    ensures var done := order[..Processed(order, rpcThrows, 0)];
      (forall id :: id in done ==> id in events && events[id].status == Completed && id in scanEventIds)
      && (forall i, j :: 0 <= i < j < |done| ==> done[i] != done[j])
      && ((forall n: nat :: !rpcThrows(n)) ==> forall id :: id in done <==> id in PendingArchival(events, scanEventIds))
  {
    var n := Processed(order, rpcThrows, 0);
    var done := order[..n];
    forall id | id in done
      ensures id in events && events[id].status == Completed && id in scanEventIds
    {
      var i :| 0 <= i < n && done[i] == id;
      assert id in order;
    }
    if forall n: nat :: !rpcThrows(n) {
      assert n == |order| && done == order;
    }
  }

  // ---------------------------------------------------------------------------
  // The store the jobs act on
  // ---------------------------------------------------------------------------

  class EventStore {
    var events: map<int, AttendanceEvent>
    var eventTypes: map<int, EventType>
    /** The next value of the `event_id` sequence. */
    var nextId: int
    /** Events passed to `process_event_attendance`, whose body is not part of this model. */
    var archived: seq<int>

    predicate Valid()
      reads this
    {
      Keyed(events) && TypesKeyed(eventTypes) && forall id :: id in events ==> id < nextId
    }

    constructor (events: map<int, AttendanceEvent>, eventTypes: map<int, EventType>, nextId: int)
      requires Keyed(events) && TypesKeyed(eventTypes) && forall id :: id in events ==> id < nextId
      ensures Valid()
      ensures this.events == events && this.eventTypes == eventTypes && this.nextId == nextId && archived == []
    {
      this.events := events;
      this.eventTypes := eventTypes;
      this.nextId := nextId;
      archived := [];
    }

    /**
     * `runStatusUpdateJob`. `fetchFailed`: `getActiveEvents` threw;
     * `order`: the order of its rows; `updateThrows(k)`: the update issued
     * for the `k`-th row throws.
     */
    method RunStatusUpdateJob(now: int, fetchFailed: bool, order: seq<int>, updateThrows: nat -> bool)
      requires Valid() && Enumerates(order, ActiveIds(events))
      modifies this
      ensures Valid()
      ensures eventTypes == old(eventTypes) && nextId == old(nextId) && archived == old(archived)
      ensures events == if fetchFailed then old(events) else StatusRun(old(events), order, now, updateThrows, 0)
    {
      if fetchFailed {
        return;
      }
      var activeEvents := Rows(events, order);
      var k := 0;
      while k < |activeEvents|
        invariant 0 <= k <= |order| && Valid() && events.Keys == old(events).Keys
        invariant eventTypes == old(eventTypes) && nextId == old(nextId) && archived == old(archived)
        invariant forall j :: k <= j < |order| ==> events[order[j]] == activeEvents[j]
        invariant StatusRun(events, order, now, updateThrows, k) == StatusRun(old(events), order, now, updateThrows, 0)
      {
        var event := activeEvents[k];
        assert event.eventId == order[k];
        if event.status == Upcoming && event.start <= now && now < event.end {
          if updateThrows(k) {
            return;
          }
          events := SetStatus(events, event.eventId, Ongoing);
        } else if event.status == Ongoing && now >= event.end {
          if updateThrows(k) {
            return;
          }
          events := SetStatus(events, event.eventId, Completed);
        }
        k := k + 1;
      }
    }

    /**
     * `runEventCreationJob`. `day` is the local weekday and `date` the UTC
     * calendar date of the same clock reading. `typesFailed`/`eventsFailed`:
     * the template or event query threw; `typeOrder`: the order of the
     * templates returned.
     */
    method RunEventCreationJob(day: int, date: string, typesFailed: bool, typeOrder: seq<int>, eventsFailed: bool,
                               parse: (string, string) -> Option<int>, insertThrows: nat -> bool)
      requires Valid() && Enumerates(typeOrder, TemplateIds(eventTypes, day))
      modifies this
      ensures Valid()
      ensures eventTypes == old(eventTypes) && archived == old(archived)
      ensures typesFailed || typeOrder == [] || eventsFailed ==> events == old(events) && nextId == old(nextId)
      ensures !(typesFailed || typeOrder == [] || eventsFailed) ==>
        (events, nextId) == CreateAll(old(events), old(nextId),
                                      Missing(Rows(old(eventTypes), typeOrder), TypeIdsOn(old(events), date)),
                                      date, parse, insertThrows, 0)
    {
      if typesFailed {
        return;
      }
      var eventTypesForDay := Rows(eventTypes, typeOrder);
      if |eventTypesForDay| == 0 {
        return;
      }
      if eventsFailed {
        return;
      }
      var existing := TypeIdsOn(events, date);
      ghost var todo := Missing(eventTypesForDay, existing);
      ghost var remaining := todo;
      assert eventTypesForDay[0..] == eventTypesForDay;
      var k := 0;
      var calls: nat := 0;
      while k < |eventTypesForDay|
        invariant 0 <= k <= |eventTypesForDay| && Valid()
        invariant eventTypes == old(eventTypes) && archived == old(archived)
        invariant remaining == Missing(eventTypesForDay[k..], existing)
        invariant CreateAll(events, nextId, remaining, date, parse, insertThrows, calls)
                  == CreateAll(old(events), old(nextId), todo, date, parse, insertThrows, 0)
      {
        var t := eventTypesForDay[k];
        MissingFrom(eventTypesForDay, k, existing);
        var alreadyExists := Some(t.eventTypeId) in existing;
        if alreadyExists {
          assert remaining == Missing(eventTypesForDay[k + 1..], existing);
        } else {
          assert remaining == [t] + Missing(eventTypesForDay[k + 1..], existing);
          CreateAllCons(events, nextId, t, Missing(eventTypesForDay[k + 1..], existing), date, parse, insertThrows, calls);
          var start := parse(date, t.startTime);
          var end := parse(date, t.endTime);
          if start.None? || end.None? || insertThrows(calls) {
            return;
          }
          events := events[nextId := Created(t, date, start.value, end.value, nextId)];
          nextId := nextId + 1;
          calls := calls + 1;
        }
        remaining := Missing(eventTypesForDay[k + 1..], existing);
        k := k + 1;
      }
      assert eventTypesForDay[k..] == [];
    }

    /**
     * `runArchivalJob`. `queryFailed`: `getCompletedEventsWithPendingScans`
     * threw; `order`: the order of its rows; `rpcThrows(k)`: the `k`-th
     * `processEventAttendance` call throws.
     */
    method RunArchivalJob(scanEventIds: seq<int>, queryFailed: bool, order: seq<int>, rpcThrows: nat -> bool)
      requires Enumerates(order, PendingArchival(events, scanEventIds))
      modifies this
      ensures events == old(events) && eventTypes == old(eventTypes) && nextId == old(nextId)
      ensures archived == old(archived) + if queryFailed then [] else order[..Processed(order, rpcThrows, 0)]
    {
      if queryFailed {
        return;
      }
      var eventsToProcess := order;
      var k := 0;
      while k < |eventsToProcess|
        invariant 0 <= k <= |order| && Processed(order, rpcThrows, k) == Processed(order, rpcThrows, 0)
        invariant events == old(events) && eventTypes == old(eventTypes) && nextId == old(nextId)
        invariant archived == old(archived) + order[..k]
      {
        if rpcThrows(k) {
          return;
        }
        archived := archived + [eventsToProcess[k]];
        assert order[..k + 1] == order[..k] + [order[k]];
        k := k + 1;
      }
    }
  }
}
