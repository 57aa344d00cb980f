/** A room's schedule as the scheduling service reports it, and the rule that decides
    whether one of its bookings is in the way of a requested time window. */
module Schedule {
  import opened Wrappers

  /** A time of day, "H:mm", as minutes after midnight. */
  type Minute = m: int | 0 <= m < 24 * 60

  /** A calendar day, "d/M/yyyy". */
  datatype Day = Day(day: int, month: int, year: int)

  /** One booking. Each field holds the parsed form of the service's text; `None` is a text
      that does not parse, which behaves as an invalid date: every comparison with it is false. */
  datatype Event = Event(date: Option<Day>, startHour: Option<Minute>, endHour: Option<Minute>)

  /** The `events` object of the service's answer, whose own `events` list may be missing. */
  datatype EventList = EventList(events: Option<seq<Event>>)

  /** A room as the scheduling service describes it. */
  datatype RoomJson = RoomJson(name: string, events: Option<EventList>)

  /** The requested day and time window, parsed like the event fields. */
  datatype Query = Query(date: Option<Day>, start: Option<Minute>, end: Option<Minute>)

  /** `roomJson.events?.events || []`: a missing list is an empty one. */
  function EventsOf(room: RoomJson): seq<Event>
  {
    match room.events
    case Some(EventList(Some(events))) => events
    case _ => []
  }

  /** `isSameDay`: false as soon as either side is invalid. */
  predicate SameDay(a: Option<Day>, b: Option<Day>)
  {
    a.Some? && b.Some? && a.value == b.value
  }

  /** `a < b` on parsed times: false as soon as either side is invalid. */
  predicate Before(a: Option<Minute>, b: Option<Minute>)
  {
    a.Some? && b.Some? && a.value < b.value
  }

  /** The booking is on the requested day and its window overlaps the requested one,
      both read as half-open intervals [start, end). */
  predicate Conflicts(event: Event, query: Query)
  {
    && SameDay(event.date, query.date)
    && Before(event.startHour, query.end)
    && Before(query.start, event.endHour)
  }

  /** Some booking of the list is in the way: the room is busy. */
  predicate HasConflict(events: seq<Event>, query: Query)
  {
    exists i :: 0 <= i < |events| && Conflicts(events[i], query)
  }

  /** The scan over one room's bookings: skip other days, stop at the first overlap. */
  method RoomIsFree(events: seq<Event>, query: Query) returns (isFree: bool)
    ensures isFree <==> !HasConflict(events, query)
  {
    isFree := true;
    for i := 0 to |events|
      invariant isFree
      invariant forall k :: 0 <= k < i ==> !Conflicts(events[k], query)
    {
      var event := events[i];
      if !SameDay(event.date, query.date) {
        continue;
      }
      if Before(event.startHour, query.end) && Before(query.start, event.endHour) {
        isFree := false;
        break;
      }
    }
  }

  /** The bookings of `events` that fall on `date`, in order. */
  function OnDay(events: seq<Event>, date: Option<Day>): (kept: seq<Event>)
    ensures forall k :: 0 <= k < |kept| ==> SameDay(kept[k].date, date)
    ensures forall e :: e in kept ==> e in events
  {
    if events == [] then []
    else
      var init, last := events[..|events| - 1], events[|events| - 1];
      assert events == init + [last];
      OnDay(init, date) + if SameDay(last.date, date) then [last] else []
  }

  /** Bookings on other days never matter: the verdict is the same with them removed,
      whatever their times. */
  lemma {:induction false} OtherDaysIrrelevant(events: seq<Event>, query: Query)
    ensures HasConflict(events, query) <==> HasConflict(OnDay(events, query.date), query)
  {
    if events != [] {
      var init, last := events[..|events| - 1], events[|events| - 1];
      assert events == init + [last];
      OtherDaysIrrelevant(init, query);
      var kept := OnDay(init, query.date);
      var tail := if SameDay(last.date, query.date) then [last] else [];
      assert OnDay(events, query.date) == kept + tail;
      assert HasConflict(events, query) <==> HasConflict(init, query) || Conflicts(last, query) by {
        if HasConflict(events, query) {
          var i :| 0 <= i < |events| && Conflicts(events[i], query);
          if i < |init| {
            assert init[i] == events[i];
          }
        }
        if HasConflict(init, query) {
          var i :| 0 <= i < |init| && Conflicts(init[i], query);
          assert events[i] == init[i];
        }
      }
      assert HasConflict(kept + tail, query) <==> HasConflict(kept, query) || Conflicts(last, query) by {
        if HasConflict(kept + tail, query) {
          var i :| 0 <= i < |kept + tail| && Conflicts((kept + tail)[i], query);
          if i < |kept| {
            assert kept[i] == (kept + tail)[i];
          }
        }
        if HasConflict(kept, query) {
          var i :| 0 <= i < |kept| && Conflicts(kept[i], query);
          assert (kept + tail)[i] == kept[i];
        }
        if Conflicts(last, query) {
          assert (kept + tail)[|kept|] == last;
        }
      }
    }
  }

  /** A booking on another day than the requested one is never in the way. */
  lemma OtherDayNeverConflicts(event: Event, query: Query)
    requires event.date != query.date
    ensures !Conflicts(event, query)
  {
  }

  /** A booking with an unreadable date or time is never in the way. */
  lemma MalformedEventNeverConflicts(event: Event, query: Query)
    requires event.date.None? || event.startHour.None? || event.endHour.None?
    ensures !Conflicts(event, query)
  {
  }

  /** With an unreadable requested day or time, nothing is ever in the way. */
  lemma MalformedQueryNeverConflicts(events: seq<Event>, query: Query)
    requires query.date.None? || query.start.None? || query.end.None?
    ensures !HasConflict(events, query)
  {
  }

  /** A room without bookings, or whose answer carries no booking list, is free. */
  lemma NoEventsIsFree(room: RoomJson, query: Query)
    requires room.events.None? || room.events.value.events.None? || room.events.value.events == Some([])
    ensures !HasConflict(EventsOf(room), query)
  {
  }

  /** Back-to-back bookings are compatible: one that ends when the window starts, or starts
      when it ends, is not in the way. */
  lemma AdjacentBookingDoesNotConflict(event: Event, query: Query)
    requires || (event.endHour.Some? && event.endHour == query.start)
             || (event.startHour.Some? && event.startHour == query.end)
    ensures !Conflicts(event, query)
  {
  }

  /** `t` lies in the half-open interval [start, end). */
  predicate Within(t: int, start: int, end: int)
  {
    start <= t < end
  }

  /** For well-formed bookings and windows the rule is exactly "the two half-open intervals
      share a minute", on the same day. */
  lemma ConflictMeansSharedMinute(event: Event, query: Query)
    requires event.startHour.Some? && event.endHour.Some? && event.startHour.value < event.endHour.value
    requires query.start.Some? && query.end.Some? && query.start.value < query.end.value
    ensures Conflicts(event, query) <==>
      SameDay(event.date, query.date) &&
      exists t :: Within(t, event.startHour.value, event.endHour.value)
               && Within(t, query.start.value, query.end.value)
  {
    var s1, e1 := event.startHour.value, event.endHour.value;
    var s2, e2 := query.start.value, query.end.value;
    if s1 < e2 && s2 < e1 {
      var t := if s1 < s2 then s2 else s1;
      assert Within(t, s1, e1) && Within(t, s2, e2);
    }
  }
}
