/** Calendar events as the views read them, and the per-day lookup that
    every month and week view repeats (`eventsForDate`). */
module Events {
  import opened Common

  /** The `type` of an event; the stored model lacks this field although the
      week views switch on it, so it is added here. */
  datatype EventType = Meeting | Deadline | Reminder | Task

  /** A moment at minute granularity: a day number, an hour and a minute. */
  datatype DateTime = DateTime(day: int, hour: int, minute: int)

  predicate ValidTime(t: DateTime)
  {
    0 <= t.hour < 24 && 0 <= t.minute < 60
  }

  datatype CalendarEvent = CalendarEvent(
    title: string,
    startTime: DateTime,
    endTime: DateTime,
    isCompleted: bool,
    kind: EventType)

  /** `eventsForDate(_:)`: the events whose start lies on `date`, in input order. */
  function EventsOnDay(events: seq<CalendarEvent>, date: int): (r: seq<CalendarEvent>)
    ensures forall i :: 0 <= i < |r| ==> r[i].startTime.day == date
    ensures forall e: CalendarEvent :: e in r <==> e in events && e.startTime.day == date
    ensures forall e: CalendarEvent :: e.startTime.day == date ==> multiset(r)[e] == multiset(events)[e]
  {
    Filter(events, (e: CalendarEvent) => e.startTime.day == date)
  }

  /** The lookup keeps input order: it distributes over concatenation. */
  lemma EventsOnDayAppend(a: seq<CalendarEvent>, b: seq<CalendarEvent>, date: int)
    ensures EventsOnDay(a + b, date) == EventsOnDay(a, date) + EventsOnDay(b, date)
  {
    FilterAppend(a, b, (e: CalendarEvent) => e.startTime.day == date);
  }

  /** Every event is listed under its own start day and under no other. */
  lemma EventListedOnItsDayOnly(events: seq<CalendarEvent>, e: CalendarEvent, date: int)
    requires e in events
    ensures e in EventsOnDay(events, date) <==> date == e.startTime.day
  {
  }
}
