/** The weekly grid of `src/components/WeeklyView.tsx`: seven Monday-anchored day columns. */
module WeeklyView {
  import opened Types
  import Dates

  /** `weekStart`: the Monday of the week holding `current`. */
  function WeekStart(current: Timestamp): (start: int)
    ensures Dates.Weekday(start) == Dates.Monday
    ensures start <= current.day < start + Dates.DaysPerWeek
  {
    Dates.StartOfWeek(current.day)
  }

  /** `weekDays`: seven consecutive days from `weekStart`. */
  function WeekDays(current: Timestamp): (days: seq<int>)
    ensures |days| == Dates.DaysPerWeek
    ensures forall i :: 0 <= i < |days| ==> days[i] == WeekStart(current) + i
    ensures Dates.Weekday(days[0]) == Dates.Monday
  {
    seq(Dates.DaysPerWeek, i requires 0 <= i < Dates.DaysPerWeek => WeekStart(current) + i)
  }

  /** One column of the grid: its day and the events dated on it, in input order. */
  datatype Column = Column(day: int, events: seq<Event>)

  /** The grid: column `i` is day `weekStart + i` holding exactly that day's events. */
  function RenderWeek(events: seq<Event>, current: Timestamp): (columns: seq<Column>)
    ensures |columns| == Dates.DaysPerWeek
    ensures forall i :: 0 <= i < |columns| ==>
      columns[i].day == WeekStart(current) + i && columns[i].events == Dates.EventsOn(events, columns[i].day)
  {
    var days := WeekDays(current);
    seq(|days|, i requires 0 <= i < |days| => Column(days[i], Dates.EventsOn(events, days[i])))
  }

  /** An input event shows up in some column exactly when its day lies in the displayed week. */
  lemma ShownIffInWeek(events: seq<Event>, current: Timestamp, e: Event)
    requires e in events
    ensures (exists i :: 0 <= i < Dates.DaysPerWeek && e in RenderWeek(events, current)[i].events)
        <==> WeekStart(current) <= e.date.day < WeekStart(current) + Dates.DaysPerWeek
  {
    var columns := RenderWeek(events, current);
    var start := WeekStart(current);
    if start <= e.date.day < start + Dates.DaysPerWeek {
      var i := e.date.day - start;
      assert e in columns[i].events;
    }
  }

  /** No event shows up in two columns. */
  lemma ShownAtMostOnce(events: seq<Event>, current: Timestamp, e: Event, i: int, j: int)
    requires 0 <= i < Dates.DaysPerWeek && 0 <= j < Dates.DaysPerWeek
    requires e in RenderWeek(events, current)[i].events && e in RenderWeek(events, current)[j].events
    ensures i == j
  {
  }
}
