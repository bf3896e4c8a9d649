/** The per-day rendering of `src/components/Calendar.tsx`: indicator dots and the popover. */
module Calendar {
  import opened Types
  import Dates
  import EventColors

  /** One popover line: the type badge (colour and text) followed by the title. */
  datatype EventLine = EventLine(color: string, kind: string, title: string)

  /** The popover of a day: its events' lines, or the "no events" message. */
  datatype Popover = NoEventsMessage | Lines(lines: seq<EventLine>)

  /** What `renderDay` draws for a day besides its number: one coloured dot per event, and the popover. */
  datatype DayCell = DayCell(dots: seq<string>, popover: Popover)

  /** `renderDay(date)` for calendar day `day`, over the events handed to the calendar. */
  function RenderDay(events: seq<Event>, day: int): (cell: DayCell)
    ensures var dayEvents := Dates.EventsOn(events, day);
      && |cell.dots| == |dayEvents|
      && (forall k :: 0 <= k < |cell.dots| ==> cell.dots[k] == EventColors.GetEventColor(dayEvents[k].kind))
      && (cell.popover.Lines? ==>
            && |cell.popover.lines| == |dayEvents|
            && forall k :: 0 <= k < |dayEvents| ==>
                 cell.popover.lines[k] == EventLine(EventColors.GetEventColor(dayEvents[k].kind), dayEvents[k].kind, dayEvents[k].title))
    ensures cell.dots == [] <==> forall e :: e in events ==> e.date.day != day
    ensures cell.popover.NoEventsMessage? <==> forall e :: e in events ==> e.date.day != day
  {
    var dayEvents := Dates.EventsOn(events, day);
    assert dayEvents != [] ==> dayEvents[0] in dayEvents;
    if |dayEvents| > 0 then
      DayCell(
        seq(|dayEvents|, k requires 0 <= k < |dayEvents| => EventColors.GetEventColor(dayEvents[k].kind)),
        Lines(seq(|dayEvents|, k requires 0 <= k < |dayEvents| =>
          EventLine(EventColors.GetEventColor(dayEvents[k].kind), dayEvents[k].kind, dayEvents[k].title))))
    else
      DayCell([], NoEventsMessage)
  }
}
