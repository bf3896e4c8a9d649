/** The list tab of `src/components/EventList.tsx`: type filter, empty state and badges. */
module EventList {
  import opened Types
  import Seqs
  import EventColors
  import App

  /** `filteredEvents`: all events for 'all', otherwise those whose type is exactly `filter`. */
  function FilteredEvents(events: seq<Event>, filter: string): (r: seq<Event>)
    ensures filter == "all" ==> r == events
    ensures filter != "all" ==> forall e :: e in r <==> e in events && e.kind == filter
  {
    if filter == "all" then events else Seqs.Filter(events, (e: Event) => e.kind == filter)
  }

  /** For a type filter, the listed events are exactly the positions of that type, in order. */
  lemma FilteredEventsPicks(events: seq<Event>, filter: string) returns (idx: seq<int>)
    requires filter != "all"
    ensures Seqs.Picks(FilteredEvents(events, filter), events, idx)
    ensures forall i :: 0 <= i < |events| ==> (i in idx <==> events[i].kind == filter)
  {
    idx := Seqs.FilterPicks(events, (e: Event) => e.kind == filter);
  }

  /** Filtering the list again by the same filter changes nothing. */
  lemma FilteredEventsIdempotent(events: seq<Event>, filter: string)
    ensures FilteredEvents(FilteredEvents(events, filter), filter) == FilteredEvents(events, filter)
  {
    if filter != "all" {
      Seqs.FilterIdempotent(events, (e: Event) => e.kind == filter);
    }
  }

  /** The list tab shows the same events as the calendar and weekly tabs for the same filter. */
  lemma ListAgreesWithViews(events: seq<Event>, filter: string)
    ensures FilteredEvents(events, filter) == App.VisibleEvents(events, filter)
  {
    if filter != "all" {
      Seqs.FilterCongruent(events, (e: Event) => e.kind == filter, (e: Event) => filter == "all" || e.kind == filter);
    }
  }

  /** The recurrence badge: hidden only for 'none'; Diario, Semanal, and Mensual for anything else, absent included. */
  function RecurrenceBadge(recurrence: Option<Recurrence>): (badge: Option<string>)
    ensures badge.None? <==> recurrence == Some(NoRecurrence)
    ensures badge == Some("Diario") <==> recurrence == Some(Daily)
    ensures badge == Some("Semanal") <==> recurrence == Some(Weekly)
    ensures badge == Some("Mensual") <==> recurrence == Some(Monthly) || recurrence.None?
  {
    match recurrence
    case Some(NoRecurrence) => None
    case Some(Daily) => Some("Diario")
    case Some(Weekly) => Some("Semanal")
    case _ => Some("Mensual")
  }

  /** One list entry: title, type badge, recurrence badge and the description when it is non-empty. */
  datatype Item = Item(title: string, kind: string, color: string, badge: Option<string>, description: Option<string>)

  /** The body of the list: the empty-state message, or one item per filtered event. */
  datatype Body = EmptyMessage | Items(items: seq<Item>)

  function ItemOf(e: Event): Item
  {
    Item(e.title, e.kind, EventColors.GetEventColor(e.kind), RecurrenceBadge(e.recurrence),
         if e.description != "" then Some(e.description) else None)
  }

  /** The rendered list: the message exactly when no event passes the filter, otherwise the items in order. */
  function RenderList(events: seq<Event>, filter: string): (body: Body)
    ensures body.EmptyMessage? <==> forall e :: e in events ==> filter != "all" && e.kind != filter
    ensures body.Items? ==>
      var shown := FilteredEvents(events, filter);
      |body.items| == |shown| && forall k :: 0 <= k < |shown| ==> body.items[k] == ItemOf(shown[k])
  {
    var shown := FilteredEvents(events, filter);
    assert shown != [] ==> shown[0] in shown;
    if |shown| == 0 then EmptyMessage
    else Items(seq(|shown|, k requires 0 <= k < |shown| => ItemOf(shown[k])))
  }
}
