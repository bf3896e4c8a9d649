/**
 * Integer day arithmetic standing in for the date-fns calls the views use
 * (`startOfWeek` with Monday as first day, `addDays`, `addWeeks`, `subWeeks`)
 * and for `Date.prototype.getDay` and `toDateString` comparisons.
 */
module Dates {
  import opened Types
  import Seqs

  const DaysPerWeek := 7
  const Monday := 1

  /** `getDay()` of day number `d`: 0 is Sunday, 6 is Saturday; day 0 (1 January 1970) was a Thursday. */
  function Weekday(d: int): (w: int)
    ensures 0 <= w < DaysPerWeek
  {
    (d + 4) % DaysPerWeek
  }

  /** `startOfWeek(date, { weekStartsOn: 1 })` as a day number: the Monday on or before `d`. */
  function StartOfWeek(d: int): (s: int)
    ensures Weekday(s) == Monday
    ensures s <= d < s + DaysPerWeek
  {
    d - (Weekday(d) + 6) % DaysPerWeek
  }

  /** The Monday of `StartOfWeek` is the only Monday in the seven days up to `d`. */
  lemma StartOfWeekUnique(d: int, m: int)
    requires Weekday(m) == Monday
    requires m <= d < m + DaysPerWeek
    ensures m == StartOfWeek(d)
  {
    var s := StartOfWeek(d);
    assert (m + 4) % 7 == (s + 4) % 7;
    assert -7 < m - s < 7;
  }

  /** `addDays(t, n)`: the same time of day, `n` days later (earlier when `n` is negative). */
  function AddDays(t: Timestamp, n: int): (r: Timestamp)
    ensures r.day - t.day == n && r.minute == t.minute
  {
    t.(day := t.day + n)
  }

  /** `addWeeks(t, n)`: `7 * n` days later, same time of day. */
  function AddWeeks(t: Timestamp, n: int): (r: Timestamp)
    ensures r.day == t.day + DaysPerWeek * n && r.minute == t.minute
    ensures Weekday(r.day) == Weekday(t.day)
  {
    AddDays(t, DaysPerWeek * n)
  }

  /**
   * `events.filter(event => new Date(event.date).toDateString() === day.toDateString())`:
   * the events dated on calendar day `day`, whatever their time of day, in input order.
   */
  function EventsOn(events: seq<Event>, day: int): (r: seq<Event>)
    ensures forall e :: e in r <==> e in events && e.date.day == day
  {
    Seqs.Filter(events, (e: Event) => e.date.day == day)
  }

  /** `EventsOn` keeps exactly the positions dated `day`, in order. */
  lemma EventsOnPicks(events: seq<Event>, day: int) returns (idx: seq<int>)
    ensures Seqs.Picks(EventsOn(events, day), events, idx)
    ensures forall i :: 0 <= i < |events| ==> (i in idx <==> events[i].date.day == day)
  {
    idx := Seqs.FilterPicks(events, (e: Event) => e.date.day == day);
  }

  /** Calibration against the real calendar: 1 January 1970 was a Thursday and 11 March 2024 a Monday. */
  lemma WeekdayCalibration()
    ensures Weekday(0) == 4
    ensures Weekday(19793) == Monday
    ensures StartOfWeek(19795) == 19793
  {
  }
}
