/** The records of `src/types.ts`, with the event's ISO timestamp abstracted to a day and a minute. */
module Types {

  datatype Option<T> = None | Some(value: T)

  /** The four recurrence tags 'none' | 'daily' | 'weekly' | 'monthly'; only stored and labelled. */
  datatype Recurrence = NoRecurrence | Daily | Weekly | Monthly

  type MinuteOfDay = m: int | 0 <= m < 1440

  /**
   * A local point in time: `day` counts days from 1 January 1970 (negative before it),
   * `minute` is the time of day. Two timestamps have the same `toDateString()` exactly when
   * their `day` fields are equal.
   */
  datatype Timestamp = Timestamp(day: int, minute: MinuteOfDay)

  /** An agenda event. `kind` is the source's `type` field, an open set of category strings. */
  datatype Event = Event(
    id: string,
    title: string,
    description: string,
    date: Timestamp,
    kind: string,
    recurrence: Option<Recurrence>,
    notes: Option<seq<string>>)

  /** A quick note, optionally attached to an event through `eventId`. */
  datatype QuickNote = QuickNote(
    id: string,
    content: string,
    createdAt: string,
    eventId: Option<string>)

  /** `notes || []`: an absent note list reads as empty. */
  function NotesOr(notes: Option<seq<string>>): (r: seq<string>)
    ensures notes.Some? ==> r == notes.value
    ensures notes.None? ==> r == []
  {
    if notes.Some? then notes.value else []
  }
}
