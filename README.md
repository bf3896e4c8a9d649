# Agenda del Profesor de Ciencias — a verified model of the agenda's core

This project models the logic of a small React agenda for a science teacher. The app keeps
events (class, work, personal and experiment entries) and quick notes in session memory. It shows the
events in a month calendar, a list and a Monday-anchored week grid, and it edits them through
two forms.

What is modelled:

- **The session store** (`App.Agenda`). It has two fields, `events` and `quickNotes`, and the
  five handlers that replace them:
  - adding an event;
  - replacing an event by id;
  - deleting an event, which also deletes the quick notes pointing at it;
  - adding a quick note, which copies its content into the linked event's `notes`;
  - deleting a quick note, which removes every entry equal to its content from the linked
    event's `notes`.

  The new lists are pure functions (`Replaced`, `WithoutEvent`, `WithoutNotesOf`,
  `WithNoteMirrored`, `AfterNoteDeleted`, ...). Each handler's `ensures` ties the new state to
  them.
- **The mirror** between an event's `notes` and the quick notes attached to it (`App.Mirrors`).
  The note handlers and event deletion preserve it. Note deletion preserves it only when note
  ids are unique and no event has two attached notes with the same text.
  `App.DuplicateContentBreaksMirror` and `App.DuplicateIdBreaksMirror` show that it breaks
  when either condition is dropped. Adding or updating an event, and the form's own note editing, can
  overwrite `notes`. So no global mirror invariant is claimed; each handler only states that it
  keeps the mirror when it held before.
- **The views.**
  - The type filter: `'all'` keeps everything, any other value keeps exactly the events of that
    type, in order.
  - Same-day selection in the calendar and the week grid.
  - The week grid: seven consecutive days starting on the Monday on or before the reference
    date.
  - Week navigation by plus or minus seven days.
  - The type-to-colour switch. The source has three identical copies of it; the model has one,
    `EventColors.GetEventColor`.
  - The recurrence badge.
  - The calendar cell's dots and popover.
  - The list's empty-state message and its items.
- **The forms.**
  - The event form's initial state and setters.
  - Its own note list (append, delete by index).
  - The validate-and-build step of its submit: which callback fires, with which event.
  - The quick-note form's `trim` check, the note it builds and its input reset.

Modelling choices:

- **Dates.** An event date is a `Types.Timestamp`: a day number counted from 1 January 1970,
  plus the minute of the day. "Same `toDateString()`" is equality of day numbers.
  - `getDay()` is `(d + 4) % 7` (0 is Sunday).
  - `startOfWeek(d, { weekStartsOn: 1 })` is `d - (getDay(d) + 6) % 7`.
  - `addDays` and `addWeeks` are integer addition.
- **Type field.** The events' `type` field is called `kind`, because `type` is a keyword in
  Dafny.
- **Truthiness.** JavaScript truthiness is kept where the source relies on it:
  - a note's `eventId` counts as set only when it is present and non-empty (`App.IsSet`);
  - an edited event whose id is `''` gets a fresh id on submit.
- **Outside inputs.** The clock (`Date.now()`, `new Date()`) and the ids made from it are
  parameters.

## Model

| member | source | states |
|---|---|---|
| Types.NotesOr | src/App.tsx:62 | `notes \|\| []`: a present list is returned as is, an absent one reads as empty |
| Seqs.Filter | src/App.tsx:40 | `Array.prototype.filter`: no longer than the input, and an element is in the result exactly when it is in the input and passes the predicate |
| Seqs.FilterPicks | src/components/EventList.tsx:15 | the filtered list is picked from the input at strictly increasing positions, and position i is picked exactly when element i passes the predicate (order-preserving subsequence) |
| Seqs.FilterIdempotent | src/components/EventList.tsx:15 | filtering twice with one predicate is filtering once |
| Dates.Weekday | src/components/WeeklyView.tsx:12 | `getDay()` of a day number lies in 0..6 |
| Dates.StartOfWeek | src/components/WeeklyView.tsx:12 | `startOfWeek(..., { weekStartsOn: 1 })` is a Monday, and the given day lies in the seven days starting there |
| Dates.StartOfWeekUnique | src/components/WeeklyView.tsx:12 | any Monday whose seven-day window holds the day is the `StartOfWeek` of that day |
| Dates.AddDays | src/components/WeeklyView.tsx:13 | `addDays(t, n)` moves the day by exactly n and keeps the time of day |
| Dates.AddWeeks | src/App.tsx:49-55 | `addWeeks(t, n)` moves the day by exactly 7n, keeps the time of day and the weekday |
| Dates.EventsOn | src/components/Calendar.tsx:37-39 | an event is selected for a day exactly when it is in the input and dated on that calendar day, whatever its time |
| Dates.EventsOnPicks | src/components/Calendar.tsx:37-39 | the day's events are an order-preserving subsequence of the input that takes exactly the positions dated on that day |
| Dates.WeekdayCalibration | src/components/WeeklyView.tsx:12 | the day numbering agrees with the real calendar: 1 January 1970 was a Thursday, 11 March 2024 a Monday, and that Monday starts the week of 13 March 2024 |
| EventColors.GetEventColor | src/components/Calendar.tsx:91-104 | blue iff personal, green iff trabajo, orange iff clase, pink iff experimento, gray iff any other string; the copies at src/components/EventList.tsx:68-81 and src/components/WeeklyView.tsx:46-59 are the same switch |
| App.UpdateWhereId | src/App.tsx:34 | `map` that applies the update to exactly the events carrying the id, position by position, and leaves the rest as they were |
| App.Replaced | src/App.tsx:33-34 | `updateEvent`'s list: same length and ids at every position; events carrying the new event's id become it, all others unchanged |
| App.ReplaceUnknownId | src/App.tsx:33-34 | updating with an id no event carries leaves the list unchanged |
| App.WithoutEvent | src/App.tsx:40 | `deleteEvent` keeps an event exactly when it does not carry the id |
| App.WithoutEventPicks | src/App.tsx:40 | `deleteEvent` drops exactly the positions carrying the id and keeps the others in order |
| App.WithoutNotesOf | src/App.tsx:41 | the cascade keeps a quick note exactly when it does not point at the deleted id |
| App.WithoutNotesOfPicks | src/App.tsx:41 | the cascade drops exactly the notes pointing at the id and keeps the others in order |
| App.WithNoteMirrored | src/App.tsx:59-65 | when the note's `eventId` is set, every event with that id gets the content appended to its notes, an absent list reading as empty; no other event and no other field changes |
| App.FirstIndexWithId | src/App.tsx:69 | the position of the first note carrying the id, or the length when none does |
| App.FirstWithId | src/App.tsx:69 | `find`: none exactly when no note carries the id, otherwise the first note that does |
| App.WithoutNote | src/App.tsx:70 | `deleteQuickNote` keeps a note exactly when it does not carry the id (all notes with that id go) |
| App.WithoutNotePicks | src/App.tsx:70 | `deleteQuickNote` drops exactly the positions carrying the id and keeps the others in order |
| App.WithoutContent | src/App.tsx:74 | an entry is in the result exactly when it is in the list and differs from the content |
| App.WithoutContentPicks | src/App.tsx:74 | stripping a content drops exactly the positions holding it and keeps all other entries, repeats included, in order |
| App.StripContent | src/App.tsx:74 | `notes?.filter(...)`: absent notes stay absent, present ones lose every entry equal to the content |
| App.WithNoteUnmirrored | src/App.tsx:71-76 | when the note's `eventId` is set, every event with that id has the note's content stripped from its notes; no other event and no other field changes |
| App.AfterNoteDeleted | src/App.tsx:68-77 | `deleteQuickNote`'s event list: only `notes` fields can change, and an unknown note id changes nothing |
| App.DeleteUnknownNote | src/App.tsx:68-77 | deleting a note id that no note carries leaves both lists unchanged |
| App.LinkedContents | src/App.tsx:57-77 | the contents of the notes attached to an event: no longer than the store, every entry comes from an attached note and every attached note's content is present (store order is fixed by `App.LinkedAppend`) |
| App.LinkedAppend | src/App.tsx:58 | appending a note appends its content to the contents linked to its own event and to no other |
| App.AddQuickNoteKeepsMirror | src/App.tsx:57-66 | `addQuickNote` keeps every event's notes equal to the contents of its attached quick notes |
| App.LinkedWithoutNotesOf | src/App.tsx:41 | the cascade leaves the linked contents of every other event unchanged |
| App.DeleteEventKeepsMirror | src/App.tsx:39-42 | `deleteEvent` with its cascade keeps the mirror |
| App.LinkedWithoutLinkedNote | src/App.tsx:70-74 | when the deleted id is exactly the attached note with that content, dropping the note removes exactly that content from the event's linked contents |
| App.MirrorEntryAfterDelete | src/App.tsx:70-76 | after deleting the only note with the id, one event's stored notes still equal its linked contents |
| App.DeleteQuickNoteKeepsMirror | src/App.tsx:68-78 | `deleteQuickNote` keeps the mirror when note ids are unique and no event has two attached notes with equal content |
| App.DuplicateContentBreaksMirror | src/App.tsx:74 | an event with two attached notes of equal text: the mirror holds, the ids are unique, and deleting one note breaks the mirror because both entries are removed |
| App.DuplicateIdBreaksMirror | src/App.tsx:69-76 | two notes sharing an id on different events, with distinct contents: the mirror holds, and deleting the id removes both notes but strips only the first one's content, breaking the mirror |
| App.VisibleEvents | src/App.tsx:155 | the calendar's and weekly view's events: all of them for `'all'`, otherwise exactly those whose type equals the filter |
| App.VisibleEventsPicks | src/App.tsx:163 | the visible events are exactly the positions passing the filter, in input order |
| App.VisibleEventsIdempotent | src/App.tsx:155 | applying the view filter twice is applying it once |
| App.NextWeek | src/App.tsx:49-51 | `handleNextWeek` moves the reference date exactly 7 days later, same time of day |
| App.PreviousWeek | src/App.tsx:53-55 | `handlePreviousWeek` moves it exactly 7 days earlier, same time of day |
| App.WeekNavigationRoundTrip | src/App.tsx:49-55 | next and previous week undo each other, in both orders |
| App.Agenda.constructor | src/App.tsx:16-17 | both state cells start empty |
| App.Agenda.AddEvent | src/App.tsx:28-29 | the event is appended after all earlier events; the quick notes are untouched |
| App.Agenda.UpdateEvent | src/App.tsx:33-34 | the events become `Replaced(old events, updated)`; the quick notes are untouched |
| App.Agenda.DeleteEvent | src/App.tsx:39-42 | events and quick notes become their filtered lists; no remaining note points at the id; the mirror, if it held, still holds |
| App.Agenda.AddQuickNote | src/App.tsx:57-66 | the note is appended even when no event has its `eventId`; events become `WithNoteMirrored`; the mirror, if it held, still holds |
| App.Agenda.DeleteQuickNote | src/App.tsx:68-78 | every note with the id goes; the events lose the first such note's content; the mirror is kept under unique ids and distinct contents |
| Calendar.RenderDay | src/components/Calendar.tsx:35-80 | one dot per day event, coloured by its type; popover lines give each day event's colour, type and title in order; no dots, and the "no events" message, exactly when no event falls on the day |
| EventList.FilteredEvents | src/components/EventList.tsx:15 | `'all'` gives the input unchanged; any other filter keeps exactly the events of that type |
| EventList.FilteredEventsPicks | src/components/EventList.tsx:15 | for a type filter, the list keeps exactly the positions of that type, in order |
| EventList.FilteredEventsIdempotent | src/components/EventList.tsx:15 | filtering the list twice is filtering it once |
| EventList.ListAgreesWithViews | src/components/EventList.tsx:15 | the list tab's filter selects the same sequence as the calendar and weekly filter at src/App.tsx:155 |
| EventList.RecurrenceBadge | src/components/EventList.tsx:35-38 | no badge iff the recurrence is `'none'`; Diario iff daily, Semanal iff weekly, Mensual iff monthly or absent |
| EventList.RenderList | src/components/EventList.tsx:22-47 | the empty-state message exactly when no event passes the filter, otherwise one item per filtered event in order, with title, type, colour, recurrence badge and non-empty description |
| WeeklyView.WeekStart | src/components/WeeklyView.tsx:12 | `weekStart` is a Monday and the reference day lies in the seven days from it |
| WeeklyView.WeekDays | src/components/WeeklyView.tsx:13 | exactly seven days, day i being `weekStart` + i, the first a Monday |
| WeeklyView.RenderWeek | src/components/WeeklyView.tsx:21-31 | seven columns; column i is day `weekStart` + i and holds exactly that day's events |
| WeeklyView.ShownIffInWeek | src/components/WeeklyView.tsx:13-31 | an input event appears in some column iff its day lies in [`weekStart`, `weekStart` + 7) |
| WeeklyView.ShownAtMostOnce | src/components/WeeklyView.tsx:30-31 | no event appears in two columns |
| EventForm.RemoveAt | src/components/EventForm.tsx:51 | removes exactly the entry at the index, keeping the others in order; an out-of-range index leaves the list unchanged |
| EventForm.RemoveAddedNote | src/components/EventForm.tsx:46-52 | deleting the note just appended restores the list |
| EventForm.Form.constructor | src/components/EventForm.tsx:18-23 | the state is taken from the edited event (absent recurrence as `'none'`, absent notes as empty), or is `''`, `''`, no date, `''`, `'none'`, empty |
| EventForm.Form.SetTitle | src/components/EventForm.tsx:67 | the title becomes the input value |
| EventForm.Form.SetDescription | src/components/EventForm.tsx:73 | the description becomes the input value |
| EventForm.Form.SetDate | src/components/EventForm.tsx:80 | the date becomes the picked date, or none |
| EventForm.Form.SetType | src/components/EventForm.tsx:87 | a cleared type select leaves the type `''` |
| EventForm.Form.SetRecurrence | src/components/EventForm.tsx:99 | a cleared recurrence select falls back to `'none'` |
| EventForm.Form.AddNote | src/components/EventForm.tsx:46-48 | the content is appended at the end of the form's notes |
| EventForm.Form.DeleteNote | src/components/EventForm.tsx:50-52 | the form's notes become `RemoveAt(old notes, index)` |
| EventForm.Form.Submit | src/components/EventForm.tsx:25-44 | no callback iff title, date or type is missing; `onUpdateEvent` iff valid, editing and that callback is present, else `onAddEvent`; the id is the edited event's unless empty, else the fresh id; all other fields are the form's |
| QuickNoteForm.SkipSpace | src/components/QuickNoteForm.tsx:15 | the first non-white-space position at or after i, with only white space skipped |
| QuickNoteForm.SkipSpaceBack | src/components/QuickNoteForm.tsx:15 | the position after the last non-white-space character before j, with only white space skipped |
| QuickNoteForm.Trim | src/components/QuickNoteForm.tsx:15-18 | `trim()`: a slice of the input with only white space on either side and none at its own ends; empty iff the input is all white space |
| QuickNoteForm.TrimIdempotent | src/components/QuickNoteForm.tsx:15-18 | trimming twice is trimming once |
| QuickNoteForm.Accept | src/components/QuickNoteForm.tsx:15-21 | no note iff the input is empty or only white space; otherwise a note with the trimmed, non-empty content, the form's `eventId`, and the given id and timestamp |
| QuickNoteForm.NoteInput.constructor | src/components/QuickNoteForm.tsx:11 | the input starts empty |
| QuickNoteForm.NoteInput.SetContent | src/components/QuickNoteForm.tsx:33 | the content becomes the input value |
| QuickNoteForm.NoteInput.HandleSubmit | src/components/QuickNoteForm.tsx:13-25 | emits at most one note, `Accept(old content, ...)`; the input is cleared after an accepted submit and unchanged after a rejected one |

## Left out

- Rendering: JSX, Mantine layout, styling, transitions and the Spanish labels of the week grid
  (`format` with the `es` locale). Only the data each view draws is modelled.
- UI-only state: the colour scheme toggle, the burger `opened` flag, the active tab, the
  `showForm`/`editingEvent` toggles with `handleEditEvent` and `onCancel`, and the calendar's
  `selectedDate`. The view filter is a parameter: no control in `src/App.tsx` ever sets it.
  In the same way, no caller passes `eventId` to the quick-note form (src/App.tsx:109,
  src/App.tsx:167, src/components/EventForm.tsx:108). So, as the app is wired, no quick note is
  ever linked, and the mirroring branches of `addQuickNote` and `deleteQuickNote` never run
  from the UI. The model covers them for any note the handlers receive.
- src/components/QuickNoteList.tsx is not part of this model. It only renders notes and
  forwards the delete callback, and the form's conversion of a note id with `parseInt` is
  represented by the integer index that `EventForm.Form.DeleteNote` receives.
- Clock and id generation: `Date.now()` and `new Date()` are parameters (`freshId`, `noteId`,
  `createdAt`). The uniqueness of the ids they produce is an assumption
  (`App.UniqueNoteIds`), not a fact the model derives.
- JavaScript `Date` and date-fns internals: parsing the ISO strings, `toISOString`,
  `toLocaleDateString`, time zones and daylight saving. Dates are already day numbers plus
  a minute of the day. So an unparseable date string ("Invalid Date", which matches no day)
  is not represented, and the event's `date` field is a timestamp rather than a string.
- Recurrence expansion: the app only stores and labels the recurrence tag.
- Events and notes are immutable values in the model. React's re-rendering and the closure
  capture of stale state between handler calls are not modelled: each handler reads the
  current fields.
- App.Agenda.DeleteQuickNote: mirror preservation is stated only under unique note ids and
  distinct contents per event. Without either condition it fails, as
  `App.DuplicateIdBreaksMirror` and `App.DuplicateContentBreaksMirror` show.
