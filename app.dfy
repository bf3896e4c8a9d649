/**
 * The session store of `src/App.tsx`: the two state cells `events` and `quickNotes`,
 * the handlers that replace them, the type filter handed to the calendar and weekly
 * views, and week navigation.
 *
 * Each handler computes its new list with a pure `map`/`filter`/spread expression; those
 * are the functions below, and the class `Agenda` assigns them to its two fields.
 */
module App {
  import opened Types
  import Seqs
  import Dates

  /** JavaScript truthiness of an optional id: both `undefined` and `''` are falsy. */
  predicate IsSet(id: Option<string>)
  {
    id.Some? && id.value != ""
  }

  /** `events.map(event => event.id === id ? f(event) : event)`. */
  function UpdateWhereId(events: seq<Event>, id: string, f: Event -> Event): (r: seq<Event>)
    ensures |r| == |events|
    ensures forall i :: 0 <= i < |events| ==> r[i] == if events[i].id == id then f(events[i]) else events[i]
  {
    seq(|events|, i requires 0 <= i < |events| => if events[i].id == id then f(events[i]) else events[i])
  }

  // ---------------------------------------------------------------- events

  /** The list `updateEvent` stores: every event carrying `updated.id` is replaced, position by position. */
  function Replaced(events: seq<Event>, updated: Event): (r: seq<Event>)
    ensures |r| == |events|
    ensures forall i :: 0 <= i < |events| ==> r[i].id == events[i].id
    ensures forall i :: 0 <= i < |events| && events[i].id == updated.id ==> r[i] == updated
    ensures forall i :: 0 <= i < |events| && events[i].id != updated.id ==> r[i] == events[i]
  {
    UpdateWhereId(events, updated.id, _ => updated)
  }

  /** Updating with an id that no event carries is a silent no-op. */
  lemma ReplaceUnknownId(events: seq<Event>, updated: Event)
    requires forall e :: e in events ==> e.id != updated.id
    ensures Replaced(events, updated) == events
  {
    var r := Replaced(events, updated);
    forall i | 0 <= i < |events| ensures r[i] == events[i] {
      assert events[i] in events;
    }
  }

  /** The list `deleteEvent(id)` stores: the events not carrying `id`. */
  function WithoutEvent(events: seq<Event>, id: string): (r: seq<Event>)
    ensures forall e :: e in r <==> e in events && e.id != id
  {
    Seqs.Filter(events, (e: Event) => e.id != id)
  }

  /** `WithoutEvent` drops exactly the positions carrying `id` and keeps the others in order. */
  lemma WithoutEventPicks(events: seq<Event>, id: string) returns (idx: seq<int>)
    ensures Seqs.Picks(WithoutEvent(events, id), events, idx)
    ensures forall i :: 0 <= i < |events| ==> (i in idx <==> events[i].id != id)
  {
    idx := Seqs.FilterPicks(events, (e: Event) => e.id != id);
  }

  // ---------------------------------------------------------------- quick notes

  /** The cascade of `deleteEvent(id)`: the quick notes that do not point at `id`. */
  function WithoutNotesOf(notes: seq<QuickNote>, id: string): (r: seq<QuickNote>)
    ensures forall n :: n in r <==> n in notes && n.eventId != Some(id)
  {
    Seqs.Filter(notes, (n: QuickNote) => n.eventId != Some(id))
  }

  /** The cascade drops exactly the notes pointing at `id` and keeps the others in order. */
  lemma WithoutNotesOfPicks(notes: seq<QuickNote>, id: string) returns (idx: seq<int>)
    ensures Seqs.Picks(WithoutNotesOf(notes, id), notes, idx)
    ensures forall i :: 0 <= i < |notes| ==> (i in idx <==> notes[i].eventId != Some(id))
  {
    idx := Seqs.FilterPicks(notes, (n: QuickNote) => n.eventId != Some(id));
  }

  /** The event list `addQuickNote(note)` stores: the note's content appended to its event's `notes`. */
  function WithNoteMirrored(events: seq<Event>, note: QuickNote): (r: seq<Event>)
    ensures |r| == |events|
    ensures forall i :: 0 <= i < |events| ==> r[i] == events[i].(notes := r[i].notes)
    ensures forall i :: 0 <= i < |events| && IsSet(note.eventId) && events[i].id == note.eventId.value ==>
      r[i].notes == Some(NotesOr(events[i].notes) + [note.content])
    ensures forall i :: 0 <= i < |events| && !(IsSet(note.eventId) && events[i].id == note.eventId.value) ==>
      r[i] == events[i]
  {
    if IsSet(note.eventId) then
      UpdateWhereId(events, note.eventId.value,
        (e: Event) => e.(notes := Some(NotesOr(e.notes) + [note.content])))
    else
      events
  }

  /** The position of the first note carrying `id`, or `|notes|` when no note does. */
  function FirstIndexWithId(notes: seq<QuickNote>, id: string): (k: int)
    ensures 0 <= k <= |notes|
    ensures forall j :: 0 <= j < k ==> notes[j].id != id
    ensures k < |notes| ==> notes[k].id == id
  {
    if notes == [] then 0
    else if notes[0].id == id then 0
    else 1 + FirstIndexWithId(notes[1..], id)
  }

  /** `quickNotes.find(note => note.id === id)`: the first note carrying `id`, if any. */
  function FirstWithId(notes: seq<QuickNote>, id: string): (r: Option<QuickNote>)
    ensures r.None? <==> forall n :: n in notes ==> n.id != id
    ensures r.Some? ==> FirstIndexWithId(notes, id) < |notes| && r.value == notes[FirstIndexWithId(notes, id)]
  {
    var k := FirstIndexWithId(notes, id);
    if k < |notes| then Some(notes[k]) else None
  }

  /** The quick-note list `deleteQuickNote(id)` stores: the notes not carrying `id`. */
  function WithoutNote(notes: seq<QuickNote>, id: string): (r: seq<QuickNote>)
    ensures forall n :: n in r <==> n in notes && n.id != id
  {
    Seqs.Filter(notes, (n: QuickNote) => n.id != id)
  }

  /** `deleteQuickNote` drops exactly the positions carrying `id` and keeps the others in order. */
  lemma WithoutNotePicks(notes: seq<QuickNote>, id: string) returns (idx: seq<int>)
    ensures Seqs.Picks(WithoutNote(notes, id), notes, idx)
    ensures forall i :: 0 <= i < |notes| ==> (i in idx <==> notes[i].id != id)
  {
    idx := Seqs.FilterPicks(notes, (n: QuickNote) => n.id != id);
  }

  /** `ns.filter(n => n !== content)`: every entry equal to `content` removed. */
  function WithoutContent(ns: seq<string>, content: string): (r: seq<string>)
    ensures forall x :: x in r <==> x in ns && x != content
  {
    Seqs.Filter(ns, (x: string) => x != content)
  }

  /** Stripping a content drops exactly the positions holding it and keeps the others in order. */
  lemma WithoutContentPicks(ns: seq<string>, content: string) returns (idx: seq<int>)
    ensures Seqs.Picks(WithoutContent(ns, content), ns, idx)
    ensures forall i :: 0 <= i < |ns| ==> (i in idx <==> ns[i] != content)
  {
    idx := Seqs.FilterPicks(ns, (x: string) => x != content);
  }

  /** `event.notes?.filter(n => n !== content)`: absent notes stay absent. */
  function StripContent(notes: Option<seq<string>>, content: string): (r: Option<seq<string>>)
    ensures r.None? <==> notes.None?
    ensures r.Some? ==> r.value == WithoutContent(notes.value, content)
  {
    if notes.Some? then Some(WithoutContent(notes.value, content)) else None
  }

  /** The event list `deleteQuickNote` stores once it has found `note`. */
  function WithNoteUnmirrored(events: seq<Event>, note: QuickNote): (r: seq<Event>)
    ensures |r| == |events|
    ensures forall i :: 0 <= i < |events| ==> r[i] == events[i].(notes := r[i].notes)
    ensures forall i :: 0 <= i < |events| && IsSet(note.eventId) && events[i].id == note.eventId.value ==>
      r[i].notes == StripContent(events[i].notes, note.content)
    ensures forall i :: 0 <= i < |events| && !(IsSet(note.eventId) && events[i].id == note.eventId.value) ==>
      r[i] == events[i]
  {
    if IsSet(note.eventId) then
      UpdateWhereId(events, note.eventId.value, (e: Event) => e.(notes := StripContent(e.notes, note.content)))
    else
      events
  }

  /** The event list `deleteQuickNote(id)` stores: only the first note carrying `id` is looked at. */
  function AfterNoteDeleted(events: seq<Event>, notes: seq<QuickNote>, id: string): (r: seq<Event>)
    ensures |r| == |events|
    ensures forall i :: 0 <= i < |events| ==> r[i] == events[i].(notes := r[i].notes)
    ensures (forall n :: n in notes ==> n.id != id) ==> r == events
  {
    match FirstWithId(notes, id)
    case None => events
    case Some(note) => WithNoteUnmirrored(events, note)
  }

  /** Deleting a note id that no note carries leaves both lists as they were. */
  lemma DeleteUnknownNote(events: seq<Event>, notes: seq<QuickNote>, id: string)
    requires forall n :: n in notes ==> n.id != id
    ensures WithoutNote(notes, id) == notes
    ensures AfterNoteDeleted(events, notes, id) == events
  {
    Seqs.FilterKeepsAll(notes, (n: QuickNote) => n.id != id);
  }

  // ---------------------------------------------------------------- the mirror

  /** The contents of the quick notes attached to event `eid`, in store order. */
  function LinkedContents(notes: seq<QuickNote>, eid: string): (r: seq<string>)
    ensures |r| <= |notes|
    ensures forall x :: x in r ==> exists n :: n in notes && n.eventId == Some(eid) && n.content == x
    ensures forall n :: n in notes && n.eventId == Some(eid) ==> n.content in r
  {
    if notes == [] then []
    else (if notes[0].eventId == Some(eid) then [notes[0].content] else []) + LinkedContents(notes[1..], eid)
  }

  /**
   * Each event with a non-empty id lists, as `notes`, exactly the contents of the quick notes
   * attached to it. The handlers for quick notes and event deletion keep this; `addEvent`,
   * `updateEvent` and the form's own note editing can break it.
   */
  ghost predicate Mirrors(events: seq<Event>, notes: seq<QuickNote>)
  {
    forall e :: e in events && e.id != "" ==> NotesOr(e.notes) == LinkedContents(notes, e.id)
  }

  lemma {:induction false} LinkedAppend(notes: seq<QuickNote>, note: QuickNote, eid: string)
    ensures LinkedContents(notes + [note], eid)
         == LinkedContents(notes, eid) + (if note.eventId == Some(eid) then [note.content] else [])
  {
    if notes == [] {
      assert notes + [note] == [note];
    } else {
      assert (notes + [note])[1..] == notes[1..] + [note];
      LinkedAppend(notes[1..], note, eid);
    }
  }

  /** `addQuickNote` keeps the mirror. */
  lemma AddQuickNoteKeepsMirror(events: seq<Event>, notes: seq<QuickNote>, note: QuickNote)
    requires Mirrors(events, notes)
    ensures Mirrors(WithNoteMirrored(events, note), notes + [note])
  {
    var r := WithNoteMirrored(events, note);
    forall e | e in r && e.id != "" ensures NotesOr(e.notes) == LinkedContents(notes + [note], e.id) {
      var i :| 0 <= i < |r| && r[i] == e;
      assert events[i] in events;
      LinkedAppend(notes, note, e.id);
    }
  }

  lemma {:induction false} LinkedWithoutNotesOf(notes: seq<QuickNote>, id: string, eid: string)
    requires eid != id
    ensures LinkedContents(WithoutNotesOf(notes, id), eid) == LinkedContents(notes, eid)
  {
    if notes != [] {
      LinkedWithoutNotesOf(notes[1..], id, eid);
    }
  }

  /** `deleteEvent` keeps the mirror: the cascade removes only notes of the deleted event. */
  lemma DeleteEventKeepsMirror(events: seq<Event>, notes: seq<QuickNote>, id: string)
    requires Mirrors(events, notes)
    ensures Mirrors(WithoutEvent(events, id), WithoutNotesOf(notes, id))
  {
    forall e | e in WithoutEvent(events, id) && e.id != ""
      ensures NotesOr(e.notes) == LinkedContents(WithoutNotesOf(notes, id), e.id)
    {
      LinkedWithoutNotesOf(notes, id, e.id);
    }
  }

  /** Note ids are unique within the store. */
  ghost predicate UniqueNoteIds(notes: seq<QuickNote>)
  {
    forall i, j :: 0 <= i < j < |notes| ==> notes[i].id != notes[j].id
  }

  /** No event has two attached quick notes with the same content. */
  ghost predicate DistinctContents(notes: seq<QuickNote>)
  {
    forall i, j :: 0 <= i < j < |notes| && notes[i].eventId.Some? && notes[i].eventId == notes[j].eventId ==>
      notes[i].content != notes[j].content
  }

  lemma {:induction false} LinkedWithoutUnlinkedNote(notes: seq<QuickNote>, id: string, eid: string)
    requires forall n :: n in notes && n.id == id ==> n.eventId != Some(eid)
    ensures LinkedContents(WithoutNote(notes, id), eid) == LinkedContents(notes, eid)
  {
    if notes != [] {
      assert notes[0] in notes;
      LinkedWithoutUnlinkedNote(notes[1..], id, eid);
    }
  }

  lemma {:induction false} LinkedWithoutLinkedNote(notes: seq<QuickNote>, id: string, eid: string, content: string)
    requires forall n :: n in notes && n.eventId == Some(eid) ==> (n.id == id <==> n.content == content)
    ensures LinkedContents(WithoutNote(notes, id), eid) == WithoutContent(LinkedContents(notes, eid), content)
  {
    if notes != [] {
      assert notes[0] in notes;
      LinkedWithoutLinkedNote(notes[1..], id, eid, content);
      var head := if notes[0].eventId == Some(eid) then [notes[0].content] else [];
      Seqs.FilterAppend(head, LinkedContents(notes[1..], eid), (x: string) => x != content);
    }
  }

  /** With unique ids, the note at position `p` is the only one carrying its id. */
  lemma OnlyNoteWithId(notes: seq<QuickNote>, p: int)
    requires UniqueNoteIds(notes) && 0 <= p < |notes|
    ensures forall n :: n in notes && n.id == notes[p].id ==> n == notes[p]
  {
    forall n | n in notes && n.id == notes[p].id ensures n == notes[p] {
      var k :| 0 <= k < |notes| && notes[k] == n;
      assert !(k < p) && !(p < k);
    }
  }

  /** Among the notes attached to the same event as `notes[p]`, it is the only one with its content. */
  lemma OnlyNoteWithContent(notes: seq<QuickNote>, p: int)
    requires UniqueNoteIds(notes) && DistinctContents(notes) && 0 <= p < |notes| && notes[p].eventId.Some?
    ensures forall n :: n in notes && n.eventId == notes[p].eventId ==>
      (n.id == notes[p].id <==> n.content == notes[p].content)
  {
    OnlyNoteWithId(notes, p);
    forall n | n in notes && n.eventId == notes[p].eventId
      ensures n.id == notes[p].id <==> n.content == notes[p].content
    {
      var k :| 0 <= k < |notes| && notes[k] == n;
      assert k != p ==> notes[k].content != notes[p].content;
    }
  }

  /** One event's entry of the mirror after `note`, the only note carrying `id`, is deleted. */
  lemma MirrorEntryAfterDelete(before: Event, notes: seq<QuickNote>, note: QuickNote, id: string)
    requires before.id != "" && NotesOr(before.notes) == LinkedContents(notes, before.id)
    requires note.id == id
    requires forall n :: n in notes && n.id == id ==> n == note
    requires note.eventId.Some? ==>
      forall n :: n in notes && n.eventId == note.eventId ==> (n.id == id <==> n.content == note.content)
    ensures var after := if IsSet(note.eventId) && before.id == note.eventId.value
                         then before.(notes := StripContent(before.notes, note.content)) else before;
            NotesOr(after.notes) == LinkedContents(WithoutNote(notes, id), before.id)
  {
    if IsSet(note.eventId) && before.id == note.eventId.value {
      LinkedWithoutLinkedNote(notes, id, before.id, note.content);
    } else {
      LinkedWithoutUnlinkedNote(notes, id, before.id);
    }
  }

  /**
   * `deleteQuickNote` keeps the mirror when note ids are unique and no event has two notes
   * with equal content; `DuplicateContentBreaksMirror` shows the second condition is needed.
   */
  lemma DeleteQuickNoteKeepsMirror(events: seq<Event>, notes: seq<QuickNote>, id: string)
    requires Mirrors(events, notes)
    requires UniqueNoteIds(notes)
    requires DistinctContents(notes)
    ensures Mirrors(AfterNoteDeleted(events, notes, id), WithoutNote(notes, id))
  {
    var found := FirstWithId(notes, id);
    if found.None? {
      DeleteUnknownNote(events, notes, id);
    } else {
      var note := found.value;
      var p := FirstIndexWithId(notes, id);
      OnlyNoteWithId(notes, p);
      if note.eventId.Some? {
        OnlyNoteWithContent(notes, p);
      }
      var r := WithNoteUnmirrored(events, note);
      forall i | 0 <= i < |r| && r[i].id != ""
        ensures NotesOr(r[i].notes) == LinkedContents(WithoutNote(notes, id), r[i].id)
      {
        assert events[i] in events;
        MirrorEntryAfterDelete(events[i], notes, note, id);
      }
    }
  }

  /**
   * `deleteQuickNote` filters out every entry equal to the deleted note's content, so deleting
   * one of two notes with the same text on one event empties the event's list while the
   * other note is still attached to it.
   */
  lemma DuplicateContentBreaksMirror()
    ensures var event := Event("1", "Lab", "", Timestamp(19793, 540), "experimento", Some(NoRecurrence), Some(["x", "x"]));
            var notes := [QuickNote("10", "x", "", Some("1")), QuickNote("11", "x", "", Some("1"))];
            && Mirrors([event], notes)
            && UniqueNoteIds(notes)
            && !Mirrors(AfterNoteDeleted([event], notes, "10"), WithoutNote(notes, "10"))
  {
    var event := Event("1", "Lab", "", Timestamp(19793, 540), "experimento", Some(NoRecurrence), Some(["x", "x"]));
    var n0 := QuickNote("10", "x", "", Some("1"));
    var n1 := QuickNote("11", "x", "", Some("1"));
    var notes := [n0, n1];
    assert LinkedContents(notes, "1") == ["x", "x"] by {
      assert notes[1..] == [n1];
    }
    assert WithoutNote(notes, "10") == [n1] by {
      assert notes[1..] == [n1];
      assert [n1][1..] == [];
    }
    assert LinkedContents([n1], "1") == ["x"];
    var r := AfterNoteDeleted([event], notes, "10");
    assert r[0].notes == Some(WithoutContent(["x", "x"], "x"));
    assert WithoutContent(["x", "x"], "x") == [];
    assert r[0] in r;
  }

  /**
   * `deleteQuickNote` removes every note carrying the id but strips only the first one's content,
   * so two notes sharing an id on different events leave the second event listing a content
   * that no note backs any more.
   */
  lemma DuplicateIdBreaksMirror()
    ensures var e1 := Event("1", "Clase", "", Timestamp(19793, 540), "clase", None, Some(["x"]));
            var e2 := Event("2", "Lab", "", Timestamp(19794, 600), "experimento", None, Some(["y"]));
            var notes := [QuickNote("9", "x", "", Some("1")), QuickNote("9", "y", "", Some("2"))];
            && Mirrors([e1, e2], notes)
            && DistinctContents(notes)
            && !Mirrors(AfterNoteDeleted([e1, e2], notes, "9"), WithoutNote(notes, "9"))
  {
    var e1 := Event("1", "Clase", "", Timestamp(19793, 540), "clase", None, Some(["x"]));
    var e2 := Event("2", "Lab", "", Timestamp(19794, 600), "experimento", None, Some(["y"]));
    var n0 := QuickNote("9", "x", "", Some("1"));
    var n1 := QuickNote("9", "y", "", Some("2"));
    var notes := [n0, n1];
    assert notes[1..] == [n1];
    assert LinkedContents([n1], "1") == [] && LinkedContents([n1], "2") == ["y"];
    assert LinkedContents(notes, "1") == ["x"];
    assert LinkedContents(notes, "2") == ["y"];
    assert Mirrors([e1, e2], notes);
    assert "y" !in LinkedContents(WithoutNote(notes, "9"), "2");
    assert FirstWithId(notes, "9") == Some(n0);
    var r := AfterNoteDeleted([e1, e2], notes, "9");
    assert r == WithNoteUnmirrored([e1, e2], n0);
    assert r[1] == e2;
    assert r[1] in r;
  }

  // ---------------------------------------------------------------- views and navigation

  /** The events handed to the calendar and weekly views: `filter === 'all' || event.type === filter`. */
  function VisibleEvents(events: seq<Event>, filter: string): (r: seq<Event>)
    ensures filter == "all" ==> r == events
    ensures filter != "all" ==> forall e :: e in r <==> e in events && e.kind == filter
  {
    var keep := (e: Event) => filter == "all" || e.kind == filter;
    if filter == "all" then
      Seqs.FilterKeepsAll(events, keep);
      Seqs.Filter(events, keep)
    else
      Seqs.Filter(events, keep)
  }

  /** The visible events are exactly the positions passing the filter, in order. */
  lemma VisibleEventsPicks(events: seq<Event>, filter: string) returns (idx: seq<int>)
    ensures Seqs.Picks(VisibleEvents(events, filter), events, idx)
    ensures forall i :: 0 <= i < |events| ==> (i in idx <==> filter == "all" || events[i].kind == filter)
  {
    idx := Seqs.FilterPicks(events, (e: Event) => filter == "all" || e.kind == filter);
  }

  /** Filtering the visible events again by the same filter changes nothing. */
  lemma VisibleEventsIdempotent(events: seq<Event>, filter: string)
    ensures VisibleEvents(VisibleEvents(events, filter), filter) == VisibleEvents(events, filter)
  {
    Seqs.FilterIdempotent(events, (e: Event) => filter == "all" || e.kind == filter);
  }

  /** `handleNextWeek`: the reference date one week later, same time of day. */
  function NextWeek(current: Timestamp): (r: Timestamp)
    ensures r.day == current.day + Dates.DaysPerWeek && r.minute == current.minute
  {
    Dates.AddWeeks(current, 1)
  }

  /** `handlePreviousWeek`: the reference date one week earlier, same time of day. */
  function PreviousWeek(current: Timestamp): (r: Timestamp)
    ensures r.day == current.day - Dates.DaysPerWeek && r.minute == current.minute
  {
    Dates.AddWeeks(current, -1)
  }

  /** Next and previous week undo each other. */
  lemma WeekNavigationRoundTrip(current: Timestamp)
    ensures PreviousWeek(NextWeek(current)) == current
    ensures NextWeek(PreviousWeek(current)) == current
  {
  }

  // ---------------------------------------------------------------- the state cells

  /** The `events` and `quickNotes` state of the App component. */
  class Agenda {
    var events: seq<Event>
    var quickNotes: seq<QuickNote>

    /** Both cells start out empty. */
    constructor ()
      ensures events == [] && quickNotes == []
    {
      events := [];
      quickNotes := [];
    }

    /** `addEvent`: appends, leaving earlier events in place. */
    method AddEvent(event: Event)
      modifies this
      ensures events == old(events) + [event]
      ensures quickNotes == old(quickNotes)
    {
      events := events + [event];
    }

    /** `updateEvent`: replaces the events carrying `updated.id` in place. */
    method UpdateEvent(updated: Event)
      modifies this
      ensures events == Replaced(old(events), updated)
      ensures quickNotes == old(quickNotes)
    {
      events := Replaced(events, updated);
    }

    /** `deleteEvent`: removes the event and, by cascade, every quick note pointing at it. */
    method DeleteEvent(id: string)
      modifies this
      ensures events == WithoutEvent(old(events), id)
      ensures quickNotes == WithoutNotesOf(old(quickNotes), id)
      ensures forall n :: n in quickNotes ==> n.eventId != Some(id)
      ensures old(Mirrors(events, quickNotes)) ==> Mirrors(events, quickNotes)
    {
      if Mirrors(events, quickNotes) {
        DeleteEventKeepsMirror(events, quickNotes, id);
      }
      events := WithoutEvent(events, id);
      quickNotes := WithoutNotesOf(quickNotes, id);
    }

    /** `addQuickNote`: always stores the note, and mirrors its content into its event, if any. */
    method AddQuickNote(note: QuickNote)
      modifies this
      ensures quickNotes == old(quickNotes) + [note]
      ensures events == WithNoteMirrored(old(events), note)
      ensures old(Mirrors(events, quickNotes)) ==> Mirrors(events, quickNotes)
    {
      if Mirrors(events, quickNotes) {
        AddQuickNoteKeepsMirror(events, quickNotes, note);
      }
      quickNotes := quickNotes + [note];
      if IsSet(note.eventId) {
        events := WithNoteMirrored(events, note);
      }
    }

    /** `deleteQuickNote`: removes the notes carrying `id` and strips the first one's content from its event. */
    method DeleteQuickNote(id: string)
      modifies this
      ensures quickNotes == WithoutNote(old(quickNotes), id)
      ensures events == AfterNoteDeleted(old(events), old(quickNotes), id)
      ensures old(Mirrors(events, quickNotes) && UniqueNoteIds(quickNotes) && DistinctContents(quickNotes)) ==>
        Mirrors(events, quickNotes)
    {
      if Mirrors(events, quickNotes) && UniqueNoteIds(quickNotes) && DistinctContents(quickNotes) {
        DeleteQuickNoteKeepsMirror(events, quickNotes, id);
      }
      var noteToDelete := FirstWithId(quickNotes, id);
      quickNotes := WithoutNote(quickNotes, id);
      if noteToDelete.Some? && IsSet(noteToDelete.value.eventId) {
        events := WithNoteUnmirrored(events, noteToDelete.value);
      }
    }
  }
}
