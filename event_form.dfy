/** `src/components/EventForm.tsx`: the form's state cells, its note list and the event it submits. */
module EventForm {
  import opened Types

  /** The callback `handleSubmit` fires: none, `onAddEvent(event)`, or `onUpdateEvent(event)`. */
  datatype Submission = NoCallback | CallAdd(event: Event) | CallUpdate(event: Event)

  /** `notes.filter((_, i) => i !== index)`: the entry at `index` removed, if there is one. */
  function RemoveAt(notes: seq<string>, index: int): (r: seq<string>)
    ensures 0 <= index < |notes| ==>
      && |r| == |notes| - 1
      && (forall k :: 0 <= k < index ==> r[k] == notes[k])
      && (forall k :: index <= k < |r| ==> r[k] == notes[k + 1])
    ensures !(0 <= index < |notes|) ==> r == notes
  {
    if 0 <= index < |notes| then notes[..index] + notes[index + 1..] else notes
  }

  /** Deleting the note just added restores the list. */
  lemma RemoveAddedNote(notes: seq<string>, content: string)
    ensures RemoveAt(notes + [content], |notes|) == notes
  {
  }

  /** The form's state cells, with the `initialEvent` prop and whether `onUpdateEvent` was passed. */
  class Form {
    const initialEvent: Option<Event>
    const canUpdate: bool
    var title: string
    var description: string
    var date: Option<Timestamp>
    var kind: string
    var recurrence: Recurrence
    var notes: seq<string>

    /** The initial state: taken from `initialEvent` when editing, otherwise empty. */
    constructor (initialEvent: Option<Event>, canUpdate: bool)
      ensures this.initialEvent == initialEvent && this.canUpdate == canUpdate
      ensures initialEvent.None? ==>
        && title == "" && description == "" && date == None && kind == ""
        && recurrence == NoRecurrence && notes == []
      ensures initialEvent.Some? ==>
        var e := initialEvent.value;
        && title == e.title && description == e.description && date == Some(e.date) && kind == e.kind
        && recurrence == (if e.recurrence.Some? then e.recurrence.value else NoRecurrence)
        && notes == NotesOr(e.notes)
    {
      this.initialEvent := initialEvent;
      this.canUpdate := canUpdate;
      if initialEvent.Some? {
        var e := initialEvent.value;
        title := e.title;
        description := e.description;
        date := Some(e.date);
        kind := e.kind;
        recurrence := if e.recurrence.Some? then e.recurrence.value else NoRecurrence;
        notes := NotesOr(e.notes);
      } else {
        title := "";
        description := "";
        date := None;
        kind := "";
        recurrence := NoRecurrence;
        notes := [];
      }
    }

    /** The title input's `onChange`. */
    method SetTitle(value: string)
      modifies this`title
      ensures title == value
    {
      title := value;
    }

    /** The description textarea's `onChange`. */
    method SetDescription(value: string)
      modifies this`description
      ensures description == value
    {
      description := value;
    }

    /** The date picker's `onChange`; `None` is a cleared picker. */
    method SetDate(value: Option<Timestamp>)
      modifies this`date
      ensures date == value
    {
      date := value;
    }

    /** The type select's `onChange`: a cleared select leaves the type empty. */
    method SetType(value: Option<string>)
      modifies this`kind
      ensures kind == if value.Some? then value.value else ""
    {
      kind := if value.Some? then value.value else "";
    }

    /** The recurrence select's `onChange`: a cleared select falls back to 'none'. */
    method SetRecurrence(value: Option<Recurrence>)
      modifies this`recurrence
      ensures recurrence == if value.Some? then value.value else NoRecurrence
    {
      recurrence := if value.Some? then value.value else NoRecurrence;
    }

    /** `addNote`: the content goes at the end of the form's note list. */
    method AddNote(content: string)
      modifies this`notes
      ensures notes == old(notes) + [content]
    {
      notes := notes + [content];
    }

    /** `deleteNote(index)`: exactly the entry at `index` goes; an out-of-range index changes nothing. */
    method DeleteNote(index: int)
      modifies this`notes
      ensures notes == RemoveAt(old(notes), index)
    {
      notes := RemoveAt(notes, index);
    }

    /**
     * `handleSubmit`: with title, date and type all present, the event built from the form goes
     * to `onUpdateEvent` when editing with that callback, otherwise to `onAddEvent`; it keeps the
     * edited event's id unless that id is empty, in which case it takes `freshId` (`Date.now()`).
     */
    function Submit(freshId: string): (s: Submission)
      reads this
      ensures s.NoCallback? <==> title == "" || date.None? || kind == ""
      ensures s.CallUpdate? <==> !s.NoCallback? && initialEvent.Some? && canUpdate
      ensures !s.NoCallback? ==>
        s.event.id == if initialEvent.Some? && initialEvent.value.id != "" then initialEvent.value.id else freshId
      ensures !s.NoCallback? ==>
        && s.event.title == title && s.event.description == description && s.event.date == date.value
        && s.event.kind == kind && s.event.recurrence == Some(recurrence) && s.event.notes == Some(notes)
    {
      if title != "" && date.Some? && kind != "" then
        var event := Event(
          if initialEvent.Some? && initialEvent.value.id != "" then initialEvent.value.id else freshId,
          title, description, date.value, kind, Some(recurrence), Some(notes));
        if initialEvent.Some? && canUpdate then CallUpdate(event) else CallAdd(event)
      else
        NoCallback
    }
  }
}
