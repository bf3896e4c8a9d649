/** `src/components/QuickNoteForm.tsx`: the note input, its trim check and the note it emits. */
module QuickNoteForm {
  import opened Types

  /** The characters `String.prototype.trim` strips: ECMAScript WhiteSpace and LineTerminator code points. */
  predicate IsSpace(c: char)
  {
    || c in {'\t', '\n', '\U{000B}', '\U{000C}', '\r', ' ', '\U{00A0}', '\U{1680}',
             '\U{2028}', '\U{2029}', '\U{202F}', '\U{205F}', '\U{3000}', '\U{FEFF}'}
    || '\U{2000}' <= c <= '\U{200A}'
  }

  ghost predicate AllSpace(s: string)
  {
    forall k :: 0 <= k < |s| ==> IsSpace(s[k])
  }

  /** The position of the first character at or after `i` that is not white space, or `|s|`. */
  function SkipSpace(s: string, i: nat): (n: nat)
    requires i <= |s|
    ensures i <= n <= |s|
    ensures forall k :: i <= k < n ==> IsSpace(s[k])
    ensures n == |s| || !IsSpace(s[n])
    decreases |s| - i
  {
    if i < |s| && IsSpace(s[i]) then SkipSpace(s, i + 1) else i
  }

  /** The position just after the last character in `s[lo..j]` that is not white space, or `lo`. */
  function SkipSpaceBack(s: string, lo: nat, j: nat): (n: nat)
    requires lo <= j <= |s|
    ensures lo <= n <= j
    ensures forall k :: n <= k < j ==> IsSpace(s[k])
    ensures n == lo || !IsSpace(s[n - 1])
  {
    if lo < j && IsSpace(s[j - 1]) then SkipSpaceBack(s, lo, j - 1) else j
  }

  /** `s.trim()`: `s` without its leading and trailing white space. */
  function Trim(s: string): (r: string)
    ensures r == [] <==> AllSpace(s)
    ensures r != [] ==> !IsSpace(r[0]) && !IsSpace(r[|r| - 1])
    ensures var i := SkipSpace(s, 0);
            && i + |r| <= |s| && r == s[i..i + |r|]
            && AllSpace(s[..i]) && AllSpace(s[i + |r|..])
  {
    var i := SkipSpace(s, 0);
    var j := SkipSpaceBack(s, i, |s|);
    TrimmedSlice(s, i, j);
    s[i..j]
  }

  /** The slice between the two runs of white space is empty exactly when `s` is all white space. */
  lemma TrimmedSlice(s: string, i: nat, j: nat)
    requires i <= j <= |s|
    requires forall k :: 0 <= k < i ==> IsSpace(s[k])
    requires i == |s| || !IsSpace(s[i])
    requires forall k :: j <= k < |s| ==> IsSpace(s[k])
    requires j == i || !IsSpace(s[j - 1])
    ensures AllSpace(s[..i]) && AllSpace(s[j..])
    ensures j == i <==> AllSpace(s)
  {
    assert forall k :: 0 <= k < i ==> s[..i][k] == s[k];
    assert forall k :: 0 <= k < |s| - j ==> s[j..][k] == s[j + k];
  }

  /** Trimming twice is trimming once. */
  lemma TrimIdempotent(s: string)
    ensures Trim(Trim(s)) == Trim(s)
  {
    var r := Trim(s);
    if r != [] {
      assert SkipSpace(r, 0) == 0;
      assert SkipSpaceBack(r, 0, |r|) == |r|;
      assert r[0..|r|] == r;
    }
  }

  /**
   * The note `handleSubmit` hands to `onAddNote`, or none when the input is empty or only
   * white space; `noteId` and `createdAt` stand for the clock reads `Date.now()` and `new Date()`.
   */
  function Accept(content: string, eventId: Option<string>, noteId: string, createdAt: string): (note: Option<QuickNote>)
    ensures note.None? <==> AllSpace(content)
    ensures note.Some? ==> note.value.content == Trim(content) && note.value.content != ""
    ensures note.Some? ==> note.value.eventId == eventId && note.value.id == noteId && note.value.createdAt == createdAt
  {
    var trimmed := Trim(content);
    if trimmed != "" then Some(QuickNote(noteId, trimmed, createdAt, eventId)) else None
  }

  /** The form's `content` state cell and its `eventId` prop. */
  class NoteInput {
    const eventId: Option<string>
    var content: string

    constructor (eventId: Option<string>)
      ensures this.eventId == eventId && content == ""
    {
      this.eventId := eventId;
      content := "";
    }

    /** The input's `onChange`. */
    method SetContent(value: string)
      modifies this
      ensures content == value
    {
      content := value;
    }

    /**
     * `handleSubmit`: `emitted` is the note passed to the single `onAddNote` call, or `None` when
     * no call is made; the input is cleared only after an accepted submit.
     */
    method HandleSubmit(noteId: string, createdAt: string) returns (emitted: Option<QuickNote>)
      modifies this
      ensures emitted == Accept(old(content), eventId, noteId, createdAt)
      ensures content == if emitted.Some? then "" else old(content)
    {
      emitted := Accept(content, eventId, noteId, createdAt);
      if emitted.Some? {
        content := "";
      }
    }
  }
}
