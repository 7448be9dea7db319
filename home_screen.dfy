/** The note list state machine of the home screen (src/screens/HomeScreen.js).

    The screen holds the note list, the form (title, content, attachments)
    and the id of the note being edited, and writes the whole list to the
    device store after each change. The list computations are functions
    below; the handlers are the methods of class Screen. Ids and timestamps,
    which the source reads from the clock, are parameters. */
module HomeScreen {
  import opened Records
  import opened JsString
  import Lists
  import NoteInput

  /** The title a note gets when its trimmed title is empty. */
  const UntitledNote: string := "Untitled Note"

  /** The early-return test of saveNote and updateNote:
      `!title.trim() && !content.trim()`. It holds exactly when the title and
      the content are both all whitespace. */
  predicate IsBlank(title: string, content: string)
    ensures IsBlank(title, content) <==> AllWhitespace(title) && AllWhitespace(content)
  {
    TrimEmptyIff(title);
    TrimEmptyIff(content);
    Trim(title) == [] && Trim(content) == []
  }

  /** A note as the screen writes it: a non-empty title with no surrounding
      whitespace, a trimmed content and an attachment list. */
  predicate WellFormed(n: Note) {
    n.title != [] && Trimmed(n.title) && Trimmed(n.content) && n.attachments.Some?
  }

  predicate AllWellFormed(notes: seq<Note>) {
    forall i :: 0 <= i < |notes| ==> WellFormed(notes[i])
  }

  /** `title.trim() || 'Untitled Note'`: the trimmed title, or the placeholder
      when the title is all whitespace. Either way it is non-empty and trimmed. */
  function NoteTitle(title: string): (r: string)
    ensures r != [] && Trimmed(r)
    ensures !AllWhitespace(title) ==> r == Trim(title)
    ensures AllWhitespace(title) ==> r == UntitledNote
  {
    TrimEmptyIff(title);
    var t := Trim(title);
    if t == [] then UntitledNote else t
  }

  /** The note saveNote builds from the form. */
  function NewNote(id: string, title: string, content: string, attachments: seq<Attachment>,
                   timestamp: string): (n: Note)
    ensures WellFormed(n)
    ensures n.id == id && n.timestamp == timestamp && n.attachments == Some(attachments)
    ensures n.title == NoteTitle(title) && n.content == Trim(content)
    ensures n.content == [] <==> AllWhitespace(content)
  {
    TrimEmptyIff(content);
    Note(id, NoteTitle(title), Trim(content), Some(attachments), timestamp)
  }

  /** The note updateNote writes over a matching note: `{...note, ...}` with
      the form's fields and a fresh timestamp. It is the note saveNote would
      have built under the old id. */
  function Rewritten(n: Note, title: string, content: string, attachments: seq<Attachment>,
                     timestamp: string): (m: Note)
    ensures m == NewNote(n.id, title, content, attachments, timestamp)
    ensures m.id == n.id && WellFormed(m)
  {
    n.(title := NoteTitle(title), content := Trim(content), attachments := Some(attachments),
       timestamp := timestamp)
  }

  /** The callback of updateNote's map: a note whose id is editingId
      (`note.id === editingId`) is rewritten with the clock reading `stamp`
      taken inside the callback; any other note is returned as it is. Either
      way the id stays. */
  function UpdateOne(n: Note, editingId: Option<string>, title: string, content: string,
                     attachments: seq<Attachment>, stamp: string): (m: Note)
    ensures m.id == n.id
    ensures editingId != Some(n.id) ==> m == n
    ensures editingId == Some(n.id) ==> m == Rewritten(n, title, content, attachments, stamp)
  {
    if editingId == Some(n.id) then Rewritten(n, title, content, attachments, stamp) else n
  }

  /** The `notes.map(...)` of updateNote: every note whose id equals editingId
      is rewritten where it stands; every other note is left as it is. The
      callback reads the clock afresh for each note it rewrites, so stamps[i]
      is the reading taken at position i (unused where nothing matches). */
  function UpdateNotes(notes: seq<Note>, editingId: Option<string>, title: string, content: string,
                       attachments: seq<Attachment>, stamps: seq<string>): (r: seq<Note>)
    requires |stamps| == |notes|
    ensures |r| == |notes|
    ensures forall i :: 0 <= i < |notes| ==>
      r[i] == UpdateOne(notes[i], editingId, title, content, attachments, stamps[i])
  {
    if notes == [] then []
    else
      var rest := UpdateNotes(notes[1..], editingId, title, content, attachments, stamps[1..]);
      assert forall i :: 1 <= i < |notes| ==> notes[1..][i - 1] == notes[i] && stamps[1..][i - 1] == stamps[i];
      [UpdateOne(notes[0], editingId, title, content, attachments, stamps[0])] + rest
  }

  /** Putting a well-formed note in front of well-formed notes keeps the list
      well-formed. */
  lemma PrependWellFormed(n: Note, notes: seq<Note>)
    requires WellFormed(n) && AllWellFormed(notes)
    ensures AllWellFormed([n] + notes)
  {
  }

  /** When no note carries editingId (a null editingId among such cases) the
      list is unchanged, and no error is raised. */
  lemma UpdateAbsent(notes: seq<Note>, editingId: Option<string>, title: string, content: string,
                     attachments: seq<Attachment>, stamps: seq<string>)
    requires |stamps| == |notes|
    requires forall i :: 0 <= i < |notes| ==> editingId != Some(notes[i].id)
    ensures UpdateNotes(notes, editingId, title, content, attachments, stamps) == notes
  {
  }

  /** Updating keeps a list of well-formed notes well-formed. */
  lemma UpdateWellFormed(notes: seq<Note>, editingId: Option<string>, title: string, content: string,
                         attachments: seq<Attachment>, stamps: seq<string>)
    requires |stamps| == |notes| && AllWellFormed(notes)
    ensures AllWellFormed(UpdateNotes(notes, editingId, title, content, attachments, stamps))
  {
  }

  /** Opening a well-formed note for editing and submitting it unchanged only
      refreshes its timestamp. */
  lemma RewriteUnchanged(n: Note, timestamp: string)
    requires WellFormed(n)
    ensures Rewritten(n, n.title, n.content, n.attachments.value, timestamp) == n.(timestamp := timestamp)
  {
  }

  /** The test of the delete filter, `note => note.id !== id`. */
  function KeepNote(id: string): (keep: Note -> bool)
    ensures forall n :: keep(n) <==> n.id != id
  {
    (n: Note) => n.id != id
  }

  /** The `notes.filter(...)` of the confirmed delete: the notes whose id
      differs from `id`, in order. */
  function RemoveNote(notes: seq<Note>, id: string): (r: seq<Note>)
    ensures |r| <= |notes|
    ensures forall i :: 0 <= i < |r| ==> r[i].id != id && r[i] in notes
    ensures forall i :: 0 <= i < |notes| && notes[i].id != id ==> notes[i] in r
  {
    Lists.Filter(notes, KeepNote(id))
  }

  /** Deleting keeps the relative order of the notes that stay. */
  lemma RemoveNoteConcat(s: seq<Note>, t: seq<Note>, id: string)
    ensures RemoveNote(s + t, id) == RemoveNote(s, id) + RemoveNote(t, id)
  {
    Lists.FilterConcat(s, t, KeepNote(id));
  }

  /** Deleting leaves the list unchanged exactly when no note has the id. */
  lemma RemoveAbsentNote(notes: seq<Note>, id: string)
    ensures RemoveNote(notes, id) == notes <==> forall i :: 0 <= i < |notes| ==> notes[i].id != id
  {
    Lists.FilterUnchangedIff(notes, KeepNote(id));
  }

  /** Deleting an id some note carries shortens the list. */
  lemma RemovePresentNote(notes: seq<Note>, id: string, i: nat)
    requires i < |notes| && notes[i].id == id
    ensures |RemoveNote(notes, id)| < |notes|
  {
    Lists.FilterShrinks(notes, KeepNote(id), i);
  }

  /** Deleting is idempotent. */
  lemma RemoveNoteTwice(notes: seq<Note>, id: string)
    ensures RemoveNote(RemoveNote(notes, id), id) == RemoveNote(notes, id)
  {
    Lists.FilterIdempotent(notes, KeepNote(id));
  }

  /** Deleting keeps a list of well-formed notes well-formed. */
  lemma RemoveWellFormed(notes: seq<Note>, id: string)
    requires AllWellFormed(notes)
    ensures AllWellFormed(RemoveNote(notes, id))
  {
  }

  /** Deleting the note just saved, under an id no earlier note carries, gives
      back the list from before the save. */
  lemma RemoveUndoesSave(notes: seq<Note>, id: string, title: string, content: string,
                         attachments: seq<Attachment>, timestamp: string)
    requires forall i :: 0 <= i < |notes| ==> notes[i].id != id
    ensures RemoveNote([NewNote(id, title, content, attachments, timestamp)] + notes, id) == notes
  {
    var n := NewNote(id, title, content, attachments, timestamp);
    RemoveNoteConcat([n], notes, id);
    RemoveAbsentNote(notes, id);
    assert RemoveNote([n], id) == [];
  }

  /** The home screen's state. `stored` is the list held in the device store
      under the app's single key; reading it back yields this list, and an
      absent key reads as the empty list. */
  class Screen {
    var notes: seq<Note>
    var title: string
    var content: string
    var attachments: seq<Attachment>
    var editingId: Option<string>
    var stored: seq<Note>

    /** The form as resetForm leaves it. */
    predicate FormCleared()
      reads this
    {
      title == [] && content == [] && attachments == [] && editingId == None
    }

    /** `!!editingId`: JavaScript truthiness, so an empty id counts as not
        editing. Submit dispatches on it and the form shows "Update Note". */
    predicate IsEditing()
      reads this
      ensures IsEditing() <==> editingId != None && editingId != Some([])
    {
      editingId.Some? && editingId.value != []
    }

    /** The first render: every state hook at its initial value; `saved` is
        what the store holds. */
    constructor (saved: seq<Note>)
      ensures notes == [] && FormCleared() && stored == saved
    {
      notes := [];
      title := [];
      content := [];
      attachments := [];
      editingId := None;
      stored := saved;
    }

    /** loadNotes: the list becomes what the store holds. */
    method LoadNotes()
      modifies this`notes
      ensures notes == stored
    {
      notes := stored;
    }

    /** resetForm: empty title, content and attachments, nothing being edited. */
    method ResetForm()
      modifies this`title, this`content, this`attachments, this`editingId
      ensures FormCleared()
    {
      title := [];
      content := [];
      attachments := [];
      editingId := None;
    }

    /** saveNote with the id and timestamp it reads from the clock. A blank
        form is rejected (the "Empty Note" alert) and nothing changes;
        otherwise the new note goes to the front, the list is stored and the
        form is reset. */
    method SaveNote(id: string, timestamp: string) returns (rejected: bool)
      modifies this
      ensures rejected <==> IsBlank(old(title), old(content))
      ensures rejected ==> unchanged(this)
      ensures !rejected ==>
        notes == [NewNote(id, old(title), old(content), old(attachments), timestamp)] + old(notes)
      ensures !rejected ==> stored == notes && FormCleared()
      ensures AllWellFormed(old(notes)) ==> AllWellFormed(notes)
    {
      if IsBlank(title, content) {
        return true;
      }
      var newNote := NewNote(id, title, content, attachments, timestamp);
      if AllWellFormed(notes) {
        PrependWellFormed(newNote, notes);
      }
      notes := [newNote] + notes;
      stored := notes;
      ResetForm();
      return false;
    }

    /** updateNote with the clock readings its map callback takes, one per
        position. A blank form is rejected and nothing changes; otherwise
        every note with the edited id is rewritten in place (none, if it is
        gone, without an error), the list is stored and the form is reset. */
    method UpdateNote(stamps: seq<string>) returns (rejected: bool)
      requires |stamps| == |notes|
      modifies this
      ensures rejected <==> IsBlank(old(title), old(content))
      ensures rejected ==> unchanged(this)
      ensures !rejected ==>
        notes == UpdateNotes(old(notes), old(editingId), old(title), old(content), old(attachments), stamps)
      ensures !rejected ==> stored == notes && FormCleared()
      ensures AllWellFormed(old(notes)) ==> AllWellFormed(notes)
    {
      if IsBlank(title, content) {
        return true;
      }
      if AllWellFormed(notes) {
        UpdateWellFormed(notes, editingId, title, content, attachments, stamps);
      }
      notes := UpdateNotes(notes, editingId, title, content, attachments, stamps);
      stored := notes;
      ResetForm();
      return false;
    }

    /** The confirmed branch of deleteNote: drop the notes with this id, store
        the list, and reset the form only if that note was being edited. */
    method DeleteNote(id: string)
      modifies this
      ensures notes == RemoveNote(old(notes), id) && stored == notes
      ensures old(editingId) == Some(id) ==> FormCleared()
      ensures old(editingId) != Some(id) ==>
        title == old(title) && content == old(content) &&
        attachments == old(attachments) && editingId == old(editingId)
      ensures AllWellFormed(old(notes)) ==> AllWellFormed(notes)
    {
      if AllWellFormed(notes) {
        RemoveWellFormed(notes, id);
      }
      notes := RemoveNote(notes, id);
      stored := notes;
      if editingId == Some(id) {
        ResetForm();
      }
    }

    /** editNote: load a note into the form; a note without attachments
        loads an empty list. The note list and the store are untouched. */
    method EditNote(note: Note)
      modifies this`title, this`content, this`attachments, this`editingId
      ensures title == note.title && content == note.content && editingId == Some(note.id)
      ensures attachments == if note.attachments.Some? then note.attachments.value else []
      ensures IsEditing() <==> note.id != []
    {
      title := note.title;
      content := note.content;
      attachments := if note.attachments.Some? then note.attachments.value else [];
      editingId := Some(note.id);
    }

    /** The confirmed branch of clearAllNotes: the list and the store are
        emptied and the form is reset. */
    method ClearAllNotes()
      modifies this
      ensures notes == [] && stored == [] && FormCleared()
    {
      notes := [];
      stored := [];
      ResetForm();
    }

    /** The form's submit button: updateNote while editing, saveNote
        otherwise. `id` and `timestamp` are what saveNote would read from the
        clock, `stamps` what updateNote's callback would read. */
    method Submit(id: string, timestamp: string, stamps: seq<string>) returns (rejected: bool)
      requires |stamps| == |notes|
      modifies this
      ensures rejected <==> IsBlank(old(title), old(content))
      ensures rejected ==> unchanged(this)
      ensures !rejected && old(IsEditing()) ==>
        notes == UpdateNotes(old(notes), old(editingId), old(title), old(content), old(attachments), stamps)
      ensures !rejected && !old(IsEditing()) ==>
        notes == [NewNote(id, old(title), old(content), old(attachments), timestamp)] + old(notes)
      ensures !rejected ==> stored == notes && FormCleared()
      ensures AllWellFormed(old(notes)) ==> AllWellFormed(notes)
    {
      if IsEditing() {
        rejected := UpdateNote(stamps);
      } else {
        rejected := SaveNote(id, timestamp);
      }
    }

    /** The title field's change callback. */
    method SetTitle(text: string)
      modifies this`title
      ensures title == text
    {
      title := text;
    }

    /** The content field's change callback. */
    method SetContent(text: string)
      modifies this`content
      ensures content == text
    {
      content := text;
    }

    /** The form's attach button: pickDocument over this screen's attachments,
        with the picker's result and the id it generates. */
    method PickDocument(result: NoteInput.PickerResult, id: string)
      modifies this`attachments
      ensures attachments == NoteInput.PickDocument(old(attachments), result, id)
    {
      attachments := NoteInput.PickDocument(attachments, result, id);
    }

    /** An attachment chip's close button: removeAttachment over this screen's
        attachments. */
    method RemoveAttachment(id: string)
      modifies this`attachments
      ensures attachments == NoteInput.RemoveAttachment(old(attachments), id)
    {
      attachments := NoteInput.RemoveAttachment(attachments, id);
    }
  }
}
