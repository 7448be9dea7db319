# QuickNotes: the home screen's note list, modelled in Dafny

QuickNotes is a React Native note-taking app. Its one piece of logic is the
home screen's state: the note list, the input form (title, content,
attachments) and the id of the note being edited. Its handlers validate the
form, put new notes at the front of the list, rewrite edited notes in place,
delete notes by id and clear the list. After every change they write the
whole list to the device store. The note input form adds an attachment from a
document-picker result and removes attachments by id.

The project models that logic in five modules:

- `JsString` (`jsstring.dfy`): `String.prototype.trim`. The whitespace set is
  the one ECMAScript uses: the WhiteSpace and LineTerminator code points.
- `Lists` (`lists.dfy`): `Array.prototype.filter` and its laws. Filtering
  keeps order, is idempotent, and changes nothing exactly when every element
  is kept.
- `Records` (`records.dfy`): the `Note` and `Attachment` records as stored,
  and `Option` for JavaScript's null or absent values.
- `NoteInput` (`note_input.dfy`): the attachment editing in
  `src/components/NoteInput.js`. The form holds no state, so `PickDocument`
  and `RemoveAttachment` are functions from the current list to the list the
  form hands back.
- `HomeScreen` (`home_screen.dfy`): the list computations of
  `src/screens/HomeScreen.js` as functions with lemmas, and class
  `HomeScreen.Screen`. Its fields are the five state hooks plus `stored`, the
  list held in the device store. Its methods are the handlers.

Ids and timestamps come from the clock in the source (`Date.now()`,
`new Date().toISOString()`). Here they are method parameters. The document
picker's result is an input value.

Points where the model follows the code exactly:

- `note.id === editingId` holds only when `editingId` is `Some(note.id)`, so
  a null `editingId` matches no note.
- Submit checks `editingId` for JavaScript truthiness (`IsEditing`). An empty
  id therefore counts as not editing, and submit then saves a new note.
  Ids made by `Date.now()` are never empty, so this only affects a stored
  note whose id is `""`.
- A note read from the store may lack `attachments`. `EditNote` then loads
  `[]`, as `note.attachments || []` does. Every note the screen builds has an
  attachment list.
- Ids are not assumed unique. Two saves in the same millisecond share an id.
  An update then rewrites every note with that id, and a delete removes
  every one of them.
- `updateNote` reads the clock inside its `map` callback, once per note it
  rewrites. Two notes rewritten in one update can therefore get different
  timestamps. `UpdateNotes` takes one reading per position (`stamps[i]`);
  the readings at positions that do not match are unused.
- `updateNote` raises no error when no note carries `editingId`. The list
  stays the same, the list is still stored, and the form is still reset
  (`UpdateAbsent`). Notes carry no category field, and no code filters notes
  by search text or category, so neither appears in the model.

## Model

| member | source | states |
|---|---|---|
| `JsString.Trim` | src/screens/HomeScreen.js:34 | `trim()` never lengthens a string, and its result neither starts nor ends with whitespace |
| `JsString.TrimStartIndex` | src/screens/HomeScreen.js:34 | trim's start is the first position from the given one that is not whitespace, or the end of the string; everything skipped is whitespace |
| `JsString.TrimEndIndex` | src/screens/HomeScreen.js:34 | trim's end is the last position after which only whitespace follows, never before the start; everything cut off is whitespace |
| `JsString.TrimSlice` | src/screens/HomeScreen.js:41-42 | the trimmed string is a contiguous slice of the input, and everything cut from either end is whitespace |
| `JsString.TrimEmptyIff` | src/screens/HomeScreen.js:34 | `!s.trim()` holds exactly when every character of `s` is whitespace, in both directions |
| `JsString.TrimFixedIff` | src/screens/HomeScreen.js:41-42 | a string is its own trim exactly when it neither starts nor ends with whitespace |
| `JsString.TrimSurrounded` | src/screens/HomeScreen.js:41-42 | trim removes exactly the surrounding whitespace: a string with no whitespace at its ends, padded with whitespace on both sides, trims back to itself |
| `JsString.TrimIdempotent` | src/screens/HomeScreen.js:41-42 | trimming twice equals trimming once |
| `Lists.Filter` | src/screens/HomeScreen.js:86 | `filter` never lengthens a list; every kept element was in the input and passes the test; every input element that passes is kept |
| `Lists.FilterConcat` | src/screens/HomeScreen.js:86 | filtering a concatenation concatenates the filtered parts, so survivors keep their relative order |
| `Lists.FilterUnchangedIff` | src/screens/HomeScreen.js:86 | filtering returns its input exactly when every element passes the test |
| `Lists.FilterShrinks` | src/screens/HomeScreen.js:86 | when some element fails the test, the result is strictly shorter |
| `Lists.FilterIdempotent` | src/screens/HomeScreen.js:86 | filtering twice with the same test equals filtering once |
| `HomeScreen.IsBlank` | src/screens/HomeScreen.js:34 | the form is rejected as empty exactly when its title and its content are both all whitespace |
| `HomeScreen.NoteTitle` | src/screens/HomeScreen.js:41 | a saved title is never empty and is trimmed; it is the trimmed title unless the title is all whitespace, and then it is "Untitled Note" |
| `HomeScreen.NewNote` | src/screens/HomeScreen.js:39-45 | a new note carries the given id, timestamp and form attachments, the normalised title and the trimmed content; it is well-formed; its content is empty exactly when the form content is all whitespace |
| `HomeScreen.Rewritten` | src/screens/HomeScreen.js:61-67 | a rewritten note keeps its id, is well-formed, and equals the note a save would build under that id with the same form and timestamp |
| `HomeScreen.UpdateOne` | src/screens/HomeScreen.js:60-68 | the map callback keeps the note's id; a note whose id is not `editingId` comes back unchanged; a matching note comes back as `Rewritten` gives it: well-formed, with the normalised title and trimmed content, the form's attachments and the reading taken for it as timestamp |
| `HomeScreen.UpdateNotes` | src/screens/HomeScreen.js:59-69 | the updated list has the same length; each note whose id equals `editingId` is rewritten at its position with the clock reading of that position; every other note is unchanged |
| `HomeScreen.UpdateAbsent` | src/screens/HomeScreen.js:59-69 | when no note carries `editingId`, including a null one, updating leaves the list equal to the old one |
| `HomeScreen.UpdateWellFormed` | src/screens/HomeScreen.js:59-69 | updating keeps a list of well-formed notes well-formed |
| `HomeScreen.RewriteUnchanged` | src/screens/HomeScreen.js:98-103 | loading a well-formed note into the form and submitting it unchanged only replaces its timestamp |
| `HomeScreen.PrependWellFormed` | src/screens/HomeScreen.js:47 | prepending a well-formed note to well-formed notes keeps the list well-formed |
| `HomeScreen.KeepNote` | src/screens/HomeScreen.js:86 | definition of the delete filter's test: it keeps a note exactly when its id differs from the deleted id |
| `HomeScreen.RemoveNote` | src/screens/HomeScreen.js:86 | the delete filter never lengthens the list; no remaining note has the deleted id; every note with another id remains |
| `HomeScreen.RemoveNoteConcat` | src/screens/HomeScreen.js:86 | deletion keeps the relative order of the remaining notes |
| `HomeScreen.RemoveAbsentNote` | src/screens/HomeScreen.js:86 | deletion leaves the list unchanged exactly when no note has the id |
| `HomeScreen.RemovePresentNote` | src/screens/HomeScreen.js:86 | deleting an id that some note carries shortens the list |
| `HomeScreen.RemoveNoteTwice` | src/screens/HomeScreen.js:86 | deleting the same id twice equals deleting it once |
| `HomeScreen.RemoveWellFormed` | src/screens/HomeScreen.js:86 | deletion keeps a list of well-formed notes well-formed |
| `HomeScreen.RemoveUndoesSave` | src/screens/HomeScreen.js:47 | deleting a just-saved note whose id no earlier note carries restores the previous list |
| `HomeScreen.Screen.constructor` | src/screens/HomeScreen.js:18-22 | on first render the list is empty, the form is cleared, and the store holds what it held before |
| `HomeScreen.Screen.LoadNotes` | src/screens/HomeScreen.js:28-31 | loading sets the list to the stored list and changes nothing else |
| `HomeScreen.Screen.ResetForm` | src/screens/HomeScreen.js:124-129 | resetting gives an empty title and content, no attachments and a null `editingId`, and leaves the list and the store alone |
| `HomeScreen.Screen.SaveNote` | src/screens/HomeScreen.js:33-51 | a blank form is rejected and the whole state stays unchanged; otherwise the list becomes the new note followed by the old list, the store equals the list, the form is reset, and well-formedness is preserved |
| `HomeScreen.Screen.UpdateNote` | src/screens/HomeScreen.js:53-74 | a blank form is rejected and the whole state stays unchanged; otherwise the list becomes `UpdateNotes` of the old list, the store equals the list, the form is reset, and well-formedness is preserved |
| `HomeScreen.Screen.DeleteNote` | src/screens/HomeScreen.js:85-91 | the list loses exactly the notes with the id and the store equals the list; the form is reset only when that id was being edited, and otherwise stays unchanged |
| `HomeScreen.Screen.EditNote` | src/screens/HomeScreen.js:98-103 | the form takes the note's title, content and attachments, with `[]` when the note has none; `editingId` becomes the note's id; the list and the store are untouched |
| `HomeScreen.Screen.ClearAllNotes` | src/screens/HomeScreen.js:114-118 | the list and the store become empty and the form is reset |
| `HomeScreen.Screen.IsEditing` | src/screens/HomeScreen.js:157-159 | definition of edit mode: `editingId` is neither null nor the empty string, as JavaScript truthiness has it |
| `HomeScreen.Screen.Submit` | src/screens/HomeScreen.js:157 | submit runs the update when `editingId` is a non-empty string and the save otherwise, with their outcomes, and keeps a well-formed list well-formed |
| `HomeScreen.Screen.SetTitle` | src/screens/HomeScreen.js:154 | the title field's change sets the form title and nothing else |
| `HomeScreen.Screen.SetContent` | src/screens/HomeScreen.js:155 | the content field's change sets the form content and nothing else |
| `HomeScreen.Screen.PickDocument` | src/screens/HomeScreen.js:156 | the form's pick result replaces the screen's attachment list and nothing else |
| `HomeScreen.Screen.RemoveAttachment` | src/screens/HomeScreen.js:156 | the form's removal result replaces the screen's attachment list and nothing else |
| `NoteInput.HasPick` | src/components/NoteInput.js:25 | definition of the pick guard: a pick is used exactly when it is not canceled and its asset list is neither null nor empty |
| `NoteInput.AttachmentFor` | src/components/NoteInput.js:26-33 | definition of the new attachment: the generated id and the first asset's name, uri, size and mimeType |
| `NoteInput.PickDocument` | src/components/NoteInput.js:25-35 | a pick that is not canceled and has assets appends one attachment, keeping every old one at its index; a canceled or empty pick leaves the list as it was |
| `NoteInput.KeepAttachment` | src/components/NoteInput.js:42 | definition of the removal filter's test: it keeps an attachment exactly when its id differs from the removed id |
| `NoteInput.RemoveAttachment` | src/components/NoteInput.js:41-43 | removal never lengthens the list; no remaining attachment has the removed id; every attachment with another id remains |
| `NoteInput.RemoveAttachmentConcat` | src/components/NoteInput.js:42 | removal keeps the relative order of the remaining attachments |
| `NoteInput.RemoveAbsentAttachment` | src/components/NoteInput.js:42 | removal returns an equal list exactly when no attachment has the id |
| `NoteInput.RemovePresentAttachment` | src/components/NoteInput.js:42 | removing an id that some attachment carries shortens the list |
| `NoteInput.RemoveAttachmentTwice` | src/components/NoteInput.js:42 | removing the same id twice equals removing it once |
| `NoteInput.RemoveUndoesPick` | src/components/NoteInput.js:27-42 | removing an attachment just picked under an id no earlier attachment carries restores the previous list |

## Left out

- Rendering, layout and styles of every component, and `src/styles/colors.js`: pure presentation.
- `src/utils/storage.js` and AsyncStorage: the store is the abstract `stored` list. JSON round-tripping, the fail-soft `[]` on a read error, and the ignored success flag of `saveNotes` are not modelled.
- Persistence failure: a failed write would leave `stored` behind `notes`. The model treats every write as successful, because the source ignores the result.
- Async interleaving: `setNotes` and the awaited write are taken as one step. Handlers whose closures saw an older `notes` are not modelled.
- The `Alert.alert` dialogs: only the confirmed branches of delete and clear are modelled. The "Empty Note" alert is the `rejected` result.
- `DocumentPicker.getDocumentAsync` and its error alert: the picker result is an input value, and a thrown error is not modelled.
- `Date.now()` and `new Date().toISOString()`: ids and timestamps are parameters, one reading per call site and, in `updateNote`, one per position.
- `formatFileSize`, `formatDate` and `formatTime`: floating-point and locale formatting.
- Text-to-speech in `NoteCard.js`: a platform speech service.
- `App.js`, `Header.js`, `SearchBar.js`, `FiltersModal.js`, `ActiveFilters.js` and `EmptyState.js`: composition and presentation only. None of them filters notes.
- `maxLength={50}` on the title input: a widget limit, not a property of stored notes.
- Fields a stored note may carry beyond the five of `Note`, such as a legacy `category`: `{...note}` would keep them on update, and the model has no place for them.
- Non-integer and negative file sizes: the model takes a picked file's size, when present, to be a non-negative integer. A JavaScript number that is fractional or negative is not represented.
