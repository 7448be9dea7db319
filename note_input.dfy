/** The attachment editing of the note input form (src/components/NoteInput.js).
    The form owns no state: it receives the screen's attachment list and hands
    the new list back through its change callback, so both operations are
    functions from the current list to the list handed back. */
module NoteInput {
  import opened Records
  import Lists

  /** One file in a document picker result. */
  datatype Asset = Asset(name: string, uri: string, size: Option<nat>, mimeType: Option<string>)

  /** What the document picker returns: `assets` is null when it is canceled. */
  datatype PickerResult = PickerResult(canceled: bool, assets: Option<seq<Asset>>)

  /** The guard of pickDocument: not canceled and at least one asset. A null
      asset list and an empty one both fail it. */
  predicate HasPick(result: PickerResult)
    ensures HasPick(result) <==> !result.canceled && result.assets != None && result.assets != Some([])
  {
    !result.canceled && result.assets.Some? && |result.assets.value| > 0
  }

  /** The attachment built from the first picked asset under the given id. */
  function AttachmentFor(result: PickerResult, id: string): (a: Attachment)
    requires HasPick(result)
    ensures a.id == id
    ensures var file := result.assets.value[0];
      a.name == file.name && a.uri == file.uri && a.size == file.size && a.mimeType == file.mimeType
  {
    var file := result.assets.value[0];
    Attachment(id, file.name, file.uri, file.size, file.mimeType)
  }

  /** pickDocument, given the picker's result and the id it generates: the
      list handed to the change callback, or the current list when the pick
      was canceled or empty and the callback is not called. */
  function PickDocument(attachments: seq<Attachment>, result: PickerResult, id: string): (r: seq<Attachment>)
    ensures HasPick(result) ==>
      |r| == |attachments| + 1 && r[..|attachments|] == attachments &&
      r[|attachments|] == AttachmentFor(result, id)
    ensures !HasPick(result) ==> r == attachments
  {
    if HasPick(result) then attachments + [AttachmentFor(result, id)] else attachments
  }

  /** The test of the removal filter, `att => att.id !== id`. */
  function KeepAttachment(id: string): (keep: Attachment -> bool)
    ensures forall a :: keep(a) <==> a.id != id
  {
    (a: Attachment) => a.id != id
  }

  /** removeAttachment: the attachments whose id differs from `id`, in order.
      It never grows the list, keeps every attachment with another id and
      leaves none with the removed id. */
  function RemoveAttachment(attachments: seq<Attachment>, id: string): (r: seq<Attachment>)
    ensures |r| <= |attachments|
    ensures forall i :: 0 <= i < |r| ==> r[i].id != id && r[i] in attachments
    ensures forall i :: 0 <= i < |attachments| && attachments[i].id != id ==> attachments[i] in r
  {
    Lists.Filter(attachments, KeepAttachment(id))
  }

  /** Removal keeps relative order: removing from a concatenation removes from
      each part. */
  lemma RemoveAttachmentConcat(s: seq<Attachment>, t: seq<Attachment>, id: string)
    ensures RemoveAttachment(s + t, id) == RemoveAttachment(s, id) + RemoveAttachment(t, id)
  {
    Lists.FilterConcat(s, t, KeepAttachment(id));
  }

  /** Removing an id that no attachment carries returns an equal list, and only
      then. */
  lemma RemoveAbsentAttachment(attachments: seq<Attachment>, id: string)
    ensures RemoveAttachment(attachments, id) == attachments <==>
      forall i :: 0 <= i < |attachments| ==> attachments[i].id != id
  {
    Lists.FilterUnchangedIff(attachments, KeepAttachment(id));
  }

  /** Removing an id that some attachment carries shortens the list. */
  lemma RemovePresentAttachment(attachments: seq<Attachment>, id: string, i: nat)
    requires i < |attachments| && attachments[i].id == id
    ensures |RemoveAttachment(attachments, id)| < |attachments|
  {
    Lists.FilterShrinks(attachments, KeepAttachment(id), i);
  }

  /** Removing the same id twice is removing it once. */
  lemma RemoveAttachmentTwice(attachments: seq<Attachment>, id: string)
    ensures RemoveAttachment(RemoveAttachment(attachments, id), id) == RemoveAttachment(attachments, id)
  {
    Lists.FilterIdempotent(attachments, KeepAttachment(id));
  }

  /** Removing the attachment a pick has just added, under an id no earlier
      attachment carries, gives back the list from before the pick. */
  lemma RemoveUndoesPick(attachments: seq<Attachment>, result: PickerResult, id: string)
    requires forall i :: 0 <= i < |attachments| ==> attachments[i].id != id
    ensures RemoveAttachment(PickDocument(attachments, result, id), id) == attachments
  {
    RemoveAbsentAttachment(attachments, id);
    if HasPick(result) {
      RemoveAttachmentConcat(attachments, [AttachmentFor(result, id)], id);
      assert RemoveAttachment([AttachmentFor(result, id)], id) == [];
    }
  }
}
