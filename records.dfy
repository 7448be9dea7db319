/** The records the app keeps in memory and writes to the device store. */
module Records {

  /** A JavaScript value that may be null or undefined. */
  datatype Option<T> = None | Some(value: T)

  /** An attachment descriptor: a reference to a picked file, never its bytes.
      `size` and `mimeType` are copied from the picker and may be absent. */
  datatype Attachment = Attachment(
    id: string,
    name: string,
    uri: string,
    size: Option<nat>,
    mimeType: Option<string>)

  /** A stored note. `attachments` is optional because a note read back from
      the store need not carry the field; every note the screen builds has it.
      `timestamp` is the ISO-8601 text the screen received. */
  datatype Note = Note(
    id: string,
    title: string,
    content: string,
    attachments: Option<seq<Attachment>>,
    timestamp: string)
}
