/**
 * The records shared by client and server. A JavaScript `Date` is its time
 * value in milliseconds; `null` is `None`.
 */
module Schema {
  import opened Wrappers

  /** A stored note. `style` is free text in the table; the client offers four values. */
  datatype Note = Note(
    id: int,
    title: string,
    content: string,
    style: string,
    imageUrl: Option<string>,
    extractedText: Option<string>,
    createdAt: int,
    updatedAt: int)

  /**
   * The insert shape of a note, every field optional: `None` is a field the
   * request leaves out; for the nullable columns `Some(None)` is an explicit `null`.
   * Creation needs `title` and `content`; an update may carry any subset.
   */
  datatype InsertNote = InsertNote(
    title: Option<string>,
    content: Option<string>,
    style: Option<string>,
    imageUrl: Option<Option<string>>,
    extractedText: Option<Option<string>>)

  /** One chat turn; `isUser` is 1 for the user's messages (the client sends 1). */
  datatype ChatMessage = ChatMessage(id: int, message: string, isUser: int, createdAt: int)

  datatype InsertChatMessage = InsertChatMessage(message: string, isUser: int)

  datatype User = User(id: int, username: string, password: string)

  datatype InsertUser = InsertUser(username: string, password: string)
}
