/**
 Chat records as the WhatsApp client library hands them to both scripts.
 Only the properties the scripts read are kept.
 */
module Chats {

  datatype Option<+T> = None | Some(value: T)

  /** A chat id object: its `_serialized` property (absent when None) and the
      text that `String(id)` renders it as. */
  datatype ChatId = ChatId(serialized: Option<string>, rendered: string)

  /** The `participants` property: missing (or null), an array, or some other value. */
  datatype Participants = Absent | Members(members: seq<string>) | NotAnArray

  datatype Chat = Chat(
    id: Option<ChatId>,
    isGroup: bool,
    name: Option<string>,
    formattedTitle: Option<string>,
    participants: Participants)

  /** JavaScript truthiness of an optional string property: present and not empty. */
  predicate Truthy(s: Option<string>)
  {
    s.Some? && s.value != ""
  }
}
