/**
  The record types of the session log and the chat transcript (types.ts).
  Time is a JavaScript millisecond timestamp, modelled as an unbounded `int`.
 */
module Types {
  import opened Wrappers

  /** One UTF-16 code unit. A JavaScript string is a sequence of these:
      its `length` counts them and `includes` searches over them. */
  newtype CodeUnit = x: int | 0 <= x < 0x1_0000

  type Text = seq<CodeUnit>

  datatype Role = User | Model

  /** The closed set of intents the message handler assigns. */
  datatype Intent = Concept | Method | Generation

  /** A chat turn. The display-only `timestamp` string is not modelled. */
  datatype Message = Message(role: Role, text: Text, unixTime: int, intent: Option<Intent>)

  /** The event types the handlers push into the session log. */
  datatype EventKind = OpenApp | Activity | SwitchTab | AiAsk | AiReply | Submit

  /** The `metadata` field: absent, a tab target, or the chat-turn summary. */
  datatype Metadata =
    | NoMetadata
    | TabTarget(to: Text)
    | MessageInfo(textLength: nat, intent: Intent)

  datatype Event = Event(kind: EventKind, time: int, metadata: Metadata)

  /** A learning session; `submitTime` is absent until an upload succeeds. */
  datatype Session = Session(startTime: int, submitTime: Option<int>, events: seq<Event>)
}
