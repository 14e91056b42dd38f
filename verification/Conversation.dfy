/** The request message as the gateway sees it after JSON decoding, shared by every module about conversations. */
module Conversation {

  datatype Option<+T> = None | Some(value: T)

  /** The five role names the gateway compares against. */
  datatype RoleName = System | Developer | User | Assistant | Tool

  /** A role string, told apart as far as the code tells it apart: byte for byte one of the five names; a
      different spelling that lower-casing and trimming turn into one of them; or anything else. */
  datatype Role =
    | Exact(name: RoleName)
    | Loose(name: RoleName, spelling: string)
    | Foreign(spelling: string)

  /** A content value, reduced to the text the gateway extracts from it and its serialized form. */
  datatype Content = Content(text: string, serialized: string)

  datatype ToolCall = ToolCall(id: string, name: string, arguments: string)

  /** `toolCalls` is None for a missing list, which the session matcher tells apart from an empty one. */
  datatype Message = Message(
    role: Role,
    content: Content,
    name: string,
    toolCallId: string,
    toolCalls: Option<seq<ToolCall>>)

  function Calls(m: Message): seq<ToolCall> {
    if m.toolCalls.Some? then m.toolCalls.value else []
  }

  /** The role after trimming and lower-casing. */
  predicate Normalizes(r: Role, n: RoleName) {
    !r.Foreign? && r.name == n
  }

  predicate IsSystem(m: Message) {
    Normalizes(m.role, System) || Normalizes(m.role, Developer)
  }

  predicate IsTool(m: Message) {
    Normalizes(m.role, Tool)
  }

  predicate IsCaller(m: Message) {
    Normalizes(m.role, Assistant) && |Calls(m)| > 0
  }

  /** b cannot be separated from the message a right before it. */
  predicate Glued(a: Message, b: Message) {
    (IsSystem(a) && IsSystem(b)) || (IsTool(b) && (IsTool(a) || IsCaller(a)))
  }

  /** A cut in front of ms[n] separates no two glued messages. */
  predicate Boundary(ms: seq<Message>, n: nat) {
    n <= |ms| && (0 < n < |ms| ==> !Glued(ms[n - 1], ms[n]))
  }

  /** Every role is one of the five names, spelled exactly. */
  predicate Standard(ms: seq<Message>) {
    forall i | 0 <= i < |ms| :: ms[i].role.Exact?
  }

  predicate GluedAt(ms: seq<Message>, i: nat)
    requires 0 < i < |ms|
  {
    Glued(ms[i - 1], ms[i])
  }

  /** If ms[i] is a tool result, it directly follows a call or another result. */
  predicate ResultPlaced(ms: seq<Message>, i: nat)
    requires i < |ms|
  {
    IsTool(ms[i]) ==> i > 0 && Glued(ms[i - 1], ms[i])
  }

  /** Every tool result directly follows a call or another result. */
  predicate ResultsAdjacent(ms: seq<Message>) {
    forall i: nat | i < |ms| :: ResultPlaced(ms, i)
  }
}
