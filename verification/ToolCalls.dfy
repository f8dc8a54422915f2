/** Messages with tool calls and tool responses, shared by flushing and filtering. */
module ToolCalls {
  import opened PyText

  datatype Role = System | User | Assistant | Tool

  datatype Call = Call(id: string, payload: string)

  datatype Message = Message(role: Role, body: string, toolCalls: Option<seq<Call>>, toolCallId: Option<string>)

  function CallsOf(m: Message): seq<Call> {
    match m.toolCalls case Some(cs) => cs case None => []
  }

  /** A tool message that names the call it answers. */
  predicate Answers(m: Message) { m.role.Tool? && m.toolCallId.Some? && m.toolCallId.value != "" }

  /** An assistant message with tool calls. */
  predicate CallsTools(m: Message) { m.role.Assistant? && CallsOf(m) != [] }
}
