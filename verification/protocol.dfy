/** The JSON messages the server sends to the browser over the session's
    WebSocket, and the chat records kept in the conversation history. */
module Protocol {
  import opened Basics

  /** The agent states shown by the client. */
  datatype AgentState = Idle | Listening | Thinking | Speaking

  datatype Role = User | Assistant | System

  /** One `{ role, content }` entry of the LLM message list. */
  datatype ChatMessage = ChatMessage(role: Role, content: string)

  /** Server-to-client messages, one constructor per `type` value. The
      latency fields of `metrics` are not modelled. */
  datatype ServerMessage =
    | SessionStarted(sessionId: string)
    | State(value: AgentState)
    | TranscriptUser(text: string, isInterim: bool)
    | TranscriptAssistant(text: string)
    | BargeIn
    | TtsAudioFull(audio: seq<Byte>, index: nat, total: nat, requestId: nat)
    | TtsComplete(requestId: nat)
    | Metrics(turnId: nat, bargeIn: bool)
    | InterviewEnd

  /** `if (ws.readyState === 1) ws.send(...)`: messages reach the client
      only while its socket is open. */
  function SendIfOpen(open: bool, msgs: seq<ServerMessage>): (r: seq<ServerMessage>)
    ensures open ==> r == msgs
    ensures !open ==> r == []
  {
    if open then msgs else []
  }
}
