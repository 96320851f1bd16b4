/** The chat message exchanged between the environment and the backend. */
module Messages {

  /** One entry of a conversation history: `{"role": ..., "content": ...}`. */
  datatype Message = Message(role: string, content: string)
}
