/** The chat-completion interface the pipeline talks to. The remote model itself is
    outside the model: a `Chat` is any function from a request to the reply text. */
module Llm {
  datatype Role = System | User | Assistant

  datatype Message = Message(role: Role, content: string)

  /** One chat call: the messages and the generation parameters that vary per call. */
  datatype ChatRequest = ChatRequest(messages: seq<Message>, temperature: real, maxTokens: nat)

  type Chat = ChatRequest -> string

  /** The tokenizer's token count for a text. */
  type TokenCounter = string -> nat
}
