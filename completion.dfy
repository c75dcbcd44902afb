/**
  The contract of the chat-completion client (`callGrok`) as the rest of the
  assistant sees it: role-tagged messages go out with a token budget, and one
  reply comes back, either the generated text or an error message. The HTTP
  exchange itself is not modelled; a reply is an input to the operations that
  use it.
 */
module Completion {

  datatype Role = System | User | Assistant

  datatype Message = Message(role: Role, content: string)

  /** One request: the ordered messages and `max_tokens`. */
  datatype Request = Request(messages: seq<Message>, maxTokens: nat)

  /** The outcome of one completion call: the trimmed text of the first choice,
      or the message of the error that was thrown. */
  datatype Reply = Success(content: string) | Failure(error: string)

  /** Token budget of a question-generation request. */
  const GenerationMaxTokens: nat := 8192
  /** Token budget of a chat request. */
  const ChatMaxTokens: nat := 1024
}
