/** The generation wrapper of `app/services/llm.py`: it sends the chat model
    a fixed system instruction and the user's question (with the retrieved
    context, when there is any), and after a successful call records the
    question and the stripped reply in the conversation memory. The chat
    model itself is a parameter: a function from the messages sent to what
    the call produced. */
module Llm {
  import opened Strings
  import opened MemoryStore

  const SystemPrompt: string :=
    "You are a factual assistant that answers ONLY based on the [Context] below.\n"
    + "You MUST extract answers only from this context and avoid any assumptions or general knowledge.\n"
    + "ALWAYS read the entire context and find the precise numeric or textual values when asked.\n"
    + "If the answer is not directly available, respond with:\n"
    + "'I couldn't find that information in the knowledge base.'"

  const QuestionLabel := "User question: "
  const ContextLabel := "\n\n[Context]: "

  /** The user turn sent to the model. With a context it reads
      "User question: <message>\n\n[Context]: <context>", from which both
      parts can be cut back out; with an empty context it is the message
      itself. */
  function UserContent(message: string, context: string): (r: string)
    ensures context == "" ==> r == message
    ensures context != "" ==>
      && |r| == |QuestionLabel| + |message| + |ContextLabel| + |context|
      && r[..|QuestionLabel|] == QuestionLabel
      && r[|QuestionLabel|..|QuestionLabel| + |message|] == message
      && r[|QuestionLabel| + |message|..|r| - |context|] == ContextLabel
      && r[|r| - |context|..] == context
  {
    if context != "" then QuestionLabel + message + ContextLabel + context else message
  }

  /** The messages sent: exactly the system instruction, then the user turn. */
  function BuildConversation(message: string, context: string): (c: seq<Message>)
    ensures |c| == 2
    ensures c[0] == Message("system", SystemPrompt)
    ensures c[1].role == "user" && c[1].content == UserContent(message, context)
  {
    [Message("system", SystemPrompt), Message("user", UserContent(message, context))]
  }

  /** What the chat completion call produced: the reply's content, or the
      exception it raised — a rate-limit error or any other. */
  datatype ChatOutcome = ChatReply(content: string) | ChatRateLimited(message: string) | ChatFailed(message: string)

  /** The chat model, as seen from here. */
  type ChatModel = seq<Message> -> ChatOutcome

  /** What `generate_response` returned or raised. */
  datatype Generation = Generated(reply: string) | RateLimited(message: string) | GenerationFailed(message: string)

  /** The result of `generate_response` for one call of the model. */
  function GenerationOf(outcome: ChatOutcome): (g: Generation)
    ensures outcome.ChatReply? <==> g.Generated?
    ensures outcome.ChatReply? ==> g.reply == Strip(outcome.content)
    ensures outcome.ChatRateLimited? <==> g.RateLimited?
    ensures outcome.ChatRateLimited? ==> g.message == outcome.message
    ensures outcome.ChatFailed? ==> g == GenerationFailed(outcome.message)
    ensures g.Generated? ==> Trimmed(g.reply)
  {
    match outcome
    case ChatReply(content) => Generated(Strip(content))
    case ChatRateLimited(message) => RateLimited(message)
    case ChatFailed(message) => GenerationFailed(message)
  }

  /** `generate_response`. On success the memory gains exactly the user's
      message and then the returned reply; when the call raises, the memory
      is as it was, since the appends come after the call. */
  method GenerateResponse(memory: ConversationMemory, chat: ChatModel, message: string, context: string)
      returns (g: Generation)
    modifies memory
    ensures g == GenerationOf(chat(BuildConversation(message, context)))
    ensures g.Generated? ==>
      memory.turns == old(memory.turns) + [Message("user", message), Message("assistant", g.reply)]
    ensures !g.Generated? ==> memory.turns == old(memory.turns)
  {
    var conversation := BuildConversation(message, context);
    g := GenerationOf(chat(conversation));
    if g.Generated? {
      memory.AddMessage("user", message);
      memory.AddMessage("assistant", g.reply);
    }
  }
}
