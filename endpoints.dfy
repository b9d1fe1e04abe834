/** The request handlers of `app/api/endpoints.py`. `converse` runs one voice
    turn: transcribe, retrieve a context from the knowledge base, answer
    (with a fixed sentence when nothing was retrieved, with the chat model
    otherwise), then synthesize speech. Each collaborator's outcome is a
    value here, so every branch of the handler can be followed:
    transcription and synthesis are given as their outcomes, the chat model
    and the similarity scorer as functions. */
module Endpoints {
  import opened Seqs
  import opened Strings
  import opened Tables
  import opened QueryParser
  import opened Rag
  import opened MemoryStore
  import opened Llm

  const Fallback := "I couldn't find relevant " + "information in the knowledge base."
  const RateLimitApology := "⚠️ Sorry, rate limit exceeded. Please wait and try again."
  const MaxRagChars := 3000
  const PromptInstruction :=
    "Answer the user question based ONLY on the context.\n"
    + "If there are multiple properties, LIST ALL of them clearly without skipping any.\n\n"

  /** What `transcribe_audio` gave: the text, or the exception it raised. */
  datatype TranscriptOutcome = Transcribed(text: string) | TranscriptionFailed(message: string)

  /** What `speak_text` gave: the audio URL, or the exception it raised. */
  datatype SpeechOutcome = Spoken(url: string) | SpeechFailed(message: string)

  type Speaker = string -> SpeechOutcome

  /** The JSON body `converse` returns: `{text, audio}` (audio `None` when
      there is none), or `{error}`. */
  datatype ConverseReply = Reply(text: string, audio: Option<string>) | ErrorReply(error: string)

  /** The JSON body of `upload_docs` and `reset_context`. */
  datatype StatusReply = StatusReply(status: string, error: Option<string>)

  /** The context handed to generation: the instruction, then at most the
      first 3000 characters of the retrieved text. The instruction is added
      after the cut, so the whole may be longer than 3000. */
  function BoundedContext(context: string): (r: string)
    ensures |r| == |PromptInstruction| + (if |context| <= MaxRagChars then |context| else MaxRagChars)
    ensures r[..|PromptInstruction|] == PromptInstruction
    ensures r[|PromptInstruction|..] <= context
  {
    PromptInstruction + Truncate(context, MaxRagChars)
  }

  /** The answer text, before synthesis: the fallback sentence when the
      context is blank (and the model is not asked), the model's stripped
      reply otherwise — or how the model's call failed. */
  function Answer(text: string, context: string, chat: ChatModel): (g: Generation)
    ensures Strip(context) == "" ==> g == Generated(Fallback)
    ensures Strip(context) != "" ==> g == GenerationOf(chat(BuildConversation(text, BoundedContext(context))))
    ensures g.Generated? ==> Trimmed(g.reply)
  {
    if Strip(context) == "" then
      assert Fallback[0] == "I couldn't find relevant "[0];
      Generated(Fallback)
    else GenerationOf(chat(BuildConversation(text, BoundedContext(context))))
  }

  /** Step 5: the answer with its audio, or without audio when synthesis raised. */
  function Voiced(response: string, speak: Speaker): (r: ConverseReply)
    ensures r.Reply? && r.text == response
    ensures r.audio.Some? <==> speak(response).Spoken?
    ensures r.audio.Some? ==> r.audio.value == speak(response).url
  {
    match speak(response)
    case Spoken(url) => Reply(response, Some(url))
    case SpeechFailed(_) => Reply(response, None)
  }

  /** The reply of `converse` once `context` was retrieved for `text`. */
  function ReplyFor(text: string, context: string, chat: ChatModel, speak: Speaker): (r: ConverseReply)
    ensures r.ErrorReply? <==> Answer(text, context, chat).GenerationFailed?
    ensures r.ErrorReply? ==> r.error == Answer(text, context, chat).message
    ensures Answer(text, context, chat).RateLimited? ==> r == Reply(RateLimitApology, None)
    ensures Answer(text, context, chat).Generated? ==>
      r.Reply? && r.text == Answer(text, context, chat).reply && (r.audio.Some? <==> speak(r.text).Spoken?)
  {
    match Answer(text, context, chat)
    case Generated(response) => Voiced(response, speak)
    case RateLimited(_) => Reply(RateLimitApology, None)
    case GenerationFailed(message) => ErrorReply(message)
  }

  /** The turns added once `context` was retrieved for `text`: the question
      and the reply when the model answered, nothing otherwise. */
  function TurnsFor(text: string, context: string, chat: ChatModel): (r: seq<Message>)
    ensures r != [] <==> Strip(context) != "" && Answer(text, context, chat).Generated?
    ensures r != [] ==> r == [Message("user", text), Message("assistant", Answer(text, context, chat).reply)]
  {
    if Strip(context) == "" then []
    else
      match Answer(text, context, chat)
      case Generated(reply) => [Message("user", text), Message("assistant", reply)]
      case _ => []
  }

  /** The reply of `converse` for loaded table `t`. */
  function Respond(t: Table, heard: TranscriptOutcome, score: Scorer, chat: ChatModel, speak: Speaker)
    : (r: ConverseReply)
    ensures r.ErrorReply? <==>
      || heard.TranscriptionFailed?
      || StructuredContext(t, heard.text, score).Err?
      || Answer(heard.text, StructuredContext(t, heard.text, score).value, chat).GenerationFailed?
    ensures heard.Transcribed? && StructuredContext(t, heard.text, score).Ok? ==>
      r == ReplyFor(heard.text, StructuredContext(t, heard.text, score).value, chat, speak)
  {
    match heard
    case TranscriptionFailed(message) => ErrorReply(message)
    case Transcribed(text) =>
      match StructuredContext(t, text, score)
      case Err(e) => ErrorReply(ErrorText(e))
      case Ok(context) => ReplyFor(text, context, chat, speak)
  }

  /** The turns `converse` adds to the memory for loaded table `t`. */
  function TurnsAdded(t: Table, heard: TranscriptOutcome, score: Scorer, chat: ChatModel): (r: seq<Message>)
    ensures r != [] ==> heard.Transcribed? && StructuredContext(t, heard.text, score).Ok?
    ensures r != [] ==> |r| == 2 && r[0] == Message("user", heard.text) && r[1].role == "assistant"
    ensures r != [] ==> Trimmed(r[1].content)
  {
    if heard.Transcribed? && StructuredContext(t, heard.text, score).Ok? then
      TurnsFor(heard.text, StructuredContext(t, heard.text, score).value, chat)
    else []
  }

  /** `converse`, step by step. */
  method Converse(kb: KnowledgeBase, memory: ConversationMemory, heard: TranscriptOutcome,
                  score: Scorer, chat: ChatModel, speak: Speaker)
      returns (reply: ConverseReply)
    modifies memory
    ensures reply == Respond(kb.table, heard, score, chat, speak)
    ensures memory.turns == old(memory.turns) + TurnsAdded(kb.table, heard, score, chat)
  {
    // Step 1: transcribe.
    if heard.TranscriptionFailed? {
      return ErrorReply(heard.message);
    }
    var text := heard.text;
    // Step 2: retrieve.
    var retrieved := kb.QueryRagContext(text, score);
    if retrieved.Err? {
      return ErrorReply(ErrorText(retrieved.error));
    }
    // Steps 3 to 5.
    reply := AnswerAndSpeak(memory, text, retrieved.value, chat, speak);
  }

  /** Steps 3 to 5 of `converse`: the fallback, or the model on the
      truncated context; then synthesis. */
  method AnswerAndSpeak(memory: ConversationMemory, text: string, context: string, chat: ChatModel, speak: Speaker)
      returns (reply: ConverseReply)
    modifies memory
    ensures reply == ReplyFor(text, context, chat, speak)
    ensures memory.turns == old(memory.turns) + TurnsFor(text, context, chat)
  {
    var response: string;
    if Strip(context) == "" {
      response := Fallback;
    } else {
      var generation := GenerateResponse(memory, chat, text, BoundedContext(context));
      match generation
      case RateLimited(_) =>
        return Reply(RateLimitApology, None);
      case GenerationFailed(message) =>
        return ErrorReply(message);
      case Generated(r) =>
        response := r;
    }
    // Step 5: synthesize; a failure leaves the reply without audio.
    reply := Voiced(response, speak);
  }

  /** A blank context gives the fallback sentence, spoken if synthesis
      works, and the chat model is never asked: any two models give the same
      reply and add no turns. */
  lemma {:induction false} BlankContextFallsBack(t: Table, text: string, score: Scorer,
                                                 chat1: ChatModel, chat2: ChatModel, speak: Speaker)
    requires StructuredContext(t, text, score).Ok?
    requires Strip(StructuredContext(t, text, score).value) == ""
    ensures Respond(t, Transcribed(text), score, chat1, speak) == Voiced(Fallback, speak)
    ensures Respond(t, Transcribed(text), score, chat1, speak) == Respond(t, Transcribed(text), score, chat2, speak)
    ensures TurnsAdded(t, Transcribed(text), score, chat1) == []
  {
  }

  /** The fallback is given exactly when the table is loaded and no matcher
      found anything. The "no data" sentence is not blank, so with nothing
      loaded the model is asked, with that sentence as the context. */
  lemma {:induction false} FallbackOnlyWithoutMatch(t: Table, text: string, score: Scorer, chat: ChatModel)
    requires StructuredContext(t, text, score).Ok?
    ensures Strip(StructuredContext(t, text, score).value) == "" <==>
      (!IsEmpty(t) && ParseAndFilter(t, text, score).value.None?)
    ensures !IsEmpty(t) && ParseAndFilter(t, text, score).value.None? ==>
      Answer(text, StructuredContext(t, text, score).value, chat) == Generated(Fallback)
    ensures IsEmpty(t) ==>
      Answer(text, StructuredContext(t, text, score).value, chat)
        == GenerationOf(chat(BuildConversation(text, BoundedContext(NoDataLoaded))))
  {
    ContextBlankIffNoMatch(t, text, score);
    if IsEmpty(t) {
      assert Strip(NoDataLoaded) != "" by {
        assert !IsSpace(NoDataLoaded[0]);
      }
    }
  }

  /** Otherwise the model sees the question and the instruction followed by
      the first 3000 characters of the context. A rate-limit error gives the
      apology without audio, whatever synthesis would do; another error gives
      the error envelope; a reply is stripped, recorded and spoken. */
  lemma {:induction false} ModelOutcomes(t: Table, text: string, score: Scorer, chat: ChatModel,
                                         speak1: Speaker, speak2: Speaker)
    requires StructuredContext(t, text, score).Ok?
    requires Strip(StructuredContext(t, text, score).value) != ""
    ensures var context := StructuredContext(t, text, score).value;
      var outcome := chat(BuildConversation(text, BoundedContext(context)));
      var reply := Respond(t, Transcribed(text), score, chat, speak1);
      && (outcome.ChatRateLimited? ==>
            reply == Reply(RateLimitApology, None)
            && reply == Respond(t, Transcribed(text), score, chat, speak2)
            && TurnsAdded(t, Transcribed(text), score, chat) == [])
      && (outcome.ChatFailed? ==>
            reply == ErrorReply(outcome.message) && TurnsAdded(t, Transcribed(text), score, chat) == [])
      && (outcome.ChatReply? ==>
            reply == Voiced(Strip(outcome.content), speak1)
            && TurnsAdded(t, Transcribed(text), score, chat)
                 == [Message("user", text), Message("assistant", Strip(outcome.content))])
  {
    ModelOutcomesFor(text, StructuredContext(t, text, score).value, chat, speak1, speak2);
  }

  lemma ModelOutcomesFor(text: string, context: string, chat: ChatModel, speak1: Speaker, speak2: Speaker)
    requires Strip(context) != ""
    ensures var outcome := chat(BuildConversation(text, BoundedContext(context)));
      var reply := ReplyFor(text, context, chat, speak1);
      && (outcome.ChatRateLimited? ==>
            reply == Reply(RateLimitApology, None)
            && reply == ReplyFor(text, context, chat, speak2)
            && TurnsFor(text, context, chat) == [])
      && (outcome.ChatFailed? ==>
            reply == ErrorReply(outcome.message) && TurnsFor(text, context, chat) == [])
      && (outcome.ChatReply? ==>
            reply == Voiced(Strip(outcome.content), speak1)
            && TurnsFor(text, context, chat) == [Message("user", text), Message("assistant", Strip(outcome.content))])
  {
  }

  /** The user turn the model sees always carries the question and the
      instruction-prefixed context, since that context is never empty. */
  lemma {:induction false} ModelSeesQuestionAndContext(text: string, context: string)
    ensures var sent := BuildConversation(text, BoundedContext(context))[1].content;
      && sent[..|QuestionLabel|] == QuestionLabel
      && sent[|QuestionLabel|..|QuestionLabel| + |text|] == text
      && sent[|sent| - |BoundedContext(context)|..] == BoundedContext(context)
  {
    assert BoundedContext(context) != "" by {
      assert |PromptInstruction| > 0;
    }
  }

  /** Any failure before generation — transcription, or an exception of the
      query engine — gives the error envelope with the exception's text, and
      adds no turns. */
  lemma {:induction false} ErrorsGiveEnvelope(t: Table, heard: TranscriptOutcome, score: Scorer,
                                              chat: ChatModel, speak: Speaker)
    ensures heard.TranscriptionFailed? ==>
      Respond(t, heard, score, chat, speak) == ErrorReply(heard.message)
      && TurnsAdded(t, heard, score, chat) == []
    ensures heard.Transcribed? && StructuredContext(t, heard.text, score).Err? ==>
      Respond(t, heard, score, chat, speak) == ErrorReply(ErrorText(ParseAndFilter(t, heard.text, score).error))
      && TurnsAdded(t, heard, score, chat) == []
  {
  }

  /** `upload_docs`: "success" exactly when the upload was indexed; the
      handler's own exception branch cannot be reached, since ingestion
      catches everything. */
  method UploadDocs(kb: KnowledgeBase, upload: CsvOutcome) returns (reply: StatusReply)
    requires ParsedWellFormed(upload)
    modifies kb
    ensures reply.status == (if upload.Parsed? then "success" else "failed")
    ensures reply.error == None
    ensures kb.table == (if upload.Parsed? then upload.table else old(kb.table))
    ensures WellFormed(old(kb.table)) ==> WellFormed(kb.table)
  {
    var indexed := kb.IngestAndIndexDoc(upload);
    reply := StatusReply(if indexed then "success" else "failed", None);
  }

  /** `reset_context`: the memory is cleared. */
  method ResetContext(memory: ConversationMemory) returns (reply: StatusReply)
    modifies memory
    ensures memory.turns == []
    ensures reply == StatusReply("reset successful", None)
  {
    memory.ResetMemory();
    reply := StatusReply("reset successful", None);
  }
}
