/** `LLMClient` (src/rag_pipeline.py): the prompt built around the
    retrieved context and the question, the chat request sent to the
    completion service, and the answer taken from its reply or, when the
    call fails, the apology that replaces it. The service is a function from
    requests to replies. */
module Llm {
  import opened Wrappers
  import opened Text

  /** One chat message. */
  datatype Message = Message(role: string, content: string)

  /** The arguments of `chat.completions.create`. */
  datatype ChatRequest = ChatRequest(model: string, messages: seq<Message>, maxTokens: int, temperature: real)

  /** What the service gives back. `Failed` is any exception the call
      raises, with its text `str(e)`; `Completed` lists the choices, each
      with its message content, which the service may leave out. */
  datatype Reply = Failed(error: string) | Completed(choices: seq<Option<string>>)

  /** The model a client uses unless told otherwise. */
  const DefaultModel := "gpt-4"
  const DefaultMaxTokens := 2000
  const Temperature := 0.3

  /** The instructions sent as the system message. */
  const SystemPrompt :=
    "You are a " + "knowledgeable " + "banking assistant " + "for Bank of " +
    "Maharashtra. " + "Provide detailed, " + "comprehensive " +
    "answers about loan " + "products based on " + "the context " +
    "provided. Include " + "specific details " + "like interest " +
    "rates, tenure, " + "eligibility " + "criteria, " + "features, and " +
    "benefits when " + "available. " + "Structure your " + "answers clearly " +
    "with relevant " + "details. If the " + "information is not " +
    "in the context, " + "say so politely."

  /** The part of the prompt before the context. */
  const PromptLead :=
    "Based on the " + "following " + "information about " + "Bank of " +
    "Maharashtra loan " + "products, provide " + "a detailed and " +
    "comprehensive " + "answer to the " + "question.\n\nContext " +
    "Information:\n"

  /** The part of the prompt between the context and the question. */
  const PromptMiddle := "\n\nQuestion: "

  /** The part of the prompt after the question. */
  const PromptTail :=
    "\n\nInstructions:\n- " + "Provide a detailed " + "answer with " + "specific " +
    "information from " + "the context\n- " + "Include relevant " +
    "details such as " + "interest rates, " + "tenure, " + "eligibility, " +
    "features, and " + "benefits\n- " + "Structure the " + "answer clearly " +
    "with key points\n- " + "Be specific and " + "informative\n- If " +
    "multiple loan " + "schemes are " + "relevant, mention " + "them\n\nAnswer: "

  /** The start of every answer that stands for a failed call. */
  const Apology := "I apologize, " + "but I encountered " + "an error: "

  /** `str(e)` for indexing an empty list of choices. */
  const NoChoiceError := "list index " + "out of range"

  /** `str(e)` for calling `strip` on a missing content. */
  const NoContentError := "'NoneType' object " + "has no attribute " + "'strip'"

  /** `_build_prompt(question, context)`: the fixed lead, the context, the
      fixed middle, the question and the fixed tail, each unchanged at its
      offset. */
  function BuildPrompt(question: string, context: string): (p: string)
    ensures Filled(p, PromptLead, context, PromptMiddle, question, PromptTail)
  {
    FillSlices(PromptLead, context, PromptMiddle, question, PromptTail);
    PromptLead + context + PromptMiddle + question + PromptTail
  }

  /** The context and question of a prompt can be read back from it once
      the length of the context is known. */
  lemma BuildPromptInjective(q1: string, c1: string, q2: string, c2: string)
    requires |c1| == |c2| && BuildPrompt(q1, c1) == BuildPrompt(q2, c2)
    ensures q1 == q2 && c1 == c2
  {
    FilledInjective(BuildPrompt(q1, c1), PromptLead, c1, PromptMiddle, q1, PromptTail, c2, q2);
  }

  /** The call succeeded and its first choice has a content. */
  predicate Answered(reply: Reply) {
    reply.Completed? && reply.choices != [] && reply.choices[0].Some?
  }

  /** The answer `generate_answer` returns for a reply: the first choice's
      content stripped, or, when anything in the call raises, the apology
      followed by the error's text: the exception's own text for a failed
      call, Python's messages for an empty list of choices and for a missing
      content. */
  function AnswerFromReply(reply: Reply): (answer: string)
    ensures Answered(reply) ==> Stripped(answer) && answer == Strip(reply.choices[0].value)
    ensures !Answered(reply) ==> |Apology| <= |answer| && answer[..|Apology|] == Apology
    ensures reply.Failed? ==> answer[|Apology|..] == reply.error
    ensures reply.Completed? && reply.choices == [] ==> answer[|Apology|..] == NoChoiceError
    ensures reply.Completed? && reply.choices != [] && reply.choices[0].None? ==>
      answer[|Apology|..] == NoContentError
  {
    if Answered(reply) then Strip(reply.choices[0].value)
    else
      var e := match reply
        case Failed(e) => e
        case Completed(choices) => if choices == [] then NoChoiceError else NoContentError;
      var a := Apology + e;
      assert a[..|Apology|] == Apology && a[|Apology|..] == e;
      a
  }

  /** An `LLMClient`: the model name and the service it calls. `sent` is the
      log of requests made so far, kept only for stating which calls happen. */
  class LlmClient {
    const model: string
    const service: ChatRequest -> Reply
    ghost var sent: seq<ChatRequest>

    constructor(service: ChatRequest -> Reply, model: string := DefaultModel)
      ensures this.model == model && this.service == service && sent == []
    {
      this.model := model;
      this.service := service;
      sent := [];
    }

    /** The request `generate_answer` sends: the system instructions, then
        the prompt as the user message, at temperature 0.3. */
    function RequestFor(question: string, context: string, maxTokens: int): (r: ChatRequest)
      ensures r.model == model && r.maxTokens == maxTokens && r.temperature == Temperature
      ensures |r.messages| == 2 && r.messages[0] == Message("system", SystemPrompt)
      ensures r.messages[1].role == "user" && r.messages[1].content == BuildPrompt(question, context)
    {
      ChatRequest(model, [Message("system", SystemPrompt), Message("user", BuildPrompt(question, context))],
                  maxTokens, Temperature)
    }

    /** `generate_answer(question, context, max_tokens)`: one request, and an
        answer whatever the service does. */
    method GenerateAnswer(question: string, context: string, maxTokens: int := DefaultMaxTokens) returns (answer: string)
      modifies this
      ensures sent == old(sent) + [RequestFor(question, context, maxTokens)]
      ensures answer == AnswerFromReply(service(RequestFor(question, context, maxTokens)))
    {
      var prompt := BuildPrompt(question, context);
      var request := ChatRequest(model, [Message("system", SystemPrompt), Message("user", prompt)],
                                 maxTokens, Temperature);
      sent := sent + [request];
      var reply := service(request);
      match reply
      case Failed(e) =>
        answer := Apology + e;
      case Completed(choices) =>
        if choices == [] {
          answer := Apology + NoChoiceError;
        } else if choices[0].None? {
          answer := Apology + NoContentError;
        } else {
          answer := Strip(choices[0].value);
        }
    }
  }
}
