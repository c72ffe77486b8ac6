/**
 * The result mapping of the Gemini client (`embed` and `generate`). The HTTP exchange itself is a
 * parameter: a provider is a function from the request the client builds to the reply it gets, and
 * only the decoded shape of the reply that the client looks at is modelled.
 */
module Gemini {
  import opened Common

  const EmbeddingModel := "gemini-embedding-001"
  const RetrievalQuery := "RETRIEVAL_QUERY"
  /** The constructor's default generation model. */
  const GenerationModel := "gemini-2.5-flash-lite"

  const DefaultErrorMessage := "Failed to process request."
  const NoResponseText := "No response generated."

  /** The body of an `embedContent` request. */
  datatype EmbedRequest = EmbedRequest(model: string, taskType: string, text: string)
  /** The body of a `generateContent` request. */
  datatype GenerateRequest = GenerateRequest(model: string, prompt: string)

  // The decoded JSON the client reads; a missing key (or a null, or a body that is not JSON) is None.
  datatype Embedding = Embedding(values: Option<seq<real>>)
  datatype EmbedBody = EmbedBody(embedding: Option<Embedding>)
  datatype Part = Part(text: Option<string>)
  datatype Content = Content(parts: Option<seq<Part>>)
  datatype Candidate = Candidate(content: Option<Content>)
  datatype GenerateBody = GenerateBody(candidates: Option<seq<Candidate>>)
  /** The decoded body of an error response: `error.message` if present. */
  datatype ErrorBody = ErrorBody(message: Option<string>)

  /**
   * What the transport delivers: a successful response, a Guzzle RequestException (with the error
   * response when the server sent one), or any other exception with its own message.
   */
  datatype Reply<B> =
    | Replied(body: B)
    | RequestFailed(response: Option<ErrorBody>)
    | OtherFailure(message: string)

  type EmbedProvider = EmbedRequest -> Reply<EmbedBody>
  type GenerateProvider = GenerateRequest -> Reply<GenerateBody>

  /**
   * What `embed` returns. PHP returns either an array of numbers or, on any failure, the error
   * message as a string; the two are kept apart here only by the constructor tag.
   */
  datatype EmbedOutcome = Vector(values: seq<real>) | Message(text: string)

  /** Every embedding request, for stored chunks and for questions alike, uses one task type. */
  function EmbedRequestFor(text: string): (r: EmbedRequest)
    ensures r.taskType == RetrievalQuery && r.text == text && r.model == EmbeddingModel
  {
    EmbedRequest(EmbeddingModel, RetrievalQuery, text)
  }

  function GenerateRequestFor(prompt: string): (r: GenerateRequest)
    ensures r.prompt == prompt && r.model == GenerationModel
  {
    GenerateRequest(GenerationModel, prompt)
  }

  /** The message of a failed request: `error.message` from the error response, else the default. */
  function FailureMessage(response: Option<ErrorBody>): (m: string)
    ensures m == DefaultErrorMessage <==> (response.None? || response.value.message.None? || response.value.message.value == DefaultErrorMessage)
    ensures response.Some? && response.value.message.Some? ==> m == response.value.message.value
  {
    if response.Some? && response.value.message.Some? then response.value.message.value
    else DefaultErrorMessage
  }

  /** The message any failed reply turns into. */
  function ReplyFailure<B>(reply: Reply<B>): string
    requires !reply.Replied?
  {
    match reply
    case RequestFailed(response) => FailureMessage(response)
    case OtherFailure(message) => message
  }

  /** `$data['embedding']['values'] ?? []`. */
  function EmbeddingValues(body: EmbedBody): (v: seq<real>)
    ensures body.embedding.Some? && body.embedding.value.values.Some? ==> v == body.embedding.value.values.value
    ensures body.embedding.None? || body.embedding.value.values.None? ==> v == []
  {
    match body.embedding
    case Some(Embedding(Some(values))) => values
    case _ => []
  }

  /** `$data['candidates'][0]['content']['parts'][0]['text']`, if every step of the path exists. */
  function FirstCandidateText(body: GenerateBody): (t: Option<string>)
    ensures t.Some? <==>
      && body.candidates.Some? && |body.candidates.value| > 0
      && body.candidates.value[0].content.Some?
      && body.candidates.value[0].content.value.parts.Some?
      && |body.candidates.value[0].content.value.parts.value| > 0
      && body.candidates.value[0].content.value.parts.value[0].text.Some?
    ensures t.Some? ==> t.value == body.candidates.value[0].content.value.parts.value[0].text.value
  {
    if body.candidates.None? || |body.candidates.value| == 0 then None
    else
      var content := body.candidates.value[0].content;
      if content.None? || content.value.parts.None? || |content.value.parts.value| == 0 then None
      else content.value.parts.value[0].text
  }

  /** How `embed` turns a reply into its return value; no failure escapes as an exception. */
  function InterpretEmbed(reply: Reply<EmbedBody>): (r: EmbedOutcome)
    ensures reply.Replied? <==> r.Vector?
    ensures reply.Replied? ==> r.values == EmbeddingValues(reply.body)
    ensures !reply.Replied? ==> r.text == ReplyFailure(reply)
  {
    match reply
    case Replied(body) => Vector(EmbeddingValues(body))
    case _ => Message(ReplyFailure(reply))
  }

  /** How `generate` turns a reply into its return value: a plain string in every case. */
  function InterpretGenerate(reply: Reply<GenerateBody>): (r: string)
    ensures reply.Replied? && FirstCandidateText(reply.body).Some? ==> r == FirstCandidateText(reply.body).value
    ensures reply.Replied? && FirstCandidateText(reply.body).None? ==> r == NoResponseText
    ensures !reply.Replied? ==> r == ReplyFailure(reply)
  {
    match reply
    case Replied(body) =>
      (match FirstCandidateText(body) case Some(t) => t case None => NoResponseText)
    case _ => ReplyFailure(reply)
  }

  /** `embed($text)` against a provider. */
  function Embed(provider: EmbedProvider, text: string): (r: EmbedOutcome)
    // a vector exactly when the retrieval-query request for this text is answered
    ensures r.Vector? <==> provider(EmbedRequest(EmbeddingModel, RetrievalQuery, text)).Replied?
    ensures r.Vector? ==> r.values == EmbeddingValues(provider(EmbedRequest(EmbeddingModel, RetrievalQuery, text)).body)
    // otherwise the failure comes back as a string instead of a vector
    ensures r.Message? ==> r.text == ReplyFailure(provider(EmbedRequest(EmbeddingModel, RetrievalQuery, text)))
  {
    InterpretEmbed(provider(EmbedRequestFor(text)))
  }

  /** `generate($prompt)` against a provider. */
  function Generate(provider: GenerateProvider, prompt: string): (r: string)
    ensures var reply := provider(GenerateRequest(GenerationModel, prompt));
      && (reply.Replied? && FirstCandidateText(reply.body).Some? ==> r == FirstCandidateText(reply.body).value)
      && (reply.Replied? && FirstCandidateText(reply.body).None? ==> r == NoResponseText)
      && (!reply.Replied? ==> r == ReplyFailure(reply))
  {
    InterpretGenerate(provider(GenerateRequestFor(prompt)))
  }

  /** A body that answers with exactly the given text. */
  function AnswerBody(text: string): GenerateBody
  {
    GenerateBody(Some([Candidate(Some(Content(Some([Part(Some(text))]))))]))
  }

  /**
   * A failed generation cannot be told apart from an answer by its result: whatever string a
   * failure yields, some successful reply yields the same string.
   */
  lemma FailureLooksLikeAnswer(reply: Reply<GenerateBody>)
    requires !reply.Replied?
    ensures InterpretGenerate(Replied(AnswerBody(ReplyFailure(reply)))) == InterpretGenerate(reply)
  {
  }

  /**
   * A successful embedding reply without values gives the empty vector, and a failure never gives
   * a vector: an empty embedding always means a reply without `embedding.values` (or with an
   * empty list there).
   */
  lemma EmptyEmbedding(reply: Reply<EmbedBody>)
    requires InterpretEmbed(reply) == Vector([])
    ensures reply.Replied?
    ensures reply.body.embedding.None? || reply.body.embedding.value.values.None? || reply.body.embedding.value.values.value == []
  {
  }
}
