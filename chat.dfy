/**
 * `chat_with_document`: which document text a question is answered from, and the reply.
 * The model call is the `generate` parameter, applied to the limited document text and the question.
 */
module Chat {
  import opened Wrappers
  import opened Text
  import opened Http
  import opened Llm
  import opened Store

  /** The `ChatMessage` request body; absent optional fields are None. */
  datatype ChatRequest = ChatRequest(message: string, documentId: Option<string>, documentText: Option<string>)

  /** Where the answer comes from: a stored document, text sent with the request, or a fixed reply. */
  datatype Source = Stored(text: string, filename: string) | Inline(text: string) | Canned(reply: string)

  const ChatKeyMissingDetail := "Gemini API key not configured"
  const StorageUnavailableReply := "The document storage system is not available. Please try uploading your document again."
  const NotFoundReply := "I couldn't find the document you're referring to. Please try uploading your document again."
  const UploadFirstReply := "Please upload a document first before asking questions."
  const ErrorReplyPrefix := "I encountered an error while processing your question. Please try again. Error: "

  /** Python truthiness of an optional string: present and non-empty. */
  predicate Given(field: Option<string>) {
    field.Some? && field.value != []
  }

  /** The source-resolution branch of `chat_with_document`. */
  function ResolveSource(documents: map<string, Entry>, request: ChatRequest): (s: Source)
    // A document id takes priority: the inline text is used only when no id is given.
    ensures s.Inline? <==> !Given(request.documentId) && Given(request.documentText)
    ensures s.Inline? ==> s.text == request.documentText.value
    // An empty store is reported before the id is looked up.
    ensures Given(request.documentId) && |documents| == 0 ==> s == Canned(StorageUnavailableReply)
    // An unknown id is reported, with no fall-back to the inline text.
    ensures Given(request.documentId) && |documents| > 0 && request.documentId.value !in documents ==>
      s == Canned(NotFoundReply)
    ensures s.Stored? <==> Given(request.documentId) && request.documentId.value in documents
    ensures s.Stored? ==>
      s == Stored(documents[request.documentId.value].text, documents[request.documentId.value].filename)
    ensures !Given(request.documentId) && !Given(request.documentText) ==> s == Canned(UploadFirstReply)
  {
    if Given(request.documentId) then
      var id := request.documentId.value;
      if |documents| == 0 then Canned(StorageUnavailableReply)
      else if id !in documents then Canned(NotFoundReply)
      else Stored(documents[id].text, documents[id].filename)
    else if Given(request.documentText) then
      Inline(request.documentText.value)
    else
      Canned(UploadFirstReply)
  }

  /** With an id given, the inline text plays no part at all. */
  lemma IdIgnoresInlineText(documents: map<string, Entry>, request: ChatRequest, other: Option<string>)
    requires Given(request.documentId)
    ensures ResolveSource(documents, request) == ResolveSource(documents, request.(documentText := other))
  {
  }

  /** The model's answer about `text`: its reply stripped, or the error message as the reply. */
  function Answer(text: string, question: string, generate: (string, string) -> LlmReply): (r: string)
    ensures generate(LimitText(text), question).Replied? ==>
      NoOuterSpace(r) && r == Strip(generate(LimitText(text), question).text)
    ensures generate(LimitText(text), question).Failed? ==>
      StartsWith(r, ErrorReplyPrefix) && r[|ErrorReplyPrefix|..] == generate(LimitText(text), question).error
  {
    match generate(LimitText(text), question)
    case Replied(reply) => Strip(reply)
    case Failed(error) => ErrorReplyPrefix + error
  }

  /**
   * `chat_with_document`: a 500 error without the API key; otherwise always a reply, the fixed one
   * of the source if there is one and the model's answer otherwise.
   */
  function ChatReply(apiKeyConfigured: bool, documents: map<string, Entry>, request: ChatRequest,
                     generate: (string, string) -> LlmReply): (r: Result<string, HttpError>)
    ensures r.Failure? <==> !apiKeyConfigured
    ensures r.Failure? ==> r.error == HttpError(500, ChatKeyMissingDetail)
    ensures apiKeyConfigured && ResolveSource(documents, request).Canned? ==>
      r == Success(ResolveSource(documents, request).reply)
    ensures apiKeyConfigured && !ResolveSource(documents, request).Canned? ==>
      r == Success(Answer(ResolveSource(documents, request).text, request.message, generate))
  {
    if !apiKeyConfigured then
      Failure(HttpError(500, ChatKeyMissingDetail))
    else
      match ResolveSource(documents, request)
      case Canned(reply) => Success(reply)
      case Stored(text, _) => Success(Answer(text, request.message, generate))
      case Inline(text) => Success(Answer(text, request.message, generate))
  }

  /** Two documents that agree on their first 25000 characters get the same answer. */
  lemma AnswerSeesLimitedText(a: string, b: string, question: string, generate: (string, string) -> LlmReply)
    requires |a| >= MaxPromptChars && |b| >= MaxPromptChars
    requires a[..MaxPromptChars] == b[..MaxPromptChars]
    ensures Answer(a, question, generate) == Answer(b, question, generate)
  {
    LimitTextSeesOnlyPrefix(a, b);
  }
}
