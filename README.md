# AI Legal Document Explainer backend — a Dafny model

The backend lets a user upload a PDF legal document, sends its text to the Gemini model for a
structured analysis, keeps the text in an in-memory document store, and answers questions about a
stored document. Most of `backend/main.py` is glue around FastAPI, PyPDF2 and Gemini. This project
models the parts that are its own logic: the upload checks, the page-text loop, Markdown fence
cleaning of the model's reply with the analysis defaults and fallbacks, prompt truncation, the
info preview, the document store, and the chat rule that picks which text a question is answered
from.

Modules, one per component (all files are verified together):

- `wrappers.dfy` — `Wrappers`: `Option` and `Result`.
- `sequences.dfy` — `Sequences`: slicing and concatenation facts the string and page proofs share.
- `http.dfy` — `Http`: the `HTTPException` as a status and a detail text.
- `text.dfy` — `Text`: Python's `isspace`, `strip`, `lower`, `startswith`, `endswith`.
- `llm.dfy` — `Llm`: the model call's outcome, and the 25000-character limit on prompt text.
- `extraction.dfy` — `Extraction`: `extract_text_from_pdf`, with the page loop as a method.
- `analysis.dfy` — `Analysis`: `analyze_document_with_gemini`, with fence cleaning as a method.
- `validation.dfy` — `Validation`: the guard chain of `upload_document`.
- `store.dfy` — `Store`: the `document_store` as the class `DocumentStore`, with the upload, info and health endpoints.
- `chat.dfy` — `Chat`: `chat_with_document`.

Foreign calls are parameters:
- `generate` is the Gemini call, applied to the limited document text (and, for chat, the question).
- `decode` is `json.loads`: a parsed value, a `JSONDecodeError` (`SyntaxError`, which gives the parse fallback, main.py:176-187) or any other exception (`OtherError`, which the outer handler turns into the service fallback, main.py:189-200).
- `PdfContent` is what PyPDF2 yields: a reader failure, or one optional text per page.
- `ReadResult` is what `await file.read()` yields.
- `docId` and `uploadTime` stand for the generated id and the clock.
- `apiKeyConfigured` stands for `GEMINI_API_KEY` being set.

The store keeps a map from id to entry and, beside it, the ids in insertion order. A Python dict
keeps that order, and `health_check` reports it.

Three things the code does that an API client might not expect:
- An unknown id in a chat request yields a normal reply saying the document was not found (main.py:309-314). It is not a 404.
- An unparsable analysis reply yields a fixed fallback analysis (main.py:176-187). It is not an error.
- The file type is decided by the filename's extension (main.py:213). The content type is not checked.

## Model

| member | source | states |
|---|---|---|
| `Text.Strip` | backend/main.py:95-101 | `strip()` leaves a string that neither starts nor ends with whitespace and is no longer than the input |
| `Text.StripInfix` | backend/main.py:101 | the stripped string is the infix of the input after its leading whitespace, and everything cut off on either side is whitespace |
| `Text.StripUnique` | backend/main.py:101 | whitespace + m + whitespace strips to exactly m when m has no outer whitespace |
| `Text.StripIdempotent` | backend/main.py:235 | stripping twice is stripping once |
| `Text.StripIgnoresOuterSpace` | backend/main.py:152 | whitespace added on either side of a string does not change what it strips to |
| `Text.StripEmptyIff` | backend/main.py:95-99 | a string strips to nothing exactly when it is all whitespace |
| `Text.IsSpaceIsPythonWhitespace` | backend/main.py:95-101 | the whitespace `strip()` removes is exactly Python's table of 29 whitespace characters |
| `Text.Lower` | backend/main.py:213 | `lower()` keeps the length and maps each character by itself, lower-casing exactly the capital letters A to Z |
| `Llm.LimitText` | backend/main.py:121 | the prompt text is the prefix of the document of length min(len, 25000) |
| `Llm.LimitTextKeepsShortText` | backend/main.py:121 | text of 25000 characters or fewer passes unchanged, and limiting is idempotent |
| `Llm.LimitTextSeesOnlyPrefix` | backend/main.py:336 | two long texts that agree on their first 25000 characters give the same prompt text |
| `Extraction.FailureDetail` | backend/main.py:106 | the 400 detail is `Error extracting text from PDF: ` followed by the reader's message or the no-text message |
| `Extraction.AccumulatedSnoc` | backend/main.py:86-93 | each further page appends its text and a newline, or nothing if its extraction raised |
| `Extraction.AccumulatedEmptyIff` | backend/main.py:86-93 | the accumulated text is empty exactly when no page could be read, since even an empty page adds its newline |
| `Extraction.ExtractedText` | backend/main.py:78-106 | a successful extraction is non-empty and has no outer whitespace; a reader failure gives a reader error with its message; for a parsed PDF, the no-text error comes exactly when the accumulated text is all whitespace |
| `Extraction.ExtractTextFromPdf` | backend/main.py:85-101 | the page loop returns the strip of the concatenation of each readable page's text plus a newline, or the no-text error |
| `Extraction.AccumulatedConcat` | backend/main.py:86-89 | the accumulated text of two runs of pages is the concatenation of their accumulated texts |
| `Extraction.FailedPageContributesNothing` | backend/main.py:91-93 | a page whose extraction raised adds nothing, wherever it stands |
| `Extraction.PageWithTextSucceeds` | backend/main.py:95-101 | one page holding a non-whitespace character makes extraction succeed |
| `Extraction.BlankPagesMeanNoText` | backend/main.py:86-99 | when every readable page is whitespace only (an image-only or blank PDF, or none readable), extraction fails with the no-text error |
| `Analysis.CleanReply` | backend/main.py:152-163 | the step-by-step cleaning computes the stripped reply with its opening fences and closing fence cut off, stripped again |
| `Analysis.CleanedHasNoOuterSpace` | backend/main.py:163 | the cleaned reply has no leading or trailing whitespace |
| `Analysis.CleanedNoLongerThanStripped` | backend/main.py:152-163 | the cleaned reply is never longer than the stripped reply |
| `Analysis.CleanedWithoutBackticks` | backend/main.py:156-163 | a reply whose stripped form neither starts nor ends with a backtick is only stripped |
| `Analysis.CleanedIgnoresOuterSpace` | backend/main.py:152 | whitespace around the reply does not change the cleaned reply |
| `Analysis.CleanedJsonBlock` | backend/main.py:156-163 | a reply fenced as a ```` ```json ```` block yields exactly its body, because the ```` ```json ```` prefix is removed before the plain ```` ``` ```` check |
| `Analysis.CleanedPlainBlock` | backend/main.py:158-163 | a reply fenced as a plain ```` ``` ```` block yields exactly its body |
| `Analysis.RecordOf` | backend/main.py:58-61 | an object of strings becomes a `Dict[str, str]` with the same keys and values |
| `Analysis.RecordsOf` | backend/main.py:58-61 | a JSON array is a list of records exactly when every item is an object of strings, and then item i becomes record i |
| `Analysis.ListField` | backend/main.py:171-174 | a missing list field defaults to `[]`; a present one must be an array of records |
| `Analysis.BuildAnalysis` | backend/main.py:166-175 | an analysis is built exactly when the value is a JSON object whose summary, if present, is a string and whose four lists are missing or arrays of records; the summary is then the object's string or the default summary, and each list is the field's records or `[]` |
| `Analysis.EmptyObjectTakesDefaults` | backend/main.py:170-174 | an empty object gives the default summary and four empty lists |
| `Analysis.WellFormedObjectIsCopied` | backend/main.py:169-175 | an object with every field of the right shape is copied field by field: the summary, and each of the four lists record by record |
| `Analysis.AnalyzeDocument` | backend/main.py:108-200 | the analysis fails, with the 500 key-missing error, exactly when no API key is configured |
| `Analysis.AnalysisPaths` | backend/main.py:149-200 | with a key: a failed model call gives the service fallback, a `JSONDecodeError` the parse fallback, any other decoder exception the service fallback, a decoded reply its analysis or, if malformed, the service fallback |
| `Analysis.AnalysisSeesLimitedText` | backend/main.py:121-128 | the analysis depends on the document only through its limited text |
| `Validation.ErrorResponse` | backend/main.py:209-241 | every rejection is a 400, except a failed read, which is an unexpected 500 |
| `Validation.ValidateUpload` | backend/main.py:209-241 | an accepted upload has a `.pdf` name, 1 to 10485760 bytes and a stripped text of at least 50 characters |
| `Validation.StripIdempotentOnText` | backend/main.py:235 | the strip in the length check leaves the already stripped text unchanged |
| `Validation.GuardOrder` | backend/main.py:209-233 | empty filename, then a non-`.pdf` name, then a failed read, then size 0, then size above 10485760, then a failed extraction are rejected, each whatever the later inputs are |
| `Validation.SizeLimitIsInclusive` | backend/main.py:227-229 | a file of exactly 10485760 bytes passes the size check |
| `Validation.AcceptedIff` | backend/main.py:209-241 | an upload is accepted exactly when every guard passes, and then it carries the extracted text and the byte count |
| `Validation.ShortTextRejected` | backend/main.py:235-240 | extracted text shorter than 50 characters is rejected |
| `Validation.PdfExtensionIgnoresCase` | backend/main.py:213 | the extension check accepts exactly the names ending in `.` and then p, d, f in either case |
| `Store.Preview` | backend/main.py:369 | a text of at most 200 characters previews as itself; a longer one as 203 characters, its first 200 followed by `...`; no preview exceeds 203 characters |
| `Store.Erase` | backend/main.py:279 | deleting a key keeps exactly the other keys and keeps them distinct; deleting an absent key changes nothing |
| `Store.EraseOne` | backend/main.py:279 | deleting a key that occurs once keeps the other keys in their order |
| `Store.DistinctCardinality` | backend/main.py:381-382 | a list of distinct ids has as many elements as the set of ids |
| `Store.DocumentStore.constructor` | backend/main.py:74 | the store starts empty |
| `Store.DocumentStore.Insert` | backend/main.py:247-252 | the new mapping is the old one with `id` set to the entry; a new id goes last in the key order |
| `Store.DocumentStore.Delete` | backend/main.py:278-279 | exactly `id` is removed, from the mapping and from the key order |
| `Store.DocumentStore.UploadDocument` | backend/main.py:202-285 | a rejected upload leaves the store unchanged; after the insert, a re-raised HTTP error keeps the entry, another exception removes exactly that id, and success leaves the text and filename under the id with every other key unchanged |
| `Store.DocumentStore.Info` | backend/main.py:357-370 | a 404 exactly for an unknown id; otherwise the filename, upload time and preview, with `text_length` equal to the text's length |
| `Store.DocumentStore.Health` | backend/main.py:376-383 | the status is always `healthy`; the ids are the store's keys in insertion order, distinct and exactly the stored keys; the count equals the number of stored documents and of listed ids |
| `Chat.ResolveSource` | backend/main.py:297-328 | an id takes priority over inline text; an empty store answers "not available" before any lookup; an unknown id answers "not found" without falling back; with neither field, "upload first" |
| `Chat.IdIgnoresInlineText` | backend/main.py:301-322 | with an id given, the inline text makes no difference |
| `Chat.Answer` | backend/main.py:343-355 | a model reply is returned stripped, without outer whitespace; a failed call yields the fixed error text followed by the error message |
| `Chat.ChatReply` | backend/main.py:287-355 | a 500 error exactly when no API key is configured; otherwise the fixed reply of the source, or the model's answer about its text |
| `Chat.AnswerSeesLimitedText` | backend/main.py:336 | two documents that agree on their first 25000 characters get the same answer |

## Left out

- FastAPI, the CORS middleware, uvicorn, the Mangum handler and the `/` endpoint (main.py:27-36, 372-374, 385-389). They are framework plumbing with no logic.
- Gemini configuration and calls (main.py:42-49, 117, 149, 331, 343). They are foreign network calls, modelled as the `generate` parameter.
- The wording of the two prompts (main.py:124-146, 334-340) is not modelled. `generate` receives the limited text, plus the question for chat.
- `json.loads` (main.py:166) is the `decode` parameter; which inputs make it raise which exception is not modelled.
- PyPDF2 parsing (main.py:80-81, 88) is the `PdfContent` value.
- Analysis.BuildAnalysis: follows Pydantic 2 in its default (lax) mode. A string field or record value must be a JSON string, and a record must be a JSON object. Pydantic 1 also turns numbers and booleans into strings and builds a record from an array of pairs. That is not modelled, because the repository does not pin a Pydantic version.
- The `.dict()` conversion of the analysis is left out. The response carries the `DocumentAnalysis` value.
- Document-id generation with `datetime.now()` and `hash()` (main.py:243), the upload time (main.py:250) and every `timestamp`. They are nondeterministic, so they are parameters or are omitted.
- Logging, including the floating-point MB figure (main.py:221), is not behaviour.
- Concurrent requests on the shared store are out of scope. Requests are sequential method calls.
- Text.Lower: lower-cases ASCII letters only. No other character lower-cases to `.`, `p`, `d` or `f`, so the `.pdf` test gives the same verdict as Python's full `str.lower()`.
- A missing filename (`None`) is represented as the empty string. Both fail the same guard.
- Store.DocumentStore.UploadDocument: no modelled code raises a non-HTTP exception after the insert. The `fault` parameter stands for one raised by unmodelled code during the analysis step, so that the cleanup can be stated.
- Chat.ChatReply: takes the store's mapping as an argument, not the store object. The stored filename is resolved but, as in the source, used only for logging.
