/**
 * The boundary to the Gemini model. The call itself is foreign: the model receives its reply as
 * an LlmReply value. What the backend controls is how much document text goes into a prompt.
 */
module Llm {

  /** What `model.generate_content(prompt).text` gave: the reply text, or the message of the exception it raised. */
  datatype LlmReply = Replied(text: string) | Failed(error: string)

  /** The most document characters a prompt carries. */
  const MaxPromptChars: nat := 25000

  /** `text[:25000] if len(text) > 25000 else text`: the document text placed in a prompt. */
  function LimitText(text: string): (r: string)
    ensures |r| == (if |text| <= MaxPromptChars then |text| else MaxPromptChars)
    ensures r == text[..|r|]
  {
    if |text| > MaxPromptChars then text[..MaxPromptChars] else text
  }

  /** Text within the limit goes into the prompt unchanged, and limiting twice is limiting once. */
  lemma LimitTextKeepsShortText(text: string)
    ensures |text| <= MaxPromptChars ==> LimitText(text) == text
    ensures LimitText(LimitText(text)) == LimitText(text)
  {
  }

  /** Only the first 25000 characters of a document reach the prompt. */
  lemma LimitTextSeesOnlyPrefix(a: string, b: string)
    requires |a| >= MaxPromptChars && |b| >= MaxPromptChars
    requires a[..MaxPromptChars] == b[..MaxPromptChars]
    ensures LimitText(a) == LimitText(b)
  {
  }
}
