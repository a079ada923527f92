/**
 * `analyze_document_with_gemini`: the reply of the language model is cleaned of Markdown code
 * fences, decoded as JSON and turned into a DocumentAnalysis; missing fields take defaults, and
 * every failure after the API-key check yields one of two fixed fallback analyses.
 * The model call and `json.loads` are foreign: they are the `generate` and `decode` parameters.
 */
module Analysis {
  import opened Wrappers
  import opened Text
  import opened Sequences
  import opened Http
  import opened Llm

  /** A decoded JSON value. Numbers keep their literal text; the model never inspects them. */
  datatype Json =
    | JNull
    | JBool(b: bool)
    | JNumber(literal: string)
    | JString(text: string)
    | JArray(items: seq<Json>)
    | JObject(fields: map<string, Json>)

  /**
   * What `json.loads` does with the cleaned reply: a value, a `JSONDecodeError` (caught by the
   * inner handler), or any other exception (caught by the outer one).
   */
  datatype Decoded = Parsed(value: Json) | SyntaxError | OtherError

  /** One entry of a list field: `Dict[str, str]`. */
  type Record = map<string, string>

  /** The `DocumentAnalysis` model: a summary and four lists of string-valued records. */
  datatype DocumentAnalysis = DocumentAnalysis(
    summary: string,
    keyClauses: seq<Record>,
    obligations: seq<Record>,
    risks: seq<Record>,
    unusualTerms: seq<Record>)

  const AnalysisKeyMissingDetail := "Gemini API key not configured. Please set GEMINI_API_KEY in your environment variables."
  const DefaultSummary := "Document analysis completed."

  /** The analysis returned when the cleaned reply is not valid JSON. */
  const ParseFallback := DocumentAnalysis(
    "The document has been processed. The AI analysis is available through the chat feature.",
    [map["clause" := "Document Processed", "explanation" := "Use the chat feature to ask about specific clauses", "location" := "Throughout document"]],
    [map["party" := "Document parties", "obligation" := "Refer to original document", "consequence" := "Use chat for specific details"]],
    [map["type" := "General", "description" := "Use chat to identify specific risks", "severity" := "Medium"]],
    [map["term" := "Various", "explanation" := "Chat with AI to identify unusual terms", "recommendation" := "Review document carefully"]])

  /** The analysis returned when the model call, or turning its JSON into an analysis, fails. */
  const ServiceFallback := DocumentAnalysis(
    "Document uploaded successfully. AI analysis encountered an issue, but you can still chat about the document.",
    [map["clause" := "Upload Successful", "explanation" := "Document processed, use chat for analysis", "location" := "N/A"]],
    [map["party" := "User", "obligation" := "Use chat feature for detailed analysis", "consequence" := "Limited automated analysis"]],
    [map["type" := "Technical", "description" := "AI analysis partially unavailable", "severity" := "Low"]],
    [map["term" := "Processing", "explanation" := "Use chat feature for detailed term analysis", "recommendation" := "Ask specific questions"]])

  // ---------------------------------------------------------------------------------------------
  // Fence cleaning

  const JsonFence := "```json"
  const Fence := "```"

  /**
   * How many characters the two opening-fence checks remove from the stripped reply: "```json"
   * is tried first, then "```" on what is left, so both can fire.
   */
  function OpeningFenceLength(t: string): (n: nat)
    ensures n <= |t|
  {
    var a := if StartsWith(t, JsonFence) then |JsonFence| else 0;
    a + (if StartsWith(t[a..], Fence) then |Fence| else 0)
  }

  /** What lies between the opening fences and a closing "```" of a stripped reply. */
  function Unfenced(t: string): (r: string)
    ensures |r| <= |t|
  {
    var i := OpeningFenceLength(t);
    var j := if EndsWith(t[i..], Fence) then |t| - |Fence| else |t|;
    t[i..j]
  }

  /** The cleaned reply: the stripped reply with its fences cut off, stripped again. */
  function CleanedReply(reply: string): string {
    Strip(Unfenced(Strip(reply)))
  }

  /** The cleaning steps of `analyze_document_with_gemini`, one reassignment at a time. */
  method CleanReply(reply: string) returns (text: string)
    ensures text == CleanedReply(reply)
  {
    text := Strip(reply);
    ghost var t := text;
    WholeSlice(t);
    ghost var a := if StartsWith(t, JsonFence) then |JsonFence| else 0;
    if StartsWith(text, JsonFence) {
      text := text[7..];
    }
    assert text == t[a..];
    if StartsWith(text, Fence) {
      TakeOfDrop(t, a, 3);
      text := text[3..];
    }
    ghost var i := OpeningFenceLength(t);
    assert text == t[i..];
    if EndsWith(text, Fence) {
      TakeOfDrop(t, i, |t| - i - 3);
      text := text[..|text| - 3];
    }
    assert text == Unfenced(t);
    text := Strip(text);
  }

  /** The cleaned reply has no whitespace at either end. */
  lemma CleanedHasNoOuterSpace(reply: string)
    ensures NoOuterSpace(CleanedReply(reply))
  {
  }

  /** Cleaning only removes characters: the result is never longer than the stripped reply. */
  lemma CleanedNoLongerThanStripped(reply: string)
    ensures |CleanedReply(reply)| <= |Strip(reply)|
  {
  }

  /** A reply whose stripped form neither starts nor ends with a backtick is only stripped. */
  lemma CleanedWithoutBackticks(reply: string)
    requires var t := Strip(reply); t == [] || (t[0] != '`' && t[|t| - 1] != '`')
    ensures CleanedReply(reply) == Strip(reply)
  {
    var t := Strip(reply);
    assert !StartsWith(t, JsonFence) && !StartsWith(t, Fence) && !EndsWith(t, Fence);
    assert Unfenced(t) == t;
    StripIdempotent(reply);
  }

  /** Whitespace around the reply makes no difference. */
  lemma CleanedIgnoresOuterSpace(w1: string, reply: string, w2: string)
    requires AllSpace(w1) && AllSpace(w2)
    ensures CleanedReply(w1 + reply + w2) == CleanedReply(reply)
  {
    StripIgnoresOuterSpace(w1, reply, w2);
  }

  /** Strip(w1 + m + w2) for the newline-wrapped bodies of a fenced reply. */
  lemma StripNewlines(body: string)
    requires NoOuterSpace(body)
    ensures Strip("\n" + body + "\n") == body
  {
    StripUnique("\n", body, "\n");
  }

  /** A fenced block starts and ends with a backtick, so stripping leaves it as it is. */
  lemma FencedBlockIsStripped(reply: string)
    requires |reply| > 0 && reply[0] == '`' && reply[|reply| - 1] == '`'
    ensures Strip(reply) == reply
  {
    assert NoOuterSpace(reply);
    assert [] + reply + [] == reply;
    StripUnique([], reply, []);
  }

  lemma UnfencedJsonBlock(body: string)
    ensures Unfenced(JsonFence + "\n" + body + "\n" + Fence) == "\n" + body + "\n"
  {
    var reply := JsonFence + "\n" + body + "\n" + Fence;
    assert reply[..7] == JsonFence;
    var rest := reply[7..];
    assert rest == "\n" + body + "\n" + Fence;
    assert !StartsWith(rest, Fence) by { assert rest[0] == '\n'; }
    assert OpeningFenceLength(reply) == 7;
    assert rest[|rest| - 3..] == Fence;
    assert reply[7..|reply| - 3] == "\n" + body + "\n";
  }

  lemma UnfencedPlainBlock(body: string)
    ensures Unfenced(Fence + "\n" + body + "\n" + Fence) == "\n" + body + "\n"
  {
    var reply := Fence + "\n" + body + "\n" + Fence;
    assert !StartsWith(reply, JsonFence) by { assert reply[3] == '\n'; }
    assert reply[..3] == Fence;
    var rest := reply[3..];
    assert rest == "\n" + body + "\n" + Fence;
    assert OpeningFenceLength(reply) == 3;
    assert rest[|rest| - 3..] == Fence;
    assert reply[3..|reply| - 3] == "\n" + body + "\n";
  }

  /**
   * A reply fenced as a JSON code block gives back exactly its body. This needs "```json" to be
   * tried before "```": the other order would leave "json" at the front of the body.
   */
  lemma CleanedJsonBlock(body: string)
    requires NoOuterSpace(body)
    ensures CleanedReply(JsonFence + "\n" + body + "\n" + Fence) == body
  {
    var reply := JsonFence + "\n" + body + "\n" + Fence;
    FencedBlockIsStripped(reply);
    UnfencedJsonBlock(body);
    StripNewlines(body);
  }

  /** A reply fenced as a plain code block gives back exactly its body. */
  lemma CleanedPlainBlock(body: string)
    requires NoOuterSpace(body)
    ensures CleanedReply(Fence + "\n" + body + "\n" + Fence) == body
  {
    var reply := Fence + "\n" + body + "\n" + Fence;
    FencedBlockIsStripped(reply);
    UnfencedPlainBlock(body);
    StripNewlines(body);
  }

  // ---------------------------------------------------------------------------------------------
  // From decoded JSON to an analysis

  /** A JSON value Pydantic 2 (lax mode) accepts as `Dict[str, str]`: an object whose every value is a string. */
  predicate IsRecord(j: Json) {
    j.JObject? && forall k :: k in j.fields ==> j.fields[k].JString?
  }

  function RecordOf(j: Json): (r: Record)
    requires IsRecord(j)
    ensures r.Keys == j.fields.Keys
    ensures forall k :: k in r ==> j.fields[k] == JString(r[k])
  {
    map k | k in j.fields :: j.fields[k].text
  }

  /** A JSON array as `List[Dict[str, str]]`: defined exactly when every item is a record. */
  function RecordsOf(items: seq<Json>): (r: Option<seq<Record>>)
    ensures r.Some? <==> forall i :: 0 <= i < |items| ==> IsRecord(items[i])
    ensures r.Some? ==> |r.value| == |items| && forall i :: 0 <= i < |items| ==> r.value[i] == RecordOf(items[i])
  {
    if items == [] then Some([])
    else if !IsRecord(items[0]) then None
    else match RecordsOf(items[1..])
      case None => None
      case Some(rest) => Some([RecordOf(items[0])] + rest)
  }

  /** `data.get(key, [])` read as a list of records; None when Pydantic would reject the value. */
  function ListField(fields: map<string, Json>, key: string): (r: Option<seq<Record>>)
    ensures key !in fields ==> r == Some([])
    ensures key in fields ==> (r.Some? <==> fields[key].JArray? && RecordsOf(fields[key].items).Some?)
    ensures r.Some? && key in fields ==> r == RecordsOf(fields[key].items)
  {
    if key !in fields then Some([])
    else match fields[key]
      case JArray(items) => RecordsOf(items)
      case _ => None
  }

  /**
   * The `DocumentAnalysis(...)` construction from the decoded reply: None when the reply is not an
   * object (`.get` raises) or a field has the wrong shape (Pydantic raises).
   */
  function BuildAnalysis(value: Json): (r: Option<DocumentAnalysis>)
    ensures r.Some? <==>
      && value.JObject?
      && ("summary" in value.fields ==> value.fields["summary"].JString?)
      && ListField(value.fields, "key_clauses").Some?
      && ListField(value.fields, "obligations").Some?
      && ListField(value.fields, "risks").Some?
      && ListField(value.fields, "unusual_terms").Some?
    ensures r.Some? && "summary" in value.fields ==> value.fields["summary"] == JString(r.value.summary)
    ensures r.Some? && "summary" !in value.fields ==> r.value.summary == DefaultSummary
    ensures r.Some? ==> Some(r.value.keyClauses) == ListField(value.fields, "key_clauses")
    ensures r.Some? ==> Some(r.value.obligations) == ListField(value.fields, "obligations")
    ensures r.Some? ==> Some(r.value.risks) == ListField(value.fields, "risks")
    ensures r.Some? ==> Some(r.value.unusualTerms) == ListField(value.fields, "unusual_terms")
  {
    match value
    case JObject(fields) =>
      var summary := if "summary" in fields then fields["summary"] else JString(DefaultSummary);
      var clauses := ListField(fields, "key_clauses");
      var obligations := ListField(fields, "obligations");
      var risks := ListField(fields, "risks");
      var terms := ListField(fields, "unusual_terms");
      if summary.JString? && clauses.Some? && obligations.Some? && risks.Some? && terms.Some? then
        Some(DocumentAnalysis(summary.text, clauses.value, obligations.value, risks.value, terms.value))
      else
        None
    case _ => None
  }

  /** An empty JSON object takes every default. */
  lemma EmptyObjectTakesDefaults()
    ensures BuildAnalysis(JObject(map[])) == Some(DocumentAnalysis(DefaultSummary, [], [], [], []))
  {
  }

  /** Every field present with the right shape is copied as it is. */
  lemma WellFormedObjectIsCopied(summary: string, clauses: seq<Json>, obligations: seq<Json>, risks: seq<Json>, terms: seq<Json>)
    requires forall i :: 0 <= i < |clauses| ==> IsRecord(clauses[i])
    requires forall i :: 0 <= i < |obligations| ==> IsRecord(obligations[i])
    requires forall i :: 0 <= i < |risks| ==> IsRecord(risks[i])
    requires forall i :: 0 <= i < |terms| ==> IsRecord(terms[i])
    ensures var fields := map["summary" := JString(summary), "key_clauses" := JArray(clauses),
                            "obligations" := JArray(obligations), "risks" := JArray(risks),
                            "unusual_terms" := JArray(terms)];
      var r := BuildAnalysis(JObject(fields));
      && r.Some?
      && r.value.summary == summary
      && |r.value.keyClauses| == |clauses|
      && (forall i :: 0 <= i < |clauses| ==> r.value.keyClauses[i] == RecordOf(clauses[i]))
      && Some(r.value.obligations) == RecordsOf(obligations)
      && Some(r.value.risks) == RecordsOf(risks)
      && Some(r.value.unusualTerms) == RecordsOf(terms)
  {
    var fields := map["summary" := JString(summary), "key_clauses" := JArray(clauses),
                      "obligations" := JArray(obligations), "risks" := JArray(risks),
                      "unusual_terms" := JArray(terms)];
    assert fields["key_clauses"] == JArray(clauses);
    assert fields["obligations"] == JArray(obligations);
    assert fields["risks"] == JArray(risks);
    assert fields["unusual_terms"] == JArray(terms);
  }

  // ---------------------------------------------------------------------------------------------
  // The whole analysis

  /**
   * `analyze_document_with_gemini(text)`. `generate` stands for the model call on the prompt built
   * from the limited text; `decode` stands for `json.loads`.
   */
  function AnalyzeDocument(apiKeyConfigured: bool, text: string,
                           generate: string -> LlmReply, decode: string -> Decoded): (r: Result<DocumentAnalysis, HttpError>)
    ensures r.Failure? <==> !apiKeyConfigured
    ensures r.Failure? ==> r.error == HttpError(500, AnalysisKeyMissingDetail)
  {
    if !apiKeyConfigured then
      Failure(HttpError(500, AnalysisKeyMissingDetail))
    else
      match generate(LimitText(text))
      case Failed(_) => Success(ServiceFallback)
      case Replied(reply) =>
        match decode(CleanedReply(reply))
        case SyntaxError => Success(ParseFallback)
        case OtherError => Success(ServiceFallback)
        case Parsed(value) =>
          match BuildAnalysis(value)
          case None => Success(ServiceFallback)
          case Some(analysis) => Success(analysis)
  }

  /** Which analysis comes back on each path once the key is configured. */
  lemma AnalysisPaths(text: string, generate: string -> LlmReply, decode: string -> Decoded)
    ensures generate(LimitText(text)).Failed? ==> AnalyzeDocument(true, text, generate, decode) == Success(ServiceFallback)
    ensures generate(LimitText(text)).Replied? && decode(CleanedReply(generate(LimitText(text)).text)) == SyntaxError ==>
      AnalyzeDocument(true, text, generate, decode) == Success(ParseFallback)
    ensures generate(LimitText(text)).Replied? && decode(CleanedReply(generate(LimitText(text)).text)) == OtherError ==>
      AnalyzeDocument(true, text, generate, decode) == Success(ServiceFallback)
    ensures generate(LimitText(text)).Replied? && decode(CleanedReply(generate(LimitText(text)).text)).Parsed? ==>
      var built := BuildAnalysis(decode(CleanedReply(generate(LimitText(text)).text)).value);
      AnalyzeDocument(true, text, generate, decode) == Success(if built.Some? then built.value else ServiceFallback)
  {
  }

  /** The analysis depends on the document only through its first 25000 characters. */
  lemma AnalysisSeesLimitedText(a: string, b: string, key: bool, generate: string -> LlmReply, decode: string -> Decoded)
    requires LimitText(a) == LimitText(b)
    ensures AnalyzeDocument(key, a, generate, decode) == AnalyzeDocument(key, b, generate, decode)
  {
  }
}
