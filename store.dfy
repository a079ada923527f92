/**
 * The in-memory `document_store` and the endpoints that use it directly: `upload_document`
 * (insert, and delete as cleanup), `get_document_info` (lookup and preview) and `health_check`
 * (count and keys). Requests are modelled as sequential calls on one DocumentStore.
 */
module Store {
  import opened Wrappers
  import opened Text
  import opened Sequences
  import opened Http
  import opened Llm
  import opened Analysis
  import opened Validation

  /** One value of `document_store`: the extracted text, the filename, the upload time and the byte count. */
  datatype Entry = Entry(text: string, filename: string, uploadTime: string, fileSize: nat)

  /** The uploaded file as FastAPI hands it over: its filename ("" when none) and what reading it gives. */
  datatype UploadedFile = UploadedFile(filename: string, content: ReadResult)

  datatype UploadResponse = UploadResponse(documentId: string, filename: string, analysis: DocumentAnalysis, textLength: nat)

  datatype DocumentInfo = DocumentInfo(documentId: string, filename: string, uploadTime: string, textLength: nat, textPreview: string)

  datatype HealthReport = HealthReport(status: string, geminiConfigured: bool, documentsStored: nat, storedDocumentIds: seq<string>)

  const PreviewChars: nat := 200
  const Ellipsis := "..."
  const NotFoundDetail := "Document not found"

  /**
   * `text[:200] + "..." if len(text) > 200 else text`: a short text as it is; a long one as its
   * first 200 characters followed by an ellipsis, 203 characters in all.
   */
  function Preview(text: string): (r: string)
    ensures |text| <= PreviewChars ==> r == text
    ensures |text| > PreviewChars ==>
      && |r| == PreviewChars + |Ellipsis|
      && r[..PreviewChars] == text[..PreviewChars]
      && EndsWith(r, Ellipsis)
    ensures |r| <= PreviewChars + |Ellipsis|
  {
    if |text| > PreviewChars then text[..PreviewChars] + Ellipsis else text
  }

  /** What every stored document satisfies: it passed the upload checks. */
  predicate Admissible(e: Entry) {
    && MinTextChars <= |e.text|
    && NoOuterSpace(e.text)
    && 0 < e.fileSize <= MaxUploadBytes
    && HasPdfExtension(e.filename)
  }

  predicate Distinct(s: seq<string>) {
    forall i, j :: 0 <= i < j < |s| ==> s[i] != s[j]
  }

  /** `s` without `x`, the others in their order (EraseOne). */
  function Erase(s: seq<string>, x: string): (r: seq<string>)
    ensures forall y :: y in r <==> y in s && y != x
    ensures Distinct(s) ==> Distinct(r)
    ensures x !in s ==> r == s
  {
    if s == [] then []
    else
      var rest := Erase(s[1..], x);
      assert Distinct(s) ==> s[0] !in s[1..];
      (if s[0] == x then [] else [s[0]]) + rest
  }

  /** Erasing a key that occurs once removes that one occurrence and keeps the rest in order. */
  lemma {:induction false} EraseOne(a: seq<string>, x: string, b: seq<string>)
    requires x !in a && x !in b
    ensures Erase(a + [x] + b, x) == a + b
    decreases |a|
  {
    if a == [] {
      ConcatEmpty([x]);
      ConcatTail([x], b);
    } else {
      ConcatAssoc(a, [x], b);
      ConcatTail(a, [x] + b);
      ConcatAssoc(a[1..], [x], b);
      EraseOne(a[1..], x, b);
      ConcatTail(a, b);
    }
  }

  /** A sequence without repetitions has as many elements as the set of its elements. */
  lemma {:induction false} DistinctCardinality(s: seq<string>)
    requires Distinct(s)
    ensures |set x | x in s| == |s|
  {
    if s != [] {
      assert Distinct(s[1..]) by {
        forall i, j | 0 <= i < j < |s[1..]| ensures s[1..][i] != s[1..][j] {
          assert s[1..][i] == s[i + 1] && s[1..][j] == s[j + 1];
        }
      }
      DistinctCardinality(s[1..]);
      assert s[0] !in s[1..];
      assert (set x | x in s) == {s[0]} + (set x | x in s[1..]);
    }
  }

  /** Removing a key just set is removing it from the map before it was set. */
  lemma UpdateThenRemove(m: map<string, Entry>, k: string, v: Entry)
    ensures m[k := v] - {k} == m - {k}
  {
  }

  /**
   * `document_store`. `ids` lists the keys in insertion order, as a Python dict keeps them;
   * `documents` is the mapping itself.
   */
  class DocumentStore {
    var documents: map<string, Entry>
    var ids: seq<string>

    ghost predicate Valid()
      reads this
    {
      && Distinct(ids)
      && (forall id :: id in ids <==> id in documents)
      && (forall id :: id in documents ==> Admissible(documents[id]))
    }

    /** The empty store of a freshly started process. */
    constructor ()
      ensures Valid()
      ensures documents == map[] && ids == []
    {
      documents := map[];
      ids := [];
    }

    /** `document_store[id] = entry`: a new key goes last, an existing key keeps its place. */
    method Insert(id: string, entry: Entry)
      requires Valid() && Admissible(entry)
      modifies this
      ensures Valid()
      ensures documents == old(documents)[id := entry]
      ensures ids == if id in old(documents) then old(ids) else old(ids) + [id]
    {
      if id !in documents {
        ids := ids + [id];
      }
      documents := documents[id := entry];
    }

    /** `del document_store[id]`. */
    method Delete(id: string)
      requires Valid() && id in documents
      modifies this
      ensures Valid()
      ensures documents == old(documents) - {id}
      ensures ids == Erase(old(ids), id)
    {
      ids := Erase(ids, id);
      documents := documents - {id};
    }

    /**
     * `upload_document`. `docId` and `uploadTime` stand for the generated id and the clock;
     * `generate` and `decode` for the model call and the JSON decoder of the analysis; `fault` for
     * a non-HTTP exception raised during the analysis step by code outside the model.
     */
    method UploadDocument(file: UploadedFile, docId: string, uploadTime: string,
                          apiKeyConfigured: bool, generate: string -> LlmReply, decode: string -> Decoded,
                          fault: Option<string>)
      returns (r: Result<UploadResponse, HttpError>)
      requires Valid()
      modifies this
      ensures Valid()
      // A rejected upload writes nothing.
      ensures ValidateUpload(file.filename, file.content).Failure? ==>
        && documents == old(documents) && ids == old(ids)
        && r == Failure(ErrorResponse(ValidateUpload(file.filename, file.content).error))
      ensures ValidateUpload(file.filename, file.content).Success? ==>
        var accepted := ValidateUpload(file.filename, file.content).value;
        var entry := Entry(accepted.text, file.filename, uploadTime, accepted.size);
        var analysis := AnalyzeDocument(apiKeyConfigured, accepted.text, generate, decode);
        var inserted := if docId in old(documents) then old(ids) else old(ids) + [docId];
        // An HTTPException from the analysis is re-raised and the entry stays.
        && (analysis.Failure? ==>
              documents == old(documents)[docId := entry] && ids == inserted && r == Failure(analysis.error))
        // Any other exception removes exactly docId again.
        && (analysis.Success? && fault.Some? ==>
              && documents == old(documents) - {docId} && ids == Erase(inserted, docId)
              && r == Failure(HttpError(500, UnexpectedPrefix + fault.value)))
        // Success: the entry holds the extracted text and the filename, every other key is unchanged.
        && (analysis.Success? && fault.None? ==>
              && documents == old(documents)[docId := entry] && ids == inserted
              && r == Success(UploadResponse(docId, file.filename, analysis.value, |accepted.text|)))
    {
      var validated := ValidateUpload(file.filename, file.content);
      if validated.Failure? {
        return Failure(ErrorResponse(validated.error));
      }
      var text := validated.value.text;
      UpdateThenRemove(documents, docId, Entry(text, file.filename, uploadTime, validated.value.size));
      Insert(docId, Entry(text, file.filename, uploadTime, validated.value.size));
      var analysis := AnalyzeDocument(apiKeyConfigured, text, generate, decode);
      if analysis.Failure? {
        return Failure(analysis.error);
      }
      if fault.Some? {
        if docId in documents {
          Delete(docId);
        }
        return Failure(HttpError(500, UnexpectedPrefix + fault.value));
      }
      r := Success(UploadResponse(docId, file.filename, analysis.value, |text|));
    }

    /** `get_document_info`: the stored metadata and a preview, or 404 for an unknown id. */
    function Info(id: string): (r: Result<DocumentInfo, HttpError>)
      reads this
      requires Valid()
      ensures r.Failure? <==> id !in documents
      ensures r.Failure? ==> r.error == HttpError(404, NotFoundDetail)
      ensures r.Success? ==>
        && r.value.documentId == id
        && r.value.filename == documents[id].filename
        && r.value.uploadTime == documents[id].uploadTime
        && r.value.textLength == |documents[id].text| >= MinTextChars
        && r.value.textPreview == Preview(documents[id].text)
    {
      if id !in documents then
        Failure(HttpError(404, NotFoundDetail))
      else
        var entry := documents[id];
        Success(DocumentInfo(id, entry.filename, entry.uploadTime, |entry.text|, Preview(entry.text)))
    }

    /** `health_check`: the number of stored documents and their ids, in insertion order. */
    function Health(geminiConfigured: bool): (h: HealthReport)
      reads this
      requires Valid()
      ensures h.status == "healthy"
      ensures h.geminiConfigured == geminiConfigured
      ensures h.storedDocumentIds == ids
      ensures h.documentsStored == |documents| == |h.storedDocumentIds|
      ensures Distinct(h.storedDocumentIds)
      ensures forall id :: id in h.storedDocumentIds <==> id in documents
    {
      DistinctCardinality(ids);
      assert (set x | x in ids) == documents.Keys;
      HealthReport("healthy", geminiConfigured, |documents|, ids)
    }
  }
}
