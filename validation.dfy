/**
 * The checks `upload_document` makes before anything is stored, in the order it makes them:
 * filename, extension, file size, text extraction, amount of text.
 */
module Validation {
  import opened Wrappers
  import opened Text
  import opened Http
  import opened Extraction

  /** 10 MiB: the largest upload accepted, inclusive. */
  const MaxUploadBytes: nat := 10 * 1024 * 1024
  /** The fewest characters of stripped text a document must have. */
  const MinTextChars: nat := 50

  const NoFileDetail := "No file selected"
  const NotPdfDetail := "Only PDF files are supported"
  const EmptyFileDetail := "The uploaded file is empty"
  const TooLargeDetail := "File size must be less than 10MB"
  const InsufficientTextDetail := "Document appears to contain insufficient text. Please ensure the PDF contains readable text (not just images)."
  const UnexpectedPrefix := "An unexpected error occurred while processing your document. Please try again. Error: "

  /**
   * What `await file.read()` gave: the exception's message, or the byte count and what the PDF
   * reader makes of those bytes.
   */
  datatype ReadResult = ReadError(reason: string) | Bytes(size: nat, pdf: PdfContent)

  datatype UploadError =
    | NoFileSelected
    | NotPdf
    | EmptyFile
    | TooLarge
    | ExtractionFailed(failure: ExtractionFailure)
    | InsufficientText
    | ReadFailed(reason: string)

  /** The text and size of an upload that passed every check. */
  datatype Accepted = Accepted(text: string, size: nat)

  /** The HTTP error each rejection becomes. A read failure is not an HTTPException, so it is reported as an unexpected 500. */
  function ErrorResponse(e: UploadError): (r: HttpError)
    ensures r.status == 500 <==> e.ReadFailed?
    ensures !e.ReadFailed? ==> r.status == 400
  {
    match e
    case NoFileSelected => HttpError(400, NoFileDetail)
    case NotPdf => HttpError(400, NotPdfDetail)
    case EmptyFile => HttpError(400, EmptyFileDetail)
    case TooLarge => HttpError(400, TooLargeDetail)
    case ExtractionFailed(f) => HttpError(400, FailureDetail(f))
    case InsufficientText => HttpError(400, InsufficientTextDetail)
    case ReadFailed(reason) => HttpError(500, UnexpectedPrefix + reason)
  }

  /** `filename.lower().endswith('.pdf')`. */
  predicate HasPdfExtension(filename: string) {
    EndsWith(Lower(filename), ".pdf")
  }

  /** The extension check ignores the case of the four letters and nothing else. */
  lemma PdfExtensionIgnoresCase(filename: string)
    ensures HasPdfExtension(filename) <==>
      var n := |filename|;
      && n >= 4
      && filename[n - 4] == '.'
      && (filename[n - 3] == 'p' || filename[n - 3] == 'P')
      && (filename[n - 2] == 'd' || filename[n - 2] == 'D')
      && (filename[n - 1] == 'f' || filename[n - 1] == 'F')
  {
    var n := |filename|;
    if n >= 4 {
      var tail := Lower(filename)[n - 4..];
      assert tail == [LowerChar(filename[n - 4]), LowerChar(filename[n - 3]), LowerChar(filename[n - 2]), LowerChar(filename[n - 1])];
    }
  }

  /** The guard chain of `upload_document`, up to the point where the document is stored. */
  function ValidateUpload(filename: string, content: ReadResult): (r: Result<Accepted, UploadError>)
    ensures r.Success? ==> filename != [] && HasPdfExtension(filename)
    ensures r.Success? ==> MinTextChars <= |r.value.text| && NoOuterSpace(r.value.text)
    ensures r.Success? ==> 0 < r.value.size <= MaxUploadBytes
  {
    if filename == [] then Failure(NoFileSelected)
    else if !HasPdfExtension(filename) then Failure(NotPdf)
    else match content
      case ReadError(reason) => Failure(ReadFailed(reason))
      case Bytes(size, pdf) =>
        if size == 0 then Failure(EmptyFile)
        else if size > MaxUploadBytes then Failure(TooLarge)
        else match ExtractedText(pdf)
          case Failure(f) => Failure(ExtractionFailed(f))
          case Success(text) =>
            StripIdempotentOnText(text);
            if |Strip(text)| < MinTextChars then Failure(InsufficientText)
            else Success(Accepted(text, size))
  }

  /** The second strip in the length check changes nothing: the extracted text is already stripped. */
  lemma StripIdempotentOnText(text: string)
    requires NoOuterSpace(text)
    ensures Strip(text) == text
  {
    assert [] + text + [] == text;
    StripUnique([], text, []);
  }

  /**
   * The guards fire in order: each rejection happens whatever the later inputs are, once the
   * earlier guards have passed.
   */
  lemma GuardOrder(filename: string, content: ReadResult)
    ensures filename == [] ==> ValidateUpload(filename, content) == Failure(NoFileSelected)
    ensures filename != [] && !HasPdfExtension(filename) ==> ValidateUpload(filename, content) == Failure(NotPdf)
    ensures filename != [] && HasPdfExtension(filename) && content.ReadError? ==>
      ValidateUpload(filename, content) == Failure(ReadFailed(content.reason))
    ensures filename != [] && HasPdfExtension(filename) && content.Bytes? && content.size == 0 ==>
      ValidateUpload(filename, content) == Failure(EmptyFile)
    ensures filename != [] && HasPdfExtension(filename) && content.Bytes? && content.size > MaxUploadBytes ==>
      ValidateUpload(filename, content) == Failure(TooLarge)
    ensures && filename != [] && HasPdfExtension(filename) && content.Bytes? && 0 < content.size <= MaxUploadBytes
            && ExtractedText(content.pdf).Failure?
      ==> ValidateUpload(filename, content) == Failure(ExtractionFailed(ExtractedText(content.pdf).error))
  {
  }

  /** A file of exactly 10485760 bytes passes the size check: only extraction can reject it. */
  lemma SizeLimitIsInclusive(filename: string, pdf: PdfContent)
    requires filename != [] && HasPdfExtension(filename)
    ensures var r := ValidateUpload(filename, Bytes(MaxUploadBytes, pdf));
      r.Failure? ==> r.error.ExtractionFailed? || r.error == InsufficientText
  {
  }

  /**
   * An upload is accepted exactly when every guard passes, and then it carries the extracted text
   * and the byte count.
   */
  lemma AcceptedIff(filename: string, content: ReadResult)
    ensures ValidateUpload(filename, content).Success? <==>
      && filename != []
      && HasPdfExtension(filename)
      && content.Bytes?
      && 0 < content.size <= MaxUploadBytes
      && ExtractedText(content.pdf).Success?
      && |ExtractedText(content.pdf).value| >= MinTextChars
    ensures ValidateUpload(filename, content).Success? ==>
      ValidateUpload(filename, content).value == Accepted(ExtractedText(content.pdf).value, content.size)
  {
    if content.Bytes? && ExtractedText(content.pdf).Success? {
      StripIdempotentOnText(ExtractedText(content.pdf).value);
    }
  }

  /** Text with fewer than 50 characters after stripping is rejected after extraction succeeds. */
  lemma ShortTextRejected(filename: string, size: nat, pdf: PdfContent)
    requires filename != [] && HasPdfExtension(filename) && 0 < size <= MaxUploadBytes
    requires ExtractedText(pdf).Success? && |ExtractedText(pdf).value| < MinTextChars
    ensures ValidateUpload(filename, Bytes(size, pdf)) == Failure(InsufficientText)
  {
    StripIdempotentOnText(ExtractedText(pdf).value);
  }
}
