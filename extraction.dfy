/**
 * `extract_text_from_pdf`: the text of every page that could be read, each followed by a
 * newline, stripped of outer whitespace; an all-whitespace result is an error.
 * The PDF parser is foreign: its outcome is a PdfContent value.
 */
module Extraction {
  import opened Wrappers
  import opened Text
  import opened Sequences

  /**
   * What the PDF reader yields: a failure to open the file (with the exception's message), or one
   * entry per page, `Some(text)` when `page.extract_text()` succeeded and `None` when it raised.
   */
  datatype PdfContent = Unparsable(reason: string) | Pages(pages: seq<Option<string>>)

  datatype ExtractionFailure = ReaderError(reason: string) | NoText

  const NoTextReason := "No text could be extracted from the PDF. The file might be image-based or corrupted."

  const FailurePrefix := "Error extracting text from PDF: "

  /** The `detail` of the 400 error that wraps every extraction failure. */
  function FailureDetail(f: ExtractionFailure): (d: string)
    ensures StartsWith(d, FailurePrefix)
    ensures f.ReaderError? ==> d[|FailurePrefix|..] == f.reason
    ensures f.NoText? ==> d[|FailurePrefix|..] == NoTextReason
  {
    FailurePrefix + (match f case ReaderError(reason) => reason case NoText => NoTextReason)
  }

  /** What one page adds to the accumulated text: its text and a newline, or nothing if it failed. */
  function PageContribution(page: Option<string>): string {
    match page
    case Some(text) => text + "\n"
    case None => ""
  }

  /** The text accumulated over the pages, in page order. */
  function Accumulated(pages: seq<Option<string>>): string
    decreases |pages|
  {
    if pages == [] then "" else Accumulated(pages[..|pages| - 1]) + PageContribution(pages[|pages| - 1])
  }

  /** The outcome of `extract_text_from_pdf` as a function of what the reader yields. */
  function ExtractedText(pdf: PdfContent): (r: Result<string, ExtractionFailure>)
    ensures r.Success? ==> r.value != [] && NoOuterSpace(r.value)
    ensures pdf.Unparsable? ==> r == Failure(ReaderError(pdf.reason))
    ensures pdf.Pages? ==> (r == Failure(NoText) <==> AllSpace(Accumulated(pdf.pages)))
  {
    match pdf
    case Unparsable(reason) => Failure(ReaderError(reason))
    case Pages(pages) =>
      StripEmptyIff(Accumulated(pages));
      var text := Strip(Accumulated(pages));
      if |text| == 0 then Failure(NoText) else Success(text)
  }

  /** The page loop of `extract_text_from_pdf`, computing ExtractedText. */
  method ExtractTextFromPdf(pdf: PdfContent) returns (r: Result<string, ExtractionFailure>)
    ensures r == ExtractedText(pdf)
  {
    if pdf.Unparsable? {
      return Failure(ReaderError(pdf.reason));
    }
    var pages := pdf.pages;
    var text := "";
    var i := 0;
    while i < |pages|
      invariant 0 <= i <= |pages|
      invariant text == Accumulated(pages[..i])
    {
      if pages[i].Some? {
        text := text + pages[i].value + "\n";
      }
      TakeSnoc(pages, i);
      AccumulatedSnoc(pages[..i], pages[i]);
      i := i + 1;
    }
    assert pages[..i] == pages;
    var stripped := Strip(text);
    if |stripped| == 0 {
      r := Failure(NoText);
    } else {
      r := Success(stripped);
    }
  }

  /** Appending one page appends its contribution. */
  lemma AccumulatedSnoc(pages: seq<Option<string>>, page: Option<string>)
    ensures Accumulated(pages + [page]) == Accumulated(pages) + PageContribution(page)
  {
    TakeConcat(pages, [page]);
  }

  /**
   * The accumulated text is empty exactly when no page could be read: even a readable page with
   * no text adds its newline.
   */
  lemma {:induction false} AccumulatedEmptyIff(pages: seq<Option<string>>)
    ensures Accumulated(pages) == [] <==> forall k :: 0 <= k < |pages| ==> pages[k].None?
    decreases |pages|
  {
    if pages != [] {
      var init, last := pages[..|pages| - 1], pages[|pages| - 1];
      AccumulatedEmptyIff(init);
      assert forall k :: 0 <= k < |init| ==> init[k] == pages[k];
    }
  }

  /** Accumulation distributes over concatenation of page runs. */
  lemma {:induction false} AccumulatedConcat(a: seq<Option<string>>, b: seq<Option<string>>)
    ensures Accumulated(a + b) == Accumulated(a) + Accumulated(b)
    decreases |b|
  {
    if b == [] {
      assert a + b == a;
    } else {
      var init, last := b[..|b| - 1], b[|b| - 1];
      FrontLast(b);
      ConcatAssoc(a, init, [last]);
      AccumulatedConcat(a, init);
      AccumulatedSnoc(a + init, last);
      AccumulatedSnoc(init, last);
      ConcatAssoc(Accumulated(a), Accumulated(init), PageContribution(last));
    }
  }

  /** A page whose extraction failed contributes nothing, wherever it stands. */
  lemma FailedPageContributesNothing(a: seq<Option<string>>, b: seq<Option<string>>)
    ensures Accumulated(a + [None] + b) == Accumulated(a + b)
  {
    AccumulatedConcat(a + [None], b);
    AccumulatedSnoc(a, None);
    AccumulatedConcat(a, b);
  }

  /** The accumulated text around page `k`: what precedes it, its contribution, what follows. */
  lemma AccumulatedAround(pages: seq<Option<string>>, k: nat)
    requires k < |pages|
    ensures Accumulated(pages) == Accumulated(pages[..k]) + PageContribution(pages[k]) + Accumulated(pages[k + 1..])
  {
    SplitAround(pages, k);
    AccumulatedConcat(pages[..k] + [pages[k]], pages[k + 1..]);
    AccumulatedSnoc(pages[..k], pages[k]);
  }

  /** One page with a non-whitespace character makes extraction succeed. */
  lemma PageWithTextSucceeds(pages: seq<Option<string>>, k: nat, j: nat)
    requires k < |pages| && pages[k].Some?
    requires j < |pages[k].value| && !IsSpace(pages[k].value[j])
    ensures ExtractedText(Pages(pages)).Success?
  {
    var acc := Accumulated(pages);
    var contribution := PageContribution(pages[k]);
    AccumulatedAround(pages, k);
    assert contribution[j] == pages[k].value[j];
    NotAllSpaceInside(Accumulated(pages[..k]), contribution, Accumulated(pages[k + 1..]), j);
    StripEmptyIff(acc);
  }

  /**
   * Pages that are unreadable or hold only whitespace (an image-only scan yields "" per page) give
   * the no-text error. With PageWithTextSucceeds: extraction succeeds exactly when some readable
   * page holds a non-whitespace character.
   */
  lemma {:induction false} BlankPagesMeanNoText(pages: seq<Option<string>>)
    requires forall k :: 0 <= k < |pages| && pages[k].Some? ==> AllSpace(pages[k].value)
    ensures AllSpace(Accumulated(pages))
    ensures ExtractedText(Pages(pages)) == Failure(NoText)
    decreases |pages|
  {
    if pages != [] {
      var init, last := pages[..|pages| - 1], pages[|pages| - 1];
      BlankPagesMeanNoText(init);
      FrontLast(pages);
      AccumulatedSnoc(init, last);
      if last.Some? {
        assert AllSpace("\n");
        AllSpaceConcat(last.value, "\n");
      }
      AllSpaceConcat(Accumulated(init), PageContribution(last));
    }
  }
}
