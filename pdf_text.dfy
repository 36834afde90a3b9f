/** The page loop of `extractTextFromPdf`. A document, as pdf.js would open
    it, is given as its pages, each page the `str` values of its text items
    in order. At most the first 10 pages are read; each page's items are
    joined with one space and the page text is followed by a blank line. */
module PdfText {
  import opened Results

  const MaxPages: nat := 10
  const ReadFailure: string := "Failed to read file"
  const LibraryMissing: string := "PDF.js library not loaded"

  function Min(a: nat, b: nat): nat {
    if a <= b then a else b
  }

  /** `items.join(sep)`. */
  function Join(items: seq<string>, sep: string): string {
    if |items| == 0 then ""
    else if |items| == 1 then items[0]
    else Join(items[..|items| - 1], sep) + sep + items[|items| - 1]
  }

  /** The sum of the lengths of the strings. */
  function TotalLength(items: seq<string>): nat {
    if items == [] then 0 else TotalLength(items[..|items| - 1]) + |items[|items| - 1]|
  }

  /** The text of one page: its items joined with a single space. */
  function PageText(items: seq<string>): string {
    Join(items, " ")
  }

  /** What the loop has accumulated after reading `pages`, in order. */
  function PagesText(pages: seq<seq<string>>): string {
    if pages == [] then ""
    else PagesText(pages[..|pages| - 1]) + PageText(pages[|pages| - 1]) + "\n\n"
  }

  /** The sum of the page-text lengths. */
  function PageTextLengths(pages: seq<seq<string>>): nat {
    if pages == [] then 0 else PageTextLengths(pages[..|pages| - 1]) + |PageText(pages[|pages| - 1])|
  }

  /** What `extractTextFromPdf` resolves to, or the error it rejects with.
      `fileRead` is the FileReader's outcome, `libraryLoaded` whether
      `window.pdfjsLib` exists, `document` the outcome of opening the file
      with pdf.js (its pages, or the error pdf.js rejects with). */
  function ExtractText(fileRead: bool, libraryLoaded: bool, document: Result<seq<seq<string>>>): Result<string> {
    if !fileRead then Err(ReadFailure)
    else if !libraryLoaded then Err(LibraryMissing)
    else match document
      case Err(e) => Err(e)
      case Ok(pages) => Ok(PagesText(pages[..Min(|pages|, MaxPages)]))
  }

  /** The extraction with its page loop: pages 1..maxPages, one at a time. */
  method ExtractTextFromPdf(fileRead: bool, libraryLoaded: bool, document: Result<seq<seq<string>>>)
    returns (r: Result<string>)
    ensures r == ExtractText(fileRead, libraryLoaded, document)
  {
    if !fileRead {
      return Err(ReadFailure);
    }
    if !libraryLoaded {
      return Err(LibraryMissing);
    }
    if document.Err? {
      return Err(document.message);
    }
    var pdf := document.value;
    var fullText := "";
    var maxPages := Min(|pdf|, MaxPages);
    for i := 1 to maxPages + 1
      invariant fullText == PagesText(pdf[..i - 1])
    {
      var page := pdf[i - 1];
      var pageText := PageText(page);
      assert pdf[..i] == pdf[..i - 1] + [page];
      fullText := fullText + pageText + "\n\n";
    }
    r := Ok(fullText);
  }

  // ---------------------------------------------------------------------
  // Properties of the assembly

  /** A page of n >= 1 items has the items' lengths plus n - 1 separators. */
  lemma {:induction false} PageTextLength(items: seq<string>)
    ensures |PageText(items)| == if items == [] then 0 else TotalLength(items) + |items| - 1
  {
    if |items| > 1 {
      PageTextLength(items[..|items| - 1]);
    } else if |items| == 1 {
      assert items[..0] == [];
    }
  }

  /** Joining splits at any inner item: the items before it, one separator,
      the items from it on. */
  lemma {:induction false} JoinSplit(items: seq<string>, sep: string, k: nat)
    requires 0 < k < |items|
    ensures Join(items, sep) == Join(items[..k], sep) + sep + Join(items[k..], sep)
    decreases |items|
  {
    var n := |items|;
    if k < n - 1 {
      JoinSplit(items[..n - 1], sep, k);
      assert items[..n - 1][..k] == items[..k];
      assert items[k..][..|items[k..]| - 1] == items[..n - 1][k..];
    } else {
      assert items[k..] == [items[n - 1]];
    }
  }

  /** Reading pages `a` then pages `b` gives their texts one after the other. */
  lemma {:induction false} PagesTextAppend(a: seq<seq<string>>, b: seq<seq<string>>)
    ensures PagesText(a + b) == PagesText(a) + PagesText(b)
    decreases |b|
  {
    if b == [] {
      assert a + b == a;
    } else {
      var n := |b|;
      assert (a + b)[..|a + b| - 1] == a + b[..n - 1];
      PagesTextAppend(a, b[..n - 1]);
    }
  }

  /** Page i contributes exactly its page text and a blank line, after the
      text of the pages before it and before the text of the pages after it. */
  lemma PageContribution(pages: seq<seq<string>>, i: nat)
    requires i < |pages|
    ensures PagesText(pages) == PagesText(pages[..i]) + PageText(pages[i]) + "\n\n" + PagesText(pages[i + 1..])
  {
    var front, after := pages[..i + 1], pages[i + 1..];
    assert pages == front + after;
    PagesTextAppend(front, after);
    assert front[..i] == pages[..i];
  }

  /** The text is as long as the page texts plus two characters per page. */
  lemma {:induction false} PagesTextLength(pages: seq<seq<string>>)
    ensures |PagesText(pages)| == PageTextLengths(pages) + 2 * |pages|
  {
    if pages != [] {
      PagesTextLength(pages[..|pages| - 1]);
    }
  }

  /** Pages after the tenth never affect the result; with at most ten pages
      every page is read; a document without pages gives the empty text. */
  lemma ExtractTextPages(pages: seq<seq<string>>, extra: seq<seq<string>>)
    ensures |pages| >= MaxPages ==>
              ExtractText(true, true, Ok(pages + extra)) == ExtractText(true, true, Ok(pages))
    ensures |pages| <= MaxPages ==> ExtractText(true, true, Ok(pages)) == Ok(PagesText(pages))
    ensures ExtractText(true, true, Ok([])) == Ok("")
    ensures ExtractText(true, true, Ok(pages)).Ok? &&
            |ExtractText(true, true, Ok(pages)).value| ==
              PageTextLengths(pages[..Min(|pages|, MaxPages)]) + 2 * Min(|pages|, MaxPages)
  {
    if |pages| >= MaxPages {
      assert (pages + extra)[..MaxPages] == pages[..MaxPages];
    } else {
      assert pages[..|pages|] == pages;
    }
    PagesTextLength(pages[..Min(|pages|, MaxPages)]);
  }

  /** Without the file's bytes or without pdf.js there is no text. */
  lemma ExtractTextErrors(libraryLoaded: bool, document: Result<seq<seq<string>>>)
    ensures ExtractText(false, libraryLoaded, document) == Err(ReadFailure)
    ensures ExtractText(true, false, document) == Err(LibraryMissing)
    ensures document.Err? ==> ExtractText(true, true, document) == Err(document.message)
  {
  }
}
