/** Text extraction (`extract_text` in AI.py): path clean-up, the existence
    check, dispatch on the file extension, and the way each extractor glues
    the pieces its parsing library hands back. The parsing libraries and the
    file system are parameters: `onDisk` answers `os.path.exists`, and a
    `Readers` value gives what each library yields for a path. */
module Extraction {
  import opened Results
  import opened PyStr

  /** The four formats `extract_text` knows. */
  datatype Format = Pdf | Docx | Pptx | Txt

  /** Why extraction raised. */
  datatype ExtractError =
    | FileNotFound(path: string)          // `FileNotFoundError`
    | UnsupportedFormat(fileType: string) // `ValueError("Unsupported file format: ...")`
    | ReadFailed(format: Format, path: string) // the parsing library itself raised

  /** What each parsing library yields for a path, `None` when it raises:
      the per-page text of a PDF (a page may have no text, `None`), the
      paragraph texts of a DOCX, per slide the texts of the text-bearing
      shapes of a PPTX, and the decoded contents of a plain-text file. */
  datatype Readers = Readers(
    pdfPages: string -> Option<seq<Option<string>>>,
    docxParagraphs: string -> Option<seq<string>>,
    pptxSlides: string -> Option<seq<seq<string>>>,
    txtContents: string -> Option<string>)

  /** The extension names, one per format. */
  function ExtensionName(f: Format): string {
    match f
    case Pdf => "pdf"
    case Docx => "docx"
    case Pptx => "pptx"
    case Txt => "txt"
  }

  /** The extensions `extract_text` can handle. */
  const Extensions: set<string> := {"pdf", "docx", "pptx", "txt"}

  /** The format a file type selects, if any. Exactly the four extension
      names select a format, and each selects the one it names. */
  function FormatOf(fileType: string): (r: Option<Format>)
    ensures r.Some? <==> fileType in Extensions
    ensures r.Some? ==> ExtensionName(r.value) == fileType
  {
    if fileType == "pdf" then Some(Pdf)
    else if fileType == "docx" then Some(Docx)
    else if fileType == "pptx" then Some(Pptx)
    else if fileType == "txt" then Some(Txt)
    else None
  }

  /** Every format is selected by its own extension name, so dispatch reaches
      each of the four extractors. */
  lemma FormatOfExtensionName(f: Format)
    ensures FormatOf(ExtensionName(f)) == Some(f)
  {
  }

  /** The argument of `strip('"')`. */
  predicate IsDoubleQuote(c: char) {
    c == '"'
  }

  /** The argument of `strip("'")`. */
  predicate IsSingleQuote(c: char) {
    c == '\''
  }

  /** The characters that path normalization can remove: whitespace and both
      quote kinds. */
  predicate IsPathNoise(c: char) {
    IsSpace(c) || IsDoubleQuote(c) || IsSingleQuote(c)
  }

  /** `file_path.strip().strip('"').strip("'")`. */
  function NormalizePath(path: string): string {
    Strip(Strip(Trim(path), IsDoubleQuote), IsSingleQuote)
  }

  /** The normalized path is a contiguous piece of the original path; only
      whitespace and quote characters are removed, and only from the two
      ends; and it neither starts nor ends with a single quote. */
  lemma NormalizePathBounds(path: string) returns (i: nat, j: nat)
    ensures i <= j <= |path| && NormalizePath(path) == path[i..j]
    ensures forall k :: 0 <= k < i ==> IsPathNoise(path[k])
    ensures forall k :: j <= k < |path| ==> IsPathNoise(path[k])
    ensures var r := NormalizePath(path); r != [] ==> r[0] != '\'' && r[|r| - 1] != '\''
  {
    i, j := Strip3Bounds(path, IsSpace, IsDoubleQuote, IsSingleQuote);
  }

  /** The three strips run in order: whitespace, then double quotes, then
      single quotes, each only at the ends left by the one before. */
  lemma NormalizeStripsInOrder()
    ensures NormalizePath(" \"'a.pdf'\" ") == "a.pdf"
  {
    TrimExampleStep();
    DoubleQuoteExampleStep();
    SingleQuoteExampleStep();
  }

  /** First step of the example: the whitespace strip removes only the
      outer spaces. */
  lemma TrimExampleStep()
    ensures Trim(" \"'a.pdf'\" ") == "\"'a.pdf'\""
  {
    var s := " \"'a.pdf'\" ";
    StripExact(s, IsSpace, 1, 10);
    assert s[1..10] == "\"'a.pdf'\"";
  }

  /** Second step: the double-quote strip removes the now outermost double
      quotes. */
  lemma DoubleQuoteExampleStep()
    ensures Strip("\"'a.pdf'\"", IsDoubleQuote) == "'a.pdf'"
  {
    var s := "\"'a.pdf'\"";
    StripExact(s, IsDoubleQuote, 1, 8);
    assert s[1..8] == "'a.pdf'";
  }

  /** Third step: the single-quote strip removes the single quotes left
      inside. */
  lemma SingleQuoteExampleStep()
    ensures Strip("'a.pdf'", IsSingleQuote) == "a.pdf"
  {
    var s := "'a.pdf'";
    StripExact(s, IsSingleQuote, 1, 6);
    assert s[1..6] == "a.pdf";
  }

  /** Because of that order, double quotes inside single quotes survive:
      the double-quote strip runs before the single quotes are gone. */
  lemma NormalizeKeepsInnerDoubleQuotes()
    ensures NormalizePath("'\"a.pdf\"'") == "\"a.pdf\""
  {
    QuotedTrimStep();
    QuotedDoubleQuoteStep();
    QuotedSingleQuoteStep();
  }

  /** First step of the example: there is no whitespace to strip. */
  lemma QuotedTrimStep()
    ensures Trim("'\"a.pdf\"'") == "'\"a.pdf\"'"
  {
    var t := "'\"a.pdf\"'";
    StripExact(t, IsSpace, 0, 9);
    assert t[0..9] == t;
  }

  /** Second step: the name starts and ends with a single quote, so the
      double-quote strip removes nothing. */
  lemma QuotedDoubleQuoteStep()
    ensures Strip("'\"a.pdf\"'", IsDoubleQuote) == "'\"a.pdf\"'"
  {
    var t := "'\"a.pdf\"'";
    StripExact(t, IsDoubleQuote, 0, 9);
    assert t[0..9] == t;
  }

  /** Third step: the single-quote strip exposes the inner double quotes,
      which stay. */
  lemma QuotedSingleQuoteStep()
    ensures Strip("'\"a.pdf\"'", IsSingleQuote) == "\"a.pdf\""
  {
    var t := "'\"a.pdf\"'";
    StripExact(t, IsSingleQuote, 1, 8);
    assert t[1..8] == "\"a.pdf\"";
  }

  /** `file_path.split(".")[-1].lower()`: the lower-cased text after the last
      dot, or the whole lower-cased path when it has no dot. */
  function FileType(path: string): string {
    Lower(LastField(path, '.'))
  }

  /** A path without a dot is its own file type: a file named `pdf` is read as
      a PDF. */
  lemma DotlessPathIsItsOwnType()
    ensures FileType("pdf") == "pdf" && FormatOf(FileType("pdf")) == Some(Pdf)
  {
    assert LastField("pdf", '.') == "pdf";
  }

  /** `page_text` is truthy: the page yielded a non-empty text. */
  predicate HasText(page: Option<string>) {
    page.Some? && page.value != []
  }

  /** The texts of the pages that have one, in page order. */
  function PresentTexts(pages: seq<Option<string>>): (r: seq<string>)
    ensures |r| <= |pages|
    ensures forall k :: 0 <= k < |r| ==> r[k] != []
    ensures (forall k :: 0 <= k < |pages| ==> HasText(pages[k])) ==>
      |r| == |pages| && forall k :: 0 <= k < |pages| ==> r[k] == pages[k].value
  {
    if |pages| == 0 then []
    else if HasText(pages[0]) then [pages[0].value] + PresentTexts(pages[1..])
    else PresentTexts(pages[1..])
  }

  /** A single page contributes its text exactly when it has one. */
  lemma PresentTextsSingle(page: Option<string>)
    ensures PresentTexts([page]) == if HasText(page) then [page.value] else []
  {
    assert [page][1..] == [];
  }

  /** Pages are filtered one by one: the kept texts of two runs of pages are
      those of the first run followed by those of the second. With
      `PresentTextsSingle` this fixes `PresentTexts` on every input. */
  lemma {:induction false} PresentTextsAppend(a: seq<Option<string>>, b: seq<Option<string>>)
    ensures PresentTexts(a + b) == PresentTexts(a) + PresentTexts(b)
    decreases |a|
  {
    if |a| == 0 {
      assert a + b == b;
    } else {
      assert (a + b)[0] == a[0];
      assert (a + b)[1..] == a[1..] + b;
      PresentTextsAppend(a[1..], b);
    }
  }

  /** The text `extract_pdf_text` accumulates before stripping: each page
      with text contributes it followed by a newline; the others nothing. */
  function PdfBody(pages: seq<Option<string>>): string {
    if |pages| == 0 then []
    else (if HasText(pages[0]) then pages[0].value + "\n" else []) + PdfBody(pages[1..])
  }

  /** `extract_pdf_text` on the pages' texts. */
  function PdfText(pages: seq<Option<string>>): string {
    Trim(PdfBody(pages))
  }

  /** `extract_docx_text` on the paragraphs' texts. */
  function DocxText(paragraphs: seq<string>): string {
    Trim(Join("\n", paragraphs))
  }

  /** The text `extract_pptx_text` accumulates before stripping: every
      text-bearing shape of every slide, each followed by a newline. */
  function PptxBody(slides: seq<seq<string>>): string {
    if |slides| == 0 then [] else Terminated(slides[0], "\n") + PptxBody(slides[1..])
  }

  /** `extract_pptx_text` on the slides' shape texts. */
  function PptxText(slides: seq<seq<string>>): string {
    Trim(PptxBody(slides))
  }

  /** The PDF accumulator is the newline-terminated list of the pages that
      have text. */
  lemma {:induction false} PdfBodyTerminatesPresentTexts(pages: seq<Option<string>>)
    ensures PdfBody(pages) == Terminated(PresentTexts(pages), "\n")
  {
    if |pages| > 0 {
      PdfBodyTerminatesPresentTexts(pages[1..]);
    }
  }

  /** A stripped newline-terminated list is the stripped newline join. */
  lemma TerminatedThenTrimmed(parts: seq<string>)
    ensures Trim(Terminated(parts, "\n")) == Trim(Join("\n", parts))
  {
    if |parts| > 0 {
      TerminatedIsJoinPlusTerm(parts, "\n");
      StripDropsTrailing(Join("\n", parts), '\n', IsSpace);
    }
  }

  /** A PDF reads as the DOCX-style newline join of the pages that have text:
      pages without text are dropped, none is repeated or reordered. */
  lemma PdfTextIsJoinOfPresentPages(pages: seq<Option<string>>)
    ensures PdfText(pages) == DocxText(PresentTexts(pages))
  {
    PdfBodyTerminatesPresentTexts(pages);
    TerminatedThenTrimmed(PresentTexts(pages));
  }

  /** An empty page between two pages leaves no empty line behind in a
      PDF ... */
  lemma PdfEmptyPageLeavesNoGap(a: string, b: string)
    requires a != [] && b != []
    ensures PdfText([Some(a), Some([]), Some(b)]) == Trim(a + "\n" + b)
  {
    var pages := [Some(a), Some([]), Some(b)];
    PdfTextIsJoinOfPresentPages(pages);
    assert pages[1..][1..] == [Some(b)] && [Some(b)][1..] == [];
    assert PresentTexts([Some(b)]) == [b];
    assert PresentTexts(pages[1..]) == [b];
    assert PresentTexts(pages) == [a, b];
    assert [a, b][1..] == [b];
    assert Join("\n", [a, b]) == a + "\n" + b;
  }

  /** ... while an empty paragraph between two paragraphs does leave one in
      a DOCX. */
  lemma DocxEmptyParagraphLeavesGap(a: string, b: string)
    ensures DocxText([a, [], b]) == Trim(a + "\n\n" + b)
  {
    var paragraphs := [a, [], b];
    assert paragraphs[1..] == [[], b] && [[], b][1..] == [b];
    assert Join("\n", [[], b]) == "\n" + b;
    assert Join("\n", paragraphs) == a + "\n" + ("\n" + b);
    assert a + "\n" + ("\n" + b) == a + "\n\n" + b;
  }

  /** All slides' shape texts, in slide order. */
  function Flatten(slides: seq<seq<string>>): seq<string> {
    if |slides| == 0 then [] else slides[0] + Flatten(slides[1..])
  }

  /** Terminating a concatenation terminates each half. */
  lemma {:induction false} TerminatedAppend(a: seq<string>, b: seq<string>, term: string)
    ensures Terminated(a + b, term) == Terminated(a, term) + Terminated(b, term)
  {
    if |a| == 0 {
      assert a + b == b;
    } else {
      assert (a + b)[0] == a[0];
      assert (a + b)[1..] == a[1..] + b;
      TerminatedAppend(a[1..], b, term);
    }
  }

  /** A PPTX reads as the newline join of all its shape texts across slides. */
  lemma {:induction false} PptxTextIsJoinOfShapes(slides: seq<seq<string>>)
    ensures PptxBody(slides) == Terminated(Flatten(slides), "\n")
    ensures PptxText(slides) == DocxText(Flatten(slides))
  {
    if |slides| > 0 {
      PptxTextIsJoinOfShapes(slides[1..]);
      TerminatedAppend(slides[0], Flatten(slides[1..]), "\n");
    }
    TerminatedThenTrimmed(Flatten(slides));
  }

  /** The extractor for one format, applied to a normalized path: it fails
      only when its own library raises, and then names that format and path. */
  function ReadAs(f: Format, path: string, readers: Readers): (r: Result<string, ExtractError>)
    ensures r.Err? <==> !SucceedsAt(f, readers, path)
    ensures r.Err? ==> r.error == ReadFailed(f, path)
  {
    match f
    case Pdf =>
      (match readers.pdfPages(path)
       case Some(pages) => Ok(PdfText(pages))
       case None => Err(ReadFailed(Pdf, path)))
    case Docx =>
      (match readers.docxParagraphs(path)
       case Some(paragraphs) => Ok(DocxText(paragraphs))
       case None => Err(ReadFailed(Docx, path)))
    case Pptx =>
      (match readers.pptxSlides(path)
       case Some(slides) => Ok(PptxText(slides))
       case None => Err(ReadFailed(Pptx, path)))
    case Txt =>
      (match readers.txtContents(path)
       case Some(contents) => Ok(contents)
       case None => Err(ReadFailed(Txt, path)))
  }

  /** `extract_text` from the existence check on, given the normalized path
      `p`. A missing file is reported before the extension is looked at, so
      it wins over an unsupported extension; an existing file with an unknown
      type is unsupported; otherwise the one extractor for the type runs. */
  function ExtractNormalized(p: string, onDisk: string -> bool, readers: Readers): (r: Result<string, ExtractError>)
    ensures !onDisk(p) ==> r == Err(FileNotFound(p))
    ensures onDisk(p) && FileType(p) !in Extensions ==> r == Err(UnsupportedFormat(FileType(p)))
    ensures r.Ok? ==> onDisk(p) && FileType(p) in Extensions && SucceedsAt(FormatOf(FileType(p)).value, readers, p)
    ensures r.Err? && r.error.ReadFailed? ==>
      r.error.path == p && ExtensionName(r.error.format) == FileType(p) && !SucceedsAt(r.error.format, readers, p)
  {
    if !onDisk(p) then Err(FileNotFound(p))
    else
      var fileType := FileType(p);
      match FormatOf(fileType)
      case None => Err(UnsupportedFormat(fileType))
      case Some(f) => ReadAs(f, p, readers)
  }

  /** `extract_text`: only the normalized path is ever probed or read. */
  function ExtractText(path: string, onDisk: string -> bool, readers: Readers): (r: Result<string, ExtractError>)
    ensures !onDisk(NormalizePath(path)) ==> r == Err(FileNotFound(NormalizePath(path)))
    ensures r.Ok? ==> onDisk(NormalizePath(path)) && FileType(NormalizePath(path)) in Extensions
  {
    ExtractNormalized(NormalizePath(path), onDisk, readers)
  }

  /** The library for `f` returns (does not raise) on `path`. */
  predicate SucceedsAt(f: Format, readers: Readers, path: string) {
    match f
    case Pdf => readers.pdfPages(path).Some?
    case Docx => readers.docxParagraphs(path).Some?
    case Pptx => readers.pptxSlides(path).Some?
    case Txt => readers.txtContents(path).Some?
  }

  /** Two sets of readers that agree on what the extractor for `f` yields at
      `path`. */
  predicate SameReaderAt(f: Format, a: Readers, b: Readers, path: string) {
    match f
    case Pdf => a.pdfPages(path) == b.pdfPages(path)
    case Docx => a.docxParagraphs(path) == b.docxParagraphs(path)
    case Pptx => a.pptxSlides(path) == b.pptxSlides(path)
    case Txt => a.txtContents(path) == b.txtContents(path)
  }

  /** Dispatch reaches exactly one extractor: once the file type selects a
      format, the other three libraries cannot influence the result. */
  lemma DispatchUsesOnlyItsReader(p: string, onDisk: string -> bool, a: Readers, b: Readers)
    requires FormatOf(FileType(p)).Some?
    requires SameReaderAt(FormatOf(FileType(p)).value, a, b, p)
    ensures ExtractNormalized(p, onDisk, a) == ExtractNormalized(p, onDisk, b)
  {
    var f := FormatOf(FileType(p)).value;
    assert ReadAs(f, p, a) == ReadAs(f, p, b);
  }

  /** An existing file of type `pdf` is read by the PDF extractor: its text
      is the PDF text of the pages the library yields. */
  lemma ExtractPdf(p: string, onDisk: string -> bool, readers: Readers, pages: seq<Option<string>>)
    requires onDisk(p) && FileType(p) == "pdf" && readers.pdfPages(p) == Some(pages)
    ensures ExtractNormalized(p, onDisk, readers) == Ok(PdfText(pages))
  {
    var t := FileType(p);
    assert FormatOf(t) == FormatOf("pdf") == Some(Pdf);
  }

  /** An existing file of type `docx` is read by the DOCX extractor. */
  lemma ExtractDocx(p: string, onDisk: string -> bool, readers: Readers, paragraphs: seq<string>)
    requires onDisk(p) && FileType(p) == "docx" && readers.docxParagraphs(p) == Some(paragraphs)
    ensures ExtractNormalized(p, onDisk, readers) == Ok(DocxText(paragraphs))
  {
    var t := FileType(p);
    assert FormatOf(t) == FormatOf("docx") == Some(Docx);
  }

  /** An existing file of type `pptx` is read by the PPTX extractor. */
  lemma ExtractPptx(p: string, onDisk: string -> bool, readers: Readers, slides: seq<seq<string>>)
    requires onDisk(p) && FileType(p) == "pptx" && readers.pptxSlides(p) == Some(slides)
    ensures ExtractNormalized(p, onDisk, readers) == Ok(PptxText(slides))
  {
    var t := FileType(p);
    assert FormatOf(t) == FormatOf("pptx") == Some(Pptx);
  }

  /** An existing file of type `txt` yields its decoded contents unchanged,
      not stripped. */
  lemma ExtractTxt(p: string, onDisk: string -> bool, readers: Readers, contents: string)
    requires onDisk(p) && FileType(p) == "txt" && readers.txtContents(p) == Some(contents)
    ensures ExtractNormalized(p, onDisk, readers) == Ok(contents)
  {
    var t := FileType(p);
    assert FormatOf(t) == FormatOf("txt") == Some(Txt);
  }

  /** Two sets of readers that agree on what every library yields at `path`. */
  predicate ReadersAgreeAt(a: Readers, b: Readers, path: string) {
    && a.pdfPages(path) == b.pdfPages(path)
    && a.docxParagraphs(path) == b.docxParagraphs(path)
    && a.pptxSlides(path) == b.pptxSlides(path)
    && a.txtContents(path) == b.txtContents(path)
  }

  /** One extractor gives the same result with libraries that agree at
      the path. */
  lemma ReadAsAgrees(f: Format, p: string, a: Readers, b: Readers)
    requires ReadersAgreeAt(a, b, p)
    ensures ReadAs(f, p, a) == ReadAs(f, p, b)
  {
    match f
    case Pdf =>
    case Docx =>
    case Pptx =>
    case Txt =>
  }

  /** Only the normalized path is probed and read: file systems and libraries
      that agree there give the same result, whatever they say about the raw
      path or any other. */
  lemma ExtractTextProbesOnlyNormalized(path: string, d1: string -> bool, d2: string -> bool, a: Readers, b: Readers)
    requires d1(NormalizePath(path)) == d2(NormalizePath(path))
    requires ReadersAgreeAt(a, b, NormalizePath(path))
    ensures ExtractText(path, d1, a) == ExtractText(path, d2, b)
  {
    var p := NormalizePath(path);
    var t := FileType(p);
    if d1(p) && FormatOf(t).Some? {
      ReadAsAgrees(FormatOf(t).value, p, a, b);
    }
  }

  /** A stripped text is never blank unless it is empty. */
  lemma TrimmedIsNotBlank(s: string)
    ensures Trim(s) != [] ==> !IsBlank(Trim(s))
  {
    StripIdempotent(s, IsSpace);
  }

  /** The PDF, DOCX and PPTX extractors strip their result, so what they read
      is never non-empty yet all whitespace. */
  lemma StrippedReaderNotBlank(f: Format, p: string, readers: Readers)
    requires f != Txt
    ensures var r := ReadAs(f, p, readers);
      r.Ok? && r.value != [] ==> !IsBlank(r.value)
  {
    match f
    case Pdf =>
      if readers.pdfPages(p).Some? { TrimmedIsNotBlank(PdfBody(readers.pdfPages(p).value)); }
    case Docx =>
      if readers.docxParagraphs(p).Some? { TrimmedIsNotBlank(Join("\n", readers.docxParagraphs(p).value)); }
    case Pptx =>
      if readers.pptxSlides(p).Some? { TrimmedIsNotBlank(PptxBody(readers.pptxSlides(p).value)); }
  }

  /** Only a `txt` file can yield text that is non-empty yet all whitespace. */
  lemma BlankTextOnlyFromTxt(path: string, onDisk: string -> bool, readers: Readers)
    ensures var r := ExtractText(path, onDisk, readers);
      r.Ok? && r.value != [] && IsBlank(r.value) ==> FileType(NormalizePath(path)) == "txt"
  {
    var p := NormalizePath(path);
    var t := FileType(p);
    var r := ExtractText(path, onDisk, readers);
    if r.Ok? {
      assert onDisk(p) && FormatOf(t).Some?;
      var f := FormatOf(t).value;
      assert r == ReadAs(f, p, readers);
      if f != Txt {
        StrippedReaderNotBlank(f, p, readers);
      }
    }
  }
}
