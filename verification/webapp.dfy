/** The web front end (app.py): the upload filter `allowed_file` and the
    `POST /summarize` handler, as a pure decision from the submitted form to
    the JSON reply and its status. Saving the upload and calling the
    extractor become one parameter, `extract`; the completion service and
    the splitter are passed through to the pipeline, so the handler's
    backend calls are part of what it decides. */
module WebApp {
  import opened Results
  import opened PyStr
  import opened Extraction
  import opened Tiers
  import opened Pipeline

  /** `ALLOWED_EXTENSIONS`. */
  const AllowedExtensions: set<string> := {"pdf", "docx", "pptx", "txt"}

  /** The upload filter and the extractor's `if / elif` chain (AI.py) keep
      separate copies of the same four extensions. */
  lemma ExtensionSetsAgree()
    ensures AllowedExtensions == Extensions
  {
  }

  /** The shortest text the handler will summarize. */
  const MinLength: nat := 20

  const InvalidType: string := "Invalid summary type"
  const UnsupportedType: string := "Unsupported file type"
  const TooShort: string := "Text too short to summarize"
  const InternalError: string := "Internal summarization error"

  /** `allowed_file(filename)`: the name has a dot, and the text after its
      last dot, lower-cased, is an allowed extension. */
  function AllowedFile(filename: string): (b: bool)
    ensures b ==> '.' in filename
  {
    '.' in filename && Lower(LastField(filename, '.')) in AllowedExtensions
  }

  /** The extension `allowed_file` checks is the text after the last dot:
      a name is allowed exactly when some dot, with no dot after it, is
      followed by an allowed extension (in any letter case). */
  lemma AllowedFileIff(filename: string)
    ensures AllowedFile(filename) <==>
      exists i :: 0 <= i < |filename| && filename[i] == '.' && '.' !in filename[i + 1..] &&
        Lower(filename[i + 1..]) in AllowedExtensions
  {
    if AllowedFile(filename) {
      var i := LastSepPosition(filename, '.');
    }
    if exists i :: 0 <= i < |filename| && filename[i] == '.' && '.' !in filename[i + 1..] &&
        Lower(filename[i + 1..]) in AllowedExtensions {
      var i :| 0 <= i < |filename| && filename[i] == '.' && '.' !in filename[i + 1..] &&
        Lower(filename[i + 1..]) in AllowedExtensions;
      LastFieldAfterLastSep(filename, '.', i);
    }
  }

  /** On one and the same string the two checks agree in this direction: a
      name `allowed_file` accepts has a file type, taken the way
      `extract_text` takes it, that selects a format. The handler extracts
      a different string, the sanitized name under the upload folder, so
      this is a fact about the two functions, not about the request. */
  lemma AllowedFileIsExtractable(filename: string)
    requires AllowedFile(filename)
    ensures FormatOf(FileType(filename)).Some?
    ensures ExtensionName(FormatOf(FileType(filename)).value) == Lower(LastField(filename, '.'))
  {
  }

  /** On one and the same string the converse fails: `allowed_file` refuses
      the dotless string `pdf`, which `extract_text` given that string would
      read as a PDF. */
  lemma DotlessNameRefusedButExtractable()
    ensures !AllowedFile("pdf") && FormatOf(FileType("pdf")) == Some(Pdf)
  {
    DotlessPathIsItsOwnType();
  }

  /** The form fields the handler reads: `summary_type`, the name of the
      `file` part when there is one, and `text_input`. */
  datatype Form = Form(summaryType: Option<string>, file: Option<string>, textInput: Option<string>)

  /** Saving an upload under the given client file name and running the
      extractor on the saved copy. */
  type Extractor = string -> Result<string, ExtractError>

  /** The JSON reply: an error object with its status, or the success object
      (status 200). */
  datatype Response =
    | ErrorReply(status: nat, message: string)
    | SummaryReply(summary: string, summaryType: string, originalLength: nat, summaryLength: nat)

  /** The reply, whether the extractor was run, and the completion calls
      issued. */
  datatype Handling = Handling(response: Response, extracted: bool, calls: seq<Request>)

  /** The `summary_type` field, `"medium"` when it is absent. */
  function SummaryType(form: Form): string {
    form.summaryType.GetOr("medium")
  }

  /** A non-empty file name was submitted. */
  predicate HasUpload(form: Form) {
    form.file.Some? && form.file.value != []
  }

  /** The text to summarize, once the summary type and the upload's name
      have been accepted: the extracted text when the upload gives a
      non-empty one, otherwise the stripped `text_input` field. Extracted
      text is not stripped. */
  function SourceText(form: Form, extract: Extractor): (r: Result<string, ExtractError>)
    ensures r.Err? <==> HasUpload(form) && extract(form.file.value).Err?
    ensures r.Ok? && HasUpload(form) && extract(form.file.value).value != [] ==>
      r.value == extract(form.file.value).value
    ensures r.Ok? && !(HasUpload(form) && extract(form.file.value).value != []) ==>
      r.value == Trim(form.textInput.GetOr([]))
  {
    var fromFile := if HasUpload(form) then extract(form.file.value) else Ok([]);
    match fromFile
    case Err(e) => Err(e)
    case Ok(t) => if t != [] then Ok(t) else Ok(Trim(form.textInput.GetOr([])))
  }

  /** The `if / elif / else` choice of summarizer: `"short"` and
      `"medium"` pick their tier and anything else the long one, which for a
      validated name is the tier it names. */
  function Dispatch(summaryType: string): (t: Tier)
    ensures summaryType in TierNames ==> TierName(t) == summaryType
  {
    if summaryType == "short" then Short
    else if summaryType == "medium" then Medium
    else Long
  }

  /** `POST /summarize`. The checks run in order: summary type, upload name,
      extraction, text length, and only then the pipeline; any exception
      becomes the generic 500 reply. */
  function Handle(form: Form, extract: Extractor, backend: Backend, split: Splitter): (h: Handling)
    ensures h.response.ErrorReply? ==> h.response.status == 400 || h.response.status == 500
    ensures h.extracted ==> HasUpload(form)
    ensures h.calls != [] ==> h.response.SummaryReply? || h.response == ErrorReply(500, InternalError)
    ensures h.response.SummaryReply? ==>
      && h.response.summaryType == SummaryType(form)
      && h.response.summaryType in TierNames
      && h.response.originalLength >= MinLength
      && h.response.summaryLength == |h.response.summary|
  {
    var st := SummaryType(form);
    if ParseTier(st).None? then Handling(ErrorReply(400, InvalidType), false, [])
    else if HasUpload(form) && !AllowedFile(form.file.value) then
      Handling(ErrorReply(400, UnsupportedType), false, [])
    else
      match SourceText(form, extract)
      case Err(_) => Handling(ErrorReply(500, InternalError), true, [])
      case Ok(text) =>
        if |text| < MinLength then Handling(ErrorReply(400, TooShort), HasUpload(form), [])
        else
          var run := SummaryFor(Dispatch(st), text, backend, split);
          match run.outcome
          case Err(_) => Handling(ErrorReply(500, InternalError), HasUpload(form), run.calls)
          case Ok(summary) =>
            Handling(SummaryReply(summary, st, |text|, |summary|), HasUpload(form), run.calls)
  }

  /** A form without `summary_type` is handled as one asking for `medium`. */
  lemma MissingTypeIsMedium(form: Form, extract: Extractor, backend: Backend, split: Splitter)
    ensures Handle(form.(summaryType := None), extract, backend, split)
         == Handle(form.(summaryType := Some("medium")), extract, backend, split)
  {
    var a := form.(summaryType := None);
    var b := form.(summaryType := Some("medium"));
    assert SummaryType(a) == SummaryType(b) == "medium";
    assert a.file == b.file && HasUpload(a) == HasUpload(b);
    assert SourceText(a, extract) == SourceText(b, extract);
  }

  /** The summary type is checked first: the reply is the invalid-type error
      exactly when the type is not one of the three tier names, and then
      nothing is extracted and no completion call is made. */
  lemma InvalidTypeCheckedFirst(form: Form, extract: Extractor, backend: Backend, split: Splitter)
    ensures var h := Handle(form, extract, backend, split);
      && (h.response == ErrorReply(400, InvalidType) <==> SummaryType(form) !in TierNames)
      && (SummaryType(form) !in TierNames ==> !h.extracted && h.calls == [])
  {
  }

  /** With a valid type, an upload whose name fails `allowed_file` is
      refused before it is read, and only such an upload is. */
  lemma UnsupportedUploadRefused(form: Form, extract: Extractor, backend: Backend, split: Splitter)
    requires SummaryType(form) in TierNames
    ensures var h := Handle(form, extract, backend, split);
      && (h.response == ErrorReply(400, UnsupportedType) <==> HasUpload(form) && !AllowedFile(form.file.value))
      && (h.response == ErrorReply(400, UnsupportedType) ==> !h.extracted && h.calls == [])
  {
  }

  /** Completion calls are made only for an accepted form whose text is at
      least 20 characters long; a shorter text is refused with no call. */
  lemma CallsOnlyForLongText(form: Form, extract: Extractor, backend: Backend, split: Splitter)
    ensures var h := Handle(form, extract, backend, split);
      && (h.calls != [] ==>
            && SummaryType(form) in TierNames
            && (HasUpload(form) ==> AllowedFile(form.file.value))
            && SourceText(form, extract).Ok?
            && |SourceText(form, extract).value| >= MinLength)
      && (h.response == ErrorReply(400, TooShort) <==>
            && SummaryType(form) in TierNames
            && !(HasUpload(form) && !AllowedFile(form.file.value))
            && SourceText(form, extract).Ok?
            && |SourceText(form, extract).value| < MinLength)
  {
  }

  /** The text input is a fallback: when the upload gives a non-empty text,
      the `text_input` field has no effect on the outcome. */
  lemma UploadTextTakesPrecedence(form: Form, other: Option<string>, extract: Extractor, backend: Backend, split: Splitter)
    requires HasUpload(form) && extract(form.file.value).Ok? && extract(form.file.value).value != []
    ensures Handle(form.(textInput := other), extract, backend, split) == Handle(form, extract, backend, split)
  {
    assert SourceText(form.(textInput := other), extract) == SourceText(form, extract);
  }

  /** A successful reply comes from running the pipeline, with the prompt
      of the tier the form named, on the accepted text. */
  lemma SuccessRunsTier(form: Form, extract: Extractor, backend: Backend, split: Splitter)
    returns (tier: Tier, text: string)
    ensures Handle(form, extract, backend, split).response.SummaryReply? ==>
      && TierName(tier) == SummaryType(form)
      && SourceText(form, extract) == Ok(text)
      && var run := Summarize(text, TierPrompt(tier), backend, split);
         && run.outcome.Ok?
         && Handle(form, extract, backend, split)
            == Handling(SummaryReply(run.outcome.value, SummaryType(form), |text|, |run.outcome.value|), HasUpload(form), run.calls)
  {
    tier, text := Medium, [];
    if Handle(form, extract, backend, split).response.SummaryReply? {
      var st := SummaryType(form);
      assert ParseTier(st).Some?;
      assert !(HasUpload(form) && !AllowedFile(form.file.value));
      assert SourceText(form, extract).Ok?;
      text := SourceText(form, extract).value;
      assert |text| >= MinLength;
      tier := Dispatch(st);
      assert SummaryFor(tier, text, backend, split) == Summarize(text, TierPrompt(tier), backend, split);
    }
  }

  /** A successful reply: the summary is the stripped answer to the last
      completion call, a synthesis call carrying the prompt of the tier the
      form named; the reported lengths are those of the summarized text and
      of the summary. */
  lemma SuccessfulReply(form: Form, extract: Extractor, backend: Backend, split: Splitter)
    returns (tier: Tier, text: string, answer: string)
    ensures var h := Handle(form, extract, backend, split);
      h.response.SummaryReply? ==>
        && TierName(tier) == SummaryType(form)
        && SourceText(form, extract) == Ok(text)
        && h.response.originalLength == |text|
        && |h.calls| >= 2
        && backend(|h.calls| - 1, h.calls[|h.calls| - 1]) == Ok(answer)
        && h.response.summary == Trim(answer)
        && h.calls[|h.calls| - 1].Synthesize?
        && h.calls[|h.calls| - 1].prompt == TierPrompt(tier)
  {
    tier, text := SuccessRunsTier(form, extract, backend, split);
    answer := [];
    if Handle(form, extract, backend, split).response.SummaryReply? {
      var run := Summarize(text, TierPrompt(tier), backend, split);
      SucceededRunShape(text, TierPrompt(tier), backend, split);
      answer := backend(|run.calls| - 1, run.calls[|run.calls| - 1]).value;
    }
  }

  /** The generic server error is the reply exactly when the form passed
      the type and name checks and then either extraction failed or, for a
      long enough text, the pipeline failed; it carries no detail of the
      failure. */
  lemma ServerErrorCauses(form: Form, extract: Extractor, backend: Backend, split: Splitter)
    ensures var h := Handle(form, extract, backend, split);
      var src := SourceText(form, extract);
      && (h.response.ErrorReply? && h.response.status == 500 ==> h.response.message == InternalError)
      && (h.response == ErrorReply(500, InternalError) <==>
            && SummaryType(form) in TierNames
            && !(HasUpload(form) && !AllowedFile(form.file.value))
            && (|| src.Err?
                || (&& |src.value| >= MinLength
                    && SummaryFor(Dispatch(SummaryType(form)), src.value, backend, split).outcome.Err?)))
  {
  }

  /** What an accepted form does: once the summary type and the upload's
      name pass, an upload is always extracted, and the calls made are
      exactly those of the named tier's pipeline run on the accepted text,
      up to and including a failing one, or none when there is no text long
      enough to summarize. */
  lemma AcceptedFormTrace(form: Form, extract: Extractor, backend: Backend, split: Splitter)
    requires SummaryType(form) in TierNames
    requires !(HasUpload(form) && !AllowedFile(form.file.value))
    ensures var h := Handle(form, extract, backend, split);
      var src := SourceText(form, extract);
      && h.extracted == HasUpload(form)
      && (src.Ok? && |src.value| >= MinLength ==>
            h.calls == SummaryFor(Dispatch(SummaryType(form)), src.value, backend, split).calls)
      && (!(src.Ok? && |src.value| >= MinLength) ==> h.calls == [])
  {
  }

  /** Extracted text is not stripped before the length check: an upload
      whose text is 20 or more whitespace characters passes it, and the
      pipeline then rejects the blank text, so the reply is the generic
      server error rather than the too-short error, with no completion call. */
  lemma BlankUploadIsServerError(form: Form, extract: Extractor, backend: Backend, split: Splitter)
    requires SummaryType(form) in TierNames
    requires HasUpload(form) && AllowedFile(form.file.value)
    requires extract(form.file.value).Ok? && IsBlank(extract(form.file.value).value)
    requires |extract(form.file.value).value| >= MinLength
    ensures Handle(form, extract, backend, split) == Handling(ErrorReply(500, InternalError), true, [])
  {
  }

  /** Typed text is stripped: a `text_input` of only whitespace, of any
      length, with no upload, is refused as too short. */
  lemma BlankTextInputIsTooShort(form: Form, extract: Extractor, backend: Backend, split: Splitter)
    requires SummaryType(form) in TierNames
    requires !HasUpload(form) && IsBlank(form.textInput.GetOr([]))
    ensures Handle(form, extract, backend, split) == Handling(ErrorReply(400, TooShort), false, [])
  {
  }
}
