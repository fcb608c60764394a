# AI document summarizer — a Dafny model of its core

The summarizer is a small Flask application. A user uploads a PDF, DOCX,
PPTX or TXT file, or types text. The server extracts the text and has a
language-model service summarize it at one of three lengths: `short`,
`medium` or `long`.

This project models the parts of the program that the repository's own code
decides. Each is a pure Dafny function over immutable data, or a method
proved equal to one, with the external services passed in as parameters.

- **Python string primitives** (module `PyStr`) used by that code:
  - `str.strip()` with Python's whitespace set, and `strip(chars)`;
  - `lower()`;
  - `split(".")[-1]` / `rsplit(".", 1)[1]`;
  - `sep.join(...)` and the `text += part + "\n"` accumulation.
- **Text extraction** (module `Extraction`, `extract_text` in AI.py):
  - path normalization: strip whitespace, then `"`, then `'`;
  - the existence check, with existence as a predicate parameter;
  - the file type and the dispatch to one of four extractors;
  - the way the PDF, DOCX and PPTX extractors join the texts their parsing
    libraries yield. The libraries themselves are parameters (`Readers`)
    that either yield texts or fail.
- **The summarization pipeline** (module `Pipeline`, `_summarize` in AI.py):
  - the completion service is a parameter `Backend`, which answers each
    call, given its number and its request, with a text or a failure;
  - the text splitter is a parameter `Splitter`;
  - a run records every completion call in order (`Run.calls`) together
    with its outcome, so that ordering, call count, the synthesis input and
    abort-on-failure can be stated;
  - `SummarizeLoop` and `ChunkLoop` follow the Python statement by
    statement, with its `for` loop, and are proved to issue the same calls
    and reach the same outcome as the functional model.
- **The three summary tiers** (module `Tiers`, `short_summary`,
  `medium_summary` and `long_summary`): a closed enumeration mapped to the
  three fixed prompts, kept literally.
- **The web front end** (module `WebApp`, app.py):
  - `allowed_file`;
  - the `POST /summarize` handler, as a decision from the form fields to
    the JSON reply. It records whether the extractor ran and which
    completion calls were made. Saving and extracting the upload is one
    parameter (`Extractor`).

Two behaviours of the code are worth knowing, and the model keeps both:

- Only the typed `text_input` field is stripped before the 20-character
  check (app.py:55). Extracted text is measured as extracted. The PDF, DOCX
  and PPTX extractors strip their own result, so only a `.txt` upload can
  yield text that is non-empty and all whitespace
  (`Extraction.BlankTextOnlyFromTxt`). Such an upload of 20 or more
  whitespace characters passes the length check. The pipeline then rejects
  it as empty, and the client gets the generic 500 reply, not the 400
  "Text too short to summarize" reply (`WebApp.BlankUploadIsServerError`).
- `extract_text` takes a path without a dot as its own file type
  (AI.py:19), while `allowed_file` requires a dot (app.py:15-17). Applied
  to the same string `pdf`, the first reads it as a PDF and the second
  refuses it (`WebApp.DotlessNameRefusedButExtractable`). The handler does
  not apply both to one string: it extracts the sanitized name under the
  upload folder (app.py:43-48).

## Model

| member | source | states |
|---|---|---|
| PyStr.Trim | AI.py:119 | `s.strip()`: strip with Python's whitespace set; its properties are those of `PyStr.Strip` |
| PyStr.IsBlank | AI.py:119 | `not s.strip()`: the stripped string is empty |
| PyStr.Strip | AI.py:14 | The stripped string is empty exactly when every character is strippable, and otherwise it neither starts nor ends with a strippable character |
| PyStr.StripIdempotent | AI.py:14 | Stripping a stripped string changes nothing |
| PyStr.StripDropsTrailing | AI.py:41 | A trailing whitespace character, such as the newline after the last page, does not change the stripped text |
| PyStr.Lower | AI.py:19 | Lower-casing keeps the length and maps each character on its own, upper-case ASCII letters to lower case |
| PyStr.LastField | AI.py:19 | The last field is a suffix containing no separator, and it is preceded by a separator whenever it is not the whole string |
| PyStr.LastFieldAfterLastSep | app.py:17 | When a separator occurs with none after it, the last field is exactly the text after it, which is what `rsplit(".", 1)[1]` yields |
| PyStr.Join | AI.py:155 | `sep.join(parts)`: the parts with `sep` between neighbours; `PyStr.JoinLayout` states its layout |
| PyStr.Terminated | AI.py:40 | The `text += part + "\n"` accumulation: each part followed by the terminator, in order (the PPTX loop at AI.py:55 accumulates the same way); `PyStr.TerminatedIsJoinPlusTerm` relates it to the join |
| PyStr.JoinLayout | AI.py:155 | Joining keeps every part in order at its own offset, with the separator after every part but the last and nothing after the last |
| Extraction.NormalizePath | AI.py:14 | `strip()`, then `strip('"')`, then `strip("'")`; `Extraction.NormalizePathBounds` and the two examples state what it keeps |
| Extraction.NormalizePathBounds | AI.py:14 | The normalized path is a contiguous piece of the path; only whitespace and quote characters are removed, only from the ends; it neither starts nor ends with a single quote |
| Extraction.NormalizeStripsInOrder | AI.py:14 | Whitespace, double quotes and single quotes are stripped in that order, so `" \"'a.pdf'\" "` becomes `a.pdf` |
| Extraction.NormalizeKeepsInnerDoubleQuotes | AI.py:14 | Because of that order, a double-quoted name inside single quotes keeps its double quotes |
| Extraction.FormatOf | AI.py:19-31 | Exactly the four extension names select a format, and each selects the format it names; `Extraction.FormatOfExtensionName` gives the converse, that every format is selected by its own name |
| Extraction.FileType | AI.py:19 | The lower-cased text after the last dot, or the whole lower-cased path when it has no dot (`PyStr.LastField`, `PyStr.Lower`) |
| Extraction.DotlessPathIsItsOwnType | AI.py:19 | A path without a dot is its own file type, so `pdf` is read as a PDF |
| Extraction.HasText | AI.py:39 | The truthiness test `if page_text:`: the page yielded a text and it is non-empty |
| Extraction.PresentTexts | AI.py:37-40 | At most one text per page, every kept text non-empty, and when every page has text each page's text is kept in its own place |
| Extraction.PresentTextsSingle | AI.py:38-40 | A single page contributes its text exactly when it has a non-empty one |
| Extraction.PresentTextsAppend | AI.py:37-40 | Pages are filtered one by one: the kept texts of two runs of pages are those of the first followed by those of the second, so no text is dropped but the empty ones, and none is repeated or reordered |
| Extraction.PdfBody | AI.py:35-40 | The accumulator: each page with text followed by a newline; `Extraction.PdfBodyTerminatesPresentTexts` states it |
| Extraction.PdfText | AI.py:34-41 | The stripped accumulator; `Extraction.PdfTextIsJoinOfPresentPages` relates it to the DOCX join |
| Extraction.DocxText | AI.py:44-46 | The stripped newline join of the paragraphs, empty ones included |
| Extraction.PptxBody | AI.py:51-55 | Each text-bearing shape of each slide followed by a newline |
| Extraction.PptxText | AI.py:49-56 | The stripped PPTX accumulator; `Extraction.PptxTextIsJoinOfShapes` relates it to the join |
| Extraction.PdfBodyTerminatesPresentTexts | AI.py:35-40 | The PDF accumulator is each page that has text followed by a newline, in page order |
| Extraction.PdfTextIsJoinOfPresentPages | AI.py:34-41 | The PDF text equals the stripped newline join of the pages that have text |
| Extraction.PdfEmptyPageLeavesNoGap | AI.py:34-41 | An empty page between two pages with text leaves no empty line: the PDF text is the two pages joined by one newline, stripped |
| Extraction.DocxEmptyParagraphLeavesGap | AI.py:44-46 | An empty paragraph between two paragraphs does leave an empty line: the DOCX text is the two joined by two newlines, stripped |
| Extraction.PptxTextIsJoinOfShapes | AI.py:51-56 | The PPTX text is the stripped newline join of all text-bearing shapes, slide by slide |
| Extraction.ReadAs | AI.py:21-29 | An extractor fails only when its own parsing library fails, and the failure names that format and the path |
| Extraction.ExtractNormalized | AI.py:16-31 | A missing file is reported before the type is examined; an existing file of unknown type is unsupported; a result means the file exists, its type is known and its extractor succeeded |
| Extraction.ExtractText | AI.py:13-17 | When the normalized path does not exist, the not-found error names it; a result means the normalized path exists and its type is known |
| Extraction.DispatchUsesOnlyItsReader | AI.py:21-31 | Once the type selects a format, the other three extractors cannot influence the result |
| Extraction.ExtractPdf | AI.py:21-22 | An existing file of type `pdf` reads as the PDF text of the pages its library yields |
| Extraction.ExtractDocx | AI.py:23-24 | An existing file of type `docx` reads as the DOCX text of its paragraphs |
| Extraction.ExtractPptx | AI.py:25-26 | An existing file of type `pptx` reads as the PPTX text of its slides |
| Extraction.ExtractTxt | AI.py:27-29 | An existing file of type `txt` yields its decoded contents, unstripped |
| Extraction.ExtractTextProbesOnlyNormalized | AI.py:13-17 | File systems and libraries that agree at the normalized path give the same result, so only that path is probed and read |
| Extraction.BlankTextOnlyFromTxt | AI.py:27-56 | Non-empty text that is all whitespace can only come from a `txt` file, because the other three extractors strip their result |
| Tiers.TierPrompt | AI.py:180-209 | Each tier's literal final prompt; `Tiers.TierPromptsDistinct` states they differ |
| Tiers.ParseTier | app.py:30 | Exactly the three names `short`, `medium` and `long` are valid, and each names its own tier; `Tiers.ParseTierName` gives the round trip, that every tier's name parses back to it |
| Tiers.TierPromptsDistinct | AI.py:180-209 | The three tier prompts are pairwise distinct |
| Pipeline.RunChunks | AI.py:130-152 | The chunk loop makes at most one call per chunk; a finished loop made one call and kept one summary per chunk; a stopped loop made at least one call and reports the number of its last |
| Pipeline.RunChunksCallAt | AI.py:130-143 | The loop's `i`-th call is the call for the `i`-th chunk, so the calls follow the chunk order |
| Pipeline.RunChunksAnsweredAt | AI.py:130-152 | Every loop call before the last, and the last one too when the loop finished, was answered |
| Pipeline.RunChunksSummaryAt | AI.py:150-152 | In a finished loop the `i`-th summary is the answer to the `i`-th chunk's call, stripped |
| Pipeline.RunChunksFailure | AI.py:130-148 | A stopped loop ends on a failing call, and the failure it reports is that call's |
| Pipeline.PlannedChunks | AI.py:123-126 | The splitter's chunks of the stripped preprocessing answer, none when preprocessing failed |
| Pipeline.Prepare | AI.py:80-130 | Call 0 preprocesses the text as given; at most one call per planned chunk follows; a finished pass made one call per planned chunk and kept one summary for each; a stopped pass stopped at its last call |
| Pipeline.PrepareFollowsReplies | AI.py:80-152 | The pass before synthesis agrees with the service: a finished pass got an answer to every call and keeps the stripped answers to the chunk calls; a stopped pass ends with its failing call, every earlier call answered |
| Pipeline.Conclude | AI.py:154-173 | Synthesis is attempted only after a finished pass, adding exactly one call after the pass's calls; a failure is a completion failure |
| Pipeline.ConcludeShape | AI.py:154-175 | After a pass that agrees with the service, a success answered every call and added one synthesis call carrying the prompt and the summaries joined by a blank line, whose stripped answer is the result; a failure reports the last call, which failed, every earlier one answered |
| Pipeline.Summarize | AI.py:118-128 | Blank text is rejected with no call, and only blank text; otherwise the first call preprocesses the text as given; a run makes at most two calls more than there are planned chunks |
| Pipeline.CallsFollowPlan | AI.py:126-143 | After the preprocessing call, the `i`-th call summarizes the `i`-th chunk the splitter made of the stripped preprocessing answer |
| Pipeline.SucceededRunShape | AI.py:118-175 | A successful run answered every call, made exactly chunks + 2 calls, and ended with a synthesis call carrying the prompt; the summary is that call's answer, stripped |
| Pipeline.FailedCallIsLast | AI.py:123-173 | A failing call is the last call issued, every call before it was answered, and no summary is returned |
| Pipeline.SynthesisDigest | AI.py:150-168 | The synthesis call carries the prompt and the stripped chunk answers, in chunk order, joined by a blank line |
| Pipeline.PromptOnlyReachesSynthesis | AI.py:153-168 | Runs with different prompts make the same calls except that the synthesis call carries the other prompt |
| Pipeline.SummaryFor | AI.py:180-209 | Every tier runs the same pipeline; a successful run's final call carries exactly that tier's prompt and no other tier's |
| Pipeline.ChunkLoop | AI.py:129-151 | The imperative `for` loop over the chunks issues the model's chunk calls and collects its summaries |
| Pipeline.SummarizeLoop | AI.py:118-175 | `_summarize` as written issues exactly the model's calls and reaches the same outcome |
| WebApp.AllowedFile | app.py:15-17 | An allowed name contains a dot |
| WebApp.AllowedFileIff | app.py:12-17 | A name is allowed exactly when some dot, with no dot after it, is followed by one of `pdf`, `docx`, `pptx`, `txt` in any letter case |
| WebApp.ExtensionSetsAgree | app.py:12 | The upload filter's extension set is the set of types the extractor's dispatch knows |
| WebApp.AllowedFileIsExtractable | app.py:12-17 | On one and the same string, a name `allowed_file` accepts has a file type, taken the way `extract_text` takes it, that selects a format |
| WebApp.DotlessNameRefusedButExtractable | app.py:15-17 | On the same string `pdf`, `allowed_file` refuses while `extract_text` would read a PDF |
| WebApp.SummaryType | app.py:28 | The `summary_type` field, `medium` when it is absent; `WebApp.MissingTypeIsMedium` states the consequence |
| WebApp.HasUpload | app.py:36-39 | A `file` part was sent and its name is non-empty |
| WebApp.SourceText | app.py:47-55 | Extraction failure is an error; non-empty extracted text is used unstripped; otherwise the stripped text field is used |
| WebApp.Dispatch | app.py:61-66 | A validated type name selects the tier it names |
| WebApp.Handle | app.py:26-78 | Replies are 400, 500 or success; the extractor runs only for an upload; completion calls happen only on success or the generic 500; a success echoes the validated type, reports the text's length (at least 20) and the summary's own length |
| WebApp.MissingTypeIsMedium | app.py:28 | A missing summary type is handled exactly as `medium` |
| WebApp.InvalidTypeCheckedFirst | app.py:28-31 | The invalid-type reply comes exactly for a type outside the three names, before extraction and with no call |
| WebApp.UnsupportedUploadRefused | app.py:36-41 | With a valid type, an upload is refused exactly when its non-empty name fails `allowed_file`, and then it is never extracted |
| WebApp.CallsOnlyForLongText | app.py:57-58 | Calls are made only for accepted text of at least 20 characters; the too-short reply comes exactly for accepted text under 20 characters |
| WebApp.UploadTextTakesPrecedence | app.py:53-55 | When the upload yields non-empty text, the text field has no effect |
| WebApp.SuccessRunsTier | app.py:61-66 | A success comes from running the named tier's pipeline on the accepted text |
| WebApp.SuccessfulReply | app.py:68-74 | A success reports the stripped answer to the final synthesis call, made with the named tier's prompt, together with the text's and the summary's lengths |
| WebApp.ServerErrorCauses | app.py:76-78 | The generic 500 reply comes exactly when extraction or the pipeline fails after the checks pass, and it carries no failure detail |
| WebApp.AcceptedFormTrace | app.py:33-66 | Once the type and the upload's name pass, an upload is always extracted, and the calls made are exactly the named tier's pipeline calls on the accepted text, a failing one included, or none when the text is under 20 characters or extraction failed |
| WebApp.BlankUploadIsServerError | app.py:47-58 | Extracted whitespace of 20 or more characters passes the length check and ends in the generic 500 reply with no call |
| WebApp.BlankTextInputIsTooShort | app.py:55-58 | Typed whitespace of any length is refused as too short |

## Left out

- The Groq client: the network calls, model names, system prompts, temperatures, token limits and API key. The completion service is the `Backend` parameter.
- Preprocessing-prompt and chunk-prompt wording. A request records only its kind and the text it carries. Tier prompts are kept literally, because their distinctness is a property of the program.
- The chunking policy of `RecursiveCharacterTextSplitter` (chunk size 2000, overlap 200). It lives in a library and is the uninterpreted `Splitter`, so nothing is claimed about coverage or overlap.
- Document parsing by pdfplumber, python-docx and python-pptx, and reading `.txt` files. They are the `Readers` parameters; only the joining of their outputs is modelled.
- The `errors="ignore"` decoding of `.txt` files: the decoded contents are a reader output.
- The `hasattr(shape, "text")` test in the PPTX extractor: the PPTX reader yields only the text-bearing shapes.
- Flask and werkzeug plumbing:
  - request parsing;
  - `secure_filename`;
  - saving the upload to the temporary directory and deleting it;
  - `MAX_CONTENT_LENGTH`;
  - routing, templates, `jsonify` and the waitress server.

  `secure_filename` can remove a name's dot: `..pdf`, and a name of non-ASCII letters followed by `.pdf`, both become `pdf`. The saved file then has no type `extract_text` knows, and the request ends in the 500 reply. The model does not capture this.

  The handler's `Extractor` parameter stands for "save under the sanitized name, then extract". For this reason it is not tied to `Extraction.ExtractText`.
- Logging of the exception text in the 500 path. It does not affect the reply.
- Exceptions from Flask itself or from saving the file, which also lead to the 500 reply. The model only produces that reply for extraction and pipeline failures.
- static/script.js, the browser UI.
- Output quality: whether a summary is good or fits its tier's length or shape. Nothing in the code enforces it.
- PyStr.Lower: lower-cases ASCII letters only. Python's `str.lower()` also maps non-ASCII letters, which no extension or type name involves.
