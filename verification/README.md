# Drawing teacher: a verified model of the local logic

Drawing teacher is a browser app. The user uploads a reference image,
picks a sketching style (Simple, Anatomy or Detailed), may type
instructions, and gets back two things from a remote generative-AI service:

- a pencil sketch;
- a written critique in two parts, "guidelines" and "tips", translated into
  the interface language.

This project models the logic the app runs itself, and proves properties of
that model:

- **Prompt construction** (`prompts.dfy`, module `Prompts`). The image prompt
  is a shared prefix, a style-specific body and an optional quoted
  instructions suffix. The analysis prompt has an optional instructions
  clause. The long prose is held in named constants, and the concatenation
  structure is exact.
- **The generation service** (`gemini_service.dfy`, module `GeminiService`).
  It covers:
  - the checks on the image reply and the analysis reply, with the source's
    exact error messages;
  - the data-URI build and the payload step `split(',')[1]`;
  - `translateText`, with its short-circuit and its fallback;
  - `generateDrawingAndAnalysis`, which joins the two branches.

  Each remote model is a function parameter from the part and the prompt it
  receives to the reply it sends, or to the error its call rejects with. `JSON.parse` is a parameter from text to an optional
  analysis.
- **The result panel** (`result_view.dfy`, module `ResultView`). This is
  `createMarkup`, a small markdown-to-HTML converter, plus the panel's
  choice of what to show. Each regular-expression rewrite is an explicit
  recursive function that scans its input the way a global `replace` does.
  - The non-greedy, single-line bold pattern stops at the first `**` with no
    line terminator before it.
  - The greedy dot-all list pattern runs from the first `<li>` to the last
    `</li>`, so it wraps at most once. `ResultView.WrapScanOnce` proves this
    against a direct reference definition.
- **The page state** (`app.dfy`, class `App.AppState`). This is a class with
  the `useState` fields of App.tsx. The upload and generate handlers are
  methods. The awaited service outcome is a parameter, or the modelled
  service is called directly.
- **Shared JavaScript string behaviour** (`js_string.dfy`, module
  `JsString`). This covers:
  - truthiness of optional strings;
  - `includes`;
  - `trim`, with the ECMAScript white-space set;
  - `split` and `join`;
  - global replacement of a literal pattern;
  - `indexOf` and `lastIndexOf`.

`wrappers.dfy` holds `Option` and `Result`. `types.dfy` holds the records
and enumerations of types.ts.

**The analysis branch checks less than the image branch.** In
services/geminiService.ts:94-112:

- It reads the first candidate's finish reason only when the text is empty
  or absent.
- It never reports a missing candidate.

`GeminiService.ValidateAnalysisResponse` does the same, and
`GeminiService.AnalysisParsed` proves that non-empty text is judged without
looking at the candidates.

## Model

| member | source | states |
|---|---|---|
| Prompts.ImagePromptSharedPrefix | services/prompts.ts:4-12 | For every style and every instructions text, the image prompt starts with the shared style prefix. |
| Prompts.ImagePromptWhiteBackground | services/prompts.ts:10 | Every image prompt contains the sentence requiring a plain white background. |
| Prompts.ImagePromptWithoutInstructions | services/prompts.ts:36-38 | With empty instructions the image prompt is exactly the style's base prompt. |
| Prompts.ImagePromptWithInstructions | services/prompts.ts:36-37 | With instructions, the prompt has four parts in order: the base prompt as a prefix, the "Additional user instructions to follow" lead-in at its position, the instructions verbatim, and a closing quote. The length is the sum of the four parts. |
| Prompts.StylesDiffer | services/prompts.ts:16-34 | Two different styles give different base prompts, and different image prompts for the same instructions. |
| Prompts.AnalysisPromptFixedText | services/prompts.ts:42-46 | Whatever the instructions, the analysis prompt opens with the teacher sentence and ends with the request for a JSON object with keys 'guidelines' and 'tips'. |
| Prompts.AnalysisInstructionClause | services/prompts.ts:44 | With instructions, the prompt contains the clause "The user has provided specific instructions:" followed by the quoted instructions. The prompt differs from the no-instructions prompt exactly when instructions are given. Without instructions, the slot between the two blank-line separators is empty. |
| GeminiService.PayloadOf | services/geminiService.ts:10 | `split(',')[1]` is present exactly when the data URL has a comma, and the segment it returns holds no comma. |
| GeminiService.FileToGenerativePart | services/geminiService.ts:7-16 | The file's type becomes the MIME type. The data is the comma-free segment after the first comma, and is undefined exactly when the data URL has no comma; the part is built either way. |
| GeminiService.PayloadRoundTrip | services/geminiService.ts:69 | Take a data URI built the way line 69 builds it, from a MIME type and data with no comma. Extracting its payload returns the original data, and rebuilding the inline part returns the original part. |
| GeminiService.ImageBlockedFirst | services/geminiService.ts:54-61 | A truthy block reason fails with "Image generation blocked. Reason: r." whatever the candidates are. Only without one does a missing first candidate fail with the no-candidate error. |
| GeminiService.ImageFinishReasonReported | services/geminiService.ts:63-65 | A first candidate whose finish reason is non-empty and not "STOP" fails, and the message contains that reason. |
| GeminiService.ImagePassingFinishIgnored | services/geminiService.ts:63-65 | An absent, empty or "STOP" finish reason does not change the outcome. The reply judges the same as one whose finish reason is absent. |
| GeminiService.ImageSuccess | services/geminiService.ts:67-72 | The image branch succeeds exactly when there is no block, there is a first candidate, its finish passes, and its first part has inline data. The value is then "data:" + mimeType + ";base64," + data. If everything passes except the image data, it fails with the "did not return any image data" error. |
| GeminiService.ImageErrors | services/geminiService.ts:54-72 | Every failure of the image reply checks carries one of their four messages. A rejected model call keeps its own error instead (see `GenerateDrawingAndAnalysis`). |
| GeminiService.AnalysisBlockedFirst | services/geminiService.ts:94-96 | A truthy block reason fails with the analysis-blocked message, whatever the text, the candidates and the parser. |
| GeminiService.AnalysisEmptyText | services/geminiService.ts:98-105 | Empty or absent text fails. If the first candidate's finish reason is non-empty and not "STOP", the message contains that reason. Otherwise the message is "Analysis generation failed: No text was returned from the model.". The parser is never consulted. |
| GeminiService.AnalysisParsed | services/geminiService.ts:107-112 | Non-empty text succeeds with a value exactly when the parser returns that value; the fields are not checked. A parse failure gives the invalid-JSON error. The candidates play no part. |
| GeminiService.TranslateShortCircuit | services/geminiService.ts:18-21 | Translating into English, or translating empty text, returns the text unchanged and does not depend on the remote call. |
| GeminiService.TranslateOutcome | services/geminiService.ts:22-32 | For French and non-empty text, the request names "French" and ends with the text verbatim. A failed call returns the original text, never an error, and a successful call returns the reply. |
| GeminiService.GenerateDrawingAndAnalysis | services/geminiService.ts:41-130 | Both model calls receive the same part, built from the uploaded file, with their own prompt. A branch fails with its call's rejection, or else as its reply checks decide. A result exists exactly when both branches succeed. Its image is the image branch's data URI. Each analysis field is the translation of the matching English field, each by its own translation call. Any branch error is the overall error, and the one that rejects first wins. |
| ResultView.ClosingStarsFirst | components/GeneratedResultView.tsx:45 | The non-greedy `(.*?)\*\*` finds the first `**` at or after the start, provided no line terminator comes before it. Otherwise there is no match. |
| ResultView.BoldSpanReplaced | components/GeneratedResultView.tsx:45 | A `**x**` at the front, with x on one line and free of `*`, becomes `<strong>x</strong>`, and the scan resumes after it. |
| ResultView.LoneStarsKept | components/GeneratedResultView.tsx:45 | An opening `**` that no `**` on the same line closes is copied as it is, and the rewrite goes on right after it, so later bold spans are still replaced. |
| ResultView.BoldSpansNoStars | components/GeneratedResultView.tsx:45 | Text without `**` is unchanged by the bold rewrite. |
| ResultView.BoldSpansByLine | components/GeneratedResultView.tsx:45 | A bold span never crosses a newline. Rewriting `a + "\n" + b` gives the rewrite of a, a newline, and the rewrite of b. |
| ResultView.KeptLines | components/GeneratedResultView.tsx:46-48 | Every kept line is non-empty and trimmed, and no more lines are kept than there were. |
| ResultView.KeptOne | components/GeneratedResultView.tsx:47-48 | A single line is kept as its trim, or dropped when its trim is empty. With `KeptLinesConcat` this fixes the kept lines of any input. |
| ResultView.KeptLinesConcat | components/GeneratedResultView.tsx:47-48 | Trimming and filtering work line by line: the kept lines of a concatenation are the concatenation of the kept lines. |
| ResultView.BlankLineDropped | components/GeneratedResultView.tsx:47-48 | A whitespace-only line contributes nothing, wherever it stands. |
| ResultView.KeptLinesOfTrimmed | components/GeneratedResultView.tsx:47-48 | Lines already trimmed and non-empty are all kept, unchanged and in order. |
| ResultView.RenderLineKinds | components/GeneratedResultView.tsx:49-54 | A line renders as `<li>…</li>` exactly when it starts with "* ", and as `<p>…</p>` otherwise. Reading the element back gives the line. |
| ResultView.WrapScanOnce | components/GeneratedResultView.tsx:58 | The global greedy dot-all list rewrite equals the reference result. When there is a `<li>` with a `</li>` starting at or after its end, one `<ul>` wraps everything from the first `<li>` to the last `</li>`. Otherwise the text is unchanged. |
| ResultView.RenderParagraphs | components/GeneratedResultView.tsx:49-55 | Non-bullet lines with no `<` render as one `<p>` per line, and their only tags are `<p>` and `</p>`. |
| ResultView.RenderBullets | components/GeneratedResultView.tsx:49-55 | Bullet lines render as one `<li>` per item, and their only tags are `<li>` and `</li>`. |
| ResultView.ListMarkupOfParagraphs | components/GeneratedResultView.tsx:56-59 | Markup made only of paragraphs passes the boundary rewrites, the list wrapper and the seam removal unchanged. It has no `<ul>` and no `<li>`. |
| ResultView.ListMarkupOfItems | components/GeneratedResultView.tsx:56-59 | Markup made only of list items gets exactly one `<ul>…</ul>` around all of it. |
| ResultView.ParagraphThenList | components/GeneratedResultView.tsx:56-59 | A paragraph followed by list items, all free of `<`: the first boundary rewrite drops the paragraph's `</p>` before the first `<li>`. The list wrapper then puts one `<ul>` around the items only. The markup is `<p>`, the text, then the wrapped list, with no `</p>`. |
| ResultView.ListThenParagraph | components/GeneratedResultView.tsx:56-59 | List items followed by a paragraph, all free of `<`: the second boundary rewrite drops the paragraph's `<p>` after the last `</li>`. The markup is the wrapped list, then the text and `</p>`, with no `<p>`. |
| ResultView.NoListSeam | components/GeneratedResultView.tsx:59 | A single wrapped list contains no "</ul><ul>" seam. |
| ResultView.MarkupOfBlankText | components/GeneratedResultView.tsx:42-48 | Empty or whitespace-only text renders as the empty string. |
| ResultView.MarkupOfPlainText | components/GeneratedResultView.tsx:41-62 | Text without `*` and `<` renders as one paragraph per non-blank trimmed line, and contains no `<ul>` and no `<li>`. |
| ResultView.MarkupOfBulletList | components/GeneratedResultView.tsx:41-62 | A newline-separated bullet list (items non-empty, no `*`, `<` or newline, no trailing white space) renders as `<ul>` holding one `<li>` per item, in order, and `</ul>`. |
| ResultView.SelectView | components/GeneratedResultView.tsx:84-137 | The panel shows the following, in order of precedence: the skeleton exactly when loading; the error exactly when not loading and the error is truthy; the result, with both critiques through `createMarkup`, exactly when neither applies and there is a result; otherwise the welcome text, with the message chosen by whether an image is uploaded. |
| ResultView.ViewPrecedence | components/GeneratedResultView.tsx:84-98 | Loading hides any error and result. An error hides any result. An empty error message counts as no error. |
| ResultView.WelcomeByUploadOnly | components/GeneratedResultView.tsx:127-135 | The welcome view appears only with no loading, no error and no result. Its message depends on whether an image is uploaded and on nothing else. |
| ResultView.BlankCritiqueShowsNothing | components/GeneratedResultView.tsx:98-121 | A result with blank guidelines and tips shows both sections as empty HTML. |
| JsString.Trim | components/GeneratedResultView.tsx:47 | `trim` returns a trimmed string, never longer than the input. |
| JsString.TrimSlice | components/GeneratedResultView.tsx:47 | The trimmed string is a slice of the input, and everything removed on either side is white space. |
| JsString.Split | components/GeneratedResultView.tsx:46 | `split` gives at least one piece, no piece holds the separator, and joining the pieces with the separator gives back the input. |
| JsString.SplitJoin | components/GeneratedResultView.tsx:46 | Splitting pieces that were joined with a separator they do not contain gives back the pieces. |
| App.AppState.constructor | App.tsx:14-21 | The initial state is: language 'fr', style Simple, empty instructions, no image, no result, no error, not loading. The button is disabled and the welcome-without-image text shows. |
| App.AppState.CanGenerate | App.tsx:93 | The generate button is enabled exactly when an image is uploaded and the panel is not showing the loading skeleton. |
| App.AppState.Upload | App.tsx:25-33 | Uploading keeps the new image and clears both result and error. Loading and the settings are unchanged. |
| App.AppState.StartGenerate | App.tsx:35-40 | Without an image nothing changes. Otherwise loading starts, error and result are cleared, the button is disabled and the skeleton shows. |
| App.AppState.FinishGenerate | App.tsx:42-50 | On success the result is the returned value and there is no error. On failure the error is the thrown Error's message, or "An unknown error occurred during generation.", and there is no result. Loading ends in every case, and result and error are never both set. |
| App.AppState.Generate | App.tsx:35-51 | The whole handler: no image means no change; otherwise the outcome is stored as above and loading is false. The class invariant (result and error never both set; while loading there is an image and nothing else) holds. |
| App.AppState.GenerateWithService | App.tsx:35-51 | The handler passes the uploaded file and the page's style, instructions and language to the service. A result is stored exactly when both branches succeed. Its image is the image branch's data URI, its analysis is the guidelines and the tips, each translated by its own call, and no error is stored. Otherwise the stored error is that of the branch that rejects first, and no result is stored. Loading ends in every case. |

## Left out

- The GoogleGenAI client and its `generateContent` calls are foreign network I/O. Each image or analysis call is a parameter returning either a reply, which is a datatype value given to the validators, or the error the call rejects with. The translation reply is an optional string, where absence means the call threw.
- `FileReader` / `readAsDataURL` and base64 encoding are browser file I/O. Only the string step `split(',')[1]` and the MIME pass-through are modelled. The app's `ImageFile` carries the MIME type and the data URL.
- `JSON.parse` is a library call. It is a parameter returning an analysis or nothing. A JSON value that is not an object with two string fields is not represented: the source casts it without checking, and for `null` it throws a TypeError when it reads `guidelines` (services/geminiService.ts:121).
- `Promise.all` concurrency is left out. Both branches are judged one after the other. When both fail, which error wins depends on completion order, which is the parameter `imageRejectsFirst`. The two translations are separate remote calls, so each is a translator parameter of its own.
- GeminiService.TranslateText: a translation reply whose `text` accessor is undefined would be returned as `undefined`. The model only knows a string reply or a failed call.
- A candidate whose `content` has no `parts` array makes the source throw a TypeError. In the model, content always holds a sequence of parts.
- `console.error` logging is left out.
- Object URLs (`URL.createObjectURL`, `revokeObjectURL`) and the preview field `uploadedImagePreview` are browser resource handling.
- React's batching of state updates is left out. Each setter is an immediate field assignment.
- Rendering and styling are left out: JSX, icons, the uploader's drag-and-drop, the style selector, the language switcher, the instructions box, and the setters they forward to. The contrast slider and its `contrast / 100` filter, which involves floating point, are left out too.
- The i18n `translations` table is not part of this model. The welcome view records only which of its two messages is shown.
- Prompts.AnalysisInstructionClause: without instructions, the absence of a double quote in the analysis prompt is not proved. The property proved instead is that the prompt equals the no-instructions prompt exactly when the instructions are empty.
- ResultView.MarkupOfPlainText covers only text with no `*` at all, so no bold spans, and no `<`. ResultView.MarkupOfBulletList covers only a bullet list whose items hold no `*` and no `<`. Where paragraphs meet a list, ResultView.ParagraphThenList and ResultView.ListThenParagraph give the markup for one paragraph before or after the list. Longer mixtures are computed by `ResultView.CreateMarkup` but have no closed-form theorem. An example is paragraphs between two lists, which the greedy wrapper puts into a single `<ul>`.
