/** The generation service (services/geminiService.ts): the checks applied to
    the model's image and analysis replies, the translation step with its
    short-circuit and fallback, the data-URI build and payload extraction,
    and the join of the two branches into one result.

    The remote model is not part of this model: each call to it is a
    function parameter from the prompt sent to the reply received, and
    `JSON.parse` is a parameter from text to an optional analysis. */
module GeminiService {
  import opened Wrappers
  import opened Types
  import opened JsString
  import opened Prompts

  // ---------------------------------------------------------------- replies

  /** Inline binary data of a reply part. */
  datatype InlineData = InlineData(mimeType: string, data: string)

  datatype Part = Part(inlineData: Option<InlineData>)

  datatype Content = Content(parts: seq<Part>)

  datatype Candidate = Candidate(finishReason: Option<string>, content: Option<Content>)

  /** What the image model answers: `promptFeedback?.blockReason` and `candidates`. */
  datatype ImageResponse = ImageResponse(blockReason: Option<string>, candidates: Option<seq<Candidate>>)

  /** What the analysis model answers; `text` is the reply's text accessor. */
  datatype AnalysisResponse = AnalysisResponse(
    blockReason: Option<string>,
    candidates: Option<seq<Candidate>>,
    text: Option<string>)

  /** `candidates?.[0]` */
  function FirstCandidate(candidates: Option<seq<Candidate>>): Option<Candidate>
  {
    if candidates.Some? && |candidates.value| > 0 then Some(candidates.value[0]) else None
  }

  /** `candidate.content?.parts[0]?.inlineData`, present only when the first part carries data. */
  function FirstImageData(candidate: Candidate): Option<InlineData>
  {
    if candidate.content.Some? && |candidate.content.value.parts| > 0 then
      candidate.content.value.parts[0].inlineData
    else
      None
  }

  /** A finish reason that stops the branch: present, non-empty, and not "STOP". */
  predicate FailingFinish(finishReason: Option<string>)
  {
    IsTruthy(finishReason) && finishReason.value != "STOP"
  }

  // ---------------------------------------------------------------- messages

  function ImageBlockedError(reason: string): string
  {
    "Image generation blocked. Reason: " + reason + "."
  }

  const NoCandidateError: string := "Image generation failed: No response candidate was received from the model."

  function ImageFinishError(reason: string): string
  {
    "Image generation failed. Finish reason: " + reason + "."
  }

  const NoImageDataError: string := "Image generation failed: The model did not return any image data."

  function AnalysisBlockedError(reason: string): string
  {
    "Analysis generation blocked. Reason: " + reason + "."
  }

  function AnalysisFinishError(reason: string): string
  {
    "Analysis generation failed. Finish reason: " + reason + "."
  }

  const NoTextError: string := "Analysis generation failed: No text was returned from the model."

  const InvalidJsonError: string := "Failed to parse drawing analysis from the model. The model may have returned an invalid JSON format."

  // ---------------------------------------------------------------- data URIs

  /** The data URI built from a part's inline data. */
  function DataUri(d: InlineData): string
  {
    "data:" + d.mimeType + ";base64," + d.data
  }

  /** `dataUrl.split(',')[1]`: the text between the first and the second
      comma, absent when there is no comma. */
  function PayloadOf(dataUrl: string): (r: Option<string>)
    ensures r.Some? <==> ',' in dataUrl
    ensures r.Some? ==> ',' !in r.value
  {
    var pieces := Split(dataUrl, ',');
    SplitSingleExactlyWithoutSep(dataUrl, ',');
    if |pieces| > 1 then Some(pieces[1]) else None
  }

  /** A string splits into one piece exactly when it has no separator. */
  lemma SplitSingleExactlyWithoutSep(s: string, sep: char)
    ensures |Split(s, sep)| == 1 <==> sep !in s
  {
    var pieces := Split(s, sep);
    if |pieces| == 1 {
      assert Join(pieces, [sep]) == pieces[0];
    } else if sep !in s {
      SplitNoSep(s, sep);
    }
  }

  /** The part `fileToGenerativePart` builds from the uploaded file; its
      `data` is `undefined` when the file's data URL has no comma. */
  datatype FilePart = FilePart(mimeType: string, data: Option<string>)

  /** `fileToGenerativePart`: the uploaded file's type passes through as the
      MIME type, and the data is the payload of the file's data URL. */
  function FileToGenerativePart(fileType: string, dataUrl: string): (r: FilePart)
    ensures r.mimeType == fileType
    ensures r.data.Some? <==> ',' in dataUrl
    ensures r.data.Some? ==> ',' !in r.data.value
  {
    FilePart(fileType, PayloadOf(dataUrl))
  }

  /** Payload extraction undoes the data-URI build when neither the MIME
      type nor the data holds a comma (base64 never does). */
  lemma {:induction false} PayloadRoundTrip(d: InlineData)
    requires ',' !in d.mimeType && ',' !in d.data
    ensures PayloadOf(DataUri(d)) == Some(d.data)
    ensures FileToGenerativePart(d.mimeType, DataUri(d)) == FilePart(d.mimeType, Some(d.data))
  {
    var head := "data:" + d.mimeType + ";base64";
    assert DataUri(d) == head + [','] + d.data;
    assert ',' !in head by {
      assert head == "data:" + d.mimeType + ";base64";
      assert forall c :: c in head ==> c in "data:" || c in d.mimeType || c in ";base64";
    }
    SplitPiece(head, ',', d.data);
    SplitNoSep(d.data, ',');
  }

  // ---------------------------------------------------------------- image branch

  /** The checks on the image model's reply, in the order the source makes them. */
  function ValidateImageResponse(response: ImageResponse): Result<string, string>
  {
    if IsTruthy(response.blockReason) then
      Failure(ImageBlockedError(response.blockReason.value))
    else
      match FirstCandidate(response.candidates)
      case None => Failure(NoCandidateError)
      case Some(candidate) =>
        if FailingFinish(candidate.finishReason) then
          Failure(ImageFinishError(candidate.finishReason.value))
        else
          match FirstImageData(candidate)
          case Some(d) => Success(DataUri(d))
          case None => Failure(NoImageDataError)
  }

  /** A block reason is reported before anything else is looked at, and only
      without one does a missing candidate give the no-candidate error. */
  lemma ImageBlockedFirst(response: ImageResponse)
    ensures IsTruthy(response.blockReason) ==>
      ValidateImageResponse(response) == Failure(ImageBlockedError(response.blockReason.value))
    ensures !IsTruthy(response.blockReason) && FirstCandidate(response.candidates).None? ==>
      ValidateImageResponse(response) == Failure(NoCandidateError)
  {
  }

  /** A failing finish reason (with no block reason) is reported, and the
      message names it. */
  lemma ImageFinishReasonReported(response: ImageResponse)
    requires !IsTruthy(response.blockReason) && FirstCandidate(response.candidates).Some?
    requires FailingFinish(FirstCandidate(response.candidates).value.finishReason)
    ensures ValidateImageResponse(response).Failure?
    ensures Contains(ValidateImageResponse(response).error,
                     FirstCandidate(response.candidates).value.finishReason.value)
  {
    var reason := FirstCandidate(response.candidates).value.finishReason.value;
    ContainsInfix("Image generation failed. Finish reason: ", reason, ".");
  }

  /** An absent, empty or "STOP" finish reason is not a failure: the outcome
      is the one the same reply would have with no finish reason at all. */
  lemma ImagePassingFinishIgnored(blockReason: Option<string>, finishReason: Option<string>, content: Option<Content>, rest: seq<Candidate>)
    requires !FailingFinish(finishReason)
    ensures ValidateImageResponse(ImageResponse(blockReason, Some([Candidate(finishReason, content)] + rest)))
         == ValidateImageResponse(ImageResponse(blockReason, Some([Candidate(None, content)] + rest)))
  {
  }

  /** The image branch succeeds exactly when nothing blocks it and the first
      part of the first candidate has inline data; its value is then that
      data's URI, and otherwise a passing candidate without data gives the
      no-image-data error. */
  lemma ImageSuccess(response: ImageResponse)
    ensures ValidateImageResponse(response).Success? <==>
      && !IsTruthy(response.blockReason)
      && FirstCandidate(response.candidates).Some?
      && !FailingFinish(FirstCandidate(response.candidates).value.finishReason)
      && FirstImageData(FirstCandidate(response.candidates).value).Some?
    ensures ValidateImageResponse(response).Success? ==>
      ValidateImageResponse(response).value == DataUri(FirstImageData(FirstCandidate(response.candidates).value).value)
    ensures
      && !IsTruthy(response.blockReason)
      && FirstCandidate(response.candidates).Some?
      && !FailingFinish(FirstCandidate(response.candidates).value.finishReason)
      && FirstImageData(FirstCandidate(response.candidates).value).None?
      ==> ValidateImageResponse(response) == Failure(NoImageDataError)
  {
  }

  /** Every image error is one of the four messages of the image branch. */
  lemma ImageErrors(response: ImageResponse)
    requires ValidateImageResponse(response).Failure?
    ensures var e := ValidateImageResponse(response).error;
      || (exists r :: e == ImageBlockedError(r))
      || e == NoCandidateError
      || (exists r :: e == ImageFinishError(r))
      || e == NoImageDataError
  {
  }

  // ---------------------------------------------------------------- analysis branch

  /** The checks on the analysis model's reply. The finish reason is only
      consulted when there is no text, and a parsed analysis is accepted as
      it is, whatever its fields hold. */
  function ValidateAnalysisResponse(response: AnalysisResponse, parse: string -> Option<DrawingAnalysis>): Result<DrawingAnalysis, string>
  {
    if IsTruthy(response.blockReason) then
      Failure(AnalysisBlockedError(response.blockReason.value))
    else if !IsTruthy(response.text) then
      var candidate := FirstCandidate(response.candidates);
      if candidate.Some? && FailingFinish(candidate.value.finishReason) then
        Failure(AnalysisFinishError(candidate.value.finishReason.value))
      else
        Failure(NoTextError)
    else
      match parse(response.text.value)
      case Some(analysis) => Success(analysis)
      case None => Failure(InvalidJsonError)
  }

  /** A block reason wins over everything, whatever the text and the parser. */
  lemma AnalysisBlockedFirst(response: AnalysisResponse, parse: string -> Option<DrawingAnalysis>)
    requires IsTruthy(response.blockReason)
    ensures ValidateAnalysisResponse(response, parse) == Failure(AnalysisBlockedError(response.blockReason.value))
  {
  }

  /** Without text the branch fails without parsing: with the finish reason
      when it is a failing one (and the message names it), otherwise with
      the no-text message. */
  lemma AnalysisEmptyText(response: AnalysisResponse, parse: string -> Option<DrawingAnalysis>)
    requires !IsTruthy(response.blockReason) && !IsTruthy(response.text)
    ensures var candidate := FirstCandidate(response.candidates);
      var r := ValidateAnalysisResponse(response, parse);
      && r.Failure?
      && (candidate.Some? && FailingFinish(candidate.value.finishReason) ==>
            r.error == AnalysisFinishError(candidate.value.finishReason.value)
            && Contains(r.error, candidate.value.finishReason.value))
      && (!(candidate.Some? && FailingFinish(candidate.value.finishReason)) ==> r.error == NoTextError)
    ensures forall other: string -> Option<DrawingAnalysis> ::
      ValidateAnalysisResponse(response, other) == ValidateAnalysisResponse(response, parse)
  {
    var candidate := FirstCandidate(response.candidates);
    if candidate.Some? && FailingFinish(candidate.value.finishReason) {
      ContainsInfix("Analysis generation failed. Finish reason: ", candidate.value.finishReason.value, ".");
    }
  }

  /** With text present (and no block reason) the outcome is the parse: a
      parsed analysis is returned unchanged, even with empty fields, a
      refused text gives the invalid-JSON error, and the candidates' finish
      reasons play no part. */
  lemma AnalysisParsed(response: AnalysisResponse, parse: string -> Option<DrawingAnalysis>)
    requires !IsTruthy(response.blockReason) && IsTruthy(response.text)
    ensures forall a :: ValidateAnalysisResponse(response, parse) == Success(a) <==> parse(response.text.value) == Some(a)
    ensures parse(response.text.value).None? ==> ValidateAnalysisResponse(response, parse) == Failure(InvalidJsonError)
    ensures forall cs :: ValidateAnalysisResponse(response.(candidates := cs), parse) == ValidateAnalysisResponse(response, parse)
  {
  }

  // ---------------------------------------------------------------- translation

  /** The language named in the translation request. */
  function LanguageName(language: Language): string
  {
    if language == Fr then "French" else "English"
  }

  /** The request sent to translate `text`. */
  function TranslationPrompt(text: string, targetLanguage: Language): string
  {
    "Translate the following markdown text to " + LanguageName(targetLanguage)
      + ". Preserve the markdown formatting (like '*' for bullet points and '**' for bold text). Text to translate:\n\n"
      + text
  }

  /** `translateText`: English or empty text is returned as it is without a
      call; otherwise the reply to the translation request, or the original
      text when the call fails (`None`). */
  function TranslateText(text: string, targetLanguage: Language, translator: string -> Option<string>): string
  {
    if targetLanguage == En || text == "" then
      text
    else
      match translator(TranslationPrompt(text, targetLanguage))
      case Some(translated) => translated
      case None => text
  }

  /** English and empty text come back unchanged, whatever the translator
      would have answered: the remote call is never made. */
  lemma TranslateShortCircuit(text: string, targetLanguage: Language, translator: string -> Option<string>)
    requires targetLanguage == En || text == ""
    ensures TranslateText(text, targetLanguage, translator) == text
    ensures forall other: string -> Option<string> ::
      TranslateText(text, targetLanguage, other) == TranslateText(text, targetLanguage, translator)
  {
  }

  /** Otherwise the request carries the text after the fixed instructions and
      names French, a failed call gives back the original text (never an
      error), and a reply is used as it is. */
  lemma TranslateOutcome(text: string, translator: string -> Option<string>)
    requires text != ""
    ensures var request := TranslationPrompt(text, Fr);
      && |text| <= |request| && request[|request| - |text|..] == text
      && Contains(request, "French")
      && (translator(request).None? ==> TranslateText(text, Fr, translator) == text)
      && (translator(request).Some? ==> TranslateText(text, Fr, translator) == translator(request).value)
  {
    var request := TranslationPrompt(text, Fr);
    var head := "Translate the following markdown text to " + "French"
      + ". Preserve the markdown formatting (like '*' for bullet points and '**' for bold text). Text to translate:\n\n";
    assert request == head + text;
    assert request[|head|..] == text;
    ContainsInfix("Translate the following markdown text to ", "French",
      ". Preserve the markdown formatting (like '*' for bullet points and '**' for bold text). Text to translate:\n\n");
    ContainsAppend(head, text, "French");
  }

  // ---------------------------------------------------------------- the join

  /** The image branch: a model call that rejects rejects the branch with
      its own error; a reply is checked. */
  function ImageBranch(reply: Result<ImageResponse, string>): Result<string, string>
  {
    match reply
    case Failure(e) => Failure(e)
    case Success(response) => ValidateImageResponse(response)
  }

  /** The analysis branch, in the same way. */
  function AnalysisBranch(reply: Result<AnalysisResponse, string>, parse: string -> Option<DrawingAnalysis>)
    : Result<DrawingAnalysis, string>
  {
    match reply
    case Failure(e) => Failure(e)
    case Success(response) => ValidateAnalysisResponse(response, parse)
  }

  /** `generateDrawingAndAnalysis`: both branches send the same part, built
      from the uploaded file, with their own prompt; the result exists only
      when both succeed, and its analysis fields are translated one by one.
      When both branches fail, the error is that of the branch that rejects
      first (`imageRejectsFirst`). The models are parameters: each maps the
      part and the prompt it is sent to its reply, or to the error its call
      rejects with. The two translations are separate remote calls, so each
      has its own translator. */
  method GenerateDrawingAndAnalysis(
    fileType: string,
    dataUrl: string,
    style: DrawingStyle,
    userInstructions: string,
    targetLanguage: Language,
    imageModel: (FilePart, string) -> Result<ImageResponse, string>,
    analysisModel: (FilePart, string) -> Result<AnalysisResponse, string>,
    parse: string -> Option<DrawingAnalysis>,
    guidelinesTranslator: string -> Option<string>,
    tipsTranslator: string -> Option<string>,
    imageRejectsFirst: bool)
    returns (r: Result<GeneratedResult, string>)
    ensures var part := FileToGenerativePart(fileType, dataUrl);
      var image := ImageBranch(imageModel(part, ImageGenerationPrompt(style, userInstructions)));
      var analysis := AnalysisBranch(analysisModel(part, AnalysisPrompt(userInstructions)), parse);
      && (r.Success? <==> image.Success? && analysis.Success?)
      && (r.Success? ==>
            && r.value.image == image.value
            && r.value.analysis.guidelines == TranslateText(analysis.value.guidelines, targetLanguage, guidelinesTranslator)
            && r.value.analysis.tips == TranslateText(analysis.value.tips, targetLanguage, tipsTranslator))
      && (image.Failure? && (analysis.Success? || imageRejectsFirst) ==> r == Failure(image.error))
      && (analysis.Failure? && (image.Success? || !imageRejectsFirst) ==> r == Failure(analysis.error))
  {
    var part := FileToGenerativePart(fileType, dataUrl);
    var imageOutcome := ImageBranch(imageModel(part, ImageGenerationPrompt(style, userInstructions)));
    var analysisOutcome := AnalysisBranch(analysisModel(part, AnalysisPrompt(userInstructions)), parse);
    if imageOutcome.Failure? && (analysisOutcome.Success? || imageRejectsFirst) {
      return Failure(imageOutcome.error);
    }
    if analysisOutcome.Failure? {
      return Failure(analysisOutcome.error);
    }
    var english := analysisOutcome.value;
    var guidelines := TranslateText(english.guidelines, targetLanguage, guidelinesTranslator);
    var tips := TranslateText(english.tips, targetLanguage, tipsTranslator);
    r := Success(GeneratedResult(imageOutcome.value, DrawingAnalysis(guidelines, tips)));
  }
}
