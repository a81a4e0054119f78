/** The page state of App.tsx and its two handlers: uploading a drawing and
    asking for a generation. The `useState` fields are the fields of one
    object; each handler is a method that updates them in the order the
    handler calls its setters. */
module App {
  import opened Wrappers
  import opened Types
  import opened JsString
  import opened ResultView
  import GeminiService
  import Prompts

  /** The uploaded `File`, as the service reads it: its MIME type and the
      data URL a `FileReader` produces for it. */
  datatype ImageFile = ImageFile(mimeType: string, dataUrl: string)

  /** What the `catch` receives: an `Error` with its message, or any other
      thrown value. */
  datatype Thrown = ErrorInstance(message: string) | OtherValue

  const UnknownError := "An unknown error occurred during generation."

  /** The text `handleGenerateClick` stores for a caught value. */
  function ErrorText(t: Thrown): string
  {
    match t
    case ErrorInstance(message) => message
    case OtherValue => UnknownError
  }

  /** The service rejects only with `Error` values: its failure message is
      what the `catch` sees. */
  function Outcome(r: Result<GeneratedResult, string>): (o: Result<GeneratedResult, Thrown>)
    ensures o.Success? <==> r.Success?
    ensures o.Success? ==> o.value == r.value
    ensures o.Failure? ==> ErrorText(o.error) == r.error
  {
    match r
    case Success(g) => Success(g)
    case Failure(m) => Failure(ErrorInstance(m))
  }

  class AppState {
    var language: Language
    var uploadedImage: Option<ImageFile>
    var drawingStyle: DrawingStyle
    var userInstructions: string
    var generatedResult: Option<GeneratedResult>
    var isLoading: bool
    var error: Option<string>

    /** What the handlers keep true: while a generation runs there is an
        image and nothing else to show, and a result and an error are never
        held together. */
    ghost predicate Valid()
      reads this
    {
      && (isLoading ==> uploadedImage.Some? && generatedResult.None? && error.None?)
      && (generatedResult.None? || error.None?)
    }

    /** The initial values of the `useState` calls. */
    constructor()
      ensures Valid()
      ensures language == Fr && drawingStyle == Simple && userInstructions == ""
      ensures uploadedImage.None? && generatedResult.None? && error.None? && !isLoading
      ensures !CanGenerate() && CurrentView() == Welcome(false)
    {
      language := Fr;
      uploadedImage := None;
      drawingStyle := Simple;
      userInstructions := "";
      generatedResult := None;
      isLoading := false;
      error := None;
    }

    /** The generate button is enabled: an image is there and nothing runs,
        that is, the panel is not showing the loading skeleton. */
    predicate CanGenerate()
      reads this
      ensures CanGenerate() <==> uploadedImage.Some? && CurrentView() != Skeleton
    {
      uploadedImage.Some? && !isLoading
    }

    /** What the result panel shows for the current state. */
    function CurrentView(): View
      reads this
    {
      SelectView(generatedResult, isLoading, error, uploadedImage.Some?)
    }

    /** `handleImageUpload`: keep the new image, forget the last result and
        the last error. */
    method Upload(file: ImageFile)
      requires Valid()
      modifies this
      ensures Valid()
      ensures uploadedImage == Some(file) && generatedResult.None? && error.None?
      ensures isLoading == old(isLoading)
      ensures language == old(language) && drawingStyle == old(drawingStyle)
      ensures userInstructions == old(userInstructions)
      ensures CanGenerate() <==> !isLoading
      ensures CurrentView() == if isLoading then Skeleton else Welcome(true)
    {
      uploadedImage := Some(file);
      generatedResult := None;
      error := None;
    }

    /** The start of `handleGenerateClick`: without an image nothing happens;
        otherwise loading begins and the last result and error are cleared. */
    method StartGenerate() returns (started: bool)
      requires Valid()
      modifies this
      ensures Valid()
      ensures started <==> old(uploadedImage).Some?
      ensures !started ==>
        && uploadedImage == old(uploadedImage) && generatedResult == old(generatedResult)
        && error == old(error) && isLoading == old(isLoading)
      ensures started ==> isLoading && generatedResult.None? && error.None?
      ensures started ==> !CanGenerate() && CurrentView() == Skeleton
      ensures uploadedImage == old(uploadedImage)
      ensures language == old(language) && drawingStyle == old(drawingStyle)
      ensures userInstructions == old(userInstructions)
    {
      if uploadedImage.None? {
        return false;
      }
      isLoading := true;
      error := None;
      generatedResult := None;
      started := true;
    }

    /** The end of `handleGenerateClick`: the `try` keeps the result, the
        `catch` keeps the error text, the `finally` ends loading. */
    method FinishGenerate(outcome: Result<GeneratedResult, Thrown>)
      requires Valid() && isLoading
      modifies this
      ensures Valid()
      ensures !isLoading && CanGenerate()
      ensures outcome.Success? ==> generatedResult == Some(outcome.value) && error.None?
      ensures outcome.Failure? ==>
        && generatedResult.None?
        && error == Some(if outcome.error.ErrorInstance? then outcome.error.message else UnknownError)
      ensures outcome.Success? ==> CurrentView().ResultPanel? && CurrentView().image == outcome.value.image
      ensures outcome.Failure? && ErrorText(outcome.error) != "" ==> CurrentView() == ErrorPanel(ErrorText(outcome.error))
      ensures outcome.Failure? && ErrorText(outcome.error) == "" ==> CurrentView() == Welcome(true)
      ensures uploadedImage == old(uploadedImage)
      ensures language == old(language) && drawingStyle == old(drawingStyle)
      ensures userInstructions == old(userInstructions)
    {
      match outcome {
        case Success(g) =>
          generatedResult := Some(g);
        case Failure(t) =>
          error := Some(ErrorText(t));
      }
      isLoading := false;
    }

    /** `handleGenerateClick` as a whole, with the awaited service outcome
        given as a parameter. */
    method Generate(outcome: Result<GeneratedResult, Thrown>)
      requires Valid()
      modifies this
      ensures Valid()
      ensures old(uploadedImage).None? ==>
        && uploadedImage == old(uploadedImage) && generatedResult == old(generatedResult)
        && error == old(error) && isLoading == old(isLoading)
      ensures old(uploadedImage).Some? ==>
        && !isLoading
        && (outcome.Success? ==> generatedResult == Some(outcome.value) && error.None?)
        && (outcome.Failure? ==>
              && generatedResult.None?
              && error == Some(if outcome.error.ErrorInstance? then outcome.error.message else UnknownError))
      ensures uploadedImage == old(uploadedImage)
      ensures language == old(language) && drawingStyle == old(drawingStyle)
      ensures userInstructions == old(userInstructions)
    {
      var started := StartGenerate();
      if started {
        FinishGenerate(outcome);
      }
    }

    /** `handleGenerateClick` calling the service with the uploaded file and
        the page's current style, instructions and language; the models'
        replies, the JSON parser, the two translation calls and the order of
        rejection are parameters. */
    method GenerateWithService(
      imageModel: (GeminiService.FilePart, string) -> Result<GeminiService.ImageResponse, string>,
      analysisModel: (GeminiService.FilePart, string) -> Result<GeminiService.AnalysisResponse, string>,
      parse: string -> Option<DrawingAnalysis>,
      guidelinesTranslator: string -> Option<string>,
      tipsTranslator: string -> Option<string>,
      imageRejectsFirst: bool)
      requires Valid()
      modifies this
      ensures Valid()
      ensures old(uploadedImage).None? ==>
        && generatedResult == old(generatedResult) && error == old(error) && isLoading == old(isLoading)
      ensures old(uploadedImage).Some? ==>
        var part := GeminiService.FileToGenerativePart(old(uploadedImage).value.mimeType, old(uploadedImage).value.dataUrl);
        var image := GeminiService.ImageBranch(imageModel(part, Prompts.ImageGenerationPrompt(drawingStyle, userInstructions)));
        var analysis := GeminiService.AnalysisBranch(analysisModel(part, Prompts.AnalysisPrompt(userInstructions)), parse);
        && !isLoading
        && (generatedResult.Some? <==> image.Success? && analysis.Success?)
        && (generatedResult.Some? ==>
              && generatedResult.value.image == image.value && error.None?
              && generatedResult.value.analysis == DrawingAnalysis(
                   GeminiService.TranslateText(analysis.value.guidelines, language, guidelinesTranslator),
                   GeminiService.TranslateText(analysis.value.tips, language, tipsTranslator)))
        && (generatedResult.None? ==>
              error == Some(if image.Failure? && (analysis.Success? || imageRejectsFirst) then image.error else analysis.error))
      ensures uploadedImage == old(uploadedImage)
      ensures language == old(language) && drawingStyle == old(drawingStyle)
      ensures userInstructions == old(userInstructions)
    {
      var started := StartGenerate();
      if started {
        var file := uploadedImage.value;
        var r := GeminiService.GenerateDrawingAndAnalysis(
          file.mimeType, file.dataUrl, drawingStyle, userInstructions, language,
          imageModel, analysisModel, parse, guidelinesTranslator, tipsTranslator, imageRejectsFirst);
        FinishGenerate(Outcome(r));
      }
    }
  }
}
