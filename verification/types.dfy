/** The shared value types of types.ts. */
module Types {

  /** The three sketching styles a user can pick. */
  datatype DrawingStyle = Simple | Anatomy | Detailed

  /** The two interface languages; 'en' is the language the model writes in. */
  datatype Language = En | Fr

  /** The written critique: two markdown-flavoured texts. */
  datatype DrawingAnalysis = DrawingAnalysis(guidelines: string, tips: string)

  /** One successful generation: the sketch as a data URI and its critique. */
  datatype GeneratedResult = GeneratedResult(image: string, analysis: DrawingAnalysis)
}
