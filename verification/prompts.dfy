/** Prompt construction (services/prompts.ts): the text sent with the image
    to ask for a sketch, and the text that asks for the written critique. */
module Prompts {
  import opened Types
  import opened JsString

  // ---------------------------------------------------------------- image prompt

  /** The two composition rules that open every image prompt. */
  const RulesIntro: string := "You are a drawing assistant. Your primary task is to generate a pencil sketch based on an uploaded image and user instructions.\n\n**IMPORTANT RULE 1 (No Instructions):** If no specific user instructions are provided, you MUST create a drawing of the ENTIRE subject from the uploaded image. The composition must be a 1:1 representation of the original. DO NOT zoom, crop, change the angle, or focus on a specific part. The drawing must show the full subject as seen in the source image.\n\n**IMPORTANT RULE 2 (With Instructions):** If the user provides instructions to focus on, zoom into, or detail a specific part of the image (e.g., 'the face', 'the hands', 'the visage'), you MUST generate a zoomed-in sketch of ONLY that part. This instruction overrides the default behavior of drawing the full subject.\n\n"

  const PlainWhiteBackground: string := "The background must always be plain white."

  const StyleGoal: string := "\n\n**Style Goal:** The sketch's style should be consistent, as if drawn by the same artist with a specific technique. Maintain this style across different generations."

  /** The shared prefix of every image prompt (`stylePrefix`). */
  const StylePrefix: string := RulesIntro + PlainWhiteBackground + StyleGoal

  /** Every style body opens with this phrase and then a short phrase naming the style. */
  const DrawingMustBe: string := " The drawing must be "

  const AnatomyLead: string := "in a 'how-to-draw'"
  const DetailedLead: string := "a highly detailed,"
  const SimpleLead: string := "a simple, clean"

  const AnatomyRest: string := " anatomical style, focusing entirely on the construction and foundational planning phase. It should reveal the 'thinking process' of a master artist.\n**IMPORTANT:** The primary visual elements MUST be the underlying geometric shapes (spheres, cylinders, boxes) and all the foundational 'scaffolding' an artist would use. This includes:\n*   **Construction Shapes:** Dark, clear lines for joints, limbs, torso, etc.\n*   **Perspective Lines:** Show perspective guidelines if applicable to the landscape.\n*   **Light Source:** Use simple arrows or lines to indicate the direction of the main light source.\n*   **Support Structures:** Show the internal structural lines that support different body parts.\n\nIn stark contrast, the final contour lines that define the subject's surface should be extremely faint, light, and sketchy, like a ghosted overlay. The goal is to teach the anatomical foundation and the artist's planning process. The construction and planning lines MUST dominate the image. The result should look like an authentic page from a master artist's anatomical study sketchbook, filled with planning and structural detail."

  const DetailedRest: string := " realistic pencil drawing. If the user has requested a specific area of focus, apply this detailed style ONLY to that zoomed-in part. Employ techniques like cross-hatching and smooth blending for shading. Emphasize intricate textures and subtle value shifts to create a sense of depth and photorealism. The result should look like an advanced artwork created with graphite pencils on textured paper."

  const SimpleRest: string := " pencil line drawing (contour drawing). If the user has requested a specific area of focus, apply this minimalist style ONLY to that zoomed-in part. Focus exclusively on the main outlines. Use a single, consistent line weight. The style must be minimalist, elegant, and modern, capturing the subject's essence with the fewest lines possible. No shading or internal details."

  /** The text that introduces the user's own instructions. */
  const InstructionsLead: string := "\n\nAdditional user instructions to follow: \""

  /** The style-specific text that follows the shared prefix (the `switch`;
      its `default` arm is the 'Simple' one, which no other style reaches). */
  function StyleBody(style: DrawingStyle): string
  {
    DrawingMustBe + StyleLead(style) + StyleRest(style)
  }

  function StyleLead(style: DrawingStyle): string
  {
    match style
    case Anatomy => AnatomyLead
    case Detailed => DetailedLead
    case Simple => SimpleLead
  }

  function StyleRest(style: DrawingStyle): string
  {
    match style
    case Anatomy => AnatomyRest
    case Detailed => DetailedRest
    case Simple => SimpleRest
  }

  /** `basePrompt` */
  function BasePrompt(style: DrawingStyle): string
  {
    StylePrefix + StyleBody(style)
  }

  /** `getImageGenerationPrompt(style, userInstructions)` */
  function ImageGenerationPrompt(style: DrawingStyle, userInstructions: string): string
  {
    if userInstructions != "" then
      BasePrompt(style) + InstructionsLead + userInstructions + "\""
    else
      BasePrompt(style)
  }

  /** Every image prompt starts with the shared prefix. */
  lemma ImagePromptSharedPrefix(style: DrawingStyle, userInstructions: string)
    ensures StylePrefix <= ImageGenerationPrompt(style, userInstructions)
  {
    var base := BasePrompt(style);
    PrefixExtend(StylePrefix, StylePrefix, StyleBody(style));
    if userInstructions != "" {
      PrefixExtend(StylePrefix, base, InstructionsLead);
      PrefixExtend(StylePrefix, base + InstructionsLead, userInstructions);
      PrefixExtend(StylePrefix, base + InstructionsLead + userInstructions, "\"");
    }
  }

  /** Every image prompt, whatever the style and instructions, asks for a
      plain white background. */
  lemma ImagePromptWhiteBackground(style: DrawingStyle, userInstructions: string)
    ensures Contains(ImageGenerationPrompt(style, userInstructions), PlainWhiteBackground)
  {
    var base := BasePrompt(style);
    ContainsInfix(RulesIntro, PlainWhiteBackground, StyleGoal);
    ContainsAppend(StylePrefix, StyleBody(style), PlainWhiteBackground);
    if userInstructions != "" {
      ContainsAppend(base, InstructionsLead, PlainWhiteBackground);
      ContainsAppend(base + InstructionsLead, userInstructions, PlainWhiteBackground);
      ContainsAppend(base + InstructionsLead + userInstructions, "\"", PlainWhiteBackground);
    }
  }

  /** Without instructions the prompt is the style's base prompt exactly. */
  lemma ImagePromptWithoutInstructions(style: DrawingStyle)
    ensures ImageGenerationPrompt(style, "") == BasePrompt(style)
  {
  }

  /** With instructions the prompt is the base prompt, the lead-in sentence,
      the instructions verbatim and a closing double quote, in that order. */
  lemma ImagePromptWithInstructions(style: DrawingStyle, userInstructions: string)
    requires userInstructions != ""
    ensures var p := ImageGenerationPrompt(style, userInstructions);
      && BasePrompt(style) <= p
      && |p| == |BasePrompt(style)| + |InstructionsLead| + |userInstructions| + 1
      && p[|BasePrompt(style)|..|BasePrompt(style)| + |InstructionsLead|] == InstructionsLead
      && p[|p| - |userInstructions| - 1..] == userInstructions + "\""
  {
    ThreePieces(BasePrompt(style), InstructionsLead, userInstructions, "\"");
  }

  /** The layout of `b + lead + x + q`, proved once for any pieces. */
  lemma ThreePieces(b: string, lead: string, x: string, q: string)
    ensures var p := b + lead + x + q;
      && b <= p
      && |p| == |b| + |lead| + |x| + |q|
      && p[|b|..|b| + |lead|] == lead
      && p[|p| - |x| - |q|..] == x + q
  {
    var p := b + lead + x + q;
    assert p == b + (lead + (x + q));
    assert p[|b|..|b| + |lead|] == lead;
    assert p[|p| - |x| - |q|..] == x + q;
  }

  /** The three styles give pairwise different base prompts, and hence
      different prompts for the same instructions: right after the shared
      prefix and " The drawing must be ", the style phrases part at their
      first or third character. */
  lemma StylesDiffer(s1: DrawingStyle, s2: DrawingStyle, userInstructions: string)
    requires s1 != s2
    ensures BasePrompt(s1) != BasePrompt(s2)
    ensures ImageGenerationPrompt(s1, userInstructions) != ImageGenerationPrompt(s2, userInstructions)
  {
    var k := if s1 == Anatomy || s2 == Anatomy then 0 else 2;
    assert StyleLead(s1)[k] != StyleLead(s2)[k];
    PartAt(DrawingMustBe, StyleLead(s1), StyleRest(s1), StyleLead(s2), StyleRest(s2), k);
    AppendKeepsDistinct(StyleBody(s1), StyleBody(s2), StylePrefix);
    if userInstructions != "" {
      var b1, b2 := BasePrompt(s1), BasePrompt(s2);
      AppendKeepsDistinct(b1, b2, InstructionsLead);
      AppendKeepsDistinct(b1 + InstructionsLead, b2 + InstructionsLead, userInstructions);
      AppendKeepsDistinct(b1 + InstructionsLead + userInstructions, b2 + InstructionsLead + userInstructions, "\"");
    }
  }

  /** Two strings that share a beginning `d` and then differ at offset `k`
      of the next piece are different. */
  lemma PartAt(d: string, a1: string, x1: string, a2: string, x2: string, k: nat)
    requires k < |a1| && k < |a2| && a1[k] != a2[k]
    ensures d + a1 + x1 != d + a2 + x2
  {
    assert (d + a1 + x1)[|d| + k] == a1[k];
    assert (d + a2 + x2)[|d| + k] == a2[k];
  }

  // ---------------------------------------------------------------- analysis prompt

  const AnalysisOpening: string := "You are a friendly and encouraging drawing teacher. Analyze the subject in the uploaded image."

  const ClauseLead: string := "The user has provided specific instructions: \""

  const ClauseTail: string := "\"" + ". Your analysis MUST focus entirely on this request. For example, if they ask to zoom on a 'visage', your guidelines and tips should only be about drawing the face, ignoring the rest of the body."

  const SectionsRequest: string := "Provide 'General Guidelines' on how to approach drawing the subject (or the specified part), and a separate list of 'Tips' for capturing its key features. "

  /** The sentence that asks for a JSON object with keys 'guidelines' and 'tips'. */
  const JsonShapeRequest: string := "Structure your response as a JSON object with two keys: 'guidelines' (a string with markdown newlines, using '*' for bullet points and '**' for bold) and 'tips' (a string with markdown newlines, using '*' for bullet points and '**' for bold)."

  /** The middle slot of the analysis prompt. */
  function InstructionsClause(userInstructions: string): string
  {
    if userInstructions != "" then ClauseLead + userInstructions + ClauseTail else ""
  }

  /** `getAnalysisPrompt(userInstructions)` */
  function AnalysisPrompt(userInstructions: string): string
  {
    AnalysisOpening + "\n\n" + InstructionsClause(userInstructions) + "\n\n" + SectionsRequest + JsonShapeRequest
  }

  /** Whatever the instructions, the analysis prompt opens with the teacher
      sentence and ends with the request for the two-key JSON object. */
  lemma AnalysisPromptFixedText(userInstructions: string)
    ensures AnalysisOpening <= AnalysisPrompt(userInstructions)
    ensures var p := AnalysisPrompt(userInstructions);
      |JsonShapeRequest| <= |p| && p[|p| - |JsonShapeRequest|..] == JsonShapeRequest
    ensures Contains(AnalysisPrompt(userInstructions), JsonShapeRequest)
  {
    var clause := InstructionsClause(userInstructions);
    var front := AnalysisOpening + "\n\n" + clause + "\n\n" + SectionsRequest;
    EndsWith(front, JsonShapeRequest);
    PrefixExtend(AnalysisOpening, AnalysisOpening, "\n\n");
    PrefixExtend(AnalysisOpening, AnalysisOpening + "\n\n", clause);
    PrefixExtend(AnalysisOpening, AnalysisOpening + "\n\n" + clause, "\n\n");
    PrefixExtend(AnalysisOpening, AnalysisOpening + "\n\n" + clause + "\n\n", SectionsRequest);
    PrefixExtend(AnalysisOpening, front, JsonShapeRequest);
  }

  /** Instructions appear in the analysis prompt quoted after the lead-in
      sentence, and the prompt differs from the one without instructions
      exactly when instructions are given; without them the middle slot is
      empty. */
  lemma AnalysisInstructionClause(userInstructions: string)
    ensures userInstructions != "" ==>
      Contains(AnalysisPrompt(userInstructions), ClauseLead + userInstructions + "\"")
    ensures AnalysisPrompt(userInstructions) == AnalysisPrompt("") <==> userInstructions == ""
    ensures userInstructions == "" ==>
      AnalysisPrompt(userInstructions) == AnalysisOpening + "\n\n\n\n" + SectionsRequest + JsonShapeRequest
  {
    var clause := InstructionsClause(userInstructions);
    if userInstructions != "" {
      var needle := ClauseLead + userInstructions + "\"";
      QuotedAtFront(ClauseLead, userInstructions, ClauseTail);
      var front := AnalysisOpening + "\n\n";
      ContainsAppend(clause, front, needle);
      ContainsAppend(front + clause, "\n\n", needle);
      ContainsAppend(front + clause + "\n\n", SectionsRequest, needle);
      ContainsAppend(front + clause + "\n\n" + SectionsRequest, JsonShapeRequest, needle);
      assert |AnalysisPrompt(userInstructions)| > |AnalysisPrompt("")|;
    } else {
      assert AnalysisOpening + "\n\n" + "" + "\n\n" == AnalysisOpening + "\n\n\n\n";
    }
  }

  /** `cl + x + "\""` begins `cl + x + tail` when the tail opens with a double quote. */
  lemma QuotedAtFront(cl: string, x: string, tail: string)
    requires |tail| > 0 && tail[0] == '"'
    ensures Contains(cl + x + tail, cl + x + "\"")
  {
    assert (cl + x + tail)[0..] == cl + x + tail;
    ContainsAt(cl + x + tail, cl + x + "\"", 0);
  }
}
