/**
 * The prompt `retry_gemini_request` sends: a fixed instruction template followed
 * by the extracted text cut to its first 45,000 characters.
 */
module Prompt {

  /** The most characters of extracted text that reach the model. */
  const MaxPromptChars: nat := 45000

  /** The fixed instruction, with the f-string's doubled braces rendered as single ones. */
  const PromptTemplate: string :=
    "You are an expert Resume Analyzer AI. Your task is to meticulously analyze the provided resume text " +
    "and return ONLY a valid JSON object, adhering strictly to the specified format and constraints. " +
    "Do not include any introductory text, explanations, or markdown formatting around the JSON output." +
    "**Analysis Context & Criteria:: {\"score\": 0-100, \"summary\": \"5 bullet points max\", " +
    "\"top_skills\": [\"skill1\", \"skill2\", \"skill3\"], \"improvements\": [\"actionable_item1\", " +
    "\"actionable_item2\", \"actionable_item3\", \"actionable_item4\", \"actionable_item5\"]} Resume: "

  /** `text[:45000]`: a prefix of the text, of length min(|text|, 45000). */
  function Truncate(text: string): (t: string)
    ensures |t| == if |text| <= MaxPromptChars then |text| else MaxPromptChars
    ensures t <= text
  {
    if |text| <= MaxPromptChars then text else text[..MaxPromptChars]
  }

  /** The whole prompt: the template, then the truncated text. */
  function BuildPrompt(text: string): (p: string)
    ensures |p| <= |PromptTemplate| + MaxPromptChars
    ensures PromptTemplate <= p && p[|PromptTemplate|..] == Truncate(text)
  {
    PromptTemplate + Truncate(text)
  }

  /** Text of at most 45,000 characters is embedded unchanged. */
  lemma ShortTextIsUnchanged(text: string)
    requires |text| <= MaxPromptChars
    ensures Truncate(text) == text
  {
  }

  /** Truncating twice is truncating once. */
  lemma TruncateIsIdempotent(text: string)
    ensures Truncate(Truncate(text)) == Truncate(text)
  {
  }

  /** Characters past the 45,000th never reach the model: texts that agree up to there give the same prompt. */
  lemma TailNeverReachesModel(a: string, b: string)
    requires MaxPromptChars <= |a| && MaxPromptChars <= |b|
    requires forall i :: 0 <= i < MaxPromptChars ==> a[i] == b[i]
    ensures BuildPrompt(a) == BuildPrompt(b)
  {
  }
}
