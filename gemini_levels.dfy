/**
 * The level classifiers of lib/gemini-services.ts (extractThreatLevel,
 * extractPriority, extractQualityLevel, extractContaminationLevel): each
 * lower-cases the model's answer and returns the first keyword of a fixed
 * priority list that occurs in it, or a default. Each label is its keyword.
 */
module GeminiLevels {
  import opened JsStrings

  /** The position of the first keyword occurring in `lower`, or -1. */
  function FirstKeyword(lower: string, keywords: seq<string>): (i: int)
    ensures -1 <= i < |keywords|
    ensures i >= 0 ==> Contains(lower, keywords[i])
    ensures forall j :: 0 <= j < |keywords| && (i == -1 || j < i) ==> !Contains(lower, keywords[j])
    decreases |keywords|
  {
    if |keywords| == 0 then -1
    else if Contains(lower, keywords[0]) then 0
    else
      var k := FirstKeyword(lower, keywords[1..]);
      if k == -1 then -1 else k + 1
  }

  /** The label of the first keyword found in the lower-cased text, else `fallback`. */
  function Classify(text: string, keywords: seq<string>, fallback: string): string {
    var i := FirstKeyword(ToLower(text), keywords);
    if i == -1 then fallback else keywords[i]
  }

  const ThreatKeywords: seq<string> := ["critical", "high", "moderate"]
  const PriorityKeywords: seq<string> := ["urgent", "high", "medium"]
  const QualityKeywords: seq<string> := ["excellent", "good", "poor", "critical"]
  const ContaminationKeywords: seq<string> := ["severe", "high", "moderate"]

  /** `extractThreatLevel`: never empty, so its caller's `!threatLevel` guard never fires. */
  function ThreatLevel(text: string): (r: string)
    ensures r in {"low", "moderate", "high", "critical"} && r != ""
  {
    Classify(text, ThreatKeywords, "low")
  }

  /** `extractPriority`. */
  function Priority(text: string): (r: string)
    ensures r in {"low", "medium", "high", "urgent"} && r != ""
  {
    Classify(text, PriorityKeywords, "low")
  }

  /** `extractQualityLevel`. */
  function QualityLevel(text: string): (r: string)
    ensures r in {"excellent", "good", "moderate", "poor", "critical"} && r != ""
  {
    Classify(text, QualityKeywords, "moderate")
  }

  /** `extractContaminationLevel`. */
  function ContaminationLevel(text: string): (r: string)
    ensures r in {"low", "moderate", "high", "severe"} && r != ""
  {
    Classify(text, ContaminationKeywords, "low")
  }

  /** The threat ladder: critical over high over moderate, and low when none occurs. */
  lemma ThreatLevelLadder(text: string)
    ensures var lower := ToLower(text);
      (ThreatLevel(text) == "critical" <==> Contains(lower, "critical"))
      && (ThreatLevel(text) == "high" <==> !Contains(lower, "critical") && Contains(lower, "high"))
      && (ThreatLevel(text) == "moderate" <==>
            !Contains(lower, "critical") && !Contains(lower, "high") && Contains(lower, "moderate"))
      && (ThreatLevel(text) == "low" <==>
            !Contains(lower, "critical") && !Contains(lower, "high") && !Contains(lower, "moderate"))
  {
    var i := FirstKeyword(ToLower(text), ThreatKeywords);
    assert ThreatKeywords[0] == "critical" && ThreatKeywords[1] == "high" && ThreatKeywords[2] == "moderate";
  }

  /** The priority ladder: urgent over high over medium, and low when none occurs. */
  lemma PriorityLadder(text: string)
    ensures var lower := ToLower(text);
      (Priority(text) == "urgent" <==> Contains(lower, "urgent"))
      && (Priority(text) == "high" <==> !Contains(lower, "urgent") && Contains(lower, "high"))
      && (Priority(text) == "medium" <==>
            !Contains(lower, "urgent") && !Contains(lower, "high") && Contains(lower, "medium"))
      && (Priority(text) == "low" <==>
            !Contains(lower, "urgent") && !Contains(lower, "high") && !Contains(lower, "medium"))
  {
    assert PriorityKeywords[0] == "urgent" && PriorityKeywords[1] == "high" && PriorityKeywords[2] == "medium";
  }

  /**
   * The quality ladder: excellent over good over poor over critical, and
   * moderate when none occurs ("moderate" itself is never looked for).
   */
  lemma QualityLevelLadder(text: string)
    ensures var lower := ToLower(text);
      (QualityLevel(text) == "excellent" <==> Contains(lower, "excellent"))
      && (QualityLevel(text) == "good" <==> !Contains(lower, "excellent") && Contains(lower, "good"))
      && (QualityLevel(text) == "poor" <==>
            !Contains(lower, "excellent") && !Contains(lower, "good") && Contains(lower, "poor"))
      && (QualityLevel(text) == "critical" <==>
            !Contains(lower, "excellent") && !Contains(lower, "good") && !Contains(lower, "poor")
            && Contains(lower, "critical"))
      && (QualityLevel(text) == "moderate" <==>
            !Contains(lower, "excellent") && !Contains(lower, "good") && !Contains(lower, "poor")
            && !Contains(lower, "critical"))
  {
    assert QualityKeywords[0] == "excellent" && QualityKeywords[1] == "good";
    assert QualityKeywords[2] == "poor" && QualityKeywords[3] == "critical";
  }

  /** The contamination ladder: severe over high over moderate, and low when none occurs. */
  lemma ContaminationLevelLadder(text: string)
    ensures var lower := ToLower(text);
      (ContaminationLevel(text) == "severe" <==> Contains(lower, "severe"))
      && (ContaminationLevel(text) == "high" <==> !Contains(lower, "severe") && Contains(lower, "high"))
      && (ContaminationLevel(text) == "moderate" <==>
            !Contains(lower, "severe") && !Contains(lower, "high") && Contains(lower, "moderate"))
      && (ContaminationLevel(text) == "low" <==>
            !Contains(lower, "severe") && !Contains(lower, "high") && !Contains(lower, "moderate"))
  {
    assert ContaminationKeywords[0] == "severe" && ContaminationKeywords[1] == "high";
    assert ContaminationKeywords[2] == "moderate";
  }

  /**
   * More text never demotes a classification: with anything added before or
   * after, the keyword found is the same one or one earlier in the list.
   */
  lemma ClassifyMonotone(a: string, b: string, keywords: seq<string>)
    ensures var i := FirstKeyword(ToLower(a), keywords);
      var j := FirstKeyword(ToLower(a + b), keywords);
      var k := FirstKeyword(ToLower(b + a), keywords);
      i >= 0 ==> 0 <= j <= i && 0 <= k <= i
  {
    var i := FirstKeyword(ToLower(a), keywords);
    if i >= 0 {
      ToLowerConcat(a, b);
      ToLowerConcat(b, a);
      ContainsConcat(ToLower(a), ToLower(b), keywords[i]);
      ContainsConcat(ToLower(b), ToLower(a), keywords[i]);
    }
  }

  /** For instance, a "critical" assessment stays critical whatever else the answer says. */
  lemma CriticalStaysCritical(a: string, b: string)
    requires ThreatLevel(a) == "critical"
    ensures ThreatLevel(a + b) == "critical" && ThreatLevel(b + a) == "critical"
  {
    ClassifyMonotone(a, b, ThreatKeywords);
  }
}
