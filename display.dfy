/**
 * How both detection pages turn a result's numbers into words: the verdict
 * comes from the label alone, the sentiment classes from fixed thresholds.
 */
module Display {
  import opened Wrappers
  import opened Protocol

  const Positive: string := "Positive"
  const Negative: string := "Negative"
  const Neutral: string := "Neutral"
  const HighlySubjective: string := "Highly subjective"
  const MoreObjective: string := "More objective"

  /** The subjectivity above which text is called highly subjective. */
  const SubjectivityThreshold: real := 0.5

  /** `isFake`: there is a result and its label is exactly 1. */
  function IsFake(result: Option<AnalysisResult>): (fake: bool)
    ensures fake ==> result.Some?
    ensures result.Some? ==> (fake <==> result.value.classLabel == 1)
  {
    result.Some? && result.value.classLabel == 1
  }

  /** The polarity class: the sign of the polarity score. */
  function PolarityClass(polarity: real): (c: string)
    ensures c == Positive <==> polarity > 0.0
    ensures c == Negative <==> polarity < 0.0
    ensures c == Neutral <==> polarity == 0.0
  {
    if polarity > 0.0 then Positive else if polarity < 0.0 then Negative else Neutral
  }

  /** The subjectivity class: strictly above one half is highly subjective. */
  function SubjectivityClass(subjectivity: real): (c: string)
    ensures c == HighlySubjective <==> subjectivity > SubjectivityThreshold
    ensures c == MoreObjective <==> subjectivity <= SubjectivityThreshold
  {
    if subjectivity > SubjectivityThreshold then HighlySubjective else MoreObjective
  }

  /** The verdict ignores the fake probability: only the label decides it. */
  lemma VerdictIgnoresProbability(r: AnalysisResult, p: real)
    ensures IsFake(Some(r.(probFake := p))) == IsFake(Some(r))
  {
  }

  /** Negating the polarity swaps Positive and Negative and keeps Neutral. */
  lemma PolarityClassAntisymmetric(polarity: real)
    ensures PolarityClass(-polarity) ==
            if polarity > 0.0 then Negative else if polarity < 0.0 then Positive else Neutral
  {
  }

  /** Once highly subjective, every larger score is highly subjective too. */
  lemma SubjectivityClassMonotone(s: real, t: real)
    requires s <= t && SubjectivityClass(s) == HighlySubjective
    ensures SubjectivityClass(t) == HighlySubjective
  {
  }

  /** The boundary cases: exactly one half is "More objective", 0.51 is not. */
  lemma SubjectivityBoundary()
    ensures SubjectivityClass(0.5) == MoreObjective
    ensures SubjectivityClass(0.51) == HighlySubjective
    ensures PolarityClass(0.0) == Neutral && PolarityClass(0.01) == Positive && PolarityClass(-0.01) == Negative
  {
  }
}
