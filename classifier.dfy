/** `is_generated_text`: the two-threshold rule that labels a text from its
    perplexity and its burstiness. */
module Classifier {
  /** A Python float as far as `<` can tell: a finite value, one of the two
      infinities, or NaN (an MLE model gives an unseen word probability 0,
      which makes the perplexity infinite). */
  datatype Float = Finite(value: real) | PosInf | NegInf | NaN

  /** IEEE 754 `x < bound` for a finite bound: false for NaN and +inf, true for -inf. */
  predicate LessThan(x: Float, bound: real) {
    match x
    case Finite(v) => v < bound
    case NegInf => true
    case PosInf => false
    case NaN => false
  }

  const PerplexityThreshold: real := 100.0
  const BurstinessThreshold: real := 1.0

  const LikelyGenerated: string := "Likely generated by a language model"
  const NotLikelyGenerated: string := "Not likely generated by a language model"

  /** `is_generated_text(perplexity, burstiness_score)`: one of the two labels,
      the first exactly when the perplexity is below 100 and the burstiness
      below 1. */
  function IsGeneratedText(perplexity: Float, burstiness: Float): (verdict: string)
    ensures verdict == LikelyGenerated || verdict == NotLikelyGenerated
    ensures verdict == LikelyGenerated <==>
      LessThan(perplexity, PerplexityThreshold) && LessThan(burstiness, BurstinessThreshold)
  {
    if LessThan(perplexity, PerplexityThreshold) && LessThan(burstiness, BurstinessThreshold) then
      LikelyGenerated
    else
      NotLikelyGenerated
  }

  /** Lowering either score never turns a "likely generated" verdict into the other one. */
  lemma IsGeneratedTextMonotone(p1: real, b1: real, p2: real, b2: real)
    requires p2 <= p1 && b2 <= b1
    ensures IsGeneratedText(Finite(p1), Finite(b1)) == LikelyGenerated ==>
      IsGeneratedText(Finite(p2), Finite(b2)) == LikelyGenerated
  {
  }

  /** An infinite or undefined perplexity always gives the second label. */
  lemma UnboundedPerplexityNotGenerated(perplexity: Float, burstiness: Float)
    requires perplexity == PosInf || perplexity.NaN?
    ensures IsGeneratedText(perplexity, burstiness) == NotLikelyGenerated
  {
  }

  /** The thresholds are strict: a perplexity of exactly 100 or a burstiness of
      exactly 1 gives the second label. */
  lemma ThresholdsAreStrict(p: real, b: real)
    ensures IsGeneratedText(Finite(100.0), Finite(b)) == NotLikelyGenerated
    ensures IsGeneratedText(Finite(p), Finite(1.0)) == NotLikelyGenerated
  {
  }

  /** The two labels differ, so the verdict is read off the string unambiguously. */
  lemma LabelsDistinct()
    ensures LikelyGenerated != NotLikelyGenerated
  {
    assert LikelyGenerated[0] != NotLikelyGenerated[0];
  }
}
