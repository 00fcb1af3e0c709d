/**
 * The single-reference check of frame_comparison.py: match the edge map of one
 * reference crop against the edge map of one captured frame, and report a
 * dialogue option when the score reaches 0.70 and the match does not sit in
 * the top 35% of the frame. Stateless; the printed messages and the debug
 * image are not modelled.
 */
module FrameComparison {

  import opened Options
  import opened Vision

  const Threshold: real := 0.70
  const TopFraction: real := 0.35

  /** The three ways `frame_comp` can end. */
  datatype Decision = BelowThreshold | TooHigh | Detected

  /** The decision on a match score and location, given the frame's height. */
  function Decide(m: Match, frameHeight: nat): (d: Decision)
    ensures d == BelowThreshold <==> m.score < Threshold
    ensures d == TooHigh <==> m.score >= Threshold && (m.y as real) < (frameHeight as real) * TopFraction
    ensures d == Detected <==> m.score >= Threshold && (m.y as real) >= (frameHeight as real) * TopFraction
  {
    if m.score >= Threshold then
      if (m.y as real) < (frameHeight as real) * TopFraction then TooHigh else Detected
    else BelowThreshold
  }

  /** The match `frame_comp` computes: both images through the same edge detector, then matched. */
  function EdgeMatch(e: Engine, template: Image, frame: Image): Match
  {
    e.matcher(EdgeMap(e, frame), EdgeMap(e, template))
  }

  /**
   * `frame_comp()`: the two images must have loaded (the source asserts it).
   * None stands for the `cv2.error` that `matchTemplate` raises on a pair of
   * edge maps of incompatible sizes; Some(flag) is the value returned.
   */
  function FrameComp(e: Engine, template: Option<Image>, frame: Option<Image>): (r: Option<bool>)
    requires template.Some? && frame.Some?
    ensures r.None? <==> MatchRaises(EdgeMap(e, template.value), EdgeMap(e, frame.value))
    ensures r == Some(true) <==>
              !MatchRaises(EdgeMap(e, template.value), EdgeMap(e, frame.value)) &&
              EdgeMatch(e, template.value, frame.value).score >= Threshold &&
              (EdgeMatch(e, template.value, frame.value).y as real) >= (frame.value.height as real) * TopFraction
  {
    if MatchRaises(EdgeMap(e, template.value), EdgeMap(e, frame.value)) then None
    else Some(Decide(EdgeMatch(e, template.value, frame.value), frame.value.height) == Detected)
  }

  /** A score below 0.70 is rejected wherever the match lies. */
  lemma BelowThresholdRejects(e: Engine, template: Image, frame: Image)
    requires !MatchRaises(EdgeMap(e, template), EdgeMap(e, frame))
    requires EdgeMatch(e, template, frame).score < Threshold
    ensures FrameComp(e, Some(template), Some(frame)) == Some(false)
  {
  }

  /** A score of exactly 0.70 passes the threshold. */
  lemma ThresholdInclusive(e: Engine, template: Image, frame: Image)
    requires !MatchRaises(EdgeMap(e, template), EdgeMap(e, frame))
    requires EdgeMatch(e, template, frame).score == 0.70
    requires (EdgeMatch(e, template, frame).y as real) >= (frame.height as real) * TopFraction
    ensures FrameComp(e, Some(template), Some(frame)) == Some(true)
  {
  }

  /** A good match in the top 35% of the frame is ignored. */
  lemma TopRegionRejects(e: Engine, template: Image, frame: Image)
    requires !MatchRaises(EdgeMap(e, template), EdgeMap(e, frame))
    requires EdgeMatch(e, template, frame).score >= Threshold
    requires (EdgeMatch(e, template, frame).y as real) < (frame.height as real) * TopFraction
    ensures FrameComp(e, Some(template), Some(frame)) == Some(false)
  {
  }

  /** A good match at or below 35% of the frame's height is reported. */
  lemma LowerRegionAccepts(e: Engine, template: Image, frame: Image)
    requires !MatchRaises(EdgeMap(e, template), EdgeMap(e, frame))
    requires EdgeMatch(e, template, frame).score >= Threshold
    requires (EdgeMatch(e, template, frame).y as real) >= (frame.height as real) * TopFraction
    ensures FrameComp(e, Some(template), Some(frame)) == Some(true)
  {
  }

  /** A reference crop whose edge map fits inside the frame's never makes the call raise. */
  lemma FittingCropNeverRaises(e: Engine, template: Image, frame: Image)
    requires Fits(EdgeMap(e, template), EdgeMap(e, frame))
    ensures FrameComp(e, Some(template), Some(frame)).Some?
  {
    FitsNeverRaises(EdgeMap(e, template), EdgeMap(e, frame));
  }

  /**
   * Only the edge maps at thresholds (80, 160) matter, for the template and the
   * frame alike: two edge detectors that agree there give the same verdict.
   */
  lemma SameEdgeThresholds(e1: Engine, e2: Engine, template: Image, frame: Image)
    requires e1.matcher == e2.matcher
    requires e1.canny(template, 80, 160) == e2.canny(template, 80, 160)
    requires e1.canny(frame, 80, 160) == e2.canny(frame, 80, 160)
    ensures FrameComp(e1, Some(template), Some(frame)) == FrameComp(e2, Some(template), Some(frame))
  {
  }
}
