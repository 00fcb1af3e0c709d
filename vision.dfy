/**
 * The image-processing collaborators shared by every detector in the
 * repository. Pixel work (OpenCV's Canny edge detector, matchTemplate with
 * TM_CCOEFF_NORMED and minMaxLoc) is not modelled: it enters the model as
 * function-typed parameters, so every property proved below holds for any
 * edge detector and any matcher.
 */
module Vision {

  /** A captured or loaded image; only its shape matters to the decision logic. */
  datatype Image = Image(width: nat, height: nat, pixels: seq<int>)

  /** What minMaxLoc reports for a matchTemplate result: the maximum score and its top-left location. */
  datatype Match = Match(score: real, x: int, y: int)

  /** cv2.Canny(image, low, high). */
  type EdgeFn = (Image, int, int) -> Image

  /** cv2.minMaxLoc(cv2.matchTemplate(frame, template, TM_CCOEFF_NORMED)), maximum part. */
  type MatchFn = (Image, Image) -> Match

  /** The two OpenCV primitives a detector consults, bundled. */
  datatype Engine = Engine(canny: EdgeFn, matcher: MatchFn)

  /** The edge thresholds used on both the live frame and every reference. */
  const CannyLow: int := 80
  const CannyHigh: int := 160

  /** The edge map of an image with the repository's fixed thresholds. */
  function EdgeMap(e: Engine, img: Image): Image
  {
    e.canny(img, CannyLow, CannyHigh)
  }

  /** The template fits inside the frame in both axes. */
  predicate Fits(template: Image, frame: Image)
  {
    template.height <= frame.height && template.width <= frame.width
  }

  /**
   * `cv2.matchTemplate(image, template, ...)` raises `cv2.error` for this pair:
   * the template is larger than the image in one axis and smaller in the
   * other. When it is at least as large in both axes OpenCV swaps the two
   * arguments and still returns a result.
   */
  predicate MatchRaises(template: Image, image: Image)
  {
    (template.height > image.height || template.width > image.width) &&
    (template.height < image.height || template.width < image.width)
  }

  /** A template that fits inside the image never makes the matcher raise. */
  lemma FitsNeverRaises(template: Image, image: Image)
    requires Fits(template, image)
    ensures !MatchRaises(template, image)
  {
  }
}
