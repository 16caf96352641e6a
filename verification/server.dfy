/**
 * The decision logic of the face-verification service: the order in which
 * `verify_faces` and `calculate_similarity` raise their HTTP errors, the use
 * of the first detected face only, the rescaling of cosine similarity to a
 * percentage, and the verdict with its same-person decision and confidence
 * band. Image decoding, the face detector and the cosine computation are
 * parameters.
 */
module Server {
  import opened Wrappers

  /** An HTTP error response: its status code and detail text. */
  datatype HttpError = HttpError(status: int, detail: string)

  /** A detected face, reduced to its embedding vector. */
  datatype Face = Face(embedding: seq<real>)

  /** What the detector returns for one image: the faces it found, or the message of the exception it raised. */
  datatype Detection = Faces(faces: seq<Face>) | DetectorError(message: string)

  /** The three confidence bands of a verdict. */
  datatype Confidence = High | Medium | Low

  /** The body of a successful `/verify_faces` response. */
  datatype Verdict = Verdict(similarityScore: real, isSamePerson: bool, confidence: Confidence, model: string, status: string)

  /** Above this percentage the two faces are the same person. */
  const SameThreshold: real := 65.0

  /** Above this percentage the confidence is high. */
  const HighBand: real := 75.0

  /** Above this percentage (and up to the high band) the confidence is medium. */
  const MediumBand: real := 60.0

  const ModelName: string := "InsightFace ArcFace"

  const NotLoaded: HttpError := HttpError(500, "Face model not loaded")

  // ---------------------------------------------------------------------------
  // Rescaling

  /** `(similarity + 1) * 50`: cosine similarity in [-1, 1] as a percentage in [0, 100]. */
  function Rescale(c: real): (p: real)
    ensures c == p / 50.0 - 1.0
  {
    (c + 1.0) * 50.0
  }

  /** The rescale maps [-1, 1] into [0, 100], with -1, 0 and 1 going to 0, 50 and 100. */
  lemma RescaleRange(c: real)
    requires -1.0 <= c <= 1.0
    ensures 0.0 <= Rescale(c) <= 100.0
    ensures Rescale(-1.0) == 0.0 && Rescale(0.0) == 50.0 && Rescale(1.0) == 100.0
  {
  }

  /** Every percentage in [0, 100] is the rescale of a cosine in [-1, 1]: the map is onto. */
  lemma RescaleOnto(p: real)
    requires 0.0 <= p <= 100.0
    ensures var c := p / 50.0 - 1.0; -1.0 <= c <= 1.0 && Rescale(c) == p
  {
  }

  /** A higher cosine gives a strictly higher percentage. */
  lemma RescaleMonotone(c1: real, c2: real)
    requires c1 < c2
    ensures Rescale(c1) < Rescale(c2)
  {
  }

  // ---------------------------------------------------------------------------
  // preprocess_image and calculate_similarity

  /** `preprocess_image`: a decoding failure becomes 400 "Image processing error: <message>". */
  function Preprocess<Img>(bytes: seq<bv8>, decode: seq<bv8> -> Result<Img, string>): (r: Result<Img, HttpError>)
    ensures r.Err? <==> decode(bytes).Err?
    ensures r.Err? ==> r.error.status == 400 && r.error.detail == "Image processing error: " + decode(bytes).error
  {
    match decode(bytes)
    case Ok(img) => Ok(img)
    case Err(e) => Err(HttpError(400, "Image processing error: " + e))
  }

  /** The 500 response for an exception raised while detecting faces or comparing them. */
  function CalculationError(message: string): HttpError
  {
    HttpError(500, "Similarity calculation error: " + message)
  }

  /**
   * `calculate_similarity`: 500 when no model is loaded; otherwise both images
   * go through the detector before either face count is looked at; a
   * detector or cosine exception is 500, an image without a face 400 (image 1
   * first); the score is the rescaled cosine of the first face of each image.
   */
  function CalculateSimilarity<Img>(img1: Img, img2: Img, model: Option<Img -> Detection>,
                                    cosine: (seq<real>, seq<real>) -> Result<real, string>): (r: Result<real, HttpError>)
    ensures model.None? ==> r == Err(NotLoaded)
    ensures r.Ok? <==>
      && model.Some? && model.value(img1).Faces? && model.value(img2).Faces?
      && |model.value(img1).faces| > 0 && |model.value(img2).faces| > 0
      && cosine(model.value(img1).faces[0].embedding, model.value(img2).faces[0].embedding).Ok?
    ensures r.Ok? ==>
      r.value == Rescale(cosine(model.value(img1).faces[0].embedding, model.value(img2).faces[0].embedding).value)
    ensures r.Err? ==> r.error.status == 400 || r.error.status == 500
  {
    if model.None? then Err(NotLoaded)
    else
      var detect := model.value;
      match detect(img1)
      case DetectorError(m) => Err(CalculationError(m))
      case Faces(faces1) =>
        match detect(img2)
        case DetectorError(m) => Err(CalculationError(m))
        case Faces(faces2) =>
          if |faces1| == 0 then Err(HttpError(400, "No face detected in image 1"))
          else if |faces2| == 0 then Err(HttpError(400, "No face detected in image 2"))
          else
            match cosine(faces1[0].embedding, faces2[0].embedding)
            case Err(m) => Err(CalculationError(m))
            case Ok(c) => Ok(Rescale(c))
  }

  // ---------------------------------------------------------------------------
  // The verdict

  /** The confidence band of a percentage. */
  function ConfidenceOf(score: real): (c: Confidence)
    ensures c == High <==> score > HighBand
    ensures c == Medium <==> MediumBand < score <= HighBand
    ensures c == Low <==> score <= MediumBand
  {
    if score > HighBand then High else if score > MediumBand then Medium else Low
  }

  /** The success response for a percentage. */
  function MakeVerdict(score: real): (v: Verdict)
    ensures v.similarityScore == score
    ensures v.isSamePerson <==> score > SameThreshold
    ensures v.confidence == ConfidenceOf(score)
    ensures v.model == ModelName && v.status == "success"
  {
    Verdict(score, score > SameThreshold, ConfidenceOf(score), ModelName, "success")
  }

  /** A same-person verdict never has low confidence, and a high-confidence verdict is always same-person. */
  lemma VerdictConsistent(score: real)
    ensures MakeVerdict(score).isSamePerson ==> MakeVerdict(score).confidence != Low
    ensures MakeVerdict(score).confidence == High ==> MakeVerdict(score).isSamePerson
  {
  }

  /** A score of exactly 65 is not the same person: the threshold is strict. */
  lemma ThresholdIsStrict()
    ensures !MakeVerdict(65.0).isSamePerson && MakeVerdict(65.0).confidence == Medium
  {
  }

  /**
   * `verify_faces`: decode image 1, then image 2, then compute the
   * similarity, and answer with the verdict; the first error raised is the
   * response.
   */
  function VerifyFaces<Img>(bytes1: seq<bv8>, bytes2: seq<bv8>, decode: seq<bv8> -> Result<Img, string>,
                            model: Option<Img -> Detection>,
                            cosine: (seq<real>, seq<real>) -> Result<real, string>): (r: Result<Verdict, HttpError>)
    ensures r.Ok? ==> r.value.status == "success" && r.value.model == ModelName
    ensures r.Ok? ==> (r.value.isSamePerson <==> r.value.similarityScore > SameThreshold)
    ensures r.Err? ==> r.error.status == 400 || r.error.status == 500
    ensures r.Ok? <==> decode(bytes1).Ok? && decode(bytes2).Ok?
                       && CalculateSimilarity(decode(bytes1).value, decode(bytes2).value, model, cosine).Ok?
    ensures r.Ok? ==>
      r.value == MakeVerdict(CalculateSimilarity(decode(bytes1).value, decode(bytes2).value, model, cosine).value)
    ensures decode(bytes1).Ok? && decode(bytes2).Ok? && r.Err? ==>
      r == Err(CalculateSimilarity(decode(bytes1).value, decode(bytes2).value, model, cosine).error)
  {
    var img1 :- Preprocess(bytes1, decode);
    var img2 :- Preprocess(bytes2, decode);
    var score :- CalculateSimilarity(img1, img2, model, cosine);
    Ok(MakeVerdict(score))
  }

  /**
   * The success path end to end: two decodable images, a loaded model that
   * finds a face in each, and a cosine that succeeds on the first faces give
   * the verdict for the rescaled cosine.
   */
  lemma VerifyFacesSuccess<Img>(bytes1: seq<bv8>, bytes2: seq<bv8>, decode: seq<bv8> -> Result<Img, string>,
                                detect: Img -> Detection, cosine: (seq<real>, seq<real>) -> Result<real, string>)
    requires decode(bytes1).Ok? && decode(bytes2).Ok?
    requires detect(decode(bytes1).value).Faces? && |detect(decode(bytes1).value).faces| > 0
    requires detect(decode(bytes2).value).Faces? && |detect(decode(bytes2).value).faces| > 0
    requires cosine(detect(decode(bytes1).value).faces[0].embedding, detect(decode(bytes2).value).faces[0].embedding).Ok?
    ensures var c := cosine(detect(decode(bytes1).value).faces[0].embedding, detect(decode(bytes2).value).faces[0].embedding).value;
      VerifyFaces(bytes1, bytes2, decode, Some(detect), cosine) == Ok(MakeVerdict(Rescale(c)))
  {
  }

  // ---------------------------------------------------------------------------
  // Error order

  /** An undecodable image is reported as 400 whatever the model state; image 1 is decoded first. */
  lemma DecodeErrorsFirst<Img>(bytes1: seq<bv8>, bytes2: seq<bv8>, decode: seq<bv8> -> Result<Img, string>,
                               model: Option<Img -> Detection>, cosine: (seq<real>, seq<real>) -> Result<real, string>)
    ensures decode(bytes1).Err? ==>
      VerifyFaces(bytes1, bytes2, decode, model, cosine) == Err(HttpError(400, "Image processing error: " + decode(bytes1).error))
    ensures decode(bytes1).Ok? && decode(bytes2).Err? ==>
      VerifyFaces(bytes1, bytes2, decode, model, cosine) == Err(HttpError(400, "Image processing error: " + decode(bytes2).error))
  {
  }

  /** With both images decoded and no model loaded, the response is 500 and no detection runs. */
  lemma ModelCheckedBeforeDetection<Img>(bytes1: seq<bv8>, bytes2: seq<bv8>, decode: seq<bv8> -> Result<Img, string>,
                                         cosine: (seq<real>, seq<real>) -> Result<real, string>)
    requires decode(bytes1).Ok? && decode(bytes2).Ok?
    ensures VerifyFaces(bytes1, bytes2, decode, None, cosine) == Err(NotLoaded)
  {
  }

  /** When neither image has a face, the response names image 1. */
  lemma NoFaceImage1First<Img>(img1: Img, img2: Img, detect: Img -> Detection, cosine: (seq<real>, seq<real>) -> Result<real, string>)
    requires detect(img1) == Faces([]) && detect(img2).Faces?
    ensures CalculateSimilarity(img1, img2, Some(detect), cosine) == Err(HttpError(400, "No face detected in image 1"))
  {
  }

  /** Both detections run before any face count is checked: a detector failure on image 2 wins over a faceless image 1. */
  lemma DetectorFailureBeforeFaceCount<Img>(img1: Img, img2: Img, detect: Img -> Detection, cosine: (seq<real>, seq<real>) -> Result<real, string>)
    requires detect(img1) == Faces([]) && detect(img2).DetectorError?
    ensures CalculateSimilarity(img1, img2, Some(detect), cosine) == Err(CalculationError(detect(img2).message))
  {
  }

  /** Only the first face of each image matters: detectors that agree on the first faces give the same answer. */
  lemma FirstFaceOnly<Img>(img1: Img, img2: Img, d: Img -> Detection, e: Img -> Detection,
                           cosine: (seq<real>, seq<real>) -> Result<real, string>)
    requires d(img1).Faces? && e(img1).Faces? && d(img2).Faces? && e(img2).Faces?
    requires |d(img1).faces| > 0 && |e(img1).faces| > 0 && d(img1).faces[0] == e(img1).faces[0]
    requires |d(img2).faces| > 0 && |e(img2).faces| > 0 && d(img2).faces[0] == e(img2).faces[0]
    ensures CalculateSimilarity(img1, img2, Some(d), cosine) == CalculateSimilarity(img1, img2, Some(e), cosine)
  {
  }

  /** With a symmetric cosine, swapping two images that both show a face gives the same score. */
  lemma ScoreSymmetric<Img>(img1: Img, img2: Img, detect: Img -> Detection, cosine: (seq<real>, seq<real>) -> Result<real, string>)
    requires forall a, b :: cosine(a, b) == cosine(b, a)
    requires detect(img1).Faces? && |detect(img1).faces| > 0
    requires detect(img2).Faces? && |detect(img2).faces| > 0
    ensures CalculateSimilarity(img1, img2, Some(detect), cosine) == CalculateSimilarity(img2, img1, Some(detect), cosine)
  {
    assert cosine(detect(img1).faces[0].embedding, detect(img2).faces[0].embedding)
        == cosine(detect(img2).faces[0].embedding, detect(img1).faces[0].embedding);
  }
}
