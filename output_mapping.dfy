/**
 * The inverse letterbox map and label choice of the two
 * `convert_rect_to_image_obj` overloads: network-input coordinates back
 * to frame pixels, either as a clamped corner rectangle or as a centre
 * box with one scored hypothesis.
 */
module OutputMapping {
  import opened Detection
  import opened Letterbox

  /** `jsk_recognition_msgs/Rect`: corner and extent in frame pixels. */
  datatype Rect = Rect(x: real, y: real, width: real, height: real)

  /** `std_msgs/Header`. */
  datatype Header = Header(seq_: nat, stamp: int, frameId: string)

  /** A default-constructed header: sequence number 0, zero stamp, no frame. */
  const DefaultHeader: Header := Header(0, 0, "")

  /** `jsk_recognition_msgs/RectArray`. */
  datatype RectArray = RectArray(header: Header, rects: seq<Rect>)

  /** `jsk_recognition_msgs/ClassificationResult`: parallel label lists. */
  datatype ClassificationResult = ClassificationResult(
    header: Header,
    labels: seq<nat>,
    labelNames: seq<string>,
    labelProba: seq<real>,
    classifier: string,
    targetNames: seq<string>)

  /** `geometry_msgs/Pose2D`. */
  datatype Pose2D = Pose2D(x: real, y: real, theta: real)

  /** `vision_msgs/BoundingBox2D`: centre and extent in frame pixels. */
  datatype BoundingBox2D = BoundingBox2D(center: Pose2D, sizeX: real, sizeY: real)

  /** `vision_msgs/ObjectHypothesisWithPose`: one class and its score. */
  datatype ObjectHypothesis = ObjectHypothesis(id: nat, score: real)

  /** `vision_msgs/Detection2D` (its random `detection_id` is not modelled). */
  datatype Detection2D = Detection2D(header: Header, results: seq<ObjectHypothesis>, bbox: BoundingBox2D, isTracking: bool)

  /** `vision_msgs/Detection2DArray`. */
  datatype Detection2DArray = Detection2DArray(header: Header, detections: seq<Detection2D>)

  /** The name the classifier reports itself under. */
  const Classifier: string := "vision_darknet_detect"

  /** A resolved label: its display name and the id published with it. */
  datatype Label = Label(name: string, id: nat)

  /** The sentinel for a class the custom name table does not cover. */
  const Unknown: Label := Label("unknown", 255)

  /**
   * The split-mode rectangle of one detection. Each field undoes the
   * letterbox (divide by the ratio after removing the border) unless the
   * network-space input field is negative, in which case it is 0. The
   * test is on the input, not on the mapped value, and there is no upper
   * bound.
   */
  function ToRect(d: RectClassScore, ratio: real, leftRight: int, topBottom: int): (r: Rect)
    requires ratio > 0.0
    ensures d.x < 0.0 ==> r.x == 0.0
    ensures d.x >= 0.0 ==> r.x * ratio + leftRight as real == d.x
    ensures d.y < 0.0 ==> r.y == 0.0
    ensures d.y >= 0.0 ==> r.y * ratio + topBottom as real == d.y
    ensures d.w < 0.0 ==> r.width == 0.0
    ensures d.w >= 0.0 ==> r.width * ratio == d.w
    ensures d.h < 0.0 ==> r.height == 0.0
    ensures d.h >= 0.0 ==> r.height * ratio == d.h
    ensures r.width >= 0.0 && r.height >= 0.0
  {
    var x := d.x / ratio - leftRight as real / ratio;
    var y := d.y / ratio - topBottom as real / ratio;
    var width := d.w / ratio;
    var height := d.h / ratio;
    Rect(if d.x < 0.0 then 0.0 else x,
         if d.y < 0.0 then 0.0 else y,
         if d.w < 0.0 then 0.0 else width,
         if d.h < 0.0 then 0.0 else height)
  }

  /**
   * The label of a class: the built-in (COCO) name when no custom name
   * table is in use; otherwise the table's entry when the class is inside
   * the table, and the sentinel exactly when it is not.
   */
  function ResolveLabel(classType: nat, useCocoNames: bool, customNames: seq<string>,
                        classString: nat -> string): (l: Label)
    ensures useCocoNames ==> l == Label(classString(classType), classType)
    ensures !useCocoNames && classType < |customNames| ==> l.id == classType && l.name == customNames[l.id]
    ensures !useCocoNames ==> (l == Unknown <==> classType >= |customNames| || (classType == 255 && customNames[255] == "unknown"))
  {
    if useCocoNames then Label(classString(classType), classType)
    else if classType < |customNames| then Label(customNames[classType], classType)
    else Unknown
  }

  /**
   * The combined-mode record of one detection: one hypothesis carrying
   * the class and score, and a box whose centre and extent are the
   * network-space ones with the letterbox undone; no clamping, no rotation.
   */
  function ToDetection2D(d: RectClassScore, header: Header, ratio: real, leftRight: int, topBottom: int): (r: Detection2D)
    requires ratio > 0.0
    ensures r.header == header && !r.isTracking
    ensures r.results == [ObjectHypothesis(d.classType, d.score)]
    ensures r.bbox.center.x * ratio + leftRight as real == d.x + d.w / 2.0
    ensures r.bbox.center.y * ratio + topBottom as real == d.y + d.h / 2.0
    ensures r.bbox.center.theta == 0.0
    ensures r.bbox.sizeX * ratio == d.w && r.bbox.sizeY * ratio == d.h
  {
    var center := Pose2D(d.x / ratio - leftRight as real / ratio + d.w / ratio * 0.5,
                         d.y / ratio - topBottom as real / ratio + d.h / ratio * 0.5,
                         0.0);
    var bbox := BoundingBox2D(center, d.w / ratio, d.h / ratio);
    Detection2D(header, [ObjectHypothesis(d.classType, d.score)], bbox, false)
  }

  /**
   * The split-mode clamp tests the network-space input, so a box whose
   * corner lies in the top padding still reports a negative `y`. A 640 by
   * 480 frame fed to a 416 by 416 network is scaled by 0.65 to 312 rows,
   * which leaves a 52-row border; an input `y` of 13 then gives -60.
   */
  lemma ClampMissesBorderOverlap()
    ensures 416.0 / 640.0 == 0.65 && 480.0 * 0.65 == 312.0 && Border(312, 416) == 52
    ensures ToRect(RectClassScore(0.0, 13.0, 10.0, 10.0, 0.9, 0), 0.65, 0, 52).y == -60.0
  {
  }

  /**
   * A non-negative input `y` lying inside the top-bottom border always maps
   * to a negative `rect.y`. (The left-right border is always 0 after a
   * resize, so `x` cannot be caught this way.)
   */
  lemma NegativeInsideBorder(d: RectClassScore, ratio: real, leftRight: int, topBottom: int)
    requires ratio > 0.0
    requires 0.0 <= d.y < topBottom as real
    ensures ToRect(d, ratio, leftRight, topBottom).y < 0.0
  {
    var r := ToRect(d, ratio, leftRight, topBottom);
    assert r.y * ratio < 0.0;
  }

  /**
   * Letterbox round trip: a frame-space box `(X, Y, W, H)` with
   * non-negative fields, placed in network space by the forward letterbox
   * map (scale by the ratio, shift by the border), comes back unchanged
   * from the split-mode rectangle.
   */
  lemma LetterboxRoundTrip(x: real, y: real, w: real, h: real, ratio: real, leftRight: nat, topBottom: nat,
                           score: real, classType: nat)
    requires ratio > 0.0 && x >= 0.0 && y >= 0.0 && w >= 0.0 && h >= 0.0
    ensures ToRect(RectClassScore(x * ratio + leftRight as real, y * ratio + topBottom as real,
                                  w * ratio, h * ratio, score, classType),
                   ratio, leftRight, topBottom) == Rect(x, y, w, h)
  {
    var d := RectClassScore(x * ratio + leftRight as real, y * ratio + topBottom as real,
                            w * ratio, h * ratio, score, classType);
    assert d.x >= 0.0 && d.y >= 0.0 && d.w >= 0.0 && d.h >= 0.0;
    var r := ToRect(d, ratio, leftRight, topBottom);
    assert r.x * ratio == x * ratio;
    assert r.y * ratio == y * ratio;
    assert r.width * ratio == w * ratio;
    assert r.height * ratio == h * ratio;
  }

  /**
   * The two output modes agree where the clamp does not fire: the
   * combined-mode centre is the centre of the split-mode rectangle, and
   * the extents coincide.
   */
  lemma ModesAgreeWithoutClamp(d: RectClassScore, header: Header, ratio: real, leftRight: int, topBottom: int)
    requires ratio > 0.0 && d.x >= 0.0 && d.y >= 0.0 && d.w >= 0.0 && d.h >= 0.0
    ensures ToDetection2D(d, header, ratio, leftRight, topBottom).bbox.center.x ==
            ToRect(d, ratio, leftRight, topBottom).x + ToRect(d, ratio, leftRight, topBottom).width / 2.0
    ensures ToDetection2D(d, header, ratio, leftRight, topBottom).bbox.center.y ==
            ToRect(d, ratio, leftRight, topBottom).y + ToRect(d, ratio, leftRight, topBottom).height / 2.0
    ensures ToDetection2D(d, header, ratio, leftRight, topBottom).bbox.sizeX == ToRect(d, ratio, leftRight, topBottom).width
    ensures ToDetection2D(d, header, ratio, leftRight, topBottom).bbox.sizeY == ToRect(d, ratio, leftRight, topBottom).height
  {
    var r := ToRect(d, ratio, leftRight, topBottom);
    var b := ToDetection2D(d, header, ratio, leftRight, topBottom).bbox;
    assert b.center.x * ratio == (r.x + r.width / 2.0) * ratio;
    assert b.center.y * ratio == (r.y + r.height / 2.0) * ratio;
    assert b.sizeX * ratio == r.width * ratio;
    assert b.sizeY * ratio == r.height * ratio;
  }

  /**
   * Decoding then mapping in combined mode sends the candidate's centre
   * straight through the inverse letterbox: `(cx - border) / ratio`.
   */
  lemma CombinedCenterIsInverseLetterbox(c: Candidate, minConfidence: real, header: Header,
                                         ratio: real, leftRight: int, topBottom: int)
    requires ratio > 0.0 && Qualifies(c, minConfidence)
    ensures DecodeCandidate(c, minConfidence).Some?
    ensures ToDetection2D(DecodeCandidate(c, minConfidence).value, header, ratio, leftRight, topBottom).bbox.center.x * ratio
            == c.bbox.x - leftRight as real
    ensures ToDetection2D(DecodeCandidate(c, minConfidence).value, header, ratio, leftRight, topBottom).bbox.center.y * ratio
            == c.bbox.y - topBottom as real
  {
  }

  /**
   * In custom-name mode the published id is the sentinel 255 exactly when
   * the class is outside the table or is class 255 itself, so with more
   * than 255 names the id alone cannot tell class 255 from "unknown".
   */
  lemma SentinelIdIsAmbiguous(classType: nat, customNames: seq<string>, classString: nat -> string)
    ensures ResolveLabel(classType, false, customNames, classString).id == 255 <==>
            classType >= |customNames| || classType == 255
  {
  }
}
