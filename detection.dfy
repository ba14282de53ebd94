/**
 * Decoding of the detector's raw candidates: the first-match class rule
 * and the centre-to-corner box conversion of `Yolo3Detector::forward`.
 */
module Detection {

  datatype Option<T> = None | Some(value: T)

  /** Darknet's `box`: centre (`x`, `y`) and extent in network-input pixels. */
  datatype Box = Box(x: real, y: real, w: real, h: real)

  /** Darknet's `detection`: one candidate box and its per-class probabilities. */
  datatype Candidate = Candidate(bbox: Box, prob: seq<real>)

  /**
   * `RectClassScore<float>`: a corner-form box with the chosen class and
   * its probability.
   */
  datatype RectClassScore = RectClassScore(x: real, y: real, w: real, h: real, score: real, classType: nat)

  /**
   * The class `forward` picks: the smallest class index whose probability
   * reaches the confidence floor, which need not be the most probable one.
   */
  function FirstQualifying(prob: seq<real>, minConfidence: real): (r: Option<nat>)
    ensures r.None? <==> forall j :: 0 <= j < |prob| ==> prob[j] < minConfidence
    ensures r.Some? ==> r.value < |prob| && prob[r.value] >= minConfidence
    ensures r.Some? ==> forall j :: 0 <= j < r.value ==> prob[j] < minConfidence
    decreases |prob|
  {
    if |prob| == 0 then None
    else if prob[0] >= minConfidence then Some(0)
    else match FirstQualifying(prob[1..], minConfidence)
      case None => None
      case Some(k) => Some(k + 1)
  }

  /** A qualifying class with none qualifying before it is the first-match choice. */
  lemma FirstQualifyingIs(prob: seq<real>, minConfidence: real, k: nat)
    requires k < |prob| && prob[k] >= minConfidence
    requires forall j :: 0 <= j < k ==> prob[j] < minConfidence
    ensures FirstQualifying(prob, minConfidence) == Some(k)
  {
  }

  /** Some class of the candidate reaches the confidence floor. */
  ghost predicate Qualifies(c: Candidate, minConfidence: real)
  {
    exists j :: 0 <= j < |c.prob| && c.prob[j] >= minConfidence
  }

  /**
   * `d` is what the first-match rule makes of `c`: the first qualifying
   * class, scored by its own probability, with the box moved from centre
   * form to top-left-corner form and its extent copied.
   */
  ghost predicate IsFirstMatchDecoding(d: RectClassScore, c: Candidate, minConfidence: real)
  {
    && d.classType < |c.prob|
    && c.prob[d.classType] >= minConfidence
    && (forall j :: 0 <= j < d.classType ==> c.prob[j] < minConfidence)
    && d.score == c.prob[d.classType]
    && d.x == c.bbox.x - c.bbox.w / 2.0
    && d.y == c.bbox.y - c.bbox.h / 2.0
    && d.w == c.bbox.w
    && d.h == c.bbox.h
  }

  /** One candidate through the loop body of `forward`. */
  function DecodeCandidate(c: Candidate, minConfidence: real): (r: Option<RectClassScore>)
    ensures r.Some? <==> Qualifies(c, minConfidence)
    ensures r.Some? ==> IsFirstMatchDecoding(r.value, c, minConfidence)
  {
    match FirstQualifying(c.prob, minConfidence)
    case None => None
    case Some(k) =>
      Some(RectClassScore(c.bbox.x - c.bbox.w / 2.0, c.bbox.y - c.bbox.h / 2.0,
                          c.bbox.w, c.bbox.h, c.prob[k], k))
  }

  /** The detections `forward` returns for a candidate list, in candidate order. */
  function Decode(cands: seq<Candidate>, minConfidence: real): (r: seq<RectClassScore>)
    ensures |r| <= |cands|
    decreases |cands|
  {
    if |cands| == 0 then []
    else
      var init := Decode(cands[..|cands| - 1], minConfidence);
      match DecodeCandidate(cands[|cands| - 1], minConfidence)
      case None => init
      case Some(d) => init + [d]
  }

  /** Decoding one more candidate appends its decoding, if it has one. */
  lemma DecodeExtend(cands: seq<Candidate>, i: nat, minConfidence: real)
    requires i < |cands|
    ensures Decode(cands[..i + 1], minConfidence) ==
            Decode(cands[..i], minConfidence) +
            match DecodeCandidate(cands[i], minConfidence) case None => [] case Some(d) => [d]
  {
    assert cands[..i + 1][..i] == cands[..i];
  }

  /** The positions of the candidates `Decode` keeps, in order. */
  ghost function Origins(cands: seq<Candidate>, minConfidence: real): seq<nat>
    decreases |cands|
  {
    if |cands| == 0 then []
    else
      var init := Origins(cands[..|cands| - 1], minConfidence);
      if Qualifies(cands[|cands| - 1], minConfidence) then init + [|cands| - 1] else init
  }

  /** One origin per detection, each naming a candidate of the list. */
  lemma {:induction false} OriginsMatchDecode(cands: seq<Candidate>, minConfidence: real)
    ensures |Origins(cands, minConfidence)| == |Decode(cands, minConfidence)|
    ensures forall k :: 0 <= k < |Origins(cands, minConfidence)| ==> Origins(cands, minConfidence)[k] < |cands|
    decreases |cands|
  {
    if |cands| > 0 {
      OriginsMatchDecode(cands[..|cands| - 1], minConfidence);
    }
  }

  /** The k-th detection is the first-match decoding of the candidate at the k-th origin. */
  lemma {:induction false} DecodeAtOrigins(cands: seq<Candidate>, minConfidence: real)
    ensures |Origins(cands, minConfidence)| == |Decode(cands, minConfidence)|
    ensures forall k :: 0 <= k < |Origins(cands, minConfidence)| ==>
              Origins(cands, minConfidence)[k] < |cands| &&
              IsFirstMatchDecoding(Decode(cands, minConfidence)[k], cands[Origins(cands, minConfidence)[k]], minConfidence)
    decreases |cands|
  {
    if |cands| > 0 {
      var init := cands[..|cands| - 1];
      DecodeAtOrigins(init, minConfidence);
      OriginsMatchDecode(cands, minConfidence);
      assert forall i :: 0 <= i < |init| ==> init[i] == cands[i];
    }
  }

  /** The origins strictly increase, all below the list's length. */
  lemma {:induction false} OriginsIncreasing(cands: seq<Candidate>, minConfidence: real)
    ensures forall k :: 0 <= k < |Origins(cands, minConfidence)| ==> Origins(cands, minConfidence)[k] < |cands|
    ensures forall k, l :: 0 <= k < l < |Origins(cands, minConfidence)| ==>
              Origins(cands, minConfidence)[k] < Origins(cands, minConfidence)[l]
    decreases |cands|
  {
    if |cands| > 0 {
      OriginsIncreasing(cands[..|cands| - 1], minConfidence);
    }
  }

  /** A candidate position is an origin exactly when the candidate qualifies. */
  lemma {:induction false} OriginsAreQualifying(cands: seq<Candidate>, minConfidence: real)
    ensures forall i :: 0 <= i < |cands| ==>
              (Qualifies(cands[i], minConfidence) <==> i in Origins(cands, minConfidence))
    decreases |cands|
  {
    if |cands| > 0 {
      var init := cands[..|cands| - 1];
      OriginsAreQualifying(init, minConfidence);
      OriginsIncreasing(init, minConfidence);
      assert forall i :: 0 <= i < |init| ==> init[i] == cands[i];
    }
  }

  /**
   * Decoding is an order-preserving first-match filter: the k-th detection
   * is the first-match decoding of candidate `Origins[k]`, those positions
   * strictly increase, and a candidate is among them exactly when one of
   * its classes reaches the confidence floor.
   */
  lemma {:induction false} DecodeIsOrderedFirstMatch(cands: seq<Candidate>, minConfidence: real)
    ensures |Origins(cands, minConfidence)| == |Decode(cands, minConfidence)|
    ensures forall k :: 0 <= k < |Origins(cands, minConfidence)| ==>
              Origins(cands, minConfidence)[k] < |cands| &&
              IsFirstMatchDecoding(Decode(cands, minConfidence)[k], cands[Origins(cands, minConfidence)[k]], minConfidence)
    ensures forall k, l :: 0 <= k < l < |Origins(cands, minConfidence)| ==>
              Origins(cands, minConfidence)[k] < Origins(cands, minConfidence)[l]
    ensures forall i :: 0 <= i < |cands| ==>
              (Qualifies(cands[i], minConfidence) <==> i in Origins(cands, minConfidence))
  {
    DecodeAtOrigins(cands, minConfidence);
    OriginsIncreasing(cands, minConfidence);
    OriginsAreQualifying(cands, minConfidence);
  }

  /** A frame whose candidates all fall below the floor yields no detection. */
  lemma {:induction false} DecodeEmptyWhenNoneQualifies(cands: seq<Candidate>, minConfidence: real)
    requires forall i :: 0 <= i < |cands| ==> !Qualifies(cands[i], minConfidence)
    ensures Decode(cands, minConfidence) == []
    decreases |cands|
  {
    if |cands| > 0 {
      DecodeEmptyWhenNoneQualifies(cands[..|cands| - 1], minConfidence);
    }
  }

  /**
   * The first-match rule is not the best-match rule: with floor 0.5 and
   * probabilities 0.4, 0.55, 0.7 the chosen class is 1, not the most
   * probable class 2.
   */
  lemma FirstMatchIsNotArgmax()
    ensures FirstQualifying([0.4, 0.55, 0.7], 0.5) == Some(1)
  {
    assert [0.4, 0.55, 0.7][1..] == [0.55, 0.7];
  }
}
