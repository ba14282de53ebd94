/**
 * `Yolo3DetectorNode`: the ROS node around the detector. It keeps the
 * letterbox parameters of the last frame (scale and the two borders),
 * turns a `bgr8` frame into darknet's planar RGB image, and maps the
 * detections back to frame pixels in one of two output formats.
 */
module DetectorNode {
  import opened PixelLayout
  import opened Detection
  import opened Letterbox
  import opened OutputMapping
  import Darknet

  /** `n` is the integer nearest to `x`, up to the tie at a half. */
  ghost predicate Rounds(n: int, x: real)
  {
    n as real - 0.5 <= x <= n as real + 0.5
  }

  /** Written so far by `convert_ipl_to_image`: rows before `i`; in row `i`, planes before `k`; in plane `k`, columns before `j`. */
  ghost predicate RowPlaneDone(row: nat, col: nat, plane: nat, i: nat, k: nat, j: nat)
  {
    row < i || (row == i && (plane < k || (plane == k && col < j)))
  }

  /** The buffer `convert_ipl_to_image` has built once it reaches row `i`, plane `k`, column `j`. */
  ghost function RowPlanePartial(spec: seq<real>, w: nat, h: nat, i: nat, k: nat, j: nat): (r: seq<real>)
    ensures |r| == |spec|
  {
    if w * h == 0 then spec
    else
      seq(|spec|, idx requires 0 <= idx < |spec| =>
        if RowPlaneDone(RowOf(idx, w, h), ColOf(idx, w, h), PlaneOf(idx, w, h), i, k, j) then spec[idx] else 0.0)
  }

  /** Nothing is written before the loop starts. */
  lemma RowPlaneStart(spec: seq<real>, w: nat, h: nat)
    requires w * h > 0
    ensures forall idx :: 0 <= idx < |spec| ==> RowPlanePartial(spec, w, h, 0, 0, 0)[idx] == 0.0
  {
  }

  /**
   * One write of the innermost loop: the sample of pixel (`i`, `j`) in
   * plane `k` moves the partial buffer on by one column.
   */
  lemma RowPlaneStep(spec: seq<real>, w: nat, h: nat, i: nat, k: nat, j: nat)
    requires i < h && j < w && PlanarIndex(w, h, i, j, k) < |spec|
    ensures RowPlanePartial(spec, w, h, i, k, j)[PlanarIndex(w, h, i, j, k) := spec[PlanarIndex(w, h, i, j, k)]]
            == RowPlanePartial(spec, w, h, i, k, j + 1)
  {
    PlanarIndexSplit(w, h, i, j, k);
    forall idx | 0 <= idx < |spec| && idx != PlanarIndex(w, h, i, j, k)
      ensures RowPlaneDone(RowOf(idx, w, h), ColOf(idx, w, h), PlaneOf(idx, w, h), i, k, j) ==
              RowPlaneDone(RowOf(idx, w, h), ColOf(idx, w, h), PlaneOf(idx, w, h), i, k, j + 1)
    {
      PlanarIndexJoin(idx, w, h);
    }
  }

  /** Finishing the columns of plane `k` is starting plane `k + 1`. */
  lemma RowPlaneNextPlane(spec: seq<real>, w: nat, h: nat, i: nat, k: nat)
    requires w * h > 0
    ensures RowPlanePartial(spec, w, h, i, k, w) == RowPlanePartial(spec, w, h, i, k + 1, 0)
  {
    forall idx: nat | idx < |spec|
      ensures ColOf(idx, w, h) < w
    {
      PlanarIndexJoin(idx, w, h);
    }
  }

  /** Finishing the `c` planes of row `i` is starting row `i + 1`. */
  lemma RowPlaneNextRow(spec: seq<real>, w: nat, h: nat, c: nat, i: nat)
    requires |spec| == w * h * c && w * h > 0
    ensures RowPlanePartial(spec, w, h, i, c, 0) == RowPlanePartial(spec, w, h, i + 1, 0, 0)
  {
    forall idx: nat | idx < |spec|
      ensures PlaneOf(idx, w, h) < c
    {
      PlaneBound(idx, w, h, c);
    }
  }

  /** After the last row every sample has been written. */
  lemma RowPlaneEnd(spec: seq<real>, w: nat, h: nat)
    ensures RowPlanePartial(spec, w, h, h, 0, 0) == spec
  {
    if w * h > 0 {
      forall idx: nat | idx < |spec|
        ensures RowOf(idx, w, h) < h
      {
        PlanarIndexJoin(idx, w, h);
      }
    }
  }

  /** `rgbgr_image` after `i` swaps: the first `i` samples of planes 0 and 2 exchanged. */
  ghost function SwappedPrefix(s: seq<real>, n: nat, i: nat): (r: seq<real>)
    requires i <= n && 3 * n <= |s|
    ensures |r| == |s|
  {
    seq(|s|, x requires 0 <= x < |s| =>
      if x < i then s[x + 2 * n] else if 2 * n <= x < 2 * n + i then s[x - 2 * n] else s[x])
  }

  /** All `n` swaps done is the plane exchange. */
  lemma SwappedPrefixComplete(s: seq<real>, n: nat)
    requires 3 * n <= |s|
    ensures SwappedPrefix(s, n, n) == SwapPlanes(s, n)
  {
  }

  class Yolo3DetectorNode {
    /** `image_ratio_`: the scale from frame pixels to network-input pixels. */
    var imageRatio: real
    /** `image_top_bottom_border_` and `image_left_right_border_`, in network-input pixels. */
    var imageTopBottomBorder: int
    var imageLeftRightBorder: int
    var useCocoNames: bool
    var customNames: seq<string>
    var yoloDetector: Darknet.Yolo3Detector

    /** The letterbox parameters can undo the letterbox. */
    ghost predicate Valid()
      reads this
    {
      imageRatio > 0.0 && imageTopBottomBorder >= 0 && imageLeftRightBorder >= 0
    }

    /**
     * The node after `Run` has loaded the detector and the names: custom
     * names are in use exactly when a names file was given. The letterbox
     * starts as the identity.
     */
    constructor (yoloDetector: Darknet.Yolo3Detector, namesFile: Option<seq<string>>)
      ensures Valid()
      ensures this.yoloDetector == yoloDetector
      ensures useCocoNames <==> namesFile.None?
      ensures namesFile.Some? ==> customNames == namesFile.value
      ensures imageRatio == 1.0 && imageTopBottomBorder == 0 && imageLeftRightBorder == 0
    {
      this.yoloDetector := yoloDetector;
      imageRatio := 1.0;
      imageTopBottomBorder := 0;
      imageLeftRightBorder := 0;
      match namesFile
      case None =>
        useCocoNames := true;
        customNames := [];
      case Some(names) =>
        useCocoNames := false;
        customNames := names;
    }

    /**
     * `rgbgr_image`: exchanges sample `i` with sample `i + 2*w*h` for every
     * pixel `i`, turning a BGR planar image into an RGB one in place.
     */
    method RgbgrImage(im: Image)
      requires 3 * (im.w * im.h) <= im.data.Length
      modifies im.data
      ensures im.data[..] == SwapPlanes(old(im.data[..]), im.w * im.h)
    {
      SwapOuterPlanes(im.data, im.w * im.h);
    }

    /** The loop of `rgbgr_image`, over planes of `n = w*h` samples. */
    static method SwapOuterPlanes(data: array<real>, n: nat)
      requires 3 * n <= data.Length
      modifies data
      ensures data[..] == SwapPlanes(old(data[..]), n)
    {
      ghost var s := data[..];
      var i := 0;
      while i < n
        invariant i <= n
        invariant forall x :: 0 <= x < data.Length ==> data[x] == SwappedPrefix(s, n, i)[x]
      {
        var swap := data[i];
        data[i] := data[i + n * 2];
        data[i + n * 2] := swap;
        i := i + 1;
      }
      assert data[..] == SwappedPrefix(s, n, n);
      SwappedPrefixComplete(s, n);
    }

    /**
     * The loops of `convert_ipl_to_image`: for each row `i`, each channel
     * `k` and each column `j`, byte `i*step + j*c + k` divided by 255 goes
     * to sample `k*w*h + i*w + j`.
     */
    static method IplToPlanar(data: seq<byte>, w: nat, h: nat, c: nat, step: nat) returns (buf: array<real>)
      requires FrameShape(data, w, h, c, step)
      ensures fresh(buf)
      ensures buf[..] == Planar(data, w, h, c, step)
    {
      buf := new real[w * h * c](_ => 0.0);
      if w * h == 0 {
        assert buf[..] == Planar(data, w, h, c, step);
        return;
      }
      ghost var spec := Planar(data, w, h, c, step);
      RowPlaneStart(spec, w, h);
      var i := 0;
      while i < h
        invariant i <= h
        invariant buf[..] == RowPlanePartial(spec, w, h, i, 0, 0)
      {
        var k := 0;
        while k < c
          invariant k <= c
          invariant buf[..] == RowPlanePartial(spec, w, h, i, k, 0)
        {
          StorePlaneRow(buf, data, w, h, c, step, i, k);
          RowPlaneNextPlane(spec, w, h, i, k);
          k := k + 1;
        }
        RowPlaneNextRow(spec, w, h, c, i);
        i := i + 1;
      }
      RowPlaneEnd(spec, w, h);
    }

    /** The innermost loop of `convert_ipl_to_image`: channel `k` of every pixel of row `i`. */
    static method StorePlaneRow(buf: array<real>, data: seq<byte>, w: nat, h: nat, c: nat, step: nat, i: nat, k: nat)
      requires FrameShape(data, w, h, c, step) && i < h && k < c
      requires buf.Length == w * h * c
      requires buf[..] == RowPlanePartial(Planar(data, w, h, c, step), w, h, i, k, 0)
      modifies buf
      ensures buf[..] == RowPlanePartial(Planar(data, w, h, c, step), w, h, i, k, w)
    {
      ghost var spec := Planar(data, w, h, c, step);
      var j := 0;
      while j < w
        invariant j <= w
        invariant buf[..] == RowPlanePartial(spec, w, h, i, k, j)
      {
        PlanarAt(data, w, h, c, step, i, j, k);
        ChannelRowIndex(w, h, i, j, k);
        RowPlaneStep(spec, w, h, i, k, j);
        buf[k * w * h + i * w + j] := data[i * step + j * c + k] as real / 255.0;
        j := j + 1;
      }
    }

    /**
     * `convert_ipl_to_image` on the `bgr8` matrix of a frame. When the
     * frame differs from the network's input size it records the scale
     * `network width / frame width` and the borders `|resized - network| / 2`
     * that `copyMakeBorder` adds to the matrix `cv::resize` produced
     * (`resizedRows` by `resizedCols`, each the frame's length times the
     * scale, rounded); `bordered` is that padded matrix. Otherwise it keeps
     * the letterbox parameters as they were and uses the frame itself. The
     * matrix is then laid out planar and its outer planes swapped.
     */
    method ConvertIplToImage(mat: Mat, resizedRows: nat, resizedCols: nat, bordered: Mat) returns (im: Image)
      requires Valid()
      requires MatShaped(mat) && mat.channels == 3
      requires yoloDetector.networkW != mat.cols || yoloDetector.networkH != mat.rows ==>
                 yoloDetector.networkW > 0 && mat.cols > 0 &&
                 Rounds(resizedRows, mat.rows as real * (yoloDetector.networkW as real / mat.cols as real)) &&
                 Rounds(resizedCols, mat.cols as real * (yoloDetector.networkW as real / mat.cols as real)) &&
                 MatShaped(bordered) && bordered.channels == 3 &&
                 bordered.rows == PaddedSize(resizedRows, yoloDetector.networkH) &&
                 bordered.cols == PaddedSize(resizedCols, yoloDetector.networkW)
      modifies this`imageRatio, this`imageTopBottomBorder, this`imageLeftRightBorder
      ensures Valid()
      ensures yoloDetector.networkW != mat.cols || yoloDetector.networkH != mat.rows ==>
                && imageRatio == yoloDetector.networkW as real / mat.cols as real
                && imageTopBottomBorder == Border(resizedRows, yoloDetector.networkH)
                && imageLeftRightBorder == Border(resizedCols, yoloDetector.networkW)
                && imageLeftRightBorder == 0
                && im.w == bordered.cols && im.h == bordered.rows && im.c == 3
                && im.data[..] == SwapPlanes(Planar(bordered.data, bordered.cols, bordered.rows, 3, bordered.step),
                                             bordered.cols * bordered.rows)
      ensures yoloDetector.networkW == mat.cols && yoloDetector.networkH == mat.rows ==>
                && imageRatio == old(imageRatio)
                && imageTopBottomBorder == old(imageTopBottomBorder)
                && imageLeftRightBorder == old(imageLeftRightBorder)
                && im.w == mat.cols && im.h == mat.rows && im.c == 3
                && im.data[..] == SwapPlanes(Planar(mat.data, mat.cols, mat.rows, 3, mat.step), mat.cols * mat.rows)
      ensures fresh(im.data)
    {
      var networkInputWidth := yoloDetector.networkW;
      var networkInputHeight := yoloDetector.networkH;
      var finalMat := mat;
      if networkInputWidth != mat.cols || networkInputHeight != mat.rows {
        imageRatio := networkInputWidth as real / mat.cols as real;
        assert mat.cols as real * imageRatio == networkInputWidth as real;
        imageTopBottomBorder := Abs(resizedRows - networkInputHeight) / 2;
        imageLeftRightBorder := Abs(resizedCols - networkInputWidth) / 2;
        finalMat := bordered;
      }
      var buf := IplToPlanar(finalMat.data, finalMat.cols, finalMat.rows, finalMat.channels, finalMat.step);
      im := Image(finalMat.cols, finalMat.rows, finalMat.channels, buf);
      RgbgrImage(im);
    }

    /**
     * `convert_rect_to_image_obj`, combined mode: one `Detection2D` per
     * detection, in order, stamped with the frame's header.
     */
    method ConvertRectToDetections(inObjects: seq<RectClassScore>, header: Header) returns (detections: Detection2DArray)
      requires Valid()
      ensures detections.header == header
      ensures |detections.detections| == |inObjects|
      ensures forall i :: 0 <= i < |inObjects| ==>
                detections.detections[i] ==
                ToDetection2D(inObjects[i], header, imageRatio, imageLeftRightBorder, imageTopBottomBorder)
    {
      detections := Detection2DArray(header, []);
      var i := 0;
      while i < |inObjects|
        invariant i <= |inObjects|
        invariant detections.header == header && |detections.detections| == i
        invariant forall t :: 0 <= t < i ==>
                    detections.detections[t] ==
                    ToDetection2D(inObjects[t], header, imageRatio, imageLeftRightBorder, imageTopBottomBorder)
      {
        var detection := ToDetection2D(inObjects[i], header, imageRatio, imageLeftRightBorder, imageTopBottomBorder);
        detections := detections.(detections := detections.detections + [detection]);
        i := i + 1;
      }
    }

    /**
     * `convert_rect_to_image_obj`, split mode: a clamped rectangle per
     * detection and parallel label, id and score lists, in order. The
     * classifier name and (for custom names) the target names are only set
     * inside the loop, so an empty input leaves them empty. Both messages
     * are built fresh, so whatever header the caller had put on them is
     * replaced by a default one; unlike the combined mode, the frame's
     * header is not carried through.
     */
    method ConvertRectToRects(inObjects: seq<RectClassScore>, classString: nat -> string)
      returns (outRect: RectArray, outClass: ClassificationResult)
      requires Valid()
      ensures outRect.header == DefaultHeader && outClass.header == DefaultHeader
      ensures |outRect.rects| == |inObjects|
      ensures |outClass.labels| == |inObjects| && |outClass.labelNames| == |inObjects|
      ensures |outClass.labelProba| == |inObjects|
      ensures forall i :: 0 <= i < |inObjects| ==>
                outRect.rects[i] == ToRect(inObjects[i], imageRatio, imageLeftRightBorder, imageTopBottomBorder)
      ensures forall i :: 0 <= i < |inObjects| ==>
                Label(outClass.labelNames[i], outClass.labels[i]) ==
                ResolveLabel(inObjects[i].classType, useCocoNames, customNames, classString)
      ensures forall i :: 0 <= i < |inObjects| ==> outClass.labelProba[i] == inObjects[i].score
      ensures outClass.classifier == if |inObjects| == 0 then "" else Classifier
      ensures outClass.targetNames == if |inObjects| > 0 && !useCocoNames then customNames else []
    {
      var rects: seq<Rect> := [];
      var labelNames: seq<string> := [];
      var labels: seq<nat> := [];
      var labelProba: seq<real> := [];
      var classifier := "";
      var targetNames: seq<string> := [];
      var i := 0;
      while i < |inObjects|
        invariant i <= |inObjects|
        invariant |rects| == i && |labels| == i && |labelNames| == i && |labelProba| == i
        invariant forall t :: 0 <= t < i ==>
                    rects[t] == ToRect(inObjects[t], imageRatio, imageLeftRightBorder, imageTopBottomBorder)
        invariant forall t :: 0 <= t < i ==>
                    Label(labelNames[t], labels[t]) ==
                    ResolveLabel(inObjects[t].classType, useCocoNames, customNames, classString)
        invariant forall t :: 0 <= t < i ==> labelProba[t] == inObjects[t].score
        invariant classifier == if i == 0 then "" else Classifier
        invariant targetNames == if i > 0 && !useCocoNames then customNames else []
      {
        rects := rects + [ToRect(inObjects[i], imageRatio, imageLeftRightBorder, imageTopBottomBorder)];
        var resolved := ResolveLabel(inObjects[i].classType, useCocoNames, customNames, classString);
        labelNames := labelNames + [resolved.name];
        labels := labels + [resolved.id];
        labelProba := labelProba + [inObjects[i].score];
        classifier := Classifier;
        if !useCocoNames {
          targetNames := customNames;
        }
        i := i + 1;
      }
      outRect := RectArray(DefaultHeader, rects);
      outClass := ClassificationResult(DefaultHeader, labels, labelNames, labelProba, classifier, targetNames);
    }
  }
}
