/**
 * `darknet::Yolo3Detector`: the detector wrapper that holds the network's
 * confidence floor and input size, converts a `bgr8` message to a planar
 * image, and decodes the network's candidates.
 */
module Darknet {
  import opened PixelLayout
  import opened Detection

  /** What `convert_image` hands back. */
  datatype ConvertOutcome =
    | UnsupportedEncoding
      /** The frame already has the network's size: the planar image is final. */
    | Ready(im: Image)
      /** The planar image still goes through darknet's `resize_image` to `w` by `h`. */
    | Resize(im: Image, w: int, h: int)

  class Yolo3Detector {
    var minConfidence: real
    var nmsThreshold: real
    /** `darknet_network_->w` and `->h`, the network's input size. */
    var networkW: int
    var networkH: int

    /**
     * `load`: records the thresholds; parsing the network and its weights
     * is darknet's, which reports the input size passed in here.
     */
    constructor Load(minConfidence: real, nmsThreshold: real, networkW: int, networkH: int)
      ensures this.minConfidence == minConfidence && this.nmsThreshold == nmsThreshold
      ensures this.networkW == networkW && this.networkH == networkH
    {
      this.minConfidence := minConfidence;
      this.nmsThreshold := nmsThreshold;
      this.networkW := networkW;
      this.networkH := networkH;
    }

    /** Written so far by `convert_image`: pixels before `i`, and channels before `ch` of pixel `i`. */
    static ghost predicate PixelMajorDone(idx: nat, n: nat, i: nat, ch: nat)
    {
      || idx < i || n <= idx < n + i || 2 * n <= idx < 2 * n + i
      || (idx == i && ch > 0) || (idx == n + i && ch > 1) || (idx == 2 * n + i && ch > 2)
    }

    /** The buffer `convert_image` has built once it reaches pixel `i`, channel `ch`. */
    static ghost function PixelMajorPartial(spec: seq<real>, n: nat, i: nat, ch: nat): (r: seq<real>)
      ensures |r| == |spec|
    {
      seq(|spec|, idx requires 0 <= idx < |spec| => if PixelMajorDone(idx, n, i, ch) then spec[idx] else 0.0)
    }

    /**
     * `convert_image`: rejects anything but `bgr8`, then walks the frame
     * with a running pixel counter `i` and a running byte counter `j`
     * (skipping the row padding after each row), storing each byte divided
     * by 255 in plane `channel` at position `i`.
     */
    method ConvertImage(msg: ImageMsg) returns (r: ConvertOutcome)
      requires msg.encoding == Bgr8 ==> FrameShape(msg.data, msg.width, msg.height, 3, msg.step)
      ensures r.UnsupportedEncoding? <==> msg.encoding != Bgr8
      ensures !r.UnsupportedEncoding? ==>
                fresh(r.im.data) &&
                r.im.w == msg.width && r.im.h == msg.height && r.im.c == 3 &&
                r.im.data[..] == Planar(msg.data, msg.width, msg.height, 3, msg.step)
      ensures r.Ready? <==> msg.encoding == Bgr8 && networkW == msg.width && networkH == msg.height
      ensures r.Resize? ==> r.w == networkW && r.h == networkH
    {
      if msg.encoding != Bgr8 {
        return UnsupportedEncoding;
      }
      var buf := FillPlanar(msg.data, msg.width, msg.height, msg.step);
      var im := Image(msg.width, msg.height, 3, buf);
      if networkW == msg.width && networkH == msg.height {
        return Ready(im);
      }
      return Resize(im, networkW, networkH);
    }

    /**
     * The loops of `convert_image`: a running pixel counter `i` and a
     * running byte counter `j` walk the frame row by row, and the byte
     * counter skips the `step - 3*width` padding bytes after each row.
     */
    static method FillPlanar(data: seq<byte>, width: nat, height: nat, step: nat) returns (buf: array<real>)
      requires FrameShape(data, width, height, 3, step)
      ensures fresh(buf)
      ensures buf[..] == Planar(data, width, height, 3, step)
    {
      var offset := step - 3 * width;
      var i, j := 0, 0;
      buf := new real[width * height * 3](_ => 0.0);
      ghost var n := width * height;
      ghost var spec := Planar(data, width, height, 3, step);
      assert buf[..] == PixelMajorPartial(spec, n, 0, 0);
      var line := height;
      while line > 0
        invariant 0 <= line <= height
        invariant i == (height - line) * width && j == (height - line) * step
        invariant buf[..] == PixelMajorPartial(spec, n, i, 0)
      {
        ghost var row := height - line;
        i, j := StoreRow(buf, data, width, height, step, i, j, row);
        j := j + offset;
        line := line - 1;
        assert (row + 1) * width == row * width + width;
        assert (row + 1) * step == row * step + step;
      }
      AllPixelsDone(spec, n);
    }
    /**
     * The middle loop of `convert_image`: the `width` pixels of row `row`,
     * advancing the pixel counter `i` by one and the byte counter `j` by
     * three per pixel.
     */
    static method StoreRow(buf: array<real>, data: seq<byte>, width: nat, height: nat, step: nat,
                           i: nat, j: nat, ghost row: nat) returns (i': nat, j': nat)
      requires FrameShape(data, width, height, 3, step) && row < height
      requires i == row * width && j == row * step
      requires buf.Length == width * height * 3
      requires buf[..] == PixelMajorPartial(Planar(data, width, height, 3, step), width * height, i, 0)
      modifies buf
      ensures i' == i + width && j' == j + 3 * width
      ensures buf[..] == PixelMajorPartial(Planar(data, width, height, 3, step), width * height, i', 0)
    {
      i', j' := i, j;
      var column := width;
      while column > 0
        invariant 0 <= column <= width
        invariant i' == i + (width - column) && j' == j + (width - column) * 3
        invariant buf[..] == PixelMajorPartial(Planar(data, width, height, 3, step), width * height, i', 0)
      {
        j' := StorePixel(buf, data, width, height, step, i', j', row, width - column);
        i' := i' + 1;
        column := column - 1;
      }
    }

    /**
     * The innermost loop of `convert_image`: the three channels of pixel
     * `i` (at `row`, `col`), read from byte `j` on, each stored in its own
     * plane.
     */
    static method StorePixel(buf: array<real>, data: seq<byte>, width: nat, height: nat, step: nat,
                             i: nat, j: nat, ghost row: nat, ghost col: nat) returns (next: nat)
      requires FrameShape(data, width, height, 3, step) && row < height && col < width
      requires i == row * width + col && j == InterleavedIndex(step, 3, row, col, 0)
      requires buf.Length == width * height * 3
      requires buf[..] == PixelMajorPartial(Planar(data, width, height, 3, step), width * height, i, 0)
      modifies buf
      ensures next == j + 3
      ensures buf[..] == PixelMajorPartial(Planar(data, width, height, 3, step), width * height, i + 1, 0)
    {
      ghost var spec := Planar(data, width, height, 3, step);
      next := j;
      var channel := 0;
      while channel < 3
        invariant channel <= 3
        invariant next == InterleavedIndex(step, 3, row, col, channel)
        invariant buf[..] == PixelMajorPartial(spec, width * height, i, channel)
      {
        WriteStep(data, width, height, step, row, col, channel);
        buf[i + width * height * channel] := data[next] as real / 255.0;
        next := next + 1;
        channel := channel + 1;
      }
      AllChannelsDone(spec, width * height, i);
    }

    /**
     * One write of `convert_image`'s inner loop: channel `ch` of pixel
     * `row*w + col` goes to its planar position, which takes that sample of
     * the planar buffer and moves the partial buffer on by one channel.
     */
    static lemma WriteStep(data: seq<byte>, w: nat, h: nat, step: nat, row: nat, col: nat, ch: nat)
      requires FrameShape(data, w, h, 3, step) && row < h && col < w && ch < 3
      ensures (row * w + col) + w * h * ch < w * h * 3
      ensures InterleavedIndex(step, 3, row, col, ch) < |data|
      ensures PixelMajorPartial(Planar(data, w, h, 3, step), w * h, row * w + col, ch)
                [(row * w + col) + w * h * ch := Normalize(data[InterleavedIndex(step, 3, row, col, ch)])]
              == PixelMajorPartial(Planar(data, w, h, 3, step), w * h, row * w + col, ch + 1)
    {
      var n, p := w * h, row * w + col;
      PlanarAt(data, w, h, 3, step, row, col, ch);
      assert PlanarIndex(w, h, row, col, ch) == p + n * ch;
      PixelInPlane(w, h, row, col);
      assert n * ch == if ch == 0 then 0 else if ch == 1 then n else 2 * n;
    }

    /** Once pixel `i` has had its three channels, it counts as a finished pixel. */
    static lemma AllChannelsDone(spec: seq<real>, n: nat, i: nat)
      ensures PixelMajorPartial(spec, n, i, 3) == PixelMajorPartial(spec, n, i + 1, 0)
    {
    }

    /** After the last pixel every sample has been written. */
    static lemma AllPixelsDone(spec: seq<real>, n: nat)
      requires |spec| == n * 3
      ensures PixelMajorPartial(spec, n, n, 0) == spec
    {
    }

    /**
     * The class loop of `forward`: scans every class, keeps the first one
     * whose probability reaches the floor (later ones never replace it),
     * and reports -1 with score 0 when there is none.
     */
    method ChooseClass(prob: seq<real>, numClasses: nat) returns (classId: int, score: real)
      requires |prob| == numClasses
      ensures classId < 0 <==> FirstQualifying(prob, minConfidence).None?
      ensures classId < 0 ==> classId == -1 && score == 0.0
      ensures classId >= 0 ==> FirstQualifying(prob, minConfidence) == Some(classId as nat) && score == prob[classId]
    {
      classId := -1;
      score := 0.0;
      var j := 0;
      while j < numClasses
        invariant j <= numClasses
        invariant classId < 0 ==> classId == -1 && score == 0.0 && forall k :: 0 <= k < j ==> prob[k] < minConfidence
        invariant classId >= 0 ==> classId < j && prob[classId] >= minConfidence && score == prob[classId]
        invariant classId >= 0 ==> forall k :: 0 <= k < classId ==> prob[k] < minConfidence
      {
        if prob[j] >= minConfidence {
          if classId < 0 {
            classId := j;
            score := prob[j];
          }
        }
        j := j + 1;
      }
      if classId >= 0 {
        FirstQualifyingIs(prob, minConfidence, classId);
      }
    }

    /**
     * `forward` after darknet has produced and suppressed the candidates:
     * each candidate gets the first class whose probability reaches the
     * floor, and is kept, in order, in corner form, only if it has one.
     */
    method Forward(boxes: seq<Candidate>, numClasses: nat) returns (detections: seq<RectClassScore>)
      requires forall b :: b in boxes ==> |b.prob| == numClasses
      ensures detections == Decode(boxes, minConfidence)
    {
      detections := [];
      var i := 0;
      while i < |boxes|
        invariant i <= |boxes|
        invariant detections == Decode(boxes[..i], minConfidence)
      {
        var prob := boxes[i].prob;
        assert boxes[i] in boxes;
        var classId, score := ChooseClass(prob, numClasses);
        if classId >= 0 {
          var bbox := boxes[i].bbox;
          var detection := RectClassScore(bbox.x - bbox.w / 2.0, bbox.y - bbox.h / 2.0, bbox.w, bbox.h, score, classId);
          assert DecodeCandidate(boxes[i], minConfidence) == Some(detection);
          DecodeExtend(boxes, i, minConfidence);
          detections := detections + [detection];
        } else {
          assert DecodeCandidate(boxes[i], minConfidence) == None;
          DecodeExtend(boxes, i, minConfidence);
        }
        i := i + 1;
      }
      assert boxes[..i] == boxes;
    }
  }
}
