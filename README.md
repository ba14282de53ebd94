# vision_darknet_detect in Dafny

This project models the image and detection handling of the
`vision_darknet_detect` ROS node, a YOLOv3 detector built on darknet. It
covers five pieces of that node:

- **Frame to network input.** `Yolo3Detector::convert_image` checks for
  the `bgr8` encoding, then lays the interleaved, row-padded camera bytes
  out as darknet's planar float image, scaled into [0, 1].
  `Yolo3DetectorNode::convert_ipl_to_image` does the same layout with its
  own loop order. Before that it letterboxes the frame: it scales it to the
  network width and pads it with a symmetric integer border. After the
  layout it swaps the blue and red planes (`rgbgr_image`).
- **Letterbox state.** The node keeps the scale (`image_ratio_`) and the
  two borders as fields. They persist across frames, and a frame that
  already has the network's size leaves them as they were.
- **Decoding.** `Yolo3Detector::forward` turns each candidate box into a
  detection. It uses the first class whose probability reaches the
  confidence floor, which need not be the most probable class. It also
  moves the box from centre form to corner form.
- **Combined output mode.** Undoes the letterbox into a `Detection2D` per
  detection: a centre box with one hypothesis.
- **Split output mode.** Undoes the letterbox into a clamped rectangle,
  plus parallel label, id and score lists.

Files and modules:

- `pixel_layout.dfy` (`PixelLayout`):
  - the frame, matrix and image types;
  - the planar and interleaved index maps and the proof that the planar
    map is a bijection;
  - `Planar`, the reference planar buffer of a frame;
  - `SwapPlanes`, the plane exchange.
- `detection.dfy` (`Detection`): the candidate and `RectClassScore`
  types, the first-match rule, and the decoding of a candidate list with
  its order and filtering lemmas.
- `darknet.dfy` (`Darknet`): class `Yolo3Detector`, with `convert_image`
  as array-filling loops and `forward` as its two loops. Each nested loop
  level is its own method: `FillPlanar`, `StoreRow` and `StorePixel` for
  `convert_image`, and `ChooseClass` for the class loop of `forward`.
  The counters, their order and their updates are the source's.
- `letterbox.dfy` (`Letterbox`): the border and padded-size arithmetic.
- `output_mapping.dfy` (`OutputMapping`): the output message types and
  the per-detection inverse-letterbox and label expressions of the two
  output modes.
- `detector_node.dfy` (`DetectorNode`): class `Yolo3DetectorNode`, holding
  the letterbox fields, with `rgbgr_image`, `convert_ipl_to_image` and the
  two `convert_rect_to_image_obj` overloads. The innermost column loop of
  `convert_ipl_to_image` is the method `StorePlaneRow`.

Three behaviours of the source are worth stating up front:

- The equal-size branch of `convert_ipl_to_image` does not reset the
  letterbox fields. When a frame already has the network's size, the
  scale and the borders keep whatever the previous frame left in them
  (`ConvertIplToImage`).
- The split-mode clamp tests the network-space input field, not the
  mapped value. A box whose corner lies in the top padding therefore still
  reports a negative `y` (`ClampMissesBorderOverlap`,
  `NegativeInsideBorder`). A 640 by 480 frame on a 416 by 416 network gets
  a 52-row border, and an input `y` of 13 maps to -60. `x` is not affected
  in practice, because the resize always brings the width to the network
  width, so the left-right border is 0.
- The split mode builds its two messages from scratch, so they carry a
  default header, not the frame's. The combined mode keeps the frame's
  header.

## Model

| member | source | states |
|---|---|---|
| PixelLayout.Normalize | src/vision_darknet_detect.cpp:285 | a byte divided by 255 lies in [0, 1]; it is 0 exactly for byte 0 and 1 exactly for byte 255 |
| PixelLayout.Planar | src/vision_darknet_detect.cpp:280-288 | the reference planar buffer of a frame has exactly `w*h*c` samples |
| PixelLayout.PlanarAt | src/vision_darknet_detect.cpp:282-288 | byte `i*step + j*c + k` of the frame, divided by 255, is sample `k*w*h + i*w + j` of the planar buffer; both indices are in range when `step >= w*c` |
| PixelLayout.PlanarIndexBijective | src/vision_darknet_detect.cpp:282-288 | the planar index map sends every in-image (row, column, channel) into `[0, w*h*c)`, is injective, and reaches every index, so the loops write each output sample exactly once |
| PixelLayout.PlanarInUnitRange | src/vision_darknet_detect.cpp:285 | every sample of the planar buffer lies in [0, 1] |
| PixelLayout.SwapPlanes | src/vision_darknet_detect.cpp:229-238 | for each `i < w*h`, samples `i` and `i + 2*w*h` are exchanged; plane 1 and everything past `3*w*h` are unchanged |
| PixelLayout.SwapPlanesInvolution | src/vision_darknet_detect.cpp:229-238 | swapping the outer planes twice restores the buffer |
| PixelLayout.RgbPlanarAt | src/vision_darknet_detect.cpp:285-289 | after the swap, plane `k` of a three-channel frame holds the frame's channel `2 - k`, so the image is red, green, blue |
| Detection.FirstQualifying | src/vision_darknet_detect.cpp:114-124 | the class chosen is absent exactly when no probability reaches the floor; otherwise it reaches the floor and every smaller class falls below it |
| Detection.FirstMatchIsNotArgmax | src/vision_darknet_detect.cpp:117-124 | with floor 0.5 and probabilities 0.4, 0.55, 0.7 the chosen class is 1, not the most probable class 2 |
| Detection.DecodeCandidate | src/vision_darknet_detect.cpp:114-139 | a candidate yields a detection exactly when some class qualifies; the detection has the first qualifying class, its probability as score, corner `x = cx - w/2`, `y = cy - h/2`, and the extent copied |
| Detection.Decode | src/vision_darknet_detect.cpp:112-140 | decoding never yields more detections than candidates |
| Detection.DecodeAtOrigins | src/vision_darknet_detect.cpp:126-139 | the k-th detection is the first-match decoding of the candidate at the k-th kept position |
| Detection.OriginsIncreasing | src/vision_darknet_detect.cpp:112-140 | the kept positions strictly increase, so candidate order is preserved |
| Detection.OriginsAreQualifying | src/vision_darknet_detect.cpp:112-140 | a candidate is kept exactly when one of its classes reaches the floor |
| Detection.DecodeIsOrderedFirstMatch | src/vision_darknet_detect.cpp:112-140 | decoding is an order-preserving filter: one detection per qualifying candidate, in candidate order, each its first-match decoding |
| Detection.DecodeEmptyWhenNoneQualifies | src/vision_darknet_detect.cpp:112-140 | when no candidate has a qualifying class the result is empty |
| Darknet.Yolo3Detector.Load | src/vision_darknet_detect.cpp:42-52 | loading records the confidence floor and the NMS threshold; the network's input size is the one darknet reports |
| Darknet.Yolo3Detector.ConvertImage | src/vision_darknet_detect.cpp:64-95 | any encoding other than `bgr8` is rejected; otherwise the result is a fresh planar buffer equal to `Planar(data, width, height, 3, step)`, final when the frame has the network's size and passed to the resize otherwise |
| Darknet.Yolo3Detector.FillPlanar | src/vision_darknet_detect.cpp:72-86 | the running pixel and byte counters, with the `step - 3*width` skip after each row, fill a fresh buffer with exactly the planar layout of the frame |
| Darknet.Yolo3Detector.StoreRow | src/vision_darknet_detect.cpp:79-85 | one row advances the pixel counter by `width` and the byte counter by `3*width`, and completes that row's pixels in all three planes |
| Darknet.Yolo3Detector.StorePixel | src/vision_darknet_detect.cpp:81-83 | one pixel consumes three bytes and completes that pixel in all three planes |
| Darknet.Yolo3Detector.WriteStep | src/vision_darknet_detect.cpp:82 | the write `im.data[i + width*height*channel] = data[j] / 255.` stores the planar buffer's own sample at that index, in range |
| Darknet.Yolo3Detector.ChooseClass | src/vision_darknet_detect.cpp:114-124 | the class loop returns -1 and score 0 exactly when no class qualifies, and otherwise the first qualifying class and its probability |
| Darknet.Yolo3Detector.Forward | src/vision_darknet_detect.cpp:112-140 | the loops return exactly `Decode(boxes, minConfidence)`, the order-preserving first-match decoding |
| Letterbox.Border | src/vision_darknet_detect.cpp:261-262 | the border is half the size gap, rounded down: `2*b <= abs(resized - network) < 2*b + 2` |
| Letterbox.PaddedSize | src/vision_darknet_detect.cpp:263-266 | `copyMakeBorder` grows an axis by an even amount, never shrinks it, brings an axis no longer than the network's to the network's length or one short of it, and leaves a longer axis at least the network's length |
| Letterbox.PaddedSizeFits | src/vision_darknet_detect.cpp:261-266 | an axis no longer than the network's is padded to the network's length when the gap is even, and to one pixel short of it when the gap is odd |
| Letterbox.PaddedSizeOverflows | src/vision_darknet_detect.cpp:261-266 | an axis longer than the network's is padded further, never cropped, so it overshoots the network's length |
| Letterbox.NoBorderAtNetworkSize | src/vision_darknet_detect.cpp:261-262 | an axis already at the network's length gets no border |
| OutputMapping.ToRect | src/vision_darknet_detect.cpp:181-200 | each rectangle field, scaled by the ratio and shifted by its border, gives back the network-space input, unless that input is negative, in which case the field is 0; width and height are never negative |
| OutputMapping.ResolveLabel | src/vision_darknet_detect.cpp:202-219 | in COCO mode the label is the COCO name and class id; in custom mode an in-table class gets its table name and its id, and the result is ("unknown", 255) exactly when the class is outside the table or is a class 255 named "unknown" |
| OutputMapping.ToDetection2D | src/vision_darknet_detect.cpp:154-167 | the record carries the header, is not tracking, and has one hypothesis (class, score); its centre, scaled and shifted back, is the network-space centre; its extent, scaled back, is the network-space extent; theta is 0 |
| OutputMapping.ClampMissesBorderOverlap | src/vision_darknet_detect.cpp:182-192 | a 640 by 480 frame on a 416 by 416 network is scaled by 0.65 to 312 rows with a 52-row border, and input `y = 13` gives `rect.y = -60`: the clamp does not catch it |
| OutputMapping.NegativeInsideBorder | src/vision_darknet_detect.cpp:182-192 | any non-negative input `y` inside the top-bottom border gives a negative `rect.y` |
| OutputMapping.LetterboxRoundTrip | src/vision_darknet_detect.cpp:181-184 | a non-negative frame box sent forward through the letterbox comes back unchanged from the split-mode rectangle |
| OutputMapping.ModesAgreeWithoutClamp | src/vision_darknet_detect.cpp:156-160 | when the clamp does not fire, the combined-mode centre is the centre of the split-mode rectangle and the extents coincide |
| OutputMapping.CombinedCenterIsInverseLetterbox | src/vision_darknet_detect.cpp:156-157 | for a decoded candidate, the combined-mode centre times the ratio is the candidate's network-space centre minus the border |
| OutputMapping.SentinelIdIsAmbiguous | src/vision_darknet_detect.cpp:209-218 | in custom mode the published id is 255 exactly when the class is outside the table or is class 255 |
| DetectorNode.Yolo3DetectorNode.constructor | src/vision_darknet_detect.cpp:407-417 | custom names are used exactly when a names file was given, and then they are that file's lines |
| DetectorNode.Yolo3DetectorNode.RgbgrImage | src/vision_darknet_detect.cpp:229-238 | the image buffer becomes `SwapPlanes` of its old contents with planes of `w*h` samples |
| DetectorNode.Yolo3DetectorNode.SwapOuterPlanes | src/vision_darknet_detect.cpp:232-237 | the swap loop leaves the buffer equal to `SwapPlanes` of its old contents |
| DetectorNode.Yolo3DetectorNode.IplToPlanar | src/vision_darknet_detect.cpp:280-288 | the row, channel, column loops fill a fresh buffer with exactly the planar layout of the matrix |
| DetectorNode.Yolo3DetectorNode.StorePlaneRow | src/vision_darknet_detect.cpp:284-286 | the column loop completes channel `k` of row `i` |
| DetectorNode.Yolo3DetectorNode.ConvertIplToImage | src/vision_darknet_detect.cpp:254-290 | when the frame differs from the network size: ratio = network width / frame width, borders = half the size gaps, no left-right border, and the image is the RGB planar layout of the padded matrix; otherwise the letterbox fields are unchanged and the image is the RGB planar layout of the frame |
| DetectorNode.Yolo3DetectorNode.ConvertRectToDetections | src/vision_darknet_detect.cpp:148-171 | one `Detection2D` per input, in order, each the combined-mode mapping under the current letterbox, with the frame's header on the array |
| DetectorNode.Yolo3DetectorNode.ConvertRectToRects | src/vision_darknet_detect.cpp:173-227 | both messages carry the default header whatever the caller had set, since they are rebuilt from scratch; rectangles, label names, ids and scores are parallel to the input, in order, each the split-mode mapping and label; the classifier and the target names are set only when the input is non-empty, and the target names only in custom mode |

## Left out

- Darknet itself is not modelled: parsing the network, loading the weights,
  prediction, box extraction, non-maximum suppression, `make_image`,
  `resize_image` and `free_image`. The candidate list after suppression is
  an input of `Forward`, with the class count. The network size is a
  field set by `Load`. `ConvertImage` reports that a resize is due
  rather than performing it.
- OpenCV is not modelled: `cv_bridge::toCvCopy`, `cv::resize` and
  `cv::copyMakeBorder`. `ConvertIplToImage` takes the `bgr8` matrix, the
  resized size and the padded matrix as inputs. The requirements on them
  are that the resized lengths are the frame lengths times the scale,
  rounded within half a pixel, and that the padded matrix has the
  bordered size. The resampled pixel values are not constrained.
- ROS plumbing is not modelled: `Run`'s parameter handling beyond the
  names choice, the publishers and subscriber, `image_callback`, the
  labelled-image drawing and `read_custom_names_file`. The names file
  arrives as an optional list of lines.
- The random `detection_id` of each `Detection2D` is not modelled; it is
  nondeterministic.
- `RectClassScore::GetClassString` (the COCO name table) is defined
  outside this file. It is a function parameter.
- The node's header is not part of this model, so the initial scale and
  borders are not known from the source. The constructor starts them at
  1 and 0. Before the first frame of another size, the split and combined
  outputs use whatever those fields held.
- Floating point is modelled as exact `real` arithmetic: the `/255.`
  scaling, the scale and the inverse letterbox. Float rounding is not
  modelled.
- `jsk_recognition_msgs/Rect`'s integer fields are not part of this
  model. Rectangle fields are reals, with no truncation.
- ConvertImage: the 32-bit unsigned counters and the `step - 3*width`
  offset are unbounded here, and the frame must satisfy
  `step >= 3*width`. A malformed frame would make the source wrap around;
  the model does not capture that.
- ConvertImage: an unsupported encoding ends the process (`exit(-1)`).
  It is modelled as the `UnsupportedEncoding` outcome.
- ConvertIplToImage requires a positive network width and frame width
  when the sizes differ. The source would divide by zero otherwise.
- RgbgrImage delegates its loop to `SwapOuterPlanes`, which takes the
  plane size `w*h` as a number. The source re-evaluates `im.w*im.h` in the
  loop; nothing in the loop changes it.
- `Darknet.Yolo3Detector.nmsThreshold` is stored but used only by the
  suppression step, which is not modelled.
