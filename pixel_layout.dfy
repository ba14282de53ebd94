/**
 * Pixel buffers and the index arithmetic that moves a frame from the
 * camera's interleaved byte layout (row after row, each pixel's channels
 * side by side) to darknet's planar float layout (one whole plane per
 * channel, each plane row after row).
 */
module PixelLayout {

  /** One 8-bit sample of a camera frame. */
  newtype byte = x: int | 0 <= x < 256

  /** A `sensor_msgs/Image` as it arrives: `step` bytes per row. */
  datatype ImageMsg = ImageMsg(height: nat, width: nat, encoding: string, step: nat, data: seq<byte>)

  /** The only encoding the detector accepts. */
  const Bgr8: string := "bgr8"

  /** An OpenCV matrix (through its `IplImage` view): `step` bytes per row. */
  datatype Mat = Mat(rows: nat, cols: nat, channels: nat, step: nat, data: seq<byte>)

  /** Darknet's `image` struct: a planar float buffer of `w*h*c` samples. */
  datatype Image = Image(w: nat, h: nat, c: nat, data: array<real>)

  /**
   * A row-strided interleaved buffer of `h` rows, each holding `w` pixels
   * of `c` bytes, padded to `step` bytes.
   */
  predicate FrameShape(data: seq<byte>, w: nat, h: nat, c: nat, step: nat)
  {
    step >= w * c && |data| == h * step
  }

  predicate MatShaped(m: Mat)
  {
    FrameShape(m.data, m.cols, m.rows, m.channels, m.step)
  }

  /** The value darknet stores for a byte: the byte divided by 255. */
  function Normalize(b: byte): (v: real)
    ensures 0.0 <= v <= 1.0
    ensures v == 0.0 <==> b == 0
    ensures v == 1.0 <==> b == 255
  {
    b as real / 255.0
  }

  /** Where channel `k` of pixel (`i`, `j`) sits in the planar buffer. */
  function PlanarIndex(w: nat, h: nat, i: nat, j: nat, k: nat): nat
  {
    k * (w * h) + i * w + j
  }

  /** Where channel `k` of pixel (`i`, `j`) sits in the interleaved buffer. */
  function InterleavedIndex(step: nat, c: nat, i: nat, j: nat, k: nat): nat
  {
    i * step + j * c + k
  }

  /** The channel plane a planar index lies in. */
  function PlaneOf(idx: nat, w: nat, h: nat): nat
    requires w * h > 0
  {
    idx / (w * h)
  }

  /** The image row a planar index lies in. */
  function RowOf(idx: nat, w: nat, h: nat): nat
    requires w * h > 0
  {
    (idx % (w * h)) / w
  }

  /** The image column a planar index lies in. */
  function ColOf(idx: nat, w: nat, h: nat): nat
    requires w * h > 0
  {
    (idx % (w * h)) % w
  }

  /** Multiplying by a natural number keeps order. */
  lemma MulMonotone(a: int, b: int, m: nat)
    requires a <= b
    ensures a * m <= b * m
  {
  }

  /** Euclidean division has exactly one quotient and remainder. */
  lemma DivModUnique(x: int, d: int, q: int, r: int)
    requires d > 0 && 0 <= r < d && x == q * d + r
    ensures x / d == q && x % d == r
  {
    var q' := x / d;
    if q' < q {
      MulMonotone(q' + 1, q, d);
    } else if q < q' {
      MulMonotone(q + 1, q', d);
    }
  }

  /** A product of naturals is positive only when both factors are. */
  lemma PositiveProduct(a: nat, b: nat)
    requires a * b > 0
    ensures a > 0 && b > 0
  {
  }

  /** Pixel `i*w + j` of a `w` by `h` image lies inside one plane. */
  lemma PixelInPlane(w: nat, h: nat, i: nat, j: nat)
    requires i < h && j < w
    ensures i * w + j < w * h
  {
    MulMonotone(i + 1, h, w);
  }

  /** Splitting a planar index recovers the pixel and channel it was built from. */
  lemma PlanarIndexSplit(w: nat, h: nat, i: nat, j: nat, k: nat)
    requires i < h && j < w
    ensures w * h > 0
    ensures PlaneOf(PlanarIndex(w, h, i, j, k), w, h) == k
    ensures RowOf(PlanarIndex(w, h, i, j, k), w, h) == i
    ensures ColOf(PlanarIndex(w, h, i, j, k), w, h) == j
  {
    PixelInPlane(w, h, i, j);
    DivModUnique(PlanarIndex(w, h, i, j, k), w * h, k, i * w + j);
    DivModUnique(i * w + j, w, i, j);
  }

  /** Every planar index is built from one pixel and channel inside the image. */
  lemma PlanarIndexJoin(idx: nat, w: nat, h: nat)
    requires w * h > 0
    ensures RowOf(idx, w, h) < h && ColOf(idx, w, h) < w
    ensures idx == PlanarIndex(w, h, RowOf(idx, w, h), ColOf(idx, w, h), PlaneOf(idx, w, h))
  {
    PositiveProduct(w, h);
    var row := RowOf(idx, w, h);
    if row >= h {
      MulMonotone(h, row, w);
    }
  }

  /** An index below `w*h*c` lies in one of the first `c` planes. */
  lemma PlaneBound(idx: nat, w: nat, h: nat, c: nat)
    requires idx < w * h * c
    ensures w * h > 0 && c > 0
    ensures PlaneOf(idx, w, h) < c
  {
    PositiveProduct(w * h, c);
    var plane := PlaneOf(idx, w, h);
    if plane >= c {
      MulMonotone(c, plane, w * h);
    }
  }

  /**
   * The planar map is a bijection from pixels-and-channels onto `[0, w*h*c)`:
   * every in-image (row, column, channel) triple lands inside the buffer,
   * distinct triples land on distinct indices, and every index is the
   * image of the triple its own row, column and plane give. So a loop that
   * visits each triple once writes each output sample exactly once.
   */
  lemma PlanarIndexBijective(w: nat, h: nat, c: nat)
    ensures forall i: nat, j: nat, k: nat :: i < h && j < w && k < c ==> PlanarIndex(w, h, i, j, k) < w * h * c
    ensures forall i: nat, j: nat, k: nat, i': nat, j': nat, k': nat ::
              i < h && j < w && i' < h && j' < w &&
              PlanarIndex(w, h, i, j, k) == PlanarIndex(w, h, i', j', k') ==>
              i == i' && j == j' && k == k'
    ensures forall idx: nat :: w * h > 0 && idx < w * h * c ==>
              RowOf(idx, w, h) < h && ColOf(idx, w, h) < w && PlaneOf(idx, w, h) < c &&
              idx == PlanarIndex(w, h, RowOf(idx, w, h), ColOf(idx, w, h), PlaneOf(idx, w, h))
  {
    forall i: nat, j: nat, k: nat | i < h && j < w && k < c
      ensures PlanarIndex(w, h, i, j, k) < w * h * c
    {
      PixelInPlane(w, h, i, j);
      MulMonotone(k + 1, c, w * h);
    }
    forall i: nat, j: nat, k: nat, i': nat, j': nat, k': nat |
      i < h && j < w && i' < h && j' < w &&
      PlanarIndex(w, h, i, j, k) == PlanarIndex(w, h, i', j', k')
      ensures i == i' && j == j' && k == k'
    {
      PlanarIndexSplit(w, h, i, j, k);
      PlanarIndexSplit(w, h, i', j', k');
    }
    forall idx: nat | w * h > 0 && idx < w * h * c
      ensures RowOf(idx, w, h) < h && ColOf(idx, w, h) < w && PlaneOf(idx, w, h) < c
      ensures idx == PlanarIndex(w, h, RowOf(idx, w, h), ColOf(idx, w, h), PlaneOf(idx, w, h))
    {
      PlaneBound(idx, w, h, c);
      PlanarIndexJoin(idx, w, h);
    }
  }

  /** The planar index as `convert_ipl_to_image` spells it: `k*w*h + i*w + j`. */
  lemma ChannelRowIndex(w: nat, h: nat, i: nat, j: nat, k: nat)
    ensures k * w * h + i * w + j == PlanarIndex(w, h, i, j, k)
  {
    assert k * w * h == k * (w * h);
  }

  /** The interleaved position of any in-image sample lies inside the frame. */
  lemma InterleavedInFrame(w: nat, h: nat, c: nat, step: nat, i: nat, j: nat, k: nat)
    requires step >= w * c && i < h && j < w && k < c
    ensures InterleavedIndex(step, c, i, j, k) < h * step
  {
    MulMonotone(j + 1, w, c);
    MulMonotone(i + 1, h, step);
  }

  /** Sample `idx` of the planar buffer that a frame converts to. */
  function PlanarSample(data: seq<byte>, w: nat, h: nat, c: nat, step: nat, idx: nat): real
    requires FrameShape(data, w, h, c, step) && idx < w * h * c
  {
    PlaneBound(idx, w, h, c);
    PlanarIndexJoin(idx, w, h);
    InterleavedInFrame(w, h, c, step, RowOf(idx, w, h), ColOf(idx, w, h), PlaneOf(idx, w, h));
    Normalize(data[InterleavedIndex(step, c, RowOf(idx, w, h), ColOf(idx, w, h), PlaneOf(idx, w, h))])
  }

  /**
   * The planar float buffer of a frame: every sample of channel `k` at
   * pixel (`i`, `j`) moved to plane `k` and scaled into [0, 1].
   */
  function Planar(data: seq<byte>, w: nat, h: nat, c: nat, step: nat): (r: seq<real>)
    requires FrameShape(data, w, h, c, step)
    ensures |r| == w * h * c
  {
    seq(w * h * c, idx requires 0 <= idx < w * h * c => PlanarSample(data, w, h, c, step, idx))
  }

  /**
   * The layout conversion moves byte `i*step + j*c + k` of the frame to
   * sample `k*w*h + i*w + j` of the planar buffer, divided by 255.
   */
  lemma PlanarAt(data: seq<byte>, w: nat, h: nat, c: nat, step: nat, i: nat, j: nat, k: nat)
    requires FrameShape(data, w, h, c, step)
    requires i < h && j < w && k < c
    ensures PlanarIndex(w, h, i, j, k) < w * h * c
    ensures InterleavedIndex(step, c, i, j, k) < |data|
    ensures Planar(data, w, h, c, step)[PlanarIndex(w, h, i, j, k)] ==
            Normalize(data[InterleavedIndex(step, c, i, j, k)])
  {
    PlanarIndexBijective(w, h, c);
    PlanarIndexSplit(w, h, i, j, k);
    InterleavedInFrame(w, h, c, step, i, j, k);
  }

  /** Every sample of the planar buffer is normalised into [0, 1]. */
  lemma PlanarInUnitRange(data: seq<byte>, w: nat, h: nat, c: nat, step: nat)
    requires FrameShape(data, w, h, c, step)
    ensures forall idx :: 0 <= idx < |Planar(data, w, h, c, step)| ==>
              0.0 <= Planar(data, w, h, c, step)[idx] <= 1.0
  {
  }

  /**
   * Exchanging plane 0 with plane 2 of a planar buffer whose planes hold
   * `n` samples each: the BGR-to-RGB reorder.
   */
  function SwapPlanes(s: seq<real>, n: nat): (r: seq<real>)
    requires 3 * n <= |s|
    ensures |r| == |s|
    ensures forall i :: 0 <= i < n ==> r[i] == s[i + 2 * n] && r[i + 2 * n] == s[i]
    ensures forall i :: n <= i < 2 * n || 3 * n <= i < |s| ==> r[i] == s[i]
  {
    seq(|s|, i requires 0 <= i < |s| =>
      if i < n then s[i + 2 * n] else if 2 * n <= i < 3 * n then s[i - 2 * n] else s[i])
  }

  /** Swapping the outer planes twice restores the buffer. */
  lemma SwapPlanesInvolution(s: seq<real>, n: nat)
    requires 3 * n <= |s|
    ensures SwapPlanes(SwapPlanes(s, n), n) == s
  {
    var t := SwapPlanes(SwapPlanes(s, n), n);
    forall i | 0 <= i < |s| ensures t[i] == s[i] {
      if 2 * n <= i < 3 * n {
        assert t[(i - 2 * n) + 2 * n] == SwapPlanes(s, n)[i - 2 * n];
      }
    }
  }

  /**
   * After the BGR-to-RGB plane exchange, plane `k` of a three-channel
   * frame's planar buffer holds the frame's channel `2 - k`: red first,
   * blue last.
   */
  lemma RgbPlanarAt(data: seq<byte>, w: nat, h: nat, step: nat, i: nat, j: nat, k: nat)
    requires FrameShape(data, w, h, 3, step)
    requires i < h && j < w && k < 3
    ensures PlanarIndex(w, h, i, j, k) < w * h * 3
    ensures InterleavedIndex(step, 3, i, j, 2 - k) < |data|
    ensures SwapPlanes(Planar(data, w, h, 3, step), w * h)[PlanarIndex(w, h, i, j, k)] ==
            Normalize(data[InterleavedIndex(step, 3, i, j, 2 - k)])
  {
    PlanarAt(data, w, h, 3, step, i, j, k);
    PlanarAt(data, w, h, 3, step, i, j, 2 - k);
    PixelInPlane(w, h, i, j);
    var n := w * h;
    assert PlanarIndex(w, h, i, j, k) == k * n + (i * w + j);
    assert PlanarIndex(w, h, i, j, 2 - k) == (2 - k) * n + (i * w + j);
    assert k * n == if k == 0 then 0 else if k == 1 then n else 2 * n;
    assert (2 - k) * n == if k == 0 then 2 * n else if k == 1 then n else 0;
  }
}
