/** on_frame_arrived of the Rust agent: nearest-pixel scaling of a pitched BGRA buffer into a packed RGB frame. */
module Resampler {
  import opened Bytes
  import opened Sampling
  import opened Wrappers

  /**
   * The sizes, and the position of each target row and column before clamping. What the frame holds is shown for any
   * such functions; SampledBy says that they are the scaled products in single precision.
   */
  datatype Geometry = Geometry(width: nat, height: nat, pitch: nat, targetWidth: nat, targetHeight: nat,
                               sampleX: nat -> nat, sampleY: nat -> nat)
  {
    predicate Valid() {
      width >= 1 && height >= 1 && pitch >= 4 * width
    }

    /** The bytes the last row needs; the padding after it may be missing. */
    predicate Fits(buffer: seq<Byte>) {
      Valid() && |buffer| >= (height - 1) * pitch + 4 * width
    }

    function SourceX(x: nat): (s: nat)
      requires Valid()
      ensures s < width
    {
      if sampleX(x) < width - 1 then sampleX(x) else width - 1
    }

    function SourceY(y: nat): (s: nat)
      requires Valid()
      ensures s < height
    {
      if sampleY(y) < height - 1 then sampleY(y) else height - 1
    }

    ghost predicate SampledBy(r: Rounding) {
      && (forall i :: 0 <= i < targetWidth ==> sampleX(i) == r.Sample(width, targetWidth, i))
      && (forall i :: 0 <= i < targetHeight ==> sampleY(i) == r.Sample(height, targetHeight, i))
    }

    /** Where the source pixel of target pixel (x, y) starts. */
    function SourceIndex(x: nat, y: nat): nat
      requires Valid()
    {
      SourceY(y) * pitch + SourceX(x) * 4
    }
  }

  lemma ProductMonotone(a: nat, b: nat, p: nat)
    requires a <= b
    ensures a * p <= b * p
  {
  }

  lemma SourceInBounds(g: Geometry, buffer: seq<Byte>, x: nat, y: nat)
    requires g.Fits(buffer)
    ensures g.SourceIndex(x, y) + 3 < |buffer|
  {
    ProductMonotone(g.SourceY(y), g.height - 1, g.pitch);
  }

  // ---- The frame ----

  /** Red, green and blue of the sampled pixel, which the buffer holds as blue, green, red. */
  function Pixel(g: Geometry, buffer: seq<Byte>, x: nat, y: nat): (rgb: seq<Byte>)
    requires g.Fits(buffer)
    ensures |rgb| == 3
  {
    SourceInBounds(g, buffer, x, y);
    var i := g.SourceIndex(x, y);
    [buffer[i + 2], buffer[i + 1], buffer[i]]
  }

  /** The first n pixels of target row y. */
  function Row(g: Geometry, buffer: seq<Byte>, y: nat, n: nat): (row: seq<Byte>)
    requires g.Fits(buffer)
    ensures |row| == n * 3
    decreases n
  {
    if n == 0 then [] else Row(g, buffer, y, n - 1) + Pixel(g, buffer, n - 1, y)
  }

  /** The first n rows of the target frame. */
  function Image(g: Geometry, buffer: seq<Byte>, n: nat): (image: seq<Byte>)
    requires g.Fits(buffer)
    ensures |image| == n * (g.targetWidth * 3)
    decreases n
  {
    if n == 0 then []
    else
      RowStep(n, g.targetWidth * 3);
      Image(g, buffer, n - 1) + Row(g, buffer, n - 1, g.targetWidth)
  }

  lemma RowStep(n: nat, w: nat)
    requires n > 0
    ensures n * w == (n - 1) * w + w
  {
  }

  // ---- The loops ----

  method Resample(g: Geometry, buffer: array<Byte>) returns (dest: array<Byte>)
    requires g.Fits(buffer[..])
    ensures fresh(dest) && dest[..] == Image(g, buffer[..], g.targetHeight)
  {
    hide Image, Row;
    var rowBytes := g.targetWidth * 3;
    ImageStep(g, buffer[..], 0);
    dest := new Byte[g.targetHeight * rowBytes](_ => 0);
    var y := 0;
    while y < g.targetHeight
      invariant 0 <= y <= g.targetHeight
      invariant y * rowBytes <= dest.Length
      invariant dest[..y * rowBytes] == Image(g, buffer[..], y)
      modifies dest
    {
      ProductMonotone(y + 1, g.targetHeight, rowBytes);
      RowStep(y + 1, rowBytes);
      FillRow(g, buffer, dest, y);
      ImageStep(g, buffer[..], y);
      y := y + 1;
    }
    assert dest[..] == dest[..y * rowBytes];
  }

  lemma ImageStep(g: Geometry, buffer: seq<Byte>, n: nat)
    requires g.Fits(buffer)
    ensures Image(g, buffer, 0) == []
    ensures Image(g, buffer, n + 1) == Image(g, buffer, n) + Row(g, buffer, n, g.targetWidth)
  {
  }

  /** The inner loop: one target row. */
  method FillRow(g: Geometry, buffer: array<Byte>, dest: array<Byte>, y: nat)
    requires g.Fits(buffer[..]) && buffer != dest
    requires y * (g.targetWidth * 3) + g.targetWidth * 3 <= dest.Length
    modifies dest
    ensures var start := y * (g.targetWidth * 3);
            dest[..start + g.targetWidth * 3] == old(dest[..start]) + Row(g, buffer[..], y, g.targetWidth)
  {
    var srcRowOffset := g.SourceY(y) * g.pitch;
    var destRowOffset := y * (g.targetWidth * 3);
    ghost var before := dest[..destRowOffset];
    var x := 0;
    while x < g.targetWidth
      invariant 0 <= x <= g.targetWidth
      invariant dest[..destRowOffset + x * 3] == before + Row(g, buffer[..], y, x)
    {
      var srcIdx := srcRowOffset + g.SourceX(x) * 4;
      var destIdx := destRowOffset + x * 3;
      SourceInBounds(g, buffer[..], x, y);
      dest[destIdx] := buffer[srcIdx + 2];
      dest[destIdx + 1] := buffer[srcIdx + 1];
      dest[destIdx + 2] := buffer[srcIdx];
      assert dest[..destIdx + 3] == dest[..destIdx] + Pixel(g, buffer[..], x, y);
      x := x + 1;
    }
  }

  class ScreenCapture {
    var latestFrame: Option<seq<Byte>>

    method OnFrameArrived(g: Geometry, buffer: array<Byte>)
      requires g.Fits(buffer[..])
      modifies this
      ensures latestFrame == Some(Image(g, buffer[..], g.targetHeight))
    {
      var rgb := Resample(g, buffer);
      latestFrame := Some(rgb[..]);
    }

    method Grab() returns (frame: Option<seq<Byte>>)
      ensures frame == latestFrame
    {
      frame := latestFrame;
    }
  }

  // ---- What the frame holds ----

  function DestIndex(g: Geometry, x: nat, y: nat, channel: nat): nat {
    y * (g.targetWidth * 3) + x * 3 + channel
  }

  lemma {:induction false} RowPixel(g: Geometry, buffer: seq<Byte>, y: nat, n: nat, x: nat, channel: nat)
    requires g.Fits(buffer) && x < n && channel < 3
    ensures Row(g, buffer, y, n)[x * 3 + channel] == Pixel(g, buffer, x, y)[channel]
    decreases n
  {
    if x < n - 1 {
      RowPixel(g, buffer, y, n - 1, x, channel);
    }
  }

  /** Channel c of target pixel (x, y) is channel 2 - c of the sampled source pixel. */
  lemma {:induction false} ImagePixel(g: Geometry, buffer: seq<Byte>, n: nat, x: nat, y: nat, channel: nat)
    requires g.Fits(buffer) && x < g.targetWidth && y < n && channel < 3
    ensures g.SourceIndex(x, y) + 3 < |buffer| && DestIndex(g, x, y, channel) < |Image(g, buffer, n)|
    ensures Image(g, buffer, n)[DestIndex(g, x, y, channel)] == buffer[g.SourceIndex(x, y) + 2 - channel]
    decreases n
  {
    var w := g.targetWidth * 3;
    SourceInBounds(g, buffer, x, y);
    RowStep(n, w);
    RowStep(y + 1, w);
    ProductMonotone(y + 1, n, w);
    RowPixel(g, buffer, y, g.targetWidth, x, channel);
    if y < n - 1 {
      ImagePixel(g, buffer, n - 1, x, y, channel);
    }
  }

  /** Written out: each channel of target pixel (x, y) comes from the clamped sampled row and column. */
  lemma FramePixel(g: Geometry, buffer: seq<Byte>, x: nat, y: nat, channel: nat)
    requires g.width >= 1 && g.height >= 1 && g.pitch >= 4 * g.width
    requires |buffer| >= (g.height - 1) * g.pitch + 4 * g.width
    requires x < g.targetWidth && y < g.targetHeight && channel < 3
    ensures var row := if g.sampleY(y) < g.height - 1 then g.sampleY(y) else g.height - 1;
            var column := if g.sampleX(x) < g.width - 1 then g.sampleX(x) else g.width - 1;
            var (dest, source) := (y * (g.targetWidth * 3) + x * 3 + channel, row * g.pitch + column * 4 + 2 - channel);
            && 0 <= source < |buffer| && dest < |Image(g, buffer, g.targetHeight)|
            && Image(g, buffer, g.targetHeight)[dest] == buffer[source]
  {
    hide Image;
    ImagePixel(g, buffer, g.targetHeight, x, y, channel);
  }

  /** Every destination byte belongs to exactly one pixel and channel. */
  lemma DestIndexUnique(g: Geometry, x1: nat, y1: nat, c1: nat, x2: nat, y2: nat, c2: nat)
    requires x1 < g.targetWidth && c1 < 3 && x2 < g.targetWidth && c2 < 3
    requires DestIndex(g, x1, y1, c1) == DestIndex(g, x2, y2, c2)
    ensures x1 == x2 && y1 == y2 && c1 == c2
  {
    var w := g.targetWidth * 3;
    RowsApart(y1, y2, w, x1 * 3 + c1, x2 * 3 + c2);
    RowsApart(y2, y1, w, x2 * 3 + c2, x1 * 3 + c1);
  }

  lemma RowsApart(y1: nat, y2: nat, w: nat, o1: nat, o2: nat)
    requires o1 < w
    ensures y1 < y2 ==> y1 * w + o1 < y2 * w + o2
  {
    if y1 < y2 {
      RowStep(y1 + 1, w);
      ProductMonotone(y1 + 1, y2, w);
    }
  }

  lemma DestIndexCovers(g: Geometry, i: nat) returns (x: nat, y: nat, channel: nat)
    requires i < g.targetHeight * (g.targetWidth * 3)
    ensures x < g.targetWidth && y < g.targetHeight && channel < 3 && DestIndex(g, x, y, channel) == i
  {
    var w := g.targetWidth * 3;
    y := RowOf(i, g.targetHeight, w);
    var rest := i - y * w;
    x, channel := rest / 3, rest % 3;
  }

  lemma RowOf(i: nat, rows: nat, w: nat) returns (y: nat)
    requires i < rows * w
    ensures y < rows && y * w <= i < y * w + w
  {
    if i < w {
      y := 0;
      NoRows(rows, w);
    } else {
      NoRows(rows, w);
      RowStep(rows, w);
      y := RowOf(i - w, rows - 1, w);
      y := y + 1;
      RowStep(y, w);
    }
  }

  lemma NoRows(rows: nat, w: nat)
    ensures rows == 0 ==> rows * w == 0
    ensures 0 * w == 0
  {
  }

  /** Both buffers hold the same value at column k, in bytes, of row r. */
  predicate SameAt(g: Geometry, a: seq<Byte>, b: seq<Byte>, r: nat, k: nat) {
    var i := r * g.pitch + k;
    i < |a| && i < |b| && a[i] == b[i]
  }

  /** The frame depends only on the colours: buffers that agree on them, whatever their padding and alpha, give it. */
  lemma PaddingIgnored(g: Geometry, a: seq<Byte>, b: seq<Byte>)
    requires g.Fits(a) && g.Fits(b)
    requires forall r, k :: 0 <= r < g.height && 0 <= k < 4 * g.width && k % 4 != 3 ==> SameAt(g, a, b, r, k)
    ensures Image(g, a, g.targetHeight) == Image(g, b, g.targetHeight)
  {
    var n := g.targetHeight;
    forall i | 0 <= i < |Image(g, a, n)| ensures Image(g, a, n)[i] == Image(g, b, n)[i] {
      var x, y, channel := DestIndexCovers(g, i);
      ImagePixel(g, a, n, x, y, channel);
      ImagePixel(g, b, n, x, y, channel);
      assert SameAt(g, a, b, g.SourceY(y), g.SourceX(x) * 4 + 2 - channel);
    }
  }

  // ---- Sampling in single precision ----

  /** Pixels are sampled in order, on both axes. */
  lemma SamplingMonotone(g: Geometry, r: Rounding, i: nat, j: nat)
    requires g.Valid() && r.Single() && g.SampledBy(r) && i <= j
    ensures j < g.targetWidth ==> g.SourceX(i) <= g.SourceX(j)
    ensures j < g.targetHeight ==> g.SourceY(i) <= g.SourceY(j)
  {
    hide Rounding.Single, Rounding.Sample;
    SampleMonotone(r, g.width, g.targetWidth, i, j);
    SampleMonotone(r, g.height, g.targetHeight, i, j);
  }

  /** For sources of up to 2^24 and targets of up to 2^22 pixels the clamps never act. */
  lemma ClampNeverActs(g: Geometry, r: Rounding, i: nat)
    requires g.Valid() && r.Single() && g.SampledBy(r) && g.width <= 16777216 && g.height <= 16777216
    ensures i < g.targetWidth <= 4194304 ==> g.SourceX(i) == g.sampleX(i)
    ensures i < g.targetHeight <= 4194304 ==> g.SourceY(i) == g.sampleY(i)
  {
    hide Rounding.Single, Rounding.Sample;
    if i < g.targetWidth <= 4194304 {
      SampleInside(r, g.width, g.targetWidth, i);
    }
    if i < g.targetHeight <= 4194304 {
      SampleInside(r, g.height, g.targetHeight, i);
    }
  }

  /** For sizes of up to 2^22 pixels each sample is within one pixel of the exact position. */
  lemma SamplingNear(g: Geometry, r: Rounding, i: nat)
    requires g.Valid() && r.Single() && g.SampledBy(r) && g.width <= 4194304 && g.height <= 4194304
    ensures i < g.targetWidth <= 4194304 ==>
              ExactSample(g.width, g.targetWidth, i) - 1 <= g.SourceX(i) <= ExactSample(g.width, g.targetWidth, i) + 1
    ensures i < g.targetHeight <= 4194304 ==>
              ExactSample(g.height, g.targetHeight, i) - 1 <= g.SourceY(i)
              <= ExactSample(g.height, g.targetHeight, i) + 1
  {
    hide Rounding.Single, Rounding.Sample, ExactSample;
    ClampNeverActs(g, r, i);
    if i < g.targetWidth <= 4194304 {
      SampleNear(r, g.width, g.targetWidth, i);
    }
    if i < g.targetHeight <= 4194304 {
      SampleNear(r, g.height, g.targetHeight, i);
    }
  }

  /** At equal size the frame is the source, channel-swapped and without alpha and padding. */
  lemma EqualSizeCopies(g: Geometry, r: Rounding, buffer: seq<Byte>, x: nat, y: nat, channel: nat)
    requires g.Fits(buffer) && g.targetWidth == g.width <= 16777216 && g.targetHeight == g.height <= 16777216
    requires r.Single() && g.SampledBy(r)
    requires x < g.width && y < g.height && channel < 3
    ensures g.SourceIndex(x, y) == y * g.pitch + x * 4
    ensures g.SourceIndex(x, y) + 3 < |buffer| && DestIndex(g, x, y, channel) < |Image(g, buffer, g.height)|
    ensures Image(g, buffer, g.height)[DestIndex(g, x, y, channel)] == buffer[g.SourceIndex(x, y) + 2 - channel]
  {
    hide Rounding.Single, Rounding.Sample;
    SampleIdentity(r, g.width, x);
    SampleIdentity(r, g.height, y);
    ImagePixel(g, buffer, g.height, x, y, channel);
    assert g.SourceX(x) == x && g.SourceY(y) == y;
  }
}
