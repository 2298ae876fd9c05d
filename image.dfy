/**
 * The render pass of `Camera::RenderImage` in Include/camera.h: every
 * pixel's kernel colour scaled to the channel depth, the optional 3x3
 * Gaussian blur of the interior, the conversion of each row to text and
 * the join of the header and the rows into the pixmap.
 */
module Imaging {
  import opened Wrappers
  import opened Tracing
  import opened Pixmap
  import opened RenderTools

  /** A picture: the sample at column x, row y. */
  type Picture = (int, int) -> V4

  /** What the kernel loop stores for pixel (x, y): the kernel's colour times the largest sample value. */
  function Exposed(kernel: Picture, scale: real, x: int, y: int): V4
  {
    Scale(kernel(x, y), scale)
  }

  /** A kernel colour in [0, 1] is stored in [0, scale]. */
  lemma ExposedBounded(kernel: Picture, scale: real, x: int, y: int)
    requires scale >= 0.0 && Within(kernel(x, y), 1.0)
    ensures Within(Exposed(kernel, scale, x, y), scale)
  {
    var c := kernel(x, y);
    Monotone(scale, c.x, 1.0);
    Monotone(scale, c.y, 1.0);
    Monotone(scale, c.z, 1.0);
    Monotone(scale, c.w, 1.0);
    NonNegative(c.x, scale);
    NonNegative(c.y, scale);
    NonNegative(c.z, scale);
    NonNegative(c.w, scale);
  }

  /** The blur kernel, indexed [ky + 1][kx + 1]: 1-2-1, 2-4-2, 1-2-1 over 16. */
  const Gaussian: seq<seq<real>> := [
    [1.0 / 16.0, 2.0 / 16.0, 1.0 / 16.0],
    [2.0 / 16.0, 4.0 / 16.0, 2.0 / 16.0],
    [1.0 / 16.0, 2.0 / 16.0, 1.0 / 16.0]]

  /** The weight of the neighbour at offset (kx, ky): a quarter at the centre, an eighth beside it, a sixteenth diagonally. */
  function Weight(kx: int, ky: int): real
  {
    if kx == 0 && ky == 0 then 0.25 else if kx == 0 || ky == 0 then 0.125 else 0.0625
  }

  /** `Weight` is the kernel table. */
  lemma WeightIsGaussian(kx: int, ky: int)
    requires -1 <= kx <= 1 && -1 <= ky <= 1
    ensures Weight(kx, ky) == Gaussian[ky + 1][kx + 1]
  {
  }

  /** Pixels that have all eight neighbours: the ones the blur rewrites. */
  predicate Interior(w: int, h: int, x: int, y: int)
  {
    1 <= x < w - 1 && 1 <= y < h - 1
  }

  /**
   * The weighted neighbours of (x, y) in the blur's loop order, rows ky = -1
   * upward: every row below `ky`, then the first `n` of row `ky` (kx = -1, 0, 1).
   */
  function Taps(pic: Picture, x: int, y: int, ky: int, n: nat): V4
    requires -1 <= ky <= 1 && n <= 3
    decreases ky + 1, n
  {
    if n == 0 then (if ky == -1 then Zero else Taps(pic, x, y, ky - 1, 3))
    else Add(Taps(pic, x, y, ky, n - 1), Scale(pic(x + n - 2, y + ky), Weight(n - 2, ky)))
  }

  /** The blurred sample at (x, y): all nine taps. */
  function Blur(pic: Picture, x: int, y: int): V4
  {
    Taps(pic, x, y, 1, 3)
  }

  /** The nine samples the blur of (x, y) reads all equal `c`. */
  predicate Flat(pic: Picture, x: int, y: int, c: V4)
  {
    forall a, b :: x - 1 <= a <= x + 1 && y - 1 <= b <= y + 1 ==> pic(a, b) == c
  }

  /** The nine samples the blur of (x, y) reads all lie in [0, bound]. */
  predicate Neighbourhood(pic: Picture, x: int, y: int, bound: real)
  {
    forall a, b :: x - 1 <= a <= x + 1 && y - 1 <= b <= y + 1 ==> Within(pic(a, b), bound)
  }

  /** The weights of the taps `Taps(pic, x, y, ky, n)` adds up. */
  function WeightSum(ky: int, n: nat): (r: real)
    requires -1 <= ky <= 1 && n <= 3
    ensures r >= 0.0
    decreases ky + 1, n
  {
    if n == 0 then (if ky == -1 then 0.0 else WeightSum(ky - 1, 3))
    else WeightSum(ky, n - 1) + Weight(n - 2, ky)
  }

  /** The nine weights sum to one. */
  lemma WeightsSumToOne()
    ensures WeightSum(1, 3) == 1.0
  {
    assert WeightSum(-1, 3) == 0.25;
    assert WeightSum(0, 3) == 0.75;
  }

  /** Over a flat neighbourhood the taps taken so far are `c` times their weights. */
  lemma {:induction false} TapsFlat(pic: Picture, x: int, y: int, c: V4, ky: int, n: nat)
    requires -1 <= ky <= 1 && n <= 3 && Flat(pic, x, y, c)
    ensures Taps(pic, x, y, ky, n) == Scale(c, WeightSum(ky, n))
    decreases ky + 1, n
  {
    if n == 0 {
      if ky > -1 {
        TapsFlat(pic, x, y, c, ky - 1, 3);
      } else {
        Distribute(c, 0.0, 0.0);
      }
    } else {
      TapsFlat(pic, x, y, c, ky, n - 1);
      assert pic(x + n - 2, y + ky) == c;
      Distribute(c, WeightSum(ky, n - 1), Weight(n - 2, ky));
    }
  }

  /** `a` is at most `b` in every lane. */
  predicate AtMost(a: V4, b: V4)
  {
    a.x <= b.x && a.y <= b.y && a.z <= b.z && a.w <= b.w
  }

  /** Every sample the blur of (x, y) reads from `lo` is at most the one it reads from `hi`. */
  predicate Dominated(lo: Picture, hi: Picture, x: int, y: int)
  {
    forall a, b :: x - 1 <= a <= x + 1 && y - 1 <= b <= y + 1 ==> AtMost(lo(a, b), hi(a, b))
  }

  /** The taps are monotone: a picture that is lane-wise smaller blurs to a lane-wise smaller partial sum. */
  lemma {:induction false} TapsMonotone(lo: Picture, hi: Picture, x: int, y: int, ky: int, n: nat)
    requires -1 <= ky <= 1 && n <= 3 && Dominated(lo, hi, x, y)
    ensures AtMost(Taps(lo, x, y, ky, n), Taps(hi, x, y, ky, n))
    decreases ky + 1, n
  {
    if n == 0 {
      if ky > -1 {
        TapsMonotone(lo, hi, x, y, ky - 1, 3);
      }
    } else {
      TapsMonotone(lo, hi, x, y, ky, n - 1);
      var a, b := x + n - 2, y + ky;
      assert AtMost(lo(a, b), hi(a, b));
      WeightedMonotone(Taps(lo, x, y, ky, n - 1), Taps(hi, x, y, ky, n - 1), lo(a, b), hi(a, b), Weight(n - 2, ky));
    }
  }

  /** Adding a smaller sample with the same non-negative weight to a smaller sum keeps it smaller. */
  lemma WeightedMonotone(s: V4, t: V4, u: V4, v: V4, w: real)
    requires AtMost(s, t) && AtMost(u, v) && w >= 0.0
    ensures AtMost(Add(s, Scale(u, w)), Add(t, Scale(v, w)))
  {
    Monotone(w, u.x, v.x);
    Monotone(w, u.y, v.y);
    Monotone(w, u.z, v.z);
    Monotone(w, u.w, v.w);
    assert w * u.x == u.x * w && w * v.x == v.x * w;
    assert w * u.y == u.y * w && w * v.y == v.y * w;
    assert w * u.z == u.z * w && w * v.z == v.z * w;
    assert w * u.w == u.w * w && w * v.w == v.w * w;
  }

  /** Scaling distributes over a sum of weights. */
  lemma Distribute(c: V4, p: real, w: real)
    ensures Add(Scale(c, p), Scale(c, w)) == Scale(c, p + w)
  {
    assert c.x * p + c.x * w == c.x * (p + w);
    assert c.y * p + c.y * w == c.y * (p + w);
    assert c.z * p + c.z * w == c.z * (p + w);
    assert c.w * p + c.w * w == c.w * (p + w);
  }

  /** The weights sum to one: a flat neighbourhood blurs to itself. */
  lemma BlurOfFlat(pic: Picture, x: int, y: int, c: V4)
    requires Flat(pic, x, y, c)
    ensures Blur(pic, x, y) == c
  {
    TapsFlat(pic, x, y, c, 1, 3);
    WeightsSumToOne();
  }

  /** A blur of samples no smaller than `low` is no smaller than `low`. */
  lemma BlurAtLeast(pic: Picture, x: int, y: int, low: V4)
    requires forall a, b :: x - 1 <= a <= x + 1 && y - 1 <= b <= y + 1 ==> AtMost(low, pic(a, b))
    ensures AtMost(low, Blur(pic, x, y))
  {
    var floor: Picture := (a, b) => low;
    assert Flat(floor, x, y, low);
    TapsMonotone(floor, pic, x, y, 1, 3);
    BlurOfFlat(floor, x, y, low);
  }

  /** A blur of samples no larger than `high` is no larger than `high`. */
  lemma BlurAtMost(pic: Picture, x: int, y: int, high: V4)
    requires forall a, b :: x - 1 <= a <= x + 1 && y - 1 <= b <= y + 1 ==> AtMost(pic(a, b), high)
    ensures AtMost(Blur(pic, x, y), high)
  {
    var ceiling: Picture := (a, b) => high;
    assert Flat(ceiling, x, y, high);
    TapsMonotone(pic, ceiling, x, y, 1, 3);
    BlurOfFlat(ceiling, x, y, high);
  }

  /** The weights are non-negative and sum to one: the blur stays within the bounds of what it reads. */
  lemma BlurBounded(pic: Picture, x: int, y: int, bound: real)
    requires Neighbourhood(pic, x, y, bound)
    ensures Within(Blur(pic, x, y), bound)
  {
    BlurAtLeast(pic, x, y, Zero);
    BlurAtMost(pic, x, y, V4(bound, bound, bound, bound));
  }

  /** What the smoothing pass leaves at (x, y): the blur inside, and whatever the buffer held on the border. */
  function Smoothed(pic: Picture, border: Picture, w: int, h: int, x: int, y: int): V4
  {
    if Interior(w, h, x, y) then Blur(pic, x, y) else border(x, y)
  }

  /** The exposed picture: the kernel loop's result as a picture. */
  function ExposedPicture(kernel: Picture, scale: real): Picture
  {
    (x, y) => Exposed(kernel, scale, x, y)
  }

  /** The picture the stringing step reads: the smoothed one when smoothing is on, the exposed one otherwise. */
  function Developed(kernel: Picture, scale: real, smoothing: bool, border: Picture, w: int, h: int): Picture
  {
    if smoothing then (x, y) => Smoothed(ExposedPicture(kernel, scale), border, w, h, x, y)
    else ExposedPicture(kernel, scale)
  }

  /** The kernel loop: every pixel's kernel colour times `scale`, stored at [x, y], row by row. */
  method FillImage(kernel: Picture, scale: real, w: int, h: int) returns (image: array2<V4>)
    requires w >= 0 && h >= 0
    ensures fresh(image) && image.Length0 == w && image.Length1 == h
    ensures forall x, y :: 0 <= x < w && 0 <= y < h ==> image[x, y] == Exposed(kernel, scale, x, y)
  {
    image := new V4[w, h];
    for y := 0 to h
      invariant forall a, b :: 0 <= a < w && 0 <= b < y ==> image[a, b] == Exposed(kernel, scale, a, b)
    {
      for x := 0 to w
        invariant forall a, b :: 0 <= a < w && 0 <= b < y ==> image[a, b] == Exposed(kernel, scale, a, b)
        invariant forall a :: 0 <= a < x ==> image[a, y] == Exposed(kernel, scale, a, y)
      {
        image[x, y] := Scale(kernel(x, y), scale);
      }
    }
  }

  /** The blur of interior pixel (x, y): its nine neighbours weighted and summed, row ky by row, kx by kx. */
  method BlurAt(image: array2<V4>, ghost pic: Picture, x: int, y: int) returns (sum: V4)
    requires 1 <= x < image.Length0 - 1 && 1 <= y < image.Length1 - 1
    requires forall a, b :: x - 1 <= a <= x + 1 && y - 1 <= b <= y + 1 ==> image[a, b] == pic(a, b)
    ensures sum == Blur(pic, x, y)
  {
    sum := Zero;
    for ky := -1 to 2
      invariant sum == if ky == -1 then Zero else Taps(pic, x, y, ky - 1, 3)
    {
      for kx := -1 to 2
        invariant sum == Taps(pic, x, y, ky, kx + 1)
      {
        WeightIsGaussian(kx, ky);
        sum := Add(sum, Scale(image[x + kx, y + ky], Gaussian[ky + 1][kx + 1]));
      }
    }
  }

  /**
   * The smoothing pass: a fresh buffer whose interior pixels get the blur
   * of `image`; its border keeps what the buffer held, given as `border`.
   */
  method SmoothImage(image: array2<V4>, ghost pic: Picture, border: Picture) returns (smoothed: array2<V4>)
    requires forall a, b :: 0 <= a < image.Length0 && 0 <= b < image.Length1 ==> image[a, b] == pic(a, b)
    ensures fresh(smoothed) && smoothed.Length0 == image.Length0 && smoothed.Length1 == image.Length1
    ensures forall a, b :: 0 <= a < image.Length0 && 0 <= b < image.Length1 ==>
      smoothed[a, b] == Smoothed(pic, border, image.Length0, image.Length1, a, b)
  {
    var w, h := image.Length0, image.Length1;
    smoothed := new V4[w, h]((a, b) => border(a, b));
    var y := 1;
    while y < h - 1
      invariant 1 <= y && (h >= 2 ==> y <= h - 1)
      invariant forall a, b :: 0 <= a < w && 0 <= b < h ==>
        smoothed[a, b] == if Interior(w, h, a, b) && b < y then Blur(pic, a, b) else border(a, b)
    {
      SmoothRow(image, pic, smoothed, y);
      y := y + 1;
    }
  }

  /** One row of the smoothing pass: the interior pixels of row y of `smoothed` get the blur of `image`. */
  method SmoothRow(image: array2<V4>, ghost pic: Picture, smoothed: array2<V4>, y: int)
    requires smoothed != image
    requires smoothed.Length0 == image.Length0 && smoothed.Length1 == image.Length1
    requires 1 <= y < image.Length1 - 1
    requires forall a, b :: 0 <= a < image.Length0 && 0 <= b < image.Length1 ==> image[a, b] == pic(a, b)
    modifies smoothed
    ensures forall a, b :: 0 <= a < image.Length0 && 0 <= b < image.Length1 ==>
      smoothed[a, b] == if b == y && 1 <= a < image.Length0 - 1 then Blur(pic, a, b) else old(smoothed[a, b])
  {
    var x := 1;
    while x < image.Length0 - 1
      invariant 1 <= x && (image.Length0 >= 2 ==> x <= image.Length0 - 1)
      invariant forall a, b :: 0 <= a < image.Length0 && 0 <= b < image.Length1 ==>
        smoothed[a, b] == if b == y && 1 <= a < x then Blur(pic, a, b) else old(smoothed[a, b])
    {
      var sum := BlurAt(image, pic, x, y);
      smoothed[x, y] := sum;
      x := x + 1;
    }
  }

  /** The printed channels of row y of `pic`, left to right. */
  function RowPixels(pic: Picture, w: nat, y: int): (r: seq<Rgb>)
    ensures |r| == w
    ensures forall x :: 0 <= x < w ==> Printable(r[x])
  {
    if w == 0 then [] else RowPixels(pic, w - 1, y) + [RgbOf(pic(w - 1, y))]
  }

  /** Pixel x of a printed row holds the channels of `pic` at (x, y). */
  lemma {:induction false} RowPixelsAt(pic: Picture, w: nat, y: int, x: int)
    requires 0 <= x < w
    ensures RowPixels(pic, w, y)[x] == RgbOf(pic(x, y))
  {
    if x < w - 1 {
      RowPixelsAt(pic, w - 1, y, x);
    }
  }

  /** The printed channels of every row of `pic`, top to bottom. */
  function Pixels(pic: Picture, w: nat, h: nat): (r: seq<seq<Rgb>>)
    ensures |r| == h && forall y :: 0 <= y < h ==> r[y] == RowPixels(pic, w, y)
  {
    seq(h, y requires 0 <= y < h => RowPixels(pic, w, y))
  }

  /** The text the stringing step stores for row y of `pic`, `w` pixels wide. */
  function RowTextOf(pic: Picture, w: nat, y: int): string
  {
    RowTextAsWritten(RowPixels(pic, w, y))
  }

  /**
   * One row of the stringing step: each pixel's channels cut to a byte and
   * formatted by `snprintf` into at most twelve bytes, the pointer advancing
   * by the formatted length.
   */
  method RowString(image: array2<V4>, ghost pic: Picture, y: int) returns (row: string)
    requires 0 <= y < image.Length1
    requires forall a, b :: 0 <= a < image.Length0 && 0 <= b < image.Length1 ==> image[a, b] == pic(a, b)
    ensures row == RowTextOf(pic, image.Length0, y)
  {
    row := "";
    for x := 0 to image.Length0
      invariant row == RowTextAsWritten(RowPixels(pic, x, y))
    {
      var components := image[x, y];
      var r := Channel(components.x);
      var g := Channel(components.y);
      var b := Channel(components.z);
      RowAsWrittenSnoc(RowPixels(pic, x, y), Rgb(r, g, b));
      row := row + PixelTextAsWritten(Rgb(r, g, b));
    }
  }

  /** The stringing step: row y of the result is the text of row y of `image`. */
  method StringRows(image: array2<V4>, ghost pic: Picture) returns (rows: array<string>)
    requires forall a, b :: 0 <= a < image.Length0 && 0 <= b < image.Length1 ==> image[a, b] == pic(a, b)
    ensures fresh(rows) && rows.Length == image.Length1
    ensures forall y :: 0 <= y < rows.Length ==> rows[y] == RowTextOf(pic, image.Length0, y)
  {
    rows := new string[image.Length1];
    for y := 0 to image.Length1
      invariant forall b :: 0 <= b < y ==> rows[b] == RowTextOf(pic, image.Length0, b)
    {
      var row := RowString(image, pic, y);
      rows[y] := row;
    }
  }

  /** The join: the header followed by every row, each ended by a newline. */
  method JoinRows(header: string, rows: array<string>) returns (ppm: string)
    ensures ppm == header + Lines(rows[..])
  {
    ppm := header;
    for i := 0 to rows.Length
      invariant ppm == header + Lines(rows[..i])
    {
      LinesSnoc(rows[..i], rows[i]);
      assert rows[..i + 1] == rows[..i] + [rows[i]];
      ppm := ppm + (rows[i] + "\n");
    }
    assert rows[..rows.Length] == rows[..];
  }

  /**
   * The render pass once the scene is baked: the header `generate_PPM_header`
   * writes, the kernel loop scaled to the channel depth, the optional blur,
   * the stringing and the join. `kernel` gives each pixel's colour and
   * `border` what the smoothed buffer holds where the blur does not write.
   */
  method RenderImage(kernel: Picture, resolution: seq<int>, depth: int, smoothing: bool, border: Picture)
    returns (ppm: string)
    requires |resolution| >= 2 && resolution[0] >= 0 && resolution[1] >= 0 && 0 <= depth < 31
    ensures ppm == GeneratePpmHeader(resolution, depth) +
      Lines(RowTextsAsWritten(Pixels(Developed(kernel, MaxSample(depth) as real, smoothing, border, resolution[0], resolution[1]),
                            resolution[0], resolution[1])))
  {
    var w, h := resolution[0], resolution[1];
    var header := GeneratePpmHeader(resolution, depth);
    var scale := MaxSample(depth) as real;
    ghost var pic := Developed(kernel, scale, smoothing, border, w, h);
    var image := FillImage(kernel, scale, w, h);
    var final := image;
    if smoothing {
      final := SmoothImage(image, ExposedPicture(kernel, scale), border);
    }
    var rows := StringRows(final, pic);
    ppm := JoinRows(header, rows);
    assert rows[..] == RowTextsAsWritten(Pixels(pic, w, h));
  }

  /** Pixel x of printed row y holds the channels of `pic` at (x, y). */
  lemma PixelsAt(pic: Picture, w: nat, h: nat, x: int, y: int)
    requires 0 <= x < w && 0 <= y < h
    ensures Pixels(pic, w, h)[y][x] == RgbOf(pic(x, y))
  {
    RowPixelsAt(pic, w, y, x);
  }

  /**
   * What the pixmap prints at (x, y): the exposed kernel colour without
   * smoothing; with smoothing, the blur of the exposed colours inside and
   * the buffer's content on the border.
   */
  lemma RenderedPixel(kernel: Picture, scale: real, smoothing: bool, border: Picture, w: nat, h: nat, x: int, y: int)
    requires 0 <= x < w && 0 <= y < h
    ensures var printed := Pixels(Developed(kernel, scale, smoothing, border, w, h), w, h)[y][x];
      (!smoothing ==> printed == RgbOf(Exposed(kernel, scale, x, y))) &&
      (smoothing && Interior(w, h, x, y) ==> printed == RgbOf(Blur(ExposedPicture(kernel, scale), x, y))) &&
      (smoothing && !Interior(w, h, x, y) ==> printed == RgbOf(border(x, y)))
  {
    PixelsAt(Developed(kernel, scale, smoothing, border, w, h), w, h, x, y);
  }

  /**
   * The pixmap the render pass writes reads back as the printed pixels
   * whenever none of them is wide, under a header announcing `1 << depth`,
   * one more than the largest sample the pixels were scaled to.
   */
  lemma RenderAsWrittenReadsBack(kernel: Picture, resolution: seq<int>, depth: int, smoothing: bool, border: Picture)
    requires |resolution| >= 2 && resolution[0] >= 0 && resolution[1] >= 0 && 0 <= depth < 31
    requires Narrow(Pixels(Developed(kernel, MaxSample(depth) as real, smoothing, border, resolution[0], resolution[1]),
                           resolution[0], resolution[1]))
    ensures var pixels := Pixels(Developed(kernel, MaxSample(depth) as real, smoothing, border, resolution[0], resolution[1]),
                                 resolution[0], resolution[1]);
      ReadPpm(GeneratePpmHeader(resolution, depth) + Lines(RowTextsAsWritten(pixels))) ==
        Some((Fields(resolution[0], resolution[1], Shl1(depth)), pixels))
  {
    var pixels := Pixels(Developed(kernel, MaxSample(depth) as real, smoothing, border, resolution[0], resolution[1]),
                         resolution[0], resolution[1]);
    PpmAsWrittenRoundTrip(resolution[0], resolution[1], Shl1(depth), pixels);
  }

  /**
   * Row y of the pixmap is stored as intended exactly when none of its pixels
   * has three three-digit channels; otherwise `snprintf` leaves a NUL in it.
   */
  lemma RenderedRowAsIntended(pic: Picture, w: nat, y: int)
    ensures RowTextOf(pic, w, y) == RowText(RowPixels(pic, w, y)) <==>
      forall x :: 0 <= x < w ==> !Wide(RowPixels(pic, w, y)[x])
  {
    RowAsWrittenAgrees(RowPixels(pic, w, y));
  }

  /**
   * The intended pixmap, with the largest sample in its header and a space
   * after every pixel, reads back as its header's numbers and the printed pixels.
   */
  lemma RenderReadsBack(kernel: Picture, resolution: seq<int>, depth: int, smoothing: bool, border: Picture)
    requires |resolution| >= 2 && resolution[0] >= 0 && resolution[1] >= 0 && 0 <= depth < 31
    ensures var pixels := Pixels(Developed(kernel, MaxSample(depth) as real, smoothing, border, resolution[0], resolution[1]),
                                 resolution[0], resolution[1]);
      ReadPpm(PpmHeader(resolution, depth) + Lines(RowTexts(pixels))) ==
        Some((Fields(resolution[0], resolution[1], MaxSample(depth)), pixels))
  {
    var pixels := Pixels(Developed(kernel, MaxSample(depth) as real, smoothing, border, resolution[0], resolution[1]),
                         resolution[0], resolution[1]);
    PpmRoundTrip(resolution[0], resolution[1], MaxSample(depth), pixels);
  }

  /** At eight bits a kernel colour in [0, 1] prints as its lanes times 255, truncated: no clamping happens. */
  lemma ExposedPrintsTruncated(kernel: Picture, x: int, y: int)
    requires Within(kernel(x, y), 1.0)
    ensures var c := kernel(x, y);
      RgbOf(Exposed(kernel, MaxSample(8) as real, x, y)) == Rgb(Trunc(c.x * 255.0), Trunc(c.y * 255.0), Trunc(c.z * 255.0))
  {
    assert MaxSample(8) == 255;
    ExposedBounded(kernel, 255.0, x, y);
    RgbOfInRange(Exposed(kernel, 255.0, x, y));
  }

  /** Smoothing keeps exposed kernel colours in [0, 1] within [0, scale] at every interior pixel. */
  lemma SmoothedBounded(kernel: Picture, scale: real, border: Picture, w: int, h: int, x: int, y: int)
    requires scale >= 0.0 && Interior(w, h, x, y)
    requires forall a, b :: x - 1 <= a <= x + 1 && y - 1 <= b <= y + 1 ==> Within(kernel(a, b), 1.0)
    ensures Within(Smoothed(ExposedPicture(kernel, scale), border, w, h, x, y), scale)
  {
    var pic := ExposedPicture(kernel, scale);
    forall a, b | x - 1 <= a <= x + 1 && y - 1 <= b <= y + 1
      ensures Within(pic(a, b), scale)
    {
      ExposedBounded(kernel, scale, a, b);
    }
    BlurBounded(pic, x, y, scale);
  }
}
