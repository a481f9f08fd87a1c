// The pixel formulas of frame.c on values: packed 4:2:2 pixels to 24-bit colour,
// and to their two planes.
module PixelFormulas {
  import opened Bytes

  /** sat */
  function Sat(i: int): byte {
    if i >= 255 then 255 else if i < 0 then 0 else i
  }

  /** Shifting right by 14 bits rounds down, for negative numbers too. */
  const ONE: nat := 0x4000

  function Red(v: byte): int { 22987 * (v - 128) / ONE }
  function Green(u: byte, v: byte): int { (-5636 * (u - 128) - 11698 * (v - 128)) / ONE }
  function Blue(u: byte): int { 29049 * (u - 128) / ONE }

  datatype Colour = Colour(r: byte, g: byte, b: byte)

  function ToColour(y: byte, u: byte, v: byte): Colour {
    Colour(Sat(y + Red(v)), Sat(y + Green(u, v)), Sat(y + Blue(u)))
  }

  // ----- whole frames -----

  /** The order of the bytes of two pixels: Y0 U Y1 V, or U Y0 V Y1. */
  datatype Packing = Yuyv | Uyvy

  datatype Channels = Rgb | Bgr

  /** Bytes that are not there read as 0; the converters never read them. */
  function At(data: seq<byte>, i: nat): byte {
    if i < |data| then data[i] else 0
  }

  function Y(p: Packing, data: seq<byte>, k: nat): byte {
    At(data, if p.Yuyv? then 2 * k else 2 * k + 1)
  }

  /** Pixels 2m and 2m + 1 share the U and V of pair m. */
  function U(p: Packing, data: seq<byte>, k: nat): byte {
    At(data, if p.Yuyv? then 4 * (k / 2) + 1 else 4 * (k / 2))
  }

  function V(p: Packing, data: seq<byte>, k: nat): byte {
    At(data, if p.Yuyv? then 4 * (k / 2) + 3 else 4 * (k / 2) + 2)
  }

  function Pixel(p: Packing, data: seq<byte>, k: nat): Colour {
    ToColour(Y(p, data, k), U(p, data, k), V(p, data, k))
  }

  function Layout(c: Channels, x: Colour): (b: seq<byte>)
    ensures |b| == 3
  {
    if c.Rgb? then [x.r, x.g, x.b] else [x.b, x.g, x.r]
  }

  /** The first `n` pixels, converted. */
  function Converted(p: Packing, c: Channels, data: seq<byte>, n: nat): (b: seq<byte>)
    ensures |b| == 3 * n
  {
    if n == 0 then [] else Converted(p, c, data, n - 1) + Layout(c, Pixel(p, data, n - 1))
  }

  /** Every pixel is at its place. */
  lemma {:induction false} ConvertedAt(p: Packing, c: Channels, data: seq<byte>, n: nat, k: nat)
    requires k < n
    ensures Converted(p, c, data, n)[3 * k..3 * k + 3] == Layout(c, Pixel(p, data, k))
  {
    hide Pixel, Layout, ToColour;
    var before := Converted(p, c, data, n - 1);
    if k < n - 1 {
      ConvertedAt(p, c, data, n - 1, k);
      assert Converted(p, c, data, n)[3 * k..3 * k + 3] == before[3 * k..3 * k + 3];
    } else {
      assert (before + Layout(c, Pixel(p, data, k)))[|before|..] == Layout(c, Pixel(p, data, k));
    }
  }

  // ----- how the converters are related -----

  /** The first and third byte of every pixel exchanged. */
  function SwapEnds(b: seq<byte>): seq<byte>
    decreases |b|
  {
    if |b| < 3 then b else
      var k := |b| - 3;
      SwapEnds(b[..k]) + [b[k + 2], b[k + 1], b[k]]
  }

  /** BGR output is RGB output with red and blue exchanged. */
  lemma {:induction false} BgrSwapsRgb(p: Packing, data: seq<byte>, n: nat)
    ensures Converted(p, Bgr, data, n) == SwapEnds(Converted(p, Rgb, data, n))
  {
    hide *;
    ConvertedNone(p, data);
    if n > 0 {
      BgrSwapsRgb(p, data, n - 1);
      SwapLast(Converted(p, Rgb, data, n - 1), Pixel(p, data, n - 1));
      ConvertedNext(p, Rgb, data, n - 1);
      ConvertedNext(p, Bgr, data, n - 1);
    }
  }

  lemma ConvertedNone(p: Packing, data: seq<byte>)
    ensures forall c :: Converted(p, c, data, 0) == []
    ensures SwapEnds([]) == []
  {
  }

  lemma ConvertedNext(p: Packing, c: Channels, data: seq<byte>, n: nat)
    ensures Converted(p, c, data, n + 1) == Converted(p, c, data, n) + Layout(c, Pixel(p, data, n))
  {
    hide Pixel, Layout;
  }

  lemma SwapLast(before: seq<byte>, x: Colour)
    ensures SwapEnds(before + Layout(Rgb, x)) == SwapEnds(before) + Layout(Bgr, x)
  {
    var all := before + Layout(Rgb, x);
    assert all[..|before|] == before;
  }

  /** The two bytes of every pair exchanged. */
  function SwapPairs(data: seq<byte>): (s: seq<byte>)
    requires |data| % 2 == 0
    ensures |s| == |data|
  {
    seq(|data|, i requires 0 <= i < |data| => if i % 2 == 0 then data[i + 1] else data[i - 1])
  }

  /** Converting UYVY with the bytes of every pair exchanged is converting YUYV. */
  lemma {:induction false} UyvyIsSwappedYuyv(c: Channels, data: seq<byte>, n: nat)
    requires |data| % 2 == 0
    ensures Converted(Uyvy, c, SwapPairs(data), n) == Converted(Yuyv, c, data, n)
  {
    hide *;
    if n == 0 {
      ConvertedNone(Uyvy, SwapPairs(data));
      ConvertedNone(Yuyv, data);
    } else {
      UyvyIsSwappedYuyv(c, data, n - 1);
      PixelSwapped(data, n - 1);
      ConvertedNext(Uyvy, c, SwapPairs(data), n - 1);
      ConvertedNext(Yuyv, c, data, n - 1);
    }
  }

  /** Bytes 2j and 2j + 1 of the exchanged frame. */
  lemma PairSwapped(data: seq<byte>, j: nat)
    requires |data| % 2 == 0
    ensures At(SwapPairs(data), 2 * j) == At(data, 2 * j + 1)
    ensures At(SwapPairs(data), 2 * j + 1) == At(data, 2 * j)
  {
    assert (2 * j) % 2 == 0 && (2 * j + 1) % 2 == 1;
    assert 2 * j < |data| <==> 2 * j + 1 < |data| by {
      assert |data| == 2 * (|data| / 2);
    }
  }

  lemma PixelSwapped(data: seq<byte>, k: nat)
    requires |data| % 2 == 0
    ensures Pixel(Uyvy, SwapPairs(data), k) == Pixel(Yuyv, data, k)
  {
    hide ToColour, SwapPairs, At;
    var m := k / 2;
    PairSwapped(data, k);
    PairSwapped(data, 2 * m);
    PairSwapped(data, 2 * m + 1);
  }

  /** The luminance plane, and the plane of alternating U and V, of a YUYV frame. */
  function PlaneY(data: seq<byte>, n: nat): (s: seq<byte>)
    requires 2 * n <= |data|
    ensures |s| == n
  {
    seq(n, k requires 0 <= k < n => data[2 * k])
  }

  function PlaneUV(data: seq<byte>, n: nat): (s: seq<byte>)
    requires 2 * n <= |data|
    ensures |s| == n
  {
    seq(n, k requires 0 <= k < n => data[2 * k + 1])
  }

  function Interleave(a: seq<byte>, b: seq<byte>): seq<byte>
    requires |a| == |b|
  {
    if a == [] then [] else [a[0], b[0]] + Interleave(a[1..], b[1..])
  }

  /** Nothing of a YUYV frame is lost in its two planes. */
  lemma {:induction false} PlanesRestore(data: seq<byte>, n: nat)
    requires |data| == 2 * n
    ensures Interleave(PlaneY(data, n), PlaneUV(data, n)) == data
    decreases n
  {
    if n > 0 {
      var rest := data[2..];
      PlanesRestore(rest, n - 1);
      assert PlaneY(data, n)[1..] == PlaneY(rest, n - 1);
      assert PlaneUV(data, n)[1..] == PlaneUV(rest, n - 1);
      assert data == [data[0], data[1]] + rest;
    }
  }

  // ----- how far the fixed-point formula is from the exact one -----

  /** Conversion of a real to an integer: truncation toward zero. */
  function Trunc(x: real): int {
    if x >= 0.0 then x.Floor else -(-x).Floor
  }

  /** The formulas of YUYV2RGB_2, read over the reals. */
  function ExactRed(v: byte): real { 1.402 * (v - 128) as real }
  function ExactGreen(u: byte, v: byte): real { -0.34414 * (u - 128) as real - 0.71414 * (v - 128) as real }
  function ExactBlue(u: byte): real { 1.772 * (u - 128) as real }

  function ExactColour(y: byte, u: byte, v: byte): Colour {
    Colour(Sat(Trunc(y as real + ExactRed(v))), Sat(Trunc(y as real + ExactGreen(u, v))),
           Sat(Trunc(y as real + ExactBlue(u))))
  }

  predicate Near(a: byte, b: byte) {
    -1 <= a - b <= 1
  }

  function Clamp(x: real): real {
    if x < 0.0 then 0.0 else if x > 255.0 then 255.0 else x
  }

  /** A channel is at most a rounding down and 0.14 away from the real value, or from 0 or
      255 if that is outside the range of a byte. */
  predicate Close(a: byte, x: real) {
    -1.14 < a as real - Clamp(x) < 0.14
  }

  /** Saturation keeps 0 to 255, and gives 0 below and 255 above. */
  lemma SatIsClamp(i: int)
    ensures 0 <= i <= 255 ==> Sat(i) == i
    ensures i < 0 ==> Sat(i) == 0
    ensures i > 255 ==> Sat(i) == 255
    ensures Sat(i) as real == Clamp(i as real)
  {
  }

  /** A scaled integer within 0.14 of a real gives such a channel, rounded down. */
  lemma CloseChannel(y: byte, n: int, x: real)
    requires -0.14 < n as real / ONE as real - x < 0.14
    ensures Close(Sat(y + n / ONE), y as real + x)
    ensures Near(Sat(y + n / ONE), Sat(Trunc(y as real + x)))
  {
    var q, r := n / ONE, n % ONE;
    assert n == ONE * q + r;
    var scaled := n as real / ONE as real;
    assert scaled * ONE as real == n as real;
    assert q as real <= scaled < q as real + 1.0;
    SatIsClamp(y + q);
  }

  /** Over the reals, the rounded coefficients are near enough. */
  lemma RedIsClose(y: byte, v: byte)
    ensures Close(Sat(y + Red(v)), y as real + 1.402 * (v - 128) as real)
    ensures Near(Sat(y + Red(v)), Sat(Trunc(y as real + ExactRed(v))))
  {
    hide Sat, Trunc, Near, Close;
    var d: int := v - 128;
    assert (22987 * d) as real == 22987.0 * d as real;
    CloseChannel(y, 22987 * d, ExactRed(v));
  }

  lemma GreenIsClose(y: byte, u: byte, v: byte)
    ensures Close(Sat(y + Green(u, v)), y as real - 0.34414 * (u - 128) as real - 0.71414 * (v - 128) as real)
    ensures Near(Sat(y + Green(u, v)), Sat(Trunc(y as real + ExactGreen(u, v))))
  {
    hide Sat, Trunc, Near, Close;
    var d: int, e: int := u - 128, v - 128;
    assert (-5636 * d - 11698 * e) as real == -5636.0 * d as real - 11698.0 * e as real;
    CloseChannel(y, -5636 * d - 11698 * e, ExactGreen(u, v));
  }

  lemma BlueIsClose(y: byte, u: byte)
    ensures Close(Sat(y + Blue(u)), y as real + 1.772 * (u - 128) as real)
    ensures Near(Sat(y + Blue(u)), Sat(Trunc(y as real + ExactBlue(u))))
  {
    hide Sat, Trunc, Near, Close;
    var d: int := u - 128;
    assert (29049 * d) as real == 29049.0 * d as real;
    CloseChannel(y, 29049 * d, ExactBlue(u));
  }

  /** Each channel is close to the exact red, green and blue of `y`, `u` and `v`. */
  predicate CloseColour(x: Colour, y: byte, u: byte, v: byte) {
    && Close(x.r, y as real + 1.402 * (v - 128) as real)
    && Close(x.g, y as real - 0.34414 * (u - 128) as real - 0.71414 * (v - 128) as real)
    && Close(x.b, y as real + 1.772 * (u - 128) as real)
  }

  /** Every channel of every pixel is close to the exact value, and within 1 of the
      floating-point formula, truncated and saturated. */
  lemma NearExact(y: byte, u: byte, v: byte)
    ensures CloseColour(ToColour(y, u, v), y, u, v)
    ensures Near(ToColour(y, u, v).r, ExactColour(y, u, v).r)
    ensures Near(ToColour(y, u, v).g, ExactColour(y, u, v).g)
    ensures Near(ToColour(y, u, v).b, ExactColour(y, u, v).b)
  {
    RedIsClose(y, v);
    GreenIsClose(y, u, v);
    BlueIsClose(y, u);
    hide Sat, Trunc, Near, Close, Red, Green, Blue, ExactRed, ExactGreen, ExactBlue;
  }

  /** Without colour, a pixel is as grey as its luminance says. */
  lemma GreyIsExact(y: byte)
    ensures ToColour(y, 128, 128) == Colour(y, y, y)
  {
  }

  // ----- whole frames, from the pixels that were packed to the bytes that come out -----

  /** Two pixels that share U and V. */
  datatype Pair = Pair(y0: byte, u: byte, y1: byte, v: byte)

  function Pack(p: Packing, pairs: seq<Pair>): (data: seq<byte>)
    ensures |data| == 4 * |pairs|
  {
    if pairs == [] then [] else
      var x := pairs[0];
      (if p.Yuyv? then [x.y0, x.u, x.y1, x.v] else [x.u, x.y0, x.v, x.y1]) + Pack(p, pairs[1..])
  }

  lemma {:induction false} PackAt(p: Packing, pairs: seq<Pair>, i: nat)
    requires i < |pairs|
    ensures var x, at := pairs[i], 4 * i;
            Pack(p, pairs)[at..at + 4] == if p.Yuyv? then [x.y0, x.u, x.y1, x.v] else [x.u, x.y0, x.v, x.y1]
  {
    if i > 0 {
      PackAt(p, pairs[1..], i - 1);
      assert Pack(p, pairs)[4..] == Pack(p, pairs[1..]);
      assert Pack(p, pairs)[4 * i..4 * i + 4] == Pack(p, pairs)[4..][4 * (i - 1)..4 * (i - 1) + 4];
    }
  }

  lemma PixelOfPair(p: Packing, pairs: seq<Pair>, k: nat)
    requires k < 2 * |pairs|
    ensures Pixel(p, Pack(p, pairs), k) == ToColour(Luminance(pairs, k), pairs[k / 2].u, pairs[k / 2].v)
  {
    hide ToColour, Pack;
    var i, data := k / 2, Pack(p, pairs);
    PackAt(p, pairs, i);
    var quad := data[4 * i..4 * i + 4];
    assert quad[0] == data[4 * i] && quad[1] == data[4 * i + 1];
    assert quad[2] == data[4 * i + 2] && quad[3] == data[4 * i + 3];
    if k % 2 == 0 {
      assert k == 2 * i;
    } else {
      assert k == 2 * i + 1;
    }
  }

  function Luminance(pairs: seq<Pair>, k: nat): byte
    requires k < 2 * |pairs|
  {
    if k % 2 == 0 then pairs[k / 2].y0 else pairs[k / 2].y1
  }

  /** The colour whose bytes are at `b`. */
  function ColourAt(c: Channels, b: seq<byte>): Colour
    requires |b| == 3
  {
    if c.Rgb? then Colour(b[0], b[1], b[2]) else Colour(b[2], b[1], b[0])
  }

  lemma LaidOut(c: Channels, x: Colour)
    ensures ColourAt(c, Layout(c, x)) == x
  {
  }

  /** The converters, end to end: of a frame packed from pairs of pixels, bytes 3k to
      3k + 2 of the output are close to the exact colour of pixel k. */
  lemma ColoursOfPixel(p: Packing, c: Channels, pairs: seq<Pair>, k: nat)
    requires k < 2 * |pairs|
    ensures CloseColour(ColourAt(c, Converted(p, c, Pack(p, pairs), 2 * |pairs|)[3 * k..3 * k + 3]),
                        Luminance(pairs, k), pairs[k / 2].u, pairs[k / 2].v)
  {
    hide *;
    PixelOfPair(p, pairs, k);
    ConvertedAt(p, c, Pack(p, pairs), 2 * |pairs|, k);
    LaidOut(c, Pixel(p, Pack(p, pairs), k));
    NearExact(Luminance(pairs, k), pairs[k / 2].u, pairs[k / 2].v);
  }
}
