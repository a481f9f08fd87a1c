// The pixel converters of frame.c: loops, unrolled by eight pixels, that write an
// output array from an input array.
module PixelConversion {
  import opened Bytes
  import opened FrameFormats
  import opened PixelFormulas

  datatype Result = Success | InvalidParam | NoMem

  datatype Time = Time(seconds: int, fraction: int)

  /** Where a frame comes from: what a conversion hands on. `source` stands for the
      device handle. */
  datatype Origin = Origin(sequence: u32, captureTime: Time, captureTimeFinished: Time, source: nat)

  /** struct uvc_frame, without metadata. */
  class Frame {
    var data: array?<byte>
    var dataBytes: nat
    var format: FrameFormat
    var width: u32
    var height: u32
    var step: nat
    var origin: Origin
    var owns: bool   // library_owns_data

    ghost predicate Valid()
      reads this
    {
      data != null ==> dataBytes <= data.Length
    }

    /** uvc_ensure_frame_size. `memory`: realloc succeeds, if it is called. A buffer that
        the library does not own is taken as it is, even if it is larger. */
    method EnsureSize(need: nat, memory: bool) returns (r: Result)
      requires Valid()
      modifies this`data, this`dataBytes
      ensures Valid() && r != InvalidParam
      ensures r == Success ==> data != null && need <= dataBytes && (owns ==> dataBytes == need)
      ensures data != old(data) ==> data == null || fresh(data)
      ensures r == NoMem <==>
              if owns then (old(data) == null || old(dataBytes) != need) && !memory
              else data == null || dataBytes < need
      ensures !owns ==> data == old(data) && dataBytes == old(dataBytes)
    {
      if owns {
        if data == null || dataBytes != need {
          dataBytes := need;
          if memory {
            data := new byte[need];
          } else {
            data := null;
          }
        }
        r := if data == null then NoMem else Success;
      } else {
        r := if data == null || dataBytes < need then NoMem else Success;
      }
    }
  }

  /** The indices from `from` to `to`, each once and in order. */
  ghost function Indices(from: nat, to: nat): (s: seq<nat>)
    requires from <= to
    ensures |s| == to - from
  {
    seq(to - from, i requires 0 <= i < to - from => from + i)
  }

  lemma IndicesJoin(a: nat, b: nat, c: nat)
    requires a <= b <= c
    ensures Indices(a, b) + Indices(b, c) == Indices(a, c)
  {
  }

  /** Every write of an output byte; `log` says which bytes have been written so far. */
  method Write(out: array<byte>, ghost log: seq<nat>, o: nat, x: byte) returns (ghost writes: seq<nat>)
    requires o < out.Length
    modifies out
    ensures out[..] == old(out[..])[o := x] && writes == log + [o]
  {
    out[o] := x;
    writes := log + [o];
  }

  /** The formulas of the macros; r, g and b are shared by two pixels. */
  method Put2(c: Channels, y0: byte, y1: byte, u: byte, v: byte, out: array<byte>, o: nat)
    returns (ghost writes: seq<nat>)
    requires o + 6 <= out.Length
    modifies out
    ensures out[..o + 6] == old(out[..o]) + Layout(c, ToColour(y0, u, v)) + Layout(c, ToColour(y1, u, v))
    ensures writes == Indices(o, o + 6)
  {
    var r, g, b := Red(v), Green(u, v), Blue(u);
    hide Sat, Red, Green, Blue;
    if c.Rgb? {
      writes := Write(out, [], o, Sat(y0 + r));
      writes := Write(out, writes, o + 1, Sat(y0 + g));
      writes := Write(out, writes, o + 2, Sat(y0 + b));
      writes := Write(out, writes, o + 3, Sat(y1 + r));
      writes := Write(out, writes, o + 4, Sat(y1 + g));
      writes := Write(out, writes, o + 5, Sat(y1 + b));
    } else {
      writes := Write(out, [], o, Sat(y0 + b));
      writes := Write(out, writes, o + 1, Sat(y0 + g));
      writes := Write(out, writes, o + 2, Sat(y0 + r));
      writes := Write(out, writes, o + 3, Sat(y1 + b));
      writes := Write(out, writes, o + 4, Sat(y1 + g));
      writes := Write(out, writes, o + 5, Sat(y1 + r));
    }
  }

  /** The first `h` pairs of pixels have been converted. */
  ghost predicate Done(p: Packing, c: Channels, input: array<byte>, out: array<byte>, h: nat)
    reads input, out
  {
    6 * h <= out.Length && out[..6 * h] == Converted(p, c, input[..], 2 * h)
  }

  /** IYUYV2RGB_2, IYUYV2BGR_2, IUYVY2RGB_2 and IUYVY2BGR_2: the two pixels of pair `h`,
      from in[i..] to out[o..]. */
  method Convert2(p: Packing, c: Channels, input: array<byte>, i: nat, out: array<byte>, o: nat, ghost h: nat)
    returns (ghost writes: seq<nat>)
    requires input != out && i == 4 * h && o == 6 * h
    requires i + 4 <= input.Length && o + 6 <= out.Length && Done(p, c, input, out, h)
    modifies out
    ensures Done(p, c, input, out, h + 1) && writes == Indices(o, o + 6)
  {
    ghost var data := input[..];
    PairMore(p, c, data, h);
    hide Converted, ToColour, Layout;
    var b0, b1, b2, b3 := input[i], input[i + 1], input[i + 2], input[i + 3];
    assert data[4 * h] == b0 && data[4 * h + 1] == b1 && data[4 * h + 2] == b2 && data[4 * h + 3] == b3;
    if p.Yuyv? {
      writes := Put2(c, b0, b2, b1, b3, out, o);
    } else {
      writes := Put2(c, b1, b3, b0, b2, out, o);
    }
    assert input[..] == data;
  }

  lemma PairAt(p: Packing, data: seq<byte>, h: nat)
    requires 4 * h + 4 <= |data|
    ensures p.Yuyv? ==> Pixel(p, data, 2 * h) == ToColour(data[4 * h], data[4 * h + 1], data[4 * h + 3])
                        && Pixel(p, data, 2 * h + 1) == ToColour(data[4 * h + 2], data[4 * h + 1], data[4 * h + 3])
    ensures p.Uyvy? ==> Pixel(p, data, 2 * h) == ToColour(data[4 * h + 1], data[4 * h], data[4 * h + 2])
                        && Pixel(p, data, 2 * h + 1) == ToColour(data[4 * h + 3], data[4 * h], data[4 * h + 2])
  {
    hide ToColour;
    assert (2 * h) / 2 == h && (2 * h + 1) / 2 == h;
  }

  lemma TwoMore(p: Packing, c: Channels, data: seq<byte>, h: nat)
    ensures Converted(p, c, data, 2 * (h + 1))
         == Converted(p, c, data, 2 * h) + Layout(c, Pixel(p, data, 2 * h)) + Layout(c, Pixel(p, data, 2 * h + 1))
  {
    hide Pixel, Layout;
    assert Converted(p, c, data, 2 * h + 1) == Converted(p, c, data, 2 * h) + Layout(c, Pixel(p, data, 2 * h));
  }

  lemma PairMore(p: Packing, c: Channels, data: seq<byte>, h: nat)
    requires 4 * h + 4 <= |data|
    ensures var b0, b1, b2, b3 := data[4 * h], data[4 * h + 1], data[4 * h + 2], data[4 * h + 3];
            Converted(p, c, data, 2 * (h + 1)) == Converted(p, c, data, 2 * h)
              + Layout(c, if p.Yuyv? then ToColour(b0, b1, b3) else ToColour(b1, b0, b2))
              + Layout(c, if p.Yuyv? then ToColour(b2, b1, b3) else ToColour(b3, b0, b2))
  {
    hide Converted, ToColour, Layout, Pixel;
    TwoMore(p, c, data, h);
    PairAt(p, data, h);
  }

  method Convert4(p: Packing, c: Channels, input: array<byte>, i: nat, out: array<byte>, o: nat, ghost h: nat)
    returns (ghost writes: seq<nat>)
    requires input != out && i == 4 * h && o == 6 * h
    requires i + 8 <= input.Length && o + 12 <= out.Length && Done(p, c, input, out, h)
    modifies out
    ensures Done(p, c, input, out, h + 2) && writes == Indices(o, o + 12)
  {
    hide Done, Indices;
    ghost var w0 := Convert2(p, c, input, i, out, o, h);
    ghost var w1 := Convert2(p, c, input, i + 4, out, o + 6, h + 1);
    IndicesJoin(o, o + 6, o + 12);
    writes := w0 + w1;
  }

  method Convert8(p: Packing, c: Channels, input: array<byte>, i: nat, out: array<byte>, o: nat, ghost h: nat)
    returns (ghost writes: seq<nat>)
    requires input != out && i == 4 * h && o == 6 * h
    requires i + 16 <= input.Length && o + 24 <= out.Length && Done(p, c, input, out, h)
    modifies out
    ensures Done(p, c, input, out, h + 4) && writes == Indices(o, o + 24)
  {
    hide Done, Indices;
    ghost var w0 := Convert4(p, c, input, i, out, o, h);
    ghost var w1 := Convert4(p, c, input, i + 8, out, o + 12, h + 2);
    IndicesJoin(o, o + 12, o + 24);
    writes := w0 + w1;
  }

  /** The loop of the four converters: `groups` groups of eight pixels, to the end of the output. */
  method ConvertAll(p: Packing, c: Channels, input: array<byte>, out: array<byte>, end: nat, ghost groups: nat)
    returns (ghost writes: seq<nat>)
    requires input != out && 16 * groups <= input.Length && end == 24 * groups <= out.Length
    modifies out
    ensures Done(p, c, input, out, 4 * groups) && writes == Indices(0, end)
  {
    hide Done, Indices;
    NoneDone(p, c, input, out);
    writes := [];
    var i, o := 0, 0;
    ghost var a := 0;
    while o < end
      invariant i == 16 * a && o == 24 * a && a <= groups
      invariant Done(p, c, input, out, 4 * a) && writes == Indices(0, o)
      decreases end - o
    {
      ghost var w := Convert8(p, c, input, i, out, o, 4 * a);
      IndicesJoin(0, o, o + 24);
      writes := writes + w;
      o := o + 3 * 8;
      i := i + 2 * 8;
      a := a + 1;
    }
  }

  lemma NoneDone(p: Packing, c: Channels, input: array<byte>, out: array<byte>)
    ensures Done(p, c, input, out, 0) && Indices(0, 0) == []
  {
  }

  lemma AllDone(p: Packing, c: Channels, input: array<byte>, out: array<byte>, groups: nat, n: nat)
    requires Done(p, c, input, out, 4 * groups) && n == 8 * groups
    ensures 3 * n <= out.Length && out[..3 * n] == Converted(p, c, input[..], n)
  {
    hide Converted;
  }

  function FormatOf(p: Packing): FrameFormat {
    if p.Yuyv? then FrameFormat.Yuyv else FrameFormat.Uyvy
  }

  function ColourFormat(c: Channels): FrameFormat {
    if c.Rgb? then FrameFormat.Rgb else FrameFormat.Bgr
  }

  function Pixels(width: nat, height: nat): nat {
    width * height
  }

  /** What the converters rely on: whole groups of eight pixels, all of them there, a size
      that fits 32 bits, and a buffer of the user's, if it is large enough, no larger. */
  ghost predicate Convertible(input: Frame, out: Frame)
    reads input, out
  {
    var n := Pixels(input.width, input.height);
    && input != out && out.Valid() && input.data != null && input.data != out.data
    && n % 8 == 0 && 3 * n < TWO_TO_32 && 2 * n <= input.data.Length
    && (!out.owns && out.data != null && out.dataBytes >= 3 * n ==> out.dataBytes == 3 * n)
  }

  /** uvc_yuyv2rgb, uvc_yuyv2bgr, uvc_uyvy2rgb and uvc_uyvy2bgr */
  method Convert(p: Packing, c: Channels, input: Frame, out: Frame, memory: bool)
    returns (r: Result, ghost writes: seq<nat>)
    requires Convertible(input, out)
    modifies out, out.data
    ensures r == InvalidParam <==> input.format != FormatOf(p)
    ensures r == Success ==>
              var n := Pixels(input.width, input.height);
              && out.data != null && out.dataBytes == 3 * n <= out.data.Length
              && out.data[..3 * n] == Converted(p, c, input.data[..], n)
              && out.format == ColourFormat(c)
              && out.width == input.width && out.height == input.height && out.step == 3 * input.width
              && out.origin == input.origin
              && writes == Indices(0, 3 * n)
    ensures r != Success ==> writes == []
  {
    writes := [];
    if input.format != FormatOf(p) {
      return InvalidParam, [];
    }
    var n := Pixels(input.width, input.height);
    ghost var groups := n / 8;
    assert n == 8 * groups;
    hide Pixels, Converted, Done, Indices;
    r := out.EnsureSize(n * 3, memory);
    if r == NoMem {
      return;
    }
    out.width, out.height, out.format := input.width, input.height, ColourFormat(c);
    out.step, out.origin := input.width * 3, input.origin;
    writes := ConvertAll(p, c, input.data, out.data, out.dataBytes, groups);
    AllDone(p, c, input.data, out.data, groups, n);
  }

  /** uvc_yuyv2y (uv = false) and uvc_yuyv2uv (uv = true): every other byte. */
  method ConvertPlane(uv: bool, input: Frame, out: Frame, memory: bool) returns (r: Result, ghost writes: seq<nat>)
    requires input != out && out.Valid() && input.data != null && input.data != out.data
    requires var n := Pixels(input.width, input.height);
             n < TWO_TO_32 && 2 * n <= input.data.Length
             && (!out.owns && out.data != null && out.dataBytes >= n ==> out.dataBytes == n)
    modifies out, out.data
    ensures r == InvalidParam <==> input.format != FrameFormat.Yuyv
    ensures r == Success ==>
              var n := Pixels(input.width, input.height);
              && out.data != null && out.dataBytes == n <= out.data.Length
              && out.data[..n] == (if uv then PlaneUV(input.data[..], n) else PlaneY(input.data[..], n))
              && out.format == Gray8 && out.width == input.width && out.height == input.height
              && out.step == input.width && out.origin == input.origin
              && writes == Indices(0, n)
    ensures r != Success ==> writes == []
  {
    writes := [];
    if input.format != FrameFormat.Yuyv {
      return InvalidParam, [];
    }
    var n := Pixels(input.width, input.height);
    hide Pixels;
    r := out.EnsureSize(n, memory);
    if r == NoMem {
      return;
    }
    out.width, out.height, out.format := input.width, input.height, Gray8;
    out.step, out.origin := input.width, input.origin;
    writes := CopyPlane(uv, input.data, out.data, out.dataBytes);
  }

  /** The loop of uvc_yuyv2y or uvc_yuyv2uv. */
  method CopyPlane(uv: bool, input: array<byte>, out: array<byte>, end: nat) returns (ghost writes: seq<nat>)
    requires input != out && 2 * end <= input.Length && end <= out.Length
    modifies out
    ensures out[..end] == if uv then PlaneUV(input[..], end) else PlaneY(input[..], end)
    ensures writes == Indices(0, end)
  {
    writes := [];
    var i, o := 0, 0;
    while o < end
      invariant i == 2 * o && o <= end && writes == Indices(0, o)
      invariant forall k | 0 <= k < o :: out[k] == input[if uv then 2 * k + 1 else 2 * k]
    {
      writes := Write(out, writes, o, input[if uv then i + 1 else i]);
      o := o + 1;
      i := i + 2;
    }
  }
}
