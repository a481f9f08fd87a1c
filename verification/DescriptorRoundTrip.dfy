// The descriptors that a camera sends, their layout in bytes after section 3.9.2
// of USB Video Class 1.5, and the proof that the scan of device.c reads back
// what is laid out.
module DescriptorRoundTrip {
  import opened Bytes
  import opened Descriptors

  datatype Rates = Continuous(min: u32, max: u32, step: u32) | Discrete(intervals: seq<u32>)

  datatype Size = Size(width: u16, height: u16)

  datatype Aspect = Aspect(x: byte, y: byte, interlace: byte, copyProtect: byte)

  /** What the two kinds of frame descriptors have in common. */
  datatype Frame = Frame(
    index: byte, capabilities: byte, size: Size, minBitRate: u32, maxBitRate: u32, defaultInterval: u32, rates: Rates)

  datatype Descriptor =
    | InputHeader(numFormats: byte, totalLength: u16, endpoint: byte, info: byte, terminalLink: byte,
                  stillMethod: byte, controls: seq<byte>)
    | FormatUncompressed(index: byte, numFrames: byte, guid: seq<byte>, bitsPerPixel: byte, defaultFrame: byte,
                         aspect: Aspect)
    | FormatFrameBased(index: byte, numFrames: byte, guid: seq<byte>, bitsPerPixel: byte, defaultFrame: byte,
                       aspect: Aspect, variableSize: byte)
    | FormatMjpeg(index: byte, numFrames: byte, flags: byte, defaultFrame: byte, aspect: Aspect)
    | FrameUncompressed(frame: Frame, maxBufferSize: u32)
    | FrameMjpeg(frame: Frame, maxBufferSize: u32)
    | FrameFrameBased(frame: Frame, bytesPerLine: u32)
    | StillImage(endpoint: byte, sizes: seq<Size>, compression: seq<byte>)
    | Other(subtype: byte, body: seq<byte>)

  // ----- layout -----

  function WriteAll(xs: seq<u32>): (b: seq<byte>)
    ensures |b| == 4 * |xs|
  {
    if xs == [] then [] else WriteU32(xs[0]) + WriteAll(xs[1..])
  }

  function WriteSizes(ss: seq<Size>): (b: seq<byte>)
    ensures |b| == 4 * |ss|
  {
    if ss == [] then [] else WriteU16(ss[0].width) + WriteU16(ss[0].height) + WriteSizes(ss[1..])
  }

  function WriteRates(r: Rates): seq<byte> {
    match r
    case Continuous(min, max, step) => WriteU32(min) + WriteU32(max) + WriteU32(step)
    case Discrete(xs) => WriteAll(xs)
  }

  predicate RatesFormed(r: Rates) {
    r.Discrete? ==> 0 < |r.intervals| < 0x100
  }

  /** bFrameIntervalType: how many intervals follow; 0 stands for a continuous range. */
  function IntervalType(r: Rates): byte
    requires RatesFormed(r)
  {
    if r.Continuous? then 0 else |r.intervals|
  }

  /** A frame descriptor's bytes 3 to 16. */
  function WriteFrame(f: Frame): (b: seq<byte>)
    ensures |b| == 14
  {
    [f.index, f.capabilities] + WriteU16(f.size.width) + WriteU16(f.size.height)
    + WriteU32(f.minBitRate) + WriteU32(f.maxBitRate)
  }

  function WriteAspect(a: Aspect): (b: seq<byte>)
    ensures |b| == 4
  {
    [a.x, a.y, a.interlace, a.copyProtect]
  }

  function Subtype(d: Descriptor): byte {
    match d
    case InputHeader(_, _, _, _, _, _, _) => VS_INPUT_HEADER
    case FormatUncompressed(_, _, _, _, _, _) => VS_FORMAT_UNCOMPRESSED
    case FormatFrameBased(_, _, _, _, _, _, _) => VS_FORMAT_FRAME_BASED
    case FormatMjpeg(_, _, _, _, _) => VS_FORMAT_MJPEG
    case FrameUncompressed(_, _) => VS_FRAME_UNCOMPRESSED
    case FrameMjpeg(_, _) => VS_FRAME_MJPEG
    case FrameFrameBased(_, _) => VS_FRAME_FRAME_BASED
    case StillImage(_, _, _) => VS_STILL_IMAGE_FRAME
    case Other(subtype, _) => subtype
  }

  /** The counts and lists of a descriptor fit their fields. */
  predicate Formed(d: Descriptor) {
    match d
    case InputHeader(_, _, _, _, _, _, _) => true
    case FormatUncompressed(_, _, guid, _, _, _) => |guid| == 16
    case FormatFrameBased(_, _, guid, _, _, _, _) => |guid| == 16
    case FormatMjpeg(_, _, _, _, _) => true
    case FrameUncompressed(f, _) => RatesFormed(f.rates)
    case FrameMjpeg(f, _) => RatesFormed(f.rates)
    case FrameFrameBased(f, _) => RatesFormed(f.rates)
    case StillImage(_, sizes, compression) => |sizes| < 0x100 && |compression| < 0x100
    case Other(subtype, _) => subtype !in {VS_INPUT_HEADER, VS_STILL_IMAGE_FRAME, VS_FORMAT_UNCOMPRESSED,
      VS_FRAME_UNCOMPRESSED, VS_FORMAT_MJPEG, VS_FRAME_MJPEG, VS_FORMAT_FRAME_BASED, VS_FRAME_FRAME_BASED}
  }

  /** The bytes behind the length, the descriptor type and the subtype. */
  function Body(d: Descriptor): seq<byte>
    requires Formed(d)
  {
    match d
    case InputHeader(n, len, endpoint, info, link, still, controls) =>
      [n] + WriteU16(len) + [endpoint, info, link, still] + controls
    case FormatUncompressed(index, n, guid, bpp, default, aspect) =>
      [index, n] + guid + [bpp, default] + WriteAspect(aspect)
    case FormatFrameBased(index, n, guid, bpp, default, aspect, variable) =>
      [index, n] + guid + [bpp, default] + WriteAspect(aspect) + [variable]
    case FormatMjpeg(index, n, flags, default, aspect) =>
      [index, n, flags, default] + WriteAspect(aspect)
    case FrameUncompressed(f, max) =>
      WriteFrame(f) + WriteU32(max) + WriteU32(f.defaultInterval) + [IntervalType(f.rates)] + WriteRates(f.rates)
    case FrameMjpeg(f, max) =>
      WriteFrame(f) + WriteU32(max) + WriteU32(f.defaultInterval) + [IntervalType(f.rates)] + WriteRates(f.rates)
    case FrameFrameBased(f, bytesPerLine) =>
      WriteFrame(f) + WriteU32(f.defaultInterval) + [IntervalType(f.rates)] + WriteU32(bytesPerLine)
      + WriteRates(f.rates)
    case StillImage(endpoint, sizes, compression) =>
      [endpoint, |sizes|] + WriteSizes(sizes) + [|compression|] + compression
    case Other(subtype, body) => body
  }

  /** CS_INTERFACE */
  const CS_INTERFACE: byte := 0x24

  predicate Printable(d: Descriptor) {
    Formed(d) && |Body(d)| + 3 < 0x100
  }

  function Print(d: Descriptor): (b: seq<byte>)
    requires Printable(d)
    ensures 3 <= |b| == b[0]
  {
    [|Body(d)| + 3, CS_INTERFACE, Subtype(d)] + Body(d)
  }

  function PrintAll(ds: seq<Descriptor>): seq<byte>
    requires forall i | 0 <= i < |ds| :: Printable(ds[i])
  {
    if ds == [] then [] else Print(ds[0]) + PrintAll(ds[1..])
  }

  // ----- what a list of descriptors means -----

  function TimingOf(r: Rates): Timing {
    match r
    case Continuous(min, max, step) => Timing(min, max, step, [])
    case Discrete(xs) => Timing(0, 0, 0, xs + [0])
  }

  function FrameOf(subtype: byte, f: Frame, maxBufferSize: u32, bytesPerLine: u32): FrameDesc
    requires RatesFormed(f.rates)
  {
    FrameDesc(subtype, f.index, f.capabilities, f.size.width, f.size.height, f.minBitRate, f.maxBitRate,
              maxBufferSize, f.defaultInterval, IntervalType(f.rates), bytesPerLine, TimingOf(f.rates))
  }

  function SizesOf(sizes: seq<Size>): (ss: seq<StillSize>)
    requires |sizes| < 0x100
    ensures |ss| == |sizes|
  {
    seq(|sizes|, i requires 0 <= i < |sizes| => StillSize(i + 1, sizes[i].width, sizes[i].height))
  }

  predicate NeedsFormat(d: Descriptor) {
    IsFrame(d) || d.StillImage?
  }

  predicate IsFormat(d: Descriptor) {
    d.FormatUncompressed? || d.FormatFrameBased? || d.FormatMjpeg?
  }

  predicate IsFrame(d: Descriptor) {
    d.FrameUncompressed? || d.FrameMjpeg? || d.FrameFrameBased?
  }

  /** What a format descriptor says of its format. */
  function FormatOf(d: Descriptor): FormatDesc
    requires Formed(d) && IsFormat(d)
  {
    var a := d.aspect;
    match d
    case FormatUncompressed(index, n, guid, bpp, default, _) =>
      FormatDesc(VS_FORMAT_UNCOMPRESSED, index, 0, guid, bpp, default,
                 a.x, a.y, a.interlace, a.copyProtect, 0, [], [])
    case FormatFrameBased(index, n, guid, bpp, default, _, variable) =>
      FormatDesc(VS_FORMAT_FRAME_BASED, index, n, guid, bpp, default,
                 a.x, a.y, a.interlace, a.copyProtect, variable, [], [])
    case FormatMjpeg(index, n, flags, default, _) =>
      FormatDesc(VS_FORMAT_MJPEG, index, 0, MJPG, 0, default,
                 a.x, a.y, a.interlace, a.copyProtect, 0, [], [])
  }

  /** What a frame descriptor says of its frame. */
  function FrameDescOf(d: Descriptor): FrameDesc
    requires Formed(d) && IsFrame(d)
  {
    match d
    case FrameUncompressed(f, max) => FrameOf(VS_FRAME_UNCOMPRESSED, f, max, 0)
    case FrameMjpeg(f, max) => FrameOf(VS_FRAME_MJPEG, f, max, 0)
    case FrameFrameBased(f, bytesPerLine) => FrameOf(VS_FRAME_FRAME_BASED, f, 0, bytesPerLine)
  }

  function StillOf(d: Descriptor): StillDesc
    requires Formed(d) && d.StillImage?
  {
    StillDesc(VS_STILL_IMAGE_FRAME, d.endpoint, SizesOf(d.sizes), d.compression)
  }

  /** What a descriptor adds to an interface: a frame goes to the most recent format. */
  function Add(si: InterfaceDesc, d: Descriptor): InterfaceDesc
    requires Formed(d) && (NeedsFormat(d) ==> si.formats != [])
  {
    if d.InputHeader? then
      si.(endpoint := Mask8F(d.endpoint), terminalLink := d.terminalLink, stillMethod := d.stillMethod)
    else if d.StillImage? then AddStill(si, StillOf(d))
    else if IsFormat(d) then AddFormat(si, FormatOf(d))
    else if IsFrame(d) then AddFrame(si, FrameDescOf(d))
    else si
  }

  /** A format with what a descriptor behind it adds. */
  function Grown(f: FormatDesc, d: Descriptor): FormatDesc
    requires Formed(d)
  {
    f.(frames := f.frames + if IsFrame(d) then [FrameDescOf(d)] else [],
       stills := f.stills + if d.StillImage? then [StillOf(d)] else [])
  }

  /** By places: a format descriptor adds its format behind the others; any other leaves
      all formats but the last as they are, and the last gets its frame or still image. */
  lemma AddIs(si: InterfaceDesc, d: Descriptor)
    requires Formed(d) && (NeedsFormat(d) ==> si.formats != [])
    ensures IsFormat(d) ==> Add(si, d).formats == si.formats + [FormatOf(d)]
    ensures !IsFormat(d) ==>
              var formats := Add(si, d).formats;
              && |formats| == |si.formats|
              && (forall j | 0 <= j < |formats| - 1 :: formats[j] == si.formats[j])
              && (formats != [] ==> formats[|formats| - 1] == Grown(si.formats[|formats| - 1], d))
  {
    hide FormatOf, FrameDescOf, StillOf;
    if si.formats != [] {
      var f := si.formats[|si.formats| - 1];
      assert f.frames + [] == f.frames && f.stills + [] == f.stills;
    }
  }

  /** A list that a camera may send: frames come after a format. */
  predicate WellFormed(ds: seq<Descriptor>, hasFormat: bool)
    decreases |ds|
  {
    ds != [] ==>
      && Printable(ds[0])
      && (NeedsFormat(ds[0]) ==> hasFormat)
      && WellFormed(ds[1..], hasFormat || IsFormat(ds[0]))
  }

  function AddAll(si: InterfaceDesc, ds: seq<Descriptor>): InterfaceDesc
    requires WellFormed(ds, si.formats != [])
    decreases |ds|
  {
    if ds == [] then si else AddAll(Add(si, ds[0]), ds[1..])
  }

  lemma {:induction false} AllPrintable(ds: seq<Descriptor>, hasFormat: bool)
    requires WellFormed(ds, hasFormat)
    ensures forall i | 0 <= i < |ds| :: Printable(ds[i])
    decreases |ds|
  {
    if ds != [] {
      AllPrintable(ds[1..], hasFormat || IsFormat(ds[0]));
    }
  }

  // ----- reading behind what has been written -----

  lemma {:induction false} ReadsIntervals(a: seq<byte>, xs: seq<u32>, c: seq<byte>, i: nat)
    requires i < |xs|
    ensures ReadU32(a + WriteAll(xs) + c, |a| + 4 * i) == xs[i]
    decreases i
  {
    var w := WriteU32(xs[0]);
    assert a + WriteAll(xs) + c == (a + w) + WriteAll(xs[1..]) + c;
    if i == 0 {
      assert a + WriteAll(xs) + c == a + w + (WriteAll(xs[1..]) + c);
      ReadWritten32(a, xs[0], WriteAll(xs[1..]) + c);
    } else {
      ReadsIntervals(a + w, xs[1..], c, i - 1);
    }
  }

  lemma ReadsFrame(a: seq<byte>, f: Frame, c: seq<byte>)
    requires |a| == 3
    ensures var b := a + WriteFrame(f) + c;
            && |b| >= 17 && b[2] == a[2] && b[3] == f.index && b[4] == f.capabilities
            && ReadU16(b, 5) == f.size.width && ReadU16(b, 7) == f.size.height
            && ReadU32(b, 9) == f.minBitRate && ReadU32(b, 13) == f.maxBitRate
  {
    var b := a + WriteFrame(f) + c;
    assert forall i | 0 <= i < 14 :: b[3 + i] == WriteFrame(f)[i];
    ReadWritten32(a + [f.index, f.capabilities] + WriteU16(f.size.width) + WriteU16(f.size.height), f.minBitRate,
                  WriteU32(f.maxBitRate) + c);
  }

  lemma ReadsContinuous(a: seq<byte>, min: u32, max: u32, step: u32, c: seq<byte>)
    ensures var b := a + (WriteU32(min) + WriteU32(max) + WriteU32(step)) + c;
            ReadU32(b, |a|) == min && ReadU32(b, |a| + 4) == max && ReadU32(b, |a| + 8) == step
  {
    hide WriteU32, ReadU32;
    var x, y, z := WriteU32(min), WriteU32(max), WriteU32(step);
    var b := a + (x + y + z) + c;
    ReadWritten32(a, min, y + z + c);
    ReadWritten32(a + x, max, z + c);
    ReadWritten32(a + x + y, step, c);
    assert b == a + x + (y + z + c) == (a + x) + y + (z + c) == (a + x + y) + z + c;
  }

  lemma ReadsTiming(a: seq<byte>, r: Rates, c: seq<byte>, typeAt: nat)
    requires |a| == 26 && typeAt < 26 && RatesFormed(r) && a[typeAt] == IntervalType(r)
    ensures TimingReadable(a + WriteRates(r) + c, typeAt)
    ensures ReadTiming(a + WriteRates(r) + c, typeAt) == TimingOf(r)
  {
    hide WriteU32, ReadU32;
    var b := a + WriteRates(r) + c;
    if r.Continuous? {
      ReadsContinuous(a, r.min, r.max, r.step, c);
    } else {
      forall i | 0 <= i < |r.intervals|
        ensures ReadU32(b, 26 + 4 * i) == r.intervals[i]
      {
        ReadsIntervals(a, r.intervals, c, i);
      }
      hide WriteAll;
      assert ReadIntervals(b, 26, |r.intervals|) == r.intervals;
    }
  }

  /** Five ways to group a concatenation. */
  lemma Grouped(h: seq<byte>, w: seq<byte>, x: seq<byte>, y: seq<byte>, z: seq<byte>, c: seq<byte>)
    ensures var b := h + w + x + y + z + c;
            && b == h + w + (x + (y + (z + c)))
            && b == (h + w) + x + (y + (z + c))
            && b == (h + w + x) + y + (z + c)
            && b == (h + w + x + y) + z + c
  {
  }

  lemma ParsesFrame(head: seq<byte>, f: Frame, max: u32, c: seq<byte>)
    requires |head| == 3 && RatesFormed(f.rates)
    ensures var b := head + WriteFrame(f) + WriteU32(max) + WriteU32(f.defaultInterval)
                     + [IntervalType(f.rates)] + (WriteRates(f.rates) + c);
            TimingReadable(b, 25) && ParseFrame(b) == FrameOf(head[2], f, max, 0)
  {
    hide WriteU32, ReadU32, ReadU16, WriteFrame, WriteRates, ReadTiming, TimingReadable, TimingOf, IntervalType;
    var w, u, v, t := WriteFrame(f), WriteU32(max), WriteU32(f.defaultInterval), [IntervalType(f.rates)];
    var behind := WriteRates(f.rates) + c;
    Grouped(head, w, u, v, t, behind);
    ReadsFrame(head, f, u + (v + (t + behind)));
    ReadWritten32(head + w, max, v + (t + behind));
    ReadWritten32(head + w + u, f.defaultInterval, t + behind);
    var a := head + w + u + v + t;
    assert |a| == 26 && a[25] == t[0];
    ReadsTiming(a, f.rates, c, 25);
    Regroup(a, WriteRates(f.rates), c);
  }

  lemma ParsesFrameBased(head: seq<byte>, f: Frame, bytesPerLine: u32, c: seq<byte>)
    requires |head| == 3 && RatesFormed(f.rates)
    ensures var b := head + WriteFrame(f) + WriteU32(f.defaultInterval)
                     + [IntervalType(f.rates)] + WriteU32(bytesPerLine) + (WriteRates(f.rates) + c);
            TimingReadable(b, 21) && ParseFrameBased(b) == FrameOf(head[2], f, 0, bytesPerLine)
  {
    hide WriteU32, ReadU32, ReadU16, WriteFrame, WriteRates, ReadTiming, TimingReadable, TimingOf, IntervalType;
    var w, v, t, u := WriteFrame(f), WriteU32(f.defaultInterval), [IntervalType(f.rates)], WriteU32(bytesPerLine);
    var behind := WriteRates(f.rates) + c;
    Grouped(head, w, v, t, u, behind);
    ReadsFrame(head, f, v + (t + (u + behind)));
    ReadWritten32(head + w, f.defaultInterval, t + (u + behind));
    ReadWritten32(head + w + v + t, bytesPerLine, behind);
    var a := head + w + v + t + u;
    assert |a| == 26 && a[21] == t[0];
    ReadsTiming(a, f.rates, c, 21);
    Regroup(a, WriteRates(f.rates), c);
  }

  lemma {:induction false} ReadsSizes(a: seq<byte>, ss: seq<Size>, c: seq<byte>, i: nat)
    requires i < |ss|
    ensures ReadU16(a + WriteSizes(ss) + c, |a| + 4 * i) == ss[i].width
    ensures ReadU16(a + WriteSizes(ss) + c, |a| + 4 * i + 2) == ss[i].height
    decreases i
  {
    var w := WriteU16(ss[0].width) + WriteU16(ss[0].height);
    var b := a + WriteSizes(ss) + c;
    assert b == (a + w) + WriteSizes(ss[1..]) + c;
    if i == 0 {
      assert b[|a|] == w[0] && b[|a| + 1] == w[1] && b[|a| + 2] == w[2] && b[|a| + 3] == w[3];
    } else {
      ReadsSizes(a + w, ss[1..], c, i - 1);
    }
  }

  lemma ParsesSizes(a: seq<byte>, ss: seq<Size>, c: seq<byte>)
    requires |a| == 5 && a[4] == |ss|
    ensures var b := a + WriteSizes(ss) + c;
            CompressionAt(b) == 5 + 4 * |ss| && ReadSizes(b, a[4]) == SizesOf(ss)
  {
    hide ReadU16, WriteSizes;
    var b := a + WriteSizes(ss) + c;
    assert b[4] == a[4];
    forall i | 0 <= i < |ss|
      ensures ReadSizes(b, a[4])[i] == SizesOf(ss)[i]
    {
      ReadsSizes(a, ss, c, i);
    }
  }

  lemma ParsesCompression(a: seq<byte>, n: seq<byte>, compression: seq<byte>, c: seq<byte>)
    requires n == [|compression|]
    ensures var b := a + n + (compression + c);
            b[|a|] == |compression| && b[|a| + 1..|a| + 1 + |compression|] == compression
  {
    assert a + n + (compression + c) == (a + n) + compression + c;
  }

  lemma ParsesStill(head: seq<byte>, counts: seq<byte>, ss: seq<Size>,
                    n: seq<byte>, compression: seq<byte>, c: seq<byte>)
    requires |head| == 3 && |counts| == 2 && counts[1] == |ss| && n == [|compression|]
    ensures var b := head + counts + WriteSizes(ss) + n + (compression + c);
            StillReadable(b) && ParseStill(b) == StillDesc(head[2], counts[0], SizesOf(ss), compression)
  {
    hide WriteSizes, ReadSizes, SizesOf, CompressionAt;
    var a, w, behind := head + counts, WriteSizes(ss), n + (compression + c);
    Regroup(a + w, n, compression + c);
    ParsesSizes(a, ss, behind);
    ParsesCompression(a + w, n, compression, c);
    assert a[2] == head[2] && a[3] == counts[0] && a[4] == |ss|;
  }

  // ----- one descriptor, then all of them -----

  /** Grouping what Print lays out as the lemmas above read it. */
  lemma Ungrouped(h: seq<byte>, w: seq<byte>, x: seq<byte>, y: seq<byte>, z: seq<byte>, r: seq<byte>, c: seq<byte>)
    ensures (h + (w + x + y + z + r)) + c == h + w + x + y + z + (r + c)
    ensures (h + (w + x + y + r)) + c == h + w + x + y + (r + c)
  {
  }

  lemma FrameRead(si: InterfaceDesc, d: Descriptor, c: seq<byte>)
    requires Printable(d) && si.formats != [] && IsFrame(d)
    ensures Parsable(si, Print(d) + c) && ParseVs(si, Print(d) + c) == Add(si, d)
  {
    hide WriteFrame, WriteU32, WriteRates, IntervalType, TimingReadable, ParseFrame, ParseFrameBased, FrameOf, AddFrame;
    var head: seq<byte> := [|Body(d)| + 3, CS_INTERFACE, Subtype(d)];
    var f := d.frame;
    var w, v, t, r := WriteFrame(f), WriteU32(f.defaultInterval), [IntervalType(f.rates)], WriteRates(f.rates);
    if d.FrameFrameBased? {
      Ungrouped(head, w, v, t, WriteU32(d.bytesPerLine), r, c);
      ParsesFrameBased(head, f, d.bytesPerLine, c);
    } else {
      Ungrouped(head, w, WriteU32(d.maxBufferSize), v, t, r, c);
      ParsesFrame(head, f, d.maxBufferSize, c);
    }
  }

  lemma StillRead(si: InterfaceDesc, d: Descriptor, c: seq<byte>)
    requires Printable(d) && si.formats != [] && d.StillImage?
    ensures Parsable(si, Print(d) + c) && ParseVs(si, Print(d) + c) == Add(si, d)
  {
    hide WriteSizes, StillReadable, ParseStill, SizesOf, AddStill;
    var head: seq<byte> := [|Body(d)| + 3, CS_INTERFACE, Subtype(d)];
    var counts: seq<byte>, n: seq<byte> := [d.endpoint, |d.sizes|], [|d.compression|];
    Ungrouped(head, counts, WriteSizes(d.sizes), n, [], d.compression, c);
    ParsesStill(head, counts, d.sizes, n, d.compression, c);
  }

  /** Bytes of a format descriptor with a GUID in it. */
  lemma GuidRead(head: seq<byte>, ids: seq<byte>, guid: seq<byte>, tail: seq<byte>, c: seq<byte>)
    requires |head| == 3 && |ids| == 2 && |guid| == 16 && |tail| >= 6
    ensures var b := (head + (ids + guid + tail)) + c;
            && |b| >= 21 + |tail| && b[2] == head[2] && b[3] == ids[0] && b[4] == ids[1]
            && b[5..21] == guid && forall i | 0 <= i < |tail| :: b[21 + i] == tail[i]
  {
    assert (head + (ids + guid + tail)) + c == (head + ids) + guid + (tail + c);
  }

  lemma FormatRead(si: InterfaceDesc, d: Descriptor, c: seq<byte>)
    requires Printable(d) && (d.FormatUncompressed? || d.FormatFrameBased?)
    ensures Parsable(si, Print(d) + c) && ParseVs(si, Print(d) + c) == Add(si, d)
  {
    hide AddFormat;
    var head: seq<byte> := [|Body(d)| + 3, CS_INTERFACE, Subtype(d)];
    var ids, a := [d.index, d.numFrames], d.aspect;
    var tail := [d.bitsPerPixel, d.defaultFrame, a.x, a.y, a.interlace, a.copyProtect];
    if d.FormatFrameBased? {
      tail := tail + [d.variableSize];
      assert tail[6] == d.variableSize;
    }
    assert Body(d) == ids + d.guid + tail;
    GuidRead(head, ids, d.guid, tail, c);
    hide Body;
    var b := Print(d) + c;
    assert b[21] == tail[0] && b[22] == tail[1] && b[23] == tail[2] && b[24] == tail[3] && b[25] == tail[4];
    assert b[26] == tail[5] && (d.FormatFrameBased? ==> b[27] == tail[6]);
  }

  lemma HeaderRead(si: InterfaceDesc, d: Descriptor, c: seq<byte>)
    requires Printable(d) && (d.InputHeader? || d.FormatMjpeg? || d.Other?)
    ensures Parsable(si, Print(d) + c) && ParseVs(si, Print(d) + c) == Add(si, d)
  {
  }

  /** The parse of the bytes of one descriptor, whatever comes behind. */
  lemma OneRead(si: InterfaceDesc, d: Descriptor, c: seq<byte>)
    requires Printable(d) && (NeedsFormat(d) ==> si.formats != [])
    ensures Parsable(si, Print(d) + c) && ParseVs(si, Print(d) + c) == Add(si, d)
    ensures Formed(d)
    ensures var formats := ParseVs(si, Print(d) + c).formats;
            && (IsFormat(d) ==> formats == si.formats + [FormatOf(d)])
            && (!IsFormat(d) ==>
                  && |formats| == |si.formats|
                  && (forall j | 0 <= j < |formats| - 1 :: formats[j] == si.formats[j])
                  && (formats != [] ==> formats[|formats| - 1] == Grown(si.formats[|formats| - 1], d)))
  {
    hide *;
    PrintableFormed(d);
    Dispatched(si, d, c);
    AddIs(si, d);
  }

  lemma PrintableFormed(d: Descriptor)
    requires Printable(d)
    ensures Formed(d)
  {
  }

  lemma Dispatched(si: InterfaceDesc, d: Descriptor, c: seq<byte>)
    requires Printable(d) && (NeedsFormat(d) ==> si.formats != [])
    ensures Parsable(si, Print(d) + c) && ParseVs(si, Print(d) + c) == Add(si, d)
  {
    hide Print, Printable, Parsable, ParseVs, Add;
    if d.StillImage? {
      StillRead(si, d, c);
    } else if d.FormatUncompressed? || d.FormatFrameBased? {
      FormatRead(si, d, c);
    } else if d.InputHeader? || d.FormatMjpeg? || d.Other? {
      HeaderRead(si, d, c);
    } else {
      FrameRead(si, d, c);
    }
  }

  lemma FormatsGrow(si: InterfaceDesc, d: Descriptor)
    requires Formed(d) && (NeedsFormat(d) ==> si.formats != [])
    ensures Add(si, d).formats != [] <==> si.formats != [] || IsFormat(d)
  {
  }

  /** Round trip: from the bytes of any well-formed list of descriptors, followed by at
      most two stray bytes, the scan rebuilds what the descriptors say, in order, each
      frame under the most recent format. */
  lemma {:induction false} RoundTrip(si: InterfaceDesc, ds: seq<Descriptor>, stray: seq<byte>)
    requires WellFormed(ds, si.formats != []) && |stray| < 3
    ensures forall i | 0 <= i < |ds| :: Printable(ds[i])
    ensures Scannable(si, PrintAll(ds) + stray)
    ensures Scan(si, PrintAll(ds) + stray) == AddAll(si, ds)
    decreases |ds|
  {
    AllPrintable(ds, si.formats != []);
    if ds == [] {
      assert PrintAll(ds) + stray == stray;
    } else {
      var d, rest := ds[0], PrintAll(ds[1..]) + stray;
      var b := Print(d) + rest;
      assert PrintAll(ds) + stray == b by {
        Regroup(Print(d), PrintAll(ds[1..]), stray);
      }
      OneRead(si, d, rest);
      FormatsGrow(si, d);
      hide Print, Add, ParseVs, Parsable, Printable;
      RoundTrip(Add(si, d), ds[1..], stray);
      assert b[b[0]..] == rest;
    }
  }
}
