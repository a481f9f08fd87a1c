// The VideoStreaming descriptors of an interface and their scan (device.c,
// uvc_scan_streaming and the parsers under it).  Section 3.9.2 of USB Video
// Class 1.5 defines the descriptors.
module Descriptors {
  import opened Bytes

  // ----- what is kept of the descriptors -----

  /** Frame intervals in 100 ns units: a continuous range, or a list. `intervals` is
      empty for the source's NULL, and zero-terminated otherwise. */
  datatype Timing = Timing(min: u32, max: u32, step: u32, intervals: seq<u32>)

  datatype FrameDesc = FrameDesc(
    subtype: byte, index: byte, capabilities: byte, width: u16, height: u16,
    minBitRate: u32, maxBitRate: u32, maxBufferSize: u32, defaultInterval: u32,
    intervalType: byte, bytesPerLine: u32, timing: Timing)

  datatype StillSize = StillSize(index: byte, width: u16, height: u16)

  datatype StillDesc = StillDesc(subtype: byte, endpoint: byte, sizes: seq<StillSize>, compression: seq<byte>)

  /** `guid` is guidFormat; `bitsPerPixel` is the union of bBitsPerPixel and bmFlags. */
  datatype FormatDesc = FormatDesc(
    subtype: byte, index: byte, numFrames: byte, guid: seq<byte>, bitsPerPixel: byte, defaultFrame: byte,
    aspectX: byte, aspectY: byte, interlace: byte, copyProtect: byte, variableSize: byte,
    frames: seq<FrameDesc>, stills: seq<StillDesc>)

  datatype InterfaceDesc = InterfaceDesc(
    number: byte, endpoint: byte, terminalLink: byte, stillMethod: byte, formats: seq<FormatDesc>)

  function NewInterface(number: byte): InterfaceDesc {
    InterfaceDesc(number, 0, 0, 0, [])
  }

  const VS_INPUT_HEADER: byte := 0x01
  const VS_STILL_IMAGE_FRAME: byte := 0x03
  const VS_FORMAT_UNCOMPRESSED: byte := 0x04
  const VS_FRAME_UNCOMPRESSED: byte := 0x05
  const VS_FORMAT_MJPEG: byte := 0x06
  const VS_FRAME_MJPEG: byte := 0x07
  const VS_FORMAT_FRAME_BASED: byte := 0x10
  const VS_FRAME_FRAME_BASED: byte := 0x11

  const MJPG: seq<byte> := [0x4d, 0x4a, 0x50, 0x47, 0, 0, 0, 0, 0, 0, 0, 0, 0, 0, 0, 0]

  // ----- parsing one descriptor: `b` is the buffer from its first byte on -----

  /** `x` with bits 4 to 6 cleared: x & 0x8f. */
  function Mask8F(x: byte): byte {
    x / 0x80 * 0x80 + x % 0x10
  }

  /** Of an endpoint address, the direction and the number are kept. */
  lemma MaskKeeps(direction: nat, reserved: nat, number: nat)
    requires direction < 2 && reserved < 8 && number < 0x10
    ensures Mask8F(0x80 * direction + 0x10 * reserved + number) == 0x80 * direction + number
  {
    var x := 0x80 * direction + 0x10 * reserved + number;
    assert x / 0x80 == direction && x % 0x10 == number;
  }

  function ReadIntervals(b: seq<byte>, at: nat, n: nat): (xs: seq<u32>)
    requires at + 4 * n <= |b|
    ensures |xs| == n
  {
    seq(n, i requires 0 <= i < n => ReadU32(b, at + 4 * i))
  }

  function ReadSizes(b: seq<byte>, n: byte): (ss: seq<StillSize>)
    requires 5 + 4 * n <= |b|
    ensures |ss| == n
  {
    seq(n, i requires 0 <= i < n => StillSize(i + 1, ReadU16(b, 5 + 4 * i), ReadU16(b, 5 + 4 * i + 2)))
  }

  /** The frame intervals behind byte 25, whose number is in byte `typeAt`. */
  predicate TimingReadable(b: seq<byte>, typeAt: nat) {
    26 <= |b| && typeAt < 26 && (if b[typeAt] == 0 then 38 else 26 + 4 * b[typeAt]) <= |b|
  }

  function ReadTiming(b: seq<byte>, typeAt: nat): Timing
    requires TimingReadable(b, typeAt)
  {
    if b[typeAt] == 0 then Timing(ReadU32(b, 26), ReadU32(b, 30), ReadU32(b, 34), [])
    else Timing(0, 0, 0, ReadIntervals(b, 26, b[typeAt]) + [0])
  }

  function ParseFrame(b: seq<byte>): FrameDesc
    requires TimingReadable(b, 25)
  {
    FrameDesc(b[2], b[3], b[4], ReadU16(b, 5), ReadU16(b, 7), ReadU32(b, 9), ReadU32(b, 13),
              ReadU32(b, 17), ReadU32(b, 21), b[25], 0, ReadTiming(b, 25))
  }

  function ParseFrameBased(b: seq<byte>): FrameDesc
    requires TimingReadable(b, 21)
  {
    FrameDesc(b[2], b[3], b[4], ReadU16(b, 5), ReadU16(b, 7), ReadU32(b, 9), ReadU32(b, 13),
              0, ReadU32(b, 17), b[21], ReadU32(b, 22), ReadTiming(b, 21))
  }

  /** Where the number of compression patterns is: behind the image sizes. */
  function CompressionAt(b: seq<byte>): nat
    requires 5 <= |b|
  {
    var n: nat := b[4];
    5 + 4 * n
  }

  predicate StillReadable(b: seq<byte>) {
    5 <= |b| && CompressionAt(b) < |b| && CompressionAt(b) + 1 + b[CompressionAt(b)] <= |b|
  }

  function ParseStill(b: seq<byte>): StillDesc
    requires StillReadable(b)
  {
    var at := CompressionAt(b);
    StillDesc(b[2], b[3], ReadSizes(b, b[4]), b[at + 1..at + 1 + b[at]])
  }

  function ParseFormat(b: seq<byte>): FormatDesc
    requires 27 <= |b|
  {
    FormatDesc(b[2], b[3], 0, b[5..21], b[21], b[22], b[23], b[24], b[25], b[26], 0, [], [])
  }

  function ParseFormatFrameBased(b: seq<byte>): FormatDesc
    requires 28 <= |b|
  {
    FormatDesc(b[2], b[3], b[4], b[5..21], b[21], b[22], b[23], b[24], b[25], b[26], b[27], [], [])
  }

  function ParseFormatMjpeg(b: seq<byte>): FormatDesc
    requires 11 <= |b|
  {
    FormatDesc(b[2], b[3], 0, MJPG, 0, b[6], b[7], b[8], b[9], b[10], 0, [], [])
  }

  /** The last format, stream_if->format_descs->prev, with one more frame. */
  function AddFrame(si: InterfaceDesc, f: FrameDesc): InterfaceDesc
    requires si.formats != []
  {
    var k := |si.formats| - 1;
    si.(formats := si.formats[k := si.formats[k].(frames := si.formats[k].frames + [f])])
  }

  function AddStill(si: InterfaceDesc, f: StillDesc): InterfaceDesc
    requires si.formats != []
  {
    var k := |si.formats| - 1;
    si.(formats := si.formats[k := si.formats[k].(stills := si.formats[k].stills + [f])])
  }

  function AddFormat(si: InterfaceDesc, f: FormatDesc): InterfaceDesc {
    si.(formats := si.formats + [f])
  }

  /** All that uvc_parse_vs reads is there: bytes in the buffer, and for a frame a format. */
  predicate Parsable(si: InterfaceDesc, b: seq<byte>) {
    && 3 <= |b|
    && (b[2] == VS_INPUT_HEADER ==> 10 <= |b|)
    && (b[2] == VS_FORMAT_UNCOMPRESSED ==> 27 <= |b|)
    && (b[2] == VS_FORMAT_FRAME_BASED ==> 28 <= |b|)
    && (b[2] == VS_FORMAT_MJPEG ==> 11 <= |b|)
    && (b[2] == VS_FRAME_UNCOMPRESSED || b[2] == VS_FRAME_MJPEG ==> TimingReadable(b, 25) && si.formats != [])
    && (b[2] == VS_FRAME_FRAME_BASED ==> TimingReadable(b, 21) && si.formats != [])
    && (b[2] == VS_STILL_IMAGE_FRAME ==> StillReadable(b) && si.formats != [])
  }

  /** uvc_parse_vs */
  function ParseVs(si: InterfaceDesc, b: seq<byte>): InterfaceDesc
    requires Parsable(si, b)
  {
    var t := b[2];
    if t == VS_INPUT_HEADER then si.(endpoint := Mask8F(b[6]), terminalLink := b[8], stillMethod := b[9])
    else if t == VS_STILL_IMAGE_FRAME then AddStill(si, ParseStill(b))
    else if t == VS_FORMAT_UNCOMPRESSED then AddFormat(si, ParseFormat(b))
    else if t == VS_FORMAT_MJPEG then AddFormat(si, ParseFormatMjpeg(b))
    else if t == VS_FRAME_UNCOMPRESSED || t == VS_FRAME_MJPEG then AddFrame(si, ParseFrame(b))
    else if t == VS_FORMAT_FRAME_BASED then AddFormat(si, ParseFormatFrameBased(b))
    else if t == VS_FRAME_FRAME_BASED then AddFrame(si, ParseFrameBased(b))
    else si
  }

  /** Every descriptor of the buffer can be parsed, and its length leads to the next. */
  predicate Scannable(si: InterfaceDesc, b: seq<byte>)
    decreases |b|
  {
    |b| < 3 || (Parsable(si, b) && 1 <= b[0] <= |b| && Scannable(ParseVs(si, b), b[b[0]..]))
  }

  /** uvc_scan_streaming */
  function Scan(si: InterfaceDesc, b: seq<byte>): InterfaceDesc
    requires Scannable(si, b)
    decreases |b|
  {
    if |b| < 3 then si else Scan(ParseVs(si, b), b[b[0]..])
  }
}
