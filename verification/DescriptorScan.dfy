// The descriptor scan of device.c as it runs: parsers that fill a streaming
// interface in place, and the loops that copy lists out of a descriptor.
module DescriptorScan {
  import opened Bytes
  import opened Descriptors

  /** struct uvc_streaming_interface, with its format list as a sequence. */
  class StreamingInterface {
    const number: byte
    var endpoint: byte
    var terminalLink: byte
    var stillMethod: byte
    var formats: seq<FormatDesc>

    function State(): InterfaceDesc
      reads this
    {
      InterfaceDesc(number, endpoint, terminalLink, stillMethod, formats)
    }

    constructor (number: byte)
      ensures State() == NewInterface(number)
    {
      this.number := number;
      endpoint, terminalLink, stillMethod, formats := 0, 0, 0, [];
    }

    method ParseInputHeader(b: seq<byte>)
      requires 10 <= |b|
      modifies this
      ensures State() == old(State()).(endpoint := Mask8F(b[6]), terminalLink := b[8], stillMethod := b[9])
    {
      endpoint, terminalLink, stillMethod := Mask8F(b[6]), b[8], b[9];
    }

    /** The loop over the discrete intervals of a frame, zero-terminated. */
    static method CopyTiming(b: seq<byte>, typeAt: nat) returns (t: Timing)
      requires TimingReadable(b, typeAt)
      ensures t == ReadTiming(b, typeAt)
    {
      if b[typeAt] == 0 {
        t := Timing(ReadU32(b, 26), ReadU32(b, 30), ReadU32(b, 34), []);
      } else {
        var intervals: seq<u32>, p: nat, i: nat := [], 26, 0;
        while i < b[typeAt]
          invariant i <= b[typeAt] && p == 26 + 4 * i
          invariant intervals == ReadIntervals(b, 26, i)
        {
          intervals := intervals + [ReadU32(b, p)];
          p := p + 4;
          i := i + 1;
        }
        t := Timing(0, 0, 0, intervals + [0]);
      }
    }

    method ParseFrameUncompressed(b: seq<byte>)
      requires TimingReadable(b, 25) && formats != []
      modifies this`formats
      ensures State() == AddFrame(old(State()), ParseFrame(b))
      ensures |formats| == |old(formats)|
      ensures forall j | 0 <= j < |formats| - 1 :: formats[j] == old(formats)[j]
      ensures var k := |formats| - 1;
              formats[k] == old(formats)[k].(frames := old(formats)[k].frames + [ParseFrame(b)])
    {
      var timing := CopyTiming(b, 25);
      var frame := FrameDesc(b[2], b[3], b[4], ReadU16(b, 5), ReadU16(b, 7), ReadU32(b, 9), ReadU32(b, 13),
                             ReadU32(b, 17), ReadU32(b, 21), b[25], 0, timing);
      var k := |formats| - 1;
      formats := formats[k := formats[k].(frames := formats[k].frames + [frame])];
    }

    method ParseFrameFrame(b: seq<byte>)
      requires TimingReadable(b, 21) && formats != []
      modifies this`formats
      ensures State() == AddFrame(old(State()), ParseFrameBased(b))
      ensures |formats| == |old(formats)|
      ensures forall j | 0 <= j < |formats| - 1 :: formats[j] == old(formats)[j]
      ensures var k := |formats| - 1;
              formats[k] == old(formats)[k].(frames := old(formats)[k].frames + [ParseFrameBased(b)])
    {
      var timing := CopyTiming(b, 21);
      var frame := FrameDesc(b[2], b[3], b[4], ReadU16(b, 5), ReadU16(b, 7), ReadU32(b, 9), ReadU32(b, 13),
                             0, ReadU32(b, 17), b[21], ReadU32(b, 22), timing);
      var k := |formats| - 1;
      formats := formats[k := formats[k].(frames := formats[k].frames + [frame])];
    }

    method ParseStillImageFrame(b: seq<byte>)
      requires StillReadable(b) && formats != []
      modifies this`formats
      ensures State() == AddStill(old(State()), ParseStill(b))
      ensures |formats| == |old(formats)|
      ensures forall j | 0 <= j < |formats| - 1 :: formats[j] == old(formats)[j]
      ensures var k := |formats| - 1;
              formats[k] == old(formats)[k].(stills := old(formats)[k].stills + [ParseStill(b)])
    {
      var sizes: seq<StillSize>, p: nat, i: nat := [], 5, 1;
      while i <= b[4]
        invariant 1 <= i && i - 1 <= b[4] && p == 5 + 4 * (i - 1) && |sizes| == i - 1
        invariant forall x | 0 <= x < i - 1 :: sizes[x] == ReadSizes(b, b[4])[x]
      {
        sizes := sizes + [StillSize(i, ReadU16(b, p), ReadU16(b, p + 2))];
        p := p + 4;
        i := i + 1;
      }
      assert sizes == ReadSizes(b, b[4]);
      var n: nat, compression: seq<byte> := b[p], [];
      ghost var at := p;
      i := 0;
      while i < n
        invariant i <= n && p == at + i && compression == b[at + 1..at + 1 + i]
      {
        p := p + 1;
        compression := compression + [b[p]];
        i := i + 1;
      }
      var frame := StillDesc(b[2], b[3], sizes, compression);
      var k := |formats| - 1;
      formats := formats[k := formats[k].(stills := formats[k].stills + [frame])];
    }

    method AppendFormat(f: FormatDesc)
      modifies this`formats
      ensures State() == AddFormat(old(State()), f)
    {
      formats := formats + [f];
    }

    /** uvc_parse_vs */
    method Parse(b: seq<byte>)
      requires Parsable(State(), b)
      modifies this
      ensures State() == ParseVs(old(State()), b)
    {
      var subtype := b[2];
      if subtype == VS_INPUT_HEADER {
        ParseInputHeader(b);
      } else if subtype == VS_STILL_IMAGE_FRAME {
        ParseStillImageFrame(b);
      } else if subtype == VS_FORMAT_UNCOMPRESSED {
        AppendFormat(ParseFormat(b));
      } else if subtype == VS_FORMAT_MJPEG {
        AppendFormat(ParseFormatMjpeg(b));
      } else if subtype == VS_FRAME_UNCOMPRESSED || subtype == VS_FRAME_MJPEG {
        ParseFrameUncompressed(b);
      } else if subtype == VS_FORMAT_FRAME_BASED {
        AppendFormat(ParseFormatFrameBased(b));
      } else if subtype == VS_FRAME_FRAME_BASED {
        ParseFrameFrame(b);
      }
    }

    /** The loop of uvc_scan_streaming; it ends because every descriptor has a length. */
    method ScanStreaming(extra: seq<byte>)
      requires Scannable(State(), extra)
      modifies this
      ensures State() == Scan(old(State()), extra)
    {
      var buffer: nat, left: nat := 0, |extra|;
      while left >= 3
        invariant buffer + left == |extra|
        invariant Scannable(State(), extra[buffer..])
        invariant Scan(State(), extra[buffer..]) == Scan(old(State()), extra)
        decreases left
      {
        var size: nat := extra[buffer];
        Parse(extra[buffer..]);
        left := left - size;
        assert extra[buffer..][size..] == extra[buffer + size..];
        buffer := buffer + size;
      }
    }
  }
}
