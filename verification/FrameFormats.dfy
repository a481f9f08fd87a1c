// Frame formats, their GUIDs, and the lookups in the format table of stream.c.
module FrameFormats {
  import opened Bytes
  import opened Descriptors

  /** enum uvc_frame_format; Any is also UVC_FRAME_FORMAT_UNKNOWN. */
  datatype FrameFormat =
    | Any | Uncompressed | Compressed
    | Yuyv | Uyvy | Rgb | Bgr | Mjpeg | H264 | Gray8 | Gray16
    | By8 | Ba81 | Sgrbg8 | Sgbrg8 | Srggb8 | Sbggr8 | Nv12 | P010

  /** In the order of the enum. */
  const FORMATS: seq<FrameFormat> := [
    Any, Uncompressed, Compressed, Yuyv, Uyvy, Rgb, Bgr, Mjpeg, H264, Gray8, Gray16,
    By8, Ba81, Sgrbg8, Sgbrg8, Srggb8, Sbggr8, Nv12, P010]

  const NO_GUID: seq<byte> := [0, 0, 0, 0, 0, 0, 0, 0, 0, 0, 0, 0, 0, 0, 0, 0]

  function FourCC(a: byte, b: byte, c: byte, d: byte): seq<byte> {
    [a, b, c, d, 0x00, 0x00, 0x10, 0x00, 0x80, 0x00, 0x00, 0xaa, 0x00, 0x38, 0x9b, 0x71]
  }

  /** The guid of the format table; the abstract formats have zeros there. */
  function GuidOf(f: FrameFormat): seq<byte> {
    match f
    case Any => NO_GUID
    case Uncompressed => NO_GUID
    case Compressed => NO_GUID
    case Yuyv => FourCC(0x59, 0x55, 0x59, 0x32)
    case Uyvy => FourCC(0x55, 0x59, 0x56, 0x59)
    case Gray8 => FourCC(0x59, 0x38, 0x30, 0x30)
    case Gray16 => FourCC(0x59, 0x31, 0x36, 0x20)
    case Nv12 => FourCC(0x4e, 0x56, 0x31, 0x32)
    case P010 => FourCC(0x50, 0x30, 0x31, 0x30)
    case Bgr => [0x7d, 0xeb, 0x36, 0xe4, 0x4f, 0x52, 0xce, 0x11, 0x9f, 0x53, 0x00, 0x20, 0xaf, 0x0b, 0xa7, 0x70]
    case Rgb => [0x7e, 0xeb, 0x36, 0xe4, 0x4f, 0x52, 0xce, 0x11, 0x9f, 0x53, 0x00, 0x20, 0xaf, 0x0b, 0xa7, 0x70]
    case By8 => FourCC(0x42, 0x59, 0x38, 0x20)
    case Ba81 => FourCC(0x42, 0x41, 0x38, 0x31)
    case Sgrbg8 => FourCC(0x47, 0x52, 0x42, 0x47)
    case Sgbrg8 => FourCC(0x47, 0x42, 0x52, 0x47)
    case Srggb8 => FourCC(0x52, 0x47, 0x47, 0x42)
    case Sbggr8 => FourCC(0x42, 0x47, 0x47, 0x52)
    case Mjpeg => MJPG
    case H264 => FourCC(0x48, 0x32, 0x36, 0x34)
  }

  function Children(f: FrameFormat): seq<FrameFormat> {
    match f
    case Any => [Uncompressed, Compressed]
    case Uncompressed => [Yuyv, Uyvy, Gray8, Gray16, Nv12, P010, Bgr, Rgb]
    case Compressed => [Mjpeg, H264]
    case _ => []
  }

  function Depth(f: FrameFormat): nat {
    if f.Any? then 2 else if f.Uncompressed? || f.Compressed? then 1 else 0
  }

  /** _uvc_frame_format_matches_guid. No entry of the table is marked abstract, so that
      a GUID of zeros matches the three abstract formats. */
  predicate MatchesGuid(f: FrameFormat, guid: seq<byte>)
    decreases Depth(f)
  {
    guid == GuidOf(f) || exists i | 0 <= i < |Children(f)| :: MatchesGuid(Children(f)[i], guid)
  }

  /** The formats that `f` stands for. */
  function Class(f: FrameFormat): set<FrameFormat> {
    match f
    case Any => {Yuyv, Uyvy, Gray8, Gray16, Nv12, P010, Bgr, Rgb, Mjpeg, H264}
    case Uncompressed => {Yuyv, Uyvy, Gray8, Gray16, Nv12, P010, Bgr, Rgb}
    case Compressed => {Mjpeg, H264}
    case _ => {f}
  }

  lemma MatchesOne(f: FrameFormat, guid: seq<byte>)
    requires Depth(f) == 0
    ensures MatchesGuid(f, guid) <==> guid == GuidOf(f)
  {
  }

  lemma MatchesChildren(f: FrameFormat, guid: seq<byte>)
    requires f == Uncompressed || f == Compressed
    ensures MatchesGuid(f, guid) <==> (exists g | g in Class(f) :: guid == GuidOf(g)) || guid == NO_GUID
  {
    hide MatchesGuid, Class;
    var cs := Children(f);
    assert MatchesGuid(f, guid) <==> guid == GuidOf(f) || exists i | 0 <= i < |cs| :: MatchesGuid(cs[i], guid) by {
      Unfolds(f, guid);
    }
    hide GuidOf;
    forall i | 0 <= i < |cs|
      ensures MatchesGuid(cs[i], guid) <==> guid == GuidOf(cs[i])
    {
      MatchesOne(cs[i], guid);
    }
    ClassIsChildren(f);
    Zeros();
  }

  lemma ClassIsChildren(f: FrameFormat)
    requires f == Uncompressed || f == Compressed
    ensures Class(f) == set g | g in Children(f)
  {
  }

  lemma Unfolds(f: FrameFormat, guid: seq<byte>)
    ensures MatchesGuid(f, guid) <==>
            guid == GuidOf(f) || exists i | 0 <= i < |Children(f)| :: MatchesGuid(Children(f)[i], guid)
  {
  }

  lemma Zeros()
    ensures FORMATS[0] == Any && GuidOf(Any) == GuidOf(Uncompressed) == GuidOf(Compressed) == NO_GUID
  {
  }

  /** A GUID matches a format exactly if it is that of a format it stands for, or is zero
      and the format abstract. The raw Bayer formats are in no class: Any does not find them. */
  lemma MatchesClass(f: FrameFormat, guid: seq<byte>)
    ensures MatchesGuid(f, guid) <==>
            (exists g | g in Class(f) :: guid == GuidOf(g)) || (guid == NO_GUID && Depth(f) > 0)
  {
    hide MatchesGuid, GuidOf;
    Zeros();
    if f == Any {
      Unfolds(f, guid);
      var cs := Children(f);
      assert MatchesGuid(f, guid) <==> guid == GuidOf(f) || MatchesGuid(cs[0], guid) || MatchesGuid(cs[1], guid);
      MatchesChildren(Uncompressed, guid);
      MatchesChildren(Compressed, guid);
      assert Class(f) == Class(Uncompressed) + Class(Compressed);
    } else if Depth(f) == 1 {
      MatchesChildren(f, guid);
    } else {
      MatchesOne(f, guid);
    }
  }

  /** The format that a GUID of the table is of, told by its first four bytes. */
  function Recover(guid: seq<byte>): FrameFormat
    requires |guid| == 16
  {
    var (a, b, c) := (guid[0], guid[1], guid[2]);
    if a == 0x59 then (if b == 0x55 then Yuyv else if b == 0x38 then Gray8 else Gray16)
    else if a == 0x42 then (if b == 0x59 then By8 else if b == 0x41 then Ba81 else Sbggr8)
    else if a == 0x47 then (if b == 0x52 then Sgrbg8 else Sgbrg8)
    else if a == 0x55 then Uyvy
    else if a == 0x4e then Nv12
    else if a == 0x50 then P010
    else if a == 0x7d then Bgr
    else if a == 0x7e then Rgb
    else if a == 0x52 then Srggb8
    else if a == 0x4d then Mjpeg
    else if a == 0x48 then H264
    else Any
  }

  lemma Recovers(f: FrameFormat)
    ensures |GuidOf(f)| == 16 && Recover(GuidOf(f)) == if Depth(f) > 0 then Any else f
  {
  }

  lemma AllFormats(f: FrameFormat)
    ensures exists i :: 0 <= i < |FORMATS| && FORMATS[i] == f
  {
    assert FORMATS[0] == Any && FORMATS[1] == Uncompressed && FORMATS[2] == Compressed;
    assert FORMATS[3] == Yuyv && FORMATS[4] == Uyvy && FORMATS[5] == Rgb && FORMATS[6] == Bgr;
    assert FORMATS[7] == Mjpeg && FORMATS[8] == H264 && FORMATS[9] == Gray8 && FORMATS[10] == Gray16;
    assert FORMATS[11] == By8 && FORMATS[12] == Ba81 && FORMATS[13] == Sgrbg8 && FORMATS[14] == Sgbrg8;
    assert FORMATS[15] == Srggb8 && FORMATS[16] == Sbggr8 && FORMATS[17] == Nv12 && FORMATS[18] == P010;
  }

  /** uvc_frame_format_for_guid: the one format of the table with this GUID. Any, which
      is also UNKNOWN, is the answer for a GUID of zeros or of no format. */
  method FormatForGuid(guid: seq<byte>) returns (f: FrameFormat)
    ensures f == Any || (GuidOf(f) == guid && Depth(f) == 0)
    ensures forall g: FrameFormat | GuidOf(g) == guid :: f == if Depth(g) > 0 then Any else g
  {
    hide GuidOf;
    var i := 0;
    while i < |FORMATS| && GuidOf(FORMATS[i]) != guid
      invariant i <= |FORMATS|
      invariant forall j | 0 <= j < i :: GuidOf(FORMATS[j]) != guid
    {
      i := i + 1;
    }
    f := if i < |FORMATS| then FORMATS[i] else Any;
    forall g: FrameFormat | GuidOf(g) == guid
      ensures f == if Depth(g) > 0 then Any else g
    {
      AllFormats(g);
      Recovers(f);
      Recovers(g);
      Zeros();
    }
  }
}
