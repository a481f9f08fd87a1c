// The probe and commit block of stream.c (uvc_query_stream_ctrl), laid out after
// section 4.3.1.1 of USB Video Class 1.5, and the lookup of frame descriptors.
module StreamControl {
  import opened Bytes
  import opened Descriptors

  /** struct uvc_stream_ctrl */
  datatype Ctrl = Ctrl(
    hint: u16, format: byte, frame: byte, interval: u32,
    keyFrameRate: u16, pFrameRate: u16, compQuality: u16, compWindow: u16, delay: u16,
    maxFrameSize: u32, maxPayload: u32,
    clock: u32, framing: byte, preferred: byte, minVersion: byte, maxVersion: byte,
    interface: byte)

  /** What is read of the device: bcdUVC, dwClockFrequency and the streaming interfaces. */
  datatype DeviceInfo = DeviceInfo(bcdUVC: u16, clock: u32, interfaces: seq<InterfaceDesc>)

  /** The answer to a GET request: libusb's error, or the bytes transferred. */
  datatype Reply = Failed | Got(bytes: seq<byte>)

  predicate Long(info: DeviceInfo) {
    info.bcdUVC >= 0x0110
  }

  function BlockLength(info: DeviceInfo): nat {
    if Long(info) then 34 else 26
  }

  // ----- finding a frame descriptor by its two indices -----

  /** A place in the descriptor lists: frame `k` of format `j` of interface `i`. */
  datatype Place = Place(i: nat, j: nat, k: nat)

  predicate IsFrame(ifs: seq<InterfaceDesc>, p: Place) {
    p.i < |ifs| && p.j < |ifs[p.i].formats| && p.k < |ifs[p.i].formats[p.j].frames|
  }

  function FormatAt(ifs: seq<InterfaceDesc>, p: Place): FormatDesc
    requires IsFrame(ifs, p)
  {
    ifs[p.i].formats[p.j]
  }

  function FrameAt(ifs: seq<InterfaceDesc>, p: Place): FrameDesc
    requires IsFrame(ifs, p)
  {
    FormatAt(ifs, p).frames[p.k]
  }

  predicate HasIndices(ifs: seq<InterfaceDesc>, p: Place, format: byte, frame: byte) {
    IsFrame(ifs, p) && FormatAt(ifs, p).index == format && FrameAt(ifs, p).index == frame
  }

  /** List order: by interface, then by format, then by frame. */
  predicate Earlier(p: Place, q: Place) {
    p.i < q.i || (p.i == q.i && (p.j < q.j || (p.j == q.j && p.k < q.k)))
  }

  /** Of all frames with these indices, the one at `p` comes first. */
  ghost predicate FirstWith(ifs: seq<InterfaceDesc>, format: byte, frame: byte, p: Place) {
    HasIndices(ifs, p, format, frame) && forall q: Place | Earlier(q, p) :: !HasIndices(ifs, q, format, frame)
  }

  ghost function First(ifs: seq<InterfaceDesc>, format: byte, frame: byte): (p: Place)
    requires exists p :: FirstWith(ifs, format, frame, p)
    ensures FirstWith(ifs, format, frame, p)
  {
    var p :| FirstWith(ifs, format, frame, p); p
  }

  /** The frame descriptor that uvc_find_frame_desc looks for. */
  ghost function FindFrame(ifs: seq<InterfaceDesc>, format: byte, frame: byte): Option<FrameDesc> {
    if exists p :: FirstWith(ifs, format, frame, p) then Some(FrameAt(ifs, First(ifs, format, frame))) else None
  }

  lemma NotEarlier(ifs: seq<InterfaceDesc>, format: byte, frame: byte, p: Place, q: Place)
    requires FirstWith(ifs, format, frame, p) && HasIndices(ifs, q, format, frame)
    ensures !Earlier(q, p)
  {
    var before := Earlier(q, p);
  }

  lemma FindFrameIs(ifs: seq<InterfaceDesc>, format: byte, frame: byte, p: Place)
    requires FirstWith(ifs, format, frame, p)
    ensures FindFrame(ifs, format, frame) == Some(FrameAt(ifs, p))
  {
    var q := First(ifs, format, frame);
    NotEarlier(ifs, format, frame, p, q);
    NotEarlier(ifs, format, frame, q, p);
  }

  /** uvc_find_frame_desc; None stands for NULL. */
  method FindFrameDesc(ifs: seq<InterfaceDesc>, format: byte, frame: byte)
    returns (r: Option<FrameDesc>, ghost p: Place)
    ensures r.Some? ==> FirstWith(ifs, format, frame, p) && r.value == FrameAt(ifs, p)
    ensures r.None? ==> forall q: Place :: !HasIndices(ifs, q, format, frame)
    ensures r == FindFrame(ifs, format, frame)
  {
    var a := 0;
    while a < |ifs|
      invariant a <= |ifs|
      invariant forall q: Place | q.i < a :: !HasIndices(ifs, q, format, frame)
    {
      var b := 0;
      while b < |ifs[a].formats|
        invariant b <= |ifs[a].formats|
        invariant forall q: Place | q.i == a && q.j < b :: !HasIndices(ifs, q, format, frame)
      {
        if ifs[a].formats[b].index == format {
          var c := 0;
          while c < |ifs[a].formats[b].frames|
            invariant c <= |ifs[a].formats[b].frames|
            invariant forall q: Place | q.i == a && q.j == b && q.k < c :: !HasIndices(ifs, q, format, frame)
          {
            if ifs[a].formats[b].frames[c].index == frame {
              p := Place(a, b, c);
              FindFrameIs(ifs, format, frame, p);
              return Some(ifs[a].formats[b].frames[c]), p;
            }
            c := c + 1;
          }
        }
        b := b + 1;
      }
      a := a + 1;
    }
    r, p := None, Place(0, 0, 0);
  }

  /** Frames that share their two indices share their size. */
  ghost predicate Consistent(ifs: seq<InterfaceDesc>) {
    forall p: Place, q: Place | IsFrame(ifs, p) && HasIndices(ifs, q, FormatAt(ifs, p).index, FrameAt(ifs, p).index) ::
      FrameAt(ifs, q).width == FrameAt(ifs, p).width && FrameAt(ifs, q).height == FrameAt(ifs, p).height
  }

  /** The size of the frames delivered for the format and frame that stand at `p`. */
  ghost predicate DeliversSizeOf(ifs: seq<InterfaceDesc>, p: Place)
    requires IsFrame(ifs, p)
  {
    var r := FindFrame(ifs, FormatAt(ifs, p).index, FrameAt(ifs, p).index);
    r.Some? && r.value.width == FrameAt(ifs, p).width && r.value.height == FrameAt(ifs, p).height
  }

  lemma {:induction false} SomeFirst(ifs: seq<InterfaceDesc>, format: byte, frame: byte, q: Place)
    requires HasIndices(ifs, q, format, frame)
    ensures exists p :: FirstWith(ifs, format, frame, p)
    decreases q.i, q.j, q.k
  {
    if p: Place :| Earlier(p, q) && HasIndices(ifs, p, format, frame) {
      SomeFirst(ifs, format, frame, p);
    } else {
      assert FirstWith(ifs, format, frame, q);
    }
  }

  /** Delivered frames have the size of the frame descriptor that was chosen, whichever
      it was, if and only if frames that share their two indices share their size. */
  lemma SizesDelivered(ifs: seq<InterfaceDesc>)
    ensures (forall p | IsFrame(ifs, p) :: DeliversSizeOf(ifs, p)) <==> Consistent(ifs)
  {
    if Consistent(ifs) {
      forall p | IsFrame(ifs, p)
        ensures DeliversSizeOf(ifs, p)
      {
        SomeFirst(ifs, FormatAt(ifs, p).index, FrameAt(ifs, p).index, p);
      }
    }
    if forall p | IsFrame(ifs, p) :: DeliversSizeOf(ifs, p) {
      forall p: Place, q: Place | IsFrame(ifs, p) && HasIndices(ifs, q, FormatAt(ifs, p).index, FrameAt(ifs, p).index)
        ensures FrameAt(ifs, q).width == FrameAt(ifs, p).width && FrameAt(ifs, q).height == FrameAt(ifs, p).height
      {
        assert DeliversSizeOf(ifs, p) && DeliversSizeOf(ifs, q);
      }
    }
  }

  // ----- the block on the wire -----

  /** The 26 bytes of version 1.0. */
  function EncodeShort(c: Ctrl): (b: seq<byte>)
    ensures |b| == 26
  {
    WriteU16(c.hint) + [c.format, c.frame] + WriteU32(c.interval)
    + WriteU16(c.keyFrameRate) + WriteU16(c.pFrameRate) + WriteU16(c.compQuality) + WriteU16(c.compWindow)
    + WriteU16(c.delay) + WriteU32(c.maxFrameSize) + WriteU32(c.maxPayload)
  }

  /** Version 1.1 adds eight bytes. */
  function Encode(c: Ctrl, long: bool): (b: seq<byte>)
    ensures |b| == if long then 34 else 26
  {
    if long then EncodeShort(c) + WriteU32(c.clock) + [c.framing, c.preferred] + [c.minVersion, c.maxVersion]
    else EncodeShort(c)
  }

  /** `buf` has what was transferred, and zeros behind it. */
  function Padded(bytes: seq<byte>): (buf: seq<byte>)
    requires |bytes| <= 34
    ensures |buf| == 34
  {
    bytes + seq(34 - |bytes|, _ => 0)
  }

  /** The fields of `buf`; a short block leaves the last four as they were in `c`. */
  function DecodeFields(info: DeviceInfo, c: Ctrl, buf: seq<byte>): Ctrl
    requires |buf| == 34
  {
    Ctrl(ReadU16(buf, 0), buf[2], buf[3], ReadU32(buf, 4),
         ReadU16(buf, 8), ReadU16(buf, 10), ReadU16(buf, 12), ReadU16(buf, 14), ReadU16(buf, 16),
         ReadU32(buf, 18), ReadU32(buf, 22),
         if Long(info) then ReadU32(buf, 26) else info.clock,
         if Long(info) then buf[30] else c.framing, if Long(info) then buf[31] else c.preferred,
         if Long(info) then buf[32] else c.minVersion, if Long(info) then buf[33] else c.maxVersion,
         c.interface)
  }

  /** A zero dwMaxVideoFrameSize is taken from the frame descriptor, if there is one. */
  ghost function FixUp(info: DeviceInfo, c: Ctrl): Ctrl {
    var frame := FindFrame(info.interfaces, c.format, c.frame);
    if c.maxFrameSize == 0 && frame.Some? then c.(maxFrameSize := frame.value.maxBufferSize) else c
  }

  /** The control block after a GET request. Nothing transferred, nothing changed. */
  ghost function Get(info: DeviceInfo, c: Ctrl, r: Reply): Ctrl
    requires r.Got? ==> |r.bytes| <= BlockLength(info)
  {
    if r.Failed? || r.bytes == [] then c else FixUp(info, DecodeFields(info, c, Padded(r.bytes)))
  }

  /** `ctrl` is the block `d` with its frame size, if that is zero, filled in from the first
      frame descriptor that has the two indices, if there is one. */
  ghost predicate FilledIn(ifs: seq<InterfaceDesc>, d: Ctrl, ctrl: Ctrl) {
    && ctrl == d.(maxFrameSize := ctrl.maxFrameSize)
    && (d.maxFrameSize != 0 ==> ctrl.maxFrameSize == d.maxFrameSize)
    && (d.maxFrameSize == 0 ==>
          && (forall p | FirstWith(ifs, d.format, d.frame, p) :: ctrl.maxFrameSize == FrameAt(ifs, p).maxBufferSize)
          && ((forall p :: !HasIndices(ifs, p, d.format, d.frame)) ==> ctrl.maxFrameSize == 0))
  }

  lemma GetFillsIn(info: DeviceInfo, c: Ctrl, r: Reply)
    requires r.Got? ==> |r.bytes| <= BlockLength(info)
    ensures r.Failed? || r.bytes == [] ==> Get(info, c, r) == c
    ensures r.Got? && r.bytes != [] ==>
              FilledIn(info.interfaces, DecodeFields(info, c, Padded(r.bytes)), Get(info, c, r))
  {
    if r.Got? && r.bytes != [] {
      var d := DecodeFields(info, c, Padded(r.bytes));
      hide DecodeFields;
      forall p | FirstWith(info.interfaces, d.format, d.frame, p)
        ensures FindFrame(info.interfaces, d.format, d.frame) == Some(FrameAt(info.interfaces, p))
      {
        FindFrameIs(info.interfaces, d.format, d.frame, p);
      }
    }
  }

  /** The block that a GET of an encoded `sent` yields: every field, but for a short
      block the clock frequency is the device's and the version fields stay. */
  function Carried(info: DeviceInfo, c: Ctrl, sent: Ctrl): Ctrl {
    if Long(info) then sent.(interface := c.interface)
    else sent.(clock := info.clock, framing := c.framing, preferred := c.preferred,
               minVersion := c.minVersion, maxVersion := c.maxVersion, interface := c.interface)
  }

  /** Round trip: decoding an encoded block changes no field that is on the wire, except
      that a zero dwMaxVideoFrameSize is looked up. */
  lemma DecodesEncoded(info: DeviceInfo, c: Ctrl, sent: Ctrl)
    ensures Get(info, c, Got(Encode(sent, Long(info)))) == FixUp(info, Carried(info, c, sent))
    ensures sent.maxFrameSize != 0 ==> Get(info, c, Got(Encode(sent, Long(info)))) == Carried(info, c, sent)
  {
    var buf := Padded(Encode(sent, Long(info)));
    assert DecodeFields(info, c, buf) == Carried(info, c, sent);
  }

  /** Section 4.3.1.1: where the fields are in the block, whoever reads it. */
  lemma FieldsOnWire(c: Ctrl, long: bool)
    ensures var b := Encode(c, long);
            && ReadU16(b, 0) == c.hint && b[2] == c.format && b[3] == c.frame && ReadU32(b, 4) == c.interval
            && ReadU16(b, 8) == c.keyFrameRate && ReadU16(b, 10) == c.pFrameRate
            && ReadU16(b, 12) == c.compQuality && ReadU16(b, 14) == c.compWindow && ReadU16(b, 16) == c.delay
            && ReadU32(b, 18) == c.maxFrameSize && ReadU32(b, 22) == c.maxPayload
            && (long ==>
                  && ReadU32(b, 26) == c.clock && b[30] == c.framing && b[31] == c.preferred
                  && b[32] == c.minVersion && b[33] == c.maxVersion)
  {
    var info := DeviceInfo(if long then 0x0110 else 0x0100, 0, []);
    var b := Encode(c, long);
    assert DecodeFields(info, c, Padded(b)) == Carried(info, c, c);
    assert forall i | 0 <= i < |b| :: Padded(b)[i] == b[i];
  }

  // ----- the code: a 34-byte buffer, filled field by field -----

  /** `w` has been written, and behind it `buf` still has the zeros of its memset. */
  ghost predicate Filled(buf: array<byte>, w: seq<byte>)
    reads buf
  {
    |w| <= buf.Length == 34 && buf[..] == Padded(w)
  }

  /** SHORT_TO_SW */
  method StoreU16(buf: array<byte>, ghost w: seq<byte>, at: nat, x: u16)
    requires Filled(buf, w) && at == |w| <= 32
    modifies buf
    ensures Filled(buf, w + WriteU16(x))
  {
    StoreTwo(buf, w, at, x % 0x100, x / 0x100);
  }

  /** INT_TO_DW */
  method StoreU32(buf: array<byte>, ghost w: seq<byte>, at: nat, x: u32)
    requires Filled(buf, w) && at == |w| <= 30
    modifies buf
    ensures Filled(buf, w + WriteU32(x))
  {
    hide WriteU16;
    StoreU16(buf, w, at, x % 0x1_0000);
    StoreU16(buf, w + WriteU16(x % 0x1_0000), at + 2, x / 0x1_0000);
    Regroup(w, WriteU16(x % 0x1_0000), WriteU16(x / 0x1_0000));
  }

  method StoreTwo(buf: array<byte>, ghost w: seq<byte>, at: nat, x: byte, y: byte)
    requires Filled(buf, w) && at == |w| <= 32
    modifies buf
    ensures Filled(buf, w + [x, y])
  {
    buf[at], buf[at + 1] := x, y;
  }

  method FillShort(buf: array<byte>, c: Ctrl)
    requires Filled(buf, [])
    modifies buf
    ensures Filled(buf, EncodeShort(c))
  {
    hide WriteU16, WriteU32, Padded, Filled;
    assert [] + WriteU16(c.hint) == WriteU16(c.hint);
    StoreU16(buf, [], 0, c.hint);
    ghost var w := WriteU16(c.hint);
    StoreTwo(buf, w, 2, c.format, c.frame);
    w := w + [c.format, c.frame];
    StoreU32(buf, w, 4, c.interval);
    w := w + WriteU32(c.interval);
    StoreU16(buf, w, 8, c.keyFrameRate);
    w := w + WriteU16(c.keyFrameRate);
    StoreU16(buf, w, 10, c.pFrameRate);
    w := w + WriteU16(c.pFrameRate);
    StoreU16(buf, w, 12, c.compQuality);
    w := w + WriteU16(c.compQuality);
    StoreU16(buf, w, 14, c.compWindow);
    w := w + WriteU16(c.compWindow);
    StoreU16(buf, w, 16, c.delay);
    w := w + WriteU16(c.delay);
    StoreU32(buf, w, 18, c.maxFrameSize);
    w := w + WriteU32(c.maxFrameSize);
    StoreU32(buf, w, 22, c.maxPayload);
  }

  /** The preparation of a SET request. */
  method FillBlock(c: Ctrl, long: bool) returns (buf: array<byte>)
    ensures fresh(buf) && buf.Length == 34 && buf[..] == Padded(Encode(c, long))
  {
    buf := new byte[34](_ => 0);
    FillShort(buf, c);
    hide WriteU32, EncodeShort;
    if long {
      ghost var w := EncodeShort(c);
      StoreU32(buf, w, 26, c.clock);
      w := w + WriteU32(c.clock);
      StoreTwo(buf, w, 30, c.framing, c.preferred);
      StoreTwo(buf, w + [c.framing, c.preferred], 32, c.minVersion, c.maxVersion);
    }
  }

  /** A GET request: the block is decoded if anything at all has been transferred. */
  method QueryGet(info: DeviceInfo, c: Ctrl, r: Reply) returns (ctrl: Ctrl)
    requires r.Got? ==> |r.bytes| <= BlockLength(info)
    ensures ctrl == Get(info, c, r)
    ensures r.Failed? || r.bytes == [] ==> ctrl == c
    ensures r.Got? && r.bytes != [] ==> FilledIn(info.interfaces, DecodeFields(info, c, Padded(r.bytes)), ctrl)
  {
    GetFillsIn(info, c, r);
    if r.Failed? || |r.bytes| == 0 {
      return c;
    }
    ctrl := DecodeFields(info, c, Padded(r.bytes));
    if ctrl.maxFrameSize == 0 {
      var frame, _ := FindFrameDesc(info.interfaces, ctrl.format, ctrl.frame);
      if frame.Some? {
        ctrl := ctrl.(maxFrameSize := frame.value.maxBufferSize);
      }
    }
  }
}
