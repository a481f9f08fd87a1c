// The payload reassembler of stream.c (_uvc_process_payload and
// _uvc_swap_buffers), as a function on the part of the stream handle that the
// event thread owns. Section 2.4.3.3 of USB Video Class 1.5 defines the headers.
module Reassembly {
  import opened Bytes

  /** LIBUVC_XFER_META_BUF_SIZE */
  const META_CAPACITY: nat := 4096

  const ISIGHT_TAG: seq<byte> := [0x11, 0x22, 0x33, 0x44, 0xde, 0xad, 0xbe, 0xef, 0xde, 0xad, 0xfa, 0xce]

  /** What does not change while a stream runs: dwMaxVideoFrameSize, is_isight. */
  datatype Params = Params(maxFrame: nat, isight: bool)

  type Payload = seq<byte>

  /** A frame as it stands in the hold buffers after a swap. */
  datatype Frame = Frame(seqNo: u32, pts: u32, scr: u32, data: seq<byte>, meta: seq<byte>)

  /** The reassembler: `got` is outbuf[..got_bytes], `meta` is
      meta_outbuf[..meta_got_bytes], and `published` every frame swapped so far. */
  datatype Asm = Asm(
    fid: bool, seqNo: u32, pts: u32, scr: u32,
    got: seq<byte>, meta: seq<byte>, published: seq<Frame>)

  /** A stream that uvc_stream_start has just set up. */
  const FRESH := Asm(false, 1, 0, 0, [], [], [])

  // ----- reading a payload header -----

  predicate HasIsightTag(p: Payload) {
    || (|p| >= 14 && p[2..14] == ISIGHT_TAG)
    || (|p| >= 15 && p[3..15] == ISIGHT_TAG)
  }

  /** An iSight payload without the tag is image data from its first byte. */
  predicate Headerless(c: Params, p: Payload) {
    c.isight && !HasIsightTag(p)
  }

  function HeaderLen(c: Params, p: Payload): nat
    requires p != []
  {
    if Headerless(c, p) then 0 else p[0]
  }

  function ImageBytes(c: Params, p: Payload): seq<byte>
    requires p != [] && HeaderLen(c, p) <= |p|
  {
    if c.isight && HasIsightTag(p) then [] else p[HeaderLen(c, p)..]
  }

  predicate Err(info: byte) { Bit(info, 0x40) }
  predicate Scr(info: byte) { Bit(info, 0x08) }
  predicate Pts(info: byte) { Bit(info, 0x04) }
  predicate Eof(info: byte) { Bit(info, 0x02) }
  predicate Fid(info: byte) { Bit(info, 0x01) }

  /** Offset of the header bytes behind the announced PTS and SCR fields. */
  function VariableOffset(info: byte): nat {
    2 + (if Pts(info) then 4 else 0) + (if Scr(info) then 6 else 0)
  }

  /** The payload reaches as far as the PTS and SCR reads do (SCR: four of its six bytes). */
  predicate Readable(c: Params, p: Payload) {
    p != [] && 2 <= HeaderLen(c, p) <= |p| && !Err(p[1]) ==>
      && (Pts(p[1]) ==> |p| >= 6)
      && (Scr(p[1]) ==> |p| >= VariableOffset(p[1]) - 2)
  }

  /** The payload is not dropped: it is non-empty, its header fits in it and has no error bit. */
  predicate Accepted(c: Params, p: Payload) {
    p != [] && HeaderLen(c, p) <= |p| && (HeaderLen(c, p) >= 2 ==> !Err(p[1]))
  }

  // ----- the state changes -----

  function Swap(s: Asm): Asm {
    s.(published := s.published + [Frame(s.seqNo, s.pts, s.scr, s.got, s.meta)],
       seqNo := (s.seqNo + 1) % TWO_TO_32,
       got := [], meta := [], scr := 0, pts := 0)
  }

  /** Record the frame id and time stamps of a header. */
  function TakeStamps(s: Asm, p: Payload): Asm
    requires |p| >= 2
    requires (Pts(p[1]) ==> |p| >= 6) && (Scr(p[1]) ==> |p| >= VariableOffset(p[1]) - 2)
  {
    var info := p[1];
    s.(fid := Fid(info),
       pts := if Pts(info) then ReadU32(p, 2) else s.pts,
       scr := if Scr(info) then ReadU32(p, VariableOffset(info) - 6) else s.scr)
  }

  /** Append the metadata of a header, as much of it as fits. */
  function TakeMeta(c: Params, s: Asm, p: Payload): Asm
    requires Accepted(c, p) && HeaderLen(c, p) >= 2 && |s.meta| <= META_CAPACITY
  {
    var vo, hl := VariableOffset(p[1]), HeaderLen(c, p);
    if hl > vo then s.(meta := s.meta + Clip(p[vo..hl], META_CAPACITY - |s.meta|)) else s
  }

  function TakeHeader(c: Params, s: Asm, p: Payload): Asm
    requires Accepted(c, p) && Readable(c, p) && HeaderLen(c, p) >= 2 && |s.meta| <= META_CAPACITY
  {
    TakeMeta(c, TakeStamps(s, p), p)
  }

  /** As many of `data`'s bytes as fit in `space`. */
  function Clip(data: seq<byte>, space: nat): seq<byte> {
    data[..Min(|data|, space)]
  }

  function AddImage(c: Params, s: Asm, data: seq<byte>, eof: bool): Asm
    requires |s.got| <= c.maxFrame
  {
    if data == [] then s else
      var s' := s.(got := s.got + Clip(data, c.maxFrame - |s.got|));
      if eof || |s'.got| == c.maxFrame then Swap(s') else s'
  }

  /** The frame id flipped while image bytes of the previous frame are still held. */
  predicate Flushes(c: Params, s: Asm, p: Payload)
    requires p != [] && HeaderLen(c, p) <= |p|
  {
    HeaderLen(c, p) >= 2 && s.fid != Fid(p[1]) && s.got != []
  }

  function Process(c: Params, s: Asm, p: Payload): Asm
    requires Bounded(c, s) && Readable(c, p)
  {
    if !Accepted(c, p) then s
    else if HeaderLen(c, p) < 2 then AddImage(c, s, ImageBytes(c, p), false)
    else
      var s1 := if Flushes(c, s, p) then Swap(s) else s;
      AddImage(c, TakeHeader(c, s1, p), ImageBytes(c, p), Eof(p[1]))
  }

  predicate Bounded(c: Params, s: Asm) {
    |s.got| <= c.maxFrame && |s.meta| <= META_CAPACITY
  }

  predicate AllReadable(c: Params, ps: seq<Payload>) {
    forall i | 0 <= i < |ps| :: Readable(c, ps[i])
  }

  lemma ProcessBounded(c: Params, s: Asm, p: Payload)
    requires Bounded(c, s) && Readable(c, p)
    ensures Bounded(c, Process(c, s, p))
    ensures s.published <= Process(c, s, p).published
  {
  }

  function ProcessAll(c: Params, s: Asm, ps: seq<Payload>): (s': Asm)
    requires Bounded(c, s) && AllReadable(c, ps)
    ensures Bounded(c, s')
    ensures s.published <= s'.published
    decreases |ps|
  {
    if ps == [] then s else
      ProcessBounded(c, s, ps[0]);
      ProcessAll(c, Process(c, s, ps[0]), ps[1..])
  }

  lemma ProcessAllCons(c: Params, s: Asm, ps: seq<Payload>)
    requires Bounded(c, s) && AllReadable(c, ps) && ps != []
    ensures Bounded(c, Process(c, s, ps[0])) && AllReadable(c, ps[1..])
    ensures ProcessAll(c, s, ps) == ProcessAll(c, Process(c, s, ps[0]), ps[1..])
  {
    ProcessBounded(c, s, ps[0]);
    hide Process;
  }

  lemma ProcessNone(c: Params, s: Asm)
    requires Bounded(c, s)
    ensures ProcessAll(c, s, []) == s
  {
  }

  lemma {:induction false} ProcessAllAppend(c: Params, s: Asm, a: seq<Payload>, b: seq<Payload>)
    requires Bounded(c, s) && AllReadable(c, a) && AllReadable(c, b)
    ensures AllReadable(c, a + b)
    ensures ProcessAll(c, s, a + b) == ProcessAll(c, ProcessAll(c, s, a), b)
    decreases |a|
  {
    if a == [] {
      assert a + b == b;
    } else {
      assert (a + b)[0] == a[0] && (a + b)[1..] == a[1..] + b;
      ProcessAllCons(c, s, a);
      hide Process, Readable;
      ProcessAllAppend(c, Process(c, s, a[0]), a[1..], b);
      ProcessAllCons(c, s, a + b);
    }
  }

  // ----- conservation: no image byte is invented, reordered or repeated -----

  function Datas(fs: seq<Frame>): (ds: seq<seq<byte>>)
    ensures |ds| == |fs|
  {
    seq(|fs|, i requires 0 <= i < |fs| => fs[i].data)
  }

  /** Everything the reassembler has kept: published image bytes, then the open frame's. */
  function Kept(s: Asm): seq<byte> {
    Flatten(Datas(s.published)) + s.got
  }

  /** Room in the back buffer when the image bytes of `p` arrive. */
  function SpaceFor(c: Params, s: Asm, p: Payload): nat
    requires Bounded(c, s) && Accepted(c, p)
  {
    if Flushes(c, s, p) then c.maxFrame else c.maxFrame - |s.got|
  }

  /** The image bytes that one payload may contribute: those that fit the space left. */
  function Contribution(c: Params, s: Asm, p: Payload): seq<byte>
    requires Bounded(c, s)
  {
    if !Accepted(c, p) then [] else
      Clip(ImageBytes(c, p), SpaceFor(c, s, p))
  }

  function Contributions(c: Params, s: Asm, ps: seq<Payload>): seq<byte>
    requires Bounded(c, s) && AllReadable(c, ps)
    decreases |ps|
  {
    if ps == [] then [] else
      ProcessBounded(c, s, ps[0]);
      Contribution(c, s, ps[0]) + Contributions(c, Process(c, s, ps[0]), ps[1..])
  }

  lemma KeptSwap(s: Asm)
    ensures Kept(Swap(s)) == Kept(s)
  {
    FlattenSnoc(Datas(s.published), s.got);
    assert Datas(Swap(s).published) == Datas(s.published) + [s.got];
  }

  lemma KeptAddImage(c: Params, s: Asm, data: seq<byte>, eof: bool)
    requires |s.got| <= c.maxFrame
    ensures Kept(AddImage(c, s, data, eof)) == Kept(s) + Clip(data, c.maxFrame - |s.got|)
  {
    if data != [] {
      var s' := s.(got := s.got + Clip(data, c.maxFrame - |s.got|));
      KeptSwap(s');
    }
  }

  lemma KeptHeader(c: Params, s: Asm, p: Payload)
    requires Accepted(c, p) && Readable(c, p) && HeaderLen(c, p) >= 2 && |s.meta| <= META_CAPACITY
    ensures Kept(TakeHeader(c, s, p)) == Kept(s) && |TakeHeader(c, s, p).got| == |s.got|
  {
  }

  lemma StepConserves(c: Params, s: Asm, p: Payload)
    requires Bounded(c, s) && Readable(c, p)
    ensures Kept(Process(c, s, p)) == Kept(s) + Contribution(c, s, p)
  {
    if Accepted(c, p) {
      if HeaderLen(c, p) < 2 {
        KeptAddImage(c, s, ImageBytes(c, p), false);
      } else {
        KeptSwap(s);
        var s1 := if Flushes(c, s, p) then Swap(s) else s;
        KeptHeader(c, s1, p);
        hide Bit, TakeHeader, AddImage, Kept, Clip;
        KeptAddImage(c, TakeHeader(c, s1, p), ImageBytes(c, p), Eof(p[1]));
      }
    }
  }

  /** For every payload sequence: the published frames followed by the open frame
      are the accepted image bytes, each payload's clipped to the space then left. */
  lemma {:induction false} Conservation(c: Params, s: Asm, ps: seq<Payload>)
    requires Bounded(c, s) && AllReadable(c, ps)
    ensures Kept(ProcessAll(c, s, ps)) == Kept(s) + Contributions(c, s, ps)
    decreases |ps|
  {
    hide Process, Contribution, Kept;
    if ps != [] {
      StepConserves(c, s, ps[0]);
      ProcessBounded(c, s, ps[0]);
      Conservation(c, Process(c, s, ps[0]), ps[1..]);
    }
  }

  /** An iSight sends headers and images apart: a payload with the tag in it has no image
      bytes, and one without is image bytes from its first byte on. */
  lemma IsightImage(c: Params, s: Asm, p: Payload)
    requires Bounded(c, s) && Readable(c, p) && c.isight && p != []
    ensures (|p| >= 14 && p[2..14] == ISIGHT_TAG) || (|p| >= 15 && p[3..15] == ISIGHT_TAG) ==>
              Kept(Process(c, s, p)) == Kept(s)
    ensures (|p| >= 14 ==> p[2..14] != ISIGHT_TAG) && (|p| >= 15 ==> p[3..15] != ISIGHT_TAG) ==>
              Kept(Process(c, s, p)) == Kept(s) + p[..Min(|p|, c.maxFrame - |s.got|)]
  {
    StepConserves(c, s, p);
    hide Process, Kept, Bit;
    assert Kept(s) + [] == Kept(s);
  }

  // ----- numbering -----

  /** Frames are numbered 1, 2, 3, ... modulo 2^32, and `seqNo` is the next number. */
  ghost predicate Numbered(s: Asm) {
    && (forall i | 0 <= i < |s.published| :: s.published[i].seqNo == (i + 1) % TWO_TO_32)
    && s.seqNo == (|s.published| + 1) % TWO_TO_32
  }

  lemma NumberedSwap(s: Asm)
    requires Numbered(s)
    ensures Numbered(Swap(s))
  {
    var next := (|s.published| + 1) % TWO_TO_32;
    assert (next + 1) % TWO_TO_32 == (|s.published| + 2) % TWO_TO_32;
  }

  lemma NumberedAddImage(c: Params, s: Asm, data: seq<byte>, eof: bool)
    requires |s.got| <= c.maxFrame && Numbered(s)
    ensures Numbered(AddImage(c, s, data, eof))
  {
    hide Swap;
    if data != [] {
      NumberedSwap(s.(got := s.got + Clip(data, c.maxFrame - |s.got|)));
    }
  }

  lemma StepNumbered(c: Params, s: Asm, p: Payload)
    requires Bounded(c, s) && Readable(c, p) && Numbered(s)
    ensures Numbered(Process(c, s, p))
  {

    if Accepted(c, p) {
      NumberedSwap(s);
      if HeaderLen(c, p) < 2 {
        NumberedAddImage(c, s, ImageBytes(c, p), false);
      } else {
        var s1 := if Flushes(c, s, p) then Swap(s) else s;
        NumberedAddImage(c, TakeHeader(c, s1, p), ImageBytes(c, p), Eof(p[1]));
      }
    }
  }

  lemma {:induction false} NumberingKept(c: Params, s: Asm, ps: seq<Payload>)
    requires Bounded(c, s) && AllReadable(c, ps) && Numbered(s)
    ensures Numbered(ProcessAll(c, s, ps))
    decreases |ps|
  {
    hide Process;
    if ps != [] {
      ProcessBounded(c, s, ps[0]);
      StepNumbered(c, s, ps[0]);
      NumberingKept(c, Process(c, s, ps[0]), ps[1..]);
    }
  }
}
