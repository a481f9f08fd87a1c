// The payload header of section 2.4.3.3 of USB Video Class 1.5, laid out in
// bytes, and what the reassembler makes of it.
module PayloadHeaders {
  import opened Bytes
  import opened Reassembly

  /** A source clock reference: the clock, and the frame counter that libuvc skips. */
  datatype Clock = Clock(stc: u32, counter: u16)

  datatype Header = Header(
    fid: bool, eof: bool, error: bool, pts: Option<u32>, clock: Option<Clock>, meta: seq<byte>)

  function Flag(on: bool, bit: byte): byte {
    if on then bit else 0
  }

  /** bmHeaderInfo, with the end-of-header bit that every header has. */
  function Info(h: Header): byte {
    Flag(h.fid, 0x01) + Flag(h.eof, 0x02) + Flag(h.pts.Some?, 0x04) + Flag(h.clock.Some?, 0x08)
    + Flag(h.error, 0x40) + 0x80
  }

  function Fields(h: Header): (b: seq<byte>)
    ensures 2 + |b| == VariableOffset(Info(h))
  {
    InfoBits(h);
    (if h.pts.Some? then WriteU32(h.pts.value) else [])
    + (if h.clock.Some? then WriteU32(h.clock.value.stc) + WriteU16(h.clock.value.counter) else [])
  }

  predicate Fits(h: Header) {
    2 + |Fields(h)| + |h.meta| < 0x100
  }

  /** A payload: header length, flags, time stamps, metadata, image bytes. */
  function Layout(h: Header, image: seq<byte>): Payload
    requires Fits(h)
  {
    [2 + |Fields(h)| + |h.meta|, Info(h)] + Fields(h) + h.meta + image
  }

  lemma InfoBits(h: Header)
    ensures Fid(Info(h)) == h.fid && Eof(Info(h)) == h.eof && Err(Info(h)) == h.error
    ensures Pts(Info(h)) == h.pts.Some? && Scr(Info(h)) == h.clock.Some?
  {
  }

  /** The header is found where it has been put, and behind it the image. */
  lemma HeaderFound(c: Params, h: Header, image: seq<byte>)
    requires Fits(h) && !c.isight
    ensures var p := Layout(h, image);
            && HeaderLen(c, p) == VariableOffset(Info(h)) + |h.meta| <= |p| && p[1] == Info(h)
            && Readable(c, p) && (Accepted(c, p) <==> !h.error)
            && ImageBytes(c, p) == image
            && p[VariableOffset(Info(h))..HeaderLen(c, p)] == h.meta
  {
    InfoBits(h);
    hide Info, Fields, Bit;
    var p := Layout(h, image);
    var head := [2 + |Fields(h)| + |h.meta|, Info(h)] + Fields(h);
    assert p == head + h.meta + image;
  }

  lemma StampsRead(s: Asm, h: Header, image: seq<byte>)
    requires Fits(h)
    ensures var p := Layout(h, image);
            && (h.pts.Some? ==> |p| >= 6 && ReadU32(p, 2) == h.pts.value)
            && (h.clock.Some? ==> |p| >= VariableOffset(Info(h)) - 2
                                  && ReadU32(p, VariableOffset(Info(h)) - 6) == h.clock.value.stc)
  {
    InfoBits(h);
    hide Info, Bit, WriteU32, ReadU32, WriteU16;
    var head := [2 + |Fields(h)| + |h.meta|, Info(h)];
    var pts := if h.pts.Some? then WriteU32(h.pts.value) else [];
    var clock := if h.clock.Some? then WriteU32(h.clock.value.stc) + WriteU16(h.clock.value.counter) else [];
    var behind := h.meta + image;
    assert Layout(h, image) == head + pts + (clock + behind);
    if h.pts.Some? {
      ReadWritten32(head, h.pts.value, clock + behind);
    }
    if h.clock.Some? {
      ReadWritten32(head + pts, h.clock.value.stc, WriteU16(h.clock.value.counter) + behind);
      assert head + pts + (clock + behind)
          == (head + pts) + WriteU32(h.clock.value.stc) + (WriteU16(h.clock.value.counter) + behind);
    }
  }

  /** The open frame is published with what is held of it, each under its name, and the
      next one begins with nothing. */
  function Publish(s: Asm): Asm {
    s.(published := s.published + [Frame(seqNo := s.seqNo, pts := s.pts, scr := s.scr, data := s.got, meta := s.meta)],
       seqNo := if s.seqNo == TWO_TO_32 - 1 then 0 else s.seqNo + 1,
       pts := 0, scr := 0, got := [], meta := [])
  }

  /** Before a header of another frame is taken, a frame with image bytes is published. */
  function Opened(s: Asm, h: Header): Asm {
    if s.fid != h.fid && s.got != [] then Publish(s) else s
  }

  /** A header is taken: its frame id, the stamps that it has, and its metadata as far as
      it fits. */
  function HeaderInto(s: Asm, h: Header): (s': Asm)
    requires |s.meta| <= META_CAPACITY
    ensures s'.got == s.got && |s'.meta| <= META_CAPACITY
  {
    s.(fid := h.fid,
       pts := if h.pts.Some? then h.pts.value else s.pts,
       scr := if h.clock.Some? then h.clock.value.stc else s.scr,
       meta := s.meta + Clip(h.meta, META_CAPACITY - |s.meta|))
  }

  /** What a payload does, said in terms of its header and image: an erroneous one
      nothing; else the header is taken and the image is appended as far as it fits. Image
      bytes that fill the buffer, or come with the end-of-frame bit, end the frame. */
  function Effect(c: Params, s: Asm, h: Header, image: seq<byte>): Asm
    requires Bounded(c, s)
  {
    if h.error then s else
      var s1 := HeaderInto(Opened(s, h), h);
      var s2 := s1.(got := s1.got + Clip(image, c.maxFrame - |s1.got|));
      if image != [] && (h.eof || |s2.got| == c.maxFrame) then Publish(s2) else s2
  }

  /** Processing inverts the layout: for every state, header and image. */
  lemma ProcessesLayout(c: Params, s: Asm, h: Header, image: seq<byte>)
    requires Bounded(c, s) && Fits(h) && !c.isight
    ensures Readable(c, Layout(h, image))
    ensures Process(c, s, Layout(h, image)) == Effect(c, s, h, image)
  {
    hide *;
    InfoBits(h);
    HeaderFound(c, h, image);
    if h.error {
      Skipped(c, s, h, image);
    } else {
      var s1 := Opened(s, h);
      OpenedBounded(c, s, h);
      HeaderTaken(c, s1, h, image);
      ProcessTaken(c, s, Layout(h, image));
      ImageAdded(c, HeaderInto(s1, h), image, h.eof);
      EffectTaken(c, s, h, image);
    }
  }

  lemma OpenedBounded(c: Params, s: Asm, h: Header)
    requires Bounded(c, s)
    ensures Bounded(c, Opened(s, h)) && |Opened(s, h).meta| <= META_CAPACITY
    ensures Bounded(c, HeaderInto(Opened(s, h), h))
    ensures Opened(s, h) == if s.fid != h.fid && s.got != [] then Swap(s) else s
  {
  }

  lemma Skipped(c: Params, s: Asm, h: Header, image: seq<byte>)
    requires Bounded(c, s) && h.error && Fits(h) && Readable(c, Layout(h, image))
    requires !Accepted(c, Layout(h, image))
    ensures Process(c, s, Layout(h, image)) == Effect(c, s, h, image)
  {
  }

  lemma EffectTaken(c: Params, s: Asm, h: Header, image: seq<byte>)
    requires Bounded(c, s) && !h.error && |Opened(s, h).meta| <= META_CAPACITY && Bounded(c, Opened(s, h))
    ensures var s1 := HeaderInto(Opened(s, h), h);
            |s1.got| <= c.maxFrame &&
            var s2 := s1.(got := s1.got + Clip(image, c.maxFrame - |s1.got|));
            Effect(c, s, h, image) == if image != [] && (h.eof || |s2.got| == c.maxFrame) then Publish(s2) else s2
  {
    hide Publish, Clip;
  }

  lemma ProcessTaken(c: Params, s: Asm, p: Payload)
    requires Bounded(c, s) && Accepted(c, p) && Readable(c, p) && HeaderLen(c, p) >= 2
    ensures var s1 := if s.fid != Fid(p[1]) && s.got != [] then Swap(s) else s;
            Bounded(c, s1) && |TakeHeader(c, s1, p).got| <= c.maxFrame
            && Process(c, s, p) == AddImage(c, TakeHeader(c, s1, p), ImageBytes(c, p), Eof(p[1]))
  {
    hide Clip, Bit, ReadU32;
  }

  lemma HeaderTaken(c: Params, s: Asm, h: Header, image: seq<byte>)
    requires Bounded(c, s) && Fits(h) && !c.isight && !h.error
    ensures var p := Layout(h, image);
            && Accepted(c, p) && Readable(c, p) && HeaderLen(c, p) >= 2
            && p[1] == Info(h) && |s.meta| <= META_CAPACITY && TakeHeader(c, s, p) == HeaderInto(s, h)
  {
    InfoBits(h);
    HeaderFound(c, h, image);
    StampsRead(s, h, image);
    NothingClipped(c, s);
    hide Info, Fields, Bit, Layout, ReadU32;
  }

  lemma ImageAdded(c: Params, s: Asm, image: seq<byte>, eof: bool)
    requires Bounded(c, s)
    ensures var s' := s.(got := s.got + Clip(image, c.maxFrame - |s.got|));
            AddImage(c, s, image, eof)
            == if image != [] && (eof || |s'.got| == c.maxFrame) then Publish(s') else s'
  {
    SwapPublishes();
    NothingClipped(c, s);
    hide Swap, Publish;
  }

  lemma SwapPublishes()
    ensures forall s :: Swap(s) == Publish(s)
    ensures forall s :: Publish(s).got == [] && Publish(s).meta == []
  {
  }

  lemma NothingClipped(c: Params, s: Asm)
    requires Bounded(c, s)
    ensures s.meta + Clip([], META_CAPACITY - |s.meta|) == s.meta
    ensures s.got + Clip([], c.maxFrame - |s.got|) == s.got
  {
  }
}
