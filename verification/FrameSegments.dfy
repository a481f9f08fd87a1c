// Which payloads a published frame is made of, and so what its time stamps,
// metadata and image are, whatever a device sends.
module FrameSegments {
  import opened Bytes
  import opened Reassembly
  import opened PayloadHeaders

  /** A payload by what is in it. */
  datatype Packet = Packet(header: Header, image: seq<byte>)

  predicate AllFit(run: seq<Packet>) {
    forall i | 0 <= i < |run| :: Fits(run[i].header)
  }

  function Layouts(run: seq<Packet>): (ps: seq<Payload>)
    requires AllFit(run)
    ensures |ps| == |run|
  {
    seq(|run|, i requires 0 <= i < |run| => Layout(run[i].header, run[i].image))
  }

  // ----- what a segment of payloads says; payloads with the error bit say nothing -----

  /** The presentation time of the last header that has one, `before` if none has. */
  function LastPts(before: u32, seg: seq<Packet>): u32 {
    if seg == [] then before else
      var h := seg[|seg| - 1].header;
      if !h.error && h.pts.Some? then h.pts.value else LastPts(before, seg[..|seg| - 1])
  }

  /** The source clock of the last header that has one. */
  function LastScr(before: u32, seg: seq<Packet>): u32 {
    if seg == [] then before else
      var h := seg[|seg| - 1].header;
      if !h.error && h.clock.Some? then h.clock.value.stc else LastScr(before, seg[..|seg| - 1])
  }

  function LastFid(before: bool, seg: seq<Packet>): bool {
    if seg == [] then before else
      var h := seg[|seg| - 1].header;
      if !h.error then h.fid else LastFid(before, seg[..|seg| - 1])
  }

  /** The metadata of all headers, one after the other. */
  function Metas(seg: seq<Packet>): seq<byte> {
    if seg == [] then [] else
      var x := seg[|seg| - 1];
      Metas(seg[..|seg| - 1]) + if x.header.error then [] else x.header.meta
  }

  /** The image bytes of all payloads, one after the other. */
  function Images(seg: seq<Packet>): seq<byte> {
    if seg == [] then [] else
      var x := seg[|seg| - 1];
      Images(seg[..|seg| - 1]) + if x.header.error then [] else x.image
  }

  function UpTo(bytes: seq<byte>, n: nat): seq<byte> {
    if |bytes| <= n then bytes else bytes[..n]
  }

  /** What is there before the first payload of a frame. */
  datatype Start = Start(pts: u32, scr: u32, meta: seq<byte>, got: seq<byte>)

  /** Frame `j` of a run: the first may have been begun before, the others begin with nothing. */
  function StartOf(s: Asm, j: nat): Start {
    if j == 0 then Start(s.pts, s.scr, s.meta, s.got) else Start(0, 0, [], [])
  }

  function Picture(st: Start, seg: seq<Packet>): seq<byte> {
    st.got + Images(seg)
  }

  predicate ClosedBy(c: Params, st: Start, seg: seq<Packet>) {
    seg != [] &&
    var x := seg[|seg| - 1];
    !x.header.error && x.image != [] && (x.header.eof || |Picture(st, seg)| >= c.maxFrame)
  }

  predicate FlippedBy(st: Start, fid: bool, seg: seq<Packet>, h: Header) {
    !h.error && Picture(st, seg) != [] && h.fid != fid
  }

  /** A frame that begins with payload `a` ends before payload `b`: payload b - 1 has image
      bytes that fill the buffer, or with the end-of-frame bit; or there are image bytes,
      and payload `b` has another frame id. */
  predicate EndsAt(c: Params, st: Start, fid: bool, run: seq<Packet>, a: nat, b: nat)
    requires a <= b <= |run|
  {
    || ClosedBy(c, st, run[a..b])
    || (b < |run| && FlippedBy(st, LastFid(fid, run[..b]), run[a..b], run[b].header))
  }

  /** `f` is made of the payloads `seg`. */
  predicate MadeOf(c: Params, st: Start, seg: seq<Packet>, f: Frame) {
    && f.pts == LastPts(st.pts, seg)
    && f.scr == LastScr(st.scr, seg)
    && f.meta == UpTo(st.meta + Metas(seg), META_CAPACITY)
    && f.data == UpTo(Picture(st, seg), c.maxFrame)
  }

  /** Payloads `a` to b - 1 are those of frame `f`, which ends there and not before. */
  ghost predicate IsFrame(c: Params, st: Start, fid: bool, run: seq<Packet>, a: nat, b: nat, f: Frame) {
    && a <= b <= |run| && EndsAt(c, st, fid, run, a, b)
    && (forall m | a <= m < b :: !EndsAt(c, st, fid, run, a, m))
    && MadeOf(c, st, run[a..b], f)
  }

  /** Frame with the fields that are held of the open frame. */
  function OpenFrame(s: Asm): Frame {
    Frame(s.seqNo, s.pts, s.scr, s.got, s.meta)
  }

  /** The payloads from `a` on are those of the open frame, which has not ended. */
  ghost predicate IsOpen(c: Params, st: Start, fid: bool, run: seq<Packet>, a: nat, s: Asm) {
    && a <= |run| && s.fid == LastFid(fid, run)
    && (forall m | a <= m <= |run| :: !EndsAt(c, st, fid, run, a, m))
    && MadeOf(c, st, run[a..], OpenFrame(s))
    && (s.got == [] ==> Picture(st, run[a..]) == [])
  }

  /** The frames published since `s` begin at `cuts`, but for the last number, where the
      open one begins. */
  ghost predicate Frames(c: Params, s: Asm, run: seq<Packet>, published: seq<Frame>, cuts: seq<nat>) {
    var n, k := |s.published|, |cuts| - 1;
    && k >= 0 && cuts[0] == 0 && |published| == n + k && s.published <= published
    && forall j | 0 <= j < k :: IsFrame(c, StartOf(s, j), s.fid, run, cuts[j], cuts[j + 1], published[n + j])
  }

  ghost predicate Cuts(c: Params, s: Asm, run: seq<Packet>, s': Asm, cuts: seq<nat>) {
    && Frames(c, s, run, s'.published, cuts)
    && IsOpen(c, StartOf(s, |cuts| - 1), s.fid, run, cuts[|cuts| - 1], s')
  }

  // ----- one payload more -----

  lemma Snoc<E>(seg: seq<E>, x: E)
    ensures (seg + [x])[..|seg|] == seg && (seg + [x])[|seg|] == x
  {
  }

  lemma SnocSays(seg: seq<Packet>, x: Packet)
    ensures forall v :: LastPts(v, seg + [x])
                     == if !x.header.error && x.header.pts.Some? then x.header.pts.value else LastPts(v, seg)
    ensures forall v :: LastScr(v, seg + [x])
                     == if !x.header.error && x.header.clock.Some? then x.header.clock.value.stc else LastScr(v, seg)
    ensures forall v :: LastFid(v, seg + [x]) == if !x.header.error then x.header.fid else LastFid(v, seg)
    ensures Metas(seg + [x]) == Metas(seg) + if x.header.error then [] else x.header.meta
    ensures Images(seg + [x]) == Images(seg) + if x.header.error then [] else x.image
  {
    Snoc(seg, x);
  }

  /** Clipping as one goes is clipping at the end. */
  lemma ClipLater(all: seq<byte>, more: seq<byte>, n: nat)
    ensures |UpTo(all, n)| <= n
    ensures UpTo(all, n) + Clip(more, n - |UpTo(all, n)|) == UpTo(all + more, n)
  {
  }

  lemma EndsMore(c: Params, st: Start, fid: bool, run: seq<Packet>, x: Packet, a: nat, m: nat)
    requires a <= m <= |run|
    ensures (run + [x])[a..m] == run[a..m]
    ensures m < |run| ==> (EndsAt(c, st, fid, run + [x], a, m) <==> EndsAt(c, st, fid, run, a, m))
    ensures m == |run| ==> (EndsAt(c, st, fid, run + [x], a, m) <==>
                              EndsAt(c, st, fid, run, a, m) || FlippedBy(st, LastFid(fid, run), run[a..], x.header))
  {
    hide ClosedBy, FlippedBy, LastFid;
    assert (run + [x])[a..m] == run[a..m];
    assert (run + [x])[..m] == run[..m];
    assert m == |run| ==> run[..m] == run && run[a..m] == run[a..];
  }

  lemma IsFrameMore(c: Params, st: Start, fid: bool, run: seq<Packet>, x: Packet, a: nat, b: nat, f: Frame)
    requires IsFrame(c, st, fid, run, a, b, f)
    ensures IsFrame(c, st, fid, run + [x], a, b, f)
  {
    hide EndsAt, MadeOf;
    forall m | a <= m <= b
      ensures EndsAt(c, st, fid, run, a, m) ==> EndsAt(c, st, fid, run + [x], a, m)
      ensures m < b ==> (EndsAt(c, st, fid, run + [x], a, m) <==> EndsAt(c, st, fid, run, a, m))
    {
      EndsMore(c, st, fid, run, x, a, m);
    }
    EndsMore(c, st, fid, run, x, a, b);
  }

  lemma FramesMore(c: Params, s: Asm, run: seq<Packet>, x: Packet, published: seq<Frame>, cuts: seq<nat>)
    requires Frames(c, s, run, published, cuts)
    ensures Frames(c, s, run + [x], published, cuts)
  {
    hide IsFrame, StartOf;
    var n := |s.published|;
    forall j | 0 <= j < |cuts| - 1
      ensures IsFrame(c, StartOf(s, j), s.fid, run + [x], cuts[j], cuts[j + 1], published[n + j])
    {
      IsFrameMore(c, StartOf(s, j), s.fid, run, x, cuts[j], cuts[j + 1], published[n + j]);
    }
  }

  /** One more frame is published. */
  lemma FramesPush(c: Params, s: Asm, run: seq<Packet>, published: seq<Frame>, cuts: seq<nat>, b: nat, f: Frame)
    requires Frames(c, s, run, published, cuts)
    requires IsFrame(c, StartOf(s, |cuts| - 1), s.fid, run, cuts[|cuts| - 1], b, f)
    ensures Frames(c, s, run, published + [f], cuts + [b])
  {
    hide IsFrame, StartOf;
  }

  /** Payload `x` has begun to be processed: a frame that it ends by its frame id has been
      published, and the payloads before it, from `a` on, are those of the open frame. */
  ghost predicate Begun(c: Params, st: Start, fid: bool, run: seq<Packet>, x: Packet, a: nat, s: Asm) {
    && a <= |run| && !x.header.error
    && (forall m | a <= m <= |run| :: !EndsAt(c, st, fid, run + [x], a, m))
    && MadeOf(c, st, run[a..], OpenFrame(s))
    && (s.got == [] ==> Picture(st, run[a..]) == [])
  }

  /** A payload with the error bit adds nothing to a segment. */
  lemma ErrorSaysNothing(c: Params, st: Start, seg: seq<Packet>, x: Packet, f: Frame)
    requires x.header.error
    ensures MadeOf(c, st, seg + [x], f) <==> MadeOf(c, st, seg, f)
    ensures Picture(st, seg + [x]) == Picture(st, seg) && !ClosedBy(c, st, seg + [x])
    ensures forall v :: LastFid(v, seg + [x]) == LastFid(v, seg)
  {
    SnocSays(seg, x);
    Snoc(seg, x);
    hide LastPts, LastScr, LastFid, Metas, Images, UpTo;
    assert Metas(seg) + [] == Metas(seg) && Images(seg) + [] == Images(seg);
  }

  lemma OpenSkips(c: Params, st: Start, fid: bool, run: seq<Packet>, x: Packet, a: nat, s: Asm)
    requires IsOpen(c, st, fid, run, a, s) && x.header.error
    ensures IsOpen(c, st, fid, run + [x], a, s)
  {
    var run', seg := run + [x], run[a..];
    assert run'[a..] == seg + [x];
    ErrorSaysNothing(c, st, seg, x, OpenFrame(s));
    ErrorSaysNothing(c, st, run, x, OpenFrame(s));
    forall m | a <= m <= |run'|
      ensures !EndsAt(c, st, fid, run', a, m)
    {
      hide EndsAt, ClosedBy;
      if m <= |run| {
        SkipsEnd(c, st, fid, run, x, a, m);
      } else {
        NotClosed(c, st, fid, run', a);
      }
    }
    hide *;
    StaysOpen(c, st, fid, run, run', a, s);
  }

  lemma StaysOpen(c: Params, st: Start, fid: bool, run: seq<Packet>, run': seq<Packet>, a: nat, s: Asm)
    requires IsOpen(c, st, fid, run, a, s) && |run| <= |run'| && LastFid(fid, run') == LastFid(fid, run)
    requires forall m | a <= m <= |run'| :: !EndsAt(c, st, fid, run', a, m)
    requires MadeOf(c, st, run'[a..], OpenFrame(s)) <==> MadeOf(c, st, run[a..], OpenFrame(s))
    requires Picture(st, run'[a..]) == Picture(st, run[a..])
    ensures IsOpen(c, st, fid, run', a, s)
  {
    hide EndsAt, MadeOf, Picture, LastFid;
  }

  lemma SkipsEnd(c: Params, st: Start, fid: bool, run: seq<Packet>, x: Packet, a: nat, m: nat)
    requires a <= m <= |run| && x.header.error
    ensures EndsAt(c, st, fid, run + [x], a, m) <==> EndsAt(c, st, fid, run, a, m)
  {
    EndsMore(c, st, fid, run, x, a, m);
    hide EndsAt, Picture, LastFid;
  }

  /** A frame cannot end behind a payload that does not close it if none follows. */
  lemma NotClosed(c: Params, st: Start, fid: bool, run: seq<Packet>, a: nat)
    requires a <= |run|
    ensures EndsAt(c, st, fid, run, a, |run|) <==> ClosedBy(c, st, run[a..])
  {
    hide ClosedBy, FlippedBy, LastFid;
    assert run[a..|run|] == run[a..];
  }

  lemma NothingEnds(c: Params, fid: bool, run: seq<Packet>, a: nat)
    requires a <= |run|
    ensures !EndsAt(c, Start(0, 0, [], []), fid, run, a, a)
  {
    assert run[a..a] == [];
  }

  /** The frame before is open still and has image bytes, and `x` is of another. */
  lemma Flushed(c: Params, st: Start, fid: bool, run: seq<Packet>, x: Packet, a: nat, s: Asm)
    requires IsOpen(c, st, fid, run, a, s) && !x.header.error && s.fid != x.header.fid && s.got != []
    ensures IsFrame(c, st, fid, run + [x], a, |run|, OpenFrame(s))
    ensures Begun(c, Start(0, 0, [], []), fid, run, x, |run|, Publish(s))
  {
    NothingEnds(c, fid, run + [x], |run|);
    assert run[|run|..] == [] && run[a..|run|] == run[a..];
    hide LastPts, LastScr, LastFid, EndsAt;
    forall m | a <= m <= |run|
      ensures m < |run| ==> !EndsAt(c, st, fid, run + [x], a, m)
      ensures m == |run| ==> EndsAt(c, st, fid, run + [x], a, m)
    {
      EndsMore(c, st, fid, run, x, a, m);
    }
    EndsMore(c, st, fid, run, x, a, |run|);
    NothingSaid();
  }

  lemma NothingSaid()
    ensures forall v :: LastPts(v, []) == v
    ensures forall v :: LastScr(v, []) == v
    ensures Metas([]) == [] && Images([]) == []
  {
  }

  lemma NotFlushed(c: Params, st: Start, fid: bool, run: seq<Packet>, x: Packet, a: nat, s: Asm)
    requires IsOpen(c, st, fid, run, a, s) && !x.header.error && !(s.fid != x.header.fid && s.got != [])
    ensures Begun(c, st, fid, run, x, a, s)
  {
    hide LastPts, LastScr, LastFid, EndsAt;
    forall m | a <= m <= |run|
      ensures !EndsAt(c, st, fid, run + [x], a, m)
    {
      EndsMore(c, st, fid, run, x, a, m);
    }
  }

  /** The header and the image bytes of `x` are taken over; the frame is not closed yet. */
  function Take(c: Params, s: Asm, x: Packet): Asm
    requires Bounded(c, s)
  {
    HeaderInto(s, x.header).(got := s.got + Clip(x.image, c.maxFrame - |s.got|))
  }

  lemma Taken(c: Params, st: Start, seg: seq<Packet>, s: Asm, x: Packet)
    requires Bounded(c, s) && MadeOf(c, st, seg, OpenFrame(s)) && !x.header.error
    ensures MadeOf(c, st, seg + [x], OpenFrame(Take(c, s, x)))
    ensures Picture(st, seg + [x]) == Picture(st, seg) + x.image
  {
    SnocSays(seg, x);
    hide LastPts, LastScr, LastFid, Metas, Images, UpTo, Clip;
    ClipLater(st.meta + Metas(seg), x.header.meta, META_CAPACITY);
    ClipLater(Picture(st, seg), x.image, c.maxFrame);
    assert (st.meta + Metas(seg)) + x.header.meta == st.meta + (Metas(seg) + x.header.meta);
    assert (st.got + Images(seg)) + x.image == st.got + (Images(seg) + x.image);
  }

  predicate Closes(c: Params, s: Asm, x: Packet) {
    x.image != [] && (x.header.eof || |s.got| == c.maxFrame)
  }

  /** What a payload without error does, in two parts. */
  lemma EffectParts(c: Params, s: Asm, x: Packet)
    requires Bounded(c, s) && !x.header.error
    ensures var s1 := if s.fid != x.header.fid && s.got != [] then Publish(s) else s;
            var s2 := Take(c, s1, x);
            Bounded(c, s1) && Effect(c, s, x.header, x.image) == if Closes(c, s2, x) then Publish(s2) else s2
  {
    hide Publish, HeaderInto, Clip;
    OpenedBounded(c, s, x.header);
  }

  lemma ClosesIff(c: Params, st: Start, seg: seq<Packet>, s: Asm, x: Packet)
    requires MadeOf(c, st, seg + [x], OpenFrame(s)) && !x.header.error
    ensures ClosedBy(c, st, seg + [x]) <==> Closes(c, s, x)
  {
    Snoc(seg, x);
    hide LastPts, LastScr, Metas, Images;
  }

  /** The rest of payload `x`, from where Begun says, if it closes the frame. */
  lemma FinishedClosed(c: Params, st: Start, fid: bool, run: seq<Packet>, x: Packet, a: nat, s: Asm)
    requires Begun(c, st, fid, run, x, a, s) && Bounded(c, s) && Closes(c, Take(c, s, x), x)
    ensures var s2, run' := Take(c, s, x), run + [x];
            && IsFrame(c, st, fid, run', a, |run'|, OpenFrame(s2))
            && IsOpen(c, Start(0, 0, [], []), fid, run', |run'|, Publish(s2))
  {
    var s2, run', seg := Take(c, s, x), run + [x], run[a..];
    assert run'[a..] == seg + [x] && run'[a..|run'|] == seg + [x] && run'[|run'|..] == [];
    Taken(c, st, seg, s, x);
    ClosesIff(c, st, seg, s2, x);
    NotClosed(c, st, fid, run', a);
    NothingEnds(c, fid, run', |run'|);
    NothingSaid();
    SnocSays(run, x);
    hide LastPts, LastScr, LastFid, Metas, Images, EndsAt, ClosedBy, Clip, Closes;
  }

  /** And if it does not. */
  lemma FinishedOpen(c: Params, st: Start, fid: bool, run: seq<Packet>, x: Packet, a: nat, s: Asm)
    requires Begun(c, st, fid, run, x, a, s) && Bounded(c, s) && !Closes(c, Take(c, s, x), x)
    ensures IsOpen(c, st, fid, run + [x], a, Take(c, s, x))
  {
    hide *;
    BegunMeans(c, st, fid, run, x, a, s);
    var s2, run', seg := Take(c, s, x), run + [x], run[a..];
    assert run'[a..] == seg + [x];
    Taken(c, st, seg, s, x);
    ClosesIff(c, st, seg, s2, x);
    NotClosed(c, st, fid, run', a);
    SnocSays(run, x);
    StillSome(c, s, x);
    OpenIf(c, st, fid, run', a, s2);
  }

  lemma BegunMeans(c: Params, st: Start, fid: bool, run: seq<Packet>, x: Packet, a: nat, s: Asm)
    requires Begun(c, st, fid, run, x, a, s)
    ensures a <= |run| && !x.header.error && MadeOf(c, st, run[a..], OpenFrame(s))
    ensures s.got == [] ==> Picture(st, run[a..]) == []
    ensures forall m | a <= m <= |run| :: !EndsAt(c, st, fid, run + [x], a, m)
  {
    hide EndsAt, MadeOf, Picture;
  }

  lemma OpenIf(c: Params, st: Start, fid: bool, run: seq<Packet>, a: nat, s: Asm)
    requires a <= |run| && s.fid == LastFid(fid, run) && MadeOf(c, st, run[a..], OpenFrame(s))
    requires forall m | a <= m <= |run| :: !EndsAt(c, st, fid, run, a, m)
    requires s.got == [] ==> Picture(st, run[a..]) == []
    ensures IsOpen(c, st, fid, run, a, s)
  {
    hide EndsAt, MadeOf, Picture, LastFid;
  }

  lemma StillSome(c: Params, s: Asm, x: Packet)
    requires Bounded(c, s)
    ensures Take(c, s, x).fid == x.header.fid
    ensures Take(c, s, x).got == [] && !Closes(c, Take(c, s, x), x) ==> s.got == [] && x.image == []
  {
  }

  lemma Begin(c: Params, s: Asm, run: seq<Packet>, x: Packet, s': Asm, cuts: seq<nat>)
    returns (s1: Asm, cuts': seq<nat>)
    requires Cuts(c, s, run, s', cuts) && !x.header.error
    ensures s1 == if s'.fid != x.header.fid && s'.got != [] then Publish(s') else s'
    ensures Frames(c, s, run + [x], s1.published, cuts')
    ensures var k := |cuts'| - 1; Begun(c, StartOf(s, k), s.fid, run, x, cuts'[k], s1)
  {
    FramesMore(c, s, run, x, s'.published, cuts);
    s1, cuts' := s', cuts;
    var k := |cuts| - 1;
    hide IsOpen, IsFrame, Begun;
    if s'.fid != x.header.fid && s'.got != [] {
      Flushed(c, StartOf(s, k), s.fid, run, x, cuts[k], s');
      FramesPush(c, s, run + [x], s'.published, cuts, |run|, OpenFrame(s'));
      s1, cuts' := Publish(s'), cuts + [|run|];
    } else {
      NotFlushed(c, StartOf(s, k), s.fid, run, x, cuts[k], s');
    }
  }

  lemma End(c: Params, s: Asm, run: seq<Packet>, x: Packet, s1: Asm, cuts: seq<nat>) returns (cuts': seq<nat>)
    requires Frames(c, s, run + [x], s1.published, cuts) && Bounded(c, s1)
    requires var k := |cuts| - 1; Begun(c, StartOf(s, k), s.fid, run, x, cuts[k], s1)
    ensures var s2 := Take(c, s1, x); Cuts(c, s, run + [x], if Closes(c, s2, x) then Publish(s2) else s2, cuts')
  {
    var k := |cuts| - 1;
    var s2 := Take(c, s1, x);
    cuts' := cuts;
    hide IsOpen, IsFrame, Begun, Closes;
    if !Closes(c, s2, x) {
      FinishedOpen(c, StartOf(s, k), s.fid, run, x, cuts[k], s1);
    } else {
      FinishedClosed(c, StartOf(s, k), s.fid, run, x, cuts[k], s1);
      FramesPush(c, s, run + [x], s1.published, cuts, |run| + 1, OpenFrame(s2));
      cuts' := cuts + [|run| + 1];
    }
  }

  /** One payload more. */
  lemma OneMore(c: Params, s: Asm, run: seq<Packet>, x: Packet, s': Asm, cuts: seq<nat>) returns (cuts': seq<nat>)
    requires Cuts(c, s, run, s', cuts) && Bounded(c, s')
    ensures Cuts(c, s, run + [x], Effect(c, s', x.header, x.image), cuts')
  {
    if x.header.error {
      var k := |cuts| - 1;
      FramesMore(c, s, run, x, s'.published, cuts);
      OpenSkips(c, StartOf(s, k), s.fid, run, x, cuts[k], s');
      hide IsOpen, Frames;
      cuts' := cuts;
    } else {
      EffectParts(c, s', x);
      hide Effect, Cuts, Frames, Begun, Take, Swap, Closes;
      var s1;
      s1, cuts' := Begin(c, s, run, x, s', cuts);
      cuts' := End(c, s, run, x, s1, cuts');
    }
  }

  lemma NothingYet(c: Params, s: Asm)
    requires Bounded(c, s)
    ensures Cuts(c, s, [], s, [0])
  {
    var none: seq<Packet> := [];
    assert none[0..] == [];
  }

  /** For every state and every run of payloads, whatever their headers: each frame that
      is published is made of consecutive payloads. They begin where those of the frame
      before it end, and end at the first end of a frame. So its presentation time is the
      last that the device has sent since the frame before was published, or 0; its source
      clock likewise; its metadata is all that the device has sent since then, up to 4096
      bytes; and its image all the image bytes, up to dwMaxVideoFrameSize. */
  lemma {:induction false} PublishedAreSegments(c: Params, s: Asm, run: seq<Packet>) returns (cuts: seq<nat>)
    requires Bounded(c, s) && AllFit(run) && !c.isight
    ensures AllReadable(c, Layouts(run))
    ensures Cuts(c, s, run, ProcessAll(c, s, Layouts(run)), cuts)
    decreases |run|
  {
    hide Cuts, Process, Layout, Readable, Effect;
    if run == [] {
      NothingYet(c, s);
      cuts := [0];
    } else {
      var k := |run| - 1;
      var x := run[k];
      cuts := PublishedAreSegments(c, s, run[..k]);
      var before, p := Layouts(run[..k]), Layout(x.header, x.image);
      var s' := ProcessAll(c, s, before);
      assert Layouts(run) == before + [p];
      ProcessesLayout(c, s', x.header, x.image);
      ProcessAllAppend(c, s, before, [p]);
      ProcessAllCons(c, s', [p]);
      ProcessNone(c, Process(c, s', p));
      cuts := OneMore(c, s, run[..k], x, s', cuts);
      assert run == run[..k] + [x];
    }
  }
}
