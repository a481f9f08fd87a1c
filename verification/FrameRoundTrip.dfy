// Reassembly inverts packetisation: whatever way a device cuts its frames into
// payloads, the stream publishes those frames, in order.
//
// The proof has two halves. A cutter works on chunks (frame id, image bytes,
// end-of-frame bit) and is shown to give back the frames. The reassembler is
// then shown to simulate the cutter on well-formed payloads.
module FrameCutting {
  import opened Bytes

  /** What a payload says about the picture. */
  datatype Chunk<T> = Chunk(fid: bool, image: seq<T>, eof: bool)

  /** The frames closed so far, and the bytes of the open one. */
  datatype Cut<T> = Cut(fid: bool, closed: seq<seq<T>>, open: seq<T>)

  function Close<T>(v: Cut<T>): Cut<T> {
    Cut(v.fid, v.closed + [v.open], [])
  }

  function Feed<T>(max: nat, v: Cut<T>, k: Chunk<T>): Cut<T> {
    var v1 := if v.fid != k.fid && v.open != [] then Close(v) else v;
    var v2 := Cut(k.fid, v1.closed, v1.open + k.image);
    if k.image != [] && (k.eof || |v2.open| == max) then Close(v2) else v2
  }

  function FeedAll<T>(max: nat, v: Cut<T>, ks: seq<Chunk<T>>): Cut<T>
    decreases |ks|
  {
    if ks == [] then v else FeedAll(max, Feed(max, v, ks[0]), ks[1..])
  }

  /** No chunk overfills the buffer. */
  predicate Fits<T>(max: nat, v: Cut<T>, ks: seq<Chunk<T>>)
    decreases |ks|
  {
    ks == [] ||
    (|Feed(max, v, ks[0]).open| <= max
     && (v.fid == ks[0].fid ==> |v.open| + |ks[0].image| <= max)
     && |ks[0].image| <= max
     && Fits(max, Feed(max, v, ks[0]), ks[1..]))
  }

  function Image<T>(ks: seq<Chunk<T>>): seq<T> {
    if ks == [] then [] else ks[0].image + Image(ks[1..])
  }

  /** No image bytes follow a chunk that carries the end-of-frame bit. */
  ghost predicate EofLast<T>(ks: seq<Chunk<T>>) {
    ks == [] || ((ks[0].eof ==> Image(ks[1..]) == []) && EofLast(ks[1..]))
  }

  predicate OfFrame<T>(ks: seq<Chunk<T>>, fid: bool) {
    forall i | 0 <= i < |ks| :: ks[i].fid == fid
  }

  /** An end-of-frame bit comes with image bytes. */
  predicate SomeEof<T>(ks: seq<Chunk<T>>) {
    ks != [] && ((ks[0].eof && ks[0].image != []) || SomeEof(ks[1..]))
  }

  /** `ks` is one cutting of `frame` into chunks with frame id `fid`. */
  ghost predicate Carries<T>(max: nat, ks: seq<Chunk<T>>, frame: seq<T>, fid: bool) {
    OfFrame(ks, fid) && EofLast(ks) && Image(ks) == frame && 0 < |frame| <= max
  }

  /** The device tells the end of the frame: the buffer is full, or the
      end-of-frame bit comes with image bytes. */
  predicate Closed<T>(max: nat, ks: seq<Chunk<T>>) {
    |Image(ks)| == max || SomeEof(ks)
  }

  /** `groups` transmits `frames`, a group of chunks for each frame; the frame id toggles. */
  ghost predicate Transmits<T>(max: nat, groups: seq<seq<Chunk<T>>>, frames: seq<seq<T>>, first: bool)
    decreases |groups|
  {
    if groups == [] then frames == [] else
      && frames != []
      && Carries(max, groups[0], frames[0], first)
      && Transmits(max, groups[1..], frames[1..], !first)
  }

  function Held<T>(v: Cut<T>): seq<seq<T>> {
    v.closed + if v.open == [] then [] else [v.open]
  }

  lemma HeldPrefix<T>(v: Cut<T>)
    ensures v.closed == Held(v)[..|v.closed|]
    ensures |Held(v)| == |v.closed| + if v.open == [] then 0 else 1
  {
  }

  lemma {:induction false} FeedAllAppend<T>(max: nat, v: Cut<T>, a: seq<Chunk<T>>, b: seq<Chunk<T>>)
    ensures FeedAll(max, v, a + b) == FeedAll(max, FeedAll(max, v, a), b)
    ensures Fits(max, v, a) && Fits(max, FeedAll(max, v, a), b) ==> Fits(max, v, a + b)
    decreases |a|
  {
    if a == [] {
      assert a + b == b;
    } else {
      FeedAllAppend(max, Feed(max, v, a[0]), a[1..], b);
      assert (a + b)[1..] == a[1..] + b;
    }
  }

  /** After the end of a frame, its remaining chunks change nothing. */
  lemma {:induction false} Tail<T>(max: nat, v: Cut<T>, ks: seq<Chunk<T>>)
    requires OfFrame(ks, v.fid) && v.open == [] && Image(ks) == []
    ensures FeedAll(max, v, ks) == v && Fits(max, v, ks)
    decreases |ks|
  {
    if ks != [] {
      assert |ks[0].image| + |Image(ks[1..])| == 0;
      assert Feed(max, v, ks[0]) == v;
      Tail(max, v, ks[1..]);
    }
  }

  /** The rest of a frame, of which `v.open` is what came before. */
  lemma {:induction false} Rest<T>(max: nat, v: Cut<T>, ks: seq<Chunk<T>>)
    requires OfFrame(ks, v.fid) && EofLast(ks)
    requires |v.open| < max && |v.open| + |Image(ks)| <= max
    ensures Fits(max, v, ks)
    ensures var frame := v.open + Image(ks);
            FeedAll(max, v, ks) ==
            if |frame| == max || SomeEof(ks)
            then Cut(v.fid, v.closed + [frame], []) else Cut(v.fid, v.closed, frame)
    decreases |ks|
  {
    if ks == [] {
      assert v.open + [] == v.open;
    } else {
      var v1 := Feed(max, v, ks[0]);
      assert (v.open + ks[0].image) + Image(ks[1..]) == v.open + Image(ks);
      if ks[0].image != [] && (ks[0].eof || |v.open + ks[0].image| == max) {
        assert Image(ks[1..]) == [];
        assert v.open + ks[0].image == v.open + Image(ks);
        Tail(max, v1, ks[1..]);
      } else {
        Rest(max, v1, ks[1..]);
      }
    }
  }

  /** One whole frame, from a state where the frame before it may still be open. */
  lemma OneFrame<T>(max: nat, v: Cut<T>, ks: seq<Chunk<T>>, frame: seq<T>, fid: bool)
    requires Carries(max, ks, frame, fid) && (v.open == [] || v.fid != fid)
    ensures Fits(max, v, ks)
    ensures var v' := FeedAll(max, v, ks);
            && v'.fid == fid
            && Held(v') == Held(v) + [frame]
            && (v'.open == [] <==> Closed(max, ks))
  {
    var v1 := (if v.open == [] then v else Close(v)).(fid := fid);
    assert Held(v1) == Held(v) == v1.closed;
    Rest(max, v1, ks);
    assert v1.open + Image(ks) == frame;
    assert Feed(max, v, ks[0]) == Feed(max, v1, ks[0]);
  }

  /** The cutter gives back all frames; only the last can still be open, and it
      is exactly when the device never told its end. */
  lemma {:induction false} CutAll<T>(max: nat, v: Cut<T>, groups: seq<seq<Chunk<T>>>, frames: seq<seq<T>>, first: bool)
    requires Transmits(max, groups, frames, first) && (v.open == [] || v.fid != first)
    ensures Fits(max, v, Flatten(groups))
    ensures var v' := FeedAll(max, v, Flatten(groups));
            && Held(v') == Held(v) + frames
            && (groups != [] ==> (v'.open == [] <==> Closed(max, groups[|groups| - 1])))
    decreases |groups|
  {
    if groups == [] {
      assert Held(v) + [] == Held(v);
    } else {
      OneFrame(max, v, groups[0], frames[0], first);
      hide Carries, Closed, Held, Feed;
      var v1 := FeedAll(max, v, groups[0]);
      CutAll(max, v1, groups[1..], frames[1..], !first);
      FeedAllAppend(max, v, groups[0], Flatten(groups[1..]));
      assert Held(v) + [frames[0]] + frames[1..] == Held(v) + frames;
    }
  }
}

module FrameRoundTrip {
  import opened Bytes
  import opened Reassembly
  import opened FrameCutting

  /** A well-formed payload of a camera other than an iSight. */
  predicate Clean(c: Params, p: Payload) {
    !c.isight && |p| >= 2 && 2 <= p[0] <= |p| && !Err(p[1]) && Readable(c, p)
  }

  function ChunkOf(p: Payload): Chunk<byte> {
    if |p| >= 2 && p[0] <= |p| then Chunk(Fid(p[1]), p[p[0]..], Eof(p[1])) else Chunk(false, [], false)
  }

  function Chunks(ps: seq<Payload>): (ks: seq<Chunk<byte>>)
    ensures |ks| == |ps|
  {
    seq(|ps|, i requires 0 <= i < |ps| => ChunkOf(ps[i]))
  }

  function ChunkGroups(groups: seq<seq<Payload>>): (ks: seq<seq<Chunk<byte>>>)
    ensures |ks| == |groups|
  {
    seq(|groups|, i requires 0 <= i < |groups| => Chunks(groups[i]))
  }

  predicate AllClean(c: Params, ps: seq<Payload>) {
    forall i | 0 <= i < |ps| :: Clean(c, ps[i])
  }

  /** The payloads of `groups`, one group after the other, transmit `frames`: each
      frame is non-empty, fits the buffer, and is cut in any way into payloads of one
      frame id; the id toggles between frames; an end-of-frame bit is optional, and
      no image bytes of the frame follow it. */
  ghost predicate Sends(c: Params, groups: seq<seq<Payload>>, frames: seq<seq<byte>>, first: bool) {
    AllClean(c, Flatten(groups)) && Transmits(c.maxFrame, ChunkGroups(groups), frames, first)
  }

  /** The reassembler's state as the cutter sees it. */
  function View(s: Asm): Cut<byte> {
    Cut(s.fid, Datas(s.published), s.got)
  }

  lemma ViewSwap(s: Asm)
    ensures View(Swap(s)) == Close(View(s))
  {
    assert Datas(Swap(s).published) == Datas(s.published) + [s.got];
  }

  lemma ViewAddImage(c: Params, s: Asm, data: seq<byte>, eof: bool)
    requires |s.got| + |data| <= c.maxFrame
    ensures var v := Cut(s.fid, Datas(s.published), s.got + data);
            View(AddImage(c, s, data, eof)) == if data != [] && (eof || |v.open| == c.maxFrame) then Close(v) else v
  {
    assert data[..|data|] == data;
    ViewSwap(s.(got := s.got + data));
    assert data == [] ==> s.got + data == s.got;
  }

  /** Processing a well-formed payload is feeding its chunk to the cutter. */
  lemma StepSimulates(c: Params, s: Asm, p: Payload)
    requires Bounded(c, s) && Clean(c, p)
    requires s.fid == Fid(p[1]) ==> |s.got| + (|p| - p[0]) <= c.maxFrame
    requires |p| - p[0] <= c.maxFrame
    ensures View(Process(c, s, p)) == Feed(c.maxFrame, View(s), ChunkOf(p))
  {
    var s1 := if Flushes(c, s, p) then Swap(s) else s;
    ViewSwap(s);
    ViewAddImage(c, TakeHeader(c, s1, p), p[p[0]..], Eof(p[1]));
  }

  lemma {:induction false} Simulates(c: Params, s: Asm, ps: seq<Payload>)
    requires Bounded(c, s) && AllClean(c, ps)
    requires Fits(c.maxFrame, View(s), Chunks(ps))
    ensures AllReadable(c, ps)
    ensures View(ProcessAll(c, s, ps)) == FeedAll(c.maxFrame, View(s), Chunks(ps))
    decreases |ps|
  {
    if ps != [] {
      assert Chunks(ps)[1..] == Chunks(ps[1..]);
      ProcessBounded(c, s, ps[0]);
      StepSimulates(c, s, ps[0]);
      Simulates(c, Process(c, s, ps[0]), ps[1..]);
    }
  }

  lemma {:induction false} FlattenChunks(groups: seq<seq<Payload>>)
    ensures Flatten(ChunkGroups(groups)) == Chunks(Flatten(groups))
  {
    if groups != [] {
      FlattenChunks(groups[1..]);
      assert ChunkGroups(groups)[1..] == ChunkGroups(groups[1..]);
    }
  }

  lemma FreshView()
    ensures View(FRESH) == Cut(false, [], []) && Held(View(FRESH)) == []
  {
  }

  /** The reassembler holds exactly the device's frames, in order. */
  lemma Reassembles(c: Params, groups: seq<seq<Payload>>, frames: seq<seq<byte>>, first: bool)
    requires Sends(c, groups, frames, first)
    ensures AllReadable(c, Flatten(groups))
    ensures var s := ProcessAll(c, FRESH, Flatten(groups));
            && Held(View(s)) == frames
            && (groups != [] ==> (s.got == [] <==> Closed(c.maxFrame, Chunks(groups[|groups| - 1]))))
  {
    hide ProcessAll, FeedAll, Fits, Transmits, Closed, Chunks, AllClean, AllReadable, Clean;
    FreshView();
    FlattenChunks(groups);
    CutAll(c.maxFrame, View(FRESH), ChunkGroups(groups), frames, first);
    Simulates(c, FRESH, Flatten(groups));
    hide Sends, View, Held;
    assert [] + frames == frames;
  }

  /** The round trip on a freshly started stream: frames numbered 1, 2, 3, ...
      are exactly the device's, and the last is withheld if and only if the
      device never told its end. */
  lemma RoundTrip(c: Params, groups: seq<seq<Payload>>, frames: seq<seq<byte>>, first: bool)
    requires Sends(c, groups, frames, first) && |frames| < TWO_TO_32
    ensures AllReadable(c, Flatten(groups))
    ensures var s := ProcessAll(c, FRESH, Flatten(groups));
            && Datas(s.published) <= frames
            && |frames| == |s.published| +
                 (if groups == [] || Closed(c.maxFrame, Chunks(groups[|groups| - 1])) then 0 else 1)
            && forall i | 0 <= i < |s.published| :: s.published[i].seqNo == i + 1
  {
    Reassembles(c, groups, frames, first);
    hide ProcessAll, Closed, Sends, Chunks;
    NumberingKept(c, FRESH, Flatten(groups));
    var s := ProcessAll(c, FRESH, Flatten(groups));
    HeldPrefix(View(s));
    SmallNumbers(s);
    if groups == [] {
      ProcessNone(c, FRESH);
    }
  }

  lemma SmallNumbers(s: Asm)
    requires Numbered(s) && |s.published| < TWO_TO_32
    ensures forall i | 0 <= i < |s.published| :: s.published[i].seqNo == i + 1
  {
  }

  /** At every moment of the transmission, what is published is a prefix of the device's frames. */
  lemma PublishedPrefix(c: Params, ps: seq<Payload>, groups: seq<seq<Payload>>, frames: seq<seq<byte>>, first: bool)
    requires Sends(c, groups, frames, first) && |frames| < TWO_TO_32
    requires ps <= Flatten(groups)
    ensures AllReadable(c, ps)
    ensures Datas(ProcessAll(c, FRESH, ps).published) <= frames
  {
    RoundTrip(c, groups, frames, first);
    var all := Flatten(groups);
    assert ps + all[|ps|..] == all;
    ProcessAllAppend(c, FRESH, ps, all[|ps|..]);
    hide ProcessAll;
    var part, whole := ProcessAll(c, FRESH, ps), ProcessAll(c, FRESH, all);
    assert part.published <= whole.published;
    assert Datas(part.published) <= Datas(whole.published);
  }
}
