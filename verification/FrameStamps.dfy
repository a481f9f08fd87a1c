// The round trip with time stamps: what a frame of a well-formed transmission is
// published with, besides its image and its number.
module FrameStamps {
  import opened Bytes
  import opened Reassembly
  import opened PayloadHeaders
  import opened FrameSegments
  import FrameCutting
  import FrameRoundTrip

  const NOTHING := Start(0, 0, [], [])

  /** Behind how many of the payloads of `g`, from the `i`th on, the frame is closed; |g| if never. */
  function EndFrom(c: Params, g: seq<Packet>, i: nat): (m: nat)
    requires i <= |g|
    ensures i <= m <= |g|
    ensures m < |g| ==> ClosedBy(c, NOTHING, g[..m])
    ensures forall j | i <= j < m :: !ClosedBy(c, NOTHING, g[..j])
    decreases |g| - i
  {
    if i == |g| || ClosedBy(c, NOTHING, g[..i]) then i else EndFrom(c, g, i + 1)
  }

  /** The payloads of a frame up to the one that closes it, and those that come after. */
  function Lead(c: Params, g: seq<Packet>): seq<Packet> {
    g[..EndFrom(c, g, 0)]
  }

  function Trail(c: Params, g: seq<Packet>): seq<Packet> {
    g[EndFrom(c, g, 0)..]
  }

  /** The payloads whose headers count for frame `i`. */
  function PayloadsOf(c: Params, groups: seq<seq<Packet>>, i: nat): seq<Packet>
    requires i < |groups|
  {
    (if i == 0 then [] else Trail(c, groups[i - 1])) + Lead(c, groups[i])
  }

  predicate NoError(g: seq<Packet>) {
    forall i | 0 <= i < |g| :: !g[i].header.error
  }

  predicate NoImage(g: seq<Packet>) {
    forall i | 0 <= i < |g| :: g[i].image == []
  }

  /** A group of payloads of one frame. */
  ghost predicate OneFrame(c: Params, g: seq<Packet>, fid: bool) {
    && NoError(g) && (forall i | 0 <= i < |g| :: g[i].header.fid == fid)
    && Images(g) != [] && NoImage(Trail(c, g))
  }

  // ----- segments without image bytes -----

  lemma ImagesSnoc(seg: seq<Packet>, x: Packet)
    ensures Images(seg + [x]) == Images(seg) + if x.header.error then [] else x.image
  {
    SnocSays(seg, x);
  }

  lemma {:induction false} ImagesAppend(a: seq<Packet>, b: seq<Packet>)
    ensures Images(a + b) == Images(a) + Images(b)
  {
    hide *;
    if b == [] {
      NothingSaid();
      assert a + b == a;
    } else {
      var k := |b| - 1;
      var front, x := b[..k], b[k];
      ImagesAppend(a, front);
      ImagesSnoc(a + front, x);
      ImagesSnoc(front, x);
      assert b == front + [x];
      Regroup(a, front, [x]);
    }
  }

  lemma {:induction false} NoImages(t: seq<Packet>)
    requires NoImage(t)
    ensures Images(t) == []
  {
    if t != [] {
      NoImages(t[..|t| - 1]);
    }
  }

  /** Payloads without image bytes neither close a frame nor keep another from closing it. */
  lemma TrailFirst(c: Params, t: seq<Packet>, g: seq<Packet>)
    requires NoImage(t)
    ensures g == [] ==> !ClosedBy(c, NOTHING, t + g)
    ensures g != [] ==> (ClosedBy(c, NOTHING, t + g) <==> ClosedBy(c, NOTHING, g))
    ensures Picture(NOTHING, t + g) == Images(g)
  {
    hide Images;
    ImagesAppend(t, g);
    NoImages(t);
    assert [] + Images(g) == Images(g);
    if g == [] {
      assert t + g == t;
    } else {
      assert (t + g)[|t + g| - 1] == g[|g| - 1];
    }
  }

  lemma FidOfLast(fid: bool, run: seq<Packet>)
    requires run != [] && !run[|run| - 1].header.error
    ensures LastFid(fid, run) == run[|run| - 1].header.fid
  {
  }

  // ----- where a frame of a transmission ends -----

  /** Inside `run`, from `a` on, come payloads without image, then the group `g`. */
  ghost predicate Stands(run: seq<Packet>, a: nat, t: seq<Packet>, g: seq<Packet>) {
    && a + |t| + |g| <= |run|
    && run[a..a + |t| + |g|] == t + g
  }

  lemma Inside(run: seq<Packet>, a: nat, t: seq<Packet>, g: seq<Packet>, m: nat)
    requires Stands(run, a, t, g) && a <= m <= a + |t| + |g|
    ensures m <= a + |t| ==> run[a..m] == t[..m - a] + []
    ensures m >= a + |t| ==> run[a..m] == t + g[..m - a - |t|]
    ensures forall j | 0 <= j < |g| :: run[a + |t| + j] == g[j]
  {
    var part := t + g;
    assert run[a..m] == part[..m - a];
    forall j | 0 <= j < |g|
      ensures run[a + |t| + j] == g[j]
    {
      assert part[|t| + j] == g[j];
    }
  }

  lemma NoEndBefore(c: Params, run: seq<Packet>, a: nat, t: seq<Packet>, g: seq<Packet>, m: nat)
    requires Stands(run, a, t, g) && NoImage(t) && a <= m <= a + |t|
    ensures !EndsAt(c, NOTHING, false, run, a, m)
  {
    Inside(run, a, t, g, m);
    TrailFirst(c, t[..m - a], []);
    assert Images([]) == [];
    hide Images, LastFid, ClosedBy, Picture, Stands;
  }

  /** Inside the group, and right behind it. */
  lemma EndInside(c: Params, run: seq<Packet>, a: nat, t: seq<Packet>, g: seq<Packet>, fid: bool, j: nat)
    requires Stands(run, a, t, g) && NoImage(t) && OneFrame(c, g, fid) && 0 < j <= |g|
    requires var b := a + |t| + |g|; b < |run| ==> !run[b].header.error && run[b].header.fid != fid
    ensures var m := a + |t| + j;
            EndsAt(c, NOTHING, false, run, a, m) <==> ClosedBy(c, NOTHING, g[..j]) || (j == |g| && m < |run|)
  {
    var m := a + |t| + j;
    Inside(run, a, t, g, m);
    TrailFirst(c, t, g[..j]);
    assert run[..m][m - 1] == run[a + |t| + (j - 1)] == g[j - 1];
    FidOfLast(false, run[..m]);
    if j == |g| {
      assert g[..j] == g;
    } else {
      assert run[a + |t| + j] == g[j];
    }
    hide Images, LastFid, ClosedBy, Picture, Stands, NoImage;
  }

  lemma StandsFits(run: seq<Packet>, a: nat, t: seq<Packet>, g: seq<Packet>)
    requires Stands(run, a, t, g)
    ensures a + |t| + |g| <= |run|
  {
  }

  lemma HeadOf(c: Params, g: seq<Packet>, fid: bool)
    requires OneFrame(c, g, fid)
    ensures g != [] && !g[0].header.error && g[0].header.fid == fid
  {
  }

  lemma EndIsFirst(c: Params, g: seq<Packet>)
    ensures var e := EndFrom(c, g, 0);
            && e <= |g| && (g != [] ==> e > 0) && (e < |g| ==> ClosedBy(c, NOTHING, g[..e]))
            && forall j | 0 <= j < e :: !ClosedBy(c, NOTHING, g[..j])
  {
  }

  /** The frame of group `g` does not end before the payload that closes it, and it ends
      there, unless it is never closed and nothing comes behind. */
  lemma GroupEnds(c: Params, run: seq<Packet>, a: nat, t: seq<Packet>, g: seq<Packet>, fid: bool, m: nat)
    requires Stands(run, a, t, g) && NoImage(t) && OneFrame(c, g, fid)
    requires var b := a + |t| + |g|; b < |run| ==> !run[b].header.error && run[b].header.fid != fid
    requires a <= m <= a + |t| + EndFrom(c, g, 0)
    ensures var e := a + |t| + EndFrom(c, g, 0);
            && (m < e ==> !EndsAt(c, NOTHING, false, run, a, m))
            && (m == e < |run| ==> EndsAt(c, NOTHING, false, run, a, m))
  {
    var j := m - a - |t|;
    hide *;
    StandsFits(run, a, t, g);
    EndIsFirst(c, g);
    HeadOf(c, g, fid);
    if j <= 0 {
      NoEndBefore(c, run, a, t, g, m);
    } else {
      EndInside(c, run, a, t, g, fid, j);
    }
  }

  // ----- the groups of a transmission -----

  function FidAt(first: bool, i: nat): bool {
    if i % 2 == 0 then first else !first
  }

  ghost predicate Alternating(c: Params, groups: seq<seq<Packet>>, first: bool) {
    forall i | 0 <= i < |groups| :: OneFrame(c, groups[i], FidAt(first, i))
  }

  /** Where group `i` begins. */
  function Base(groups: seq<seq<Packet>>, i: nat): nat
    requires i <= |groups|
  {
    |Flatten(groups[..i])|
  }

  lemma GroupAt(groups: seq<seq<Packet>>, i: nat)
    requires i < |groups|
    ensures Base(groups, i + 1) == Base(groups, i) + |groups[i]| <= |Flatten(groups)|
    ensures Flatten(groups)[Base(groups, i)..Base(groups, i + 1)] == groups[i]
    ensures i + 1 == |groups| ==> Base(groups, i + 1) == |Flatten(groups)|
  {
    var before, behind := groups[..i], groups[i + 1..];
    FlattenSnoc(before, groups[i]);
    FlattenAppend(before + [groups[i]], behind);
    assert groups[..i + 1] == before + [groups[i]];
    assert groups == (before + [groups[i]]) + behind;
    assert i + 1 == |groups| ==> behind == [];
  }

  /** Where frame `i` begins: behind the payload that closes the frame before it. */
  function BeginOf(c: Params, groups: seq<seq<Packet>>, i: nat): nat
    requires i <= |groups|
  {
    if i == 0 then 0 else Base(groups, i - 1) + EndFrom(c, groups[i - 1], 0)
  }

  function TrailBefore(c: Params, groups: seq<seq<Packet>>, i: nat): seq<Packet>
    requires i <= |groups|
  {
    if i == 0 then [] else Trail(c, groups[i - 1])
  }

  lemma BaseNone(groups: seq<seq<Packet>>)
    ensures Base(groups, 0) == 0
  {
    assert groups[..0] == [];
  }

  lemma SliceJoin<E>(run: seq<E>, a: nat, b: nat, d: nat, m: nat)
    requires a + m <= b <= d <= |run|
    ensures run[a + m..d] == run[a..b][m..] + run[b..d]
  {
  }

  lemma GroupStands(c: Params, groups: seq<seq<Packet>>, i: nat)
    requires i < |groups|
    ensures Stands(Flatten(groups), BeginOf(c, groups, i), TrailBefore(c, groups, i), groups[i])
    ensures BeginOf(c, groups, i) + |TrailBefore(c, groups, i)| == Base(groups, i)
  {
    hide Flatten, Base, EndFrom;
    var run, a, b := Flatten(groups), Base(groups, i), Base(groups, i + 1);
    GroupAt(groups, i);
    if i == 0 {
      BaseNone(groups);
    } else {
      GroupAt(groups, i - 1);
      SliceJoin(run, Base(groups, i - 1), a, b, EndFrom(c, groups[i - 1], 0));
    }
  }

  /** Behind a group comes one of the other frame id, or nothing. */
  lemma FlipsBehind(c: Params, groups: seq<seq<Packet>>, first: bool, i: nat)
    requires i < |groups| && Alternating(c, groups, first)
    ensures var run, b := Flatten(groups), Base(groups, i + 1);
            if i + 1 == |groups| then b == |run|
            else b < |run| && !run[b].header.error && run[b].header.fid != FidAt(first, i)
  {
    GroupAt(groups, i);
    if i + 1 < |groups| {
      GroupAt(groups, i + 1);
      var g, run, b, d := groups[i + 1], Flatten(groups), Base(groups, i + 1), Base(groups, i + 2);
      HeadOf(c, g, FidAt(first, i + 1));
      hide *;
      assert run[b..d][0] == g[0];
      Parity(first, i);
    }
  }

  lemma Parity(first: bool, i: nat)
    ensures FidAt(first, i + 1) != FidAt(first, i)
  {
  }

  lemma NoImageBefore(c: Params, groups: seq<seq<Packet>>, first: bool, i: nat)
    requires i < |groups| && Alternating(c, groups, first)
    ensures NoImage(TrailBefore(c, groups, i))
  {
    assert i > 0 ==> OneFrame(c, groups[i - 1], FidAt(first, i - 1));
    hide Images, EndFrom;
  }

  /** Frame `i` of a transmission begins where said, and ends where the next begins. */
  lemma FrameEnds(c: Params, groups: seq<seq<Packet>>, first: bool, i: nat, b: nat)
    requires i < |groups| && Alternating(c, groups, first)
    requires BeginOf(c, groups, i) <= b <= |Flatten(groups)|
    requires EndsAt(c, NOTHING, false, Flatten(groups), BeginOf(c, groups, i), b)
    requires forall m | BeginOf(c, groups, i) <= m < b ::
               !EndsAt(c, NOTHING, false, Flatten(groups), BeginOf(c, groups, i), m)
    ensures b == BeginOf(c, groups, i + 1)
    ensures Flatten(groups)[BeginOf(c, groups, i)..b] == PayloadsOf(c, groups, i)
  {
    hide *;
    var run, a, t, g := Flatten(groups), BeginOf(c, groups, i), TrailBefore(c, groups, i), groups[i];
    var e := BeginOf(c, groups, i + 1);
    GroupStands(c, groups, i);
    NoImageBefore(c, groups, first, i);
    FlipsBehind(c, groups, first, i);
    GroupAt(groups, i);
    GroupOf(c, groups, first, i);
    StandsFits(run, a, t, g);
    Inside(run, a, t, g, e);
    if b < e {
      GroupEnds(c, run, a, t, g, FidAt(first, i), b);
    } else {
      GroupEnds(c, run, a, t, g, FidAt(first, i), e);
    }
  }

  lemma GroupOf(c: Params, groups: seq<seq<Packet>>, first: bool, i: nat)
    requires i < |groups| && Alternating(c, groups, first)
    ensures OneFrame(c, groups[i], FidAt(first, i))
    ensures BeginOf(c, groups, i + 1) == Base(groups, i) + EndFrom(c, groups[i], 0)
    ensures PayloadsOf(c, groups, i) == TrailBefore(c, groups, i) + groups[i][..EndFrom(c, groups[i], 0)]
  {
    hide Base, EndFrom, OneFrame;
  }

  lemma FrameJ(c: Params, run: seq<Packet>, published: seq<Frame>, cuts: seq<nat>, j: nat)
    requires Frames(c, FRESH, run, published, cuts) && j < |published|
    ensures |cuts| == |published| + 1 && IsFrame(c, NOTHING, false, run, cuts[j], cuts[j + 1], published[j])
  {
    hide IsFrame;
    var f := published[|FRESH.published| + j];
    assert IsFrame(c, StartOf(FRESH, j), FRESH.fid, run, cuts[j], cuts[j + 1], f);
  }

  lemma CutNext(c: Params, groups: seq<seq<Packet>>, first: bool, i: nat, a: nat, b: nat, f: Frame)
    requires Alternating(c, groups, first) && i < |groups|
    requires IsFrame(c, NOTHING, false, Flatten(groups), a, b, f) && a == BeginOf(c, groups, i)
    ensures b == BeginOf(c, groups, i + 1) && MadeOf(c, NOTHING, PayloadsOf(c, groups, i), f)
  {
    hide Alternating, MadeOf, EndsAt, PayloadsOf, BeginOf, Flatten;
    FrameEnds(c, groups, first, i, b);
  }

  lemma FirstCut(c: Params, groups: seq<seq<Packet>>, published: seq<Frame>, cuts: seq<nat>)
    requires Frames(c, FRESH, Flatten(groups), published, cuts)
    ensures |cuts| == |published| + 1 && cuts[0] == BeginOf(c, groups, 0)
  {
    hide IsFrame, Flatten;
  }

  /** So if the frames of a run of such groups are published, frame `i` is made of PayloadsOf. */
  lemma {:induction false} CutsAreBegins(c: Params, groups: seq<seq<Packet>>, first: bool, published: seq<Frame>,
                                         cuts: seq<nat>, i: nat)
    requires Alternating(c, groups, first) && |published| <= |groups|
    requires Frames(c, FRESH, Flatten(groups), published, cuts) && i <= |published|
    ensures |cuts| == |published| + 1 && cuts[i] == BeginOf(c, groups, i)
    ensures forall j | 0 <= j < i :: MadeOf(c, NOTHING, PayloadsOf(c, groups, j), published[j])
  {
    hide *;
    FirstCut(c, groups, published, cuts);
    if i > 0 {
      CutsAreBegins(c, groups, first, published, cuts, i - 1);
      FrameJ(c, Flatten(groups), published, cuts, i - 1);
      CutNext(c, groups, first, i - 1, cuts[i - 1], cuts[i], published[i - 1]);
    }
  }

  // ----- the round trip -----

  function LayoutGroups(groups: seq<seq<Packet>>): (ps: seq<seq<Payload>>)
    requires forall i | 0 <= i < |groups| :: AllFit(groups[i])
    ensures |ps| == |groups|
  {
    seq(|groups|, i requires 0 <= i < |groups| => Layouts(groups[i]))
  }

  lemma {:induction false} FlattenLayouts(groups: seq<seq<Packet>>)
    requires forall i | 0 <= i < |groups| :: AllFit(groups[i])
    ensures AllFit(Flatten(groups)) && Flatten(LayoutGroups(groups)) == Layouts(Flatten(groups))
  {
    if groups != [] {
      FlattenLayouts(groups[1..]);
      assert LayoutGroups(groups)[1..] == LayoutGroups(groups[1..]);
      hide Layout, Fits;
      var a, b := groups[0], Flatten(groups[1..]);
      assert Layouts(a + b) == Layouts(a) + Layouts(b);
    }
  }

  /** What the cutter sees of a payload. */
  lemma ChunkIs(c: Params, x: Packet)
    requires Fits(x.header) && !c.isight
    ensures FrameRoundTrip.ChunkOf(Layout(x.header, x.image))
         == FrameCutting.Chunk(x.header.fid, x.image, x.header.eof)
    ensures FrameRoundTrip.Clean(c, Layout(x.header, x.image)) ==> !x.header.error
  {
    HeaderFound(c, x.header, x.image);
    InfoBits(x.header);
    hide Layout, Info, Bit, VariableOffset, Readable;
  }

  ghost predicate Seen(g: seq<Packet>, ks: seq<FrameCutting.Chunk<byte>>) {
    && |ks| == |g|
    && forall i | 0 <= i < |g| :: ks[i] == FrameCutting.Chunk(g[i].header.fid, g[i].image, g[i].header.eof)
  }

  lemma {:induction false} ImageSeen(g: seq<Packet>, ks: seq<FrameCutting.Chunk<byte>>)
    requires Seen(g, ks) && NoError(g)
    ensures FrameCutting.Image(ks) == Images(g)
  {
    if g != [] {
      ImageSeen(g[1..], ks[1..]);
      ImagesAppend([g[0]], g[1..]);
      assert [g[0]] + g[1..] == g;
      OneImage(g[0]);
    }
  }

  lemma OneImage(x: Packet)
    requires !x.header.error
    ensures Images([x]) == x.image
  {
    assert [x][..0] == [];
  }

  lemma {:induction false} NothingAfterEof(ks: seq<FrameCutting.Chunk<byte>>, i: nat)
    requires FrameCutting.EofLast(ks) && i < |ks| && ks[i].eof
    ensures FrameCutting.Image(ks[i + 1..]) == []
  {
    if i > 0 {
      NothingAfterEof(ks[1..], i - 1);
      assert ks[1..][i..] == ks[i + 1..];
    }
  }

  lemma {:induction false} NoneLeft(t: seq<Packet>)
    requires NoError(t) && Images(t) == []
    ensures NoImage(t)
  {
    if t != [] {
      var k := |t| - 1;
      assert |Images(t)| == |Images(t[..k])| + |t[k].image|;
      NoneLeft(t[..k]);
    }
  }

  lemma SeenBehind(g: seq<Packet>, ks: seq<FrameCutting.Chunk<byte>>, m: nat)
    requires Seen(g, ks) && NoError(g) && 0 < m < |g|
    ensures Seen(g[m..], ks[m..]) && NoError(g[m..]) && |ks| == |g| && ks[m - 1].eof == g[m - 1].header.eof
  {
  }

  lemma ClosedByMeans(c: Params, g: seq<Packet>, m: nat)
    requires 0 < m <= |g| && ClosedBy(c, NOTHING, g[..m])
    ensures g[m - 1].header.eof || |Images(g[..m])| >= c.maxFrame
  {
    hide Images;
  }

  lemma ImagesSplit(g: seq<Packet>, m: nat)
    requires m <= |g|
    ensures |Images(g)| == |Images(g[..m])| + |Images(g[m..])|
  {
    hide Images;
    ImagesAppend(g[..m], g[m..]);
    assert g[..m] + g[m..] == g;
  }

  /** Behind the payload that closes a frame come no more image bytes. */
  lemma NothingAfterEnd(c: Params, g: seq<Packet>, ks: seq<FrameCutting.Chunk<byte>>, m: nat)
    requires Seen(g, ks) && NoError(g) && FrameCutting.EofLast(ks) && |Images(g)| <= c.maxFrame
    requires 0 < m < |g| && ClosedBy(c, NOTHING, g[..m])
    ensures NoImage(g[m..])
  {
    hide *;
    SeenBehind(g, ks, m);
    ClosedByMeans(c, g, m);
    if g[m - 1].header.eof {
      ImageSeen(g[m..], ks[m..]);
      NothingAfterEof(ks, m - 1);
    } else {
      ImagesSplit(g, m);
    }
    NoneLeft(g[m..]);
  }

  /** The payloads that carry a frame are such a group. */
  lemma CarriesOneFrame(c: Params, g: seq<Packet>, ks: seq<FrameCutting.Chunk<byte>>, frame: seq<byte>, fid: bool)
    requires Seen(g, ks) && NoError(g) && FrameCutting.Carries(c.maxFrame, ks, frame, fid)
    ensures OneFrame(c, g, fid)
  {
    ImageSeen(g, ks);
    var m := EndFrom(c, g, 0);
    hide FrameCutting.Image, FrameCutting.EofLast, Images, EndFrom;
    assert Trail(c, g) == g[m..];
    if m < |g| {
      EndIsFirst(c, g);
      NothingAfterEnd(c, g, ks, m);
    }
    hide ClosedBy, Trail;
    assert forall i | 0 <= i < |g| :: g[i].header.fid == ks[i].fid;
  }

  lemma GroupSeen(c: Params, g: seq<Packet>)
    requires AllFit(g) && !c.isight
    ensures Seen(g, FrameRoundTrip.Chunks(Layouts(g)))
    ensures FrameRoundTrip.AllClean(c, Layouts(g)) ==> NoError(g)
  {
    forall i | 0 <= i < |g|
      ensures FrameRoundTrip.ChunkOf(Layouts(g)[i])
           == FrameCutting.Chunk(g[i].header.fid, g[i].image, g[i].header.eof)
      ensures FrameRoundTrip.Clean(c, Layouts(g)[i]) ==> !g[i].header.error
    {
      ChunkIs(c, g[i]);
    }
    hide FrameRoundTrip.ChunkOf, Layout, FrameRoundTrip.Clean;
  }

  lemma SendsFirst(c: Params, groups: seq<seq<Packet>>, frames: seq<seq<byte>>, first: bool)
    requires !c.isight && groups != [] && forall i | 0 <= i < |groups| :: AllFit(groups[i])
    requires FrameRoundTrip.AllClean(c, Flatten(LayoutGroups(groups)))
    requires FrameCutting.Transmits(c.maxFrame, FrameRoundTrip.ChunkGroups(LayoutGroups(groups)), frames, first)
    ensures frames != [] && OneFrame(c, groups[0], first)
    ensures FrameRoundTrip.AllClean(c, Flatten(LayoutGroups(groups[1..])))
    ensures FrameCutting.Transmits(c.maxFrame, FrameRoundTrip.ChunkGroups(LayoutGroups(groups[1..])), frames[1..],
                                   !first)
  {
    var g, all := groups[0], LayoutGroups(groups);
    var chunks := FrameRoundTrip.ChunkGroups(all);
    assert all[1..] == LayoutGroups(groups[1..]) && all[0] == Layouts(g);
    assert chunks[0] == FrameRoundTrip.Chunks(Layouts(g));
    assert chunks[1..] == FrameRoundTrip.ChunkGroups(all[1..]);
    assert FrameCutting.Carries(c.maxFrame, chunks[0], frames[0], first);
    hide FrameRoundTrip.Chunks, FrameRoundTrip.ChunkGroups, FrameRoundTrip.AllClean, FrameCutting.Carries, Seen,
         NoError, OneFrame, Layouts, LayoutGroups;
    GroupSeen(c, g);
    CleanParts(c, Layouts(g), Flatten(all[1..]));
    CarriesOneFrame(c, g, chunks[0], frames[0], first);
  }

  lemma {:induction false} SendsAlternates(c: Params, groups: seq<seq<Packet>>, frames: seq<seq<byte>>, first: bool)
    requires !c.isight && forall i | 0 <= i < |groups| :: AllFit(groups[i])
    requires FrameRoundTrip.AllClean(c, Flatten(LayoutGroups(groups)))
    requires FrameCutting.Transmits(c.maxFrame, FrameRoundTrip.ChunkGroups(LayoutGroups(groups)), frames, first)
    ensures Alternating(c, groups, first) && |groups| == |frames|
    decreases |groups|
  {
    if groups == [] {
      assert FrameRoundTrip.ChunkGroups(LayoutGroups(groups)) == [];
    } else {
      hide *;
      SendsFirst(c, groups, frames, first);
      SendsAlternates(c, groups[1..], frames[1..], !first);
      AlternatesOn(c, groups, first);
    }
  }

  lemma AlternatesOn(c: Params, groups: seq<seq<Packet>>, first: bool)
    requires groups != [] && OneFrame(c, groups[0], first) && Alternating(c, groups[1..], !first)
    ensures Alternating(c, groups, first)
  {
    hide OneFrame;
    forall i | 0 <= i < |groups|
      ensures OneFrame(c, groups[i], FidAt(first, i))
    {
      if i > 0 {
        assert OneFrame(c, groups[1..][i - 1], FidAt(!first, i - 1));
      }
    }
  }

  lemma CleanParts(c: Params, a: seq<Payload>, b: seq<Payload>)
    requires FrameRoundTrip.AllClean(c, a + b)
    ensures FrameRoundTrip.AllClean(c, a) && FrameRoundTrip.AllClean(c, b)
  {
    hide FrameRoundTrip.Clean;
    assert forall i | 0 <= i < |a| :: a[i] == (a + b)[i];
    assert forall i | 0 <= i < |b| :: b[i] == (a + b)[|a| + i];
  }

  /** `f` has what the headers of `said` say: the last presentation time and source clock,
      and all metadata. */
  predicate StampedBy(said: seq<Packet>, f: Frame) {
    f.pts == LastPts(0, said) && f.scr == LastScr(0, said) && f.meta == UpTo(Metas(said), META_CAPACITY)
  }

  /** The round trip, time stamps and metadata included: a published frame is the frame
      sent at its position, has its number, and has what the headers of its payloads say:
      of the payloads behind the one that closed the frame before it, up to the one that
      closes it. */
  lemma StampedRoundTrip(c: Params, groups: seq<seq<Packet>>, frames: seq<seq<byte>>, first: bool)
    requires !c.isight && forall i | 0 <= i < |groups| :: AllFit(groups[i])
    requires FrameRoundTrip.Sends(c, LayoutGroups(groups), frames, first) && |frames| < TWO_TO_32
    ensures AllReadable(c, Flatten(LayoutGroups(groups)))
    ensures var published := ProcessAll(c, FRESH, Flatten(LayoutGroups(groups))).published;
            && |groups| - 1 <= |published| <= |groups| == |frames|
            && forall i | 0 <= i < |published| ::
                 && published[i].data == frames[i] && published[i].seqNo == i + 1
                 && StampedBy(PayloadsOf(c, groups, i), published[i])
  {
    hide *;
    var run, ps := Flatten(groups), Flatten(LayoutGroups(groups));
    FlattenLayouts(groups);
    FreshBounded(c);
    FrameRoundTrip.RoundTrip(c, LayoutGroups(groups), frames, first);
    SendsMeans(c, groups, frames, first);
    SendsAlternates(c, groups, frames, first);
    var cuts := PublishedAreSegments(c, FRESH, run);
    var published := ProcessAll(c, FRESH, ps).published;
    CutsMeans(c, FRESH, run, ProcessAll(c, FRESH, ps), cuts);
    CutsAreBegins(c, groups, first, published, cuts, |published|);
    forall i | 0 <= i < |published|
      ensures published[i].data == frames[i]
      ensures StampedBy(PayloadsOf(c, groups, i), published[i])
    {
      DatasAt(published, i);
      assert Datas(published)[i] == frames[i];
      Stamped(c, PayloadsOf(c, groups, i), published[i]);
    }
  }

  lemma FreshBounded(c: Params)
    ensures Bounded(c, FRESH) && AllReadable(c, [])
  {
  }

  lemma DatasAt(fs: seq<Frame>, i: nat)
    requires i < |fs|
    ensures Datas(fs)[i] == fs[i].data
  {
  }

  lemma SendsMeans(c: Params, groups: seq<seq<Packet>>, frames: seq<seq<byte>>, first: bool)
    requires forall i | 0 <= i < |groups| :: AllFit(groups[i])
    requires FrameRoundTrip.Sends(c, LayoutGroups(groups), frames, first)
    ensures FrameRoundTrip.AllClean(c, Flatten(LayoutGroups(groups)))
    ensures FrameCutting.Transmits(c.maxFrame, FrameRoundTrip.ChunkGroups(LayoutGroups(groups)), frames, first)
  {
  }

  lemma CutsMeans(c: Params, s: Asm, run: seq<Packet>, s': Asm, cuts: seq<nat>)
    requires Cuts(c, s, run, s', cuts)
    ensures Frames(c, s, run, s'.published, cuts)
  {
  }

  lemma Stamped(c: Params, said: seq<Packet>, f: Frame)
    requires MadeOf(c, NOTHING, said, f)
    ensures StampedBy(said, f)
  {
    assert NOTHING.meta + Metas(said) == Metas(said);
  }

  /** If the last payload of every frame has image bytes, frames do not share payloads:
      those whose headers count for a frame are exactly those sent for it. */
  lemma OwnPayloads(c: Params, groups: seq<seq<Packet>>, first: bool, i: nat)
    requires Alternating(c, groups, first) && i < |groups|
    requires forall j | 0 <= j < |groups| && groups[j] != [] :: groups[j][|groups[j]| - 1].image != []
    ensures PayloadsOf(c, groups, i) == groups[i]
  {
    forall j | 0 <= j < |groups|
      ensures EndFrom(c, groups[j], 0) == |groups[j]|
    {
      GroupOf(c, groups, first, j);
      WholeGroup(c, groups[j], FidAt(first, j));
    }
  }

  lemma WholeGroup(c: Params, g: seq<Packet>, fid: bool)
    requires OneFrame(c, g, fid) && (g != [] ==> g[|g| - 1].image != [])
    ensures EndFrom(c, g, 0) == |g|
  {
    hide Images;
  }
}
