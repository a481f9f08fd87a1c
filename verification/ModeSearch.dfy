// The search for a video mode and its negotiation (stream.c,
// uvc_get_stream_ctrl_format_size and uvc_probe_stream_ctrl).
module ModeSearch {
  import opened Bytes
  import opened Descriptors
  import opened FrameFormats
  import opened StreamControl

  // ----- frame rates -----

  type i32 = x: int | -0x8000_0000 <= x < 0x8000_0000

  const TEN_MILLION: nat := 10_000_000

  /** Conversion to an unsigned 32-bit integer. */
  function ToU32(x: int): u32 {
    x % TWO_TO_32
  }

  /** Division that truncates toward zero. */
  function Quotient(a: nat, b: int): int
    requires b != 0
  {
    if b > 0 then a / b else -(a / -b)
  }

  /** Frames that are `interval` times 100 ns apart come at a rate of `fps` and a fraction; a
      rate of 0 takes any interval, and a negative one none. */
  predicate HasRate(interval: u32, fps: i32) {
    fps == 0 || (fps > 0 && fps * interval <= TEN_MILLION < (fps + 1) * interval)
  }

  /** What the code compares is that. */
  lemma RateIs(interval: u32, fps: i32)
    requires interval > 0
    ensures TEN_MILLION / interval == ToU32(fps) || fps == 0 <==> HasRate(interval, fps)
  {
    var q := TEN_MILLION / interval;
    QuotientIs(TEN_MILLION, interval, q);
    if fps > 0 {
      QuotientIs(TEN_MILLION, interval, fps);
    }
  }

  lemma Grows(x: nat, y: nat, b: nat)
    requires x <= y
    ensures x * b <= y * b
  {
    assert y * b - x * b == (y - x) * b;
  }

  lemma Divided(a: nat, b: nat)
    requires b > 0
    ensures a / b * b <= a < (a / b + 1) * b && a == a / b * b + a % b
  {
  }

  lemma QuotientIs(a: nat, b: nat, q: nat)
    requires b > 0
    ensures q == a / b <==> q * b <= a < (q + 1) * b
  {
    Divided(a, b);
    var p := a / b;
    if q < p {
      Grows(q + 1, p, b);
    } else if q > p {
      Grows(p + 1, q, b);
    }
  }

  /** Of a list up to its first zero, the first interval that has the rate is number `n`. */
  predicate FirstWithRate(xs: seq<u32>, fps: i32, n: nat) {
    && n < |xs|
    && (forall m | 0 <= m <= n :: xs[m] > 0)
    && HasRate(xs[n], fps)
    && forall m | 0 <= m < n :: !HasRate(xs[m], fps)
  }

  /** The longest interval, in units of 100 ns, that a rate allows. A negative rate gives a
      negative interval, which wraps around. */
  predicate IntervalOf(fps: i32, x: u32)
    requires fps != 0
  {
    if fps > 0 then fps * x <= TEN_MILLION < fps * (x + 1)
    else
      var n: int, rate: int := (TWO_TO_32 - x) % TWO_TO_32, fps;
      -rate * n <= TEN_MILLION < -rate * (n + 1)
  }

  lemma IntervalIs(fps: i32, x: u32)
    requires fps != 0
    ensures x == ToU32(Quotient(TEN_MILLION, fps)) <==> IntervalOf(fps, x)
  {
    var rate: int, n := fps, (TWO_TO_32 - x) % TWO_TO_32;
    var d := -rate;
    if fps > 0 {
      QuotientIs(TEN_MILLION, fps, x);
      AtMost(TEN_MILLION, fps);
    } else {
      QuotientIs(TEN_MILLION, d, n);
      AtMost(TEN_MILLION, d);
      Negated(x, TEN_MILLION / d);
    }
  }

  lemma AtMost(a: nat, b: nat)
    requires b > 0
    ensures 0 <= a / b <= a
  {
    var q := a / b;
    Divided(a, b);
    Grows(1, b, q);
    assert b * q == q * b;
  }

  lemma Negated(x: u32, q: int)
    requires 0 <= q <= TEN_MILLION
    ensures x == ToU32(-q) <==> q == (TWO_TO_32 - x) % TWO_TO_32
  {
  }

  predicate StepsTo(t: Timing, x: u32, k: nat) {
    x == t.min + k * t.step
  }

  /** A continuous range has interval `x`: it is a number of steps from its smallest one. */
  ghost predicate InRange(t: Timing, x: u32) {
    x <= t.max && exists k: nat :: StepsTo(t, x, k)
  }

  lemma InRangeIf(t: Timing, x: u32)
    requires t.step > 0
    ensures t.min <= x <= t.max && (x - t.min) % t.step == 0 <==> InRange(t, x)
  {
    if t.min <= x && (x - t.min) % t.step == 0 {
      assert StepsTo(t, x, (x - t.min) / t.step);
    }
    if k: nat :| StepsTo(t, x, k) {
      Multiple(k, t.step);
    }
  }

  lemma Multiple(k: nat, step: nat)
    requires step > 0
    ensures k * step >= 0 && k * step % step == 0
  {
    QuotientIs(k * step, step, k);
    Divided(k * step, step);
  }

  /** The interval that a frame offers for a rate. */
  ghost predicate Offers(t: Timing, fps: i32, x: u32) {
    if t.intervals == [] then fps != 0 && IntervalOf(fps, x) && InRange(t, x)
    else exists n: nat :: FirstWithRate(t.intervals, fps, n) && t.intervals[n] == x
  }

  /** What the source relies on: a list is zero-terminated; no division by zero in a range. */
  predicate Sensible(t: Timing, fps: i32) {
    if t.intervals == [] then
      fps != 0 && (t.min < ToU32(Quotient(TEN_MILLION, fps)) <= t.max ==> t.step > 0)
    else t.intervals[|t.intervals| - 1] == 0
  }

  lemma OneOffer(t: Timing, fps: i32, x: u32, y: u32)
    requires Offers(t, fps, x) && Offers(t, fps, y)
    ensures x == y
  {
    if t.intervals != [] {
      var n: nat :| FirstWithRate(t.intervals, fps, n) && t.intervals[n] == x;
      var m: nat :| FirstWithRate(t.intervals, fps, m) && t.intervals[m] == y;
      assert n == m;
    } else {
      IntervalIs(fps, x);
      IntervalIs(fps, y);
    }
  }

  /** The loop over the listed intervals. */
  method ChooseListed(xs: seq<u32>, fps: i32) returns (r: Option<u32>)
    requires xs != [] && xs[|xs| - 1] == 0
    ensures r.Some? ==> exists n: nat :: FirstWithRate(xs, fps, n) && xs[n] == r.value
    ensures r.None? ==> forall n: nat :: !FirstWithRate(xs, fps, n)
  {
    hide HasRate;
    var n := 0;
    while xs[n] != 0
      invariant n < |xs|
      invariant forall m | 0 <= m < n :: xs[m] > 0 && !HasRate(xs[m], fps)
      decreases |xs| - n
    {
      RateIs(xs[n], fps);
      if TEN_MILLION / xs[n] == ToU32(fps) || fps == 0 {
        assert FirstWithRate(xs, fps, n);
        return Some(xs[n]);
      }
      n := n + 1;
    }
    return None;
  }

  method ChooseInRange(t: Timing, fps: i32) returns (r: Option<u32>)
    requires t.intervals == [] && Sensible(t, fps)
    ensures r.Some? ==> Offers(t, fps, r.value)
    ensures r.None? ==> forall x :: !Offers(t, fps, x)
  {
    var x := ToU32(Quotient(TEN_MILLION, fps));
    IntervalIs(fps, x);
    ghost var x0 := x;
    forall y: u32
      ensures IntervalOf(fps, y) <==> y == x0
    {
      IntervalIs(fps, y);
    }
    hide IntervalOf, ToU32, Quotient;
    if x >= t.min && x <= t.max {
      var offset := x - t.min;
      if offset == 0 {
        assert StepsTo(t, x, 0);
        return Some(x);
      }
      InRangeIf(t, x);
      if offset % t.step == 0 {
        return Some(x);
      }
    } else {
      NotInRange(t, x);
    }
    return None;
  }

  lemma NotInRange(t: Timing, x: u32)
    requires x < t.min || x > t.max
    ensures !InRange(t, x)
  {
    if k: nat :| StepsTo(t, x, k) {
      assert k * t.step >= 0;
    }
  }

  /** The interval that is asked for. For a rate from 1 on, of a list it is the first entry
      `x` before the zero with fps * x <= 10^7 < (fps + 1) * x. */
  method ChooseInterval(t: Timing, fps: i32) returns (r: Option<u32>)
    requires Sensible(t, fps)
    ensures r.Some? ==> Offers(t, fps, r.value)
    ensures r.None? ==> forall x :: !Offers(t, fps, x)
    ensures t.intervals != [] && fps > 0 && r.Some? ==> fps * r.value <= TEN_MILLION < (fps + 1) * r.value
    ensures t.intervals != [] && fps == 0 ==> r == if t.intervals[0] == 0 then None else Some(t.intervals[0])
    ensures t.intervals != [] && fps < 0 ==> r == None
  {
    if |t.intervals| > 0 {
      r := ChooseListed(t.intervals, fps);
      assert fps == 0 && t.intervals[0] != 0 ==> FirstWithRate(t.intervals, fps, 0);
    } else {
      r := ChooseInRange(t, fps);
    }
  }

  // ----- the search -----

  datatype Request = Request(format: FrameFormat, width: int, height: int, fps: i32)

  predicate SizeMatches(ifs: seq<InterfaceDesc>, p: Place, r: Request) {
    IsFrame(ifs, p) && MatchesGuid(r.format, FormatAt(ifs, p).guid)
    && FrameAt(ifs, p).width == r.width && FrameAt(ifs, p).height == r.height
  }

  /** The frame at `p` is of the format and size asked for, and offers the rate. */
  ghost predicate IsMode(ifs: seq<InterfaceDesc>, p: Place, r: Request) {
    SizeMatches(ifs, p, r) && exists x :: Offers(FrameAt(ifs, p).timing, r.fps, x)
  }

  ghost predicate FirstMode(ifs: seq<InterfaceDesc>, p: Place, r: Request) {
    IsMode(ifs, p, r) && forall q: Place | Earlier(q, p) :: !IsMode(ifs, q, r)
  }

  /** The frames that the search looks at, up to the first mode, are sensible. */
  ghost predicate AllSensible(ifs: seq<InterfaceDesc>, r: Request) {
    forall p: Place | SizeMatches(ifs, p, r) && (forall q: Place | Earlier(q, p) :: !IsMode(ifs, q, r)) ::
      Sensible(FrameAt(ifs, p).timing, r.fps)
  }

  /** The camera: its answers to GET_MAX, asked once at every frame of the right size,
      and to GET_CUR after a block has been set. */
  datatype Camera = Camera(max: Place -> Reply, cur: seq<byte> -> Reply)

  ghost predicate Answers(info: DeviceInfo, cam: Camera) {
    && (forall p :: cam.max(p).Got? ==> |cam.max(p).bytes| <= BlockLength(info))
    && (forall b :: cam.cur(b).Got? ==> |cam.cur(b).bytes| <= BlockLength(info))
  }

  /** The block asks for the mode at `p`, and has the camera's maxima in all other fields. */
  ghost predicate AsksFor(info: DeviceInfo, p: Place, r: Request, max: Reply, c: Ctrl)
    requires IsFrame(info.interfaces, p) && (max.Got? ==> |max.bytes| <= BlockLength(info))
  {
    && c.hint == 1 && c.interface == info.interfaces[p.i].number
    && c.format == FormatAt(info.interfaces, p).index && c.frame == FrameAt(info.interfaces, p).index
    && Offers(FrameAt(info.interfaces, p).timing, r.fps, c.interval)
    && exists before: Ctrl ::
         var m := Get(info, before, max);
         c == m.(hint := c.hint, format := c.format, frame := c.frame, interval := c.interval)
  }

  /** The body of the innermost loop, at a frame of the right format and size. */
  method TryFrame(info: DeviceInfo, ctrl: Ctrl, r: Request, max: Reply, p: Place) returns (found: bool, c: Ctrl)
    requires SizeMatches(info.interfaces, p, r) && Sensible(FrameAt(info.interfaces, p).timing, r.fps)
    requires max.Got? ==> |max.bytes| <= BlockLength(info)
    ensures found <==> IsMode(info.interfaces, p, r)
    ensures found ==> AsksFor(info, p, r, max, c)
  {
    hide MatchesGuid, InRange;
    var frame := FrameAt(info.interfaces, p);
    var before := ctrl.(interface := info.interfaces[p.i].number);
    c := QueryGet(info, before, max);
    var x := ChooseInterval(frame.timing, r.fps);
    found := x.Some?;
    if found {
      c := c.(hint := 1, format := FormatAt(info.interfaces, p).index, frame := frame.index, interval := x.value);
    }
  }

  ghost predicate NoneBefore(ifs: seq<InterfaceDesc>, i: nat, j: nat, k: nat, r: Request) {
    forall q: Place | Earlier(q, Place(i, j, k)) :: !IsMode(ifs, q, r)
  }

  lemma PastFormat(ifs: seq<InterfaceDesc>, i: nat, j: nat, k: nat, r: Request)
    requires i < |ifs| && j < |ifs[i].formats| && NoneBefore(ifs, i, j, k, r)
    requires k >= |ifs[i].formats[j].frames| || !MatchesGuid(r.format, ifs[i].formats[j].guid)
    ensures NoneBefore(ifs, i, j + 1, 0, r)
  {
    hide MatchesGuid, Offers;
  }

  lemma PastInterface(ifs: seq<InterfaceDesc>, i: nat, j: nat, r: Request)
    requires NoneBefore(ifs, i, j, 0, r) && (i < |ifs| ==> j >= |ifs[i].formats|)
    ensures NoneBefore(ifs, i + 1, 0, 0, r)
  {
    hide MatchesGuid, Offers;
  }

  /** The three nested loops of uvc_get_stream_ctrl_format_size. */
  method FindMode(info: DeviceInfo, ctrl: Ctrl, r: Request, cam: Camera)
    returns (found: bool, c: Ctrl, ghost p: Place)
    requires AllSensible(info.interfaces, r) && Answers(info, cam)
    ensures found ==> FirstMode(info.interfaces, p, r) && AsksFor(info, p, r, cam.max(p), c)
    ensures !found ==> forall q: Place :: !IsMode(info.interfaces, q, r)
  {
    hide AsksFor, Sensible, MatchesGuid, Offers;
    var ifs := info.interfaces;
    c := ctrl;
    var i := 0;
    while i < |ifs|
      invariant i <= |ifs| && NoneBefore(ifs, i, 0, 0, r)
    {
      var j := 0;
      while j < |ifs[i].formats|
        invariant j <= |ifs[i].formats| && NoneBefore(ifs, i, j, 0, r)
      {
        var k := 0;
        if MatchesGuid(r.format, ifs[i].formats[j].guid) {
          while k < |ifs[i].formats[j].frames|
            invariant k <= |ifs[i].formats[j].frames| && NoneBefore(ifs, i, j, k, r)
          {
            var frame := ifs[i].formats[j].frames[k];
            if frame.width == r.width && frame.height == r.height {
              var at := Place(i, j, k);
              assert SizeMatches(ifs, at, r);
              found, c := TryFrame(info, c, r, cam.max(at), at);
              if found {
                p := at;
                return;
              }
            }
            k := k + 1;
          }
        }
        PastFormat(ifs, i, j, k, r);
        j := j + 1;
      }
      PastInterface(ifs, i, j, r);
      i := i + 1;
    }
    return false, c, Place(0, 0, 0);
  }

  // ----- negotiation -----

  /** _uvc_stream_params_negotiated */
  predicate Negotiated(required: Ctrl, actual: Ctrl) {
    required.format == actual.format && required.frame == actual.frame && required.maxPayload >= actual.maxPayload
  }

  /** uvc_probe_stream_ctrl: set, read back, compare. The answers to the two requests are
      not looked at: a camera that fails them negotiates what it was asked. */
  method ProbeStreamCtrl(info: DeviceInfo, required: Ctrl, cam: Camera) returns (ok: bool, ctrl: Ctrl)
    requires Answers(info, cam)
    ensures ctrl == Get(info, required, cam.cur(Encode(required, Long(info))))
    ensures ok <==> required.format == ctrl.format && required.frame == ctrl.frame
                    && ctrl.maxPayload <= required.maxPayload
  {
    var buf := FillBlock(required, Long(info));
    var sent := buf[..BlockLength(info)];
    assert sent == Encode(required, Long(info));
    ctrl := QueryGet(info, required, cam.cur(sent));
    ok := Negotiated(required, ctrl);
  }

  /** uvc_get_stream_ctrl_format_size. It succeeds exactly if some mode offers what was
      asked for and the camera agrees; the block then names the first such mode in list
      order. In all other cases the result is UVC_ERROR_INVALID_MODE. */
  method GetStreamCtrl(info: DeviceInfo, c: Ctrl, r: Request, cam: Camera)
    returns (ok: bool, ctrl: Ctrl, ghost p: Place, ghost required: Ctrl)
    requires AllSensible(info.interfaces, r) && Answers(info, cam)
    ensures (exists q :: IsMode(info.interfaces, q, r)) <==> FirstMode(info.interfaces, p, r)
    ensures FirstMode(info.interfaces, p, r) ==>
              && AsksFor(info, p, r, cam.max(p), required)
              && ctrl == Get(info, required, cam.cur(Encode(required, Long(info))))
    ensures ok <==> FirstMode(info.interfaces, p, r)
                    && required.format == ctrl.format && required.frame == ctrl.frame
                    && ctrl.maxPayload <= required.maxPayload
    ensures ok ==> exists q :: FirstMode(info.interfaces, q, r) && ctrl.interface == info.interfaces[q.i].number
                               && HasIndices(info.interfaces, q, ctrl.format, ctrl.frame)
    ensures (forall q: Place :: !IsMode(info.interfaces, q, r)) ==> !ok
  {
    ok, ctrl, p := FindMode(info, c, r, cam);
    required := ctrl;
    if ok {
      ok, ctrl := ProbeStreamCtrl(info, ctrl, cam);
    }
  }

  /** If frames that share their two indices share their size, the frames delivered after
      a successful search have the size asked for. */
  lemma SizeDelivered(ifs: seq<InterfaceDesc>, p: Place, r: Request, format: byte, frame: byte)
    requires Consistent(ifs) && FirstMode(ifs, p, r) && HasIndices(ifs, p, format, frame)
    ensures var d := FindFrame(ifs, format, frame);
            d.Some? && d.value.width == r.width && d.value.height == r.height
  {
    SizesDelivered(ifs);
    assert DeliversSizeOf(ifs, p);
  }

  function ExampleFrame(width: u16): FrameDesc {
    FrameDesc(VS_FRAME_UNCOMPRESSED, 1, 0, width, 480, 0, 0, 0, 333_333, 1, 0, Timing(0, 0, 0, [333_333, 0]))
  }

  function ExampleInterface(number: byte, width: u16): InterfaceDesc {
    InterfaceDesc(number, 0x81, 0, 0,
      [FormatDesc(VS_FORMAT_UNCOMPRESSED, 1, 1, GuidOf(Yuyv), 16, 1, 0, 0, 0, 0, 0, [ExampleFrame(width)], [])])
  }

  /** Without that it fails: of two interfaces that both count their formats and frames
      from 1, the search finds the second, and frames are labelled with the first's size. */
  lemma WrongSizeDelivered(ifs: seq<InterfaceDesc>, p: Place, r: Request)
    requires ifs == [ExampleInterface(1, 640), ExampleInterface(2, 320)]
    requires p == Place(1, 0, 0) && r == Request(Yuyv, 320, 480, 30)
    ensures AllSensible(ifs, r) && FirstMode(ifs, p, r) && HasIndices(ifs, p, 1, 1)
    ensures FindFrame(ifs, 1, 1).Some? && FindFrame(ifs, 1, 1).value.width == 640
  {
    var first := Place(0, 0, 0);
    assert HasIndices(ifs, first, 1, 1) && FirstWith(ifs, 1, 1, first);
    FindFrameIs(ifs, 1, 1, first);
    assert FirstWithRate(FrameAt(ifs, p).timing.intervals, r.fps, 0);
    assert Offers(FrameAt(ifs, p).timing, r.fps, 333_333);
    forall q: Place | Earlier(q, p)
      ensures !IsMode(ifs, q, r)
    {
      assert IsFrame(ifs, q) ==> q == first;
    }
  }
}
