// The acquisition state machine of the areaDetector driver (ADUVC.cpp).  The
// library under it is abstract: a stream is open or not, and after a stop no
// frame callback follows (ADUVC.cpp says so, and libuvc.h asks for it).
module Driver {
  import opened Bytes

  /** ADImageMode */
  const SINGLE := 0
  const MULTIPLE := 1
  const CONTINUOUS := 2

  /** The parameters that bear on acquisition; Other stands for all others. */
  datatype IntParam = Acquire | ImageMode | NumImages | ApplyFormat | ImageFormat | Framerate | OtherInt
  datatype FloatParam = AcquireTime | OtherFloat

  /** ADUVC_ImageFormat for uncompressed streams, the only ones whose frame size is checked. */
  const FORMAT_UNCOMPRESSED := 6

  /** A camera format: what applyCameraFormat stores in ADUVC_ImageFormat and ADUVC_Framerate. */
  datatype CameraFormat = CameraFormat(imageFormat: int, framerate: int)

  /** What the library answers to acquireStart, and the camera format that is selected,
      if it can be applied. */
  datatype Answers = Answers(negotiated: bool, started: bool, format: Option<CameraFormat>)

  datatype Event =
    | WriteInt(param: IntParam, value: int, answers: Answers)
    | WriteFloat(fparam: FloatParam)
    // newFrameCallback: an NDArray could be allocated; checkValidFrameSize succeeds, if called
    | FrameArrives(memory: bool, sizeOk: bool)

  /** Parameters and fields of the driver. `open`: the library has an open stream.
      `ids`: the uniqueId of every array since the last start, in order. */
  datatype State = State(
    acquire: int, acquiring: bool, imageMode: int, numImages: int, imageFormat: int, framerate: int,
    counter: int, validated: bool, open: bool, ids: seq<int>)

  /** acquireStop */
  function Stop(s: State): State {
    s.(open := false, validated := false, acquiring := false, acquire := 0)
  }

  /** acquireStart */
  function Start(s: State, a: Answers): State {
    if !a.negotiated then Stop(s)
    else if !a.started then s.(counter := 0, ids := [], acquire := 0, acquiring := false)
    else s.(counter := 0, ids := [], open := true, acquiring := true)
  }

  function SetInt(s: State, p: IntParam, value: int): State {
    match p
    case Acquire => s.(acquire := value)
    case ImageMode => s.(imageMode := value)
    case NumImages => s.(numImages := value)
    case ImageFormat => s.(imageFormat := value)
    case Framerate => s.(framerate := value)
    case _ => s
  }

  /** applyCameraFormat */
  function Apply(s: State, f: Option<CameraFormat>): State {
    if f.Some? then s.(imageFormat := f.value.imageFormat, framerate := f.value.framerate) else s
  }

  /** Some writes stop the acquisition if ADAcquire is 1, and some if it is not 0. */
  function WriteIntStep(s: State, p: IntParam, value: int, a: Answers): State {
    var s1 := SetInt(s, p, value);
    if p.Acquire? then
      if value != 0 && s.acquire == 0 then Start(s1, a)
      else if value == 0 && s.acquire != 0 then Stop(s1) else s1
    else if p.ApplyFormat? && value == 1 then Apply(if s.acquire != 0 then Stop(s1) else s1, a.format)
    else if (p.ImageMode? || p.ImageFormat? || p.Framerate?) && s.acquire == 1 then Stop(s1)
    else s1
  }

  /** A frame has been counted: does the mode end the acquisition? */
  predicate Ends(mode: int, numImages: int, counter: int) {
    mode == SINGLE || (mode == MULTIPLE && counter >= numImages) || mode !in {SINGLE, MULTIPLE, CONTINUOUS}
  }

  function FrameStep(s: State, memory: bool, sizeOk: bool): State {
    var s1 := if !s.validated && s.imageFormat == FORMAT_UNCOMPRESSED then s.(validated := sizeOk) else s;
    if !memory then s1 else
      var n := s1.counter + 1;
      var s2 := s1.(counter := n, ids := s1.ids + [n]);
      if Ends(s2.imageMode, s2.numImages, n) then Stop(s2) else s2
  }

  /** A frame arrives only while a stream is open. */
  predicate Enabled(s: State, e: Event) {
    e.FrameArrives? ==> s.open
  }

  function Step(s: State, e: Event): State {
    match e
    case WriteInt(p, value, a) => WriteIntStep(s, p, value, a)
    case WriteFloat(p) => if p.AcquireTime? && s.acquire != 0 then Stop(s) else s
    case FrameArrives(memory, sizeOk) => FrameStep(s, memory, sizeOk)
  }

  predicate AllEnabled(s: State, es: seq<Event>)
    decreases |es|
  {
    es != [] ==> Enabled(s, es[0]) && AllEnabled(Step(s, es[0]), es[1..])
  }

  function Run(s: State, es: seq<Event>): State
    decreases |es|
  {
    if es == [] then s else Run(Step(s, es[0]), es[1..])
  }

  // ----- what is to hold -----

  function Initial(imageMode: int, numImages: int, imageFormat: int, framerate: int): State {
    State(0, false, imageMode, numImages, imageFormat, framerate, 0, false, false, [])
  }

  function OneTo(n: nat): (ids: seq<int>)
    ensures |ids| == n
  {
    seq(n, i => i + 1)
  }

  /** ADAcquire is not 0 exactly while a stream is open, and so is ADStatus; a frame size
      is only ever validated for the stream that is open; arrays are numbered from 1. */
  predicate Consistent(s: State) {
    && (s.acquire != 0 <==> s.open)
    && (s.acquiring <==> s.open)
    && (s.validated ==> s.open)
    && 0 <= s.counter && s.ids == OneTo(s.counter)
  }

  /** How many frames a mode counts before it ends the acquisition; None: no end. */
  function Limit(mode: int, numImages: int): Option<nat> {
    if mode == CONTINUOUS then None
    else if mode == MULTIPLE && numImages > 1 then Some(numImages)
    else Some(1)
  }

  /** There are fewer frames than the mode allows. */
  predicate BelowLimit(mode: int, numImages: int, counter: int) {
    Limit(mode, numImages).Some? ==> counter < Limit(mode, numImages).value
  }

  /** A write that asks for an acquisition while there is none. */
  predicate Begins(s: State, p: IntParam, value: int) {
    p == Acquire && value != 0 && !s.open
  }

  /** A write that ends the acquisition under way. Changes of mode, format and rate do
      so only if ADAcquire is exactly 1. */
  predicate EndsBy(s: State, p: IntParam, value: int) {
    && s.open
    && match p
       case Acquire => value == 0
       case ApplyFormat => value == 1
       case ImageMode => s.acquire == 1
       case ImageFormat => s.acquire == 1
       case Framerate => s.acquire == 1
       case _ => false
  }

  // ----- the driver as an object -----

  class Driver {
    var acquire: int
    var acquiring: bool      // ADStatus is ADStatusAcquire
    var imageMode: int
    var numImages: int
    var imageFormat: int
    var framerate: int
    var counter: int
    var validated: bool
    var open: bool
    ghost var ids: seq<int>

    ghost function Value(): State
      reads this
    {
      State(acquire, acquiring, imageMode, numImages, imageFormat, framerate, counter, validated, open, ids)
    }

    /** What holds between writes and callbacks. */
    ghost predicate Valid()
      reads this
    {
      Consistent(Value())
    }

    constructor (imageMode: int, numImages: int, imageFormat: int, framerate: int)
      ensures Valid() && !open && Value() == Initial(imageMode, numImages, imageFormat, framerate)
    {
      acquire, acquiring, counter, validated, open, ids := 0, false, 0, false, false, [];
      this.imageMode, this.numImages := imageMode, numImages;
      this.imageFormat, this.framerate := imageFormat, framerate;
    }

    /** From wherever it is called, a stop leaves the driver consistent, and nothing open;
        what has been counted, and all that has been chosen, is untouched. */
    method AcquireStop()
      requires 0 <= counter && ids == OneTo(counter)
      modifies `open, `validated, `acquiring, `acquire
      ensures Valid() && !open
      ensures Value() == Stop(old(Value()))
    {
      open := false;        // uvc_stop_streaming
      validated := false;
      acquiring := false;
      acquire := 0;
    }

    /** Called when ADAcquire has just been set. Whatever the library answers, the driver
        is consistent again; a stream is open exactly on success, with nothing counted. */
    method AcquireStart(a: Answers) returns (ok: bool)
      requires acquire != 0 && !open && !validated && 0 <= counter && ids == OneTo(counter)
      modifies `open, `validated, `acquiring, `acquire, `counter, `ids
      ensures Valid() && (ok <==> open) && (ok <==> a.negotiated && a.started)
      ensures ok ==> counter == 0 && ids == [] && acquire == old(acquire)
      ensures Value() == Start(old(Value()), a)
    {
      if !a.negotiated {
        AcquireStop();
        return false;
      }
      counter, ids := 0, [];
      if !a.started {
        acquire := 0;
        acquiring := false;
        return false;
      }
      open := true;         // uvc_start_streaming
      acquiring := true;
      return true;
    }

    method SetIntegerParam(p: IntParam, value: int)
      modifies `acquire, `imageMode, `numImages, `imageFormat, `framerate
      ensures Value() == SetInt(old(Value()), p, value)
    {
      match p
      case Acquire => acquire := value;
      case ImageMode => imageMode := value;
      case NumImages => numImages := value;
      case ImageFormat => imageFormat := value;
      case Framerate => framerate := value;
      case _ =>
    }

    method ApplyCameraFormat(f: Option<CameraFormat>)
      modifies `imageFormat, `framerate
      ensures Value() == Apply(old(Value()), f)
    {
      if f.Some? {
        imageFormat, framerate := f.value.imageFormat, f.value.framerate;
      }
    }

    /** writeInt32; false stands for asynError. A stream is open afterwards exactly if one
        was begun, or was open and has not been ended; the error is returned exactly if an
        acquisition was asked for and does not run; a beginning resets the count, and
        nothing else changes it. */
    method WriteInt32(p: IntParam, value: int, a: Answers) returns (ok: bool)
      requires Valid()
      modifies this
      ensures Valid()
      ensures open <==> (Begins(old(Value()), p, value) && a.negotiated && a.started)
                        || (old(open) && !EndsBy(old(Value()), p, value))
      ensures !ok <==> p == Acquire && value != 0 && !open
      ensures counter == if Begins(old(Value()), p, value) && a.negotiated then 0 else old(counter)
      ensures imageMode == (if p == ImageMode then value else old(imageMode))
      ensures numImages == (if p == NumImages then value else old(numImages))
      ensures imageFormat == if p == ImageFormat then value
                             else if p == ApplyFormat && value == 1 && a.format.Some? then a.format.value.imageFormat
                             else old(imageFormat)
      ensures framerate == if p == Framerate then value
                           else if p == ApplyFormat && value == 1 && a.format.Some? then a.format.value.framerate
                           else old(framerate)
      ensures open ==> acquire == (if p == Acquire then value else old(acquire))
      ensures Value() == Step(old(Value()), WriteInt(p, value, a))
    {
      var wasAcquiring := acquire;
      SetIntegerParam(p, value);
      ok := true;
      if p == Acquire {
        if value != 0 && wasAcquiring == 0 {
          ok := AcquireStart(a);
        }
        if value == 0 && wasAcquiring != 0 {
          AcquireStop();
        }
      } else if p == ApplyFormat && value == 1 {
        if wasAcquiring != 0 {
          AcquireStop();
        }
        ApplyCameraFormat(a.format);
      } else if p == ImageMode && wasAcquiring == 1 {
        AcquireStop();
      } else if (p == ImageFormat || p == Framerate) && wasAcquiring == 1 {
        AcquireStop();
      }
    }

    /** writeFloat64: a new exposure time ends the acquisition, whatever ADAcquire is, and
        nothing else does; nothing that was chosen or counted changes. */
    method WriteFloat64(p: FloatParam)
      requires Valid()
      modifies `open, `validated, `acquiring, `acquire
      ensures Valid() && (open <==> old(open) && p != AcquireTime)
      ensures Value() == Step(old(Value()), WriteFloat(p))
    {
      if p == AcquireTime {
        if acquire != 0 {
          AcquireStop();
        }
      }
    }

    /** newFrameCallback; `id` is the uniqueId of the array. A frame without an array does
        not count and ends nothing; any other gets the next number, and the acquisition
        goes on exactly while fewer frames than the mode allows have been counted. */
    method NewFrameCallback(memory: bool, sizeOk: bool) returns (id: Option<int>)
      requires Valid() && open
      modifies `open, `validated, `acquiring, `acquire, `counter, `ids
      ensures Valid() && (id.Some? <==> memory)
      ensures id.Some? ==> ids == old(ids) + [id.value] && counter == old(counter) + 1 == id.value
      ensures id.None? ==> ids == old(ids) && counter == old(counter) && open
      ensures id.Some? ==> (open <==> BelowLimit(imageMode, numImages, counter))
      ensures open ==> validated == (old(validated) || (imageFormat == FORMAT_UNCOMPRESSED && sizeOk))
      ensures Value() == Step(old(Value()), FrameArrives(memory, sizeOk))
    {
      if !validated && imageFormat == FORMAT_UNCOMPRESSED {
        validated := sizeOk;
      }
      if !memory {
        return None;
      }
      var n := counter + 1;
      counter := n;
      ids := ids + [n];
      assert ids == OneTo(counter);
      if imageMode == SINGLE {
        AcquireStop();
      } else if imageMode == MULTIPLE {
        if n >= numImages {
          AcquireStop();
        }
      } else if imageMode != CONTINUOUS {
        AcquireStop();
      }
      return Some(n);
    }
  }

  // ----- properties of runs -----

  lemma StepConsistent(s: State, e: Event)
    requires Consistent(s) && Enabled(s, e)
    ensures Consistent(Step(s, e))
  {
    if e.FrameArrives? && e.memory {
      assert OneTo(s.counter) + [s.counter + 1] == OneTo(s.counter + 1);
    }
  }

  /** After every write and every frame callback of every run. */
  lemma {:induction false} RunConsistent(s: State, es: seq<Event>)
    requires Consistent(s) && AllEnabled(s, es)
    ensures Consistent(Run(s, es))
    decreases |es|
  {
    if es != [] {
      StepConsistent(s, es[0]);
      RunConsistent(Step(s, es[0]), es[1..]);
    }
  }

  lemma InitiallyConsistent(imageMode: int, numImages: int, imageFormat: int, framerate: int)
    ensures Consistent(Initial(imageMode, numImages, imageFormat, framerate))
  {
  }

  /** The event starts no acquisition and changes neither ADImageMode nor ADNumImages. */
  predicate WithinRun(s: State, e: Event) {
    e.WriteInt? ==> !e.param.ImageMode? && !e.param.NumImages? && !(e.param.Acquire? && e.value != 0 && s.acquire == 0)
  }

  predicate AllWithinRun(s: State, es: seq<Event>)
    decreases |es|
  {
    es != [] ==> WithinRun(s, es[0]) && AllWithinRun(Step(s, es[0]), es[1..])
  }

  /** The event does not stop the acquisition, unless it is a frame. */
  predicate Harmless(e: Event) {
    || e.FrameArrives?
    || (e.WriteInt? && e.param.OtherInt?)
    || (e.WriteInt? && e.param.Acquire? && e.value != 0)
    || (e.WriteFloat? && e.fparam.OtherFloat?)
  }

  /** No more frames have been counted than the mode allows; fewer while the stream is open. */
  predicate InLimit(s: State) {
    var limit := Limit(s.imageMode, s.numImages);
    limit.Some? ==> s.counter <= limit.value && (s.open ==> s.counter < limit.value)
  }

  predicate AllHarmless(es: seq<Event>) {
    forall i | 0 <= i < |es| :: Harmless(es[i])
  }

  lemma StepInLimit(s: State, e: Event)
    requires Consistent(s) && Enabled(s, e) && WithinRun(s, e) && InLimit(s)
    ensures InLimit(Step(s, e))
    ensures Step(s, e).imageMode == s.imageMode && Step(s, e).numImages == s.numImages
    ensures s.open && Harmless(e) && !Step(s, e).open
            ==> Limit(s.imageMode, s.numImages) == Some(Step(s, e).counter)
  {
    if e.FrameArrives? {
      FrameInLimit(s, e.memory, e.sizeOk);
      hide FrameStep, Limit;
    } else {
      hide FrameStep, Limit, OneTo;
    }
  }

  lemma FrameInLimit(s: State, memory: bool, sizeOk: bool)
    requires s.open && InLimit(s) && 0 <= s.counter
    ensures var s' := FrameStep(s, memory, sizeOk);
            && InLimit(s') && s'.imageMode == s.imageMode && s'.numImages == s.numImages
            && (!s'.open ==> Limit(s.imageMode, s.numImages) == Some(s'.counter))
  {
  }

  /** However an acquisition goes on, it counts at most as many frames as its mode allows. */
  lemma {:induction false} CountsAtMost(s: State, es: seq<Event>)
    requires Consistent(s) && AllEnabled(s, es) && AllWithinRun(s, es) && InLimit(s)
    ensures var s' := Run(s, es);
            InLimit(s') && Consistent(s') && s'.imageMode == s.imageMode && s'.numImages == s.numImages
    decreases |es|
  {
    if es != [] {
      StepInLimit(s, es[0]);
      StepConsistent(s, es[0]);
      CountsAtMost(Step(s, es[0]), es[1..]);
    }
  }

  lemma ClosedStays(s: State, e: Event)
    requires Consistent(s) && Enabled(s, e) && WithinRun(s, e) && !s.open && Harmless(e)
    ensures Step(s, e) == s
  {
  }

  /** If only frames can end it, it ends exactly when it has counted that many: max(1, N)
      in Multiple mode, one in Single mode and in a mode that does not exist. */
  lemma {:induction false} CountsExactly(s: State, es: seq<Event>)
    requires Consistent(s) && AllEnabled(s, es) && AllWithinRun(s, es) && InLimit(s) && AllHarmless(es)
    requires s.open || Limit(s.imageMode, s.numImages) == Some(s.counter)
    ensures Run(s, es).open <==> Limit(s.imageMode, s.numImages) != Some(Run(s, es).counter)
    decreases |es|
  {
    if es != [] {
      StepInLimit(s, es[0]);
      StepConsistent(s, es[0]);
      if !s.open {
        ClosedStays(s, es[0]);
      }
      CountsExactly(Step(s, es[0]), es[1..]);
    }
  }

  /** An acquisition that has just been started satisfies the requirements above. */
  lemma StartedInLimit(s: State, value: int, a: Answers)
    requires Consistent(s) && s.acquire == 0 && value != 0 && a.negotiated && a.started
    ensures var s' := WriteIntStep(s, Acquire, value, a);
            Consistent(s') && InLimit(s') && s'.open && s'.counter == 0 && s'.ids == []
  {
  }
}
