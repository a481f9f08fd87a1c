// The stream handle of libuvc with its buffers, and the two functions of
// stream.c that fill them in place. Each is proved to refine module Reassembly.
module StreamHandles {
  import opened Bytes
  import opened Reassembly

  /** A working buffer and a presented buffer of the same size whose roles swap:
      outbuf and holdbuf, or meta_outbuf and meta_holdbuf. */
  class DoubleBuffer {
    const capacity: nat
    var out: array<byte>
    var hold: array<byte>
    var gotBytes: nat
    var holdBytes: nat

    /** The two buffers that were allocated when the stream was opened. */
    ghost const first: array<byte>
    ghost const second: array<byte>

    ghost predicate Valid()
      reads this
    {
      && first != second && first.Length == second.Length == capacity
      && ((out == first && hold == second) || (out == second && hold == first))
      && gotBytes <= capacity && holdBytes <= capacity
    }

    ghost function Working(): seq<byte>
      requires Valid()
      reads this, first, second
    {
      out[..gotBytes]
    }

    ghost function Presented(): seq<byte>
      requires Valid()
      reads this, first, second
    {
      hold[..holdBytes]
    }

    constructor (capacity: nat)
      ensures Valid() && fresh(first) && fresh(second)
      ensures this.capacity == capacity && Working() == [] && Presented() == []
    {
      this.capacity := capacity;
      var a, b := new byte[capacity], new byte[capacity];
      out, hold, first, second := a, b, a, b;
      gotBytes, holdBytes := 0, 0;
    }

    /** Append as much of `data` as still fits (memcpy to out + gotBytes). */
    method Append(data: seq<byte>)
      requires Valid()
      modifies this, first, second
      ensures Valid()
      ensures Working() == old(Working()) + Clip(data, capacity - old(gotBytes))
      ensures Presented() == old(Presented())
    {
      var dataLen := |data|;
      if gotBytes + dataLen > capacity {
        dataLen := capacity - gotBytes;
      }
      forall i | 0 <= i < dataLen {
        out[gotBytes + i] := data[i];
      }
      gotBytes := gotBytes + dataLen;
    }

    /** Exchange the two buffers; their contents stay where they are. */
    method Swap()
      requires Valid()
      modifies this
      ensures Valid()
      ensures Presented() == old(Working()) && Working() == []
      ensures out == old(hold) && hold == old(out)
    {
      var tmpBuf := hold;
      holdBytes := gotBytes;
      hold := out;
      out := tmpBuf;
      gotBytes := 0;
    }
  }

  /** The numbers that travel with a frame. */
  datatype Stamps = Stamps(seqNo: u32, pts: u32, scr: u32)

  class StreamHandle {
    const params: Params
    const image: DoubleBuffer
    const metadata: DoubleBuffer

    var fid: bool
    /** seq, pts and last_scr */
    var stamps: Stamps
    /** hold_seq, hold_pts and hold_last_scr */
    var holdStamps: Stamps

    /** Every frame presented so far. */
    ghost var published: seq<Frame>

    ghost predicate Valid()
      reads this, image, metadata, image.first, image.second, metadata.first, metadata.second
    {
      && image != metadata
      && image.first != metadata.first && image.first != metadata.second
      && image.second != metadata.first && image.second != metadata.second
      && image.Valid() && image.capacity == params.maxFrame
      && metadata.Valid() && metadata.capacity == META_CAPACITY
      && (if published == [] then holdStamps.seqNo == 0 && image.holdBytes == 0
          else FrameWith(holdStamps, image.Presented(), metadata.Presented()) == published[|published| - 1])
    }

    static function FrameWith(stamps: Stamps, data: seq<byte>, meta: seq<byte>): Frame {
      Frame(stamps.seqNo, stamps.pts, stamps.scr, data, meta)
    }

    /** The abstract state of the reassembler. */
    ghost function State(): Asm
      requires Valid()
      reads this, image, metadata, image.first, image.second, metadata.first, metadata.second
    {
      Asm(fid, stamps.seqNo, stamps.pts, stamps.scr, image.Working(), metadata.Working(), published)
    }

    /** uvc_stream_open_ctrl and the first lines of uvc_stream_start. */
    constructor (params: Params)
      ensures Valid() && fresh(image) && fresh(metadata)
      ensures fresh(image.first) && fresh(image.second) && fresh(metadata.first) && fresh(metadata.second)
      ensures this.params == params && State() == FRESH
    {
      this.params := params;
      var i := new DoubleBuffer(params.maxFrame);
      var m := new DoubleBuffer(META_CAPACITY);
      image, metadata := i, m;
      fid, stamps, holdStamps := false, Stamps(1, 0, 0), Stamps(0, 0, 0);
      published := [];
    }

    /** Swap the working buffer with the presented buffer. */
    method SwapBuffers()
      requires Valid()
      modifies this, image, metadata
      ensures Valid() && State() == Swap(old(State()))
      ensures image.Presented() == old(image.Working()) && metadata.Presented() == old(metadata.Working())
      ensures holdStamps.seqNo == old(stamps.seqNo) && holdStamps.pts == old(stamps.pts)
              && holdStamps.scr == old(stamps.scr)
      ensures published == old(published) + [Frame(seqNo := old(stamps.seqNo), pts := old(stamps.pts),
                                                   scr := old(stamps.scr), data := old(image.Working()),
                                                   meta := old(metadata.Working()))]
      ensures stamps == Stamps((old(stamps.seqNo) + 1) % TWO_TO_32, 0, 0)
      ensures image.Working() == [] && metadata.Working() == []
      ensures image.out == old(image.hold) && image.hold == old(image.out)
    {
      published := published + [FrameWith(stamps, image.Working(), metadata.Working())];
      image.Swap();
      metadata.Swap();
      holdStamps := stamps;
      stamps := Stamps((stamps.seqNo + 1) % TWO_TO_32, 0, 0);
    }

    /** Take the frame id and time stamps from a header that has no error bit. */
    method ReadStamps(payload: Payload) returns (variableOffset: nat)
      requires Valid() && |payload| >= 2
      requires Pts(payload[1]) ==> |payload| >= 6
      requires Scr(payload[1]) ==> |payload| >= VariableOffset(payload[1]) - 2
      modifies this`fid, this`stamps
      ensures Valid() && State() == TakeStamps(old(State()), payload)
      ensures variableOffset == VariableOffset(payload[1])
    {
      hide Bit, ReadU32;
      var headerInfo := payload[1];
      variableOffset := 2;
      fid := Fid(headerInfo);
      if Pts(headerInfo) {
        stamps := stamps.(pts := ReadU32(payload, variableOffset));
        variableOffset := variableOffset + 4;
      }
      if Scr(headerInfo) {
        stamps := stamps.(scr := ReadU32(payload, variableOffset));
        variableOffset := variableOffset + 6;
      }
    }

    /** Keep the header bytes behind the time stamps. */
    method AttachMetadata(payload: Payload, variableOffset: nat, headerLen: nat)
      requires Valid() && Accepted(params, payload)
      requires 2 <= headerLen == HeaderLen(params, payload) && variableOffset == VariableOffset(payload[1])
      modifies metadata, metadata.first, metadata.second
      ensures Valid() && State() == TakeMeta(params, old(State()), payload)
    {
      hide Bit;
      if headerLen > variableOffset {
        metadata.Append(payload[variableOffset..headerLen]);
      }
    }

    /** Append image bytes to the working buffer, and present it when it is complete. */
    method AppendImage(data: seq<byte>, endOfFrame: bool)
      requires Valid()
      modifies this, image, image.first, image.second, metadata
      ensures Valid() && State() == AddImage(params, old(State()), data, endOfFrame)
    {
      if |data| > 0 {
        image.Append(data);
        if endOfFrame || image.gotBytes == params.maxFrame {
          SwapBuffers();
        }
      }
    }

    /** Process a payload transfer. */
    method ProcessPayload(payload: Payload)
      requires Valid() && Readable(params, payload)
      modifies this, image, image.first, image.second, metadata, metadata.first, metadata.second
      ensures Valid() && State() == Process(params, old(State()), payload)
    {
      assert !Eof(0) && payload[0..] == payload;
      hide Bit, HasIsightTag, TakeStamps, TakeMeta, Swap, AddImage;
      if |payload| == 0 {
        return;
      }
      var headerLen, data := 0, payload;
      if !(params.isight && !HasIsightTag(payload)) {
        headerLen := payload[0];
        if headerLen > |payload| {
          return;
        }
        data := if params.isight then [] else payload[headerLen..];
      }
      var headerInfo: byte := 0;
      if headerLen >= 2 {
        headerInfo := payload[1];
        if Err(headerInfo) {
          return;
        }
        if fid != Fid(headerInfo) && image.gotBytes != 0 {
          SwapBuffers();
        }
        var variableOffset := ReadStamps(payload);
        AttachMetadata(payload, variableOffset, headerLen);
      }
      AppendImage(data, Eof(headerInfo));
    }
  }
}
