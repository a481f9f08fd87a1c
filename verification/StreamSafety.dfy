// The reassembler as a program of micro-operations: run to its end it is
// _uvc_process_payload, and at no point does it overrun the working buffer.
module StreamSafety {
  import opened Bytes
  import opened Reassembly
  import opened StreamProtocol

  // ----- the micro-operations implement _uvc_process_payload -----

  predicate NoReset(ops: seq<Op>) {
    ops == [] || ops[0] != OpReset
  }

  /** The operations never overrun the buffer, and a reset comes after every
      publication and nowhere else. */
  predicate Sound(c: Params, len: nat, ops: seq<Op>)
    decreases |ops|
  {
    if ops == [] then len <= c.maxFrame else
      match ops[0]
      case OpHeader(p) => NoReset(ops[1..]) && Sound(c, len, ops[1..])
      case OpByte(b) => len < c.maxFrame && NoReset(ops[1..]) && Sound(c, len + 1, ops[1..])
      case OpPublish => len <= c.maxFrame && ops[1..] != [] && ops[1] == OpReset && Sound(c, len, ops[1..])
      case OpReset => NoReset(ops[1..]) && Sound(c, 0, ops[1..])
  }

  lemma {:induction false} RunAppend(c: Params, s: Asm, x: seq<Op>, y: seq<Op>)
    ensures Run(c, s, x + y) == Run(c, Run(c, s, x), y)
    decreases |x|
  {
    if x == [] {
      assert x + y == y;
    } else {
      RunAppend(c, Apply(c, s, x[0]), x[1..], y);
      assert (x + y)[1..] == x[1..] + y;
    }
  }

  lemma RunSwap(c: Params, s: Asm, rest: seq<Op>)
    ensures Run(c, s, SWAP_OPS + rest) == Run(c, Swap(s), rest)
    ensures Run(c, s, SWAP_OPS) == Swap(s)
  {
    RunAppend(c, s, SWAP_OPS, rest);
    var s1 := Apply(c, s, OpPublish);
    assert SWAP_OPS[1..] == [OpReset] && SWAP_OPS[1..][1..] == [];
    assert Run(c, s, SWAP_OPS) == Run(c, s1, [OpReset]) == Run(c, Apply(c, s1, OpReset), []);
  }

  lemma SoundSwap(c: Params, len: nat, rest: seq<Op>)
    requires len <= c.maxFrame && NoReset(rest) && Sound(c, 0, rest)
    ensures Sound(c, len, SWAP_OPS + rest)
  {
    var ops := SWAP_OPS + rest;
    assert ops[1..][1..] == rest;
    assert Sound(c, len, ops[1..]);
  }

  lemma {:induction false} RunBytes(c: Params, s: Asm, data: seq<byte>, rest: seq<Op>)
    requires |s.got| + |data| <= c.maxFrame
    ensures Run(c, s, ByteOps(data) + rest) == Run(c, s.(got := s.got + data), rest)
    ensures NoReset(rest) && Sound(c, |s.got| + |data|, rest) ==>
              NoReset(ByteOps(data) + rest) && Sound(c, |s.got|, ByteOps(data) + rest)
    decreases |data|
  {
    if data == [] {
      assert ByteOps(data) + rest == rest;
      assert s.got + data == s.got;
    } else {
      var s1 := s.(got := s.got + [data[0]]);
      RunBytes(c, s1, data[1..], rest);
      assert (ByteOps(data) + rest)[1..] == ByteOps(data[1..]) + rest;
      assert s1.got + data[1..] == s.got + data;
    }
  }

  lemma RunImage(c: Params, s: Asm, data: seq<byte>, eof: bool)
    requires |s.got| <= c.maxFrame
    ensures Run(c, s, ImageOps(c, |s.got|, data, eof)) == AddImage(c, s, data, eof)
    ensures NoReset(ImageOps(c, |s.got|, data, eof)) && Sound(c, |s.got|, ImageOps(c, |s.got|, data, eof))
  {
    if data != [] {
      var fit := Clip(data, c.maxFrame - |s.got|);
      var tail: seq<Op> := if eof || |s.got| + |fit| == c.maxFrame then SWAP_OPS else [];
      RunBytes(c, s, fit, tail);
      RunSwap(c, s.(got := s.got + fit), []);
      SoundSwap(c, |s.got| + |fit|, []);
      assert SWAP_OPS + [] == SWAP_OPS;
    }
  }

  /** Running the plan of a payload is processing the payload. */
  lemma PlanRuns(c: Params, s: Asm, p: Payload)
    requires Bounded(c, s) && Readable(c, p)
    ensures Run(c, s, Plan(c, s, p)) == Process(c, s, p)
    ensures NoReset(Plan(c, s, p)) && Sound(c, |s.got|, Plan(c, s, p))
  {
    hide Bit, TakeHeader, AddImage, ImageOps, Swap;
    if Accepted(c, p) {
      var data := ImageBytes(c, p);
      if HeaderLen(c, p) < 2 {
        RunImage(c, s, data, false);
      } else {
        SwapShape(s);
        var s1 := if Flushes(c, s, p) then Swap(s) else s;
        HeaderShape(c, s1, p);
        var s2 := TakeHeader(c, s1, p);
        RunImage(c, s2, data, Eof(p[1]));
        var tail := ImageOps(c, |s2.got|, data, Eof(p[1]));
        var ops := [OpHeader(p)] + tail;
        assert ops[1..] == tail;
        assert Run(c, s1, ops) == Run(c, s2, tail);
        if Flushes(c, s, p) {
          RunSwap(c, s, ops);
          SoundSwap(c, |s.got|, ops);
          assert Plan(c, s, p) == SWAP_OPS + ops;
        } else {
          assert Plan(c, s, p) == ops;
        }
      }
    }
  }

  lemma SwapShape(s: Asm)
    ensures Swap(s).got == [] && Swap(s).meta == []
  {
  }

  lemma HeaderShape(c: Params, s: Asm, p: Payload)
    requires Accepted(c, p) && Readable(c, p) && HeaderLen(c, p) >= 2 && |s.meta| <= META_CAPACITY
    ensures TakeHeader(c, s, p).got == s.got && TakeHeader(c, s, p).published == s.published
    ensures TakeHeader(c, s, p).seqNo == s.seqNo
    ensures |TakeHeader(c, s, p).meta| <= META_CAPACITY
  {
  }
}
