// The open streams of a device (stream.c) and the interfaces it has claimed
// (device.c).  Streams are in an intrusive list; every open stream has its
// interface claimed, and no interface has two streams.
module StreamRegistry {
  import opened Bytes
  import opened IntrusiveLists

  /** A stream handle, by the streaming interface that it was opened on. */
  datatype Stream = Stream(interface: nat)

  datatype Opened =
    | Success(strm: Node<Stream>)
    | Busy                 // UVC_ERROR_BUSY
    | InvalidParam         // no such streaming interface
    | NoMem
    | UsbError             // the interface cannot be claimed, or the camera refuses the settings

  /** What the outside world answers while a stream is being opened. */
  datatype Answers = Answers(known: bool, memory: bool, claimable: bool, committed: bool)

  ghost predicate OneEach(ns: seq<Node<Stream>>) {
    forall i, j | 0 <= i < j < |ns| :: ns[i].data.interface != ns[j].data.interface
  }

  ghost predicate AllClaimed(ns: seq<Node<Stream>>, claimed: set<nat>) {
    forall i | 0 <= i < |ns| :: ns[i].data.interface in claimed
  }

  ghost predicate IsOpen(ns: seq<Node<Stream>>, interface: nat) {
    exists i | 0 <= i < |ns| :: ns[i].data.interface == interface
  }

  /** Of `claimed`, the interfaces still claimed when the streams `ns` have been closed. */
  ghost function LeftClaimed(claimed: set<nat>, ns: seq<Node<Stream>>, released: nat -> bool): set<nat> {
    set i | i in claimed && !(IsOpen(ns, i) && released(i))
  }

  lemma NoneClosed(claimed: set<nat>, ns: seq<Node<Stream>>, released: nat -> bool)
    ensures ns[0..] == ns && ns[..0] == [] && LeftClaimed(claimed, [], released) == claimed
  {
  }

  lemma RemoveFirst(ns: seq<Node<Stream>>, k: nat)
    requires k < |ns| && Distinct(ns[k..])
    ensures Without(ns[k..], ns[k]) == ns[k + 1..]
  {
    assert IndexOf(ns[k..], ns[k]) == 0;
  }

  lemma CloseNext(claimed: set<nat>, ns: seq<Node<Stream>>, k: nat, released: nat -> bool)
    requires k < |ns|
    ensures ns[..k + 1] == ns[..k] + [ns[k]]
    ensures var i, before := ns[k].data.interface, LeftClaimed(claimed, ns[..k], released);
            LeftClaimed(claimed, ns[..k + 1], released) == if released(i) then before - {i} else before
  {
    forall i
      ensures IsOpen(ns[..k + 1], i) <==> IsOpen(ns[..k], i) || ns[k].data.interface == i
    {
      if IsOpen(ns[..k], i) {
        var x :| 0 <= x < k && ns[..k][x].data.interface == i;
        assert ns[..k + 1][x].data.interface == i;
      }
      assert ns[..k + 1][k] == ns[k];
    }
  }

  class DeviceHandle {
    const streams: List<Stream>
    var claimed: set<nat>
    ghost var closed: seq<Node<Stream>>   // history: the streams closed, in order

    ghost predicate Valid()
      reads this, streams, streams.nodes
    {
      streams.Valid() && OneEach(streams.nodes) && AllClaimed(streams.nodes, claimed)
    }

    constructor (claimed: set<nat>)
      ensures Valid() && fresh(streams) && streams.nodes == [] && closed == [] && this.claimed == claimed
    {
      streams := new List();
      this.claimed := claimed;
      closed := [];
    }

    /** _uvc_get_stream_by_interface */
    method GetStreamByInterface(interface: nat) returns (strm: Node?<Stream>)
      requires Valid()
      ensures strm == null <==> !IsOpen(streams.nodes, interface)
      ensures strm != null ==> strm in streams.nodes && strm.data.interface == interface
    {
      strm := streams.head;
      ghost var k := 0;
      while strm != null
        invariant 0 <= k <= |streams.nodes| && strm == At(streams.nodes, k)
        invariant forall i | 0 <= i < k :: streams.nodes[i].data.interface != interface
        decreases |streams.nodes| - k
      {
        if strm.data.interface == interface {
          return;
        }
        strm := strm.next;
        k := k + 1;
      }
    }

    /** uvc_stream_open_ctrl. A failure after the claim leaves the interface claimed. */
    method OpenStream(interface: nat, a: Answers) returns (r: Opened)
      requires Valid()
      modifies this`claimed, streams, streams.nodes
      ensures Valid() && closed == old(closed)
      ensures r.Success? <==> !IsOpen(old(streams.nodes), interface) && a.known && a.memory
                              && (interface in old(claimed) || a.claimable) && a.committed
      ensures r.Busy? <==> IsOpen(old(streams.nodes), interface)
      ensures r.InvalidParam? <==> !IsOpen(old(streams.nodes), interface) && !a.known
      ensures r.NoMem? <==> !IsOpen(old(streams.nodes), interface) && a.known && !a.memory
      ensures r.UsbError? <==> !IsOpen(old(streams.nodes), interface) && a.known && a.memory
                               && ((interface !in old(claimed) && !a.claimable) || !a.committed)
      ensures r.Success? ==> fresh(r.strm) && r.strm.data == Stream(interface)
                             && streams.nodes == old(streams.nodes) + [r.strm]
      ensures !r.Success? ==> streams.nodes == old(streams.nodes)
      ensures claimed == if !r.Busy? && a.known && a.memory && a.claimable
                         then old(claimed) + {interface} else old(claimed)
    {
      var other := GetStreamByInterface(interface);
      if other != null {
        return Busy;
      }
      if !a.known {
        return InvalidParam;
      }
      if !a.memory {
        return NoMem;
      }
      var strm := new Node(Stream(interface));
      if interface !in claimed {
        if !a.claimable {
          return UsbError;
        }
        claimed := claimed + {interface};
      }
      if !a.committed {
        return UsbError;
      }
      streams.Append(strm);
      r := Success(strm);
    }

    /** uvc_stream_close. `released`: libusb has let the interface go. */
    method CloseStream(strm: Node<Stream>, released: bool)
      requires Valid() && strm in streams.nodes
      modifies this, streams, streams.nodes
      ensures Valid() && streams.nodes == Without(old(streams.nodes), strm)
      ensures closed == old(closed) + [strm]
      ensures claimed == if released then old(claimed) - {strm.data.interface} else old(claimed)
    {
      hide Linked;
      if released {
        claimed := claimed - {strm.data.interface};
      }
      streams.Delete(strm);
      closed := closed + [strm];
    }

    /** One round of the loop of uvc_stop_streaming, which deletes the node it is at. */
    method CloseAt(ghost ns: seq<Node<Stream>>, ghost k: nat, strm: Node<Stream>, released: nat -> bool)
      returns (next: Node?<Stream>)
      requires Valid() && k < |ns| && streams.nodes == ns[k..] && strm == ns[k]
      modifies this, streams, streams.nodes
      ensures Valid() && streams.nodes == ns[k + 1..] && next == At(ns, k + 1)
      ensures closed == old(closed) + [ns[k]]
      ensures var i := ns[k].data.interface;
              claimed == if released(i) then old(claimed) - {i} else old(claimed)
    {
      RemoveFirst(ns, k);
      hide OneEach, AllClaimed, Without;
      assert streams.nodes[0] == strm;
      next := strm.next;
      CloseStream(strm, released(strm.data.interface));
    }

    /** uvc_stop_streaming closes every stream exactly once, in list order, although
        each is deleted from the list that is being walked. */
    method StopStreaming(released: nat -> bool)
      requires Valid()
      modifies this, streams, streams.nodes
      ensures Valid() && streams.head == null && streams.nodes == []
      ensures closed == old(closed) + old(streams.nodes) && Distinct(old(streams.nodes))
      ensures claimed == LeftClaimed(old(claimed), old(streams.nodes), released)
    {
      ghost var ns, k: nat := streams.nodes, 0;
      var strm := streams.head;
      NoneClosed(claimed, ns, released);
      hide LeftClaimed, OneEach, AllClaimed, Distinct;
      while strm != null
        invariant Valid() && k <= |ns|
        invariant streams.nodes == ns[k..] && strm == At(ns, k)
        invariant closed == old(closed) + ns[..k]
        invariant claimed == LeftClaimed(old(claimed), ns[..k], released)
        decreases |ns| - k
      {
        CloseNext(old(claimed), ns, k, released);
        strm := CloseAt(ns, k, strm, released);
        k := k + 1;
      }
      assert ns[..k] == ns;
    }
  }
}
