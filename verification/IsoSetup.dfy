// The choice of an alternate setting for isochronous streaming (stream.c,
// uvc_stream_start).  Section 9.6.6 of USB 2.0 defines wMaxPacketSize.
module IsoSetup {
  import opened Bytes

  /** An endpoint descriptor; `companion` is wBytesPerInterval, if there is a SuperSpeed
      endpoint companion descriptor. */
  datatype Endpoint = Endpoint(address: byte, maxPacketSize: u16, companion: Option<u16>)

  type AltSetting = seq<Endpoint>

  /** (x & 0x07ff) * (((x >> 11) & 3) + 1) */
  function PacketBytes(maxPacketSize: u16): nat {
    maxPacketSize % 0x800 * (maxPacketSize / 0x800 % 4 + 1)
  }

  /** Section 9.6.6: bits 0 to 10 are the packet size, bits 11 and 12 count additional
      transactions, and the rest is reserved. */
  lemma PacketBytesOf(size: nat, additional: nat, reserved: nat)
    requires size < 0x800 && additional < 4 && reserved < 8
    ensures PacketBytes(size + 0x800 * additional + 0x2000 * reserved) == size * (additional + 1)
  {
    var x := size + 0x800 * additional + 0x2000 * reserved;
    assert x / 0x800 == additional + 4 * reserved && x % 0x800 == size;
  }

  /** The endpoint that decides: the first with a companion descriptor or the address sought. */
  predicate Decides(alt: AltSetting, address: byte, n: nat) {
    && n < |alt|
    && (alt[n].companion.Some? || alt[n].address == address)
    && forall m | 0 <= m < n :: alt[m].companion.None? && alt[m].address != address
  }

  function EndpointBytes(e: Endpoint): nat {
    if e.companion.Some? then e.companion.value else PacketBytes(e.maxPacketSize)
  }

  /** What an alternate setting can carry per packet is `bytes`. */
  ghost predicate Carries(alt: AltSetting, address: byte, bytes: nat) {
    (exists n: nat :: Decides(alt, address, n) && bytes == EndpointBytes(alt[n]))
    || (bytes == 0 && forall n: nat :: !Decides(alt, address, n))
  }

  /** The endpoint descriptor gives, after section 9.6.6, packets of `size` bytes with
      `additional` further transactions, and there is no companion descriptor. */
  predicate Plain(e: Endpoint, size: nat, additional: nat) {
    && e.companion.None? && size < 0x800 && additional < 4
    && e.maxPacketSize % 0x2000 == size + 0x800 * additional
  }

  lemma PlainBytes(e: Endpoint, size: nat, additional: nat)
    requires Plain(e, size, additional)
    ensures EndpointBytes(e) == size * (additional + 1)
  {
    PacketBytesOf(size, additional, e.maxPacketSize / 0x2000);
  }

  lemma OneDecides(alt: AltSetting, address: byte, n: nat, m: nat)
    requires Decides(alt, address, n) && Decides(alt, address, m)
    ensures n == m
  {
  }

  lemma CarriesOne(alt: AltSetting, address: byte, a: nat, b: nat)
    requires Carries(alt, address, a) && Carries(alt, address, b)
    ensures a == b
  {
    if n: nat :| Decides(alt, address, n) && a == EndpointBytes(alt[n]) {
      var m: nat :| Decides(alt, address, m) && b == EndpointBytes(alt[m]);
      OneDecides(alt, address, n, m);
    }
  }

  /** What is carried, by the kind of the endpoint that decides. */
  lemma CarriesByDecider(alt: AltSetting, address: byte, bytes: nat)
    requires Carries(alt, address, bytes)
    ensures forall n: nat, size: nat, additional: nat {:trigger Plain(alt[n], size, additional)} |
              Decides(alt, address, n) && Plain(alt[n], size, additional) :: bytes == size * (additional + 1)
    ensures forall n: nat | Decides(alt, address, n) && alt[n].companion.Some? :: bytes == alt[n].companion.value
  {
    forall n: nat | Decides(alt, address, n)
      ensures bytes == EndpointBytes(alt[n])
    {
      CarriesOne(alt, address, bytes, EndpointBytes(alt[n]));
    }
    forall n: nat, size: nat, additional: nat | Decides(alt, address, n) && Plain(alt[n], size, additional)
      ensures bytes == size * (additional + 1)
    {
      PlainBytes(alt[n], size, additional);
    }
  }

  /** The loop over the endpoints of an alternate setting. */
  method BytesPerPacket(alt: AltSetting, address: byte) returns (bytes: nat)
    ensures Carries(alt, address, bytes)
  {
    bytes := 0;
    var n := 0;
    while n < |alt|
      invariant n <= |alt| && bytes == 0
      invariant forall m | 0 <= m < n :: alt[m].companion.None? && alt[m].address != address
    {
      var e := alt[n];
      if e.companion.Some? {
        assert Decides(alt, address, n);
        return e.companion.value;
      } else if e.address == address {
        assert Decides(alt, address, n);
        return PacketBytes(e.maxPacketSize);
      }
      n := n + 1;
    }
  }

  /** A transfer: how many packets of how many bytes. */
  datatype Setup = Setup(alt: nat, packets: nat, packetBytes: nat)

  const MAX_PACKETS: nat := 32

  /** `packets` packets of `size` bytes hold a frame, with less than a packet to spare; but
      they are at most 32, which is what they are when 31 do not hold it. */
  ghost predicate CoversFrame(packets: nat, size: nat, maxFrame: nat) {
    if packets < MAX_PACKETS then maxFrame <= packets * size < maxFrame + size
    else packets == MAX_PACKETS && (MAX_PACKETS - 1) * size < maxFrame
  }

  method PacketsPerTransfer(maxFrame: u32, size: nat) returns (packets: nat)
    requires size > 0
    ensures CoversFrame(packets, size, maxFrame)
  {
    packets := (maxFrame + size - 1) / size;
    RoundsUp(maxFrame, size, packets);
    if packets > MAX_PACKETS {
      AtLeast(packets - 1, MAX_PACKETS - 1, size);
      packets := MAX_PACKETS;
    }
  }

  lemma RoundsUp(x: nat, size: nat, q: nat)
    requires size > 0 && q == (x + size - 1) / size
    ensures x <= q * size < x + size
  {
    var r := (x + size - 1) % size;
    assert x + size - 1 == size * q + r;
  }

  lemma AtLeast(a: nat, b: nat, size: nat)
    requires a >= b
    ensures a * size >= b * size && (a + 1) * size == a * size + size
  {
  }

  /** The loop over the alternate settings takes the first, in the order of their
      indices, whose packets hold `payload` bytes; None stands for UVC_ERROR_INVALID_MODE.
      The source divides by the packet size found: it must not be 0. */
  method ChooseAltSetting(alts: seq<AltSetting>, address: byte, payload: u32, maxFrame: u32) returns (r: Option<Setup>)
    requires payload > 0 || (alts != [] ==> !Carries(alts[0], address, 0))
    ensures r.None? <==> forall i, bytes: nat | 0 <= i < |alts| && Carries(alts[i], address, bytes) :: bytes < payload
    ensures r.Some? ==> r.value.alt < |alts| && Carries(alts[r.value.alt], address, r.value.packetBytes)
                        && r.value.packetBytes >= payload
    ensures r.Some? ==> forall i, bytes: nat | 0 <= i < r.value.alt && Carries(alts[i], address, bytes) ::
                          bytes < payload
    ensures r.Some? ==> CoversFrame(r.value.packets, r.value.packetBytes, maxFrame)
    ensures r.Some? ==> forall n: nat, size: nat, additional: nat
                          {:trigger Plain(alts[r.value.alt][n], size, additional)} |
                          Decides(alts[r.value.alt], address, n) && Plain(alts[r.value.alt][n], size, additional) ::
                          r.value.packetBytes == size * (additional + 1)
    ensures r.Some? ==> forall n: nat | Decides(alts[r.value.alt], address, n)
                                        && alts[r.value.alt][n].companion.Some? ::
                          r.value.packetBytes == alts[r.value.alt][n].companion.value
  {
    hide CoversFrame;
    var i := 0;
    while i < |alts|
      invariant i <= |alts| && (payload == 0 ==> i == 0)
      invariant forall j, bytes: nat | 0 <= j < i && Carries(alts[j], address, bytes) :: bytes < payload
    {
      var size := BytesPerPacket(alts[i], address);
      if size >= payload {
        var packets := PacketsPerTransfer(maxFrame, size);
        CarriesByDecider(alts[i], address, size);
        return Some(Setup(i, packets, size));
      }
      forall bytes: nat | Carries(alts[i], address, bytes)
        ensures bytes < payload
      {
        CarriesOne(alts[i], address, bytes, size);
      }
      i := i + 1;
    }
    r := None;
  }
}
