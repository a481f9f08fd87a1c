// Listing, finding and counting references to devices (device.c).
module DeviceList {
  import opened Bytes

  /** bInterfaceClass and bInterfaceSubClass of an alternate setting. */
  datatype AltSetting = AltSetting(class_: byte, subclass: byte)

  /** What libusb says of a device. `config` is None if its configuration or its
      descriptor cannot be read; `readable`: its descriptor can be read later on. */
  datatype Identity = Identity(
    vendor: u16, product: u16, serial: Option<string>, config: Option<seq<seq<AltSetting>>>, readable: bool)

  /** A libusb device and its reference count. */
  class UsbDevice {
    const id: Identity
    var refs: int

    constructor (id: Identity, refs: int)
      ensures this.id == id && this.refs == refs
    {
      this.id, this.refs := id, refs;
    }
  }

  /** struct uvc_device. `frees` counts how often it has been given to free. */
  class UvcDevice {
    const usb: UsbDevice
    var ref: int
    ghost var frees: nat

    constructor (usb: UsbDevice)
      ensures this.usb == usb && ref == 0 && frees == 0
    {
      this.usb, ref, frees := usb, 0, 0;
    }

    /** uvc_ref_device */
    method Ref()
      requires frees == 0
      modifies this`ref, usb`refs
      ensures ref == old(ref) + 1 && usb.refs == old(usb.refs) + 1
    {
      ref := ref + 1;
      usb.refs := usb.refs + 1;
    }

    /** uvc_unref_device */
    method Unref()
      requires frees == 0
      modifies this, usb`refs
      ensures ref == old(ref) - 1 && usb.refs == old(usb.refs) - 1
      ensures frees == if ref == 0 then 1 else 0
    {
      usb.refs := usb.refs - 1;
      ref := ref - 1;
      if ref == 0 {
        frees := frees + 1;
      }
    }
  }

  // ----- which devices are cameras -----

  /** An alternate setting of class Video, subclass Streaming; two Imaging Source cameras
      say 255 for the class. */
  predicate Streaming(id: Identity, alt: AltSetting) {
    || (id.vendor == 0x199e && (id.product == 0x8101 || id.product == 0x8102) && alt.class_ == 255 && alt.subclass == 2)
    || (alt.class_ == 14 && alt.subclass == 2)
  }

  /** Imaging Source cameras that look like UVC cameras and are not. */
  predicate Skipped(id: Identity) {
    id.vendor == 0x199e && 0x8201 <= id.product <= 0x8208
  }

  predicate IsCamera(id: Identity) {
    && id.config.Some? && !Skipped(id)
    && exists i, j | 0 <= i < |id.config.value| && 0 <= j < |id.config.value[i]| :: Streaming(id, id.config.value[i][j])
  }

  /** Some alternate setting of some interface has this class, and the subclass Streaming. */
  ghost predicate HasStreaming(id: Identity, class_: byte) {
    id.config.Some? &&
    exists i, j | 0 <= i < |id.config.value| && 0 <= j < |id.config.value[i]| ::
      id.config.value[i][j] == AltSetting(class_, 2)
  }

  /** Which devices are cameras, by vendor, product and class: those with an alternate
      setting of class 14, Video, and subclass 2; products 0x8101 and 0x8102 of vendor
      0x199e with class 255 too, and products 0x8201 to 0x8208 of that vendor never. */
  lemma CameraRules(id: Identity)
    ensures id.vendor != 0x199e ==> (IsCamera(id) <==> HasStreaming(id, 14))
    ensures id.vendor == 0x199e && id.product !in {0x8101, 0x8102} && !(0x8200 < id.product < 0x8209) ==>
              (IsCamera(id) <==> HasStreaming(id, 14))
    ensures id.vendor == 0x199e && id.product in {0x8101, 0x8102} ==>
              (IsCamera(id) <==> HasStreaming(id, 14) || HasStreaming(id, 255))
    ensures id.vendor == 0x199e && 0x8200 < id.product < 0x8209 ==> !IsCamera(id)
  {
    if IsCamera(id) {
      var i, j :| 0 <= i < |id.config.value| && 0 <= j < |id.config.value[i]|
                  && Streaming(id, id.config.value[i][j]);
      var alt := id.config.value[i][j];
      assert alt == AltSetting(alt.class_, 2) && HasStreaming(id, alt.class_);
    }
    forall class_ | HasStreaming(id, class_)
      ensures Streaming(id, AltSetting(class_, 2)) && !Skipped(id) ==> IsCamera(id)
    {
    }
  }

  /** The loops over interfaces and alternate settings. */
  method LooksLikeCamera(id: Identity) returns (got: bool)
    requires id.config.Some?
    ensures got == IsCamera(id)
  {
    var config := id.config.value;
    got := false;
    var i := 0;
    while !got && i < |config|
      invariant i <= |config| && (got ==> IsCamera(id))
      invariant !got && !Skipped(id) ==>
                  forall a, b | 0 <= a < i && 0 <= b < |config[a]| :: !Streaming(id, config[a][b])
      decreases |config| - i, !got
    {
      var j := 0;
      while !got && j < |config[i]|
        invariant j <= |config[i]| && (got ==> IsCamera(id))
        invariant !got && !Skipped(id) ==> forall b | 0 <= b < j :: !Streaming(id, config[i][b])
        decreases |config[i]| - j, !got
      {
        if !(0x199e == id.vendor && id.product >= 0x8201 && id.product <= 0x8208) {
          var alt := config[i][j];
          if 0x199e == id.vendor && (0x8101 == id.product || 0x8102 == id.product)
             && alt.class_ == 255 && alt.subclass == 2 {
            got := true;
          }
          if alt.class_ == 14 && alt.subclass == 2 {
            got := true;
          }
        }
        j := j + 1;
      }
      i := i + 1;
    }
  }

  // ----- lists -----

  /** The devices and the libusb devices behind them are all different. */
  ghost predicate AllDistinct(list: seq<UvcDevice>) {
    forall i, j | 0 <= i < j < |list| :: list[i] != list[j] && list[i].usb != list[j].usb
  }

  ghost predicate UsbDistinct(usbs: seq<UsbDevice>) {
    forall i, j | 0 <= i < j < |usbs| :: usbs[i] != usbs[j]
  }

  function Cameras(usbs: seq<UsbDevice>): seq<UsbDevice> {
    if usbs == [] then [] else
      var k := |usbs| - 1;
      Cameras(usbs[..k]) + if IsCamera(usbs[k].id) then [usbs[k]] else []
  }

  function Usbs(list: seq<UvcDevice>): (usbs: seq<UsbDevice>)
    ensures |usbs| == |list|
  {
    seq(|list|, i requires 0 <= i < |list| => list[i].usb)
  }

  /** A search; 0 and None stand for any. */
  datatype Query = Query(vendor: int, product: int, serial: Option<string>)

  predicate Matches(q: Query, id: Identity) {
    && id.readable
    && (q.vendor == 0 || id.vendor == q.vendor)
    && (q.product == 0 || id.product == q.product)
    && (q.serial.None? || (id.serial.Some? && id.serial == q.serial))
  }

  /** What was asked for, the device has. */
  predicate Agrees(q: Query, id: Identity) {
    && (q.vendor != 0 ==> id.vendor == q.vendor)
    && (q.product != 0 ==> id.product == q.product)
    && (q.serial.Some? ==> id.serial == q.serial)
  }

  /** Its descriptor cannot be read, or something was asked for that it does not have. */
  predicate Differs(q: Query, id: Identity) {
    || !id.readable
    || (q.vendor != 0 && id.vendor != q.vendor)
    || (q.product != 0 && id.product != q.product)
    || (q.serial.Some? && id.serial != q.serial)
  }

  lemma MatchesMeans(q: Query, id: Identity)
    ensures Matches(q, id) ==> Agrees(q, id)
    ensures !Matches(q, id) ==> Differs(q, id)
  {
  }

  function Matching(list: seq<UvcDevice>, q: Query): seq<UvcDevice> {
    if list == [] then [] else
      var k := |list| - 1;
      Matching(list[..k], q) + if Matches(q, list[k].usb.id) then [list[k]] else []
  }

  /** uvc_get_device_list: a new device, with one reference to it and one to its libusb
      device, for every camera in the list of libusb, in order. */
  method GetDeviceList(usbs: seq<UsbDevice>) returns (list: seq<UvcDevice>)
    requires UsbDistinct(usbs)
    modifies set u | u in usbs
    ensures AllDistinct(list) && Usbs(list) == Cameras(usbs)
    ensures forall i | 0 <= i < |list| :: fresh(list[i]) && list[i].ref == 1 && list[i].frees == 0
    ensures forall i | 0 <= i < |usbs| :: usbs[i].refs == old(usbs[i].refs) + if IsCamera(usbs[i].id) then 1 else 0
  {
    list := [];
    var k := 0;
    CamerasAll(usbs);
    hide IsCamera, Cameras;
    while k < |usbs|
      invariant k <= |usbs|
      invariant AllDistinct(list) && Usbs(list) == Cameras(usbs[..k])
      invariant forall i | 0 <= i < |list| :: list[i].usb in usbs[..k]
      invariant forall i | 0 <= i < |list| :: fresh(list[i]) && list[i].ref == 1 && list[i].frees == 0
      invariant forall i | 0 <= i < |usbs| ::
                  usbs[i].refs == old(usbs[i].refs) + if i < k && IsCamera(usbs[i].id) then 1 else 0
    {
      CamerasNext(usbs, k);
      var dev := NewCamera(usbs[k]);
      if dev != null {
        list := list + [dev];
      }
      k := k + 1;
    }
  }

  /** One round of the loop of uvc_get_device_list. */
  method NewCamera(usb: UsbDevice) returns (dev: UvcDevice?)
    modifies usb
    ensures dev != null <==> IsCamera(usb.id)
    ensures dev != null ==> fresh(dev) && dev.usb == usb && dev.ref == 1 && dev.frees == 0
    ensures usb.refs == old(usb.refs) + if dev != null then 1 else 0
  {
    dev := null;
    if usb.id.config.Some? {
      var got := LooksLikeCamera(usb.id);
      if got {
        dev := new UvcDevice(usb);
        dev.Ref();
      }
    }
  }

  lemma CamerasNext(usbs: seq<UsbDevice>, k: nat)
    requires k < |usbs|
    ensures Cameras(usbs[..k + 1]) == Cameras(usbs[..k]) + if IsCamera(usbs[k].id) then [usbs[k]] else []
    ensures usbs[..k + 1] == usbs[..k] + [usbs[k]]
  {
    assert usbs[..k + 1][..k] == usbs[..k];
  }

  lemma CamerasAll(usbs: seq<UsbDevice>)
    ensures Cameras(usbs[..0]) == [] && usbs[..|usbs|] == usbs
  {
  }

  /** uvc_free_device_list with unref_devices = 1. */
  method FreeDeviceList(list: seq<UvcDevice>)
    requires AllDistinct(list) && forall i | 0 <= i < |list| :: list[i].frees == 0
    modifies list, Usbs(list)`refs
    ensures forall i | 0 <= i < |list| ::
              && list[i].ref == old(list[i].ref) - 1 && list[i].usb.refs == old(list[i].usb.refs) - 1
              && list[i].frees == if list[i].ref == 0 then 1 else 0
  {
    var k := 0;
    while k < |list|
      invariant k <= |list|
      invariant forall i | 0 <= i < k ::
                  && list[i].ref == old(list[i].ref) - 1 && list[i].usb.refs == old(list[i].usb.refs) - 1
                  && list[i].frees == if list[i].ref == 0 then 1 else 0
      invariant forall i | k <= i < |list| ::
                  list[i].ref == old(list[i].ref) && list[i].usb.refs == old(list[i].usb.refs) && list[i].frees == 0
    {
      assert Usbs(list)[k] == list[k].usb;
      list[k].Unref();
      k := k + 1;
    }
  }

  /** A device that is kept has one reference and is not freed, and so has its libusb
      device; any other has none, and has been freed once. */
  twostate predicate Settled(d: UvcDevice, kept: bool)
    reads d, d.usb
  {
    && d.ref == (if kept then 1 else 0) && d.frees == (if kept then 0 else 1)
    && d.usb.refs == old(d.usb.refs) - (if kept then 0 else 1)
  }

  /** The loop of uvc_find_devices. */
  method RefMatching(list: seq<UvcDevice>, q: Query) returns (devs: seq<UvcDevice>)
    requires AllDistinct(list) && forall i | 0 <= i < |list| :: list[i].frees == 0
    modifies list, Usbs(list)`refs
    ensures devs == Matching(list, q)
    ensures forall i | 0 <= i < |list| ::
              var n := if Matches(q, list[i].usb.id) then 1 else 0;
              list[i].ref == old(list[i].ref) + n && list[i].usb.refs == old(list[i].usb.refs) + n && list[i].frees == 0
  {
    hide Matches;
    devs := [];
    var k := 0;
    assert list[..0] == [];
    while k < |list|
      invariant k <= |list| && devs == Matching(list[..k], q)
      invariant forall i | 0 <= i < |list| ::
                  var n := if i < k && Matches(q, list[i].usb.id) then 1 else 0;
                  && list[i].ref == old(list[i].ref) + n && list[i].usb.refs == old(list[i].usb.refs) + n
                  && list[i].frees == 0
    {
      var dev := list[k];
      MatchingNext(list, q, k);
      hide Matching;
      assert Usbs(list)[k] == dev.usb;
      if Matches(q, dev.usb.id) {
        dev.Ref();
        devs := devs + [dev];
      }
      k := k + 1;
    }
    assert list[..k] == list;
  }

  lemma MatchingNext(list: seq<UvcDevice>, q: Query, k: nat)
    requires k < |list|
    ensures Matching(list[..k + 1], q) == Matching(list[..k], q) + if Matches(q, list[k].usb.id) then [list[k]] else []
  {
    assert list[..k + 1][..k] == list[..k];
  }

  /** uvc_find_devices, behind the listing of the devices. */
  method KeepMatching(list: seq<UvcDevice>, q: Query) returns (devs: seq<UvcDevice>)
    requires AllDistinct(list) && forall i | 0 <= i < |list| :: list[i].ref == 1 && list[i].frees == 0
    modifies list, Usbs(list)`refs
    ensures devs == Matching(list, q)
    ensures forall i | 0 <= i < |list| :: Settled(list[i], Matches(q, list[i].usb.id))
  {
    hide Matches, Matching;
    devs := RefMatching(list, q);
    FreeDeviceList(list);
  }

  /** uvc_find_device, behind the listing: the first device that matches is number `k`. */
  method KeepFirst(list: seq<UvcDevice>, q: Query) returns (dev: Option<UvcDevice>, ghost k: nat)
    requires AllDistinct(list) && forall i | 0 <= i < |list| :: list[i].ref == 1 && list[i].frees == 0
    modifies list, Usbs(list)`refs
    ensures k <= |list| && dev == (if k < |list| then Some(list[k]) else None)
    ensures k < |list| ==> Matches(q, list[k].usb.id)
    ensures forall i | 0 <= i < k :: !Matches(q, list[i].usb.id)
    ensures forall i | 0 <= i < |list| :: Settled(list[i], i == k)
  {
    var n := 0;
    while n < |list| && !Matches(q, list[n].usb.id)
      invariant n <= |list| && forall i | 0 <= i < n :: !Matches(q, list[i].usb.id)
    {
      n := n + 1;
    }
    dev, k := None, n;
    if n < |list| {
      assert Usbs(list)[n] == list[n].usb;
      list[n].Ref();
      dev := Some(list[n]);
    }
    FreeDeviceList(list);
  }

  lemma {:induction false} CamerasListed(usbs: seq<UsbDevice>)
    ensures forall i | 0 <= i < |Cameras(usbs)| :: Cameras(usbs)[i] in usbs && IsCamera(Cameras(usbs)[i].id)
    ensures forall u | u in usbs && IsCamera(u.id) :: u in Cameras(usbs)
    decreases |usbs|
  {
    hide IsCamera;
    if usbs != [] {
      var k := |usbs| - 1;
      CamerasListed(usbs[..k]);
      assert usbs == usbs[..k] + [usbs[k]];
    }
  }

  /** uvc_find_devices: exactly the cameras that match, in order, with one reference each;
      every other camera that was listed has been freed, once, and no reference is left
      on any other libusb device. `listed` are all devices that were created. */
  method FindDevices(usbs: seq<UsbDevice>, q: Query)
    returns (found: bool, devs: seq<UvcDevice>, ghost listed: seq<UvcDevice>)
    requires UsbDistinct(usbs)
    modifies set u | u in usbs
    ensures Usbs(listed) == Cameras(usbs) && devs == Matching(listed, q) && (found <==> devs != [])
    ensures forall d | d in devs :: d in listed && Agrees(q, d.usb.id)
    ensures forall d | d in listed && d !in devs :: Differs(q, d.usb.id)
    ensures forall i | 0 <= i < |listed| ::
              if Matches(q, listed[i].usb.id) then listed[i].ref == 1 && listed[i].frees == 0
              else listed[i].ref == 0 && listed[i].frees == 1
    ensures forall u | u in usbs ::
              u.refs == old(u.refs) + if IsCamera(u.id) && Matches(q, u.id) then 1 else 0
  {
    var list := GetDeviceList(usbs);
    CamerasListed(usbs);
    hide IsCamera, Matches, Cameras, Matching, Agrees, Differs;
    assert forall i | 0 <= i < |list| :: Usbs(list)[i] in usbs;
    devs := KeepMatching(list, q);
    listed, found := list, |devs| > 0;
    MatchingListed(list, q);
    forall u | u in usbs
      ensures u.refs == old(u.refs) + if IsCamera(u.id) && Matches(q, u.id) then 1 else 0
    {
      if IsCamera(u.id) {
        var i :| 0 <= i < |list| && Usbs(list)[i] == u;
        assert list[i].usb == u;
      }
    }
  }

  /** uvc_find_device: the first camera that matches, with one reference; every other
      camera that was listed has been freed, once. */
  method FindDevice(usbs: seq<UsbDevice>, q: Query) returns (dev: Option<UvcDevice>, ghost listed: seq<UvcDevice>)
    requires UsbDistinct(usbs)
    modifies set u | u in usbs
    ensures Usbs(listed) == Cameras(usbs)
    ensures dev.None? ==> Matching(listed, q) == []
    ensures dev.Some? ==> Agrees(q, dev.value.usb.id)
    ensures dev.None? ==> forall d | d in listed :: Differs(q, d.usb.id)
    ensures dev.Some? ==> Matching(listed, q) != [] && Matching(listed, q)[0] == dev.value
    ensures forall i | 0 <= i < |listed| ::
              if dev == Some(listed[i]) then listed[i].ref == 1 && listed[i].frees == 0
              else listed[i].ref == 0 && listed[i].frees == 1
    ensures forall u | u in usbs :: u.refs == old(u.refs) + if dev.Some? && dev.value.usb == u then 1 else 0
  {
    var list := GetDeviceList(usbs);
    CamerasListed(usbs);
    hide IsCamera, Matches, Cameras, Matching, Agrees, Differs;
    assert forall i | 0 <= i < |list| :: Usbs(list)[i] in usbs;
    ghost var k;
    dev, k := KeepFirst(list, q);
    listed := list;
    if k < |list| {
      FirstMatching(list, q, k);
      MatchesMeans(q, list[k].usb.id);
    } else {
      NoneMatching(list, q);
      MatchingListed(list, q);
    }
    forall u | u in usbs
      ensures u.refs == old(u.refs) + if dev.Some? && dev.value.usb == u then 1 else 0
    {
      assert k < |list| ==> Usbs(list)[k] == dev.value.usb;
      if IsCamera(u.id) {
        var i :| 0 <= i < |list| && Usbs(list)[i] == u;
        assert list[i].usb == u;
      }
    }
  }

  lemma {:induction false} MatchingListed(list: seq<UvcDevice>, q: Query)
    ensures forall d | d in Matching(list, q) :: d in list && Agrees(q, d.usb.id)
    ensures forall d | d in list && d !in Matching(list, q) :: Differs(q, d.usb.id)
    decreases |list|
  {
    hide Matches, Agrees, Differs;
    if list != [] {
      var k := |list| - 1;
      MatchingListed(list[..k], q);
      MatchesMeans(q, list[k].usb.id);
      assert list == list[..k] + [list[k]];
    }
  }

  lemma {:induction false} NoneMatching(list: seq<UvcDevice>, q: Query)
    requires forall i | 0 <= i < |list| :: !Matches(q, list[i].usb.id)
    ensures Matching(list, q) == []
    decreases |list|
  {
    hide Matches;
    if list != [] {
      NoneMatching(list[..|list| - 1], q);
    }
  }

  lemma {:induction false} FirstMatching(list: seq<UvcDevice>, q: Query, k: nat)
    requires k < |list| && Matches(q, list[k].usb.id) && forall i | 0 <= i < k :: !Matches(q, list[i].usb.id)
    ensures Matching(list, q) != [] && Matching(list, q)[0] == list[k]
    decreases |list|
  {
    hide Matches;
    if k < |list| - 1 {
      FirstMatching(list[..|list| - 1], q, k);
    } else {
      NoneMatching(list[..k], q);
    }
  }
}
