/**
 * The addon's entry points: the device factory and openFirstDevice, which
 * enumerates the FTDI bridges, picks the first Enttec DMX USB Pro (or, when
 * any device will do, the first device of the list), creates the matching
 * driver and opens it at that list position.
 */
module GenericDmx {
  import opened Basics
  import opened Usb
  import opened Ftdi
  import opened DmxBase
  import opened UsbProProtocol
  import opened UsbPro
  import opened Raw

  /** A driver of either kind (the `DmxDevice*` the factory hands out). */
  datatype AnyDevice = RawDevice(raw: DmxRawDevice) | ProDevice(pro: DmxUsbProDevice)
  {
    function Type(): DeviceType {
      match this
      case RawDevice(r) => r.GetType()
      case ProDevice(p) => p.GetType()
    }
  }

  /** createDevice(type): a new, unopened driver of the given type on the bus. */
  method CreateDevice(usb: Bus, t: DeviceType) returns (d: AnyDevice)
    ensures d.Type() == t
    ensures d.RawDevice? ==> fresh(d.raw) && fresh(d.raw.base) && d.raw.base.ftdiDevice == null && d.raw.Valid() && !d.raw.IsOpen() && d.raw.usb == usb
    ensures d.ProDevice? ==> fresh(d.pro) && fresh(d.pro.base) && d.pro.base.ftdiDevice == null && d.pro.Valid() && !d.pro.IsOpen() && d.pro.usb == usb
    ensures d.ProDevice? ==> d.pro.widgetParams.None? && d.pro.userConfigData.None? && d.pro.serialNumber.None?
  {
    match t
    case DmxDeviceRaw =>
      var r := new DmxRawDevice(usb);
      d := RawDevice(r);
    case DmxDeviceEnttecPro =>
      var p := new DmxUsbProDevice(usb);
      d := ProDevice(p);
  }

  /** The list entry's description starts with "DMX USB PRO"; an entry without descriptor strings never does. */
  predicate IsUsbPro(di: DeviceInfo) {
    di.usbInfo.Some? && StartsWith(di.usbInfo.value.description, USB_DESCRIPTION)
  }

  /** An entry the scan stops at: a USB Pro, or any entry at all unless only a USB Pro will do. */
  predicate Qualifies(di: DeviceInfo, usbProOnly: bool) {
    IsUsbPro(di) || !usbProOnly
  }

  /** The position of the first qualifying entry at or after position `k`. */
  function FirstQualifying(devs: seq<DeviceInfo>, usbProOnly: bool, k: nat): (s: Option<nat>)
    requires k <= |devs|
    ensures s.Some? ==> k <= s.value < |devs| && Qualifies(devs[s.value], usbProOnly)
    ensures s.Some? ==> forall j :: k <= j < s.value ==> !Qualifies(devs[j], usbProOnly)
    ensures s.None? ==> forall j :: k <= j < |devs| ==> !Qualifies(devs[j], usbProOnly)
    decreases |devs| - k
  {
    if k == |devs| then None
    else if Qualifies(devs[k], usbProOnly) then Some(k)
    else FirstQualifying(devs, usbProOnly, k + 1)
  }

  /** The position openFirstDevice opens, if any. */
  function Selection(devs: seq<DeviceInfo>, usbProOnly: bool): Option<nat> {
    FirstQualifying(devs, usbProOnly, 0)
  }

  /** When any device will do, a non-empty list always yields its first entry, and an empty one nothing. */
  lemma FallbackSelectsFirst(devs: seq<DeviceInfo>)
    ensures Selection(devs, false) == if devs == [] then None else Some(0)
  {
  }

  /**
   * When only a USB Pro will do, the selection is the first USB Pro of the
   * list, and there is none exactly when no entry is a USB Pro; entries
   * without descriptor strings are passed over.
   */
  lemma {:induction false} UsbProOnlySelectsFirstPro(devs: seq<DeviceInfo>, k: nat)
    requires k <= |devs|
    ensures FirstQualifying(devs, true, k).Some? <==> exists j :: k <= j < |devs| && IsUsbPro(devs[j])
    ensures FirstQualifying(devs, true, k).Some? ==>
              var p := FirstQualifying(devs, true, k).value;
              IsUsbPro(devs[p]) && forall j :: k <= j < p ==> !IsUsbPro(devs[j])
    decreases |devs| - k
  {
    if k < |devs| && !IsUsbPro(devs[k]) {
      UsbProOnlySelectsFirstPro(devs, k + 1);
    }
  }

  /** Without filters, open() at list position `p` binds to the entry at `p`. */
  lemma UnfilteredTarget(usb: Bus, p: nat)
    requires !usb.allocFails && p < |usb.devices|
    ensures Target(usb, None, None, p) == Some(Listing(usb.devices)[p])
  {
    var devs := Listing(usb.devices);
    UnfilteredSelectsIndex(devs, p);
    var s := Selected(devs, None, None, p);
    SelectionUnique(devs, None, None, p, s.value, p);
  }

  /**
   * openFirstDevice(usbProOnly): enumerate; return nothing for an empty
   * list; scan for the first qualifying entry, creating a USB Pro driver for
   * a USB Pro entry and a raw driver for any other; open the driver without
   * filters at that list position and discard it when the open fails. The
   * enumeration must find a context: the driver reads the list's size
   * without checking that a list came back.
   */
  method OpenFirstDevice(usb: Bus, usbProOnly: bool) returns (d: Option<AnyDevice>)
    requires !usb.allocFails
    modifies usb
    ensures var list := Listing(usb.devices);
            match Selection(list, usbProOnly)
            case None => d.None? && usb.Issued([])
            case Some(p) =>
              var h := list[p].ftdiDevice;
              if IsUsbPro(list[p]) then
                && d.Some? && d.value.Type() == DmxDeviceEnttecPro && fresh(d.value.pro) && d.value.pro.IsOpen()
                && usb.Issued(BaseOpenCommands(h))
              else
                && (d.Some? <==> Configured(usb.answer))
                && (d.Some? ==> d.value.Type() == DmxDeviceRaw && fresh(d.value.raw) && d.value.raw.IsOpen())
                && usb.Issued(BaseOpenCommands(h) + ConfigCommands(usb.answer))
  {
    var devs := GetDeviceList(usb, true);
    var list := devs.value;
    ListingIsGetDeviceList(usb.devices, list);
    if |list| == 0 {
      return None;
    }
    var dev: Option<AnyDevice> := None;
    var listIdx := -1;
    var devIsUsbPro := false;
    var i := 0;
    while i < |list|
      invariant 0 <= i <= |list|
      invariant FirstQualifying(list, usbProOnly, 0) == FirstQualifying(list, usbProOnly, i)
      invariant listIdx == -1 && dev.None? && !devIsUsbPro
      invariant unchanged(usb)
    {
      if IsUsbPro(list[i]) {
        var created := CreateDevice(usb, DmxDeviceEnttecPro);
        dev, listIdx, devIsUsbPro := Some(created), i, true;
        break;
      } else if !usbProOnly {
        var created := CreateDevice(usb, DmxDeviceRaw);
        dev, listIdx, devIsUsbPro := Some(created), i, false;
        break;
      }
      i := i + 1;
    }
    if listIdx < 0 {
      return None;
    }
    UnfilteredTarget(usb, listIdx);
    var ok := OpenDevice(dev.value, listIdx);
    d := if ok then dev else None;
  }

  /** open(0, 0, index) on a freshly created driver of either kind. */
  method OpenDevice(dev: AnyDevice, index: nat) returns (success: bool)
    requires dev.RawDevice? ==> dev.raw.Valid() && !dev.raw.IsOpen()
    requires dev.ProDevice? ==> dev.pro.Valid() && !dev.pro.IsOpen()
    modifies if dev.RawDevice? then {dev.raw.base, dev.raw.usb, dev.raw.base.ftdiDevice} else {dev.pro.base, dev.pro.usb}
    ensures var usb := if dev.RawDevice? then dev.raw.usb else dev.pro.usb;
            var target := Target(usb, None, None, index);
            && (target.None? ==> !success && usb.Issued([]))
            && (target.Some? ==>
                  var h := target.value.ftdiDevice;
                  if dev.ProDevice? then
                    success && dev.pro.IsOpen() && usb.Issued(BaseOpenCommands(h))
                  else
                    && success == Configured(usb.answer) == dev.raw.IsOpen()
                    && usb.Issued(BaseOpenCommands(h) + ConfigCommands(usb.answer)))
  {
    match dev
    case RawDevice(r) =>
      success := r.Open(None, None, index);
    case ProDevice(p) =>
      success := p.base.Open(None, None, index);
  }
}
