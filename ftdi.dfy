/**
 * The USB-serial session over one FTDI bridge: enumeration, selection by
 * description/serial prefix and index, open and close, the line-configuration
 * pass-throughs with their not-open guards, and the timed read loop.
 */
module Ftdi {
  import opened Basics
  import opened Usb

  /** Returned by every session operation that needs an open device. */
  const RV_DEVICE_NOT_OPEN: int := -19999

  /** Length of each descriptor string buffer. */
  const USB_INFO_FIELD_LENGTH: nat := 256

  /** One entry of the device list: the native device and its descriptor strings, if they could be read. */
  datatype DeviceInfo = DeviceInfo(ftdiDevice: nat, usbInfo: Option<UsbInformation>)

  // ---------------------------------------------------------------------------
  // Enumeration

  /** The device list that enumeration of `devices` produces. */
  function Listing(devices: seq<UsbDevice>): seq<DeviceInfo> {
    seq(|devices|, i requires 0 <= i < |devices| => DeviceInfo(devices[i].handle, devices[i].strings))
  }

  /**
   * getDeviceList: a fresh list with one entry per enumerated device, in
   * order; an entry whose descriptor strings could not be fetched has no
   * usbInfo. Without a caller's context (`ownContext`) the function allocates
   * one and has no list when that allocation fails. Any earlier list is
   * discarded: the result depends on the enumeration alone.
   */
  method GetDeviceList(usb: Bus, ownContext: bool) returns (devs: Option<seq<DeviceInfo>>)
    ensures devs.None? <==> ownContext && usb.allocFails
    ensures devs.Some? ==> |devs.value| == |usb.devices|
    ensures devs.Some? ==> forall i :: 0 <= i < |devs.value| ==>
              devs.value[i].ftdiDevice == usb.devices[i].handle && devs.value[i].usbInfo == usb.devices[i].strings
  {
    if ownContext && usb.allocFails {
      return None;
    }
    var list: seq<DeviceInfo> := [];
    var k := 0;
    while k < |usb.devices|
      invariant 0 <= k <= |usb.devices|
      invariant |list| == k
      invariant forall i :: 0 <= i < k ==>
                  list[i].ftdiDevice == usb.devices[i].handle && list[i].usbInfo == usb.devices[i].strings
    {
      var dev := usb.devices[k];
      var info := FetchUsbInformation(dev);
      list := list + [DeviceInfo(dev.handle, info)];
      k := k + 1;
    }
    devs := Some(list);
  }

  /** fetchUsbInformation: the descriptor strings libftdi reads for a device, absent when it fails. */
  method FetchUsbInformation(dev: UsbDevice) returns (info: Option<UsbInformation>)
    ensures info == dev.strings
  {
    info := dev.strings;
  }

  lemma ListingIsGetDeviceList(devices: seq<UsbDevice>, list: seq<DeviceInfo>)
    requires |list| == |devices|
    requires forall i :: 0 <= i < |list| ==>
               list[i].ftdiDevice == devices[i].handle && list[i].usbInfo == devices[i].strings
    ensures list == Listing(devices)
  {
  }

  // ---------------------------------------------------------------------------
  // Device selection in open()

  /** Is a description or serial filter given? */
  predicate Filtered(description: Option<string>, serial: Option<string>) {
    description.Some? || serial.Some?
  }

  /** `strncmp(s, prefix, strlen(prefix)) == 0` */
  predicate StartsWith(s: string, prefix: string) {
    prefix <= s
  }

  /** Does a device pass the filters? Without filters every device does. */
  predicate Matches(di: DeviceInfo, description: Option<string>, serial: Option<string>) {
    !Filtered(description, serial) ||
    (di.usbInfo.Some? &&
     (description.None? || StartsWith(di.usbInfo.value.description, description.value)) &&
     (serial.None? || StartsWith(di.usbInfo.value.serial, serial.value)))
  }

  /** The number of devices among the first `n` that pass the filters. */
  function CountMatches(devs: seq<DeviceInfo>, description: Option<string>, serial: Option<string>, n: nat): nat
    requires n <= |devs|
  {
    if n == 0 then 0
    else CountMatches(devs, description, serial, n - 1) + (if Matches(devs[n - 1], description, serial) then 1 else 0)
  }

  /**
   * The device at position `p` is the one open() selects: it passes the
   * filters, exactly `index` passing devices precede it, and, when a filter is
   * given, no device before it lacks descriptor strings (such a device ends
   * the scan).
   */
  ghost predicate IsSelected(devs: seq<DeviceInfo>, description: Option<string>, serial: Option<string>,
                             index: int, p: nat)
  {
    && p < |devs|
    && Matches(devs[p], description, serial)
    && (Filtered(description, serial) ==> forall j :: 0 <= j < p ==> devs[j].usbInfo.Some?)
    && CountMatches(devs, description, serial, p) == index
  }

  lemma {:induction false} CountMatchesGrows(devs: seq<DeviceInfo>, description: Option<string>,
                                             serial: Option<string>, p: nat, q: nat)
    requires p < q <= |devs| && Matches(devs[p], description, serial)
    ensures CountMatches(devs, description, serial, q) >= CountMatches(devs, description, serial, p) + 1
    decreases q
  {
    if q > p + 1 {
      CountMatchesGrows(devs, description, serial, p, q - 1);
    }
  }

  /** At most one device is ever selected. */
  lemma SelectionUnique(devs: seq<DeviceInfo>, description: Option<string>, serial: Option<string>,
                        index: int, p: nat, q: nat)
    requires IsSelected(devs, description, serial, index, p)
    requires IsSelected(devs, description, serial, index, q)
    ensures p == q
  {
    if p < q {
      CountMatchesGrows(devs, description, serial, p, q);
    } else if q < p {
      CountMatchesGrows(devs, description, serial, q, p);
    }
  }

  /** Without filters the device at list position `index` is selected. */
  lemma UnfilteredSelectsIndex(devs: seq<DeviceInfo>, index: nat)
    requires index < |devs|
    ensures IsSelected(devs, None, None, index, index)
  {
    var n := 0;
    while n < index
      invariant n <= index && CountMatches(devs, None, None, n) == n
    {
      n := n + 1;
    }
  }

  /** A selected position is the only one. */
  lemma OnlySelected(devs: seq<DeviceInfo>, description: Option<string>, serial: Option<string>, index: int, p: nat)
    requires IsSelected(devs, description, serial, index, p)
    ensures forall q: nat :: IsSelected(devs, description, serial, index, q) ==> q == p
  {
    forall q: nat | IsSelected(devs, description, serial, index, q)
      ensures q == p
    {
      SelectionUnique(devs, description, serial, index, p, q);
    }
  }

  /**
   * The position open() selects, if any: a selected position, which then is
   * the only one, and none exactly when no position is selected.
   */
  ghost function Selected(devs: seq<DeviceInfo>, description: Option<string>, serial: Option<string>,
                          index: int): (pos: Option<nat>)
    ensures pos.Some? ==> IsSelected(devs, description, serial, index, pos.value)
    ensures pos.Some? ==> forall q: nat :: IsSelected(devs, description, serial, index, q) ==> q == pos.value
    ensures pos.None? ==> forall p: nat :: !IsSelected(devs, description, serial, index, p)
  {
    if exists p: nat :: IsSelected(devs, description, serial, index, p)
    then
      var p: nat :| IsSelected(devs, description, serial, index, p);
      OnlySelected(devs, description, serial, index, p);
      Some(p)
    else None
  }

  /**
   * The scan of open(): walk the list, skip devices that fail a filter, stop
   * at a device without descriptor strings when filtering, and count `index`
   * down over the passing devices; the device reached at count zero is
   * selected. As in the driver the scan does not stop there, but `index` is
   * then negative and nothing else is selected.
   */
  method FindDevice(devs: seq<DeviceInfo>, description: Option<string>, serial: Option<string>, index: int)
      returns (pos: Option<nat>)
    ensures pos.Some? ==> IsSelected(devs, description, serial, index, pos.value)
    ensures pos.None? ==> forall p: nat :: !IsSelected(devs, description, serial, index, p)
  {
    pos := None;
    var remaining := index;
    var i := 0;
    while i < |devs|
      invariant 0 <= i <= |devs|
      invariant Filtered(description, serial) ==> forall j :: 0 <= j < i ==> devs[j].usbInfo.Some?
      invariant remaining == index - CountMatches(devs, description, serial, i)
      invariant pos.Some? ==> pos.value < i && remaining < 0 && IsSelected(devs, description, serial, index, pos.value)
      invariant pos.None? ==> forall p: nat :: p < i ==> !IsSelected(devs, description, serial, index, p)
    {
      var di := devs[i];
      if description.Some? || serial.Some? {
        if di.usbInfo.None? {
          break;
        }
        if description.Some? && !StartsWith(di.usbInfo.value.description, description.value) {
          i := i + 1;
          continue;
        }
        if serial.Some? && !StartsWith(di.usbInfo.value.serial, serial.value) {
          i := i + 1;
          continue;
        }
      }
      var counted := remaining;
      remaining := remaining - 1;
      if counted != 0 {
        i := i + 1;
        continue;
      }
      pos := Some(i);
      i := i + 1;
    }
  }

  /**
   * The device open() binds to on a closed session: none when no context can
   * be allocated or nothing is selected, otherwise the selected list entry.
   */
  ghost function Target(usb: Bus, description: Option<string>, serial: Option<string>, index: int): Option<DeviceInfo> {
    if usb.allocFails then None
    else match Selected(Listing(usb.devices), description, serial, index)
      case None => None
      case Some(p) => Some(Listing(usb.devices)[p])
  }

  // ---------------------------------------------------------------------------
  // The session

  /** What open() issues once it has selected the device with this handle: open it, purge both buffers, reset. */
  function OpenCommands(handle: nat): seq<Command> {
    [OpenDev(handle), Purge(RxTxBuffer), UsbReset]
  }

  /** The int a setter returns for libftdi's answer: `(r < 0) ? false : true`. */
  function Truth(r: int): int {
    if r < 0 then 0 else 1
  }

  class FtdiDevice {
    const usb: Bus
    /** the handle bound to the libftdi context, None while `context_` is null */
    var context: Option<nat>
    var usbInfo: Option<UsbInformation>
    var hasFtdiError: bool

    constructor (usb: Bus)
      ensures this.usb == usb && context.None? && usbInfo.None? && !hasFtdiError
    {
      this.usb := usb;
      context, usbInfo, hasFtdiError := None, None, false;
    }

    predicate IsOpen()
      reads this
    {
      context.Some?
    }

    /** getLastError: libftdi's message while an open session has an error flagged, otherwise empty. */
    function GetLastError(): (message: string)
      reads this
      ensures message != [] ==> IsOpen() && hasFtdiError
      ensures IsOpen() && hasFtdiError ==> message == usb.errorString
    {
      if context.Some? && hasFtdiError then usb.errorString else ""
    }

    /** The descriptor strings copied at open, absent when the session is not open. */
    function GetUsbInformation(): (info: Option<UsbInformation>)
      reads this
      ensures info.Some? ==> IsOpen()
      ensures IsOpen() ==> info == usbInfo
    {
      if IsOpen() then usbInfo else None
    }

    /**
     * open(description, serial, index): on an open session, fail and change
     * nothing but the error flag. Otherwise allocate a context, enumerate,
     * select (FindDevice) and open the selected device, then purge both
     * buffers and reset. A failing ftdi_usb_open_dev only raises the error
     * flag: the session still counts as open, as in the driver.
     */
    method Open(description: Option<string>, serial: Option<string>, index: int) returns (success: bool)
      modifies this, usb
      ensures old(IsOpen()) ==>
                !success && !hasFtdiError && context == old(context) && usbInfo == old(usbInfo) && usb.Issued([])
      ensures !old(IsOpen()) ==>
                var target := Target(usb, description, serial, index);
                && success == target.Some? == IsOpen()
                && (target.None? ==> usb.Issued([]) && usbInfo == old(usbInfo) && hasFtdiError == usb.allocFails)
                && (target.Some? ==>
                      && context == Some(target.value.ftdiDevice)
                      && usbInfo == target.value.usbInfo
                      && hasFtdiError == (usb.answer(OpenDev(target.value.ftdiDevice)) < 0)
                      && usb.Issued(OpenCommands(target.value.ftdiDevice)))
    {
      hasFtdiError := false;
      if IsOpen() {
        hasFtdiError := false;
        return false;
      }
      if usb.allocFails {
        hasFtdiError := true;
        return false;
      }
      var devs := GetDeviceList(usb, false);
      var list := devs.value;
      ListingIsGetDeviceList(usb.devices, list);
      var pos := FindDevice(list, description, serial, index);
      ghost var target := Selected(list, description, serial, index);
      if pos.Some? {
        SelectionUnique(list, description, serial, index, pos.value, target.value);
      }
      success := pos.Some?;
      if success {
        OpenSelected(list[pos.value]);
      } else {
        context := None;
      }
    }

    /**
     * The found device: ftdi_usb_open_dev (a failure only raises the error
     * flag), the copy of its descriptor strings, then a purge of both buffers
     * and a reset.
     */
    method OpenSelected(di: DeviceInfo)
      modifies this, usb
      ensures context == Some(di.ftdiDevice) && usbInfo == di.usbInfo
      ensures hasFtdiError == (old(hasFtdiError) || usb.answer(OpenDev(di.ftdiDevice)) < 0)
      ensures usb.Issued(OpenCommands(di.ftdiDevice))
    {
      var r := usb.Control(OpenDev(di.ftdiDevice));
      if r < 0 {
        hasFtdiError := true;
      }
      usbInfo := di.usbInfo;
      context := Some(di.ftdiDevice);
      label Opened:
      var rp := PurgeBuffers(RxTxBuffer);
      var rr := Reset();
      usb.RxAfterAppend(old@Opened(usb.rx), [Purge(RxTxBuffer)], [UsbReset]);
      usb.RxAfterAppend(old(usb.rx), [OpenDev(di.ftdiDevice)], [Purge(RxTxBuffer), UsbReset]);
    }

    /**
     * close(): when open, purge both buffers, close the device (its answer
     * decides success and the error flag) and release the context; in every
     * case drop the copied descriptor strings.
     */
    method Close() returns (success: bool)
      modifies this, usb
      ensures !IsOpen() && usbInfo.None? && GetUsbInformation().None?
      ensures !old(IsOpen()) ==> success && hasFtdiError == old(hasFtdiError) && usb.Issued([])
      ensures old(IsOpen()) ==>
                && usb.Issued([Purge(RxTxBuffer), CloseDev])
                && success == (usb.answer(CloseDev) >= 0)
                && hasFtdiError == !success
    {
      success := true;
      if IsOpen() {
        label Before:
        var rp := PurgeBuffers(RxTxBuffer);
        var r := usb.Control(CloseDev);
        usb.RxAfterAppend(old@Before(usb.rx), [Purge(RxTxBuffer)], [CloseDev]);
        if r < 0 {
          success := false;
          hasFtdiError := true;
        } else {
          hasFtdiError := false;
        }
        context := None;
      }
      usbInfo := None;
    }

    /** setBaudRate: RV_DEVICE_NOT_OPEN without a context, otherwise 1 or 0 for libftdi's success. */
    method SetBaudRate(baudRate: int) returns (r: int)
      modifies usb
      ensures !IsOpen() ==> r == RV_DEVICE_NOT_OPEN && usb.Issued([])
      ensures IsOpen() ==> usb.Issued([Baudrate(baudRate)]) && r == Truth(usb.answer(Baudrate(baudRate)))
    {
      if context.None? {
        return RV_DEVICE_NOT_OPEN;
      }
      var a := usb.Control(Baudrate(baudRate));
      r := Truth(a);
    }

    /** setLineProperties: as setBaudRate, for data bits, stop bits, parity and break. */
    method SetLineProperties(dataBits: DataBits, stopBits: StopBits, parity: Parity, breakType: BreakType)
        returns (r: int)
      modifies usb
      ensures !IsOpen() ==> r == RV_DEVICE_NOT_OPEN && usb.Issued([])
      ensures IsOpen() ==>
                var c := LineProperty(dataBits, stopBits, parity, breakType);
                usb.Issued([c]) && r == Truth(usb.answer(c))
    {
      if context.None? {
        return RV_DEVICE_NOT_OPEN;
      }
      var a := usb.Control(LineProperty(dataBits, stopBits, parity, breakType));
      r := Truth(a);
    }

    /** setFlowControl: as setBaudRate, for the flow-control mode. */
    method SetFlowControl(flowCtl: FlowControl) returns (r: int)
      modifies usb
      ensures !IsOpen() ==> r == RV_DEVICE_NOT_OPEN && usb.Issued([])
      ensures IsOpen() ==> usb.Issued([FlowCtrl(flowCtl)]) && r == Truth(usb.answer(FlowCtrl(flowCtl)))
    {
      if context.None? {
        return RV_DEVICE_NOT_OPEN;
      }
      var a := usb.Control(FlowCtrl(flowCtl));
      r := Truth(a);
    }

    /** setBreak, whose body is not part of this model: the not-open guard, then libftdi's answer unchanged. */
    method SetBreak(breakType: BreakType) returns (r: int)
      modifies usb
      ensures !IsOpen() ==> r == RV_DEVICE_NOT_OPEN && usb.Issued([])
      ensures IsOpen() ==> usb.Issued([Break(breakType)]) && r == usb.answer(Break(breakType))
    {
      if context.None? {
        return RV_DEVICE_NOT_OPEN;
      }
      r := usb.Control(Break(breakType));
    }

    /** setRts, whose body is not part of this model: the not-open guard, then libftdi's answer unchanged. */
    method SetRts(rtsEnabled: bool) returns (r: int)
      modifies usb
      ensures !IsOpen() ==> r == RV_DEVICE_NOT_OPEN && usb.Issued([])
      ensures IsOpen() ==> usb.Issued([Rts(rtsEnabled)]) && r == usb.answer(Rts(rtsEnabled))
    {
      if context.None? {
        return RV_DEVICE_NOT_OPEN;
      }
      r := usb.Control(Rts(rtsEnabled));
    }

    /** purgeBuffers: RV_DEVICE_NOT_OPEN when not open, otherwise libftdi's raw answer for that buffer. */
    method PurgeBuffers(bufType: BufferType) returns (rv: int)
      modifies usb
      ensures !IsOpen() ==> rv == RV_DEVICE_NOT_OPEN && usb.Issued([])
      ensures IsOpen() ==> usb.Issued([Purge(bufType)]) && rv == usb.answer(Purge(bufType))
    {
      if !IsOpen() {
        return RV_DEVICE_NOT_OPEN;
      }
      rv := usb.Control(Purge(bufType));
    }

    /** reset: inert (0, no device interaction) without a context. */
    method Reset() returns (r: int)
      modifies usb
      ensures !IsOpen() ==> r == 0 && usb.Issued([])
      ensures IsOpen() ==> usb.Issued([UsbReset]) && r == usb.answer(UsbReset)
    {
      if context.Some? {
        r := usb.Control(UsbReset);
      } else {
        r := 0;
      }
    }

    /** writeData: a single pass-through of the whole buffer, no retry. */
    method WriteData(data: seq<byte>) returns (r: int)
      modifies usb
      ensures !IsOpen() ==> r == RV_DEVICE_NOT_OPEN && usb.Issued([])
      ensures IsOpen() ==> usb.Issued([Write(data)]) && r == usb.answer(Write(data))
    {
      if !IsOpen() {
        return RV_DEVICE_NOT_OPEN;
      }
      r := usb.Control(Write(data));
    }

    /**
     * readData(data, length, timeout): re-issue reads, storing each chunk at
     * the offset reached so far, until `length` bytes have arrived, a read
     * fails (its code is returned) or a read yields nothing after the
     * deadline `timeout` milliseconds from the start. The bytes stored are the
     * front of the receive queue, in order; the rest of `buf` is untouched.
     */
    method ReadData(buf: array<byte>, length: int, timeout: int) returns (r: int)
      requires length <= buf.Length
      modifies buf, usb
      ensures !IsOpen() ==> r == RV_DEVICE_NOT_OPEN && usb.Issued([]) && buf[..] == old(buf[..])
      ensures length <= 0 ==> usb.Issued([]) && buf[..] == old(buf[..])
      ensures IsOpen() && length <= 0 ==> r == 0
      ensures IsOpen() && length > 0 ==>
                var got := |old(usb.rx)| - |usb.rx|;
                && 0 <= got <= length
                && usb.rx == old(usb.rx)[got..]
                && buf[..] == old(usb.rx)[..got] + old(buf[..])[got..]
                && usb.ReadsSince(old(usb.trace))
                && |usb.trace| > |old(usb.trace)|
                && usb.clock > old(usb.clock)
                && (r >= 0 ==> r == got)
                && (r < 0 ==> r == usb.readLimit(|usb.trace| - 1))
                && (0 <= r < length ==> usb.clock >= old(usb.clock) + timeout * 1000)
                && (usb.Reliable() && |old(usb.rx)| >= length ==> r == length)
    {
      if !IsOpen() {
        return RV_DEVICE_NOT_OPEN;
      }
      var tEnd := usb.clock + timeout * 1000;
      var readTotal, readLast := ReadLoop(buf, length, tEnd, usb.rx, buf[..], usb.trace, usb.clock);
      r := if readLast < 0 then readLast else readTotal;
    }

    /**
     * The loop of readData: read until `length` bytes have arrived, a read
     * fails, or a read yields nothing once the clock has reached `tEnd`.
     * `rx0`, `buf0`, `t0` and `c0` name the receive queue, the buffer, the
     * trace and the clock on entry.
     */
    method ReadLoop(buf: array<byte>, length: int, tEnd: int,
                    ghost rx0: seq<byte>, ghost buf0: seq<byte>, ghost t0: seq<Command>, ghost c0: int)
        returns (readTotal: nat, readLast: int)
      requires length <= buf.Length
      requires usb.rx == rx0 && buf[..] == buf0 && usb.trace == t0 && usb.clock == c0
      modifies buf, usb
      ensures readTotal <= Max0(length) && Copied(usb, buf, rx0, buf0, readTotal)
      ensures usb.ReadsSince(t0) && usb.clock >= c0
      ensures length <= 0 <==> |usb.trace| == |t0|
      ensures |usb.trace| == |t0| ==> readTotal == 0 && readLast == 0 && usb.clock == c0
      ensures |usb.trace| > |t0| ==> usb.clock > c0
      ensures readLast < 0 ==> readLast == usb.readLimit(|usb.trace| - 1)
      ensures readLast >= 0 && readTotal < length ==> usb.clock >= tEnd
      ensures usb.Reliable() && |rx0| >= length > 0 ==> readTotal == length && readLast >= 0
    {
      readTotal, readLast := 0, 0;
      var reread := length > 0;
      ghost var got: nat := 0;
      ghost var steady := usb.Reliable() && |usb.rx| >= length > 0;
      while reread
        invariant got == readTotal + Max0(readLast) && got <= Max0(length) && Copied(usb, buf, rx0, buf0, got)
        invariant usb.ReadsSince(t0) && usb.clock >= c0
        invariant |usb.trace| == |t0| ==> readTotal == 0 && readLast == 0 && usb.clock == c0
        invariant |usb.trace| > |t0| ==> usb.clock > c0
        invariant length <= 0 ==> !reread && |usb.trace| == |t0|
        invariant length > 0 && !reread ==> |usb.trace| > |t0|
        invariant reread ==> readLast >= 0
        invariant readLast < 0 ==> !reread && readLast == usb.readLimit(|usb.trace| - 1)
        invariant !reread && readLast >= 0 ==> readLast == 0 && (length <= 0 || usb.clock >= tEnd)
        invariant steady ==> reread
        decreases Max0(length) - got, Max0(tEnd - usb.clock), reread
      {
        readTotal := readTotal + readLast;
        if readTotal == length {
          break;
        }
        ghost var k := |usb.trace|;
        readLast, reread, got := ReadStep(buf, readTotal, length, tEnd, rx0, buf0, t0);
        if steady {
          assert usb.readLimit(k) > 0;
        }
      }
    }

    /**
     * One pass of the loop in readData: ftdi_read_data of the bytes still
     * missing into `data + readTotal`, then the decision to read again (the
     * read did not fail, and it either delivered bytes or the deadline has
     * not passed).
     */
    method ReadStep(buf: array<byte>, readTotal: nat, length: int, tEnd: int,
                    ghost rx0: seq<byte>, ghost buf0: seq<byte>, ghost t0: seq<Command>)
        returns (readLast: int, reread: bool, ghost got: nat)
      requires readTotal < length <= buf.Length == |buf0| && Copied(usb, buf, rx0, buf0, readTotal)
      requires usb.ReadsSince(t0)
      modifies buf, usb
      ensures got == readTotal + Max0(readLast) && got <= length && Copied(usb, buf, rx0, buf0, got)
      ensures usb.ReadsSince(t0) && |usb.trace| == |old(usb.trace)| + 1 && usb.clock > old(usb.clock)
      ensures readLast < 0 ==> readLast == usb.readLimit(|old(usb.trace)|)
      ensures usb.readLimit(|old(usb.trace)|) > 0 && |old(usb.rx)| > 0 ==> readLast > 0
      ensures reread == (readLast >= 0 && (readLast > 0 || usb.clock < tEnd))
    {
      var chunk;
      readLast, chunk := usb.ReadChunk(length - readTotal);
      ReadsBetweenRead(t0, old(usb.trace), Read(length - readTotal));
      StoreChunk(buf, readTotal, chunk);
      if readLast >= 0 {
        assert rx0[readTotal..][..readLast] == rx0[readTotal..readTotal + readLast];
        Splice(rx0, buf0, readTotal, chunk);
      }
      got := readTotal + Max0(readLast);
      reread := readLast >= 0;
      if reread {
        reread := readLast > 0 || usb.clock < tEnd;
      }
    }
  }

  /** The first `got` bytes of the queue `rx0` have been taken off it and stored over the front of the buffer, which was `buf0`. */
  ghost predicate Copied(usb: Bus, buf: array<byte>, rx0: seq<byte>, buf0: seq<byte>, got: nat)
    reads usb, buf
  {
    got <= |rx0| && got <= |buf0| && usb.rx == rx0[got..] && buf[..] == rx0[..got] + buf0[got..]
  }

  /** Storing the next bytes of the queue `a` after its first `n` extends the copied prefix. */
  lemma Splice(a: seq<byte>, b: seq<byte>, n: nat, chunk: seq<byte>)
    requires n + |chunk| <= |a| && n + |chunk| <= |b| && chunk == a[n..n + |chunk|]
    ensures var m := a[..n] + b[n..];
            m[..n] + chunk + m[n + |chunk|..] == a[..n + |chunk|] + b[n + |chunk|..]
  {
    var m := a[..n] + b[n..];
    assert m[..n] == a[..n];
    assert m[n + |chunk|..] == b[n + |chunk|..];
    assert a[..n] + chunk == a[..n + |chunk|];
  }

  /** Copy a chunk into the buffer at an offset, as ftdi_read_data does into `data + readTotal`. */
  method StoreChunk(buf: array<byte>, off: nat, chunk: seq<byte>)
    requires off + |chunk| <= buf.Length
    modifies buf
    ensures buf[..] == old(buf[..])[..off] + chunk + old(buf[..])[off + |chunk|..]
  {
    forall i | 0 <= i < |chunk| {
      buf[off + i] := chunk[i];
    }
  }

  function Max0(x: int): nat { if x < 0 then 0 else x }
}
