/**
 * The Enttec DMX USB Pro device: framed sends and receives over the FTDI
 * session, the widget-parameter and serial-number requests, and the three
 * caches they fill.
 */
module UsbPro {
  import opened Basics
  import opened Usb
  import opened Ftdi
  import opened DmxBase
  import opened UsbProProtocol

  /** How long each read of a reply may wait, in milliseconds. */
  const READ_TIMEOUT: int := 10000

  class DmxUsbProDevice {
    /** the DmxDevice part of the object */
    const base: DmxDevice
    const usb: Bus
    /** `widgetParams_`, `userConfigData_` and `serialNumber_`: absent until fetched */
    var widgetParams: Option<WidgetParameters>
    var userConfigData: Option<seq<byte>>
    var serialNumber: Option<nat>

    constructor (usb: Bus)
      ensures this.usb == usb && fresh(base) && base.usb == usb && base.ftdiDevice == null
      ensures widgetParams.None? && userConfigData.None? && serialNumber.None?
    {
      this.usb := usb;
      base := new DmxDevice(usb);
      widgetParams, userConfigData, serialNumber := None, None, None;
    }

    ghost predicate Valid()
      reads this, base, base.ftdiDevice
    {
      base.usb == usb && base.Valid()
    }

    predicate IsOpen()
      reads this, base, base.ftdiDevice
    {
      base.IsOpen()
    }

    /** getType: always the USB Pro kind. */
    function GetType(): (t: DeviceType)
      ensures t == DmxDeviceEnttecPro
    {
      DmxDeviceEnttecPro
    }

    /** getWidgetParameters: the cached parameter record, absent (null) until a fetch succeeded. */
    function GetWidgetParameters(): (p: Option<WidgetParameters>)
      reads this
      ensures p == widgetParams
    {
      widgetParams
    }

    /** getUserConfigurationData: the cached user configuration, absent until a fetch asked for one and succeeded. */
    function GetUserConfigurationData(): (c: Option<seq<byte>>)
      reads this
      ensures c == userConfigData
    {
      userConfigData
    }

    /** getSerialNumber: the cached serial number, absent until a fetch succeeded. */
    function GetSerialNumber(): (sn: Option<nat>)
      reads this
      ensures sn == serialNumber
    {
      serialNumber
    }

    /**
     * sendUsbProPacket: frame the payload and write it in one call. The
     * result is 0 when the whole frame was taken, the writer's error when it
     * failed, RV_PACKET_SHORT_WRITE otherwise.
     */
    method SendUsbProPacket(lbl: byte, data: seq<byte>) returns (r: int)
      requires Valid()
      modifies usb
      ensures !IsOpen() ==> r == RV_DEVICE_NOT_OPEN && usb.Issued([])
      ensures IsOpen() && |data| > PACKET_MAX_DATA_SIZE ==> r == RV_PACKET_TOO_LONG && usb.Issued([])
      ensures IsOpen() && |data| <= PACKET_MAX_DATA_SIZE ==>
                var frame := Frame(lbl, data);
                var written := usb.answer(Write(frame));
                && usb.Issued([Write(frame)])
                && r == (if written < 0 then written else if written == |frame| then 0 else RV_PACKET_SHORT_WRITE)
    {
      if !IsOpen() {
        return RV_DEVICE_NOT_OPEN;
      }
      if |data| > PACKET_MAX_DATA_SIZE {
        return RV_PACKET_TOO_LONG;
      }
      var packet := BuildFrame(lbl, data);
      r := base.ftdiDevice.WriteData(packet[..]);
      if r < 0 {
        return r;
      }
      r := if r == |data| + FRAME_OVERHEAD then 0 else RV_PACKET_SHORT_WRITE;
    }

    /**
     * receiveUsbProPacket: read the four header bytes, check start code,
     * label and length, read the payload and end code, check the end code,
     * and only then copy the payload into `data`. `consumed` is what the
     * reads took off the line, and `readFailed` says that a read returned a
     * libftdi error, which is passed on.
     */
    method ReceiveUsbProPacket(lbl: byte, data: array<byte>, length: nat)
        returns (r: int, ghost consumed: seq<byte>, ghost readFailed: bool)
      requires Valid()
      requires length <= PACKET_MAX_DATA_SIZE ==> length <= data.Length
      modifies usb, data
      ensures !IsOpen() ==> r == RV_DEVICE_NOT_OPEN && usb.Issued([]) && data[..] == old(data[..])
      ensures IsOpen() && length > PACKET_MAX_DATA_SIZE ==> r == RV_PACKET_TOO_LONG && usb.Issued([]) && data[..] == old(data[..])
      ensures IsOpen() && length <= PACKET_MAX_DATA_SIZE ==>
                && consumed <= old(usb.rx) && |consumed| <= length + FRAME_OVERHEAD
                && (readFailed ==> ReadFault(usb, r, old(usb.trace), old(usb.rx)[|consumed|..]) && data[..] == old(data[..]))
                && (!readFailed ==> Received(usb, ParseFrame(lbl, length, consumed), r, data[..], old(data[..]),
                                             old(usb.trace), old(usb.rx)[|consumed|..]))
      ensures IsOpen() && length <= PACKET_MAX_DATA_SIZE && usb.Reliable() && |old(usb.rx)| >= length + FRAME_OVERHEAD ==>
                !readFailed && ParseFrame(lbl, length, consumed) == ParseFrame(lbl, length, old(usb.rx))
    {
      consumed, readFailed := [], false;
      if !IsOpen() {
        return RV_DEVICE_NOT_OPEN, consumed, readFailed;
      }
      if length > PACKET_MAX_DATA_SIZE {
        return RV_PACKET_TOO_LONG, consumed, readFailed;
      }
      var dev := base.ftdiDevice;
      r, consumed, readFailed := ReceiveHeader(dev, lbl, length);
      ParseFrameOfPrefix(lbl, length, consumed, old(usb.rx));
      if r != 0 {
        return;
      }
      ghost var t1, rx1 := usb.trace, usb.rx;
      ghost var body;
      r, body, readFailed := ReceiveBody(dev, lbl, length, data, consumed);
      ParseFrameAfterHeader(lbl, length, consumed, body);
      ParseFrameAfterHeader(lbl, length, consumed, old(usb.rx)[4..]);
      assert old(usb.rx)[|consumed + body|..] == rx1[|body|..];
      ReadsAfterHeader(usb, old(usb.trace), t1, r, ParseFrame(lbl, length, consumed + body), rx1[|body|..]);
      consumed := consumed + body;
    }

    /**
     * The header stage of receiveUsbProPacket. 0 stands for a header with
     * the right start code, label and length; anything else is the code
     * receiveUsbProPacket returns, after a receive-buffer purge when the
     * header was rejected.
     */
    method ReceiveHeader(dev: FtdiDevice, lbl: byte, length: nat)
        returns (r: int, ghost consumed: seq<byte>, ghost readFailed: bool)
      requires Valid() && dev == base.ftdiDevice && dev.IsOpen()
      modifies usb
      ensures consumed <= old(usb.rx) && |consumed| <= 4
      ensures readFailed ==> ReadFault(usb, r, old(usb.trace), old(usb.rx)[|consumed|..])
      ensures !readFailed && r == 0 ==>
                HeaderAccepted(lbl, length, consumed) && usb.ReadsSince(old(usb.trace)) && usb.rx == old(usb.rx)[4..]
      ensures !readFailed && r != 0 ==>
                var o := ParseFrame(lbl, length, consumed);
                !HeaderAccepted(lbl, length, consumed) && o.Fault? && r == o.code
                && LineAfter(usb, o, old(usb.trace), old(usb.rx)[|consumed|..])
      ensures usb.Reliable() && |old(usb.rx)| >= 4 ==> !readFailed && |consumed| == 4
    {
      var header := new byte[4];
      r := dev.ReadData(header, 4, READ_TIMEOUT);
      consumed, readFailed := old(usb.rx)[..|old(usb.rx)| - |usb.rx|], r < 0;
      if r < 0 {
        return;
      }
      assert consumed == header[..r];
      if r < 4 {
        return RV_PACKET_SHORT_READ, consumed, readFailed;
      }
      if header[0] != PACKET_START_CODE {
        r := PurgeReceiveBuffer(dev, old(usb.trace));
        return RV_PACKET_INVALID, consumed, readFailed;
      }
      if header[1] != lbl {
        r := PurgeReceiveBuffer(dev, old(usb.trace));
        return RV_PACKET_NO_MATCH, consumed, readFailed;
      }
      var len := Le16(header[2], header[3]);
      if len != length {
        r := PurgeReceiveBuffer(dev, old(usb.trace));
        return RV_PACKET_NO_MATCH, consumed, readFailed;
      }
      r := 0;
    }

    /**
     * The payload stage of receiveUsbProPacket, after the accepted `header`:
     * read the payload and the end code, check the end code (purging the
     * receive buffer when it is wrong) and copy the payload into `data`.
     */
    method ReceiveBody(dev: FtdiDevice, lbl: byte, length: nat, data: array<byte>, ghost header: seq<byte>)
        returns (r: int, ghost consumed: seq<byte>, ghost readFailed: bool)
      requires Valid() && dev == base.ftdiDevice && dev.IsOpen()
      requires HeaderAccepted(lbl, length, header) && length <= data.Length
      modifies usb, data
      ensures consumed <= old(usb.rx) && |consumed| <= length + 1
      ensures readFailed ==> ReadFault(usb, r, old(usb.trace), old(usb.rx)[|consumed|..]) && data[..] == old(data[..])
      ensures !readFailed ==> Received(usb, ParseFrame(lbl, length, header + consumed), r, data[..], old(data[..]),
                                       old(usb.trace), old(usb.rx)[|consumed|..])
      ensures usb.Reliable() && |old(usb.rx)| >= length + 1 ==> !readFailed && |consumed| == length + 1
    {
      var buf := new byte[length + 1];
      r := dev.ReadData(buf, length + 1, READ_TIMEOUT);
      consumed, readFailed := old(usb.rx)[..|old(usb.rx)| - |usb.rx|], r < 0;
      ParseFrameAfterHeader(lbl, length, header, consumed);
      if r < 0 {
        return;
      }
      assert consumed == buf[..r];
      if r < length + 1 {
        return RV_PACKET_SHORT_READ, consumed, readFailed;
      }
      if buf[length] != PACKET_END_CODE {
        r := PurgeReceiveBuffer(dev, old(usb.trace));
        return RV_PACKET_INVALID, consumed, readFailed;
      }
      forall i | 0 <= i < length {
        data[i] := buf[i];
      }
      assert data[..] == consumed[..length] + old(data[..])[length..];
      r := 0;
    }

    /** writeDmx: the channel data (start code first, one universe at most) in a "send DMX" frame. */
    method WriteDmx(data: seq<byte>) returns (r: int)
      requires Valid() && |data| <= DMX_FRAME_MAX
      modifies usb
      ensures !IsOpen() ==> r == RV_DEVICE_NOT_OPEN && usb.Issued([])
      ensures IsOpen() ==>
                var frame := Frame(SET_DMX_TX_MODE, data);
                var written := usb.answer(Write(frame));
                && usb.Issued([Write(frame)])
                && r == (if written < 0 then written else if written == |frame| then 0 else RV_PACKET_SHORT_WRITE)
    {
      r := SendUsbProPacket(SET_DMX_TX_MODE, data);
    }

    /**
     * setWidgetParameters(params, userConfigData, length): refused without
     * I/O unless the device is open, parameters are given, and the length,
     * break time, MAB time and refresh rate are in range; otherwise one
     * set-parameters frame is sent. Success is a complete write, after which
     * a cached parameter record takes over the new timing and rate.
     */
    method SetWidgetParameters(params: Option<WidgetParameters>, userConfig: seq<byte>) returns (success: bool)
      requires Valid()
      modifies this, usb
      ensures userConfigData == old(userConfigData) && serialNumber == old(serialNumber)
      ensures !old(IsOpen()) || params.None? || !AcceptedSettings(params.value, |userConfig|) ==>
                !success && usb.Issued([]) && widgetParams == old(widgetParams)
      ensures old(IsOpen()) && params.Some? && AcceptedSettings(params.value, |userConfig|) ==>
                var p := params.value;
                var frame := Frame(SET_WIDGET_PARAMS_RQ, SetParamsPayload(p, userConfig));
                && usb.Issued([Write(frame)])
                && success == (usb.answer(Write(frame)) == |frame|)
                && widgetParams == (if success && old(widgetParams).Some?
                                    then Some(old(widgetParams).value.(breakTime := p.breakTime, mabTime := p.mabTime,
                                                                        refreshRate := p.refreshRate))
                                    else old(widgetParams))
    {
      if !IsOpen() || params.None? {
        return false;
      }
      var n := |userConfig|;
      if n > USER_CONFIG_MAX_LENGTH {
        return false;
      }
      var p := params.value;
      if p.breakTime < BREAK_TIME_UNITS_MIN || p.breakTime > BREAK_TIME_UNITS_MAX {
        return false;
      }
      if p.mabTime < MAB_TIME_UNITS_MIN || p.mabTime > MAB_TIME_UNITS_MAX {
        return false;
      }
      if p.refreshRate > OUTPUT_RATE_MAX {
        return false;
      }
      var head := SetParams(n % 0x100, n / 0x100 % 0x100, p.breakTime, p.mabTime, p.refreshRate);
      var buf := new byte[PARAMS_SIZE + n];
      buf[0], buf[1], buf[2], buf[3], buf[4] := head.userSizeLsb, head.userSizeMsb, head.breakTime, head.mabTime, head.refreshRate;
      forall i | 0 <= i < n {
        buf[PARAMS_SIZE + i] := userConfig[i];
      }
      assert buf[..] == SetParamsPayload(p, userConfig);
      var r := SendUsbProPacket(SET_WIDGET_PARAMS_RQ, buf[..]);
      success := r >= 0;
      if success && widgetParams.Some? {
        widgetParams := Some(widgetParams.value.(breakTime := head.breakTime, mabTime := head.mabTime,
                                                 refreshRate := head.refreshRate));
      }
    }

    /**
     * The exchange both fetches perform: send `request` under `rqLabel`, and
     * when that succeeds receive a reply of exactly `reply.Length` payload
     * bytes under `replyLabel` into `reply` (see Exchanged). A non-negative
     * result is a successful exchange.
     */
    method Exchange(rqLabel: byte, request: seq<byte>, replyLabel: byte, reply: array<byte>) returns (r: int)
      requires Valid() && IsOpen() && |request| <= PACKET_MAX_DATA_SIZE && reply.Length <= PACKET_MAX_DATA_SIZE
      modifies usb, reply
      ensures Exchanged(usb, Frame(rqLabel, request), replyLabel, reply.Length,
                        old(usb.trace), old(usb.rx), usb.trace, usb.rx, r >= 0, reply[..])
      ensures usb.answer(Write(Frame(rqLabel, request))) != |Frame(rqLabel, request)| ==> usb.clock == old(usb.clock)
    {
      r := SendUsbProPacket(rqLabel, request);
      usb.RxAfterWrite(old(usb.rx), Frame(rqLabel, request));
      if r >= 0 {
        ghost var consumed, readFailed;
        label Sent:
        r, consumed, readFailed := ReceiveUsbProPacket(replyLabel, reply, reply.Length);
        AcceptedReply(usb, replyLabel, reply.Length, r, consumed, readFailed, reply[..], old@Sent(reply[..]),
                      old@Sent(usb.trace), old@Sent(usb.rx));
      }
    }

    /**
     * fetchWidgetParameters(userConfigLength): with a cached record and no
     * user configuration asked for, nothing is sent. Otherwise the length is
     * capped at USER_CONFIG_MAX_LENGTH, a get-parameters request for it is
     * sent, and a reply frame with the parameter head and that much user
     * configuration is expected. An accepted reply replaces the parameter
     * cache and, when a configuration was asked for, the configuration cache;
     * `reply` is its payload.
     */
    method FetchWidgetParameters(userConfigLength: nat) returns (success: bool, ghost reply: seq<byte>)
      requires Valid()
      modifies this, usb
      ensures Valid() && IsOpen() == old(IsOpen()) && serialNumber == old(serialNumber)
      ensures ParamsFetched(usb, old(IsOpen()), userConfigLength,
                            old(usb.trace), old(usb.rx), old(widgetParams), old(userConfigData),
                            usb.trace, usb.rx, widgetParams, userConfigData, success, reply)
      ensures !old(IsOpen()) || (old(widgetParams).Some? && userConfigLength == 0) ==> usb.clock == old(usb.clock)
    {
      reply := [];
      if !IsOpen() {
        return false, reply;
      }
      if widgetParams.Some? && userConfigLength == 0 {
        return true, reply;
      }
      var len := if userConfigLength > USER_CONFIG_MAX_LENGTH then USER_CONFIG_MAX_LENGTH else userConfigLength;
      var replyLen := PARAMS_SIZE + len;
      var replyBuffer := new byte[replyLen];
      var r := Exchange(GET_WIDGET_PARAMS_RQ, [len % 0x100, len / 0x100 % 0x100], GET_WIDGET_PARAMS_REPLY, replyBuffer);
      success := false;
      if r >= 0 {
        reply := replyBuffer[..];
        var major := replyBuffer[1];
        major := replyBuffer[0];
        widgetParams := Some(WidgetParameters(major, 0, replyBuffer[2], replyBuffer[3], replyBuffer[4]));
        if len > 0 {
          userConfigData := Some(replyBuffer[PARAMS_SIZE..]);
        }
        success := true;
      }
    }

    /**
     * fetchSerialNumber: a cached number is kept without I/O. Otherwise a
     * serial-number request with an empty payload is sent, and a four-byte
     * reply is cached as the number it encodes (digit pairs, or the
     * not-programmed sentinel); `reply` is that payload.
     */
    method FetchSerialNumber() returns (success: bool, ghost reply: seq<byte>)
      requires Valid()
      modifies this, usb
      ensures Valid() && IsOpen() == old(IsOpen()) && widgetParams == old(widgetParams) && userConfigData == old(userConfigData)
      ensures SerialFetched(usb, old(IsOpen()), old(usb.trace), old(usb.rx), old(serialNumber),
                            usb.trace, usb.rx, serialNumber, success, reply)
      ensures !old(IsOpen()) || old(serialNumber).Some? ==> usb.clock == old(usb.clock)
    {
      reply := [];
      if !IsOpen() {
        return false, reply;
      }
      if serialNumber.Some? {
        return true, reply;
      }
      success := false;
      var serialNum := new byte[4];
      var r := Exchange(GET_WIDGET_SN_RQ, [], GET_WIDGET_SN_REPLY, serialNum);
      if r >= 0 {
        reply := serialNum[..];
        var sn := DecodeSerialNumber(serialNum[..]);
        serialNumber := Some(sn);
        success := true;
      }
    }

    /**
     * fetchExtendedInfo(userConfigLength): fetch the parameters, then the
     * serial number whatever the first fetch gave; true exactly when both
     * succeeded. `midTrace` and `midRx` are the line between the two
     * fetches, `paramsOk` and `serialOk` their results and `paramsReply` and
     * `serialReply` their replies.
     */
    method FetchExtendedInfo(userConfigLength: nat)
        returns (success: bool, ghost paramsOk: bool, ghost serialOk: bool,
                 ghost paramsReply: seq<byte>, ghost serialReply: seq<byte>,
                 ghost midTrace: seq<Command>, ghost midRx: seq<byte>)
      requires Valid()
      modifies this, usb
      ensures Valid() && IsOpen() == old(IsOpen())
      ensures success == (paramsOk && serialOk)
      ensures ParamsFetched(usb, old(IsOpen()), userConfigLength,
                            old(usb.trace), old(usb.rx), old(widgetParams), old(userConfigData),
                            midTrace, midRx, widgetParams, userConfigData, paramsOk, paramsReply)
      ensures SerialFetched(usb, old(IsOpen()), midTrace, midRx, old(serialNumber),
                            usb.trace, usb.rx, serialNumber, serialOk, serialReply)
      ensures !old(IsOpen()) ==> !success && usb.Issued([])
      ensures success ==> widgetParams.Some? && serialNumber.Some?
      ensures old(IsOpen()) && old(widgetParams).Some? && old(serialNumber).Some? && userConfigLength == 0 ==>
                success && usb.Issued([]) && widgetParams == old(widgetParams) && serialNumber == old(serialNumber)
    {
      success := true;
      var fetched;
      fetched, paramsReply := FetchWidgetParameters(userConfigLength);
      paramsOk := fetched;
      success := if fetched then success else false;
      midTrace, midRx := usb.trace, usb.rx;
      fetched, serialReply := FetchSerialNumber();
      serialOk := fetched;
      success := if fetched then success else false;
    }

    /** The receive buffer purge that follows a rejected header or end code, after the reads since `t0`. */
    method PurgeReceiveBuffer(dev: FtdiDevice, ghost t0: seq<Command>) returns (r: int)
      requires Valid() && dev == base.ftdiDevice && dev.IsOpen()
      requires usb.ReadsSince(t0)
      modifies usb
      ensures usb.ReadsThen(t0, [Purge(RxBuffer)]) && r == usb.answer(Purge(RxBuffer))
      ensures usb.rx == if r >= 0 then [] else old(usb.rx)
    {
      r := dev.PurgeBuffers(RxBuffer);
      ReadsBetweenThen(t0, old(usb.trace), Purge(RxBuffer));
    }
  }

  /** The packet buffer sendUsbProPacket fills: header, payload, end code. */
  method BuildFrame(lbl: byte, data: seq<byte>) returns (packet: array<byte>)
    requires |data| <= PACKET_MAX_DATA_SIZE
    ensures fresh(packet) && packet[..] == Frame(lbl, data)
  {
    var n := |data|;
    packet := new byte[FRAME_OVERHEAD + n];
    packet[0] := PACKET_START_CODE;
    packet[1] := lbl;
    packet[2] := n % 0x100;
    packet[3] := n / 0x100;
    packet[4 + n] := PACKET_END_CODE;
    for i := 0 to n
      invariant packet[..4] == [PACKET_START_CODE, lbl, Lsb(n), Msb(n)]
      invariant packet[4..4 + i] == data[..i]
      invariant packet[4 + n] == PACKET_END_CODE
    {
      packet[4 + i] := data[i];
      assert packet[4..4 + i + 1] == packet[4..4 + i] + [data[i]];
    }
    assert packet[..] == packet[..4] + packet[4..4 + n] + [packet[4 + n]];
  }

  /**
   * The serial number of a four-byte reply as fetchSerialNumber accumulates
   * it: the not-programmed sentinel when the bytes read as that value,
   * otherwise the digit pairs added up lowest first.
   */
  method DecodeSerialNumber(serialNum: seq<byte>) returns (sn: nat)
    requires |serialNum| == 4
    ensures sn == SerialFromReply(serialNum)
  {
    sn := 0;
    var snAdded := (serialNum[0] as nat) + (serialNum[1] as nat) * 0x100
                   + (serialNum[2] as nat) * 0x1_0000 + (serialNum[3] as nat) * 0x100_0000;
    if snAdded != SN_NOT_PROGRAMMED {
      sn := sn + ((serialNum[0] as nat) % 16 + (serialNum[0] as nat) / 16 * 10);
      sn := sn + ((serialNum[1] as nat) % 16 + (serialNum[1] as nat) / 16 * 10) * 100;
      sn := sn + ((serialNum[2] as nat) % 16 + (serialNum[2] as nat) / 16 * 10) * 10_000;
      sn := sn + ((serialNum[3] as nat) % 16 + (serialNum[3] as nat) / 16 * 10) * 1_000_000;
    } else {
      sn := SN_NOT_PROGRAMMED;
    }
  }

  /**
   * One request and its reply, from trace `t0` and queue `rx0` to trace `t1`
   * and queue `rx1`. The request frame is written first, and an incomplete
   * write ends the exchange there, unsuccessful. A successful exchange had a
   * complete write followed by reads only, and the line (what was waiting,
   * then the device's response to the request) began with a reply frame of
   * `length` payload bytes carrying `reply`, which is taken off. With
   * reliable reads, a complete write whose line begins with such a frame
   * succeeds.
   */
  ghost predicate Exchanged(usb: Bus, request: seq<byte>, replyLabel: byte, length: nat,
                            t0: seq<Command>, rx0: seq<byte>, t1: seq<Command>, rx1: seq<byte>,
                            ok: bool, reply: seq<byte>)
  {
    var complete := usb.answer(Write(request)) == |request|;
    var line := rx0 + usb.response(request);
    && |t1| > |t0| && t1[..|t0| + 1] == t0 + [Write(request)]
    && (!complete ==> !ok && t1 == t0 + [Write(request)] && rx1 == rx0)
    && (ok ==>
          && complete && ParseFrame(replyLabel, length, line) == Payload(reply)
          && ReadsBetween(t0 + [Write(request)], t1, [])
          && rx1 == line[length + FRAME_OVERHEAD..])
    && (complete && usb.Reliable() && ParseFrame(replyLabel, length, line).Payload? ==> ok)
  }

  /**
   * fetchWidgetParameters(userConfigLength) from line `t0`/`rx0` and caches
   * `wp0`/`uc0` to line `t1`/`rx1` and caches `wp1`/`uc1`: not open, it
   * fails with no I/O; with a cached record and no configuration asked, it
   * succeeds with no I/O; otherwise it requests the length capped at
   * USER_CONFIG_MAX_LENGTH, and a successful exchange caches the record
   * decoded from the reply and, when a configuration was asked, the reply's
   * remaining bytes; a failed one leaves both caches.
   */
  ghost predicate ParamsFetched(usb: Bus, isOpen: bool, userConfigLength: nat,
                                t0: seq<Command>, rx0: seq<byte>, wp0: Option<WidgetParameters>, uc0: Option<seq<byte>>,
                                t1: seq<Command>, rx1: seq<byte>, wp1: Option<WidgetParameters>, uc1: Option<seq<byte>>,
                                success: bool, reply: seq<byte>)
  {
    if !isOpen then !success && t1 == t0 && rx1 == rx0 && wp1 == wp0 && uc1 == uc0
    else if wp0.Some? && userConfigLength == 0 then success && t1 == t0 && rx1 == rx0 && wp1 == wp0 && uc1 == uc0
    else
      var len := Min(userConfigLength, USER_CONFIG_MAX_LENGTH);
      && Exchanged(usb, Frame(GET_WIDGET_PARAMS_RQ, [Lsb(len), Msb(len)]), GET_WIDGET_PARAMS_REPLY, PARAMS_SIZE + len,
                   t0, rx0, t1, rx1, success, reply)
      && (success ==>
            && wp1 == Some(ParamsFromReply(reply))
            && uc1 == (if len > 0 then Some(reply[PARAMS_SIZE..]) else uc0))
      && (!success ==> wp1 == wp0 && uc1 == uc0)
  }

  /**
   * fetchSerialNumber from line `t0`/`rx0` and cache `sn0` to line
   * `t1`/`rx1` and cache `sn1`: not open, it fails with no I/O; a cached
   * number succeeds with no I/O; otherwise a serial request is exchanged
   * and success caches the number the four reply bytes encode.
   */
  ghost predicate SerialFetched(usb: Bus, isOpen: bool, t0: seq<Command>, rx0: seq<byte>, sn0: Option<nat>,
                                t1: seq<Command>, rx1: seq<byte>, sn1: Option<nat>, success: bool, reply: seq<byte>)
  {
    if !isOpen then !success && t1 == t0 && rx1 == rx0 && sn1 == sn0
    else if sn0.Some? then success && t1 == t0 && rx1 == rx0 && sn1 == sn0
    else
      && Exchanged(usb, Frame(GET_WIDGET_SN_RQ, []), GET_WIDGET_SN_REPLY, 4, t0, rx0, t1, rx1, success, reply)
      && sn1 == (if success then Some(SerialFromReply(reply)) else None)
  }

  /**
   * A widget that answers the serial request with a four-byte reply frame,
   * on an open session with nothing stale waiting, a complete write and
   * reliable reads, has that reply's serial number cached.
   */
  lemma SerialFetchCompletes(usb: Bus, t0: seq<Command>, t1: seq<Command>, rx1: seq<byte>, sn1: Option<nat>,
                             success: bool, reply: seq<byte>, serial: seq<byte>, rest: seq<byte>)
    requires |serial| == 4 && usb.Reliable()
    requires usb.response(Frame(GET_WIDGET_SN_RQ, [])) == Frame(GET_WIDGET_SN_REPLY, serial) + rest
    requires usb.answer(Write(Frame(GET_WIDGET_SN_RQ, []))) == |Frame(GET_WIDGET_SN_RQ, [])|
    requires SerialFetched(usb, true, t0, [], None, t1, rx1, sn1, success, reply)
    ensures success && reply == serial && sn1 == Some(SerialFromReply(serial)) && rx1 == rest
  {
    FrameRoundTrip(GET_WIDGET_SN_REPLY, serial, rest);
    assert [] + usb.response(Frame(GET_WIDGET_SN_RQ, [])) == Frame(GET_WIDGET_SN_REPLY, serial) + rest;
    assert (Frame(GET_WIDGET_SN_REPLY, serial) + rest)[4 + FRAME_OVERHEAD..] == rest;
  }

  /**
   * A widget that answers the parameter request for `len` configuration
   * bytes with a reply frame of the parameter head and `len` bytes, on an
   * open session with nothing cached or a configuration asked, nothing stale
   * waiting, a complete write and reliable reads, has the record decoded
   * from that reply cached.
   */
  lemma ParamsFetchCompletes(usb: Bus, userConfigLength: nat, t0: seq<Command>, wp0: Option<WidgetParameters>,
                             uc0: Option<seq<byte>>, t1: seq<Command>, rx1: seq<byte>, wp1: Option<WidgetParameters>,
                             uc1: Option<seq<byte>>, success: bool, reply: seq<byte>, payload: seq<byte>, rest: seq<byte>)
    requires wp0.None? || userConfigLength > 0
    requires var len := Min(userConfigLength, USER_CONFIG_MAX_LENGTH);
             var request := Frame(GET_WIDGET_PARAMS_RQ, [Lsb(len), Msb(len)]);
             && |payload| == PARAMS_SIZE + len && usb.Reliable()
             && usb.response(request) == Frame(GET_WIDGET_PARAMS_REPLY, payload) + rest
             && usb.answer(Write(request)) == |request|
    requires ParamsFetched(usb, true, userConfigLength, t0, [], wp0, uc0, t1, rx1, wp1, uc1, success, reply)
    ensures success && reply == payload && wp1 == Some(ParamsFromReply(payload)) && rx1 == rest
  {
    var len := Min(userConfigLength, USER_CONFIG_MAX_LENGTH);
    var request := Frame(GET_WIDGET_PARAMS_RQ, [Lsb(len), Msb(len)]);
    FrameRoundTrip(GET_WIDGET_PARAMS_REPLY, payload, rest);
    assert [] + usb.response(request) == Frame(GET_WIDGET_PARAMS_REPLY, payload) + rest;
    assert (Frame(GET_WIDGET_PARAMS_REPLY, payload) + rest)[PARAMS_SIZE + len + FRAME_OVERHEAD..] == rest;
  }

  /** A read of the receive failed with libftdi's code `r`, after nothing but reads since `t0`; `rest` is still waiting. */
  ghost predicate ReadFault(usb: Bus, r: int, t0: seq<Command>, rest: seq<byte>)
    reads usb
  {
    r < 0 && |usb.trace| > |t0| && r == usb.readLimit(|usb.trace| - 1) && usb.ReadsSince(t0) && usb.rx == rest
  }

  /**
   * What receiveUsbProPacket returns and leaves in the caller's buffer for
   * an outcome: 0 and the payload over the buffer's front, or the fault's
   * code and the buffer untouched.
   */
  predicate Answered(o: Outcome, r: int, data: seq<byte>, data0: seq<byte>) {
    match o
    case Payload(p) => r == 0 && |p| <= |data0| && data == p + data0[|p|..]
    case Fault(code, _) => r == code && data == data0
  }

  /**
   * The line after a receive that ended in outcome `o`: the commands issued
   * after the earlier trace `t0` are reads, followed by a receive-buffer
   * purge for a rejected header or end code, and the bytes still waiting
   * are `rest` unless that purge succeeded.
   */
  ghost predicate LineAfter(usb: Bus, o: Outcome, t0: seq<Command>, rest: seq<byte>)
    reads usb
  {
    if o.Fault? && o.purge then
      usb.ReadsThen(t0, [Purge(RxBuffer)]) && usb.rx == (if usb.answer(Purge(RxBuffer)) >= 0 then [] else rest)
    else
      usb.ReadsSince(t0) && usb.rx == rest
  }

  ghost predicate Received(usb: Bus, o: Outcome, r: int, data: seq<byte>, data0: seq<byte>, t0: seq<Command>, rest: seq<byte>)
    reads usb
  {
    Answered(o, r, data, data0) && LineAfter(usb, o, t0, rest)
  }

  /**
   * A receive into a buffer of exactly `length` bytes that returned a
   * non-negative code took a whole frame with this label off the front of
   * the queue `rx0`, and left its payload in the buffer.
   */
  lemma AcceptedReply(usb: Bus, lbl: byte, length: nat, r: int, consumed: seq<byte>, readFailed: bool,
                      data: seq<byte>, data0: seq<byte>, t0: seq<Command>, rx0: seq<byte>)
    requires consumed <= rx0 && |consumed| <= length + FRAME_OVERHEAD && |data0| == length
    requires readFailed ==> ReadFault(usb, r, t0, rx0[|consumed|..])
    requires !readFailed ==> Received(usb, ParseFrame(lbl, length, consumed), r, data, data0, t0, rx0[|consumed|..])
    ensures r >= 0 ==>
              && ParseFrame(lbl, length, rx0) == Payload(data)
              && usb.ReadsSince(t0) && usb.rx == rx0[length + FRAME_OVERHEAD..]
    ensures !readFailed && ParseFrame(lbl, length, consumed) == ParseFrame(lbl, length, rx0) && ParseFrame(lbl, length, rx0).Payload?
            ==> r >= 0
  {
    ParseFrameOfPrefix(lbl, length, consumed, rx0);
    if r >= 0 {
      assert !readFailed;
      var o := ParseFrame(lbl, length, consumed);
      assert o.Payload?;
      assert data == o.data;
      AcceptedIsFrame(lbl, length, consumed);
    }
  }

  /** Reads before a stage of receiving extend what the stage leaves behind. */
  lemma ReadsAfterHeader(usb: Bus, t0: seq<Command>, t1: seq<Command>, r: int, o: Outcome, rest: seq<byte>)
    requires ReadsBetween(t0, t1, [])
    ensures ReadFault(usb, r, t1, rest) ==> ReadFault(usb, r, t0, rest)
    ensures LineAfter(usb, o, t1, rest) ==> LineAfter(usb, o, t0, rest)
  {
    if usb.ReadsSince(t1) {
      ReadsBetweenTrans(t0, t1, usb.trace, []);
    }
    if usb.ReadsThen(t1, [Purge(RxBuffer)]) {
      ReadsBetweenTrans(t0, t1, usb.trace, [Purge(RxBuffer)]);
    }
  }
}
