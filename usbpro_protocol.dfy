/**
 * The Enttec DMX USB Pro widget protocol: message labels, the packed record
 * layouts, the frame `0x7E, label, length LSB, length MSB, payload, 0xE7`,
 * how a received frame is judged, the widget-parameter request, and how the
 * firmware parameters and the serial number are decoded.
 */
module UsbProProtocol {
  import opened Basics

  // ---------------------------------------------------------------------------
  // Message labels (USBPRO_LABELS)

  const REPROGRAM_FIRMWARE_RQ: byte := 1
  const PROGRAM_FLASH_PAGE_RQ: byte := 2
  const PROGRAM_FLASH_PAGE_REPLY: byte := 2
  const GET_WIDGET_PARAMS_RQ: byte := 3
  const GET_WIDGET_PARAMS_REPLY: byte := 3
  const SET_WIDGET_PARAMS_RQ: byte := 4
  const SET_DMX_RX_MODE: byte := 5
  const SET_DMX_TX_MODE: byte := 6
  const SEND_DMX_RDM_TX: byte := 7
  const RECEIVE_DMX_ON_CHANGE: byte := 8
  const RECEIVED_DMX_COS_TYPE: byte := 9
  const GET_WIDGET_SN_RQ: byte := 10
  const GET_WIDGET_SN_REPLY: byte := 10
  const SEND_RDM_DISCOVERY_RQ: byte := 11

  /** A request whose reply carries the same label, so a receive can match the label just sent. */
  lemma RepliesShareRequestLabels()
    ensures GET_WIDGET_PARAMS_REPLY == GET_WIDGET_PARAMS_RQ && GET_WIDGET_SN_REPLY == GET_WIDGET_SN_RQ
    ensures SET_DMX_TX_MODE == 6 && SET_WIDGET_PARAMS_RQ == 4
  {
  }

  // ---------------------------------------------------------------------------
  // Constants of the driver

  const SN_NOT_PROGRAMMED: nat := 0xFFFF_FFFF
  const BREAK_TIME_UNITS_MIN: nat := 9
  const BREAK_TIME_UNITS_MAX: nat := 127
  const MAB_TIME_UNITS_MIN: nat := 1
  const MAB_TIME_UNITS_MAX: nat := 127
  const OUTPUT_RATE_MAX: nat := 40
  const USER_CONFIG_MAX_LENGTH: nat := 508
  const USB_DESCRIPTION: string := "DMX USB PRO"

  const RV_PACKET_TOO_LONG: int := -18000
  const RV_PACKET_SHORT_READ: int := -18001
  const RV_PACKET_INVALID: int := -18002
  const RV_PACKET_NO_MATCH: int := -18003
  const RV_PACKET_SHORT_WRITE: int := -18004

  const PACKET_START_CODE: byte := 0x7E
  const PACKET_END_CODE: byte := 0xE7
  const PACKET_MAX_DATA_SIZE: nat := 600

  /** Bytes a frame adds around its payload: start code, label, two length bytes, end code. */
  const FRAME_OVERHEAD: nat := 5

  // ---------------------------------------------------------------------------
  // Packed records

  /** DMXUSBPROParamsType: the fixed head of a get-parameters reply. */
  datatype ParamsReply = ParamsReply(firmwareLsb: byte, firmwareMsb: byte, breakTime: byte, mabTime: byte, refreshRate: byte)

  /** DMXUSBPROSetParamsType: the fixed head of a set-parameters request. */
  datatype SetParams = SetParams(userSizeLsb: byte, userSizeMsb: byte, breakTime: byte, mabTime: byte, refreshRate: byte)

  /** sizeof(DMXUSBPROParamsType) == sizeof(DMXUSBPROSetParamsType) under `#pragma pack(1)` */
  const PARAMS_SIZE: nat := 5

  /** The packed in-memory image of a reply head, field by field. */
  function ParamsReplyBytes(p: ParamsReply): (s: seq<byte>)
    ensures |s| == PARAMS_SIZE
  {
    [p.firmwareLsb, p.firmwareMsb, p.breakTime, p.mabTime, p.refreshRate]
  }

  /** Reading a reply buffer through a `DMXUSBPROParamsType*`. */
  function ParamsReplyOf(s: seq<byte>): ParamsReply
    requires |s| >= PARAMS_SIZE
  {
    ParamsReply(s[0], s[1], s[2], s[3], s[4])
  }

  lemma ParamsReplyLayout(p: ParamsReply, rest: seq<byte>)
    ensures ParamsReplyOf(ParamsReplyBytes(p) + rest) == p
    ensures forall s: seq<byte> :: |s| >= PARAMS_SIZE ==> ParamsReplyBytes(ParamsReplyOf(s)) == s[..PARAMS_SIZE]
  {
    assert forall s: seq<byte> :: |s| >= PARAMS_SIZE ==> ParamsReplyBytes(ParamsReplyOf(s)) == s[..PARAMS_SIZE] by {
      forall s: seq<byte> | |s| >= PARAMS_SIZE
        ensures ParamsReplyBytes(ParamsReplyOf(s)) == s[..PARAMS_SIZE]
      {
      }
    }
  }

  /** The packed in-memory image of a set-parameters head, field by field. */
  function SetParamsBytes(p: SetParams): (s: seq<byte>)
    ensures |s| == PARAMS_SIZE
  {
    [p.userSizeLsb, p.userSizeMsb, p.breakTime, p.mabTime, p.refreshRate]
  }

  // ---------------------------------------------------------------------------
  // Frames

  /** The frame sendUsbProPacket writes for a label and a payload. */
  function Frame(lbl: byte, payload: seq<byte>): (f: seq<byte>)
    requires |payload| <= PACKET_MAX_DATA_SIZE
    ensures |f| == |payload| + FRAME_OVERHEAD
  {
    [PACKET_START_CODE, lbl, Lsb(|payload|), Msb(|payload|)] + payload + [PACKET_END_CODE]
  }

  /** How receiveUsbProPacket judges the bytes it took off the line. */
  datatype Outcome =
    | Payload(data: seq<byte>)
      /** an error code, and whether the receive buffer is purged */
    | Fault(code: int, purge: bool)

  /**
   * The judgement of receiveUsbProPacket on the bytes `s` it read when a
   * payload of `length` bytes with this label is expected: the four header
   * bytes (start code, label, little-endian length; a mismatch purges the
   * receive buffer), then the payload and the end code. Fewer bytes than a
   * stage needs is a short read, which does not purge.
   */
  function ParseFrame(lbl: byte, length: nat, s: seq<byte>): (o: Outcome)
    ensures o.Fault? ==> o.code < 0
    ensures o.Payload? ==> |o.data| == length
  {
    if |s| < 4 then Fault(RV_PACKET_SHORT_READ, false)
    else if s[0] != PACKET_START_CODE then Fault(RV_PACKET_INVALID, true)
    else if s[1] != lbl then Fault(RV_PACKET_NO_MATCH, true)
    else if Le16(s[2], s[3]) != length then Fault(RV_PACKET_NO_MATCH, true)
    else if |s| < length + FRAME_OVERHEAD then Fault(RV_PACKET_SHORT_READ, false)
    else if s[4 + length] != PACKET_END_CODE then Fault(RV_PACKET_INVALID, true)
    else Payload(s[4..4 + length])
  }

  /** The frame of a payload is judged to carry exactly that payload, whatever follows it on the line. */
  lemma {:induction false} FrameRoundTrip(lbl: byte, payload: seq<byte>, rest: seq<byte>)
    requires |payload| <= PACKET_MAX_DATA_SIZE
    ensures ParseFrame(lbl, |payload|, Frame(lbl, payload) + rest) == Payload(payload)
  {
    var s := Frame(lbl, payload) + rest;
    var n := |payload|;
    assert s[0] == PACKET_START_CODE && s[1] == lbl && s[2] == Lsb(n) && s[3] == Msb(n);
    Le16OfLength(n);
    assert s[4 + n] == PACKET_END_CODE;
    assert s[4..4 + n] == payload;
  }

  /** The four header bytes carry the start code, the expected label and the expected payload length. */
  predicate HeaderAccepted(lbl: byte, length: nat, h: seq<byte>) {
    |h| == 4 && h[0] == PACKET_START_CODE && h[1] == lbl && Le16(h[2], h[3]) == length
  }

  /** Once the header is accepted, the outcome depends on the bytes after it alone. */
  lemma ParseFrameAfterHeader(lbl: byte, length: nat, h: seq<byte>, b: seq<byte>)
    requires HeaderAccepted(lbl, length, h)
    ensures ParseFrame(lbl, length, h + b) ==
              if |b| < length + 1 then Fault(RV_PACKET_SHORT_READ, false)
              else if b[length] != PACKET_END_CODE then Fault(RV_PACKET_INVALID, true)
              else Payload(b[..length])
  {
    if |b| >= length + 1 {
      assert (h + b)[4..4 + length] == b[..length];
    }
  }

  /**
   * The judgement depends only on the bytes a stage needs: a prefix `t` of
   * the line that holds the whole frame, or whose header is already
   * rejected, is judged like the line itself.
   */
  lemma ParseFrameOfPrefix(lbl: byte, length: nat, t: seq<byte>, s: seq<byte>)
    requires t <= s
    ensures |t| >= 4 && (|t| >= length + FRAME_OVERHEAD || t[0] != PACKET_START_CODE || t[1] != lbl || Le16(t[2], t[3]) != length)
            ==> ParseFrame(lbl, length, t) == ParseFrame(lbl, length, s)
  {
    if |t| >= 4 && |t| >= length + FRAME_OVERHEAD {
      assert t[4..4 + length] == s[4..4 + length];
    }
  }

  /** A payload is accepted only from bytes that begin with its frame: the converse of FrameRoundTrip. */
  lemma {:induction false} AcceptedIsFrame(lbl: byte, length: nat, s: seq<byte>)
    requires ParseFrame(lbl, length, s).Payload?
    ensures var p := ParseFrame(lbl, length, s).data;
            |p| == length && (length <= PACKET_MAX_DATA_SIZE ==> s[..length + FRAME_OVERHEAD] == Frame(lbl, p))
  {
    var p := ParseFrame(lbl, length, s).data;
    if length <= PACKET_MAX_DATA_SIZE {
      LengthBytesUnique(s[2], s[3], length);
      var n := length;
      assert s[..n + FRAME_OVERHEAD] == s[..4] + s[4..4 + n] + s[4 + n..n + FRAME_OVERHEAD];
      assert s[..4] == [PACKET_START_CODE, lbl, Lsb(n), Msb(n)];
      assert s[4 + n..n + FRAME_OVERHEAD] == [PACKET_END_CODE];
    }
  }

  /** The little-endian pair of a length below 0x10000 is unique. */
  lemma LengthBytesUnique(lo: byte, hi: byte, n: nat)
    requires n < 0x1_0000 && Le16(lo, hi) == n
    ensures lo == Lsb(n) && hi == Msb(n)
  {
  }

  // ---------------------------------------------------------------------------
  // Widget parameters

  /**
   * widgetParameters, with the break and mark-after-break times as the
   * widget's own units (the driver's conversion to microseconds through
   * 10.67 is not part of this model).
   */
  datatype WidgetParameters = WidgetParameters(
    firmwareVersionMajor: nat,
    firmwareVersionMinor: nat,
    breakTime: nat,
    mabTime: nat,
    refreshRate: nat)

  /**
   * The cache fetchWidgetParameters builds from a reply head: a
   * zero-initialised record whose major version is first set from the
   * firmware MSB and then overwritten by the LSB; the minor version keeps 0.
   */
  function ParamsFromReply(reply: seq<byte>): (w: WidgetParameters)
    requires |reply| >= PARAMS_SIZE
    ensures w.firmwareVersionMajor == ParamsReplyOf(reply).firmwareLsb && w.firmwareVersionMinor == 0
    ensures w.breakTime == reply[2] && w.mabTime == reply[3] && w.refreshRate == reply[4]
  {
    var raw := ParamsReplyOf(reply);
    WidgetParameters(raw.firmwareLsb, 0, raw.breakTime, raw.mabTime, raw.refreshRate)
  }

  /** As written, the firmware MSB of a reply has no effect on the cached parameters. */
  lemma FirmwareMsbIgnored(p: ParamsReply, msb: byte)
    ensures ParamsFromReply(ParamsReplyBytes(p)) == ParamsFromReply(ParamsReplyBytes(p.(firmwareMsb := msb)))
  {
  }

  /** The range checks of setWidgetParameters on the user-configuration length and the parameters. */
  predicate AcceptedSettings(p: WidgetParameters, userConfigLength: nat) {
    && userConfigLength <= USER_CONFIG_MAX_LENGTH
    && BREAK_TIME_UNITS_MIN <= p.breakTime <= BREAK_TIME_UNITS_MAX
    && MAB_TIME_UNITS_MIN <= p.mabTime <= MAB_TIME_UNITS_MAX
    && p.refreshRate <= OUTPUT_RATE_MAX
  }

  /** The set-parameters head for accepted settings. */
  function SetParamsFor(p: WidgetParameters, userConfigLength: nat): SetParams
    requires AcceptedSettings(p, userConfigLength)
  {
    SetParams(Lsb(userConfigLength), Msb(userConfigLength), p.breakTime, p.mabTime, p.refreshRate)
  }

  /** The payload of a set-parameters request: the packed head followed by the user configuration. */
  function SetParamsPayload(p: WidgetParameters, userConfig: seq<byte>): (payload: seq<byte>)
    requires AcceptedSettings(p, |userConfig|)
    ensures |payload| == PARAMS_SIZE + |userConfig| <= PACKET_MAX_DATA_SIZE
  {
    SetParamsBytes(SetParamsFor(p, |userConfig|)) + userConfig
  }

  /** What the widget reads from a set-parameters payload: break units, MAB units, rate and the declared user configuration. */
  function ReadSetParams(payload: seq<byte>): Option<(nat, nat, nat, seq<byte>)> {
    if |payload| < PARAMS_SIZE || |payload| < PARAMS_SIZE + Le16(payload[0], payload[1]) then None
    else Some((payload[2], payload[3], payload[4], payload[PARAMS_SIZE..PARAMS_SIZE + Le16(payload[0], payload[1])]))
  }

  /** The widget recovers exactly the settings and configuration that were accepted. */
  lemma {:induction false} SetParamsRoundTrip(p: WidgetParameters, userConfig: seq<byte>)
    requires AcceptedSettings(p, |userConfig|)
    ensures ReadSetParams(SetParamsPayload(p, userConfig)) == Some((p.breakTime, p.mabTime, p.refreshRate, userConfig))
  {
    var payload := SetParamsPayload(p, userConfig);
    Le16OfLength(|userConfig|);
    assert Le16(payload[0], payload[1]) == |userConfig|;
    assert payload[PARAMS_SIZE..PARAMS_SIZE + |userConfig|] == userConfig;
  }

  // ---------------------------------------------------------------------------
  // Serial number

  /** The four reply bytes read as a little-endian 32-bit value (`snAdded`). */
  function Le32(b: seq<byte>): nat
    requires |b| == 4
  {
    (b[0] as nat) + (b[1] as nat) * 0x100 + (b[2] as nat) * 0x1_0000 + (b[3] as nat) * 0x100_0000
  }

  /** `(b & 0xF) + (b >> 4) * 10`: a byte read as two decimal digits, low nibble first; nibbles above 9 are not rejected. */
  function BcdByte(b: byte): (v: nat)
    ensures v <= 165
  {
    b % 16 + (b / 16) * 10
  }

  const BCD_SERIAL_MAX: nat := 166_666_665

  /** The digit pairs weighted by powers of one hundred, lowest pair first. */
  function BcdValue(b: seq<byte>): (v: nat)
    requires |b| == 4
    ensures v <= BCD_SERIAL_MAX
  {
    BcdByte(b[0]) + BcdByte(b[1]) * 100 + BcdByte(b[2]) * 10_000 + BcdByte(b[3]) * 1_000_000
  }

  /** The serial number fetchSerialNumber caches for a four-byte reply. */
  function SerialFromReply(b: seq<byte>): (sn: nat)
    requires |b| == 4
    ensures sn == SN_NOT_PROGRAMMED <==> Le32(b) == SN_NOT_PROGRAMMED
    ensures sn != SN_NOT_PROGRAMMED ==> sn <= BCD_SERIAL_MAX
  {
    if Le32(b) != SN_NOT_PROGRAMMED then BcdValue(b) else SN_NOT_PROGRAMMED
  }

  /** The sentinel arises exactly from a reply of four 0xFF bytes. */
  lemma SentinelIsAllOnes(b: seq<byte>)
    requires |b| == 4
    ensures Le32(b) == SN_NOT_PROGRAMMED <==> b == [0xFF, 0xFF, 0xFF, 0xFF]
  {
    if Le32(b) == SN_NOT_PROGRAMMED {
      assert b[3] == 0xFF;
      assert b[2] == 0xFF;
      assert b[1] == 0xFF;
      assert b[0] == 0xFF;
    }
  }

  /** Two decimal digits as one byte, low digit in the low nibble. */
  function BcdPair(n: nat): (b: byte)
    requires n < 100
    ensures BcdByte(b) == n
  {
    (n / 10) * 16 + n % 10
  }

  /** The reply a widget programmed with serial `n` (eight decimal digits) sends. */
  function BcdReply(n: nat): (b: seq<byte>)
    requires n < 100_000_000
    ensures |b| == 4
  {
    [BcdPair(n % 100), BcdPair(n / 100 % 100), BcdPair(n / 100 / 100 % 100), BcdPair(n / 100 / 100 / 100)]
  }

  /** Every eight-digit serial survives the reply encoding, and none of them reads as unprogrammed. */
  lemma {:induction false} SerialRoundTrip(n: nat)
    requires n < 100_000_000
    ensures SerialFromReply(BcdReply(n)) == n
  {
    var b := BcdReply(n);
    var q1 := n / 100;
    var q2 := q1 / 100;
    var q3 := q2 / 100;
    assert n == n % 100 + 100 * q1;
    assert q1 == q1 % 100 + 100 * q2;
    assert q2 == q2 % 100 + 100 * q3;
    assert BcdValue(b) == n % 100 + q1 % 100 * 100 + q2 % 100 * 10_000 + q3 * 1_000_000;
    assert b[3] != 0xFF;
    SentinelIsAllOnes(b);
  }
}
