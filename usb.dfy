/**
 * The environment of the driver: the libftdi library together with the
 * USB-serial bridges attached to the host and whatever is on their lines.
 *
 * Nothing of libftdi is modelled beyond its observable answers: every command
 * the driver issues is appended to `trace`, the library's return code for it is
 * the fixed oracle `answer`, and bytes arrive through the queue `rx`: what the
 * attached device sends back for a completely written message (the oracle
 * `response`) is appended to the queue before the next read. A read
 * call returns a chunk whose size the oracle `readLimit` bounds (or a negative
 * libftdi error), and each read call lets the clock advance by at least one
 * microsecond.
 */
module Usb {
  import opened Basics

  /** FTDI_BUFFER_TYPE */
  datatype BufferType = RxTxBuffer | RxBuffer | TxBuffer

  /** FTDI_DATABITS_TYPE, FTDI_STOPBITS_TYPE, FTDI_PARITY_TYPE, FTDI_BREAK_TYPE, FTDI_FLOWCTL_TYPE */
  datatype DataBits = Bits7 | Bits8
  datatype StopBits = StopBit1 | StopBit15 | StopBit2
  datatype Parity = ParityNone | ParityOdd | ParityEven | ParityMark | ParitySpace
  datatype BreakType = BreakOn | BreakOff
  datatype FlowControl = FlowNone | FlowRtsCts | FlowDtrDsr | FlowXonXoff

  /** The three descriptor strings of a USB device. */
  datatype UsbInformation = UsbInformation(manufacturer: string, description: string, serial: string)

  /**
   * A bridge as enumeration by vendor 0x0403 / product 0x6001 reports it:
   * its native handle, and the descriptor strings that fetching them yields
   * (None when the library cannot read them).
   */
  datatype UsbDevice = UsbDevice(handle: nat, strings: Option<UsbInformation>)

  /** A libftdi call that reaches the hardware. */
  datatype Command =
    | OpenDev(handle: nat)
    | CloseDev
    | Purge(buffer: BufferType)
    | UsbReset
    | Baudrate(baud: int)
    | LineProperty(bits: DataBits, stop: StopBits, parity: Parity, brk: BreakType)
    | FlowCtrl(flow: FlowControl)
    | Rts(rtsOn: bool)
    | Break(brkType: BreakType)
    | Write(bytes: seq<byte>)
    | Read(size: nat)

  /** A purge that also drops the bytes waiting to be read. */
  predicate ClearsRx(c: Command) {
    c.Purge? && c.buffer != TxBuffer
  }

  /** The trace `t` continues the earlier trace `t0` with reads only, followed by the commands `cs`. */
  ghost predicate ReadsBetween(t0: seq<Command>, t: seq<Command>, cs: seq<Command>) {
    && |t0| + |cs| <= |t|
    && t[..|t0|] == t0
    && t[|t| - |cs|..] == cs
    && forall i :: |t0| <= i < |t| - |cs| ==> t[i].Read?
  }

  lemma ReadsBetweenRead(t0: seq<Command>, t: seq<Command>, c: Command)
    requires ReadsBetween(t0, t, []) && c.Read?
    ensures ReadsBetween(t0, t + [c], [])
  {
    assert (t + [c])[..|t0|] == t[..|t0|];
  }

  lemma ReadsBetweenThen(t0: seq<Command>, t: seq<Command>, c: Command)
    requires ReadsBetween(t0, t, [])
    ensures ReadsBetween(t0, t + [c], [c])
  {
    assert (t + [c])[..|t0|] == t[..|t0|];
  }

  lemma ReadsBetweenTrans(t0: seq<Command>, t1: seq<Command>, t2: seq<Command>, cs: seq<Command>)
    requires ReadsBetween(t0, t1, []) && ReadsBetween(t1, t2, cs)
    ensures ReadsBetween(t0, t2, cs)
  {
    assert t2[..|t0|] == t2[..|t1|][..|t0|];
  }

  class Bus {
    /** ftdi_new() returns null */
    const allocFails: bool
    /** what enumeration finds, in order */
    const devices: seq<UsbDevice>
    /** libftdi's return code for each command other than a read */
    const answer: Command -> int
    /** for the k-th command of the trace, when it is a read: a negative error code,
        or the largest number of bytes that call can hand over */
    const readLimit: nat -> int
    /** the time, beyond one microsecond, that the k-th command takes when it is a read */
    const readTime: nat -> nat
    /** the message ftdi_get_error_string reports for the library's last error */
    const errorString: string
    /** the bytes the attached device sends back after receiving the complete message `bytes` */
    const response: seq<byte> -> seq<byte>

    /** every command issued so far, oldest first */
    var trace: seq<Command>
    /** bytes received and not yet read */
    var rx: seq<byte>
    /** wall-clock time in microseconds */
    var clock: int

    constructor (allocFails: bool, devices: seq<UsbDevice>, answer: Command -> int,
                 readLimit: nat -> int, readTime: nat -> nat, errorString: string,
                 response: seq<byte> -> seq<byte>, rx: seq<byte>)
      ensures this.allocFails == allocFails && this.devices == devices && this.answer == answer
      ensures this.readLimit == readLimit && this.readTime == readTime && this.errorString == errorString
      ensures this.response == response
      ensures trace == [] && this.rx == rx && clock == 0
    {
      this.allocFails, this.devices, this.answer := allocFails, devices, answer;
      this.readLimit, this.readTime, this.errorString, this.response := readLimit, readTime, errorString, response;
      trace, this.rx, clock := [], rx, 0;
    }

    /** The receive queue after the control command `c` on queue `q`: a successful purge empties it, a complete write adds the response. */
    function RxStep(q: seq<byte>, c: Command): seq<byte> {
      if ClearsRx(c) && answer(c) >= 0 then []
      else if c.Write? && answer(c) == |c.bytes| then q + response(c.bytes)
      else q
    }

    /** The receive queue after the control commands `cs` have been carried out on queue `q`. */
    function RxAfter(q: seq<byte>, cs: seq<Command>): seq<byte>
      decreases |cs|
    {
      if cs == [] then q
      else RxAfter(RxStep(q, cs[0]), cs[1..])
    }

    lemma {:induction false} RxAfterAppend(q: seq<byte>, a: seq<Command>, b: seq<Command>)
      ensures RxAfter(q, a + b) == RxAfter(RxAfter(q, a), b)
      decreases |a|
    {
      if a == [] {
        assert a + b == b;
      } else {
        assert (a + b)[0] == a[0] && (a + b)[1..] == a[1..] + b;
        RxAfterAppend(RxStep(q, a[0]), a[1..], b);
      }
    }

    /** A complete write appends the device's response to the receive queue; any other write leaves it as it is. */
    lemma RxAfterWrite(q: seq<byte>, bytes: seq<byte>)
      ensures RxAfter(q, [Write(bytes)]) == if answer(Write(bytes)) == |bytes| then q + response(bytes) else q
    {
      assert [Write(bytes)][1..] == [];
    }

    /** Since the previous state exactly the control commands `cs` were issued, and no read. */
    twostate predicate Issued(cs: seq<Command>)
      reads this
    {
      trace == old(trace) + cs && rx == RxAfter(old(rx), cs) && clock == old(clock)
    }

    /** Since the earlier trace `t0` only reads were issued. */
    ghost predicate ReadsSince(t0: seq<Command>)
      reads this
    {
      ReadsBetween(t0, trace, [])
    }

    /** Since the earlier trace `t0` only reads were issued, followed by the commands `cs`. */
    ghost predicate ReadsThen(t0: seq<Command>, cs: seq<Command>)
      reads this
    {
      ReadsBetween(t0, trace, cs)
    }

    /** Issue one control command (anything but a read) and return libftdi's answer. */
    method Control(c: Command) returns (r: int)
      requires !c.Read?
      modifies this
      ensures Issued([c])
      ensures r == answer(c)
    {
      trace := trace + [c];
      rx := RxStep(rx, c);
      r := answer(c);
    }

    /** What the k-th command, a read of at most `size` bytes with `pending` bytes waiting, returns. */
    function Delivered(k: nat, size: nat, pending: nat): (r: int)
      ensures r >= 0 ==> r <= size && r <= pending
      ensures readLimit(k) > 0 && size > 0 && pending > 0 ==> r > 0
    {
      if readLimit(k) < 0 then readLimit(k) else Min(Min(readLimit(k), size), pending)
    }

    /** Every read call hands over at least one byte when bytes are waiting. */
    ghost predicate Reliable() {
      forall k: nat :: readLimit(k) > 0
    }

    /** ftdi_read_data: take at most `size` waiting bytes off the front of the queue. */
    method ReadChunk(size: nat) returns (r: int, chunk: seq<byte>)
      modifies this
      ensures trace == old(trace) + [Read(size)]
      ensures r < 0 ==> r == readLimit(|old(trace)|) && chunk == [] && rx == old(rx)
      ensures r >= 0 ==> r <= size && r <= |old(rx)|
      ensures readLimit(|old(trace)|) > 0 && size > 0 && |old(rx)| > 0 ==> r > 0
      ensures r >= 0 ==> chunk == old(rx)[..r] && rx == old(rx)[r..]
      ensures clock == old(clock) + 1 + readTime(|old(trace)|)
    {
      var k := |trace|;
      r := Delivered(k, size, |rx|);
      if r < 0 {
        chunk := [];
      } else {
        chunk, rx := rx[..r], rx[r..];
      }
      trace := trace + [Read(size)];
      clock := clock + 1 + readTime(k);
    }
  }
}
