/**
 * The raw DMX device: a plain FTDI bridge driven as a DMX512 line. Opening
 * configures the line (250000 baud, 8 data bits, 2 stop bits, no parity, no
 * flow control, RTS off) step by step; a frame is sent by toggling the break
 * and writing the channel bytes.
 */
module Raw {
  import opened Basics
  import opened Usb
  import opened Ftdi
  import opened DmxBase

  /** The DMX512 line rate in bits per second. */
  const DMX_BAUD_RATE: int := 250000

  /** The configuration steps after the reset, in the order the chain issues them. */
  function ConfigSteps(): seq<Command> {
    [ Baudrate(DMX_BAUD_RATE),
      LineProperty(Bits8, StopBit2, ParityNone, BreakOff),
      FlowCtrl(FlowNone),
      Rts(false),
      Purge(RxTxBuffer) ]
  }

  /**
   * What the chain receives from a step's setter: baud rate, line properties
   * and flow control report 1 or 0, the RTS setter and the purge pass
   * libftdi's code on unchanged.
   */
  function StepResult(answer: Command -> int, c: Command): int {
    if c.Baudrate? || c.LineProperty? || c.FlowCtrl? then Truth(answer(c)) else answer(c)
  }

  /** The chain stores each result in a `bool`: any non-zero result counts as success. */
  predicate StepSucceeds(answer: Command -> int, c: Command) {
    StepResult(answer, c) != 0
  }

  predicate AllSucceed(answer: Command -> int, cs: seq<Command>) {
    forall i :: 0 <= i < |cs| ==> StepSucceeds(answer, cs[i])
  }

  /** The steps a short-circuit chain issues: up to and including the first that fails. */
  function StepsRun(answer: Command -> int, cs: seq<Command>): seq<Command>
    decreases |cs|
  {
    if cs == [] then []
    else if AllSucceed(answer, cs[..|cs| - 1]) then cs
    else StepsRun(answer, cs[..|cs| - 1])
  }

  /** Appending a step to a chain: it runs exactly when all earlier steps succeeded. */
  lemma StepsRunSnoc(answer: Command -> int, xs: seq<Command>, c: Command)
    ensures AllSucceed(answer, xs + [c]) == (AllSucceed(answer, xs) && StepSucceeds(answer, c))
    ensures StepsRun(answer, xs + [c]) == if AllSucceed(answer, xs) then xs + [c] else StepsRun(answer, xs)
  {
    var ys := xs + [c];
    assert ys[..|ys| - 1] == xs;
    assert ys[|xs|] == c;
    if AllSucceed(answer, xs) && StepSucceeds(answer, c) {
      forall i | 0 <= i < |ys| ensures StepSucceeds(answer, ys[i]) {
        if i < |xs| { assert ys[i] == xs[i]; }
      }
    }
    if AllSucceed(answer, ys) {
      forall i | 0 <= i < |xs| ensures StepSucceeds(answer, xs[i]) {
        assert ys[i] == xs[i];
      }
    }
  }

  /** The chain issues every step when all succeed, and otherwise stops right after the first failure. */
  lemma {:induction false} StepsRunStopsAtFailure(answer: Command -> int, cs: seq<Command>)
    ensures StepsRun(answer, cs) <= cs
    ensures AllSucceed(answer, cs) ==> StepsRun(answer, cs) == cs
    ensures !AllSucceed(answer, cs) ==>
              var run := StepsRun(answer, cs);
              && run != []
              && !StepSucceeds(answer, run[|run| - 1])
              && AllSucceed(answer, run[..|run| - 1])
    decreases |cs|
  {
    if cs != [] {
      var p, c := cs[..|cs| - 1], cs[|cs| - 1];
      assert cs == p + [c];
      StepsRunSnoc(answer, p, c);
      StepsRunStopsAtFailure(answer, p);
      if !AllSucceed(answer, p) {
        assert StepsRun(answer, p) <= cs;
      }
    }
  }

  /** Whether the whole configuration succeeds. */
  predicate Configured(answer: Command -> int) {
    AllSucceed(answer, ConfigSteps())
  }

  /** What an open issues after the base open: the reset, the chain, and closing again when the chain failed. */
  function ConfigCommands(answer: Command -> int): seq<Command> {
    [UsbReset] + StepsRun(answer, ConfigSteps())
    + (if Configured(answer) then [] else [Purge(RxTxBuffer), CloseDev])
  }

  /**
   * As written, a purge that libftdi reports as successful (0) counts as a
   * failed step, so the configuration never succeeds then and the device is
   * closed again.
   */
  lemma PurgeSuccessFailsConfiguration(answer: Command -> int)
    requires answer(Purge(RxTxBuffer)) == 0
    ensures !Configured(answer)
    ensures ConfigCommands(answer)[|ConfigCommands(answer)| - 2..] == [Purge(RxTxBuffer), CloseDev]
  {
    assert ConfigSteps()[4] == Purge(RxTxBuffer);
  }

  /** The configuration succeeds exactly when each step's result is non-zero. */
  lemma ConfiguredWhen(answer: Command -> int)
    ensures Configured(answer) <==>
              && answer(Baudrate(DMX_BAUD_RATE)) >= 0
              && answer(LineProperty(Bits8, StopBit2, ParityNone, BreakOff)) >= 0
              && answer(FlowCtrl(FlowNone)) >= 0
              && answer(Rts(false)) != 0
              && answer(Purge(RxTxBuffer)) != 0
  {
    var cs := ConfigSteps();
    if Configured(answer) {
      assert StepSucceeds(answer, cs[0]) && StepSucceeds(answer, cs[1]) && StepSucceeds(answer, cs[2]);
      assert StepSucceeds(answer, cs[3]) && StepSucceeds(answer, cs[4]);
    }
  }

  class DmxRawDevice {
    /** the DmxDevice part of the object */
    const base: DmxDevice
    const usb: Bus

    constructor (usb: Bus)
      ensures this.usb == usb && fresh(base) && base.usb == usb && base.ftdiDevice == null
    {
      this.usb := usb;
      base := new DmxDevice(usb);
    }

    ghost predicate Valid()
      reads this, base, base.ftdiDevice
    {
      base.usb == usb && base.Valid()
    }

    predicate IsOpen()
      reads this, base, base.ftdiDevice
    {
      base.IsOpen()
    }

    /** getType: always the raw kind. */
    function GetType(): (t: DeviceType)
      ensures t == DmxDeviceRaw
    {
      DmxDeviceRaw
    }

    /**
     * open(description, serial, index): the base open, then on success the
     * reset and the configuration chain, closing the device when a step
     * fails. The result is whether the device ends up open and configured.
     */
    method Open(description: Option<string>, serial: Option<string>, index: int) returns (success: bool)
      requires Valid()
      modifies base, usb, base.ftdiDevice
      ensures Valid() && success == IsOpen()
      ensures old(IsOpen()) ==>
                && base.ftdiDevice == old(base.ftdiDevice)
                && usb.Issued(ConfigCommands(usb.answer)) && success == Configured(usb.answer)
      ensures !old(IsOpen()) ==>
                var target := Target(usb, description, serial, index);
                && (target.None? ==> !success && usb.Issued([]))
                && (target.Some? ==>
                      && usb.Issued(BaseOpenCommands(target.value.ftdiDevice) + ConfigCommands(usb.answer))
                      && success == Configured(usb.answer))
    {
      ghost var target := Target(usb, description, serial, index);
      ghost var pre: seq<Command> := if !IsOpen() && target.Some? then BaseOpenCommands(target.value.ftdiDevice) else [];
      success := base.Open(description, serial, index);
      if success {
        assert usb.trace == old(usb.trace) + pre && usb.rx == usb.RxAfter(old(usb.rx), pre);
        label Opened:
        ghost var run;
        success, run := Configure();
        Extended(usb, old(usb.trace), old(usb.rx), pre, old@Opened(usb.trace), old@Opened(usb.rx), ConfigCommands(usb.answer));
      }
    }

    /**
     * The part of open after a successful base open: the reset, the chain
     * (`run` is the steps it issued), and the close when a step failed.
     */
    method Configure() returns (success: bool, ghost run: seq<Command>)
      requires Valid() && IsOpen()
      modifies base.ftdiDevice, usb
      ensures Valid() && success == IsOpen() && base.ftdiDevice == old(base.ftdiDevice)
      ensures run == StepsRun(usb.answer, ConfigSteps()) && success == Configured(usb.answer)
      ensures usb.Issued(ConfigCommands(usb.answer))
    {
      success, run := Chain();
      if !success {
        label Failed:
        var closed := base.Close();
        Extended(usb, old(usb.trace), old(usb.rx), [UsbReset] + run, old@Failed(usb.trace), old@Failed(usb.rx),
                 [Purge(RxTxBuffer), CloseDev]);
        assert [UsbReset] + run + [Purge(RxTxBuffer), CloseDev] == ConfigCommands(usb.answer);
      } else {
        assert [UsbReset] + run == ConfigCommands(usb.answer);
      }
    }

    /** The reset, then the configuration steps as a short-circuit chain. */
    method Chain() returns (success: bool, ghost run: seq<Command>)
      requires Valid() && IsOpen()
      modifies usb
      ensures run == StepsRun(usb.answer, ConfigSteps()) && success == Configured(usb.answer)
      ensures usb.Issued([UsbReset] + run)
    {
      ghost var cs, answer := ConfigSteps(), usb.answer;
      var rr := base.ftdiDevice.Reset();
      ghost var t0, q0 := old(usb.trace), old(usb.rx);
      assert cs[..0] == [];
      success, run := ConfigStep(0, true, t0, q0, []);
      success, run := ConfigStep(1, success, t0, q0, run);
      success, run := ConfigStep(2, success, t0, q0, run);
      success, run := ConfigStep(3, success, t0, q0, run);
      success, run := ConfigStep(4, success, t0, q0, run);
      ChainDone(usb, t0, q0, success, run);
    }

    /**
     * `if (success) success = <step i>;` — step `i` of the chain, issued
     * through its setter only when the first `i` steps succeeded: the steps
     * issued since the reset, and whether all of them succeeded, extend to
     * the first `i + 1`.
     */
    method ConfigStep(i: nat, success: bool, ghost t0: seq<Command>, ghost q0: seq<byte>, ghost run: seq<Command>)
      returns (ok: bool, ghost run': seq<Command>)
      requires Valid() && IsOpen() && i < |ConfigSteps()| && Chained(usb, t0, q0, i, success, run)
      modifies usb
      ensures Chained(usb, t0, q0, i + 1, ok, run') && usb.clock == old(usb.clock)
    {
      ghost var cs := ConfigSteps();
      assert cs[..i + 1] == cs[..i] + [cs[i]];
      StepsRunSnoc(usb.answer, cs[..i], cs[i]);
      if !success {
        ok, run' := false, run;
        return;
      }
      label Before:
      var r := IssueStep(i);
      ok, run' := r != 0, run + [cs[i]];
      Extended(usb, t0, q0, [UsbReset] + run, old@Before(usb.trace), old@Before(usb.rx), [cs[i]]);
      assert [UsbReset] + run' == ([UsbReset] + run) + [cs[i]];
    }

    /** Step `i` of the configuration through its setter, and the setter's result. */
    method IssueStep(i: nat) returns (r: int)
      requires Valid() && IsOpen() && i < |ConfigSteps()|
      modifies usb
      ensures usb.Issued([ConfigSteps()[i]]) && r == StepResult(usb.answer, ConfigSteps()[i])
    {
      var dev := base.ftdiDevice;
      if i == 0 {
        r := dev.SetBaudRate(DMX_BAUD_RATE);
      } else if i == 1 {
        r := dev.SetLineProperties(Bits8, StopBit2, ParityNone, BreakOff);
      } else if i == 2 {
        r := dev.SetFlowControl(FlowNone);
      } else if i == 3 {
        r := dev.SetRts(false);
      } else {
        r := dev.PurgeBuffers(RxTxBuffer);
      }
    }

    /**
     * writeDmx(data, length): break on, break off, then the channel bytes
     * (start code first, one universe at most) in one write, whose result is
     * returned. The session must exist.
     */
    method WriteDmx(data: seq<byte>) returns (r: int)
      requires Valid() && base.ftdiDevice != null && |data| <= DMX_FRAME_MAX
      modifies usb
      ensures !IsOpen() ==> r == RV_DEVICE_NOT_OPEN && usb.Issued([])
      ensures IsOpen() ==> usb.Issued([Break(BreakOn), Break(BreakOff), Write(data)]) && r == usb.answer(Write(data))
    {
      var dev := base.ftdiDevice;
      var b := dev.SetBreak(BreakOn);
      label On:
      b := dev.SetBreak(BreakOff);
      label Off:
      r := dev.WriteData(data);
      if dev.IsOpen() {
        usb.RxAfterAppend(old@On(usb.rx), [Break(BreakOff)], [Write(data)]);
        usb.RxAfterAppend(old(usb.rx), [Break(BreakOn)], [Break(BreakOff), Write(data)]);
      }
    }
  }

  /**
   * The first `i` configuration steps have been dealt with since trace `t0`
   * and queue `q0`: `ok` is whether all of them succeeded, and exactly the
   * reset and the steps the chain ran (`run`) were issued.
   */
  ghost predicate Chained(usb: Bus, t0: seq<Command>, q0: seq<byte>, i: nat, ok: bool, run: seq<Command>)
    reads usb
  {
    && i <= |ConfigSteps()|
    && ok == AllSucceed(usb.answer, ConfigSteps()[..i]) && run == StepsRun(usb.answer, ConfigSteps()[..i])
    && usb.trace == t0 + ([UsbReset] + run) && usb.rx == usb.RxAfter(q0, [UsbReset] + run)
  }

  /** All five steps dealt with: the chain ran `StepsRun` over them, and succeeded exactly when configured. */
  lemma ChainDone(usb: Bus, t0: seq<Command>, q0: seq<byte>, ok: bool, run: seq<Command>)
    requires Chained(usb, t0, q0, |ConfigSteps()|, ok, run)
    ensures run == StepsRun(usb.answer, ConfigSteps()) && ok == Configured(usb.answer)
    ensures usb.trace == t0 + ([UsbReset] + run) && usb.rx == usb.RxAfter(q0, [UsbReset] + run)
  {
    assert ConfigSteps()[..|ConfigSteps()|] == ConfigSteps();
  }

  /** More control commands after the commands `done` issued since trace `t0` and queue `q0`. */
  lemma Extended(usb: Bus, t0: seq<Command>, q0: seq<byte>, done: seq<Command>,
                 prevTrace: seq<Command>, prevRx: seq<byte>, more: seq<Command>)
    requires prevTrace == t0 + done && prevRx == usb.RxAfter(q0, done)
    requires usb.trace == prevTrace + more && usb.rx == usb.RxAfter(prevRx, more)
    ensures usb.trace == t0 + (done + more) && usb.rx == usb.RxAfter(q0, done + more)
  {
    usb.RxAfterAppend(q0, done, more);
  }
}
