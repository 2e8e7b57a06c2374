/**
 * What every DMX device shares: an FTDI session created on demand, open and
 * close, and the forwarders to the session.
 */
module DmxBase {
  import opened Basics
  import opened Usb
  import opened Ftdi

  /** DMX_DEVICE_TYPE */
  datatype DeviceType = DmxDeviceRaw | DmxDeviceEnttecPro

  /** What a successful open of the device with this handle issues: the session's own commands, then one more purge of both buffers. */
  function BaseOpenCommands(handle: nat): seq<Command> {
    OpenCommands(handle) + [Purge(RxTxBuffer)]
  }

  /** The largest number of channel bytes (start code included) writeDmx accepts: one DMX512 universe. */
  const DMX_FRAME_MAX: nat := 513

  class DmxDevice {
    const usb: Bus
    /** `ftdiDevice_`, null until the first open */
    var ftdiDevice: FtdiDevice?

    constructor (usb: Bus)
      ensures this.usb == usb && ftdiDevice == null
    {
      this.usb := usb;
      ftdiDevice := null;
    }

    /** The session, once created, talks to this device's bus. */
    ghost predicate Valid()
      reads this, ftdiDevice
    {
      ftdiDevice != null ==> ftdiDevice.usb == usb
    }

    predicate IsOpen()
      reads this, ftdiDevice
    {
      ftdiDevice != null && ftdiDevice.IsOpen()
    }

    /**
     * open(description, serial, index): an open device stays as it is and
     * reports success; otherwise a new session is created and opened, and on
     * success both buffers are purged once more.
     */
    method Open(description: Option<string>, serial: Option<string>, index: int) returns (success: bool)
      requires Valid()
      modifies this, usb
      ensures Valid()
      ensures old(IsOpen()) ==> success && ftdiDevice == old(ftdiDevice) && usb.Issued([])
      ensures !old(IsOpen()) ==>
                var target := Target(usb, description, serial, index);
                && ftdiDevice != null && fresh(ftdiDevice)
                && success == target.Some? == IsOpen()
                && (target.None? ==> usb.Issued([]) && ftdiDevice.usbInfo.None? && ftdiDevice.hasFtdiError == usb.allocFails)
                && (target.Some? ==>
                      && ftdiDevice.context == Some(target.value.ftdiDevice)
                      && ftdiDevice.usbInfo == target.value.usbInfo
                      && ftdiDevice.hasFtdiError == (usb.answer(OpenDev(target.value.ftdiDevice)) < 0)
                      && usb.Issued(BaseOpenCommands(target.value.ftdiDevice)))
    {
      success := true;
      if ftdiDevice == null || !ftdiDevice.IsOpen() {
        var session := new FtdiDevice(usb);
        ftdiDevice := session;
        success := session.Open(description, serial, index);
        if success {
          var rp := session.PurgeBuffers(RxTxBuffer);
          usb.RxAfterAppend(old(usb.rx), OpenCommands(session.context.value), [Purge(RxTxBuffer)]);
        }
      }
    }

    /** close(): closes an open session and reports its result; a device that is not open reports success. */
    method Close() returns (success: bool)
      requires Valid()
      modifies usb, ftdiDevice
      ensures Valid() && !IsOpen() && ftdiDevice == old(ftdiDevice)
      ensures !old(IsOpen()) ==> success && usb.Issued([]) && (ftdiDevice != null ==> unchanged(ftdiDevice))
      ensures old(IsOpen()) ==>
                && usb.Issued([Purge(RxTxBuffer), CloseDev])
                && success == (usb.answer(CloseDev) >= 0)
                && ftdiDevice.hasFtdiError == !success
                && ftdiDevice.usbInfo.None?
    {
      success := true;
      if IsOpen() {
        success := ftdiDevice.Close();
      }
    }

    /** getLastError, forwarded to the session (which must exist). */
    function GetLastError(): (message: string)
      requires ftdiDevice != null
      reads this, ftdiDevice
      ensures message != [] ==> IsOpen() && ftdiDevice.hasFtdiError
      ensures IsOpen() && ftdiDevice.hasFtdiError ==> message == ftdiDevice.usb.errorString
    {
      ftdiDevice.GetLastError()
    }

    /** getUsbInformation, forwarded to the session (which must exist). */
    function GetUsbInformation(): (info: Option<UsbInformation>)
      requires ftdiDevice != null
      reads this, ftdiDevice
      ensures info.Some? ==> IsOpen() && info == ftdiDevice.usbInfo
      ensures IsOpen() ==> info == ftdiDevice.usbInfo
    {
      ftdiDevice.GetUsbInformation()
    }

    /** reset, forwarded to the session (which must exist). */
    method Reset() returns (r: int)
      requires Valid() && ftdiDevice != null
      modifies usb
      ensures !IsOpen() ==> r == 0 && usb.Issued([])
      ensures IsOpen() ==> usb.Issued([UsbReset]) && r == usb.answer(UsbReset)
    {
      r := ftdiDevice.Reset();
    }
  }
}
