# ofxGenericDmx drivers in Dafny

A model of the libftdi-based DMX output drivers of the openFrameworks addon
ofxGenericDmx, with proofs about it. The drivers are:

- the FTDI session (`FtdiDevice`): enumeration, selection by description and
  serial prefix and by index, open and close, the line-configuration
  pass-throughs with their not-open guards, and the timed read loop;
- the device base (`DmxDevice`): open and close on demand, and the forwarders;
- the Enttec DMX USB Pro driver (`DmxUsbProDevice`): the widget's framed
  protocol (`0x7E, label, length LSB, length MSB, payload, 0xE7`), receiving
  and judging a reply frame, setting and fetching the widget parameters, and
  fetching and decoding the BCD serial number into three optional caches;
- the raw DMX driver (`DmxRawDevice`): the line-configuration chain of open,
  and a frame sent as break on, break off, then the channel bytes;
- the addon's factory and `openFirstDevice`, which picks the first USB Pro
  (or, when any device will do, the first device) and opens it.

libftdi and the hardware are the class `Usb.Bus`. Every call that reaches the
hardware is appended to `trace` as a `Command`. The library's return code for
each command is a fixed oracle `answer`. Received bytes wait in the queue `rx`,
which a successful purge of the receive buffer empties. What the attached
device sends back for a completely written message is the oracle `response`;
it joins the queue behind the bytes already waiting, before the next read
(the reply a widget sends during the driver's delay after a request). A read hands over a
chunk whose size the oracle `readLimit` bounds, or a negative error code, and
advances `clock`. Many contracts are stated as `usb.Issued(cs)`: exactly the
commands `cs` were issued and no read, the queue changed only as those
commands change it, and no time passed. `Reliable()` says that every read
hands over at least one waiting byte. Under it the receive paths are also
proved complete: a well-formed reply at the front of the line is accepted.
For the two fetches this is also stated from the widget's side: a widget that
answers the request with a reply frame gets that reply cached.

C++ inheritance is modelled by composition. `DmxRawDevice` and
`DmxUsbProDevice` each hold their `DmxDevice` part as `base`. The factory
returns the datatype `AnyDevice`. A pointer that may be null is an `Option`.
Break and mark-after-break times are integer widget units, not microseconds.

The modules follow the program's layers:

- `Basics`: bytes, `Option`, little-endian pairs;
- `Usb`: the environment;
- `Ftdi`: `src/FtdiDevice.cpp`;
- `DmxBase`: `src/DmxDevice.cpp`;
- `UsbProProtocol`: the byte-level protocol, records and decoders of `src/DmxUsbProDevice.h` and `.cpp`;
- `UsbPro`: the stateful USB Pro driver;
- `Raw`: `src/DmxRawDevice.cpp`;
- `GenericDmx`: `src/ofxGenericDmx.cpp`.

Two defects of the driver are reproduced as written, not corrected:

- `fetchWidgetParameters` assigns the firmware MSB and then the LSB to the
  major version. The cached major version is the LSB and the minor version
  stays 0 (`UsbProProtocol.ParamsFromReply`, `UsbProProtocol.FirmwareMsbIgnored`).
- The raw open chain stores `purgeBuffers()`'s libftdi code in a `bool`. A
  purge that libftdi reports as successful (0) therefore fails the chain and
  closes the device again (`Raw.PurgeSuccessFailsConfiguration`).

`purgeBuffers` on a closed session returns `RV_DEVICE_NOT_OPEN`
(src/FtdiDevice.cpp:228). The largest serial number the BCD decoding can
produce is 165 · 1010101 = 166,666,665 (`UsbProProtocol.BCD_SERIAL_MAX`).

## Model

| member | source | states |
|---|---|---|
| Basics.Le16OfLength | src/DmxUsbProDevice.cpp:357-358 | the two length bytes of a frame, read back little-endian, give the length again for any length below 65536 |
| Ftdi.GetDeviceList | src/FtdiDevice.cpp:261-285 | no list when an own context cannot be allocated; otherwise one entry per enumerated device, in order, with the handle and fetched descriptor strings of that device |
| Ftdi.CountMatchesGrows | src/FtdiDevice.cpp:63-77 | each passing device raises the count of passing devices before every later position |
| Ftdi.SelectionUnique | src/FtdiDevice.cpp:60-86 | at most one list position is ever selected |
| Ftdi.UnfilteredSelectsIndex | src/FtdiDevice.cpp:60-86 | without filters the device at list position `index` is the one selected |
| Ftdi.OnlySelected | src/FtdiDevice.cpp:60-86 | a selected position is the only position selected |
| Ftdi.Selected | src/FtdiDevice.cpp:60-86 | the position open() binds to is a selected one and the only one, so open() is deterministic; there is none exactly when no position is selected |
| Ftdi.FindDevice | src/FtdiDevice.cpp:60-86 | the scan returns a position that passes the filters, has exactly `index` passing devices before it and, when filtering, no device without descriptor strings before it; it returns none exactly when no position qualifies |
| Ftdi.FtdiDevice.constructor | src/FtdiDevice.cpp:22-24 | a new session has no context, no USB information and no error |
| Ftdi.FtdiDevice.GetLastError | src/FtdiDevice.cpp:157-164 | a message only for an open session with an error flagged, and then libftdi's error string |
| Ftdi.FtdiDevice.GetUsbInformation | src/FtdiDevice.cpp:166-169 | the descriptor strings copied at open while the session is open, and nothing otherwise |
| Ftdi.FtdiDevice.Open | src/FtdiDevice.cpp:39-101 | on an open session fail with no I/O, clearing the error flag and keeping the session and its strings; otherwise open exactly the selected device, copy its descriptor strings and issue open, purge both buffers, reset; no selection leaves the session closed with no I/O, and a context that cannot be allocated raises the error flag |
| Ftdi.FtdiDevice.OpenSelected | src/FtdiDevice.cpp:80-98 | the selected device is bound, its strings copied, a failing ftdi_usb_open_dev only raises the error flag, and the open, purge and reset are issued in that order |
| Ftdi.FtdiDevice.Close | src/FtdiDevice.cpp:104-125 | afterwards the session is closed and has no USB information; closing a closed session succeeds with no I/O; closing an open one purges both buffers, closes, and succeeds exactly when the close did, setting the error flag to the failure |
| Ftdi.FtdiDevice.SetBaudRate | src/FtdiDevice.cpp:127-132 | RV_DEVICE_NOT_OPEN with no I/O when not open; otherwise one baud-rate command, and 1 or 0 for libftdi's success or failure |
| Ftdi.FtdiDevice.SetLineProperties | src/FtdiDevice.cpp:134-142 | as SetBaudRate, for the line-property command with the given data bits, stop bits, parity and break |
| Ftdi.FtdiDevice.SetFlowControl | src/FtdiDevice.cpp:144-149 | as SetBaudRate, for the flow-control command |
| Ftdi.FtdiDevice.SetBreak | src/FtdiDevice.h:107 | RV_DEVICE_NOT_OPEN with no I/O when not open; otherwise one break command and libftdi's code |
| Ftdi.FtdiDevice.SetRts | src/FtdiDevice.h:109 | RV_DEVICE_NOT_OPEN with no I/O when not open; otherwise one RTS command and libftdi's code |
| Ftdi.FtdiDevice.PurgeBuffers | src/FtdiDevice.cpp:226-241 | RV_DEVICE_NOT_OPEN with no I/O when not open; otherwise one purge of the given buffer and libftdi's code |
| Ftdi.FtdiDevice.Reset | src/FtdiDevice.cpp:243-246 | 0 with no I/O without a context; otherwise one USB reset and libftdi's code |
| Ftdi.FtdiDevice.WriteData | src/FtdiDevice.cpp:217-224 | RV_DEVICE_NOT_OPEN with no I/O when not open; otherwise one write of exactly the given bytes and libftdi's count |
| Ftdi.FtdiDevice.ReadData | src/FtdiDevice.cpp:182-209 | not open: RV_DEVICE_NOT_OPEN, no I/O; no reads for a non-positive length; otherwise only reads, at most `length` bytes taken off the front of the queue into the front of the buffer in order with the rest untouched, the count or the failing read's code returned, a short count only once the deadline has passed, and all `length` bytes when they are waiting and reads are reliable |
| Ftdi.FtdiDevice.ReadLoop | src/FtdiDevice.cpp:193-208 | the loop never takes more than `length` bytes or more than were waiting, stores them in order from the start of the buffer, issues only reads, stops on a failing read, and stops short only after the deadline |
| Ftdi.FtdiDevice.ReadStep | src/FtdiDevice.cpp:197-205 | one read stores its chunk at offset `readTotal`, continuing the copied prefix of the queue, and the loop goes on exactly when the read did not fail and either delivered bytes or the deadline has not passed |
| Ftdi.StoreChunk | src/FtdiDevice.cpp:199-201 | the chunk lands at the offset and the rest of the buffer is untouched |
| DmxBase.DmxDevice.constructor | src/DmxDevice.cpp:16-18 | a new device has no session |
| DmxBase.DmxDevice.Open | src/DmxDevice.cpp:32-43 | an open device reports success with no I/O and keeps its session; otherwise a fresh session is opened, the result is the session's, and a success adds one more purge of both buffers |
| DmxBase.DmxDevice.Close | src/DmxDevice.cpp:51-56 | a device that is not open reports success with no I/O; otherwise the session's close and its result; afterwards the device is not open |
| DmxBase.DmxDevice.GetLastError | src/DmxDevice.cpp:79-80 | a message only while open with an error flagged, and then libftdi's error string |
| DmxBase.DmxDevice.GetUsbInformation | src/DmxDevice.cpp:89-90 | while open exactly the session's copy made at open, and nothing otherwise |
| DmxBase.DmxDevice.Reset | src/DmxDevice.cpp:95-96 | the session's reset |
| UsbProProtocol.RepliesShareRequestLabels | src/DmxUsbProDevice.h:81-96 | get-parameters and serial requests share their labels with their replies; output is label 6 and set-parameters label 4 |
| UsbProProtocol.ParamsReplyLayout | src/DmxUsbProDevice.h:57-64 | a reply head is read as firmware LSB, firmware MSB, break, MAB, refresh rate, and the record's five bytes are exactly the first five of the buffer |
| UsbProProtocol.Frame | src/DmxUsbProDevice.cpp:353-361 | a frame is five bytes longer than its payload |
| UsbProProtocol.ParseFrame | src/DmxUsbProDevice.cpp:296-337 | every fault is a negative code, and an accepted payload has exactly the expected length |
| UsbProProtocol.FrameRoundTrip | src/DmxUsbProDevice.cpp:296-337 | the frame sendUsbProPacket writes for a payload, whatever follows it on the line, is accepted with exactly that payload |
| UsbProProtocol.AcceptedIsFrame | src/DmxUsbProDevice.cpp:296-337 | conversely, a payload is accepted only from bytes that begin with that payload's frame |
| UsbProProtocol.ParseFrameAfterHeader | src/DmxUsbProDevice.cpp:315-337 | after an accepted header: a short body is a short read, a wrong end code is invalid with a purge, otherwise the first `length` body bytes are the payload |
| UsbProProtocol.ParseFrameOfPrefix | src/DmxUsbProDevice.cpp:296-313 | a prefix that holds the whole frame, or whose header is already rejected, is judged like the whole line |
| UsbProProtocol.LengthBytesUnique | src/DmxUsbProDevice.cpp:309 | only the frame's own length bytes declare a given length |
| UsbProProtocol.ParamsFromReply | src/DmxUsbProDevice.cpp:214-225 | the cached record has the firmware LSB as major version, 0 as minor version, and break, MAB and rate from reply bytes 2 to 4 |
| UsbProProtocol.FirmwareMsbIgnored | src/DmxUsbProDevice.cpp:220-221 | the firmware MSB of a reply has no effect on the cached record |
| UsbProProtocol.SetParamsPayload | src/DmxUsbProDevice.cpp:111-128 | the payload is five bytes longer than the user configuration and always fits in a frame |
| UsbProProtocol.SetParamsRoundTrip | src/DmxUsbProDevice.cpp:111-125 | the widget reads back exactly the accepted break units, MAB units, rate and user configuration; the size bytes declare its length |
| UsbProProtocol.BcdByte | src/DmxUsbProDevice.cpp:263-266 | one reply byte contributes at most 165 |
| UsbProProtocol.BcdValue | src/DmxUsbProDevice.cpp:263-266 | a decoded serial is at most 166,666,665 |
| UsbProProtocol.SerialFromReply | src/DmxUsbProDevice.cpp:259-269 | the cached serial is SN_NOT_PROGRAMMED exactly when the little-endian sum of the reply is, and otherwise a BCD value that therefore never equals the sentinel |
| UsbProProtocol.SentinelIsAllOnes | src/DmxUsbProDevice.cpp:260-261 | the sum is the sentinel exactly for a reply of four 0xFF bytes |
| UsbProProtocol.BcdPair | src/DmxUsbProDevice.cpp:263 | a two-digit number encoded low digit in the low nibble decodes to itself |
| UsbProProtocol.SerialRoundTrip | src/DmxUsbProDevice.cpp:259-269 | every eight-digit serial sent in BCD decodes to itself |
| UsbPro.DmxUsbProDevice.constructor | src/DmxUsbProDevice.cpp:47-49 | the three caches are absent and the device has no session |
| UsbPro.DmxUsbProDevice.SendUsbProPacket | src/DmxUsbProDevice.cpp:346-368 | not open or a payload over 600 bytes: the error code, nothing written; otherwise exactly the frame written once, and 0 for a complete write, the writer's error when negative, RV_PACKET_SHORT_WRITE otherwise |
| UsbPro.DmxUsbProDevice.ReceiveUsbProPacket | src/DmxUsbProDevice.cpp:284-338 | the guards with no I/O; otherwise the bytes taken off the line are a prefix of the line of at most `length + 5` bytes; a failing read passes its code on with `data` untouched; otherwise the result is the judgement of those bytes, the payload is copied into `data` only when accepted, and a rejected header or end code purges the receive buffer while a short read does not; with reliable reads and the frame waiting, the judgement is that of the line |
| UsbPro.DmxUsbProDevice.ReceiveHeader | src/DmxUsbProDevice.cpp:296-313 | reads four bytes; accepts exactly a header with the start code, label and length expected; otherwise returns the short-read, invalid or no-match code, purging on a rejected header |
| UsbPro.DmxUsbProDevice.ReceiveBody | src/DmxUsbProDevice.cpp:315-337 | reads `length + 1` bytes; a short body is a short read, a wrong end code purges and is invalid, otherwise the payload is copied into `data` and 0 returned |
| UsbPro.DmxUsbProDevice.PurgeReceiveBuffer | src/DmxUsbProDevice.cpp:301-304 | the purge of the receive buffer after the reads, emptying the queue when libftdi succeeds |
| UsbPro.DmxUsbProDevice.WriteDmx | src/DmxUsbProDevice.cpp:59-63 | the channel bytes go out as one SET_DMX_TX_MODE frame, with sendUsbProPacket's result |
| UsbPro.DmxUsbProDevice.SetWidgetParameters | src/DmxUsbProDevice.cpp:89-140 | refused with nothing written when not open, without parameters, or when the length, break units, MAB units or rate is out of range; otherwise exactly one set-parameters frame with the packed head and the user configuration, success exactly for a complete write, and only an existing parameter cache takes over the new timing and rate |
| UsbPro.DmxUsbProDevice.Exchange | src/DmxUsbProDevice.cpp:209-213 | the request frame is written first; an incomplete write fails with nothing more issued; success means a complete write followed only by reads, a reply frame at the front of the waiting bytes and the response, its payload in the buffer and the frame gone from the queue; a complete write, reliable reads and such a frame succeed |
| UsbPro.DmxUsbProDevice.FetchWidgetParameters | src/DmxUsbProDevice.cpp:184-242 | not open: false, no I/O; a cached record and no configuration asked: true, no I/O; otherwise an exchange requesting the length capped at 508, success exactly when it succeeds (so never after an incomplete write, which issues nothing more), and then the record decoded from the reply and, when a configuration was asked, the configuration cache replaced by the reply's remaining bytes; a failure leaves both caches |
| UsbPro.DmxUsbProDevice.FetchSerialNumber | src/DmxUsbProDevice.cpp:244-275 | not open: false, no I/O; a cached serial: true, no I/O; otherwise an exchange of the serial request, success exactly when it succeeds (never after an incomplete write, which issues nothing more), and then the serial decoded from the four reply bytes |
| UsbPro.DmxUsbProDevice.FetchExtendedInfo | src/DmxUsbProDevice.cpp:150-156 | the parameter fetch runs from the initial line and caches, then the serial fetch from where it left off whatever it gave, each with its full contract; the result is exactly the conjunction of the two, so a partial success keeps the cache that was filled |
| UsbPro.SerialFetchCompletes | src/DmxUsbProDevice.cpp:244-275 | a widget answering the serial request with a four-byte reply frame, on an open session with nothing stale waiting, a complete write and reliable reads: success, and the serial of that reply cached |
| UsbPro.ParamsFetchCompletes | src/DmxUsbProDevice.cpp:184-242 | a widget answering the parameter request with a reply frame of the head and the requested configuration, under the same conditions: success, and the record decoded from that reply cached |
| UsbPro.DmxUsbProDevice.GetType | src/DmxUsbProDevice.cpp:65-68 | the USB Pro kind |
| UsbPro.DmxUsbProDevice.GetWidgetParameters | src/DmxUsbProDevice.cpp:158-159 | the parameter cache, absent until a fetch filled it |
| UsbPro.DmxUsbProDevice.GetUserConfigurationData | src/DmxUsbProDevice.cpp:165-166 | the configuration cache, absent until a fetch with a configuration length filled it |
| UsbPro.DmxUsbProDevice.GetSerialNumber | src/DmxUsbProDevice.cpp:176-177 | the serial cache, absent until a fetch filled it |
| UsbPro.BuildFrame | src/DmxUsbProDevice.cpp:353-361 | the packet buffer holds exactly the frame of the label and payload |
| UsbPro.DecodeSerialNumber | src/DmxUsbProDevice.cpp:259-269 | the successive additions compute the serial of the reply |
| UsbPro.AcceptedReply | src/DmxUsbProDevice.cpp:212-213 | a non-negative receive result means the line carried a frame with that payload, only reads were issued and the frame is gone from the queue; an accepted judgement gives a non-negative result |
| Raw.StepsRunSnoc | src/DmxRawDevice.cpp:18-22 | a step appended to the chain runs exactly when all earlier steps succeeded, and the chain succeeds exactly when they and it do |
| Raw.StepsRunStopsAtFailure | src/DmxRawDevice.cpp:18-22 | the chain issues a prefix of the steps: all of them when all succeed, otherwise up to and including the first failure, every earlier step having succeeded |
| Raw.PurgeSuccessFailsConfiguration | src/DmxRawDevice.cpp:22-24 | a purge that libftdi reports as successful (0) fails the configuration, and the open ends with the close's purge and close |
| Raw.ConfiguredWhen | src/DmxRawDevice.cpp:18-22 | the configuration succeeds exactly when baud rate, line properties and flow control do not fail in libftdi and RTS and purge return non-zero |
| Raw.DmxRawDevice.constructor | src/DmxRawDevice.cpp:8-9 | a new raw device has no session |
| Raw.DmxRawDevice.Open | src/DmxRawDevice.cpp:12-28 | a failed base open issues no configuration and returns false; otherwise the base open's commands, the reset, the chain and, on a failed step, the close; the result is whether every step succeeded, and it matches whether the device is open |
| Raw.DmxRawDevice.Configure | src/DmxRawDevice.cpp:17-24 | the reset, the chain, and the close exactly when a step failed; open afterwards exactly when configured |
| Raw.DmxRawDevice.Chain | src/DmxRawDevice.cpp:17-22 | the reset followed by exactly the steps the short-circuit chain runs, and success exactly when all five succeed |
| Raw.DmxRawDevice.ConfigStep | src/DmxRawDevice.cpp:19-22 | a step issued only after all earlier ones succeeded extends the chain's state by one step |
| Raw.DmxRawDevice.IssueStep | src/DmxRawDevice.cpp:18-22 | each step goes through its setter: one command, and the setter's result |
| Raw.DmxRawDevice.WriteDmx | src/DmxRawDevice.cpp:30-36 | on an open device break on, break off and one write of the bytes, in that order, returning the writer's result |
| Raw.DmxRawDevice.GetType | src/DmxRawDevice.cpp:38-41 | the raw kind |
| GenericDmx.CreateDevice | src/ofxGenericDmx.cpp:14-22 | a new, unopened driver of exactly the requested type |
| GenericDmx.FirstQualifying | src/ofxGenericDmx.cpp:49-65 | the position found qualifies and no earlier one does; none found means no position qualifies |
| GenericDmx.FallbackSelectsFirst | src/ofxGenericDmx.cpp:49-65 | when any device will do, a non-empty list yields position 0 and an empty one nothing |
| GenericDmx.UsbProOnlySelectsFirstPro | src/ofxGenericDmx.cpp:49-58 | when only a USB Pro will do, some position is chosen exactly when the list holds a USB Pro, and it is the first; entries without descriptor strings are passed over |
| GenericDmx.UnfilteredTarget | src/ofxGenericDmx.cpp:68 | opening without filters at a list position binds to that entry |
| GenericDmx.OpenFirstDevice | src/ofxGenericDmx.cpp:28-118 | no qualifying entry (an empty list included): nothing, no I/O; a USB Pro entry: an open USB Pro driver after the base open's commands; another entry: the base open and the raw configuration, and a driver exactly when the configuration succeeded |
| GenericDmx.OpenDevice | src/ofxGenericDmx.cpp:68 | the driver's own open without filters at the index, with its result |

## Left out

- Example applications, drawing, key and mouse handling, and the channel-buffer API (`connect`, `setLevel`, `update`): only the drivers are modelled.
- libftdi itself, USB, the context allocation and the descriptor-string fetch are oracles of `Usb.Bus`. The message behind `getLastError` is the fixed `errorString`.
- A failing `ftdi_usb_find_all` yields an empty list in the driver. The model's enumeration result is simply `usb.devices`, which that case makes empty.
- `setBreak`, `setRts` and `setDtr` have no bodies in src/FtdiDevice.h. `setBreak` and `setRts` are modelled with the not-open guard of the other setters, returning libftdi's code unchanged; `setDtr` is not used by the drivers.
- Floating point: break and MAB times are widget units. The `lroundf(time / 10.67)` and `units * 10.67` conversions are not modelled.
- `usleep` between request and reply, `gettimeofday`, and the real deadline: the clock is `Usb.Bus.clock`, and each read's duration is an oracle. The device's response to a write is in the queue by the next read; a reply that arrives in pieces during the reads, or only after a purge, is not modelled.
- Memory management (`new`/`delete`, the static device list and `freeDeviceList`), the >256-byte warnings, and all console output and the `verbose` logging of `openFirstDevice`. So the `toUsbPro` cast, used only for logging, is left out too.
- The `std::vector` overload of `setWidgetParameters` (src/DmxUsbProDevice.cpp:77-81) is not modelled. It passes `&userConfigData[0]` of a vector pointer, which is the address of the vector object rather than its contents, and it dereferences its null default argument for the size.
- Ftdi.FtdiDevice.Open: the driver copies `*di.usbInfo` even when an unfiltered open selects a device whose strings could not be read (a null dereference). The model copies the absence instead.
- GenericDmx.OpenFirstDevice: requires a context to be allocatable, because the driver reads the size of the list without checking that `getDeviceList` returned one.
- Raw.DmxRawDevice.WriteDmx: requires a session, because the driver calls the session without checking for one. The same holds for the base forwarders `GetLastError`, `GetUsbInformation` and `Reset`.
- The devices share one `Usb.Bus`; nothing distinguishes which bridge a command reaches beyond the handle opened.
