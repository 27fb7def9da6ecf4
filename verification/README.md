# Zerowire, verified

Zerowire carries USB and HID traffic over one framed TCP stream. These modules model four of its cores in Dafny and
prove what the Rust and Kotlin code promises about them. `dafny verify dfyconfig.toml` checks everything.

1. **URBs.** `UrbCodec` is the 48-byte USB/IP header codec of both languages. `UrbPump` is the Rust pump against its
   fake device, `UsbIpHost` the Kotlin pump against a device that may answer anything, with its cancelled set
   (`CancelledSet`). `Refinement` says exactly when the first stands in for the second. `UrbDriver` runs the scripted
   driver, alone and in a closed loop with the pump; `Loopback` and `HostLoop` run it against the Kotlin pump.
2. **Framing.** `Streams`, `Envelope` and `HidFrame`: blocking reads in chunks of any size, the envelope in both
   languages, HID frames and the BindAck body nested in them.
3. **HID session.** `Session` is a machine of receiver and sender (Linux or Android) over two FIFO channels;
   `SessionLoops` ties the programs' own loops to it. `Reports` decodes boot reports into a log of input events,
   `SeqGap` is the sequence numbering and its gap detector. `Sessions.EndToEnd` joins the three.
4. **Small loops.** `HidDescriptor` (the classifier in both languages), `Hkdf`, `ServiceCounter`.

Code that changes state is a method or a class here, proved equal to a function of its input; the theorems are lemmas
about that function. Processes that run side by side are machines whose every schedule is covered.

## Reading the model

- Bytes and machine words are subset types of `int`; two's complement, truncation and wrap-around are written out.
  The `u32` statistics wrap, as in a release build; a debug build would panic instead. `bytes_returned` is a `nat`.
- The bytes a peer will send are a field of the stream; a read takes any positive number of them.
- The Kotlin pump reads raw headers and bodies from a stream whose envelopes are already removed. The code that
  removes them is not in the repository. `Refinement` feeds the pump the concatenated packets; in `HostLoop` a caller
  strips envelope and import_id as the pump's comment (UsbIpHost.kt:135-139) asks of it.
- A USB device is a function of the transfer's index, the URB and the request, fixed in advance but arbitrary, which
  moves at most the buffer it is given.
- The event log stands for the uinput file. The statics that remember the last report outlive a session within one
  process; `Reports.FRESH` is a new process. `Reports.FollowsThroughout` says from which other states the device
  still follows.
- A session is modelled from the dialled socket on. `up` and `down` keep every message written; what is beyond the read
  position is in flight. A write may fail only once the peer has closed. Its messages stand for their encodings, whose
  round trips are the business of `Envelope` and `HidFrame`.

Where code and comments disagree, the model follows the code:

- UsbIpHost.kt:80-81 says that the cancelled set is cleared as URBs complete. It is cleared only by a submit that
  reuses a cancelled number (`CancelledSets.OrderlyNeverCancels`).
- UsbIpHost.kt:41-46 speaks of a worker pool. Execution is serial.
- simulate_android_pump.rs:13-17 and docs/usbip-android-pump.md:69-70 call the wire format of the two pumps identical.
  The Kotlin pump leaves the direction and ep words zero, sizes control reads by transfer_buffer_length, and reports
  a stalled request as -ETIMEDOUT. `Refinement.FixtureRefinement` gives the exact condition up to the two words and
  `Refinement.FixtureIdentity` for the bytes; on the default script they always differ.
- HidEndpoint.kt:130-134 says that the classifier mirrors the Rust one. It compares whole data words where Rust
  compares low bytes (`HidDescriptors.LanguagesAgreeIff`, `HidDescriptors.WideDataDiffers`).
- urb_driver.rs:209 announces the matching RET_SUBMIT. Its sequence number is never compared with the
  request's (`UrbDriver.ReplyIdentityIgnored`).

## Model

| member | source | states |
|---|---|---|
| `Streams.ReadFully` | android-sender/app/src/main/kotlin/zero/builtby/zerowire/sender/UsbIpHost.kt:379-387 | However the stream is cut into chunks, the buffer is filled with exactly the next bytes, or the stream is reported as ended iff it holds fewer. |
| `Bytes.Signed` | desktop-linux/src/receiver.rs:368-370 | The number of the `i8` range that has the byte's bits. |
| `Bytes.BitsOfByte` | desktop-linux/src/receiver.rs:378-389 | The bits tested by `b & (1 << i)` are the binary digits of the byte. |
| `Envelopes.EncodeInto` | protocol/src/envelope.rs:87-99 | Appends exactly one frame and returns its length, or refuses with `TooLarge` and appends nothing; it refuses iff the payload is over 1 MiB. |
| `Envelopes.FrameExample` | protocol/src/envelope.rs:87-99 | One frame written out byte by byte. |
| `Envelopes.ParseVerdicts` | protocol/src/envelope.rs:112-133 | The verdict on every buffer: the first wrong field among magic, version, channel and length decides the error, and a good header waits for its payload. |
| `Envelopes.ParseFrame` | protocol/src/envelope.rs:112-133 | Parsing a frame with anything after it gives back the envelope and the frame's length. |
| `Envelopes.ParseCanonical` | protocol/src/envelope.rs:112-133 | Re-encoding a parsed envelope gives exactly the bytes consumed. |
| `Envelopes.ParseStable` | protocol/src/envelope.rs:112-133 | A success or an error on a buffer is unchanged by any bytes appended to it. |
| `Envelopes.ProperPrefixIncomplete` | protocol/src/envelope.rs:112-133 | Every proper prefix of a valid frame leaves the parser waiting for more. |
| `Envelopes.RecvIffParse` | desktop-linux/src/tls.rs:343-359 | The Rust and the Kotlin reader succeed on a stream iff `parse` does, with the same envelope and the same rest. |
| `Envelopes.RecvEnvelope` | desktop-linux/src/tls.rs:343-359 | On a stream read in arbitrary chunks, yields the envelope of the reader specification and leaves exactly its rest unread. |
| `Envelopes.ReadEnvelope` | android-sender/app/src/main/kotlin/zero/builtby/zerowire/sender/WireProtocol.kt:73-92 | The same for the Kotlin reader, which judges the header, and a negative or large signed length, before it reads the payload. |
| `Envelopes.SendEnvelope` | desktop-linux/src/tls.rs:361-372 | Writes one whole frame or, for an oversized payload, nothing. |
| `Envelopes.WriteEnvelope` | android-sender/app/src/main/kotlin/zero/builtby/zerowire/sender/WireProtocol.kt:52-67 | Writes one frame for every payload that a JVM array can hold, with no size limit of its own. |
| `Envelopes.CrossLanguage` | android-sender/app/src/main/kotlin/zero/builtby/zerowire/sender/WireProtocol.kt:52-92 | Up to 1 MiB each reader recovers what either writer sent; above, both readers reject and only the Rust writer refuses. |
| `Envelopes.DecodeFrames` | desktop-linux/src/tls.rs:343-359 | Reading repeatedly from the concatenation of any list of frames gives that list, then whatever follows. |
| `Envelopes.DecodedIsPrefix` | desktop-linux/src/tls.rs:343-359 | Whatever the bytes, the envelopes read from them re-encode to a prefix of them. |
| `Envelopes.FramesInjective` | protocol/src/envelope.rs:87-133 | Two lists of envelopes with the same bytes are the same list. |
| `HidFrames.EncodeHidFrame` | android-sender/app/src/main/kotlin/zero/builtby/zerowire/sender/WireProtocol.kt:95-104 | The array filled in place is the Rust encoding of the frame with the low bits of the two `Int` arguments. |
| `HidFrames.FrameRoundTrip` | protocol/src/hid.rs:137-169 | Frames round-trip, and a parsed frame re-encodes to the bytes it came from. |
| `HidFrames.FrameExamples` | protocol/src/hid.rs:62-83 | A report frame and a BindAck body byte by byte, and the errors on short input and unknown ops. |
| `HidFrames.BuildBindAckBody` | android-sender/app/src/main/kotlin/zero/builtby/zerowire/sender/WireProtocol.kt:126-147 | The Kotlin builder lays out what the Rust encoder does, for metadata of any length. |
| `HidFrames.BindAckBodyRoundTrip` | protocol/src/hid.rs:62-83 | The split recovers metadata and descriptor iff the metadata is shorter than 65536 bytes. |
| `HidFrames.BindAckNested` | protocol/src/hid.rs:62-83 | Envelope, HID frame and BindAck body decode back to the same metadata and descriptor iff the metadata is shorter than 65536 bytes. |
| `UrbCodec.CmdSubmitRoundTrip` | protocol/src/usbip.rs:282-329 | Every field of a CMD_SUBMIT is read back, body or not, and the other three parsers reject its bytes. |
| `UrbCodec.RetSubmitRoundTrip` | protocol/src/usbip.rs:350-386 | The same for RET_SUBMIT, with its signed status. |
| `UrbCodec.CmdUnlinkRoundTrip` | protocol/src/usbip.rs:399-428 | The same for CMD_UNLINK. |
| `UrbCodec.RetUnlinkRoundTrip` | protocol/src/usbip.rs:441-471 | The same for RET_UNLINK, with its signed status. |
| `UrbCodec.HeaderLayout` | protocol/src/usbip.rs:282-471 | Where each field of the four headers is, as in the kernel's USB/IP protocol document. |
| `UrbCodec.ReencodeClearsReserved` | protocol/src/usbip.rs:282-471 | Encoding after parsing changes nothing but the bytes that the kind does not use, which become zero. |
| `UrbCodec.EncodeCmdSubmitInPlace` | protocol/src/usbip.rs:307-324 | The 48-byte array written word by word is the specified header. |
| `UrbCodec.EncodeRetSubmitInPlace` | protocol/src/usbip.rs:372-386 | The same for RET_SUBMIT. |
| `UrbCodec.EncodeCmdUnlinkInPlace` | protocol/src/usbip.rs:417-427 | The same for CMD_UNLINK, whose unwritten bytes stay zero. |
| `UrbCodec.EncodeRetUnlinkInPlace` | protocol/src/usbip.rs:459-469 | The same for RET_UNLINK. |
| `UrbCodec.UsbipRoundTrip` | protocol/src/usbip.rs:113-139 | The import_id prefix round-trips in both directions. |
| `UrbCodec.ParseCmdSubmitKotlin` | android-sender/app/src/main/kotlin/zero/builtby/zerowire/sender/UsbIpFrame.kt:70-102 | Accepts exactly what the Rust parser accepts and reads the same bits, as signed integers. |
| `UrbCodec.ParseCmdUnlinkKotlin` | android-sender/app/src/main/kotlin/zero/builtby/zerowire/sender/UsbIpFrame.kt:104-130 | The same for CMD_UNLINK. |
| `UrbCodec.EncodeRetSubmitKotlin` | android-sender/app/src/main/kotlin/zero/builtby/zerowire/sender/UsbIpFrame.kt:132-158 | The Rust encoding of the header with devid 0 and every parameter as given or defaulted, followed by the data. |
| `UrbCodec.EncodeRetUnlinkKotlin` | android-sender/app/src/main/kotlin/zero/builtby/zerowire/sender/UsbIpFrame.kt:160-177 | The Rust encoding with every parameter as given or defaulted. |
| `UrbCodec.WrapImport` | android-sender/app/src/main/kotlin/zero/builtby/zerowire/sender/UsbIpFrame.kt:184-192 | The Rust encoding of the import_id prefix and the packet. |
| `UrbCodec.UnwrapImport` | android-sender/app/src/main/kotlin/zero/builtby/zerowire/sender/UsbIpFrame.kt:195-202 | Accepts what the Rust parser accepts, with the same split and the same bits. |
| `UrbPump.CommandRoundTrip` | desktop-linux/src/urb_pump.rs:170-190 | The pump reads back every well-formed command from its packet, whatever bytes trail it. |
| `UrbPump.ReadCommandExact` | desktop-linux/src/urb_pump.rs:170-215 | Which packets are accepted as commands and what they say, read word by word at fixed offsets. |
| `UrbPump.FindEndpoint` | desktop-linux/src/urb_pump.rs:97-99 | The first endpoint with the address, or none when none has it. |
| `UrbPump.SetupFields` | desktop-linux/src/urb_pump.rs:246-256 | Direction, GET_DESCRIPTOR, descriptor type and wLength are read off a setup packet as they were put in, for every request (section 9.3 of USB 2.0). |
| `UrbPump.ExecuteBulkInPlace` | desktop-linux/src/urb_pump.rs:303-324 | The filled buffer is the deterministic payload; OUT transfers are acknowledged with the length received. |
| `UrbPump.HandleUrbPacket` | desktop-linux/src/urb_pump.rs:163-217 | Writes exactly one framed reply and updates the statistics, or bails with nothing written; it bails iff the packet is not an accepted command. |
| `UrbPump.Pump` | desktop-linux/src/urb_pump.rs:128-159 | The loop over any input stream writes the frames of the specified replies and returns the specified statistics or failure. |
| `UrbPump.RunServesPackets` | desktop-linux/src/urb_pump.rs:128-159 | A run serves exactly the USB/IP packets of its input, in order, up to the first one it does not accept; it fails iff there is such a one. |
| `UrbPump.OneReplyPerCommand` | desktop-linux/src/urb_pump.rs:128-217 | Whatever bytes come in, what goes out decodes to one envelope per served packet, in order, echoing import_id, seqnum, direction and ep; all of them when the run finishes. |
| `UrbPump.StatsConserved` | desktop-linux/src/urb_pump.rs:177-209 | When totals fit 32 bits: successes, -ENODEV and -EOPNOTSUPP replies add up to the submits, unlinks are counted, and each byte counter is the sum of the actual_length of the successful replies with its direction and kind of endpoint. |
| `UrbPump.ReplyMeaning` | desktop-linux/src/urb_pump.rs:219-324 | Status, length and data of the reply to every submit, from the endpoint table and the bytes of the setup packet: a descriptor is cut to s[6] + 0x100 * s[7], bulk IN bytes count up from the seqnum, an OUT reports all the bytes it came with. |
| `UrbPump.ReplyBodyShape` | desktop-linux/src/urb_pump.rs:219-349 | An IN reply carries exactly actual_length bytes within the buffer and any other reply none, iff the command is not a GET_DESCRIPTOR that yields bytes for an OUT header or more bytes than the header's buffer. |
| `UrbPump.ReplyBodyShapeAgreeing` | desktop-linux/src/urb_pump.rs:219-349 | The shape holds for every URB whose header agrees with bmRequestType and whose wLength is within the buffer. |
| `UsbIpHosts.UsbIpHost.HandleSubmit` | android-sender/app/src/main/kotlin/zero/builtby/zerowire/sender/UsbIpHost.kt:195-247 | Against a device that may answer anything: one reply as specified goes out and the cancelled set and the count of transfers end as specified, or nothing is written. |
| `UsbIpHosts.UsbIpHost.HandleUnlink` | android-sender/app/src/main/kotlin/zero/builtby/zerowire/sender/UsbIpHost.kt:325-335 | Records the target and acknowledges with status 0. |
| `UsbIpHosts.UsbIpHost.WriteFrame` | android-sender/app/src/main/kotlin/zero/builtby/zerowire/sender/UsbIpHost.kt:353-358 | Prefix, then envelope: one frame of the Rust packet format. |
| `UsbIpHosts.UsbIpHost.Turn` | android-sender/app/src/main/kotlin/zero/builtby/zerowire/sender/UsbIpHost.kt:164-179 | One turn consumes input and writes the next reply of the specified run, or ends where it ends. |
| `UsbIpHosts.UsbIpHost.PumpUrbs` | android-sender/app/src/main/kotlin/zero/builtby/zerowire/sender/UsbIpHost.kt:161-191 | A run that nobody stops writes all the specified replies; one stopped at any moment has written a prefix of them. |
| `UsbIpHosts.ReadCommandExact` | android-sender/app/src/main/kotlin/zero/builtby/zerowire/sender/UsbIpHost.kt:164-208 | What the next command on a stream is, word by word, and how much of the stream it takes. |
| `UsbIpHosts.RequestReachesDevice` | android-sender/app/src/main/kotlin/zero/builtby/zerowire/sender/UsbIpHost.kt:254-269 | The device is asked for exactly the request type, request, value and index that were put into the setup packet, for every one of them, with a buffer of the announced size. |
| `UsbIpHosts.CrashExact` | android-sender/app/src/main/kotlin/zero/builtby/zerowire/sender/UsbIpHost.kt:264-303 | A submit ends the pump with an unchecked exception iff it reaches the device with an IN buffer of negative size or its reply would not fit an array. |
| `UsbIpHosts.ReplyMeaning` | android-sender/app/src/main/kotlin/zero/builtby/zerowire/sender/UsbIpHost.kt:195-351 | On any device, a reply echoes the seqnum and leaves direction and ep zero; its status says exactly whether the URB was cancelled, had no or no usable endpoint, failed or succeeded; on success it carries the bytes moved, for IN only. |
| `UsbIpHosts.WireIsFrames` | android-sender/app/src/main/kotlin/zero/builtby/zerowire/sender/UsbIpHost.kt:353-358 | Replies that fit envelopes go out as the frames the Rust side reads. |
| `UsbIpHosts.RunIsRunCommands` | android-sender/app/src/main/kotlin/zero/builtby/zerowire/sender/UsbIpHost.kt:161-179 | The pump on a byte stream is the pump on the commands the stream holds. |
| `UsbIpHosts.OneReplyPerCommand` | android-sender/app/src/main/kotlin/zero/builtby/zerowire/sender/UsbIpHost.kt:161-358 | On any device and any input, the replies answer the commands in order, echoing seqnum, all of them unless the pump crashes; while they fit envelopes, what goes out decodes to one envelope each, echoing import_id. |
| `UsbIpHosts.WireInjective` | android-sender/app/src/main/kotlin/zero/builtby/zerowire/sender/UsbIpHost.kt:353-358 | The bytes on the wire determine the replies, also beyond the envelope limit. |
| `CancelledSets.CancelledExact` | android-sender/app/src/main/kotlin/zero/builtby/zerowire/sender/UsbIpHost.kt:195-214 | Over whole runs on any device, a reply is -ECONNRESET iff its command is a submit that an earlier unlink named with no submit of that number in between; the final set holds exactly the numbers still pending. |
| `CancelledSets.OrderlyNeverCancels` | android-sender/app/src/main/kotlin/zero/builtby/zerowire/sender/UsbIpHost.kt:80-81 | With fresh seqnums and unlinks that name earlier submits, nothing is ever cancelled and the set ends as all the unlink targets, although those URBs have completed. |
| `CancelledSets.OrderlyOnlyGrows` | android-sender/app/src/main/kotlin/zero/builtby/zerowire/sender/UsbIpHost.kt:80-81 | After every prefix of such a run the set is the unlink targets of that prefix, so it only grows. |
| `Refinement.CommandAgreement` | desktop-linux/src/bin/simulate_android_pump.rs:13-17 | Both pumps give the same reply to a command, up to the direction and ep words, iff the condition `Agrees` on header, setup packet and endpoint table holds and no unlink is pending for it. An address may be listed twice: Rust takes the first entry, Kotlin the last. |
| `Refinement.ReadsAgree` | android-sender/app/src/main/kotlin/zero/builtby/zerowire/sender/UsbIpHost.kt:165-208 | From an exactly sized packet both pumps read the same command; the Kotlin pump takes whatever follows as the next header. |
| `Refinement.RunsAgreement` | desktop-linux/src/bin/simulate_android_pump.rs:13-17 | The same for whole runs from any state of both pumps. |
| `Refinement.FixtureRefinement` | desktop-linux/src/urb_pump.rs:128-367 | From the start, on the same exactly sized packets over the same device, the Rust pump in envelopes and the Kotlin pump on the raw stream give the same replies up to direction and ep iff every packet meets `Agrees` and no submit meets a pending unlink. |
| `Refinement.CommandIdentity` | desktop-linux/src/bin/simulate_android_pump.rs:13-17 | The two replies to a command are the same bytes iff they agree up to direction and ep and the command carries zeros in both. |
| `Refinement.DataRepliesDiffer` | android-sender/app/src/main/kotlin/zero/builtby/zerowire/sender/UsbIpHost.kt:344-349 | So the reply to an IN, or to any data endpoint, never is. |
| `Refinement.FixtureIdentity` | desktop-linux/src/bin/simulate_android_pump.rs:13-17 | On the packets of `FixtureRefinement`, both pumps finish and write the same bytes to the wire iff the condition there holds and every command carries zeros in its direction and ep words. |
| `Loopback.DefaultScriptIsFaithful` | desktop-linux/src/bin/simulate_android_pump.rs:13-17 | The default driver script stays inside that condition for every number of extra URBs. |
| `Loopback.DefaultScriptNotIdentical` | desktop-linux/src/bin/simulate_android_pump.rs:13-17 | On the default script both pumps finish and the bytes they write always differ. |
| `Loopback.DriverPassesKotlin` | desktop-linux/src/urb_driver.rs:172-308 | The driver, reading the bytes the Kotlin pump writes in answer to the script, sends exactly the packets answered and succeeds with the same statistics as against the Rust pump. |
| `Loopback.StringDescriptorDiffers` | desktop-linux/src/urb_pump.rs:256-268 | A concrete packet outside it: a string GET_DESCRIPTOR, answered differently by the two pumps on every device. |
| `UrbDriver.ScriptDefault` | desktop-linux/src/urb_driver.rs:63-159 | The loop builds the seven fixed URBs and the extra ones, with seqnums that wrap at 32 bits. |
| `UrbDriver.ScriptRequests` | desktop-linux/src/urb_driver.rs:65-157 | What each URB asks for: the setup packets by their fields, endpoint, direction, length and body. |
| `UrbDriver.ScriptSeqnumsDistinct` | desktop-linux/src/urb_driver.rs:144-145 | The script's seqnums are distinct iff it has at most 2^32 - 99 extra URBs. |
| `UrbDriver.RequestFields` | desktop-linux/src/urb_driver.rs:188-206 | What goes out for each URB, and for the final unlink of URB 5, word by word. |
| `UrbDriver.MassStorageDescriptors` | desktop-linux/src/urb_pump.rs:75-95 | The fixture's descriptors are well-formed and name its IDs and endpoints. |
| `UrbDriver.ScriptExpected` | desktop-linux/src/urb_driver.rs:63-159 | The fixture device answers every URB of the script with the status, length and body size it expects. |
| `UrbDriver.RunScript` | desktop-linux/src/urb_driver.rs:172-308 | Against any peer, sends the specified requests up to the first failure and returns the specified statistics or failure. |
| `UrbDriver.DriveSucceedsIff` | desktop-linux/src/urb_driver.rs:206-308 | Against any peer, a script succeeds iff the bytes received begin with one acceptable reply to each request, in order: channel, import_id, kind, status, length, and body size for an IN. |
| `UrbDriver.SuccessTotals` | desktop-linux/src/urb_driver.rs:186-307 | Success reports urbs_ok = urbs_issued = the length of the script, one unlink, and the bytes its INs announce. |
| `UrbDriver.ReplyIdentityIgnored` | desktop-linux/src/urb_driver.rs:227-247 | The verdict does not depend on seqnum, devid, direction or ep of the reply. |
| `UrbDriver.StepKeepsInv` | desktop-linux/src/urb_driver.rs:172-308 | Driver and pump coupled by two byte channels: in every state but the final one exactly one of them can move, and its step keeps the invariant. |
| `UrbDriver.ClosedLoop` | desktop-linux/src/urb_driver.rs:172-308 | For up to 67,108,862 extra URBs and every schedule: nobody fails or bails, nothing deadlocks, the loop ends after exactly three steps an exchange and one more, with urbs_ok = urbs_issued = 7+n, unlinks_ok = 1, bytes_returned = 155+64n = control_in + bulk_in. |
| `UrbDriver.StreamsFitTogether` | desktop-linux/src/urb_driver.rs:172-308 | The two stream programs fit: each, reading exactly what the other writes, writes exactly what the other reads. |
| `HostLoops.StepKeepsInv` | android-sender/app/src/main/kotlin/zero/builtby/zerowire/sender/UsbIpHost.kt:131-187 | Driver, envelope-stripping caller and Kotlin pump on three byte channels: in every state but the final one exactly one can move, and its step keeps the invariant. |
| `HostLoops.ClosedHostLoop` | desktop-linux/src/urb_driver.rs:172-308 | For up to 67,108,862 extra URBs and every schedule: nobody fails or crashes, nothing deadlocks, the loop ends after exactly four steps an exchange and two more, with the totals of the Rust loop; URB 5 is left in the cancelled set. |
| `Reports.KeyCodeInjective` | desktop-linux/src/receiver.rs:465-528 | No two usages share a key code. |
| `Reports.KeyCodeDisjoint` | desktop-linux/src/receiver.rs:405-413 | No usage maps to a modifier or a mouse button. |
| `Reports.LettersFollowRows` | desktop-linux/src/receiver.rs:513-528 | The letters map to three ascending runs of codes, in the order of the QWERTY rows. |
| `Reports.OtherKeysFollowRows` | desktop-linux/src/receiver.rs:478-511 | The other keys by their places, and the usages that have no key. |
| `Reports.UinputDevice.MouseMove` | desktop-linux/src/uinput.rs:226-234 | Appends the nonzero axes and one sync to the event log. |
| `Reports.UinputDevice.MouseWheel` | desktop-linux/src/uinput.rs:237-245 | The same for the two wheels. |
| `Reports.UinputDevice.PressOrRelease` | desktop-linux/src/uinput.rs:248-258 | Appends one key event and one sync. |
| `Reports.ReportDecoder.ApplyReport` | desktop-linux/src/receiver.rs:349-364 | Appends the specified events to the device log and moves the remembered state as specified; an empty report does nothing. |
| `Reports.ReportDecoder.ApplyMouseReport` | desktop-linux/src/receiver.rs:366-401 | Button edges, then motion, then wheel; remembers the bitmap. |
| `Reports.ReportDecoder.ApplyKeyboardReport` | desktop-linux/src/receiver.rs:403-459 | Modifier edges, releases, presses; remembers modifiers and slots. |
| `Reports.BitEdgesApplied` | desktop-linux/src/receiver.rs:378-389 | Bit edges carry the held keys from one bitmap to the next, touch no other key and never repeat a state. |
| `Reports.KeyEdgesApplied` | desktop-linux/src/receiver.rs:440-455 | The edges of one pass set exactly the moving usages' keys and no other. |
| `Reports.ReportFollows` | desktop-linux/src/receiver.rs:349-459 | One report, when the held keys are those of the remembered reports: they are again afterwards; every key event is a change iff no moving slot value repeats; motion and grouping as below. |
| `Reports.ApplyReports` | desktop-linux/src/receiver.rs:173-284 | The loop over a binding's reports produces the specified log and state. |
| `Reports.KeyboardAgreement` | desktop-linux/src/receiver.rs:403-459 | After any run, down are exactly the modifiers and mapped usages of the last 8-byte report and the buttons of the last mouse-shaped one. |
| `Reports.ModifiersAgree` | desktop-linux/src/receiver.rs:405-438 | In the codes of the input layer: each of the eight modifier keys is down iff its binary digit is set in the last keyboard report. |
| `Reports.ButtonsAgree` | desktop-linux/src/receiver.rs:384-389 | Each of the five buttons is down iff its binary digit is set in the last mouse-shaped report. |
| `Reports.KeysAgree` | desktop-linux/src/receiver.rs:440-455 | Each mapped key is down iff its usage is in a slot of the last keyboard report. |
| `Reports.FollowsThroughout` | desktop-linux/src/receiver.rs:376-394 | Held keys follow the remembered reports after every run iff they do at its start. |
| `Reports.StaleMemory` | desktop-linux/src/receiver.rs:414-417 | A new device under the memory of an old one: a modifier down in both reports is never pressed. |
| `Reports.KeyEventsChangeState` | desktop-linux/src/receiver.rs:440-455 | Every key event of a run changes a state iff no keyboard report repeats a usage it presses or the next one releases. |
| `Reports.DistinctSlotsSuffice` | desktop-linux/src/receiver.rs:440-455 | It does when the nonzero slots of each report are distinct. |
| `Reports.MouseConservation` | desktop-linux/src/receiver.rs:366-401 | After any mixed run: held buttons are the low five bits of the last mouse-shaped report, each axis has moved by the sum of the signed bytes, every sync closes a group that is not empty. |
| `SeqGaps.NumberReports` | desktop-linux/src/bin/linux_sender.rs:252-261 | The i-th report carries i modulo 65536. |
| `SeqGaps.DetectJumps` | desktop-linux/src/receiver.rs:217-229 | The detector's loop flags what its specification flags. |
| `SeqGaps.DetectorExact` | desktop-linux/src/receiver.rs:217-229 | When any subsequence of the reports is delivered, a jump is flagged iff the index gap is not 1 modulo 65536 and the previous number is not 0. |
| `SeqGaps.LosslessNeverFlags` | desktop-linux/src/receiver.rs:217-229 | A lossless stretch of any length never flags, also across the wrap-around. |
| `SeqGaps.ShortLossNoticed` | desktop-linux/src/receiver.rs:217-229 | Up to 65535 lost reports in a row are noticed iff the number before them is not 0. |
| `Sessions.Pick` | desktop-linux/src/receiver.rs:288-300 | The first device with the wanted busid, or the first HID device without one; none iff there is none. |
| `Sessions.StepInv` | desktop-linux/src/bin/linux_sender.rs:118-276 | Every step of either program, every failure, stop and end of input keeps the session invariant. |
| `Sessions.NothingUnexpected` | android-sender/app/src/main/kotlin/zero/builtby/zerowire/sender/ReceiverSession.kt:42-90 | In every reachable state, for the Linux and the Android sender: nobody has met an unexpected message, a denial, or a busid refusal. |
| `Sessions.SentIsRead` | desktop-linux/src/bin/linux_sender.rs:252-266 | Over every run, the channel carries exactly the reports read from the device, in order, with their bytes. |
| `Sessions.ReportsInOrder` | desktop-linux/src/receiver.rs:173-284 | In every run, applied reports followed by those in flight are the reports read from the device; no jump was flagged and none was ignored. |
| `Sessions.BindAckFirst` | desktop-linux/src/bin/linux_sender.rs:192-220 | Every report sent follows the BindAck; the i-th is the i-th read and carries i modulo 65536. |
| `Sessions.NothingLostAtTheEnd` | desktop-linux/src/receiver.rs:173-272 | When the receiver leaves on Unbind or end of stream, every report read from the device was applied and the sender is done. |
| `Sessions.EndToEnd` | desktop-linux/src/receiver.rs:173-284 | Then the virtual device holds exactly the keys and buttons of the last reports read from the real one. |
| `Sessions.EndToEndMotion` | desktop-linux/src/receiver.rs:173-284 | And it has moved by the sum of all of them. |
| `Sessions.EndsHaveCauses` | desktop-linux/src/bin/linux_sender.rs:219-226 | Each end has its cause among the actions of the run: failure, stop flag, end of input or failed write; a polite end has sent its Unbind, unless the receiver was gone. |
| `Sessions.FlavourPhases` | android-sender/app/src/main/kotlin/zero/builtby/zerowire/sender/ReceiverSession.kt:98-112 | Only the Linux sender can fail to enumerate, and only the Android sender to claim. |
| `Sessions.ForeignClient` | android-sender/app/src/main/kotlin/zero/builtby/zerowire/sender/ReceiverSession.kt:62-76 | Any client: an Attach gets the first device with its busid, and the mode must be hid for Android; otherwise Linux closes and Android denies. A Bind must name that busid for Linux. |
| `Sessions.NoDeadlock` | desktop-linux/src/bin/linux_sender.rs:118-276 | In every reachable state some program can move, unless both are closed or only the input device is awaited. |
| `Sessions.RunBound` | desktop-linux/src/bin/linux_sender.rs:118-276 | A run that has read n reports has at most 23 + 2n steps, under every schedule. |
| `Sessions.BoundIsChosen` | desktop-linux/src/bin/linux_sender.rs:160-174 | The sender binds the very device the receiver chose iff no earlier one has the same busid. |
| `Sessions.BoundIsChosenWhen` | desktop-linux/src/receiver.rs:288-300 | It does for an explicit busid, for distinct busids, and when only HID devices are listed. |
| `Sessions.HandshakeCompletes` | android-sender/app/src/main/kotlin/zero/builtby/zerowire/sender/ReceiverSession.kt:42-126 | Whenever there is a device to choose, some run completes the handshake; the receiver then streams iff the kind of the bound device is Mouse or Keyboard. |
| `Sessions.StreamsIffSupported` | desktop-linux/src/receiver.rs:316-336 | In every reachable state: a streaming receiver is bound to a Mouse or Keyboard, and one that gave up on the kind was offered a Gamepad or Other. |
| `Sessions.WrongDeviceBound` | desktop-linux/src/bin/linux_sender.rs:164-174 | A concrete list with a repeated busid, first on an interface that is not of HID class or whose class could not be read, on which the sender binds another device than the one chosen, and the receiver gives up. |
| `SessionLoops.StreamLoop` | desktop-linux/src/receiver.rs:173-284 | The receiver's loop, with its local variables, virtual device and stop flag, computes the machine's handling of what it reads; when stopped, of the messages read by then. |
| `SessionLoops.PumpReports` | desktop-linux/src/bin/linux_sender.rs:245-276 | Writes the report bodies it read, numbered from 1, as far as the socket takes them, and ends for the first reason there is. |
| `SessionLoops.PumpIsMachine` | desktop-linux/src/bin/linux_sender.rs:252-261 | The same reports, read one after the other by the session machine, go out as the same messages. |
| `SessionLoops.PumpedReportsApply` | desktop-linux/src/receiver.rs:217-263 | Fed with what the pump writes, the receiver's loop applies every report, without a jump, and leaves on Unbind. |
| `HidDescriptors.ItemsRoundTrip` | desktop-linux/src/hid_descriptor.rs:36-61 | Every list of well-formed short items is recovered from its encoding (section 6.2.2.2 of HID 1.11). |
| `HidDescriptors.ItemsCanonical` | desktop-linux/src/hid_descriptor.rs:36-61 | The items found in any bytes are well-formed and encode to a prefix of them, after which an item is cut off. |
| `HidDescriptors.ClassifyRust` | desktop-linux/src/hid_descriptor.rs:33-80 | The loop finds the first Usage on the Generic Desktop page among the items, by low bytes. |
| `HidDescriptors.ClassifyKotlin` | android-sender/app/src/main/kotlin/zero/builtby/zerowire/sender/HidEndpoint.kt:135-172 | The same with whole data words read as signed integers. |
| `HidDescriptors.EarlyDecisionSurvives` | desktop-linux/src/hid_descriptor.rs:33-80 | A decision already made is unchanged by any appended bytes, in both languages. |
| `HidDescriptors.RustDecidesFirst` | android-sender/app/src/main/kotlin/zero/builtby/zerowire/sender/HidEndpoint.kt:130-172 | Rust decides whenever Kotlin does, and at the same item or an earlier one; at the same one if Kotlin sees the page there. |
| `HidDescriptors.LanguagesAgreeIff` | android-sender/app/src/main/kotlin/zero/builtby/zerowire/sender/HidEndpoint.kt:130-172 | For every descriptor: the two agree iff, at the item that decides for Rust, Kotlin sees the same page and the Usage is below 256 or its low byte names nothing; or Kotlin sees another page and, going on, ends with the kind the low byte names. |
| `HidDescriptors.AgreeOnNarrowPages` | android-sender/app/src/main/kotlin/zero/builtby/zerowire/sender/HidEndpoint.kt:130-172 | With Usage Page data below 256 they agree iff the deciding Usage is below 256 or its low byte names no known usage. |
| `HidDescriptors.LanguagesAgree` | android-sender/app/src/main/kotlin/zero/builtby/zerowire/sender/HidEndpoint.kt:130-172 | They agree whenever Usage Page and Usage data are below 256. |
| `HidDescriptors.WideDataDiffers` | android-sender/app/src/main/kotlin/zero/builtby/zerowire/sender/HidEndpoint.kt:150-162 | Two descriptors with two-byte data on which they differ. |
| `HidDescriptors.BootDescriptors` | desktop-linux/src/hid_descriptor.rs:83-123 | Everything that starts like the mouse or the keyboard descriptor is classified so, in both languages. |
| `Hkdf.HkdfExpand` | android-sender/app/src/main/kotlin/zero/builtby/zerowire/sender/Psk.kt:45-65 | For every length up to 255*32 the array holds that many bytes of T(1) || T(2) || ... of section 2.3 of RFC 5869; it fails iff the length is larger or negative. |
| `Hkdf.DeriveWithInfo` | android-sender/app/src/main/kotlin/zero/builtby/zerowire/sender/Psk.kt:33-43 | Derivation expands the MAC of the pairing code under the salt. |
| `Hkdf.ExpandAt` | android-sender/app/src/main/kotlin/zero/builtby/zerowire/sender/Psk.kt:45-65 | Byte k of the output is byte k mod 32 of T(k / 32 + 1), and the counter octet has not wrapped. |
| `Hkdf.ShorterIsPrefix` | android-sender/app/src/main/kotlin/zero/builtby/zerowire/sender/Psk.kt:45-65 | A shorter request is a prefix of every longer one. |
| `Hkdf.OneBlockSecret` | android-sender/app/src/main/kotlin/zero/builtby/zerowire/sender/Psk.kt:27-36 | A 32-byte secret is one MAC of the info and the octet 1. |
| `ServiceCounter.ServiceState.DecSessions` | android-sender/app/src/main/kotlin/zero/builtby/zerowire/sender/SenderService.kt:216-217 | Decrements, but not below zero. |
| `ServiceCounter.SenderService.CountSession` | android-sender/app/src/main/kotlin/zero/builtby/zerowire/sender/SenderService.kt:141-141 | The Count step of the machine on counter, list and threads. |
| `ServiceCounter.SenderService.AddSession` | android-sender/app/src/main/kotlin/zero/builtby/zerowire/sender/SenderService.kt:149-150 | The Add step. |
| `ServiceCounter.SenderService.RemoveSession` | android-sender/app/src/main/kotlin/zero/builtby/zerowire/sender/SenderService.kt:154-154 | The Remove step. |
| `ServiceCounter.SenderService.DiscountSession` | android-sender/app/src/main/kotlin/zero/builtby/zerowire/sender/SenderService.kt:155-155 | The Discount step. |
| `ServiceCounter.SenderService.StopSessions` | android-sender/app/src/main/kotlin/zero/builtby/zerowire/sender/SenderService.kt:77-77 | The StopAll step: whoever is listed at this moment. |
| `ServiceCounter.SenderService.ClearSessions` | android-sender/app/src/main/kotlin/zero/builtby/zerowire/sender/SenderService.kt:78-78 | The ClearList step. |
| `ServiceCounter.SenderService.ResetState` | android-sender/app/src/main/kotlin/zero/builtby/zerowire/sender/SenderService.kt:79-79 | The Reset step. |
| `ServiceCounter.StoppedExact` | android-sender/app/src/main/kotlin/zero/builtby/zerowire/sender/SenderService.kt:70-80 | Over whole runs, told by the steps alone: a session is listed iff it was added and neither removed nor cleared away since; a destroy has stopped it iff it was listed at that moment. |
| `ServiceCounter.EscapesDestroy` | android-sender/app/src/main/kotlin/zero/builtby/zerowire/sender/SenderService.kt:70-80 | A concrete run in which a connection accepted just before a destroy runs on, neither stopped nor listed nor counted. |
| `ServiceCounter.StepInv` | android-sender/app/src/main/kotlin/zero/builtby/zerowire/sender/SenderService.kt:129-160 | Every step of the accept loop, a session thread or destroy keeps the counter within the live sessions and the list within the running ones. |
| `ServiceCounter.NeverOvercounts` | android-sender/app/src/main/kotlin/zero/builtby/zerowire/sender/SenderService.kt:208-221 | So in every run; and once all sessions have ended the counter reads 0, whatever resets came in between. |
| `ServiceCounter.ExactIffQuietResets` | android-sender/app/src/main/kotlin/zero/builtby/zerowire/sender/SenderService.kt:70-80 | The counter is exact throughout a run iff every reset finds no session live. |
| `ServiceCounter.ListIsRunning` | android-sender/app/src/main/kotlin/zero/builtby/zerowire/sender/SenderService.kt:145-155 | Without a destroy, a session stays on the list from its adding to its removal, the same steps that start and end its thread. |
| `ServiceCounter.ResetUndercounts` | android-sender/app/src/main/kotlin/zero/builtby/zerowire/sender/SenderService.kt:70-80 | A concrete run in which a destroy leaves a later session running but uncounted. |

## Left out

- TLS, certificates, pairing material other than HKDF, mDNS discovery, sockets, command lines, diagnostics, transcripts.
- vhci attach, uinput creation and its ioctls, hidraw and sysfs enumeration: the kernel's side. A list of devices and
  a log of events stand for them; enumeration, claiming and reading may fail, uinput writes do not.
- JSON: control messages are a datatype, and BindAck metadata is an opaque byte string.
- Timeouts: a read waits until the peer writes or closes. Keepalives are never sent in the modelled session.
- A reset connection that discards bytes in flight: a channel delivers what was written before it was closed.
- HID control messages and envelopes on other channels while a device is bound, beyond being ignored.
- The USB/IP attach handshake that precedes the pump, and the TLS copies of the session loop.
- Failed writes of the pumps and the driver to their stream, and running out of memory.
- desktop-linux/src/wire.rs repeats the framing of tls.rs.
- HMAC-SHA256 itself: any function with 32-byte results takes its place.
- The Android user interface, notifications, permissions, and the fields of the service snapshot other than sessions.
- Key codes as Linux header constants: the F-key range is linear in the code, which runs into other keys after F10.
- UsbIpHosts.UsbIpHost.PumpUrbs: releasing the claimed interfaces at the end has no effect in the model.
- Reports.KeyboardAgreement: starts from a new process, as the remembered report is not reset between bindings
  (`Reports.StaleMemory`).
- UrbPump.StatsConserved: assumes totals below 2^32, beyond which the counters wrap.
