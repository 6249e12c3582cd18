# One-KVM in Dafny

This project models the parts of One-KVM whose correctness depends on whole histories: protocols that survive
crashes and interleavings, allocators with rollback, streaming decoders, and input state that must end clean. Each
module models one component and proves what it promises, for every input, every run or every reachable state.

| module | component |
|---|---|
| `Bridge` | the OTG network bridge transaction and its recovery journal, as a state machine with crashes |
| `RecoveryControl` | the lock-free generation counter of audio recovery, alone |
| `AudioRecovery` | recovery, monitor and user tasks over the shared streamer slot, interleaved step by step |
| `AudioOperations` | what operations, monitors and recoveries of `AudioRecovery` have done when they end |
| `MsdController` | the virtual-media slot allocator over an unreliable gadget |
| `LunConfig` | writing one LUN through configfs, with unbinding and rebinding of the UDC |
| `PcmConverter` | the capture resampler |
| `Ch9329` | packet building, frame extraction and the serial exchange |
| `Descriptor` | applying and reading the CH9329's USB descriptor against a chip that stores what it is sent |
| `Sse` | the server-sent-event decoder |
| `Sanitize` | redaction of provider error texts |
| `Keyboard` | the six-slot boot keyboard report |
| `ComputerUse` | cancellable execution of input actions |
| `FailureLimiter` | the sliding-window limiter of two-factor attempts |
| `Common` | options, bytes and two facts about sequences |

Protocols are total step functions over explicit states; a run is an arbitrary sequence of events, and an event
that does not apply changes nothing, so a statement about all event sequences covers every interleaving, failure
and crash. Objects that the source updates in place are classes whose methods are proved against functions on
values. Every call to the outside world may fail, chosen freely.

Some properties hold only under a condition, and the exact condition is proved:

- A failed activation whose rollback also fails leaves its journal behind, and the service then applies the previous
  state (src/otg/service.rs:276-279), which can activate again and overwrite that journal. Every state a run passes
  recovers if and only if each overwrite was harmless: no owned profile was left, and no user connection was down but
  the one the new journal names (`Bridge.RecoversExactly`; a run in which a profile is lost for good is
  `Bridge.OverwriteLosesAProfile`).
- Recorded failures are spaced if and only if each was recorded while fewer than five others were inside the window
  (`FailureLimiter.SpacedExactly`); `n` overlapping attempts that fail at one moment, with `c` failures inside the
  window, keep the spacing if and only if c + n <= 5 (`FailureLimiter.OverlapExactly`). So two overlapping attempts
  after four failures in turn are enough to break it (`FailureLimiter.InTurnThenOverlap`). With at most `m` attempts
  in flight, failure i + 4 + m comes a window after failure i (`FailureLimiter.InFlightBound`), and no smaller
  distance will do (`FailureLimiter.InFlightBoundIsTight`).
- A run of input actions ends with nothing pressed while every accepted release arrives and no absolute move that is
  to end relative mode is dropped. A single stroke leaves the host clear if and only if its press did not arrive or its
  release did (`ComputerUse.StrokeExactly`, `ComputerUse.ClickExactly`), although a loss is reported as success. For a
  drag the exact outcome also depends on its moves (`ComputerUse.DragExactly`): in relative mode a dropped first move
  can leave the button down although the release arrived (`ComputerUse.DroppedMoveLeavesAButton`).
- A failed configure of a LUN keeps the mounted list right if and only if it is not the configured-but-not-rebound
  outcome (`MsdController.FailedConfigureAgrees`); after such an outcome the gadget holds the list's media and exactly
  those stray LUNs (`MsdController.ListAndStrays`).
- Without the operation lock, a cancel leaves a recovery current if and only if a token other than the one it loaded
  is current at its exchange (`RecoveryControl.CancelWithoutLock`).
- A list of printed events decodes to itself if and only if no name has a line feed and no line ends in a carriage
  return (`Sse.RoundTripExactly`).
- The keyboard report misses no held key if and only if no press that found it full is still held
  (`Keyboard.NothingMissingExactly`); six outstanding presses alone do not suffice
  (`Keyboard.SeventhPressIsLost`).

Two places where the code differs from what one might expect are kept as they are: apply writes the CH9329's parameter
block before it checks the length of the texts, and a LUN whose media type cannot be read is treated as changing its
media type.

## Model

| member | source | states |
|---|---|---|
| `Bridge.StepKeepsInv` | src/otg/bridge.rs:160-327 | every command of activation, rollback, deactivation and boot recovery, whether it works, is refused or takes effect and reports an error, and a crash anywhere, keeps the structure of journal, profiles and process, and, unless a journal that was still needed is overwritten, the coverage |
| `Bridge.CleanOrJournalled` | src/otg/bridge.rs:160-327 | in every reachable state the user's profiles are untouched; while no needed journal was overwritten, either nothing of a transaction is left or a journal names every owned profile and the connection that is down |
| `Bridge.RecoveryRestores` | src/otg/bridge.rs:333-353 | after any history that overwrote no needed journal, a restart whose commands work ends with no owned profile, no bridge of ours, every user connection up and no journal |
| `Bridge.JournalRemovedOnlyWhenClean` | src/otg/bridge.rs:462-529 | the journal disappears only at the last stage of a restore none of whose steps failed; the host is then clean unless a needed journal was overwritten |
| `Bridge.DeleteOwnedExact` | src/otg/bridge.rs:652-669 | deleting by UUID when it exists and by name otherwise removes exactly the owned profile of that name and no user profile |
| `Bridge.SuccessfulActivation` | src/otg/bridge.rs:123-327 | an activation that reports success has the bridge interface, the three profiles under their journalled UUIDs and active, and the original down |
| `Bridge.DeactivationRestores` | src/otg/bridge.rs:329-331 | from every state an active bridge is in, a deactivation whose commands work ends ready, without a journal, with every owned profile gone and every user connection up, without a restart |
| `Bridge.RollbackRestores` | src/otg/bridge.rs:270-327 | an activation that fails at any command after its first journal write, whether or not that command took effect, is undone on the spot by working commands; at the first write nothing is to be undone |
| `Bridge.RestoreExactly` | src/otg/bridge.rs:462-529 | for all answers of the six commands of a restore: it succeeds if and only if all report success, the journal stays if and only if an earlier one did not or its removal had no effect, and whenever it is gone the host is clean |
| `Bridge.ActivationSucceeds` | src/otg/bridge.rs:123-327 | from every ready state without a journal an activation of an active user connection with new names and working commands ends active |
| `Bridge.NothingBegun` | src/otg/bridge.rs:123-157 | giving up before the names are chosen leaves the process ready and owning nothing new; only the reserved interface and the profiles bound to it are gone |
| `Bridge.OverwritingAJournal` | src/otg/bridge.rs:157-173 | the state after one first journal write recovers if and only if the write was harmless |
| `Bridge.RecoversExactly` | src/otg/service.rs:259-279 | over every run, every state that was passed recovers if and only if each overwrite of a journal was harmless |
| `Bridge.OverwriteLosesAProfile` | src/otg/service.rs:276-279 | a concrete run: a failed rollback, a second activation, and a working recovery after which an owned profile is left without a journal |
| `RecoveryControl.TokensAreUnique` | src/audio/recovery.rs:32-67 | with load and exchange as separate steps and no lock, tokens are issued once and in increasing order, and at most one lease is current |
| `RecoveryControl.DeadTokensStayDead` | src/audio/recovery.rs:44-67 | an issued token that is no longer current never becomes current again |
| `RecoveryControl.LateFinishIsInert` | src/audio/recovery.rs:48-79 | finish, and dropping a lease, change the counter exactly when the token is current |
| `RecoveryControl.BeginWorks` | src/audio/recovery.rs:32-46 | an uninterrupted begin succeeds if and only if no recovery is under way, and then issues the next token |
| `RecoveryControl.CancelWorks` | src/audio/recovery.rs:57-67 | an uninterrupted cancel ends the recovery under way and touches no other caller |
| `RecoveryControl.CancelWithoutLock` | src/audio/recovery.rs:57-67 | a cancel's exchange leaves a recovery current if and only if a token other than the loaded one is current |
| `RecoveryControl.CancelCanBeOvertaken` | src/audio/recovery.rs:57-67 | a concrete run in which that happens |
| `AudioRecovery.StepKeepsInv` | src/audio/recovery.rs:122-278 | every step of every user, monitor and recovery task keeps the protocol invariant |
| `AudioRecovery.CancelLeavesIdle` | src/audio/controller.rs:82-84 | under the operation lock a completed cancel leaves the counter even and every recovery begun before it stale |
| `AudioRecovery.NoResurrection` | src/audio/recovery.rs:250-276 | after a user operation has cancelled, a recovery that installs a streamer or changes the configured device was begun later, with a larger token |
| `AudioRecovery.SlotWriters` | src/audio/controller.rs:134-224 | the slot and the configured device change only by a user operation or by the commit of a recovery whose token is current, and only under the lock |
| `AudioRecovery.LiveStreamerIsNeverReplaced` | src/audio/recovery.rs:181-278 | while a recovery is current and no commit is in its critical section the installed streamer is not running; a running one is never replaced by another |
| `AudioRecovery.StartedStreamersAreAccountedFor` | src/audio/recovery.rs:240-276 | every streamer a task started is in that task's hands, was installed, or is stopped |
| `AudioRecovery.NoRunningStreamerIsLost` | src/audio/controller.rs:212-217 | in every reachable state a running streamer is in the slot, in its maker's hands, or being stopped by the holder of the lock |
| `AudioRecovery.AtMostOneCurrent` | src/audio/recovery.rs:166-181 | at most one recovery task is current |
| `AudioRecovery.RunIsMonotone` | src/audio/recovery.rs:32-67 | over any run the counter never goes back and a recovery task keeps its token |
| `AudioOperations.OperationResult` | src/audio/controller.rs:82-309 | in every reachable state an operation about to return has done its work: stop leaves the slot empty, enabling and updating leave the requested flag and device and, when off, nothing running; a start that succeeds leaves a running or since-failed streamer of the configured device, and one that fails leaves audio disabled or a recovery under way with nothing running |
| `AudioOperations.ConfiguredDevicePlays` | src/audio/controller.rs:82-107 | whenever the lock is free, what is running in the slot plays the configured device |
| `AudioOperations.SelectReplacesTheStream` | src/audio/controller.rs:82-107 | over every interleaving, selecting a device while a streamer is installed ends with one installed, or in an error with audio disabled or a recovery under way |
| `AudioOperations.OperationEnds` | src/audio/controller.rs:82-309 | an operation that has the lock, or finds it free, returns within twenty of its own steps, whatever the calls answer |
| `AudioOperations.MonitorResult` | src/audio/recovery.rs:122-164 | a monitor that saw its streamer fail lets go only if the streamer was replaced, a recovery is under way or audio is disabled |
| `AudioOperations.RunningStreamersAreWatched` | src/audio/recovery.rs:122-164 | whenever the lock is free, a running streamer that was installed has a monitor |
| `AudioOperations.FailureIsRecovered` | src/audio/recovery.rs:122-164 | the monitor of an installed streamer that failed, finding the lock free and no recovery under way, begins one |
| `AudioOperations.CurrentRecoveryGoesOn` | src/audio/recovery.rs:181-278 | a current recovery does not give up while audio is enabled |
| `AudioOperations.RecoverySucceeds` | src/audio/recovery.rs:181-278 | from every reachable state in which a recovery is current, audio enabled and the lock free, an attempt that works ends in exactly one state: its streamer running in the slot, its device configured, its generation ended, a monitor watching |
| `MsdController.FreeFrom` | src/msd/controller.rs:279-282 | the lowest free slot, or proof that all are taken |
| `MsdController.FullExactlyAtCapacity` | src/msd/controller.rs:284-297 | in a well-formed list automatic allocation reports slots full if and only if the mounted count is the capacity, and otherwise gives the lowest free slot |
| `MsdController.FailedConfigureAgrees` | src/otg/msd.rs:225-235 | a failed configure of a free slot leaves the list equal to the gadget's contents if and only if the LUN was not left configured |
| `MsdController.ConfigureOne` | src/otg/msd.rs:168-236 | the four outcomes of one configure: the LUN holds the image, holds it with the UDC unbound, is empty, or is as it was |
| `MsdController.ListAndStrays` | src/otg/msd.rs:225-235 | the list is all that the gadget holds if and only if there are no strays; the strays are the exact difference |
| `MsdController.Controller.MountImage` | src/msd/controller.rs:146-197 | keeps the invariant (distinct slots below capacity, no image twice, one drive, list equal to the gadget apart from strays while available); appends the image at the requested or the lowest free slot, whose LUN then has the file and exactly the requested flags, read-only for a read-only or an optical image; or fails with the right error and an unchanged list, and never fails while the gadget works |
| `MsdController.Controller.MountDrive` | src/msd/controller.rs:199-259 | the same for the drive, which is exposed writable at the lowest free slot, with the error for each refusal |
| `MsdController.Controller.Attach` | src/msd/controller.rs:172-189 | one configure of a free slot: the medium joins the list exactly when the LUN was written; LUNs and strays change as the outcome says (emptied, left as it was, or a new stray) |
| `MsdController.Controller.Unmount` | src/msd/controller.rs:389-412 | removes the first matching medium and no other, reports when none matches, and leaves the list when the gadget refuses |
| `MsdController.Controller.Disconnect` | src/msd/controller.rs:467-506 | either clears everything, or leaves the list unchanged with every LUN restored, or marks the controller unavailable; it clears when ejecting works, and stays available when configuring does |
| `MsdController.Controller.Restore` | src/msd/controller.rs:477-491 | reconfiguring what was disconnected brings the gadget back to the list, each LUN with its medium's file and flags; it does not fail while the gadget configures |
| `MsdController.Controller.SetDiskMode` | src/msd/controller.rs:304-371 | switches to an empty list in the new mode, changes nothing, rolls back, or becomes unavailable with an empty list; it succeeds when the gadget offers the new capacity, and rolls back when it offers the old one and configures |
| `MsdController.Controller.RollbackModeSwitch` | src/msd/controller.rs:444-458 | a successful rollback restores the previous capacity and every medium; it succeeds when the gadget offers that capacity and configures |
| `LunConfig.Lun.ConfigureLun` | src/otg/msd.rs:168-236 | the UDC ends as it began if and only if the rebind did not fail; it is not written when the media type reads as requested or none is bound; on success the four flags equal the request and the LUN names the image if it exists; on any later failure the LUN is empty unless ejecting failed; a change of media type goes through an unbind and a rebind, and writes the inquiry string; when nothing fails it succeeds |
| `LunConfig.Lun.ConfigureAttributes` | src/otg/msd.rs:259-366 | the same for the attributes alone, with each flag as before or as requested on failure, and the inquiry string written when the media type changes |
| `LunConfig.Lun.InsertFile` | src/otg/msd.rs:324-357 | at most five writes, all but the last busy; success exactly when the last one was written, and a busy end only after five |
| `LunConfig.Lun.WriteInquiryString` | src/otg/msd.rs:242-257 | the attribute chosen for the media type gets its text and the other one is untouched; a failure touches neither |
| `LunConfig.Lun.DisconnectLun` | src/otg/msd.rs:454-488 | success empties the LUN; failure leaves its medium |
| `PcmConverter.SourceBelow` | src/audio/capture_windows.rs:294-296 | output frame k draws on the first n input frames if and only if k is below the count for n |
| `PcmConverter.CountIsCeiling` | src/audio/capture_windows.rs:263-292 | the count of output frames after n input frames is ceil(n * out_rate / in_rate) |
| `PcmConverter.InsideInput` | src/audio/capture_windows.rs:281-288 | in every round of the loop the source frame lies in the current input, so neither the test nor the clamp bites |
| `PcmConverter.Converter.Convert` | src/audio/capture_windows.rs:263-292 | one call emits exactly the output frames that its input frames complete, each from frame floor(k * in_rate / out_rate) |
| `PcmConverter.Converter.ConvertChannels` | src/audio/capture_windows.rs:298-304 | the equal-rate fast path is the same function |
| `PcmConverter.Converter.PushFrame` | src/audio/capture_windows.rs:306-328 | appends one output frame: the first two channels, the left one standing in for a missing right one |
| `PcmConverter.ChunkingDoesNotMatter` | src/audio/capture_windows.rs:263-292 | however a whole-frame stream is cut into calls, the outputs together are the output of the stream |
| `PcmConverter.OutputFrame` | src/audio/capture_windows.rs:294-328 | sample by sample, output frame k of the stream is input frame floor(k * in_rate / out_rate) |
| `PcmConverter.OutputSamples` | src/audio/capture_windows.rs:294-328 | in samples: which input sample each output sample is, first channel first, the first one standing in for a missing second |
| `PcmConverter.ConvertStream` | src/audio/capture_windows.rs:251-292 | a fresh converter fed chunk by chunk returns the output of the whole stream |
| `Ch9329.CalculateChecksum` | src/hid/ch9329_proto.rs:168-171 | the wrapping fold is the sum of the octets modulo 256 |
| `Ch9329.BuildPacketBuf` | src/hid/ch9329_proto.rs:173-193 | the first bytes of the buffer are the packet and the rest is zero |
| `Ch9329.ParsePacket` | src/hid/ch9329_proto.rs:126-164 | parsing a built packet gives back its command, payload and error code |
| `Ch9329.TryExtractResponse` | src/hid/ch9329_proto.rs:209-232 | the scanning loop finds the first well-formed frame, stopping at an incomplete one |
| `Ch9329.ExtractStable` | src/hid/ch9329_proto.rs:209-232 | a frame found in a buffer is found identically when more bytes follow |
| `Ch9329.DrainAppend` | src/hid/ch9329.rs:371-399 | draining a longer buffer is draining its beginning and then the remainder with what follows |
| `Ch9329.DrainIsComplete` | src/hid/ch9329.rs:371-399 | after draining, the remainder holds no further frame |
| `Ch9329.ChunkingDoesNotMatter` | src/hid/ch9329.rs:371-399 | any chunking of the serial stream yields the responses and the remainder of the whole stream |
| `Ch9329.PacketsRoundTrip` | src/hid/ch9329_proto.rs:173-232 | any concatenation of built packets decodes to exactly those packets in order with nothing left, and a prefix of it to a prefix of them with less than one packet left |
| `Ch9329.CompletePackets` | src/hid/ch9329_proto.rs:173-232 | any prefix of a packet stream is the stream of the decoded packets followed by a remainder that does not complete the next one |
| `Ch9329.XferPacket` | src/hid/ch9329.rs:361-420 | the buffer loop with trimming, skipped responses, read errors and deadline computes the exchange of the port's reads |
| `Ch9329.ExchangeFindsTheAnswer` | src/hid/ch9329.rs:371-399 | when the chip sends packets, the exchange returns the first one that answers the command, for every chunking, deadline and read error and despite trimming; without one it reports the read error or no response |
| `Ch9329.ReplyIsTheFirstAnswer` | src/hid/ch9329.rs:361-420 | in bytes: the first packet sent whose command byte is the command plus 0x80 or plus 0xC0 is the reply, with its payload, as an error exactly in the second case; all others are skipped |
| `Ch9329.TrimKeepsTheEnd` | src/hid/ch9329.rs:387-395 | trimming bounds the buffer and keeps at least the length of the longest packet from its end |
| `Ch9329.Masks` | src/hid/ch9329_proto.rs:201-207 | on eight-bit words, the expected answer is the command with the mask 0x80, or 0xC0 for an error, and an error is what has both bits |
| `Ch9329.ErrorsAreRead` | src/hid/ch9329_proto.rs:39-52 | every error code is read as itself and every other byte as a failed operation |
| `Ch9329.ExtractExactly` | src/hid/ch9329_proto.rs:209-232 | extraction finds the first built packet that no unfinished frame precedes, and otherwise stops at the first unfinished frame or the end |
| `Descriptor.FlagBits` | src/hid/ch9329.rs:108-119 | the string flags are set as wanted and the 0x78 bits kept |
| `Descriptor.PatchedElsewhere` | src/hid/ch9329.rs:102-119 | the parameter block changes only in the ids and the four string bits and stays readable |
| `Descriptor.ParameterConfig.SetVidPid` | src/hid/ch9329.rs:102-106 | the four id bytes, little endian, and no other |
| `Descriptor.ParameterConfig.SetStringFlags` | src/hid/ch9329.rs:108-119 | the flag byte and no other |
| `Descriptor.LowByteFirst` | src/hid/ch9329.rs:102-106 | ids are stored with the low byte first |
| `Descriptor.LayoutBits` | src/hid/ch9329.rs:84-100 | exactly which mode bytes are accepted, in bits |
| `Descriptor.StateBits` | src/hid/ch9329.rs:594-636 | each string is described if and only if its own bit and the common one are set; the ids are the two words from byte 11 on |
| `Descriptor.UsbStringRoundTrip` | src/hid/ch9329.rs:557-592 | a stored string's frame parses to that string exactly when it is at most 23 bytes and a text |
| `Descriptor.Chip.ReadParameterConfig` | src/hid/ch9329.rs:449-474 | one to three tries, giving up on an invalid answer only after three; what is returned is the chip's block and has a valid layout |
| `Descriptor.Chip.ReadDeviceDescriptor` | src/hid/ch9329.rs:594-636 | a successful read returns the descriptor that the block and the stored strings describe |
| `Descriptor.Chip.ApplyDeviceDescriptor` | src/hid/ch9329.rs:637-683 | a successful apply leaves exactly the patched block and the given strings; over a reliable link it succeeds if and only if every text fits |
| `Descriptor.ReadsBack` | src/hid/ch9329.rs:594-683 | the state read from an applied descriptor is that descriptor with an empty serial normalised to none |
| `Descriptor.AnswerIsWhatIsRead` | src/hid/ch9329.rs:672-683 | apply's own answer equals what a read gives if and only if the serial is not the empty text |
| `Descriptor.ApplyThenRead` | src/hid/ch9329.rs:594-683 | apply followed by read, through all retries and failures, returns the normalised descriptor whenever both succeed |
| `Sse.Decoder.Push` | src/computer_use/openai.rs:857-869 | consumes exactly the complete lines of the buffer and keeps the rest |
| `Sse.Decoder.Finish` | src/computer_use/openai.rs:871-879 | an unterminated last line is consumed as it is, and whatever is pending is dispatched |
| `Sse.Decoder.ConsumeLine` | src/computer_use/openai.rs:881-896 | one line changes the pending fields or dispatches them |
| `Sse.FieldForms` | src/computer_use/openai.rs:881-896 | a field with a colon, with a colon and one space, or bare: what each adds to the pending name or data; other fields add nothing |
| `Sse.CommentsAreIgnored` | src/computer_use/openai.rs:881-896 | a line that begins with a colon changes nothing |
| `Sse.BlankLine` | src/computer_use/openai.rs:898-907 | a blank line dispatches the pending name and the data lines joined by line feeds, or nothing when nothing is pending |
| `Sse.FinishIsABlankLine` | src/computer_use/openai.rs:871-879 | finishing gives the events of ending the last line and adding a blank one, unless a carriage return ends the input |
| `Sse.PumpAppend` | src/computer_use/openai.rs:857-869 | pushing a longer buffer is pushing its beginning and then the remainder with what follows |
| `Sse.DecodeStream` | src/computer_use/openai.rs:856-907 | every fragmentation of a byte stream yields the events of one push of the whole |
| `Sse.PrintedEventsDecode` | src/computer_use/openai.rs:856-907 | a list of events printed as event and data lines decodes back to itself when no field has a line feed or ends in a carriage return |
| `Sse.RoundTripExactly` | src/computer_use/openai.rs:856-907 | a list of printed events decodes back to itself if and only if no name has a line feed and no line of it ends in a carriage return |
| `Sse.DecodedNamesAreOneLine` | src/computer_use/openai.rs:881-907 | no decoded event has a line feed in its name |
| `Sanitize.RedactImages` | src/computer_use/openai.rs:963-972 | the loop ends on every text although a replacement can lengthen it, and computes the one-pass redaction, which has no image prefix left |
| `Sanitize.Sanitize` | src/computer_use/openai.rs:957-974 | the result is a snippet of at most 800 characters of the redacted text, with no image prefix and, for a key without brackets that is no part of a mark, no key |
| `Sanitize.RedactedIsFree` | src/computer_use/openai.rs:963-972 | no occurrence of the image prefix arises across or inside a replacement |
| `Sanitize.RedactIdempotent` | src/computer_use/openai.rs:963-972 | redacting again changes nothing |
| `Sanitize.RedactsOnlyUrls` | src/computer_use/openai.rs:963-972 | the first image URL becomes a mark, the text before it is kept and the text from its stop character on is redacted in turn |
| `Sanitize.RedactKeepsPlainText` | src/computer_use/openai.rs:963-972 | a text without an image URL is kept as it is |
| `Sanitize.StopCharacters` | src/computer_use/openai.rs:965-969 | the characters of a data URL do not end it; quotes and blanks do |
| `Sanitize.ReplacesOnlyTheKey` | src/computer_use/openai.rs:958-962 | each occurrence of the key becomes a mark and the text between occurrences is kept |
| `Sanitize.ReplaceKeepsOtherText` | src/computer_use/openai.rs:958-962 | a text without the key is kept as it is |
| `Sanitize.KeyShowsExactly` | src/computer_use/openai.rs:958-962 | for a key without brackets the replaced text still shows it if and only if the text had it and it is part of the mark |
| `Keyboard.Report.AddKey` | src/hid/types.rs:240-248 | the first empty slot takes the key; true exactly when fewer than six keys were reported |
| `Keyboard.Report.RemoveKey` | src/hid/types.rs:250-257 | every copy is emptied and the slots are sorted |
| `Keyboard.AddOk` | src/hid/types.rs:240-248 | one more copy of the key exactly when a slot is empty, all others kept |
| `Keyboard.RemoveOk` | src/hid/types.rs:250-257 | all copies of the key gone, all other keys kept, empty slots last |
| `Keyboard.SortDescOk` | src/hid/types.rs:256-256 | descending order, so the empty slots form a suffix |
| `Keyboard.ReportRefines` | src/hid/types.rs:219-263 | after every history of key events the report is packed and holds exactly the multiset bounded by six |
| `Keyboard.ReportedWasPressed` | src/hid/types.rs:240-257 | a reported key was pressed after its last release |
| `Keyboard.OutstandingSplits` | src/hid/types.rs:240-257 | every outstanding press, repeats counted, is reported or missing |
| `Keyboard.NothingMissingExactly` | src/hid/types.rs:240-257 | no held key is missing if and only if no press that found the report full is still held |
| `Keyboard.NothingMissingBelowSeven` | src/hid/types.rs:240-257 | none is missing while at most six presses have been outstanding at every moment |
| `Keyboard.SeventhPressIsLost` | src/hid/types.rs:240-257 | seven presses and the release of the first key: six presses are outstanding and the report does not hold them all |
| `ComputerUse.Executor.ExecuteActions` | src/computer_use/manager.rs:522-591 | every run, completed or stopped anywhere, ends with an all-zero report and empty button masks while its accepted releases arrive and no move that ends relative mode is dropped, whatever becomes of the other events; it sends the actions' script or a prefix closed by one release; at most three events follow the stop request; a rejected event changes nothing, so when nothing was lost and a release was rejected, exactly its press is held on both sides; when nothing was lost, the host was shown every event of the script as it was meant, chords with their modifiers and their key |
| `ComputerUse.Executor.Execute` | src/computer_use/manager.rs:533-587 | the same for one action, under the same condition |
| `ComputerUse.Executor.Send` | src/hid/mod.rs:261-284 | an event is delivered, kept by the backend, dropped, or rejected; only a rejection is reported, and it changes nothing |
| `ComputerUse.StrokeExactly` | src/hid/mod.rs:517-538 | for every fate of press and release the backend ends clear if and only if the press did not reach it or the release did, and the host if and only if the press did not arrive or the release did |
| `ComputerUse.ClickExactly` | src/hid/mod.rs:517-538 | the same for a mouse button |
| `ComputerUse.DragExactly` | src/hid/ch9329.rs:1257-1314 | for every fate of every event of a drag, what the backend and both mouse endpoints of the host hold at its end |
| `ComputerUse.DroppedMoveLeavesAButton` | src/hid/ch9329.rs:1257-1314 | the case in which a drag leaves its button down although its release arrived |
| `ComputerUse.Executor.KeyDownUp` | src/computer_use/manager.rs:650-672 | the release is sent even when the wait was cut short; no release follows a rejected press |
| `ComputerUse.Executor.TypeText` | src/computer_use/manager.rs:617-630 | types the text up to its first character without a key, which is reported |
| `ComputerUse.Executor.ReadChord` | src/computer_use/manager.rs:632-648 | all modifiers named anywhere, and the key of the last other word |
| `ComputerUse.Executor.DragPath` | src/computer_use/manager.rs:552-567 | the release is sent whether the path was completed, stopped or a move was rejected |
| `ComputerUse.Executor.ClickOnce` | src/computer_use/manager.rs:534-540 | move, press, release, with the release sent even when stopped |
| `ComputerUse.Executor.SleepOrCancel` | src/computer_use/manager.rs:740-757 | returns normally only if the stop flag was not yet set when the wait began |
| `ComputerUse.ScrollTicks` | src/computer_use/manager.rs:570-571 | one tick per 120 units, at least one for a nonzero delta, at most ten, and the opposite number for the opposite delta |
| `ComputerUse.StrokeClears` | src/hid/ch9329.rs:1216-1252 | for plain and modifier keys alike the release empties what the press reported |
| `ComputerUse.PressReports` | src/hid/ch9329.rs:1216-1252 | a key press that arrives in a clear state shows the host its modifiers and its key, and a modifier key that modifier alone |
| `ComputerUse.ReportsCarryTheState` | src/hid/ch9329.rs:1216-1314 | whatever the backend holds, a report that arrives carries exactly its keys, or its buttons on the endpoint used; an absolute move in hybrid mode carries no button |
| `ComputerUse.CutIsClosed` | src/computer_use/manager.rs:522-672 | a script cut anywhere and closed leaves nothing to release |
| `FailureLimiter.FrontPruningSuffices` | src/auth/two_factor.rs:289-305 | on a sorted deque, popping from the front removes every entry outside the window |
| `FailureLimiter.PruneIsRecent` | src/auth/two_factor.rs:289-305 | what the limiter counts is the number of failures of the whole history inside the window |
| `FailureLimiter.RecordKeepsSpacing` | src/auth/two_factor.rs:307-314 | recording after a check that passed keeps any six consecutive failures at least a window apart |
| `FailureLimiter.PruneDeque` | src/auth/two_factor.rs:293-298 | the pruning loop |
| `FailureLimiter.TwoFactorService.EnforceFailureLimit` | src/auth/two_factor.rs:289-305 | refuses if and only if five failures of the user's history are inside the window |
| `FailureLimiter.TwoFactorService.RecordFailure` | src/auth/two_factor.rs:307-314 | adds the failure to that user's history, whatever it holds, and keeps every deque right; all users' failures stay spaced if and only if the user was below the limit |
| `FailureLimiter.TwoFactorService.BeginLogin` | src/auth/two_factor.rs:74-95 | a challenge for enrolled users only, replacing an older one |
| `FailureLimiter.TwoFactorService.BeginEnrollment` | src/auth/two_factor.rs:154-185 | a challenge for the session, for users not yet enrolled only |
| `FailureLimiter.TwoFactorService.CompleteLogin` | src/auth/two_factor.rs:97-152 | a code is tried exactly when it is well formed, the challenge open, the user below the limit and enrolled; a failure is recorded exactly when a tried code is wrong, and the login accepted exactly when it is right; every login afterwards is stated: ended by success and by the fifth wrong code, counted by the others, kept when refused |
| `FailureLimiter.TwoFactorService.ConfirmEnrollment` | src/auth/two_factor.rs:187-246 | the same for enrolment, sharing the same failures, with the conflict of a user already enrolled; every enrolment afterwards is stated |
| `FailureLimiter.TwoFactorService.Disable` | src/auth/two_factor.rs:248-269 | the same for disabling, which also forgets the failures; all other users keep everything |
| `FailureLimiter.TwoFactorService.DisableWithoutCode` | src/auth/two_factor.rs:271-278 | removes the credential, the challenges and the failures of the user |
| `FailureLimiter.FailuresAreSpaced` | src/auth/two_factor.rs:289-314 | over every history of non-overlapping attempts the (i+5)-th recorded failure comes at least 60 seconds after the i-th |
| `FailureLimiter.SpacedExactly` | src/auth/two_factor.rs:289-314 | for every log in order of time, whatever overlaps, the failures are spaced if and only if each was recorded while fewer than five others were inside the window |
| `FailureLimiter.OverlapExactly` | src/auth/two_factor.rs:116-126 | n overlapping attempts with c failures inside the window all pass the check if and only if c < 5, and recording them at one moment keeps the spacing if and only if c + n <= 5 |
| `FailureLimiter.InTurnThenOverlap` | src/auth/two_factor.rs:116-126 | c failures in turn and then n overlapping attempts: spaced if and only if c + n <= 5 |
| `FailureLimiter.OverlapFromFresh` | src/auth/two_factor.rs:116-126 | with nothing recorded before, n overlapping attempts keep the spacing if and only if n is at most five |
| `FailureLimiter.InFlightBound` | src/auth/two_factor.rs:116-126 | with at most m attempts in flight, each with its own check and failure, failure i + 4 + m comes at least 60 seconds after failure i, for every log in order of time |
| `FailureLimiter.InFlightBoundIsTight` | src/auth/two_factor.rs:116-126 | for every m, a log with at most m in flight in which failure i + 3 + m does not |
| `FailureLimiter.SuccessesLeave` | src/auth/two_factor.rs:136-151 | any number of attempts that succeed in turn leave no failure, and never more than one in flight |

## Left out

- Running nmcli and ip, polling deadlines, ping and the copying of IPv4 properties: each is one step that works or
  fails. The journal's rename is atomic, and crashes are process crashes, not reboots.
- Journals of an earlier version and existing-bridge journals: activation never writes one; boot recovery leaves a
  journal of another version in place.
- The choice between applying a desired state and restoring the previous one: an activation may start whenever the
  process is ready.
- The u64 generation counter's wrap-around: the counter is unbounded.
- Opus, ALSA, WASAPI and the sample loop of a streamer: a streamer is created, running, failed or stopped.
- Liveness: that a waiting task is eventually granted the operation lock, and that retries of a recovery end by
  themselves, is not stated; what one task achieves when it is let run is.
- The MSD operation lock's refusal of a second operation while one runs, downloads, uploads and Ventoy files:
  operations run one at a time.
- OtgService: a capacity change that succeeds gives empty LUNs. The image file is taken to exist until it is written
  to its LUN; `MsdController.ConfigureOne` shows what happens otherwise.
- PcmConverter.Converter.Convert: requires positions that fit in 64 bits; saturated positions are not described.
- Sample conversion to 16 bits and screen-coordinate scaling: arbitrary functions of the sample and the point.
- UTF-8: the decoders take any text function; round trips assume that decoding undoes encoding and that the bytes
  of line feed and carriage return stand only for themselves.
- Events of other HID clients, a backend that is reloaded during a run, and the HID controller's overflow slot, in
  which a pending move may overtake queued events: the executor's own events are processed in order.
- The HID reset at the end of a session: the results hold without it; after a lost or rejected release it is what
  clears the rest.
- Key tables: arbitrary, with nonzero usages.
- Lower-casing of key names, and the formatting of error messages.
- TOTP computation, password hashing, database errors, HTTP and WebSocket handling: verification of a code is an
  input.
- Overlapping calls of the two-factor service: its methods run one at a time; overlaps are treated on logs of checks
  and recorded failures.
- Bits of CH9329 command bytes are written as arithmetic; `Ch9329.Masks` is the same statement on words.
- ATX, Wake-on-LAN, extensions, diagnostics and the web interface: single device or library calls without state that
  outlives a request.
