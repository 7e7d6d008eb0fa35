# Beaglewing: a verified model

Beaglewing shares one keyboard, mouse and clipboard between a Linux desktop and
a Windows machine. A router on Linux captures input and sends it over TCP to a
bridge on a Raspberry Pi, which writes USB HID reports to Windows. Clipboard
agents on both sides exchange 1024-byte reports through a relay on the same Pi.
This project models the logic of these programs and proves what holds over
every run of them. Check it with `dafny verify dfyconfig.toml`.

## What is modelled

Where the source changes state in place, the model has a class with the same
fields whose methods are proved equal to a function of the old state; the
theorems are about those functions.

**The clipboard channel.** `ClipFrame` has the frame bytes, the encoder with its
wrapping 16-bit sequence number, and the `Reassembler`. `ClipTransfer` says what
an idle receiver makes of all or some frames of a transfer, `ClipSplice` exactly
what two transfers can complete, and `ClipRetry` what an aborted attempt and its
retry can. `ClipSender` is the windowed sender with its one retry, `ClipReceiver`
the Linux frame handler. `ClipHistory` takes any number of sends one after the
other, each with any part lost, and a receiver in any state. `FlowControl`
composes sender, drop-oldest queue, receiver and acknowledgement channel as
interleaved steps; `FlowCall` adds stalls, the ABORT, the retry, lost connections
and queues that overflow.

**The bridge.** `Hid` has the six-slot keyboard, the pointer and the reports
attempted; `BridgeMessages` the protocol; `BridgeSession` the incremental parser
with its coalescing of positions and, beside it, the reference that reports
every message at once; `BridgeServe` the session and accept loops.

**The router.** `Geometry` has the two screens and the cursor, `HidMap` the
keycodes, `Protocol` the client's encoders. `RouterModel` is the event loop as
functions, `RouterLoop` the same loop on mutable state, `RouterSafety` what every
run of it keeps, `RouterProgress` what every turn must write and what ends a
capture. `CaptureStream` reads off the event stream when a capture is active, what
is held and where the pointer is, and `WholeSystem` puts router, connection and
bridge together.

**The clipboard agents.** `FileList` reads and writes lists of file URIs,
`Newlines` converts line ends, `LazyOffers` has the offer and pull logic of both
agents, `OfferHistory` what a run of either may send and `OfferProgress` what it
must.

`Bytes` and `Bits` hold machine integers and single bits.

## Findings

Some properties the code is meant to have hold only under a condition. The code
is modelled as it is, and the condition is proved exact.

- The retry of an aborted transfer to an idle receiver is safe, whatever is lost,
  exactly up to 65536 full DATA frames. `MAX_TRANSFER` allows 65923, and from
  65537 on a lost ABORT and START can join the two attempts into a payload of the
  right length and the wrong bytes (`ClipRetry.RetrySafeIff`).
- A receiver left in the middle of one transfer can finish it with the frames of
  the next, of any size, when that one's START is lost and both have the same
  length: nothing in DATA and END says which transfer they belong to. Any number
  of sends, retried or not, complete nothing but what was sent, whatever is lost,
  exactly when no two have the same length, empty ones apart, and each stays
  below 65537 full frames (`ClipHistory.SendsSafeIff`); then each successful send
  completes at most once, in the order of the sends
  (`ClipHistory.CompletionsInOrder`). What two transfers can complete is exactly
  their payloads and, if they have the same length, the first's chunks up to some
  one followed by the second's, or, where the number comes round, two shapes that
  skip or fall back a lap (`ClipSplice.TwoTransfersExactly`).
- The bound of 256 DATA frames in flight holds exactly when the transfers before
  left no acknowledgement on its way and no DATA unread. The count is only reset,
  so a left-over acknowledgement is taken for one of the new transfer, and unread
  DATA is not counted (`FlowControl.WindowHoldsIff`). A send is over once END is
  written: after one of 129 to 256 DATA frames both can be left over with nothing
  lost (`FlowControl.SendLeaves`, `FlowControl.NextSendOvershoots`).
- One call is enough to break it: a retry starts behind what the stalled attempt
  left unread, so that 515 reports, 512 of them DATA, can wait in the queue, and
  every smaller queue can overflow; `docs/clipboard.md` (line 102) gives about 512
  for Windows (`FlowCall.RetryOverflows`). What an overflow drops is lost, never
  altered: the call still completes its payload or nothing
  (`FlowCall.EveryCallIsExact`).
- A crossing or pull sends the most recently copied files exactly when that copy
  was offered. If its batch could not be read or its OFFER not written, the older
  offer stays and is sent instead (`OfferHistory.SendsMostRecentIff`,
  `OfferHistory.OlderFilesSent`).
- A position is dropped when the read that brings it also ends the session: by a
  malformed frame, or by a status request whose reply cannot be written. The
  report written after the session then shows the former position. The final
  position is right exactly when no position of that read is left without a later
  button, wheel or release, or the one that is equals the last one ahead of these
  (`BridgeSession.FinalPositionIff`, `BridgeSession.PumpEndsIff`,
  `BridgeSession.MalformedDropsPosition`, `BridgeSession.UnsentStatusDropsPosition`).
- Releasing a modifier clears its bit only: a copy of its usage that a KEY_STATE
  put in a slot stays there (`Hid.KeyUpClearsExactly`).
- A wheel report carries at most 127 detents and the excess is dropped: the reports
  of a capture add up to what it scrolled at every write exactly when no write had
  more (`RouterSafety.ScrollExactIff`, `CaptureStream.WheelAddsUp`).
- A Windows text survives the way to Linux and back exactly when every line feed
  follows a carriage return and no CR LF follows another carriage return
  (`Newlines.WindowsRoundTripIff`).

Where documentation and code disagree the model follows the code: the header of
`router.rs` (line 8) names End in the emergency combination, the code uses
backslash; `docs/protocol.md` says modifier usages toggle, the code sets and
clears them; `docs/input-routing.md` has RELEASE_ALL sent on every transition,
the code sends it on transitions to local, and none when it has no connection;
`docs/clipboard.md` takes a sequence gap for a peer's mistake because the channel
is reliable, while its own status list and `lib.rs` (lines 28 to 31) say that
reports can be dropped, so the model lets any be lost.

## Model

| member | source | states |
|---|---|---|
| ClipFrame.BuildFrame | protocol/clipframe/src/lib.rs:95-103 | the array filled in place holds exactly the type, a zero flag byte, the little-endian number and length, the payload and zeros |
| ClipFrame.ParseInverts | protocol/clipframe/src/lib.rs:95-121 | parsing gives back every type, number and payload that was framed |
| ClipFrame.EncodeTransfer | protocol/clipframe/src/lib.rs:124-138 | the loop with its wrapping counter produces START, the numbered chunks in order and END, as the receiver will parse them |
| ClipFrame.OffersRoundTrip | protocol/clipframe/src/lib.rs:51-180 | an offer comes out of the receiver as it was sent, in any state, moves nothing, and is never taken for an acknowledgement |
| ClipFrame.PullsAndAcksRoundTrip | protocol/clipframe/src/lib.rs:60-73 | pull ids and acknowledged counts come out as sent, in any state, and move nothing |
| ClipFrame.AckExactly | protocol/clipframe/src/lib.rs:64-73 | of all reports of 1024 bytes, exactly those that parse as an ACK frame whose payload is the four bytes of n are read as an acknowledgement of n |
| ClipFrame.Reassembler.Feed | protocol/clipframe/src/lib.rs:157-238 | one report changes the fields and gives the result the transition function says, malformed and unknown frames included |
| ClipFrame.Reassembler.Start | protocol/clipframe/src/lib.rs:188-202 | a START replaces any transfer, is refused and clears when too large, and changes nothing when its payload has the wrong length |
| ClipFrame.Reassembler.Data | protocol/clipframe/src/lib.rs:203-219 | a DATA frame extends the transfer, or drops it on a gap or an overrun |
| ClipFrame.Reassembler.End | protocol/clipframe/src/lib.rs:220-235 | an END always leaves the receiver idle and completes only when number, announced and received length agree |
| ClipFrame.StatusExactly | protocol/clipframe/src/lib.rs:150-155 | after any frames, n of total bytes are reported if and only if the relevant frames end in an unfinished transfer holding them |
| ClipFrame.IrrelevantFramesDoNothing | protocol/clipframe/src/lib.rs:157-187 | dropping control, unknown, unparseable and wrong-length START frames from any sequence leaves the same state |
| ClipFrame.IrrelevantInsertion | protocol/clipframe/src/lib.rs:157-187 | such frames may be inserted anywhere without changing the result of any later frame |
| ClipFrame.HoldsExactly | protocol/clipframe/src/lib.rs:188-219 | a transfer is held if and only if the relevant frames end in an accepted START and consecutive DATA frames whose payloads join to what is held |
| ClipFrame.CompletesExactly | protocol/clipframe/src/lib.rs:157-238 | after any frames, the next completes (kind, data) if and only if it is the matching END of such a sequence |
| ClipFrame.RunBounded | protocol/clipframe/src/lib.rs:188-219 | no run ever holds more bytes than announced, or more than the limit |
| ClipTransfer.FeedPrefix | protocol/clipframe/src/lib.rs:188-219 | after the first frames of a transfer the receiver, whatever it did before, holds exactly the bytes and the count they carry |
| ClipTransfer.DeliveredIff | protocol/clipframe/src/lib.rs:124-238 | a whole transfer completes with its payload, once, at END, if and only if it is within the limit, and the receiver is idle afterwards |
| ClipTransfer.LossIsNeverComplete | protocol/clipframe/src/lib.rs:203-235 | at any idle receiver, any subsequence of a transfer completes only if it is all of it, and then with the payload, also where the lost frames are a multiple of 65536 |
| ClipRetry.SafeWhenShort | linux/input-router/src/clipboard.rs:350-377 | below 65537 full frames, whatever an idle receiver gets of two attempts completes with the payload or not at all |
| ClipRetry.RetryCompletesAtMostOnce | linux/input-router/src/clipboard.rs:350-377 | of two attempts, with any loss, any length and any receiver state, at most one END completes |
| ClipRetry.LosingRunCompletes | linux/input-router/src/clipboard.rs:326-375 | from 65537 full frames on, one particular loss completes, in any state, with DATA 1 in the place of DATA 65537 |
| ClipRetry.RetrySafeIff | linux/input-router/src/clipboard.rs:350-377 | within the limit, a retry to an idle receiver is safe against every loss if and only if the payload has fewer than 65537 full frames |
| ClipSender.Sender.AwaitWindow | linux/input-router/src/clipboard.rs:327-336 | a DATA frame is released by the first count that leaves fewer than 256 unacknowledged; a stall is given up only with 256 or more sent, and after as many looks as fit in the wait, all of them at a closed window |
| ClipSender.Sender.SendFrame | linux/input-router/src/clipboard.rs:326-342 | one frame: written, or lost because its write failed, or, only a DATA frame, given up on a closed window with an ABORT that may itself be lost |
| ClipSender.Sender.SendTransfer | linux/input-router/src/clipboard.rs:316-345 | by outcome, what was written is all frames, a prefix, or a prefix of at least 257 frames and possibly an ABORT; every DATA frame respected the window; all writes went out, or the last one failed, or the window stayed closed |
| ClipSender.Sender.SendWithRetry | linux/input-router/src/clipboard.rs:350-377 | by outcome, sent, connection lost or abandoned, exactly what one or two attempts can have written, and that a write failed or the window stayed closed when it did not succeed |
| ClipSender.CallNoEnd | windows/clipboard-agent/src/main.rs:105-150 | a call that does not report success has written no END |
| ClipSender.SendIsExact | windows/clipboard-agent/src/main.rs:105-150 | whatever one call wrote and whatever part of it arrives at an idle receiver, only its payload completes, and only if the call reported success |
| ClipSender.CallCompletesOnce | linux/input-router/src/clipboard.rs:350-377 | whatever part of one call arrives and whatever the receiver was doing, only the last frame that arrives can complete anything |
| ClipHistory.Separates | protocol/clipframe/src/lib.rs:157-238 | whatever arrives in the middle of a transfer, the receiver is still in it, or where a receiver without it would be |
| ClipHistory.CompletesOwnOrFinishes | protocol/clipframe/src/lib.rs:157-238 | what completes is what a receiver without that transfer would complete, or that transfer, extended and ended by an END of its length |
| ClipHistory.EveryCompletionWasSent | linux/input-router/src/clipboard.rs:350-377 | any number of sends of different lengths, any part of each lost: nothing completes but payloads that were sent |
| ClipSplice.ShapeCompletes | protocol/clipframe/src/lib.rs:203-235 | of two transfers of one length, the frames of each shape, told position by position, complete it, in any state of the receiver |
| ClipHistory.CompletionsInOrder | linux/input-router/src/clipboard.rs:350-377 | an idle receiver's completions are a subsequence of the sends that reported success, at most one for each and in their order, with their payload and, unless it is empty, their kind |
| ClipHistory.SendsSafeIff | linux/input-router/src/clipboard.rs:350-377 | within the limit, sends are safe against every loss if and only if each has fewer than 65537 full frames and no two the same length, empty ones apart |
| ClipSplice.TwoTransfersExactly | protocol/clipframe/src/lib.rs:157-238 | within the limit, the set of results that losses of two transfers can produce, exactly: both payloads and, for equal lengths, the splices, with those that the wrapping number allows |
| ClipReceiver.Receiver.HandleFrame | linux/input-router/src/clipboard.rs:410-476 | what one frame writes back, puts on the clipboard, marks as an echo, logs as progress and reports to the main loop |
| ClipReceiver.TransferApplied | linux/input-router/src/clipboard.rs:416-468 | a whole transfer is answered by exactly one ACK for every 128th DATA frame and sets the clipboard once, with converted text, the image, or a list that reads back as the staged paths |
| ClipReceiver.ControlAnswered | linux/input-router/src/clipboard.rs:416-431 | a PING is answered by exactly one PONG, an offer and a pull are reported as sent, and none of these, nor an ACK, touches the clipboard or its mark |
| ClipReceiver.LastSetIsMarked | linux/input-router/src/clipboard.rs:432-468 | whatever frames arrived, the content set last is marked as an echo by its own hash or its files' signature |
| FlowControl.EveryRunIsSafe | linux/input-router/src/clipboard.rs:322-344 | an attempt that does not stall, with no ACK and no DATA left over: every interleaving keeps at most 256 DATA frames in flight and never meets a full queue; the transfers left over complete as they would have, then this one, once and with exactly the payload; a run stops only once it has, with the receiver idle |
| FlowCall.AnyQueueIsExact | windows/clipboard-agent/src/main.rs:339-405 | while no attempt stalls, for payloads of every length: however small the queue, whatever it drops and whatever ACKs are left over, an idle receiver completes the payload at most once and nothing else |
| FlowCall.QueueKeepsNewest | windows/clipboard-agent/src/main.rs:339-405 | what is unread is always the newest of what one call has written: a full queue drops the oldest report and no other |
| FlowControl.StepConsumes | linux/input-router/src/clipboard.rs:326-343 | every write, read and acknowledgement strictly decreases 3 * unwritten + 2 * queued + ACKs |
| FlowControl.EveryRunEnds | linux/input-router/src/clipboard.rs:326-343 | no run is longer than three steps a frame, with two for each report and one for each ACK left over |
| FlowControl.WindowHoldsIff | linux/input-router/src/clipboard.rs:322-329 | for transfers over 256 frames, behind any reports and ACKs left over, the window bound holds on every run if and only if no ACK is on its way and no DATA unread |
| FlowControl.NothingDroppedIff | linux/input-router/src/clipboard.rs:313-344 | with no ACK and no DATA left over, no run meets a full queue if and only if it holds, behind what is left over, 257 reports or all of a transfer of up to 256 DATA frames |
| FlowControl.SendLeaves | linux/input-router/src/clipboard.rs:326-344 | a transfer of up to 256 DATA frames can be written whole, and the send be over, with any of its frames unread and an ACK on its way for every 128 DATA frames read |
| FlowControl.NextSendOvershoots | linux/input-router/src/clipboard.rs:322-344 | after such a send, with no stall and nothing lost, a run of the next transfer has more than 256 DATA frames in flight |
| FlowCall.EveryCallIsExact | linux/input-router/src/clipboard.rs:316-377 | runs with stalls, the ABORT, the pause, the retry and lost connections, over a queue of any capacity and with any ACKs left over: below 65537 full frames an idle receiver completes the payload at most once and nothing else, and nothing unless END was written |
| FlowCall.CallStepConsumes | linux/input-router/src/clipboard.rs:316-377 | every step of a call strictly decreases a measure; a later phase always has less of it |
| FlowCall.EveryCallEnds | linux/input-router/src/clipboard.rs:316-377 | every run of a call ends, within six steps a frame, and only with an attempt written whole, both given up, or the connection lost |
| FlowCall.RetryOverflows | linux/input-router/src/clipboard.rs:322-375 | one call on an empty channel can have 515 reports, 512 of them DATA, in the queue, and reaches a write into a full queue for every capacity from 258 to 514 |
| Bits.ByteWith | pi/bridge/src/main.rs:135-140 | exactly the one bit of the byte is set or cleared |
| Hid.HidDevice.constructor | pi/bridge/src/main.rs:57-70 | nothing held, the pointer in the middle, no report written |
| Hid.HidDevice.FlushKeyboard | pi/bridge/src/main.rs:93-100 | attempts one report with the current modifiers and slots and changes nothing else |
| Hid.HidDevice.FlushPointer | pi/bridge/src/main.rs:119-131 | attempts one report with the buttons, both coordinates halved, and the wheel |
| Hid.HidDevice.ClearSlots | pi/bridge/src/main.rs:153-157 | every slot with the usage becomes zero, no other slot changes |
| Hid.HidDevice.Key | pi/bridge/src/main.rs:133-160 | one key event on modifiers, slots and reports: a repeated and a seventh key change and write nothing |
| Hid.HidDevice.SetState | pi/bridge/src/main.rs:288-292 | all slots and modifiers replaced, then reported |
| Hid.HidDevice.Release | pi/bridge/src/main.rs:162-173 | everything released, then one keyboard and one pointer report |
| Hid.KeyEventRefines | pi/bridge/src/main.rs:133-160 | one key event on the slot array is the same event on a set of at most six non-modifiers |
| Hid.SlotsRefineBoundedSet | pi/bridge/src/main.rs:133-160 | after any key events the slots have no duplicate and, with the modifier byte, hold exactly that set |
| Hid.SlotsExactIff | pi/bridge/src/main.rs:133-160 | the bridge holds exactly the keys pressed and not released, at every moment, if and only if never more than six non-modifiers are down |
| Hid.StatusCountsHeld | pi/bridge/src/main.rs:175-177 | the count in a status reply is the number of non-modifiers held |
| Hid.KeyUpClearsExactly | pi/bridge/src/main.rs:134-157 | a key-up leaves its usage unheld and every other key as it was; the usage stays in a slot if and only if it was there and is a modifier's or 0 |
| Hid.KeyReports | pi/bridge/src/main.rs:133-160 | a key event writes exactly one keyboard report, of the state it leaves, unless it is the press of a key that has a slot already or finds none free, which changes nothing |
| HidMap.UsagesAreDistinct | linux/input-router/src/hidmap.rs:9-95 | no two keycodes share a usage and none has usage 0 |
| HidMap.RowsAreMapped | linux/input-router/src/hidmap.rs:9-95 | the digit row and the three letter rows have the usages of their digits and letters |
| HidMap.HeldCodesAreUsages | linux/input-router/src/hidmap.rs:9-95 | a mapped key is down if and only if its usage is pressed at the protocol level |
| HidMap.PhysicalKeysHeld | linux/input-router/src/hidmap.rs:9-95 | up to six non-modifiers, a physical key is down if and only if the bridge holds its usage |
| BridgeMessages.FrontOf | pi/bridge/src/main.rs:237-252 | a whole frame lies within the buffer; a buffer that waits for more has at most eight bytes |
| BridgeMessages.FrontInverts | pi/bridge/src/main.rs:237-252 | the server reads back each framed message, takes exactly its bytes and leaves the rest |
| BridgeMessages.FrontExactly | pi/bridge/src/main.rs:237-252 | a message is seen if and only if the buffer begins with one, the parser waits if and only if it has less than a header or part of some message, and every other buffer is malformed |
| BridgeMessages.FrontIsEncoded | pi/bridge/src/main.rs:237-252 | the bytes the server takes for a message are that message's framing and no other |
| BridgeMessages.FrontStable | pi/bridge/src/main.rs:237-252 | bytes arriving later change neither a whole nor a malformed front |
| BridgeSession.ChunkingIndependent | pi/bridge/src/main.rs:226-323 | however the bytes are split into reads, keyboard reports, replies, button, wheel and release reports with their positions, and the held state are the same; so is the position, counting one still pending when a read ended the session |
| BridgeSession.CoalescingIsExact | pi/bridge/src/main.rs:270-323 | open or closed: pointer reports, with the pending one, are the one-per-message sequence less positions that another position directly supersedes; the state with the pending position is the reference's; at most eight bytes stay buffered |
| BridgeSession.CoalescesKeepsActions | pi/bridge/src/main.rs:270-323 | coalescing removes no button, wheel or release report and reorders none |
| BridgeSession.PumpInverts | pi/bridge/src/main.rs:237-316 | the bytes of any messages are read back as exactly those messages with nothing left over, and every status request is answered with the state at that point |
| BridgeSession.ClientStreamApplied | pi/bridge/src/main.rs:226-323 | a greeting and any messages, in any split, leave the session open, nothing buffered, the state of the messages applied one by one, and one reply to the greeting and to each request |
| BridgeSession.PumpEndsIff | pi/bridge/src/main.rs:237-316 | a read ends its session if and only if, after some of its messages, a malformed frame, a refused greeting or a request whose reply cannot be written is next |
| BridgeSession.DispatchedBytes | pi/bridge/src/main.rs:237-252 | the messages a read dispatches are those its bytes begin with |
| BridgeSession.FinalPositionIff | pi/bridge/src/main.rs:239-323 | a session ended by a read is left at the last position ahead of that read's last button, wheel or release, the reference at the last one; they agree if and only if no position of the read is left without a later button, wheel or release, or it equals the former |
| BridgeSession.MalformedDropsPosition | pi/bridge/src/main.rs:239-246 | a run that loses the position: the malformed frame comes in the same read, and not when it comes in the next |
| BridgeSession.UnsentStatusDropsPosition | pi/bridge/src/main.rs:305-313 | the same for a status request whose reply cannot be written |
| BridgeServe.Client.ParseFrames | pi/bridge/src/main.rs:237-316 | the loop that drains the buffer ends in the state of parsing it frame by frame |
| BridgeServe.Client.Handle | pi/bridge/src/main.rs:254-315 | one message: greeting, flush before an action, then its effect on device, replies and pending position |
| BridgeServe.Client.Run | pi/bridge/src/main.rs:206-325 | the session loop over any reads, timeouts, errors, silence and shutdown |
| BridgeServe.SessionIsItsReads | pi/bridge/src/main.rs:217-234 | a session is what it hears: it is open if and only if nothing but reads and time-outs happened and the reads leave it open; any other event closes it, and nothing after it counts |
| BridgeServe.TimeoutsChangeNothing | pi/bridge/src/main.rs:217-234 | with only reads and time-outs, a session is that of the reads alone |
| BridgeServe.Serve | pi/bridge/src/main.rs:372-393 | clients one after the other, each followed by a release, and a release at shutdown |
| BridgeServe.SessionInSync | pi/bridge/src/main.rs:93-323 | after every event of every session, and after each message within a read, the last reports attempted show the current modifiers, slots, buttons and position |
| BridgeMessages.HostSeesState | pi/bridge/src/main.rs:93-131 | read as a boot keyboard report and a pointer report, the last reports hold exactly the keys and buttons of the bridge's state and its position, halved |
| BridgeMessages.StateReplaces | pi/bridge/src/main.rs:288-292 | after a KEY_STATE exactly its modifiers and slots are held, by the bridge and by the host, and the pointer is as it was |
| BridgeSession.StatusTells | pi/bridge/src/main.rs:305-313 | a status reply has the modifiers and buttons that the host sees and the number of other keys it holds |
| BridgeServe.ReleaseIsSafe | pi/bridge/src/main.rs:162-173 | from any state, releasing leaves nothing held, an all-zero keyboard report last and a pointer report without buttons last |
| BridgeServe.EverySessionEndsReleased | pi/bridge/src/main.rs:372-393 | whatever clients did, between sessions and after shutdown nothing is held and the last reports say so |
| Geometry.Space.Move | linux/input-router/src/geometry.rs:75-112 | one motion: clamped, or seated at the shared edge of the other screen at the same relative height |
| Geometry.Space.Enter | linux/input-router/src/geometry.rs:126-137 | an activation seats the cursor at the shared edge of the remote screen |
| Geometry.Space.Force | linux/input-router/src/geometry.rs:141-150 | a forced return seats the cursor at the shared edge of the local screen, or changes nothing |
| Geometry.MotionExactly | linux/input-router/src/geometry.rs:75-112 | a motion crosses if and only if position plus motion lies beyond the shared edge; else the cursor goes to the nearest place of its screen, on each axis by itself |
| Geometry.NearestIs | linux/input-router/src/geometry.rs:75-112 | that place is the aim itself on the screen, and else the border it lies beyond |
| Geometry.MovesBySumX | linux/input-router/src/geometry.rs:75-112 | on a run of motions whose sums stay within the columns of a screen nothing crosses, and the cursor has moved sideways by their sum, whatever its height did |
| Geometry.MovesBySumY | linux/input-router/src/geometry.rs:75-112 | the same for the rows, also along a border, as long as nothing crosses |
| Geometry.HeightKept | linux/input-router/src/geometry.rs:68-150 | a crossing either way keeps the height in proportion to the screens', except that no row is below the last |
| Geometry.AlwaysInside | linux/input-router/src/geometry.rs:75-150 | no sequence of motions, activations and returns takes the cursor outside the screen it is on |
| Geometry.EdgeIsShared | linux/input-router/src/geometry.rs:75-137 | right after a crossing or an activation the least motion back crosses back |
| Geometry.RoundTrip | linux/input-router/src/geometry.rs:68-70 | where a row ends up after a visit to the other screen, exactly, and that a second visit moves it no further |
| Geometry.NoDrift | linux/input-router/src/geometry.rs:68-150 | any number of crossings without vertical motion moves y by nothing if the remote is at least as high, else up by at most local/remote - 1 in total |
| Geometry.PixelsDistinctIff | linux/input-router/src/geometry.rs:116-122 | rounding and halving keep all pixels of an axis apart if and only if it has at most 32768, in order, from 0 to 32767 |
| Geometry.ScaleIsNearest | linux/input-router/src/geometry.rs:116-122 | a place is sent as the nearest of the 65536 steps from border to border |
| Protocol.BuildMessage | linux/input-router/src/protocol.rs:21-28 | type, length and payload in this order |
| Protocol.BridgeClient.Connect | linux/input-router/src/protocol.rs:44-55 | a client exists if and only if the answer to its greeting is HELLO_ACK with this version, and its connection then carries the greeting and nothing else |
| Protocol.BridgeClient.Send | linux/input-router/src/protocol.rs:57-59 | the bytes on the connection stay those of the greeting and the messages that arrived; an error is reported only if a write was lost |
| Protocol.BridgeClient.SendPointer | linux/input-router/src/protocol.rs:82-87 | the array filled in place is read back as this position |
| RouterLoop.Emergency.Update | linux/input-router/src/router.rs:121-129 | tracks the three keys in place and reports whether all are down |
| RouterLoop.EventLoop.constructor | linux/input-router/src/router.rs:185-228 | local, nothing pending, the state published by whether a bridge is there |
| RouterLoop.EventLoop.ReturnToLocal | linux/input-router/src/router.rs:233-257 | a release is sent if there is a bridge, buttons are cleared, the cursor is forced back, the capture is handed back with that cursor position, the state is published and the clipboard agent told |
| RouterLoop.EventLoop.CheckBridge | linux/input-router/src/router.rs:268-286 | a failed keepalive drops the bridge and ends the capture |
| RouterLoop.EventLoop.TryReconnect | linux/input-router/src/router.rs:287-296 | a new connection starts with a release |
| RouterLoop.EventLoop.CheckActivation | linux/input-router/src/router.rs:298-322 | the failsafe, and pending pointer state dropped while local |
| RouterLoop.EventLoop.WritePending | linux/input-router/src/router.rs:323-345 | in an open window the position and then the wheel are written and both cleared; in a closed one nothing |
| RouterLoop.EventLoop.BeginCapture | linux/input-router/src/router.rs:359-389 | a capture without a bridge is refused at once; with one, all its state starts afresh, the entry position is sent and the clipboard agent told |
| RouterLoop.EventLoop.HandleKey | linux/input-router/src/router.rs:484-505 | unmapped keys ignored, the full combination returns to local and sends no key, others are sent |
| RouterLoop.EventLoop.HandleButton | linux/input-router/src/router.rs:507-525 | a press sets and a release clears the button's bit; a pending position is written before the new button state |
| RouterLoop.EventLoop.HandleScroll | linux/input-router/src/router.rs:530-539 | detents of 120 rounded towards zero, small values taken as they are, sign reversed |
| RouterLoop.EventLoop.HandleScrollDelta | linux/input-router/src/router.rs:540-551 | whole detents of 15 taken, the rest kept |
| RouterLoop.EventLoop.HandleFrame | linux/input-router/src/router.rs:552-570 | accumulated motion moves the cursor once, and either ends the capture or leaves the new position pending |
| RouterLoop.EventLoop.HandlePortal | linux/input-router/src/router.rs:359-432 | activation, deactivation, disabling and zone changes |
| RouterLoop.EventLoop.Handle | linux/input-router/src/router.rs:358-577 | every event of the loop, by kind |
| RouterLoop.EventLoop.Run | linux/input-router/src/router.rs:259-579 | the whole loop over any turns and events is the model's |
| RouterSafety.LoopInv | linux/input-router/src/router.rs:231-577 | after every turn: active exactly while the cursor is remote, only with a bridge; no buttons while local; the combination never fully held; the cursor inside; less than a detent held back; the published state and the last datagram to the clipboard agent say which; every capture handed back leaves the cursor on the local screen |
| RouterSafety.BridgeFollows | linux/input-router/src/router.rs:259-577 | after every turn the drained bridge holds nothing while local; while remote exactly the keys that fitted when pressed, the router's buttons, and the position unless a newer one is pending; its button and wheel reports are those meant |
| RouterSafety.ScrollConserves | linux/input-router/src/router.rs:540-551 | continuous scrolling is split into detents and a rest of less than one without loss |
| RouterSafety.DetentsAre | linux/input-router/src/router.rs:530-538 | discrete scrolling counts whole detents of 120 towards zero, and values below one as detents |
| RouterSafety.ScrollAddsUp | linux/input-router/src/router.rs:323-551 | in every run on an unbroken connection, what a capture has scrolled is what its reports turn the wheel by, what they could not carry, what is pending and the rest held back |
| RouterSafety.ScrollExactIff | linux/input-router/src/router.rs:332-336 | the reports carry what was to be written, at each write, if and only if no write had more than 127 detents |
| RouterLoop.EventLoop.WriteWheel | linux/input-router/src/router.rs:332-336 | one report with the clamped sum if there is one and a bridge, and the sum cleared |
| RouterProgress.TopWrites | linux/input-router/src/router.rs:268-345 | while a capture goes on, the top of the loop writes a keepalive that is due and, in an open window, the pending position and then at most 127 detents either way, and changes nothing else |
| RouterProgress.TopEndsIff | linux/input-router/src/router.rs:268-306 | the top of the loop ends a capture if and only if a loss of its connection is noticed at a keepalive, or the failsafe is due and nothing has arrived |
| RouterProgress.TopConnectsIff | linux/input-router/src/router.rs:268-297 | there is a connection afterwards if and only if there was one that is not dropped, or a reconnection is due and answered; a new one begins with a release |
| RouterProgress.TopReleases | linux/input-router/src/router.rs:298-306 | when the failsafe ends a capture the connection gets a release |
| RouterProgress.EventEndsIff | linux/input-router/src/router.rs:358-577 | which events start and end a capture, and which end the loop, by kind, with the emergency combination and the shared border written out |
| CaptureStream.CapturedIff | linux/input-router/src/router.rs:259-577 | in every run a capture is active if and only if its activation found or made a connection and no input since has ended or replaced it |
| CaptureStream.SeenExactly | linux/input-router/src/router.rs:298-306 | the failsafe takes a capture for unused exactly while no event has come since its activation |
| CaptureStream.EveryTurnWrites | linux/input-router/src/router.rs:268-345 | in every run, on an unbroken connection the wire grows by exactly what is due, in order; after an open window no position and no wheel is pending |
| CaptureStream.HandedBack | linux/input-router/src/router.rs:233-257 | whatever ends a capture, it is handed back with the cursor at the shared border of the local screen, at the height its row has there, and the clipboard agent is told |
| CaptureStream.AimReached | linux/input-router/src/router.rs:374-389 | in every run, while the motions of a capture have not aimed off the remote screen, cursor and unapplied motion are the entry at the border plus all motion since |
| CaptureStream.FramesApplied | linux/input-router/src/router.rs:526-570 | between frames no motion is left to be applied |
| CaptureStream.PressedExactly | linux/input-router/src/router.rs:466-525 | in every run, a key or button counts as down if and only if an event of the capture still active pressed it and none has released it since |
| CaptureStream.ButtonsExactly | linux/input-router/src/router.rs:507-525 | bit b of the buttons is set if and only if an event with code 0x110 + b has pressed it so and none has released it since; no other bit is set |
| CaptureStream.AllFit | linux/input-router/src/router.rs:484-505 | while never more than six non-modifiers are pressed, none is turned away |
| CaptureStream.EmergencyAlwaysReturns | linux/input-router/src/router.rs:112-133 | no run has a capture active with all three emergency keys pressed since its last activation |
| CaptureStream.WheelAddsUp | linux/input-router/src/router.rs:323-551 | the scroll events of the event stream since the activation amount to the turn of this capture's wheel reports, an excess that is zero while no write had more than 127 detents, what is pending, and less than one detent |
| CaptureStream.ScrolledExactly | linux/input-router/src/router.rs:530-551 | the units a capture counts are those of the scroll events taken since its activation |
| WholeSystem.NoStuckInput | linux/input-router/src/router.rs:233-577 | router, connection in any split with any time-outs, and bridge together, by the reports the host gets: nothing held while local; while remote exactly the buttons that this capture pressed and has not released, only such keys, and all of these up to six; every click and wheel report in order and at the model's position |
| WholeSystem.PointerStands | linux/input-router/src/router.rs:323-570 | in every run, after a quiet turn with an open window, the host's pointer is at the model's cursor, halved, and between frames that is the entry plus all motion since, while these have not aimed off the screen |
| FileList.PathToUri | linux/input-router/src/clipboard.rs:144-155 | the loop writes the scheme and each byte, kept or escaped |
| FileList.UriToPath | linux/input-router/src/clipboard.rs:126-142 | the loop decodes what left-to-right decoding gives, or fails with it |
| FileList.BuildList | linux/input-router/src/clipboard.rs:450-454 | the word copy and one URI a line, in order |
| FileList.EncodedIsPlain | linux/input-router/src/clipboard.rs:144-155 | no encoded path contains white space, a line break or a comment sign |
| FileList.UriRoundTrip | linux/input-router/src/clipboard.rs:126-155 | every path, whatever bytes it has, comes back from its URI |
| FileList.EncodedAsIsIff | linux/input-router/src/clipboard.rs:144-155 | a path is written as it is if and only if it has only unreserved characters (section 2.3 of RFC 3986) and slashes |
| FileList.AnySpellingIsRead | linux/input-router/src/clipboard.rs:126-142 | whichever bytes a writer escapes, in either case, the path is read back, as long as percent signs are escaped |
| FileList.BadEscapeRefused | linux/input-router/src/clipboard.rs:126-142 | a percent sign with two characters behind it that are no escape spoils the whole URI, whatever precedes it |
| FileList.LineRead | linux/input-router/src/clipboard.rs:158-164 | one line, ended by LF or CR LF, gives the path it names, or nothing for an empty line, a comment, the words copy and cut, or what is no file URI |
| FileList.FileListRoundTrip | linux/input-router/src/clipboard.rs:126-164 | every list of paths is read back from its file list, complete and in order |
| FileList.ListsAreDistinct | linux/input-router/src/clipboard.rs:450-454 | different lists are written differently |
| Newlines.LfInvertsCrlf | windows/clipboard-agent/src/main.rs:293-296 | converting to CR LF and back gives every text back, also with CR or CR LF in it |
| Newlines.WindowsFormIsStable | windows/clipboard-agent/src/main.rs:293-296 | normalising twice is normalising once |
| Newlines.LinuxRoundTripIff | linux/input-router/src/clipboard.rs:432-434 | a Linux text survives Windows and back if and only if it has no CR LF |
| Newlines.WindowsRoundTripIff | linux/input-router/src/clipboard.rs:432-434 | a Windows text survives Linux and back if and only if every LF follows a CR and no CR LF follows another CR |
| LazyOffers.LinuxAgent.HandleLocal | linux/input-router/src/clipboard.rs:530-564 | echoes ignored; files offered, or nothing changed when unreadable or unwritten; other copies supersede the offer |
| LazyOffers.LinuxAgent.HandlePull | linux/input-router/src/clipboard.rs:584-593 | a pull of the held id sends it, and keeps it unless it was delivered |
| LazyOffers.LinuxAgent.HandleControl | linux/input-router/src/clipboard.rs:601-629 | the offer is taken out before the send and put back only if it was abandoned; a lost connection skips the pull |
| LazyOffers.LinuxAgent.Run | linux/input-router/src/clipboard.rs:519-631 | the agent over any events |
| LazyOffers.WindowsHelper.ServeRequest | windows/clipboard-agent/src/main.rs:416-436 | a stored pull is taken, and served if it names the held offer |
| LazyOffers.WindowsHelper.PollClipboard | windows/clipboard-agent/src/main.rs:443-483 | as on Linux, but any other copy counts as sent |
| LazyOffers.WindowsHelper.Run | windows/clipboard-agent/src/main.rs:412-484 | the send loop with the other threads' steps in between |
| OfferHistory.LinuxSends | linux/input-router/src/clipboard.rs:530-611 | in every run the offer held is exactly the one standing in the history, and files are sent only of a standing offer, right after a crossing or a pull of it |
| OfferHistory.WindowsSends | windows/clipboard-agent/src/main.rs:416-483 | the same for Windows, which sends only on pulls |
| OfferHistory.NeverSentTwice | linux/input-router/src/clipboard.rs:584-611 | between a successful send and any later one there is a new offer, of the files sent later |
| OfferHistory.SendsMostRecentIff | linux/input-router/src/clipboard.rs:534-557 | every send follows a copy of files, and is that copy's offer if and only if it was offered; else it is an older copy's |
| OfferHistory.OlderFilesSent | linux/input-router/src/clipboard.rs:546-548 | a run in which the OFFER of the newer copy is not written and the crossing sends the older files |
| OfferHistory.WindowsPulls | windows/clipboard-agent/src/main.rs:397-416 | the slot holds exactly the pull that arrived last and was not served, and only waiting pulls are served |
| OfferHistory.WindowsAnswersPulls | windows/clipboard-agent/src/main.rs:416-436 | every transfer of files answers one pull of the offer's id, which came after the offer or was waiting when it was made |
| OfferHistory.CrossingPullsOnce | linux/input-router/src/clipboard.rs:613-628 | the remote offer is exactly the newest whose files have not come, marked when pulled; a crossing pulls each offer of the other side at most once, while it is the newest and not pulled yet |
| OfferProgress.LinuxPullIsAnswered | linux/input-router/src/clipboard.rs:584-593 | in every run, a pull of the standing offer's id adds exactly the pull and, unless packing failed, the transfer of its files; the offer then stands unless they were delivered; any other pull sends nothing |
| OfferProgress.WindowsPullIsAnswered | windows/clipboard-agent/src/main.rs:416-436 | the same for the waiting pull, which is taken; with none waiting nothing happens |
| OfferProgress.CrossingSends | linux/input-router/src/clipboard.rs:601-611 | in every run, a crossing sends exactly the standing offer, which ends if it was delivered or the connection lost |
| OfferProgress.CrossingAsks | linux/input-router/src/clipboard.rs:613-628 | a crossing back asks for the newest offer exactly if nothing has, the command always, unless its own send found the connection lost |
| OfferProgress.OffersAreNoted | linux/input-router/src/clipboard.rs:565-583 | an offer that arrives is the newest with nothing asked; after files have come nothing is wanted |
| OfferProgress.PullWaits | windows/clipboard-agent/src/main.rs:397-404 | a pull that arrives waits, in the place of any other |
| OfferProgress.CopyTakenIff | linux/input-router/src/clipboard.rs:530-564 | in every run, a copy is taken if and only if its hash is neither that last set nor that last sent, and becomes the standing offer if it is readable files whose OFFER went out |
| OfferProgress.PollTakenIff | windows/clipboard-agent/src/main.rs:443-483 | the same for Windows |

## Left out

- ClipSender.SendIsExact: bounds the payload to fewer than 65537 full frames, because beyond that it is false (`ClipRetry.RetrySafeIff`), and starts with an idle receiver, because otherwise it is false (`ClipHistory.SendsSafeIff`).
- BridgeSession.ChunkingIndependent: says nothing about which position-only reports are written, which does depend on the split; for a session that a read ended, the position it leaves is characterised by `BridgeSession.FinalPositionIff`.
- FlowControl.EveryRunIsSafe: needs room for 257 reports, or a shorter transfer, behind those left over (`FlowControl.NothingDroppedIff`); stalls and queues that overflow are in `FlowCall`. Frames of other kinds written in between are not modelled, and time does not pass: a closed window may stall at any moment.
- FlowCall.EveryCallIsExact: starts with an empty queue and an idle receiver; what earlier sends leave over is `ClipHistory`'s, without interleaving.
- FlowControl.WindowHoldsIff: asks for room for 258 reports behind those left over, which the longer of the failing runs fills.
- CaptureStream.AimReached: stops where a motion aims off the remote screen; what each such motion does is said by `Geometry.MotionExactly`, and along a border by `Geometry.MovesBySumY`.
- OfferHistory.WindowsAnswersPulls: a pull may precede the offer it is served from, when the same files are copied again before a pull of their former offer is taken.
- WholeSystem.NoStuckInput: on a connection that lost a write only the button and wheel reports are characterised; what the bridge holds is then ended by its own timeout (`BridgeServe.EverySessionEndsReleased`).
- Geometry.AlwaysInside: screens have at least two pixels per axis; with one, the source divides by zero and relies on f64 infinities.
- FileList.FileListRoundTrip: texts are byte sequences; the lossy UTF-8 conversion, which leaves valid UTF-8 alone, is not modelled.
- f64 rounding: coordinates, motion and scroll sums are reals.
- The width of the router's 32-bit wheel sum, and the cast of a scroll delta to it.
- Wall-clock time: keepalives, throttling, failsafes, stalls and timeouts are choices the environment makes at every turn.
- The outcome of HID writes: reports are those attempted, and the last byte of a STATUS reply is not modelled.
- Partial TCP writes: a write arrives whole or not at all, and after one that did not arrive none does.
- The portal, libei and evdev calls themselves, whether handing a capture back or a datagram succeeds, and arming the barriers.
- The data relay and the thread hand-offs beyond FIFO channels, reopening of devices, heartbeats of the clipboard agents.
- Hashes, signatures and offer ids: arbitrary numbers; the exactness of echo suppression is not claimed.
- Packing, unpacking and staging of archives; they enter as outcomes. That an archive of allowed file bytes stays within the transfer limit is not claimed.
- Image conversion and the Windows clipboard formats.
- Latency statistics, progress and notifications, the tray, the command line and the gadget scripts.
