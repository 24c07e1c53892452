# Linux driver protocols, verified

A Dafny model of the hard parts of a collection of Linux drivers: USB mass storage, the RTL8139 and
RTL8150 network drivers, the USB boot keyboard and the ES1938 sound chip. `dafny verify dfyconfig.toml`
checks the whole project.

Concurrent code is a step relation over program counters and shared flags, and its properties are
proved for every state of every run. Code that works through buffers, rings and registers is a class
with arrays and loops; its methods are proved against functions on values, and the properties are
proved about those functions.

| file | what it models |
|---|---|
| AbortProtocol, AbortInvariant, AbortSafety, AbortTargets, AbortRace | usb-storage: queueing, control thread, error handler and host controller around one URB and one scatter-gather request. Every lock operation, flag access and USB-core call is a step (`AbortProtocol.Next`). `AbortRace` is the variant whose error reset does without the host lock. |
| BulkSpec, BulkTransport, BulkRuns, BulkWire, BulkResults | usb-storage: the Bulk-Only transport (USB Mass Storage Class Bulk-Only Transport 1.0, sections 5.1, 5.2 and 6.3), auto-sense, READ(10) retries and the last-sector check, on the 64-byte I/O buffer that command and status wrappers share |
| XferBuf | usb-storage: the resumable copy between a buffer and a scatter-gather list, page by page |
| QuirkParser | usb-storage: the parser of the `quirks=` parameter |
| TxRing, TxRuns | RTL8139: the four-slot transmit ring with wrapping counters |
| RxRing, RxFrames | RTL8139: the receive ring, all four ring sizes |
| Napi | RTL8139: the interrupt-mask handshake between interrupt handler and poll routine |
| Eeprom, Mdio | RTL8139: the bit-banged EEPROM and MII management buses, driven against models of the parts on them |
| RxPump | RTL8150: one receive URB passed between its callback and a tasklet |
| Keyboard, KeyReports, KeyTables | USB boot keyboard: the LED protocol, the report difference, and the key table |
| Mixer | ES1938: masked register access and mixer controls |
| Common, BitMath | shared types and bit arithmetic |

The environment appears as steps or inputs: completions, submission results, allocation failures,
device answers, clock readings and chip register contents are arbitrary, within what the kernel or the
hardware promises (a transfer moves no more bytes than asked for; a tasklet does not run concurrently
with itself; the network stack serialises start_xmit and calls it only while the queue is not stopped).

## What does not hold

The code was modelled as it is. Where a property one would expect fails, a lemma names the run or the
input, and another gives the condition under which it holds:

- A scatter-gather request that is refused before it starts leaves its length uninitialised, and the
  residue is computed from it (`BulkRuns.ResidueInRange`, `BulkRuns.RefusedDataLeavesBadResidue`). The
  result is then always an error.
- Splitting a copy into resumed calls stops being the single call once a piece ran off the list, because
  the NULL cursor means the head (`XferBuf.SplitCopyExactly`, `XferBuf.SplitReadExactly`,
  `XferBuf.SplitCopyCanMoveMore`).
- `usb_stor_set_xfer_buf` leaves the residue alone when the transfer was filled to the last byte
  (`XferBuf.SetXferBuf`, `XferBuf.FullTransferKeepsResidue`).
- A late clear of RX_URB_FAIL can erase a newer failure; `rx_fixup` then forgets a receive buffer
  (`RxPump.ABufferCanGetLost`). That is the only way to lose one
  (`RxPump.DoomedExactlyAfterErasure`, `RxPump.NoErasureNoLoss`).
- The keyboard's LED buffer is never initialised, so requests equal to its first content are not sent
  (`Keyboard.NothingSentOnlyForTheFirstByte`). KANA and COMPOSE share a bit (`Keyboard.SettingsOnTheWire`).
- A LED request that is refused, or accepted and completed with an error, counts as shown: asked for
  again, nothing is sent (`Keyboard.RefusedRequestIsForgotten`, `Keyboard.FailedTransferIsForgotten`; over
  runs, `Keyboard.NothingIsSentExactly`). When the keyboard shows the latest request all the same:
  `Keyboard.KeyboardShowsLatestExactly`, `Keyboard.SingleLossExactly`.
- The keyboard driver compares scan codes but reports key codes, and six pairs of scan codes share a key.
  A key can be reported up while the report still shows it (`KeyTables.ReleasedWithItsTwin`,
  `KeyTables.PressedBeforeItsTwinIsReleased`; exactly when: `KeyReports.CoreIsRightExactly`).
- With RXALL, a bad frame that is neither a CRC error nor a runt counts as two receive errors, and so does
  one that is kept when the chip reports an overrun behind it (`RxFrames.TwoErrorsExactly`,
  `RxFrames.CallCountsErrors`, `RxFrames.AlignmentErrorCountsTwice`).

Where code and comments disagree the model follows the code: the comment at USB/transport.c:71-110 has
the submitter test DISCONNECTING too, lines 135 and 165 test only ABORTING; the comment at
USB/transport.c:567-573 allows three retries for the last sector, the third failure is already final; the
comment at USB/protocol.c:205-207 promises a residue that line 217 sets only for an incomplete transfer.

## Model

| member | source | states |
|---|---|---|
| AbortInvariant.RunKeepsInv | USB/transport.c:128-188 | Every state of every interleaving satisfies one inductive invariant over lock ownership, wake-ups, flags, ACTIVE bits, claims, cancellations and finished commands. |
| AbortInvariant.StepKeepsInv | USB/usb_1.c:300-421 | Each enabled step of the control thread, the error handler, the queue path, the host controller and disconnection keeps that invariant. |
| AbortInvariant.RecordKeepsCancels | USB/transport.c:892-908 | Whoever holds the claim of an ACTIVE bit may cancel: the cancellations so far stay pairwise different, and none falls into a submission or a reset. |
| AbortSafety.SlotWasSubmitted | USB/transport.c:153-162 | What current_urb or current_sg carries was submitted successfully at an earlier step, and the slot was not reused since. |
| AbortSafety.CancelStep | USB/transport.c:892-908 | A step that cancels records exactly one cancellation, of the submission claimed and carried, for the first time, outside submission and reset. |
| AbortSafety.CancelDiscipline | USB/transport.c:105-109 | Guarantee (2): every usb_unlink_urb or usb_sg_cancel, in any interleaving, hits the submission whose ACTIVE bit was claimed, after its submit returned success, for the first time, not inside a submit call and not during a reset. |
| AbortSafety.NoMissedCancellation | USB/transport.c:162-176 | Guarantee (1): with ABORTING set, the submitter blocked on a transfer in flight and the aborter past stop_transport, that transfer has been cancelled. |
| AbortSafety.NoTransferOutlivesItsCall | USB/transport.c:176-184 | A transfer is in flight only while the control thread is inside the call that submitted it, so the completion on its stack is live. |
| AbortSafety.CommandsFinish | USB/usb_1.c:300-410 | Commands finish in the order accepted, at most one is pending, and each finished one had scsi_done called, its abort notified, or both. |
| AbortSafety.NotificationsMatchAborts | USB/scsiglue.c:346-378 | Notifications and waiting aborts match one to one over every run; at most one is unconsumed. |
| AbortTargets.AbortHitsItsCommand | USB/scsiglue.c:354-370 | Over every run, the step that sets TIMED_OUT happens while the command of the last command_abort call is the pending one, and command_abort gives up with FAILED only when that command is not. |
| AbortTargets.NotifiedExactlyWhenAborted | USB/usb_1.c:396-403 | A command finishes with its abort notified if and only if TIMED_OUT was set while it was pending, and then by a call for this very command. |
| AbortTargets.ScsiDoneExactly | USB/usb_1.c:382-389 | scsi_done is called for a finishing command if and only if the control thread did not find it aborted, before it started it or after its transport returned, unless last_sector_hacks replaced that result. |
| AbortTargets.AbortedIsNotStarted | USB/usb_1.c:326-331 | A command with TIMED_OUT set already is not dispatched. |
| AbortTargets.SubmitsOnlyUnlessAborting | USB/transport.c:134-136 | Every submission call follows a test that found ABORTING clear. |
| AbortTargets.AbortSetsAborting | USB/scsiglue.c:365-370 | command_abort does not let go of the lock without ABORTING set, unless it found an error reset under way. |
| AbortTargets.ErrorsAreReset | USB/transport.c:864-880 | Every transport call found aborted or judged in error is followed by a port reset, with RESETTING set, before the control thread does anything else. |
| AbortTargets.ClassResetFollows | USB/transport.c:881-886 | A failed port reset is followed by the class-specific reset. |
| AbortTargets.ResetSendsControlMessages | USB/transport.c:1248-1297 | The reset routines send control messages only. |
| AbortSafety.FlagsWhenLockFree | USB/scsiglue.c:354-373 | With the host lock free: no command implies neither TIMED_OUT nor ABORTING, ABORTING implies TIMED_OUT, ABORTING and RESETTING exclude each other. |
| AbortSafety.ResetMessagesGoThrough | USB/transport.c:868-887 | A message sent by the error reset is never refused at either ABORTING test and never cancelled. |
| AbortSafety.ExitLeavesNothingBehind | USB/usb_1.c:781-801 | When the control thread has left, no command is pending and none can be accepted. |
| AbortSafety.NoDeadlock | USB/usb_1.c:300-410 | While a command is pending, the control thread, the lock-holding error handler or the host controller can take a step. |
| AbortSafety.CommandIsBounded | USB/transport.c:597-889 | Once a command runs, the control thread takes at most 22 steps plus ten per transfer for it, whatever the others do and whichever transport it uses. |
| AbortSafety.BulkCommandIsBounded | USB/transport.c:1052-1233 | A command that makes the transfers its device answers lead to over the Bulk transport, and at most three for a reset, takes the control thread at most 292 steps. |
| AbortSafety.LockSectionDescends | USB/scsiglue.c:346-378 | The error handler leaves its critical section after a bounded number of its own steps. |
| AbortSafety.MeasureFalls | USB/usb_1.c:300-410 | One measure of a pending command, from its wake-up to its end, falls with every step of the control thread, of the error handler under the lock and of the host controller; only the error handler taking the lock raises it. |
| AbortSafety.CommandRunsOut | USB/usb_1.c:300-410 | From its queueing on, at most 52 such steps, 20 for each transfer and nine for each time the error handler takes the lock fit in before the command has ended, and until then there is always one to take. |
| AbortRace.LockIsNeeded | USB/transport.c:870-873 | Without the lock around the flag changes of the reset there is a run in which usb_unlink_urb hits a later reuse of current_urb, a reset message. |
| BulkTransport.UsData.BuildCbw | USB/transport.c:1064-1082 | The bytes put into the I/O buffer parse as the command block wrapper of the request, with the next tag. |
| BulkWire.CbwBytes | USB/transport.c:1068-1082 | Byte by byte, that is USBC, the tag and the length little-endian, the direction, LUN and target, the length of the command, and the command padded with zeros. |
| BulkTransport.UsData.FetchStatus | USB/transport.c:1127-1154 | Of up to three status reads, the one that decides: again after an empty packet, again after a cleared stall; a good result means its 13 bytes are in the buffer. |
| BulkTransport.UsData.ChargeResidue | USB/transport.c:1183-1204 | The residue is clamped and merged into the one so far, or found bogus and ignored from then on, as the value-level rule says. |
| BulkTransport.UsData.JudgeStatus | USB/transport.c:1156-1233 | The new signature, quirks, residue and result are those of the value-level rules if tag, status and signature are acceptable; otherwise nothing is learnt and the result is an error. |
| BulkTransport.UsData.BulkTransfer | USB/transport.c:1052-1233 | The transport on the shared buffer computes BulkSpec.Bulk: no stale command bytes are taken for a status. |
| BulkTransport.UsData.LastSectorHacks | USB/transport.c:522-590 | The counter, the switch and the report after the last-sector check are those of the value-level rule. |
| BulkTransport.UsData.RequestSense | USB/transport.c:686-812 | The retry loop of auto-sense computes the recursive BulkSpec.AutoSense, with its log of exchanges. |
| BulkTransport.UsData.TrackRead10 | USB/transport.c:826-853 | READ(10) flags and report after a command are those of the value-level rule. |
| BulkTransport.UsData.InvokeTransport | USB/transport.c:597-889 | A whole command, state, report and exchanges, is BulkSpec.Invoke of the state before. |
| BulkTransport.UsData.constructor | USB/usb_1.c:986-987 | A configured device starts with REDO_READ10 set exactly for INITIAL_READ10, READ10_WORKED clear, no signature, counter zero. |
| BulkWire.StatusReadExactly | USB/transport.c:1084-1154 | A status is judged if and only if the command block went out in full, the data stage is over (whole, short, babbled or stalled and cleared) and the status could be read, past an empty packet or once more after a stall; it is then the one read. |
| BulkWire.JudgedExactly | USB/transport.c:1156-1233 | When it is accepted, which of the three results it gives, the residue left, the signature learnt and the residue found bogus, each as an equivalence on its bytes; without a status the exchange is an error and teaches nothing. |
| BulkRuns.ExchangeIsDisciplined | USB/transport.c:1127-1200 | GOOD, FAILED and NO_SENSE rest on a complete 13-byte read from the device whose tag is the one just sent (unless tags are ignored), with the matching status and a residue within the buffer. |
| BulkRuns.BulkAddsOne | USB/transport.c:1074-1182 | One transport advances the tag by one modulo 2^32, keeps to the learnt signature, and changes no other state but the residue quirk. |
| BulkRuns.ResidueInRange | USB/transport.c:465-475 | The residue of an exchange is within the buffer if and only if the data stage was not refused before it started with a larger stale length. |
| BulkRuns.RefusedDataLeavesBadResidue | USB/transport.c:424-434 | A concrete refused data stage with residue -1. |
| BulkRuns.RunExchanges | USB/transport.c:1052-1233 | In every run of commands, every exchange is disciplined and the tags count up modulo 2^32. |
| BulkRuns.SignatureSticks | USB/transport.c:1168-1182 | Once a non-zero signature was accepted, every status accepted later in the run carries it. |
| BulkRuns.NoStaleStatus | USB/transport.c:1160-1166 | With tags checked, a status answering an earlier command (fewer than 2^32 back) is never taken for the current one. |
| BulkRuns.OutFacts | USB/transport.c:666-768 | A command makes between one and three transports, so at most two REQUEST SENSEs, at most one SANE_SENSE downgrade, none once settled. |
| BulkRuns.AtMostEightTransfers | USB/transport.c:1052-1154 | One Bulk transport makes at most eight transfers, cleared stalls included, for every device behaviour. |
| BulkRuns.CommandTransfersAreBounded | USB/transport.c:597-812 | A command with its auto-sense makes at most 24. |
| BulkRuns.SaneSenseGivenUpOnce | USB/transport.c:726-743 | In any run SANE_SENSE is given up for BAD_SENSE at most once and not regained afterwards. |
| BulkRuns.RetriesAreBounded | USB/transport.c:826-853 | In any run from a fresh probe, immediate READ(10) retries number at most one plus the READ(10)s seen good. |
| BulkRuns.CounterInRange | USB/transport.c:571-589 | Between commands last_sector_retries stays in 0..2. |
| BulkRuns.FailureCounts | USB/transport.c:562-589 | A failed last-sector access is counted and keeps its result, until the count reaches three and it becomes "record not found". |
| BulkRuns.ThirdFailureIsMediumError | USB/transport.c:562-589 | Three failed accesses with only TEST UNIT READY in between: the third is reported as a medium error, the first two keep their results. |
| BulkResults.GoodExactly | USB/transport.c:597-862 | A command is reported good if and only if it was not timed out, its exchange went well, enough bytes came, it is no READ(10) to be retried and no third short access to the last sector. |
| BulkResults.ReportExactly | USB/transport.c:597-889 | The exchanges of every command, and each of its results (aborted, good, retry, check condition, error) as an equivalence on time-outs, exchange results and sense data, with the residue and the sense bytes reported; and when all that is replaced by record not found. |
| BulkResults.RetryStateExactly | USB/transport.c:522-590 | How every command leaves the READ(10) flags and the switch and the counter of the last-sector check. |
| BulkResults.SenseSizeLearntExactly | USB/transport.c:643-768 | SANE_SENSE is learnt exactly from an ATA pass-through that went well or from sense data longer than 18 bytes, on a device not classified yet, and given up for BAD_SENSE exactly when a large request times out or fails. |
| BulkResults.LastSectorIs | USB/transport.c:544-560 | The sector is bytes 2 to 5 of a READ(10) or WRITE(10), most significant first, and the last one if one more, in 32 bits, is the capacity. |
| XferBuf.AccessXferBuf | USB/protocol.c:134-202 | The nested page loops copy exactly min(buflen, bytes left) bytes between the buffer and the flattened list, touch nothing else, and leave the cursor where the next byte is. |
| XferBuf.CopyPages | USB/protocol.c:180-197 | The inner loop moves a run of bytes page by page as one flat copy. |
| XferBuf.ByteAddress | USB/protocol.c:160-162 | Byte o of an entry, at its place in the flattened list, is byte (offset + o) % PAGE_SIZE of page (offset + o) / PAGE_SIZE behind the first page of the entry. |
| XferBuf.AdvanceSkips | USB/protocol.c:161-175 | Advancing the cursor by n moves over exactly n bytes of the flattened list, or to its end. |
| XferBuf.SplitCopy | USB/protocol.c:130-133 | Two resumed writing calls equal the one call with both pieces, in memory, cursor and count, when the first stays inside the list. |
| XferBuf.SplitRead | USB/protocol.c:130-133 | The same for reading: the bytes the two calls bring, put together, are those of the one call, with the same cursor and count. |
| XferBuf.SplitCopyExactly | USB/protocol.c:152-153 | The counts of two writing calls add up to that of the one call if and only if the first stayed inside the list, the second has nothing to copy, or the list is empty. |
| XferBuf.SplitReadExactly | USB/protocol.c:152-153 | The same for reading calls. |
| XferBuf.SplitCopyCanMoveMore | USB/protocol.c:152-153 | A list of one byte, where two calls of one byte move two and one call of two bytes moves one. |
| XferBuf.PiecesEqualWhole | USB/protocol.c:130-133 | Any series of resumed writing calls equals the one call with all pieces, as long as no piece but the last runs off the list. |
| XferBuf.ReadPiecesEqualWhole | USB/protocol.c:130-133 | The same for any series of reading calls. |
| XferBuf.WriteThenRead | USB/protocol.c:134-202 | Over entries that do not overlap, a write followed by a read gives the data back; bytes not reached keep their value. |
| XferBuf.SetXferBuf | USB/protocol.c:208-219 | The buffer is stored from the head of the list; the residue is what was not filled if and only if the buffer or the list is shorter than the transfer, or the residue was zero before. |
| XferBuf.FullTransferKeepsResidue | USB/protocol.c:217-218 | A full transfer over a residue of five leaves five. |
| QuirkParser.UsData.AdjustQuirks | USB/usb_1.c:463-548 | The pointer loop terminates on every string and sets the flags the specification gives: cut at commas, first entry that matches, mask replaced by the flags it names. |
| QuirkParser.UsData.CollectFlags | USB/usb_1.c:496-546 | The letters up to the next comma give exactly the flags they name, in either case. |
| QuirkParser.TryEntry | USB/usb_1.c:479-485 | The test of one entry, which parses past its start before it fails, agrees with the test of the entry cut out, and never runs past it. |
| QuirkParser.SkipEntry | USB/usb_1.c:487-491 | From anywhere in an entry, the skip loop ends at the start of the next one. |
| QuirkParser.EntriesJoin | USB/usb_1.c:478-492 | The entries joined by commas are the string. |
| QuirkParser.EntriesHoldNoComma | USB/usb_1.c:478-492 | No entry holds a comma. |
| QuirkParser.NumberEndsInEntry | USB/usb_1.c:482-484 | A hexadecimal number parsed from the rest of the string is the one parsed from the entry alone. |
| QuirkParser.OnlyMaskedFlagsChange | USB/usb_1.c:469-476 | Flags outside the mask are untouched for every string; inside it, after a match, exactly those named are set. |
| QuirkParser.MaskIsWhatLettersName | USB/usb_1.c:469-476 | A flag is in the mask if and only if some letter names it. |
| QuirkParser.LettersName | USB/usb_1.c:497-544 | Each of the fifteen letters, small or capital, names its flag. |
| QuirkParser.PrintedEntryApplies | USB/usb_1.c:477-548 | An entry VVVV:PPPP:letters with the IDs in four hexadecimal digits applies to the device with these IDs and to no other, and sets the flags its letters name. |
| QuirkParser.PrefixedNumber | USB/usb_1.c:480-482 | An ID may have 0x or 0X in front. |
| TxRing.Private.Stage | net/realtek/8139too.c:1727-1739 | A frame shorter than the bounce buffer is placed in the slot of cur_tx, zero-padded to 60 bytes, no other slot changing; a longer one is counted as dropped. |
| TxRing.Private.Commit | net/realtek/8139too.c:1741-1755 | Under the lock the slot is handed to the chip, cur_tx advances modulo the word and the queue stops when cur_tx - 4 equals dirty_tx. |
| TxRing.Private.TxInterrupt | net/realtek/8139too.c:1764-1832 | Exactly the finished slots from dirty_tx on are reclaimed, each charged by its status, and a queue that made progress is woken. |
| TxRuns.RunKeepsInv | net/realtek/8139too.c:1717-1832 | The ring invariant holds in every state of every run of offers, commits, interrupts and chip writes. |
| TxRuns.QueueStoppedExactlyWhenFull | net/realtek/8139too.c:1751-1754 | Over every run, with counters wrapping, cur_tx - dirty_tx stays in 0..4 and the queue is stopped exactly when it is 4. |
| TxRuns.FramesGoOutInOrder | net/realtek/8139too.c:1717-1762 | The frames handed to the chip are the accepted ones, each once, in order; the others are the drop count. |
| TxRuns.ReclaimedCountedOnce | net/realtek/8139too.c:1772-1816 | Every reclaimed frame was counted exactly once, as an error or as a packet, according to its own status; aborts, lost carriers, late collisions and underruns as often as a status showed them; collisions and bytes are the sums over the statuses that did not fail. |
| TxRuns.CommitHandsOver | net/realtek/8139too.c:1741-1751 | At hand-over the slot holds the frame, filled up with zeros to 60 bytes; TxStatus shows its length and the FIFO threshold and none of the done bits. |
| TxRuns.OutstandingSlotsAreLeftAlone | net/realtek/8139too.c:1727-1751 | No driver step writes buffer or status of a slot that is sent and not reclaimed. |
| TxRuns.ReclaimWaitsForTheChip | net/realtek/8139too.c:1778-1781 | Without a chip write to its status no number of interrupts reclaims a frame, or any behind it. |
| TxRuns.InterruptReclaimsExactly | net/realtek/8139too.c:1774-1782 | An interrupt reclaims a frame if and only if its status and that of every outstanding frame before it show bit 15, 14 or 30, and charges it by that status. |
| TxRuns.ThresholdExactly | net/realtek/8139too.c:1803-1808 | The FIFO threshold is raised by one step for each underrun, up to 0x300000. |
| RxRing.Private.CopyOut | net/realtek/8139too.c:1917-1929 | wrap_copy, or one memcpy in the padded rings, yields the payload at the offset for every ring size, reading only inside the ring. |
| RxRing.Private.RxErr | net/realtek/8139too.c:1836-1871 | Counters by cause, receiver restarted, cur_rx zero. |
| RxRing.RestartIsCounted | net/realtek/8139too.c:1844-1858 | A restart is one receive error, blamed on the ring exactly when the status was fine and on the frame otherwise; nothing handed up is lost. |
| RxRing.Private.IsrAck | net/realtek/8139too.c:1931-1947 | An overrun pending at the acknowledge is one receive error, and a FIFO error too if it was the FIFO's. |
| RxRing.Private.OneTurn | net/realtek/8139too.c:1962-2068 | One packet: the busy marker with its time-out, bad lengths and statuses, RXALL, delivery or drop, new cur_rx and RxBufPtr, and the acknowledge behind it. |
| RxFrames.TurnExactly | net/realtek/8139too.c:1988-2036 | When a packet is waited for, kept or restarts the receiver, and which counters that raises, as equivalences on its size and the bits of its status. |
| RxFrames.AfterExactly | net/realtek/8139too.c:1996-1998 | The wait ends when the clock is past the time-out by at most half its range. |
| RxFrames.ReadsOnlyWhileItMay | net/realtek/8139too.c:1964-1965 | A header is read only while the device runs, the chip shows a packet and the budget lasts. |
| RxRing.Private.Poll | net/realtek/8139too.c:1949-2088 | The loop computes the recursive RxRing.Drain, on its local cur_rx, for any ring contents, with the acknowledge behind the loop. |
| RxFrames.GoodPacketsAreDelivered | net/realtek/8139too.c:1962-2071 | Good packets laid out byte for byte one behind the other are handed up in order up to the budget, each frame without its CRC, or with it under RXFCS; those without memory are counted as dropped, the bytes of the others are counted, the only errors are the overruns reported meanwhile, and cur_rx and RxBufPtr end where the chip goes on. |
| RxFrames.CursorFollowsChip | net/realtek/8139too.c:2064-2064 | The rounded 32-bit cur_rx, also where it wraps, is the chip's write position modulo the ring, and a multiple of four. |
| RxFrames.PointerTrailsCursor | net/realtek/8139too.c:2065-2065 | RxBufPtr is sixteen bytes behind cur_rx in every ring. |
| RxFrames.EveryByteIsInTheRing | net/realtek/8139too.c:173-181 | Every payload byte lies inside RX_BUF_TOT_LEN: modulo the ring for 64K, in one piece within the pad otherwise. |
| RxFrames.ResultTellsRestart | net/realtek/8139too.c:2007-2036 | The result is -1 exactly with one receiver restart and a counted error, otherwise at most the budget. |
| RxFrames.ConsumedIsAccountedFor | net/realtek/8139too.c:2038-2062 | Every packet consumed was handed up or counted as dropped. |
| RxFrames.TwoErrorsExactly | net/realtek/8139too.c:1931-2034 | One packet adds more than one receive error, and then two, if and only if RXALL is on and it is a bad packet of acceptable length that is neither CRC error nor runt, or is one of those with an overrun pending at the acknowledge behind it. |
| RxFrames.CallReadsHeaders | net/realtek/8139too.c:1962-2036 | A whole call reads one header for each packet it consumes, and one more if and only if it returns -1. |
| RxFrames.CallCountsErrors | net/realtek/8139too.c:1931-2071 | It adds one receive error for each bad packet it read, one more if and only if the last one counts twice, and one for each overrun reported behind a packet consumed or, when nothing was received or a packet is still being written, behind the loop. |
| RxFrames.CallCountsFifoErrors | net/realtek/8139too.c:1941-1942 | The FIFO errors are the overruns of the FIFO among those. |
| RxFrames.OnlyTheLastCountsTwice | net/realtek/8139too.c:2033-2035 | No packet before the last one of a call counts twice. |
| RxFrames.AlignmentErrorCountsTwice | net/realtek/8139too.c:2015-2033 | A 64-byte frame with an alignment error does, with RXALL. |
| Napi.StepKeepsInv | net/realtek/8139too.c:2158-2220 | Each step of handler, poll and chip keeps the lock, ownership and mask invariant. |
| Napi.ScheduledExactlyWhenMasked | net/realtek/8139too.c:2128-2154 | In every run, whenever tp->lock is free, NAPI is scheduled if and only if IntrMask is the no-Rx mask, and not scheduled if and only if it is the full one. |
| Napi.PendingRxIsServed | net/realtek/8139too.c:2136-2151 | With an Rx source pending, a poll is queued or running, the handler runs, or the interrupt line is asserted. |
| Napi.ScheduledOnce | net/realtek/8139too.c:2197-2202 | A scheduled NAPI is in exactly one place: on a poll list, being polled, or about to be queued. |
| Napi.PollRunsRx | net/realtek/8139too.c:2136-2138 | The poll calls rtl8139_rx if and only if it finds an Rx source, and its work is what that returns, or nothing. |
| Napi.CompletesExactlyBelowBudget | net/realtek/8139too.c:2140-2151 | It completes NAPI if and only if it did less work than its budget, and stays scheduled on the poll list otherwise. |
| Napi.HandlerSchedulesPoll | net/realtek/8139too.c:2195-2202 | A handler that saw an Rx source goes on to other work only with NAPI scheduled and Rx masked. |
| Napi.AcknowledgesExactly | net/realtek/8139too.c:2186-2215 | Rx sources are acknowledged only inside rtl8139_rx; of the others the handler acknowledges those it saw, TxErr last, and none that came up since. |
| Napi.HandlerLeavesAlone | net/realtek/8139too.c:2168-2178 | A shared interrupt that is not the chip's, or a chip that is gone, is left alone. |
| Napi.LockIsNeeded | net/realtek/8139too.c:2146-2149 | Without tp->lock in the poll routine there is a run that ends scheduled with Rx interrupts unmasked. |
| Eeprom.Chip.ReadEeprom | net/realtek/8139too.c:1159-1195 | Driven against a rising-edge part from any state of the lines, for every location and every part no wider than addr_len, the result is the sixteen bits the part sends from the superfluous address bits on, and the part is deselected. |
| Eeprom.RightWidthReadsTheWord | net/realtek/8139too.c:1159-1195 | With the part's own address width that is the stored word, for every location. |
| Eeprom.TooWideReadsShifted | net/realtek/8139too.c:1004-1004 | With two address bits too many it is the lower fourteen bits, moved up by two. |
| Eeprom.ProbeFindsTheWidth | net/realtek/8139too.c:1004-1004 | The probe read returns 0x8129 exactly when the part has eight address bits, given that word 0 holds it. |
| Mdio.ReadIsUnderstood | net/realtek/8139too.c:1245-1268 | The sixteen bits sent for a read are a clause 22 frame: the PHY at the address starts answering from the register, no other PHY does. |
| Mdio.WriteIsUnderstood | net/realtek/8139too.c:1287-1314 | The 32 bits sent for a write change exactly the register addressed. |
| Mdio.AnswerIsTheRegister | net/realtek/8139too.c:1270-1279 | Nineteen samples, shifted and masked, are the sixteen data bits, or all ones when no PHY answers. |
| Mdio.Config4.MdioRead | net/realtek/8139too.c:1240-1279 | mdio_read returns the register for every address and location, or 0xffff, and changes no register. |
| Mdio.Config4.MdioWrite | net/realtek/8139too.c:1282-1323 | mdio_write changes the register addressed and no other, and leaves the bus idle. |
| Mdio.Config4.Sync | net/realtek/8139too.c:1227-1237 | Thirty-three ones of preamble. |
| RxPump.Device.PullSkb | USB_Based_Ethernet/rtl8150.c:370-383 | The first buffer of the pool is taken out, or none if the pool is empty. |
| RxPump.Device.FillSkbPool | USB_Based_Ethernet/rtl8150.c:571-586 | Empty slots are filled from the front until an allocation fails. |
| RxPump.FilledIsNew | USB_Based_Ethernet/rtl8150.c:571-586 | Full slots stay, filled ones hold new buffers, all different. |
| RxPump.StepKeepsInv | USB_Based_Ethernet/rtl8150.c:385-458 | Each step of callback, tasklet, late clear and environment keeps the pump invariant. |
| RxPump.PumpKeepsGoing | USB_Based_Ethernet/rtl8150.c:443-457 | In every run the URB is never in flight and awaited by rx_fixup at once, and never neither while the device is attached. |
| RxPump.InFlightBufferIsPrivate | USB_Based_Ethernet/rtl8150.c:597-631 | The buffer under a URB in flight is rx_skb, not in the pool and not passed to netif_rx. |
| RxPump.PassedUpOnce | USB_Based_Ethernet/rtl8150.c:429-441 | No buffer is passed up twice or returns to the pool afterwards. |
| RxPump.EveryPacketIsPassedUp | USB_Based_Ethernet/rtl8150.c:424-433 | The buffers passed up are those under the URB at each whole packet received while the device was present, in that order. |
| RxPump.NoBufferOnlyWithoutMemory | USB_Based_Ethernet/rtl8150.c:602-611 | rx_fixup goes back to the tasklet list for want of a buffer only if the fill just before could not allocate one. |
| RxPump.FilledAsFarAsMemoryGoes | USB_Based_Ethernet/rtl8150.c:576-585 | As many buffers are allocated as slots are empty, or as memory allows. |
| RxPump.NoDeviceStopsThePump | USB_Based_Ethernet/rtl8150.c:446-447 | The pump stops exactly at a submission that finds no device, which it detaches, or at a completion on a detached one. |
| RxPump.LostExactlyWhenForgotten | USB_Based_Ethernet/rtl8150.c:606-614 | A step loses a buffer if and only if rx_fixup pulls a new one while rx_skb holds no packet. |
| RxPump.DoomedExactlyAfterErasure | USB_Based_Ethernet/rtl8150.c:448-457 | In every run, rx_fixup is about to do so if and only if, earlier in the run and with no loss since, a late clear of RX_URB_FAIL hit a failure that was already on its way to rx_fixup. |
| RxPump.NoErasureNoLoss | USB_Based_Ethernet/rtl8150.c:606-626 | A run without such a clear loses no buffer. |
| RxPump.ABufferCanGetLost | USB_Based_Ethernet/rtl8150.c:619-626 | Some run does so. |
| Keyboard.UsbKbd.UsbKbdEvent | keyboard/usbkbd.c:165-200 | The new fields, submission included, are those of the value-level protocol; other events are refused with -1. |
| Keyboard.UsbKbd.UsbKbdLed | keyboard/usbkbd.c:202-228 | The same for the completion handler. |
| Keyboard.FlightIsUndisturbed | keyboard/usbkbd.c:179-195 | While a LED URB is in flight its byte does not change and it is not submitted again; only its completion settles it. |
| Keyboard.IdleMeansUpToDate | keyboard/usbkbd.c:175-195 | With no URB pending the LED byte is the latest request once there was one; before that, if and only if the buffer happened to hold zero. |
| Keyboard.LastSentIsLatest | keyboard/usbkbd.c:165-228 | With none pending, the byte sent last is the latest request, or no byte was sent and the latest request is what the buffer first held; a byte sent always differs from the one before. |
| Keyboard.KeyboardShowsLatest | keyboard/usbkbd.c:165-228 | If every transfer reached the keyboard and none is pending, it shows the latest request, or received nothing at all. |
| Keyboard.KeyboardShowsLatestExactly | keyboard/usbkbd.c:202-228 | With transfers refused or failed, the keyboard shows the latest request if and only if the last transfer reached it, or the last one to reach it carried the same byte and at least two were lost since. |
| Keyboard.SingleLossExactly | keyboard/usbkbd.c:202-228 | While no two transfers in a row are lost, it does if and only if the last one reached it. |
| Keyboard.NothingSentOnlyForTheFirstByte | keyboard/usbkbd.c:184-187 | Nothing was ever submitted if and only if every request equalled the byte first found in the buffer. |
| Keyboard.NothingIsSentExactly | keyboard/usbkbd.c:184-187 | Over any stretch of a run that starts with no URB pending, nothing is sent if and only if every request asks for the byte in the buffer, whatever became of that byte; the keyboard then shows what it did. |
| Keyboard.RefusedRequestIsForgotten | keyboard/usbkbd.c:184-195 | After a refused submission the same request again submits nothing. |
| Keyboard.FailedTransferIsForgotten | keyboard/usbkbd.c:207-217 | A run in which the transfer fails, the driver is idle with nothing shown, and the same request again submits nothing. |
| Keyboard.SettingsOnTheWire | keyboard/usbkbd.c:175-177 | Two LED settings give the same byte if and only if they differ at most in which of KANA and COMPOSE is on. |
| Keyboard.LedBits | keyboard/usbkbd.c:175-177 | NUM LOCK, CAPS LOCK and SCROLL LOCK are bits 0, 1 and 2, and COMPOSE and KANA are bit 3. |
| Keyboard.UsbKbd.UsbKbdIrq | keyboard/usbkbd.c:112-163 | Modifiers and slots are reported as key codes in the driver's order; if the input core knew the keys of the old report, it knows those of the new one if and only if no key is dropped. An error changes nothing. |
| KeyReports.ReportShows | keyboard/usbkbd.c:126-150 | A report shows a key if one of the eight bits of byte 0 stands for a modifier with this key, or one of its six scan codes above 3 has it. |
| KeyReports.CoreIsRightExactly | keyboard/usbkbd.c:129-151 | For every table and every two reports, the keys the input core takes for pressed are those the new report shows if and only if each key it shows that is released is pressed again by the same or a later slot (for a modifier, by a later modifier or any slot). |
| KeyReports.RunIsRightExactly | keyboard/usbkbd.c:112-155 | The input core is right after every report of a run if and only if no report drops a key. |
| KeyReports.OneToOneDropsNothing | keyboard/usbkbd.c:132-151 | Where the table is one to one on the codes in use, no key is dropped. |
| KeyTables.SharedKeys | keyboard/usbkbd.c:47-64 | In the driver's table two scan codes share a key exactly within six pairs. |
| KeyTables.OnlyPairsDropKeys | keyboard/usbkbd.c:129-151 | With that table the input core is right unless both codes of a pair are in use, or a slot holds a modifier. |
| KeyTables.ReleasedWithItsTwin | keyboard/usbkbd.c:134-141 | Scan codes 0x31 and 0x32 held and 0x32 released: key 43 is up although the report shows 0x31. |
| KeyTables.PressedBeforeItsTwinIsReleased | keyboard/usbkbd.c:134-150 | 0x31 released in slot 3 and 0x32 pressed in slot 2: key 43 is up although the report shows 0x32. |
| Mixer.PutThenGet | Sound/es1938.c:1235-1267 | For every shift, mask and inversion whose shifted mask fits a byte, what was put is what is got, up to the mask. |
| Mixer.SameBitsSameValue | Sound/es1938.c:1266-1266 | The bits compared are equal if and only if the register shows the value put. |
| Mixer.SingleUnpacks | Sound/es1938.c:1213-1221 | Packing and unpacking private_value is the identity. |
| Mixer.DoubleUnpacks | Sound/es1938.c:1274-1282 | The same for double controls. |
| Mixer.FieldsUnpack | Sound/es1938.c:1213-1221 | The field a control was packed from is the one its callbacks unpack. |
| Mixer.ShownExactly | Sound/es1938.c:1246-1248 | The value shown is the field moved down, complemented within the mask when the control is inverted. |
| Mixer.Es1938.MixerBits | Sound/es1938.c:233-251 | The masked bits take the value, the others and all other registers stay, the old field is returned, written or not. |
| Mixer.Es1938.Bits | Sound/es1938.c:316-335 | The same through the command port of the controller, which ends ready for the next command. |
| Mixer.Es1938.PutSingle | Sound/es1938.c:1251-1267 | The register then shows the value, everything outside the field is as before, and a change is reported if and only if the field differed; so the same put again reports none. |
| Mixer.Es1938.GetSingle | Sound/es1938.c:1235-1250 | The value the register shows, with no register changed. |
| Mixer.Es1938.PutDouble | Sound/es1938.c:1336-1371 | Both fields show their values, on two registers or as disjoint fields of one, everything else is as before, and a change is reported if and only if one of them differed. |

## Left out

- AbortSafety.CancelDiscipline: the class-specific reset through device_reset and bus_reset, the GetMaxLUN scan message, suspend, and signals delivered to the control thread are not agents of the protocol; `dev_mutex` is not modelled.
- BulkTransport.UsData.InvokeTransport: only the Bulk transport. The CB and CBI transports, which ask for sense data on their own, are left out, and so is the midlayer's saving and restoring of a command around auto-sense.
- BulkTransport.UsData.RequestSense: what scsi_normalize_sense and scsi_sense_desc_find make of a sense buffer is an input; the SCSI core is not part of this model.
- BulkTransport.UsData.BuildCbw: tags are stored little-endian, so the model is that of a little-endian machine; the delay for slow devices has no effect on the state.
- QuirkParser.UsData.AdjustQuirks: strings are bytes without their terminator; simple_strtoul itself is stated by the kernel's rules.
- TxRing.Private.TxInterrupt: statistics are unbounded numbers; register writes that only acknowledge interrupts or restart an aborted transmission are left out, as are the transmit time-out and closing the device.
- RxRing.Private.Poll: that an acknowledge clears IntrStatus is left out, the status it reads being arbitrary; the bytes of a packet do not change while it is read, and the clock is a 32-bit word.
- RxRing.Private.RxErr: the restart sequence of the receiver is one event; the older sequence chosen at build time is left out.
- Napi.ScheduledExactlyWhenMasked: closing the device and the transmit time-out, which write the mask on their own, are excluded.
- Eeprom.Chip.ReadEeprom: read commands only; the driver sends no other. Bits sent after the sixteen of a word are arbitrary.
- Mdio.Config4.MdioRead: phy_id above 31, which means the internal registers of an 8139, is left out; so are frames broken off half-way.
- RxPump.PumpKeepsGoing: one open session; suspend, resume, close, unplugging and the failure of the interrupt URB in rtl8150_open are left out.
- Keyboard.UsbKbd.UsbKbdLed: the status of the URB, which is only logged, is not passed to it; disconnection, which kills the URB, is left out.
- Keyboard.UsbKbd.UsbKbdIrq: the input core is the set of key codes it takes for pressed; autorepeat and the order of events within a report are not observed.
- Mixer.Es1938.Bits: the chip is always ready, so the time-outs of the command port do not occur; registers named by the READREG command byte are excluded. A value is modelled by its low byte, which is all the mask lets through.
- Mixer: the get half of double controls at Sound/es1938.c:1311 lacks the declaration of left_reg and duplicates the name of the put half; it is left out.
- The twister tuning of the RTL8139, module and device bring-up, procfs and sysfs handlers, debug printing and device tables.
- The example drivers (character, ioctl, mmap, workqueue, input), the block driver's segment loop, the Bluetooth driver, and the annotated second copies of the network, keyboard and mouse drivers.
