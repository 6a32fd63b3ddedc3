# A Dafny model of spangap-core

spangap-core is the firmware core for ESP32-class devices. This project models its
most intricate parts and proves what they promise:

- **The inter-task transport** (`its.cpp`). Tasks share a connection table, two buffer
  tables, mailboxes and packet links, guarded only by short critical sections, binary
  semaphores and atomics. `Handshake`, `Payload`, `PacketLink`, `StreamWake`,
  `LegacyFraming` and `Slots` are step machines: every lock region, atomic update, queue
  operation, semaphore operation and unlocked write is one step, and the theorems hold in
  every state of every interleaving. `SlotTables` holds the tables themselves as arrays
  updated in place and proves each critical section equal to the function the slot machine
  steps by. `Machine`, `StreamBuffers` and `Sums` are shared helpers.
- **The serial byte path and the line editor** (`cli.cpp`). `Sniffer` is the trigger
  sniffer stacked on the framed-RPC sniffer; `LineEditor` is the editor together with the
  terminal it draws on; `PathNormaliser` is the in-place path collapse.
- **Cron** (`cron.cpp`). `Cron` is the day-first search with its round guard and the poll
  that trusts a cached minute.
- **Rings and layout** (`log.cpp`, `pm.cpp`, `gen-partitions.py`, `fs.cpp`). `LogRing`,
  `PmStats`, `FlashLayout`, `WipeLoop` and `FactoryReset`, which puts the last two together.

Code that updates state in place is modelled by classes and loops (`SlotTables.Tables`,
`Sniffer.SerialConsole`, `LineEditor.Editor`, `Cron.Scheduler`, `LogRing.Ring`,
`PmStats.Stats`, `FlashLayout.Flash`, the methods of `PathNormaliser` and `WipeLoop`), each
method proved against a function or a property stated outright.

`dafny verify dfyconfig.toml` checks the whole project.

## What turned out to be false, and exactly when it holds

- Console transparency fails for some triggers that contain the lead byte of the RPC magic.
  It holds if and only if, wherever a partial trigger can break off into a fresh one, the
  part given back leaves no magic half matched (`Sniffer.TransparencyIffSeparable`; the
  trigger F5 00 is one that fails, `Sniffer.LeadByteTriggerBreaks`).
- The live counters are exact in every state of every run if and only if callers never pass
  a null pointer as an owned block; a task mailing itself one leaves the counter high for
  good (`Payload.ExactIffNoNullOwned`, `Payload.NullMailRun`, `Payload.SpoiltForGood`).
- The legacy size guard admits one length that can never be sent
  (`LegacyFraming.GuardGap`).
- The space reported for a packet link is not always what a non-blocking send accepts: on
  a link that is not idle it can exceed the message guard. A link's reports are exact if
  and only if its window is at most one byte wider than the guard
  (`PacketLink.ExactIffWindowFits`, `PacketLink.ReportsTooMuch`).
- A successful wait for space on a packet link does not always mean that much space: an idle
  link ends any wait, and the 32-bit addition can wrap (`PacketLink.WaitMeansSpace`,
  `PacketLink.IdleLinkEndsAnyWait`).
- A connection can be orphaned: exactly when its CANCEL found the inbox full
  (`Handshake.OrphansLostTheirCancel`, `Handshake.LostCancelOrphans`).
- A slot whose buffer cannot be created is never free again
  (`Slots.FailedSlotStaysInUse`); it is the only leak of a run in which no handle is freed
  under its builder (`Slots.LeaksAreFailures`).
- A control sequence with the 8-bit introducer is typed into the line
  (`LineEditor.EightBitSequence`).
- A path of 255 bytes or more collapses if and only if its first 255 bytes are not already
  normal, and then only those bytes count (`PathNormaliser.RoomToCollapse`).
- A cron search starting within 400 days of the end of the 32-bit minute range finds
  nothing. One whose horizon just fits finds every answer within it; without an answer it
  returns "never" if and only if it does not wrap, that is unless the field failing at the
  horizon runs past the range and a minute matches within the rounds left
  (`Cron.AnswerIsFound`, `Cron.NoAnswerIffNoWrap`, `Cron.LateSearchWraps`).
- An accepted flash layout is sound if and only if the fixed size given is not negative;
  the `reserved` row the generator documents is never emitted
  (`FlashLayout.AcceptedIsSoundIffFixedNotNegative`, `FlashLayout.Render`).
- A wipe reports success with a tail shorter than a sector left over exactly when the
  extent is not whole sectors. From a start off the sector grid, which only a pinned state
  region could have, it reports success after the first buffer boundary; all whole sectors
  are done if and only if the start is aligned or they all lie before that boundary
  (`WipeLoop.Wipe`, `WipeLoop.WholeExtentIff`).

## Model

| member | source | states |
|---|---|---|
| `Handshake.ReturnedHandleIsOurs` | esp-idf/src/its.cpp:1745-1805 | In every run, a handle returned by a connect is the one the server answered that very (client, nonce) with, never a rejection taken for a handle |
| `Handshake.RunAnswers` | esp-idf/src/its.cpp:1041-1126 | Every answer is a handle of the table or -1 |
| `Handshake.AnsweredClientCanReturn` | esp-idf/src/its.cpp:1122-1126 | No ack is lost to a stale token: a client still waiting on an answered connect finds a token, its own nonce and its own handle |
| `Handshake.WaitingClientIsServed` | esp-idf/src/its.cpp:1745-1805 | A waiting client's CONNECT is queued, being answered, or its ack is ready |
| `Handshake.CancelledStaysDead` | esp-idf/src/its.cpp:1128-1147 | Once a CANCEL was dispatched, no connection of its connect is live, then or later in the run |
| `Handshake.CancelSparesSuccesses` | esp-idf/src/its.cpp:1128-1147 | A CANCEL's connect did not succeed, and dispatching it frees no other connection and none that was returned |
| `Handshake.ReturnIsFinal` | esp-idf/src/its.cpp:1745-1805 | What a connect returned never changes |
| `Handshake.NoOrphans` | esp-idf/src/its.cpp:1128-1147 | Every live connection is awaited, was handed over, has its CANCEL queued, or lost its CANCEL to a full inbox |
| `Handshake.OrphansLostTheirCancel` | esp-idf/src/its.cpp:1745-1805 | The live connections nobody answers for are exactly those whose CANCEL was lost |
| `Handshake.LostCancelOrphans` | esp-idf/src/its.cpp:1745-1805 | A run that ends with everyone idle, nothing queued and such a connection live |
| `Handshake.OneConnectionPerConnect` | esp-idf/src/its.cpp:1041-1126 | At most one live connection per connect |
| `Handshake.RunInv` | esp-idf/src/its.cpp:1041-1146 | The handshake invariant holds in every state of every run |
| `Payload.CountersAreExact` | esp-idf/src/its.cpp:217-261 | In every run in which owned blocks are non-null, header and payload counters equal exactly what mailboxes, rings and tasks hold |
| `Payload.ExactIffNoNullOwned` | esp-idf/src/its.cpp:217-261 | Exactness in every state of every run is equivalent to callers never passing a null owned block |
| `Payload.NullMailRun` | esp-idf/src/its.cpp:256-261 | The run that spoils it: a null owned block mailed and dispatched, everything idle again and the counter at one |
| `Payload.SpoiltForGood` | esp-idf/src/its.cpp:256-261 | A payload counter that has read high reads high in every later state of the run |
| `Payload.CountersBalance` | esp-idf/src/its.cpp:217-261 | In any run the counters exceed what is held by the null blocks dropped, and by nothing else |
| `Payload.IdleMeansNoResidue` | esp-idf/src/its.cpp:519-582 | With everything idle and empty all four counters read zero, in every run in which owned blocks are non-null |
| `Payload.EachBlockOnce` | esp-idf/src/its.cpp:519-537 | Each stay of a block is in exactly one place or ended in exactly one way |
| `Payload.ExitsAreUnique` | esp-idf/src/its.cpp:371-392 | No block is freed, handed off or returned twice |
| `Payload.ReturnedOnlyOnFailure` | esp-idf/src/its.cpp:2034-2085 | Every block that went back to its caller in a run was the owned block of an enqueue that failed earlier in that run |
| `Payload.RunInv` | esp-idf/src/its.cpp:818-873 | The books balance for every measure in every state of every run of sends, dispatches, receives, hand-offs and teardowns, also when a message is received while its link is being torn down |
| `PacketLink.WordRoundTrip` | esp-idf/src/its.cpp:996-999 | A descriptor word survives its bytes |
| `PacketLink.DescRoundTrip` | esp-idf/src/its.cpp:996-999 | A descriptor survives the ring's bytes |
| `PacketLink.SlotFreeIff` | esp-idf/src/its.cpp:343-361 | Eight bytes of space in the byte ring mean exactly that fewer than depth descriptors are queued |
| `PacketLink.SendQueues` | esp-idf/src/its.cpp:996-1002 | Below depth, the send takes a whole descriptor and appends it |
| `PacketLink.ReceiveDequeues` | esp-idf/src/its.cpp:1007-1025 | The receive takes the oldest whole descriptor |
| `PacketLink.WindowIsExact` | esp-idf/src/its.cpp:996-1025 | The window equals queued plus charged-not-queued plus dequeued-not-credited bytes and never underflows |
| `PacketLink.WindowIsBounded` | esp-idf/src/its.cpp:950-964 | Over the cap only with a single message outstanding, and never above the larger of cap and message guard |
| `PacketLink.RingIsFifo` | esp-idf/src/its.cpp:996-1025 | The byte ring is a first-in-first-out queue of at most depth descriptors and the send in linkEnqueue never fails |
| `PacketLink.ParkedSenderWillWake` | esp-idf/src/its.cpp:968-991 | A parked task whose send, or wait for any number of bytes, would be admitted has a token or a receiver about to give one |
| `PacketLink.DrainedLinkWakesSender` | esp-idf/src/its.cpp:937-944 | A drained link never leaves its sender asleep, whatever it sends or waits for |
| `PacketLink.SendSpaceIsExact` | esp-idf/src/its.cpp:946-964 | For every length: the reported space admits it exactly when a non-blocking send accepts it, if and only if it is not above the message guard and within the open window of a link that is not idle; the report never understates |
| `PacketLink.ExactIffWindowFits` | esp-idf/src/its.cpp:946-955 | The reports of a link are exact in every state of every run if and only if its window is at most one byte wider than its message guard, or nothing can be sent |
| `PacketLink.ReportsTooMuch` | esp-idf/src/its.cpp:950-955 | A run that ends with 8182 bytes reported and a message of 2000 refused |
| `PacketLink.WaitMeansSpace` | esp-idf/src/its.cpp:2389-2392 | A wait that succeeds means that much space if and only if, on an idle link, it is within the message guard and, on another, the 32-bit addition does not wrap |
| `PacketLink.IdleLinkEndsAnyWait` | esp-idf/src/its.cpp:959-964 | An idle link ends a wait for any number of bytes, also more than it can take |
| `PacketLink.RunInv` | esp-idf/src/its.cpp:937-1025 | The link invariant holds in every state of every run |
| `StreamWake.ParkedSenderWillWake` | esp-idf/src/its.cpp:2389-2429 | A parked sender whose request would be met has a token or the receiver, run alone, gives one, in either order of its two reads and also when its threshold was cleared under it |
| `StreamWake.DrainedBufferWakesSender` | esp-idf/src/its.cpp:2108-2115 | With the buffer empty and the receiver done, a parked sender that asked for no more than the capacity has its token |
| `StreamWake.ClearedThresholdIsMadeGood` | esp-idf/src/its.cpp:2359-2387 | A threshold that is not the parked sender's own means a token is there or coming |
| `StreamWake.RunInv` | esp-idf/src/its.cpp:2359-2429 | The wake-up invariant holds in every state of every run |
| `LegacyFraming.HeaderRoundTrip` | esp-idf/src/its.cpp:2167-2203 | A length up to 24 bits survives the header |
| `LegacyFraming.WholePacketAtHead` | esp-idf/src/its.cpp:2243-2286 | More than a header available means the packet at the head is complete and its length is readable |
| `LegacyFraming.PacketsArriveInOrder` | esp-idf/src/its.cpp:2243-2286 | The k-th packet taken is the k-th sent, whole, or dropped whole because the caller's buffer is too small; boundaries are never lost |
| `LegacyFraming.AvailableMeansComplete` | esp-idf/src/its.cpp:2243-2286 | Between packets, more than four bytes available if and only if an undelivered packet is complete at the head |
| `LegacyFraming.GuardGap` | esp-idf/src/its.cpp:2167-2203 | A guarded packet can ever be sent if and only if it is strictly smaller, header included, than the buffer size |
| `LegacyFraming.RunInv` | esp-idf/src/its.cpp:2167-2286 | The framing invariant holds in every state of every run |
| `Slots.OneHolder` | esp-idf/src/its.cpp:456-511 | No slot has two holders among connections and tasks, and a held slot is in use |
| `Slots.ReleaseIsExclusive` | esp-idf/src/its.cpp:479-511 | A slot on a freeing task's list is in use and on no other task's list |
| `Slots.ReleasedOncePerClaim` | esp-idf/src/its.cpp:479-511 | Between two releases of a slot, by whichever racing tasks, it was claimed anew |
| `Slots.SecondFreeFindsNothing` | esp-idf/src/its.cpp:479-511 | The second free of a handle releases nothing, whatever happened in between short of a write into that record |
| `Slots.NeverStuck` | esp-idf/src/its.cpp:160-203 | A task that is creating, storing or releasing can always take its next step |
| `Slots.LeaksAreFailures` | esp-idf/src/its.cpp:92-158 | The slots in use that nobody holds are exactly those whose buffer creation failed or whose record was freed under its builder; without the latter, exactly the former |
| `Slots.FailedSlotStaysInUse` | esp-idf/src/its.cpp:137-157 | A slot whose buffer creation failed stays in use, held by nobody |
| `Slots.FirstInactive` | esp-idf/src/its.cpp:456-477 | The rotating search stops at the first inactive record and passes only active ones |
| `Slots.PoolClaim` | esp-idf/src/its.cpp:92-138 | A claim takes one fitting free entry and touches no other; the table is full exactly when none fits and it cannot grow |
| `Slots.LinkClaim` | esp-idf/src/its.cpp:305-341 | The same for descriptor rings, by depth |
| `Slots.RunInv` | esp-idf/src/its.cpp:456-511 | In every state every slot is in use exactly once over: by one holder, or lost |
| `SlotTables.Tables.ConnAlloc` | esp-idf/src/its.cpp:456-477 | Allocates the first inactive record at or after the counter and moves the counter behind it, or changes nothing |
| `SlotTables.Tables.ConnTake` | esp-idf/src/its.cpp:479-505 | Clears the record and returns its slots; an index outside the table is ignored |
| `SlotTables.Tables.PoolGet` | esp-idf/src/its.cpp:92-138 | The two scans and the append compute the pool claim in place |
| `SlotTables.Tables.PoolFree` | esp-idf/src/its.cpp:160-203 | A retained entry keeps its buffer, another loses it, a bad index is ignored |
| `SlotTables.Tables.LinkAcquire` | esp-idf/src/its.cpp:305-341 | The two scans and the append compute the link claim in place |
| `SlotTables.Tables.LinkFree` | esp-idf/src/its.cpp:375-392 | The slot is free again, a bad index is ignored |
| `Sniffer.TransparencyIffSeparable` | esp-idf/src/cli.cpp:2510-2530 | For all bytes, timeouts and refused attaches, console output plus bytes withheld equals the input while no frame opens and no handler attaches, if and only if the trigger is separable |
| `Sniffer.NoLeadByteIsSeparable` | esp-idf/src/cli.cpp:2502-2509 | Every trigger without 0xF5 is separable |
| `Sniffer.BreaksTransparency` | esp-idf/src/cli.cpp:2522-2528 | The input that reorders bytes for a trigger that is not separable |
| `Sniffer.LeadByteTriggerBreaks` | esp-idf/src/cli.cpp:2522-2528 | A trigger that is not separable, and not transparent |
| `Sniffer.QuietRun` | esp-idf/src/cli.cpp:2416-2438 | For a separable trigger the two sniffers never both withhold bytes, and nothing is lost or reordered at any point |
| `Sniffer.FrameDecodes` | esp-idf/src/cli.cpp:2440-2479 | Every frame up to 65535 bytes decodes to its id and payload and none of it reaches the console; without room it is swallowed whole |
| `Sniffer.MixedStreamDecodes` | esp-idf/src/cli.cpp:2416-2479 | Any mix of text and frames yields the answers in order and the console exactly the text |
| `Sniffer.ClaimedStreamDecodes` | esp-idf/src/cli.cpp:2502-2530 | For any trigger without 0xF5 and every attach refused, any mix of text and frames yields the same answers, and the console plus the partial trigger withheld is exactly the text |
| `Sniffer.UnclaimedRun` | esp-idf/src/cli.cpp:2498-2501 | Without a claim the whole path is the RPC sniffer |
| `Sniffer.SerialConsole.Feed` | esp-idf/src/cli.cpp:2416-2479 | The frame machine, field by field, computes the byte's effect |
| `Sniffer.SerialConsole.Trigger` | esp-idf/src/cli.cpp:2510-2528 | The trigger sniffer with its replays computes the byte's effect |
| `Sniffer.SerialConsole.Handle` | esp-idf/src/cli.cpp:2510-2530 | One console byte through both sniffers |
| `Sniffer.SerialConsole.CheckTimeout` | esp-idf/src/cli.cpp:2483-2490 | An expired assembly gives back the matched part of the magic |
| `LineEditor.MoveArrives` | esp-idf/src/cli.cpp:594-605 | The relative row move and absolute column end on the target cell across any wrapped rows |
| `LineEditor.RedrawShows` | esp-idf/src/cli.cpp:610-615 | A redraw leaves prompt and line on the screen, blanks after, and the cursor in place |
| `LineEditor.AppendIsRedraw` | esp-idf/src/cli.cpp:1054-1063 | The append fast path draws what a full redraw would |
| `LineEditor.BackspaceUndoesTyping` | esp-idf/src/cli.cpp:1036-1066 | Backspace restores the line and cursor from before a typed character |
| `LineEditor.BrowsingReturns` | esp-idf/src/cli.cpp:860-884 | n steps up the history and n down return to the line being typed |
| `LineEditor.ControlSequenceIsAKey` | esp-idf/src/cli.cpp:914-947 | A well-formed 7-bit control sequence has exactly the effect of its final byte and first number |
| `LineEditor.ApplicationKeyIsAKey` | esp-idf/src/cli.cpp:942-946 | So has ESC O and one byte |
| `LineEditor.EscKeyTypesNothing` | esp-idf/src/cli.cpp:850-912 | A decoded key can delete one character or bring in a history or saved line, never add text of its own |
| `LineEditor.EightBitSequence` | esp-idf/src/cli.cpp:1049-1053 | The 8-bit introducer is typed exactly when the line has room, else the sequence is dropped whole |
| `LineEditor.Editor.Char` | esp-idf/src/cli.cpp:914-1068 | Every byte has its meaning for the line, and screen and cursors agree whenever a prompt is on the screen afterwards; only Enter and ^D can leave none, exactly when stated |
| `LineEditor.Editor.Enter` | esp-idf/src/cli.cpp:973-1035 | Enter takes and clears the line and redraws the prompt exactly when the session goes on |
| `LineEditor.Editor.Escape` | esp-idf/src/cli.cpp:850-912 | So does every decoded key |
| `LineEditor.Editor.Refresh` | esp-idf/src/cli.cpp:610-615 | From any cursor position the redraw restores agreement |
| `LineEditor.Editor.Replace` | esp-idf/src/cli.cpp:713-726 | Replacing the line keeps agreement |
| `LineEditor.Editor.TabComplete` | esp-idf/src/cli.cpp:823-833 | Inserting a completion keeps agreement |
| `PathNormaliser.Collapse` | esp-idf/src/cli.cpp:263-300 | Succeeds exactly on an absolute path with room whose normal form fits, and then the buffer holds the fold of its components over a stack; otherwise the buffer is unchanged |
| `PathNormaliser.RoomToCollapse` | esp-idf/src/cli.cpp:266-267 | Under 255 bytes there is always room; from 255 on, exactly when the first 255 bytes are not already normal |
| `PathNormaliser.NeverGrows` | esp-idf/src/cli.cpp:263-300 | The normal form is no longer than the path |
| `PathNormaliser.Idempotent` | esp-idf/src/cli.cpp:263-300 | Normalising twice is normalising once |
| `PathNormaliser.SameLengthIffNormal` | esp-idf/src/cli.cpp:263-300 | A path keeps its length if and only if it is its own normal form |
| `PathNormaliser.Pop` | esp-idf/src/cli.cpp:280-287 | Backing up over the output removes exactly the last component, never above root |
| `Cron.NextRun` | esp-idf/src/cron.cpp:200-227 | For every 32-bit start: the first matching minute within 400 days; failing that never, or the wrapped minute where the search left the 32-bit range. The guard of 1000 rounds cuts no answer off |
| `Cron.AnswerIsFound` | esp-idf/src/cron.cpp:195-227 | If any minute within the horizon matches, the first of them is returned |
| `Cron.NoAnswerIffNoWrap` | esp-idf/src/cron.cpp:205-226 | If none does, the result is never if and only if the search does not wrap |
| `Cron.LateSearchWraps` | esp-idf/src/cron.cpp:205-226 | A start and an entry for which it does |
| `Cron.EarlyStartsNeverWrap` | esp-idf/src/cron.cpp:205-206 | No search wraps that starts 401 days before the end of the range |
| `Cron.EarlyIsTrusted` | esp-idf/src/cron.cpp:273-326 | Until 401 days before the end of the range no entry's search wraps, so the theorems about runs of polls apply |
| `Cron.FirstIsFirst` | esp-idf/src/cron.cpp:195-200 | The first match is in range and matches, and no earlier minute does; nowhere means none |
| `Cron.AdvanceSkipsNothing` | esp-idf/src/cron.cpp:212-222 | A day, hour or minute step passes over no matching minute |
| `Cron.AdvanceRules` | esp-idf/src/cron.cpp:207-222 | Each round raises the bound on rounds taken, which is how the guard is shown sufficient |
| `Cron.NextOfIsLeast` | esp-idf/src/cron.cpp:233-248 | The cached minutes are minima over the entries that count |
| `Cron.EarlyReturnAgrees` | esp-idf/src/cron.cpp:287-290 | The early return on the cached minute happens exactly when no entry is due |
| `Cron.DueExactly` | esp-idf/src/cron.cpp:306-309 | Due means some minute of the window matches, or the search wrapped to a minute not after now |
| `Cron.DueIffWindowMatches` | esp-idf/src/cron.cpp:306-309 | Where no search wraps, due means exactly that some minute of the window matches |
| `Cron.ServedExactlyOnce` | esp-idf/src/cron.cpp:273-326 | A matching minute falls into exactly one poll's window, and that poll queues the entry if and only if its flags allow |
| `Cron.QueuedHasItsMinute` | esp-idf/src/cron.cpp:306-320 | A queued entry matches in its own poll's window |
| `Cron.NothingPending` | esp-idf/src/cron.cpp:287-290 | Up to the latest poll no matching minute is left unserved |
| `Cron.Scheduler.ComputeNext` | esp-idf/src/cron.cpp:233-248 | The loop computes both minima, bad lines passed over |
| `Cron.Scheduler.Poll` | esp-idf/src/cron.cpp:273-326 | A sane poll queues exactly the due and allowed lines in order, moves the anchor and keeps the cache true; an insane one re-anchors |
| `LogRing.Ring.Write` | esp-idf/src/log.cpp:71-82 | Appends what fits and counts the rest, across the 32-bit wrap |
| `LogRing.Ring.Read` | esp-idf/src/log.cpp:84-93 | Removes and returns the oldest bytes, across the 32-bit wrap |
| `LogRing.ReadsAreFifo` | esp-idf/src/log.cpp:71-93 | With locked writers and the unlocked reader interleaved byte by byte, reads return the accepted bytes in order |
| `LogRing.FillIsBounded` | esp-idf/src/log.cpp:73-74 | The 32-bit difference of head and tail is the number of bytes waiting, at most 8192 |
| `LogRing.OfferedIsAcceptedPlusDropped` | esp-idf/src/log.cpp:75 | Offered is accepted plus refused; modulo 2^32 the refused bytes are those the drain reported and those still on the counter |
| `LogRing.Ring.TakeDropped` | esp-idf/src/log.cpp:1158-1161 | The drain reads the dropped counter and starts it over, the contents untouched |
| `LogRing.RefusesOnlyOverflow` | esp-idf/src/log.cpp:74-75 | A write refuses bytes exactly when it exceeds the room, and takes a prefix |
| `LogRing.RunInv` | esp-idf/src/log.cpp:71-93 | The ring invariant holds in every state of every run, from any starting counter value |
| `PmStats.Stats.Append` | esp-idf/src/pm.cpp:763-772 | The ring holds the newest samples for every capacity and fill |
| `PmStats.Stats.History` | esp-idf/src/pm.cpp:922-930 | Returns the newest samples, oldest first |
| `PmStats.Stats.AvgOver` | esp-idf/src/pm.cpp:1004-1023 | The average over the last min(count, window) samples |
| `PmStats.Stats.AvgSet` | esp-idf/src/pm.cpp:1027-1047 | Each window of the one backward pass is the average over its own last samples |
| `PmStats.Stats.WindowsAgree` | esp-idf/src/pm.cpp:1004-1047 | For every window, capacity and fill the one pass and the single-window average return the same average |
| `PmStats.AverageIsNearest` | esp-idf/src/pm.cpp:991-1002 | For any samples no average wraps its byte, each is its own mode's mean rounded to the nearest, and the current estimate is that of the averages to within half a tenth of a mA |
| `PmStats.ResidenciesAddUp` | esp-idf/src/pm.cpp:991-1002 | When every sample is sound, the four averaged residencies of a non-empty window sum to between 99 and 102 |
| `FlashLayout.Render` | esp-idf/scripts/gen-partitions.py:75-142 | Refuses for the stated reasons only and otherwise yields the table, never with a reserved row |
| `FlashLayout.FixedReachesFloor` | esp-idf/scripts/gen-partitions.py:104-112 | The fixed row always ends exactly at the floor |
| `FlashLayout.AcceptedIsSoundIffFixedNotNegative` | esp-idf/scripts/gen-partitions.py:75-142 | Accepted rows are positive, aligned, ordered, disjoint and topped at the floor if and only if the fixed size is not negative |
| `FlashLayout.NegativeFixedIsAccepted` | esp-idf/scripts/gen-partitions.py:108-122 | An accepted tuple whose layout is not sound |
| `FlashLayout.Flash.EnsureState` | esp-idf/src/fs.cpp:1308-1383 | Floor, chip size and state region from any table, pinned or not |
| `FlashLayout.Flash.WipeExtent` | esp-idf/src/fs.cpp:1392-1425 | The pinned state, or everything from the last firmware row to the top of the chip |
| `FlashLayout.StateMeetsNoRow` | esp-idf/src/fs.cpp:1322-1380 | The runtime state region meets no row of any addressable table |
| `FlashLayout.WipeSparesFirmware` | esp-idf/src/fs.cpp:1399-1421 | Without a pinned state, the wipe touches no firmware row of any addressable table |
| `FlashLayout.Flash.ExtentAfterBoot` | esp-idf/src/fs.cpp:1322-1425 | Boot, then the extent, on any table: firmware is spared without a pinned state; with one, a row is spared if and only if the table keeps the two apart |
| `FlashLayout.PinnedOverlapIsWiped` | esp-idf/src/fs.cpp:1394-1398 | A table whose pinned state lies inside a firmware row |
| `FlashLayout.Flash.BootThenWipe` | esp-idf/src/fs.cpp:1322-1425 | Boot and reset run on a generated table and a larger chip: the state region runs from the builder's floor to the chip's end and the wipe extent is exactly it |
| `FlashLayout.StateMeetsNoGeneratedRow` | esp-idf/src/fs.cpp:1322-1380 | That region meets no row of the generated table |
| `WipeLoop.AllocateBuffer` | esp-idf/src/fs.cpp:1446-1454 | The largest of 64, 16 and 4 KB the allocator can give |
| `WipeLoop.ChunkIsWholeSectors` | esp-idf/src/fs.cpp:1471-1475 | Every chunk is whole sectors within buffer and extent; on the sector grid it is empty exactly when less than a sector is left |
| `WipeLoop.Wipe` | esp-idf/src/fs.cpp:1463-1489 | From any start, the bytes done are a prefix at every point; success ends exactly at the halt, for an aligned start all whole sectors; failure leaves at most one chunk half done |
| `WipeLoop.WholeExtentIff` | esp-idf/src/fs.cpp:1471-1475 | The halt covers all whole sectors if and only if the start is aligned or they lie before the first buffer boundary |
| `WipeLoop.UnalignedSectorBufferWipesNothing` | esp-idf/src/fs.cpp:1471-1475 | With a one-sector buffer and an unaligned start the halt is the start: nothing is wiped, though no operation failed |
| `WipeLoop.CoveredOnce` | esp-idf/src/fs.cpp:1463-1489 | Every byte done was erased once and written once, and no other byte was |
| `WipeLoop.AscendingOrder` | esp-idf/src/fs.cpp:1466-1471 | After every chunk what is done is again a prefix, so the order is ascending |
| `FactoryReset.WipeFlashState` | esp-idf/src/fs.cpp:1427-1489 | The whole reset of an extent: nothing outside it is touched, failure or not; from an aligned start success means every whole sector erased and written once; without errors and with a buffer it succeeds |
| `FactoryReset.ResetGenerated` | esp-idf/src/fs.cpp:1322-1489 | Generated table, boot and reset: no byte below the builder's floor is ever erased or written, and on a chip of whole sectors success means every byte above it was erased once and written once |

## Left out

Assumptions and abstractions of what is modelled:

- The transport's protocols are step machines over values, not classes: aliasing between tasks and memory ordering weaker than sequential consistency are not captured. `SlotTables` alone is updated in place.
- Handshake: one server task acks a client at a time, and nonces are unbounded, so their 32-bit wrap is not modelled; on-demand spawn, forwarding and task death are not part of it.
- Handle reuse after a disconnect: handles carry no generation number, so nothing is claimed about a stale disconnect meeting a newer connection.
- Payload: no send is in progress on a link being freed and links are not reset while in use (itsReset is not modelled). Receives and hand-offs on a link being freed are part of the runs.
- PacketLink, StreamWake and LegacyFraming: one sender and one receiver per direction on a connection that stays up; teardown wake-ups are not modelled. A packet link's byte cap and message guard are below 2 GB, so that a send's 32-bit additions do not wrap.
- Slots: a record never allocated is freed by nobody, since every caller first finds the connection active; poolRetainOnFree, reference fields and callbacks of the record are not modelled.
- Stream buffers are bounded byte queues, semaphores hold one token, timeouts are nondeterministic steps.
- Sniffer: the claim is fixed during a run, the allocator gives one answer per arriving byte, and running a command and the console's own behaviour are outside; the assembly deadline is a parameter.
- LineEditor.Editor.Char: a prompt redrawn after a command is taken to start a row, as command output ends with a newline; whether the command ends the session is a parameter, and what is on the screen once no prompt is there is not described.
- LineEditor: bytes are unsigned as on the target; deferred autowrap, wide characters, scrolling of the prompt's row off the screen and colours are not modelled; which completion a tab finds is a parameter.
- Cron: a fixed offset replaces local time and daylight saving; the field syntax (cronMatchField, cronParse) is abstracted to predicates; the tab does not change during a run; a poll with an insane anchor deliberately drops its window and is described only by its re-anchoring. The theorems about runs of polls need searches that do not wrap, which all are until 401 days before the end of the range.
- FlashLayout: the boot code runs in 32-bit arithmetic on any table; that its regions meet no row is stated for tables whose rows end at least a sector below the top of the 32-bit space. The generator's text output is not modelled.
- WipeLoop and FactoryReset: an extent ends within the 32-bit space; the random fill and progress reports are not modelled; flash operations answer by offset.
- PmStats: the sums fit a long, as at most 3600 samples are kept.

Parts of the repository not modelled:

- storage, targz and usb_ports: their behaviour is not modelled.
- itsServerForward, itsReset, task death and on-demand spawn: they move ownership outside the protocols above.
- auth cookies and passwords, detect_probe, spi_helper, random, miniz_host, the USB and sleep code, SD and LittleFS mounting: hardware or thin wrappers.
- CLI commands, log formatting, build-info scripts, the service registry and the timezone search: they would only add easy members.
