# Aprilsh: state synchronization, scrollback, prediction and rendition

Aprilsh keeps a terminal session alive over an unreliable datagram network. This project models five
parts of it, each on its own specification, and proves what they are for:

* **The synchronization protocol.** Each endpoint numbers the states it sends, diffs against a guess
  of what the peer holds, and throws away what both sides know. One direction is a `Link`: a sender,
  the peer's receiver, and a network that may deliver anything ever sent any number of times, in any
  order, or never. Two links make a `World`. The classes `TransportSender`, `Transport` and
  `UserStream` do in place what the specification says on values.
* **Fragments.** Instructions are cut into datagrams and put together again on the other side.
* **The screen and its scrollback**, kept in one rotated array of cells.
* **Renditions**: printing them as SGR sequences and reading those back.
* **The prediction engine**: what a key predicts, what is shown of it, and what the terminal's text
  confirms or refutes, epoch by epoch.

The state a link carries is a list of events. A history variable (`sbase`, `rbase`) holds the prefix
each side has already subtracted, so that what the two sides hold can be compared; `hist` records
the whole stream a number stood for when it was first assigned. Of a fetch, `selected` collects the
events it picks and `given` those its returned message carries. A tick is enabled if the events it
sends survive the wire.

## What was found

* *Storing out of order loses a state.* Inserting a state before newer ones overwrites the slot that
  is copied next (network/transport.go:319-329). The run of `ExactlyOnceFailsAsWritten` delivers an
  event twice. `AsWrittenIff` says exactly which instructions are handled as the comments promise.
* *The reference is read after it may have moved.* The pointer taken at network/transport.go:273 goes
  into the slice that line 285 compacts in place (`StaleReference`). No disorder is needed: in the run
  of `ExactlyOnceFailsInOrder` nothing is lost, repeated or reordered, only the second acknowledgement
  is slow, and the second event is handed over twice.
* After an out-of-order insertion two slots also share one stream; the objects' `Valid` is then not
  promised.
* *An idle outage deadlocks a link.* network/sender.go:273-275 drops the sixteen oldest sent states, the
  acknowledged front among them, although the comment there speaks of the middle of the queue:
  after 32 lost empty acks nothing the sender says refers to a state the receiver holds
  (`IdleOutageDeadlocks`, `DeadlockedForGood`).
* *A keystroke after a resize discards what precedes it in the diff* (statesync/user.go:150-162).
  `RunesSurviveIff` and `EventsSurviveIff` say exactly when a diff carries everything,
  `UserStreamRemadeIff` what that means for the peer's copy.
* *So does the message a fetch returns*, which is the diff of all that was selected since the last
  fetch. That every tick's diff survives the wire and every delivery is clean is not enough: after two
  deliveries one fetch loses a resize (`OneFetchForTwo`, `ResizeGivenUp`). `FetchGivesIff` says when a
  fetch returns all it selects. The server fetches whenever the newest number has changed
  (frontend/server/server.go:1695-1704), and then nothing is lost: `GivenExactlyOnce`,
  `GivenNeverStuck`, `GivenWhenClean`, `GivenInTalk`.
* *Shrinking the screen can put the cursor above it* (terminal/emulator.go:164-168): all lost rows are
  counted, also those below the cursor. `ResizeKeepsGoodIff` gives the condition.
* *Scrolling between margins changes the history count* (terminal/framebuffer.go:264, 279) although no
  row enters or leaves the history (`ScrollUpRefinesInMargins`, `ScrollDownRefinesInMargins`).
* *Scrolling by more than the height of the region erases text outside it*: the count is not limited
  (terminal/handler.go:816-817, 828-829), so upward the rows above the top margin are erased and then
  the history's, downward those below the bottom margin (`OverscrollErases`).
* *A character typed into the bottom right corner is predicted blank*: the prediction made for it
  (frontend/overlay.go:1380-1408) is overwritten when the cursor wraps on the last row, which blanks
  the whole row (frontend/overlay.go:679-687). `CharacterInCorner`.
* *Normal intensity leaves faint text faint* (terminal/renditions.go:279-280). `FaintStays`.
* *Some renditions do not survive printing*: `SgrRoundTripIff` lists them. A control sequence with
  more than sixteen parameters is abandoned and the rest of it becomes text.

## Reading guide

`Prefixes`, `StateSync`, `Link` and `Runs` hold the protocol; `Rebasing`, `AsWritten`, `Overflow` and
`World` build on them, and `Timing` says what the clock decides; `UserStream`, `UserDiffs`, `Sender` and `Transport` are the instance and the
objects; `Handover` says what the program on the far side is given, and `InOrder` holds two runs in
which that is not what was pushed. `Fragments`, `Fragmenter`, `Assembly`, `Reassembly` and `Datagrams`
belong together, as do `Ring`, `Frame`, `Scroll`, `Lines`, `Delta`, `Terminal`, `Editing` (values)
with `Framebuffer` and `Emulator` (objects); `Renditions`, `SgrCodes`, `SgrPrinter`, `SgrParser`,
`SgrHandler`; and `Overlay`, `Cull`, `Prediction`, `Epochs`, `PredictionEngine`, of which `Typing` says
what a key predicts, `Showing` what is shown of it, and `Verdicts` what the terminal's text makes of
it.

Modelling choices:

* A tick reads the clock and the connection through a `Poll`; timeouts and deadlines are arbitrary.
* `wire` stands for encoding a diff and applying it at the peer. For user streams it is `Carried`.
* Numbers are those of a 64-bit counter; a run stops short of the number reserved for shutdown.
* The boolean attributes of a rendition are grouped in one value of their own.
* A copy within the cell storage reads its source before it writes, as Go's `copy` does.
* Rows that leave the screen are dropped from the predictions after the loop over the cells instead
  of during it; the slices share their cells, so the loop reaches the same ones.
* Overlay time stamps and the triggers that depend on them are arbitrary choices of the caller.

## Model

| member | source | states |
|---|---|---|
| `Runs.ExactlyOnce` | network/transport.go:108-120 | in every run with loss, duplication and reordering, the events the fetches selected are a prefix of what was pushed; after a fetch they are the whole stream of the newest state held |
| `Runs.Agreement` | network/transport.go:306-342 | every state the receiver holds is the stream its number was first assigned for, and so is every state the sender still has under that number |
| `Runs.HeldIsWhatWasSent` | network/transport.go:306-342 | a state held under the number of some tick's instruction is everything pushed before that tick, whatever happened since |
| `Runs.TickRecords` | network/sender.go:133-186 | whatever number a tick sends under, a new one or that of a resend, stands for everything pushed so far |
| `Runs.RecordedForGood` | network/sender.go:133-165 | what a sent number stands for never changes afterwards |
| `Runs.ReferenceSurvives` | network/sender.go:188-205 | without overflow the receiver still holds the sender's front state |
| `Runs.AcksAreTruthful` | network/sender.go:499-541 | every ack in flight names an accepted state no newer than the receiver's newest; without overflow an acknowledged shutdown was accepted and stands for everything pushed |
| `Runs.RunAdvances` | network/transport.go:339-345 | the receiver's newest number and its ack number never decrease, and history only grows |
| `Runs.NotStuckIff` | network/sender.go:76-95 | with all unacknowledged states timed out, delivering the next instruction brings the receiver up to date exactly if it holds the sender's front or lacked nothing |
| `Runs.NeverStuck` | network/sender.go:349-445 | from every reachable state without overflow one tick, its delivery and a fetch select everything pushed |
| `Runs.StepKeeps` | network/sender.go:349-496 | every step of sender, receiver and network keeps the link invariant |
| `Timing.OldNumIff` | network/sender.go:76-95 | an instruction refers to sent state i exactly if states 1 to i were all sent less than the round-trip timeout and 100 ms ago and state i+1, if any, was not |
| `Timing.SendsIff` | network/sender.go:349-445 | a tick sends exactly if there is a peer and an acknowledgement is due, or a send is due and something is new since the state so reached; it then sends what was pushed since |
| `Timing.QuietInFlight` | network/sender.go:76-95 | nothing is sent again while it may be on its way: nothing new, every unacknowledged state younger than timeout + 100 ms, no acknowledgement due |
| `Timing.LostIsSentAgain` | network/sender.go:76-95 | once an unacknowledged state is older, what is sent reaches back before it |
| `Timing.TickIsRecorded` | network/sender.go:133-205 | number, reference, acknowledgement, throwaway number and diff of an instruction, and what then is recorded under which number with which time, the sixteen oldest dropped from 33 states |
| `Timing.SilentTick` | network/sender.go:122-131 | a tick that sends nothing only cuts the front's events out of all states |
| `Timing.StoredWithRoom` | network/transport.go:287-304 | with at most 1024 states left a state is stored at any time |
| `Timing.QuenchedWhenFull` | network/transport.go:287-304 | with more, none before the quench time; at or after it one, and the quench time moves 15 seconds on |
| `Timing.OneIn15Seconds` | network/transport.go:287-304 | so a full receiver stores one state and for 15 seconds no other |
| `Links.SendKeeps` | network/sender.go:133-205 | sending keeps the invariant: the instruction carries exactly the events between the two streams it names |
| `Links.TickKeeps` | network/sender.go:349-445 | a tick keeps the invariant whatever it decides to do |
| `Links.AckKeeps` | network/sender.go:477-496 | an acknowledgment moves the front only to a state the receiver accepted |
| `Links.DeliverKeeps` | network/transport.go:259-345 | delivering anything ever sent keeps the invariant and never lowers the ack number |
| `Links.FetchKeeps` | network/transport.go:108-120 | fetching keeps the invariant |
| `Links.FetchKeepsReceiver` | network/transport.go:108-120 | after a fetch what was selected is the whole stream of the newest state |
| `Links.RebuildsRecorded` | network/transport.go:306-316 | the stream a delivered instruction rebuilds is the one its sender recorded under the new number |
| `Links.StoreKeeps` | network/transport.go:284-342 | throwing away and storing keep every state from the sender's front on |
| `Rebasing.RebasingPreservesDiffs` | network/sender.go:122-131 | on a chain of sent states, subtracting the front from all and last from itself leaves every diff unchanged, keeps the chain and empties only the front |
| `Rebasing.SentStatesFormChain` | network/sender.go:122-131 | in every run the sent states are prefixes of one another and of the current state |
| `Rebasing.RemadeIff` | network/transport.go:306-316 | the receiver remakes the whole stream exactly when the wire leaves the tick's events as they are |
| `Rebasing.UserStreamRemadeIff` | statesync/user.go:129-212 | over user streams exactly when no keystroke follows a resize, sizes fit 32 bits and the text regroups as typed |
| `AsWritten.AsWrittenIff` | network/transport.go:259-345 | the code does what its comments say exactly on clean instructions |
| `AsWritten.CleanRunIsRun` | network/transport.go:259-345 | runs of the code in which every delivery is clean are runs of the protocol |
| `AsWritten.ExactlyOnceWhenClean` | network/transport.go:224-345 | in such runs of the code what was selected is a prefix of what was pushed |
| `AsWritten.ExactlyOnceFailsAsWritten` | network/transport.go:318-329 | a state overtaken by a newer one and delivered late makes the code hand over an event twice |
| `AsWritten.StaleReference` | network/transport.go:267-285 | compaction moves the next state under the reference: the receiver ends with the events between the two stored twice, where the protocol's ends with the sender's stream |
| `InOrder.ExactlyOnceFailsInOrder` | network/transport.go:267-342 | a run without loss, duplication or reordering in which the code selects and gives the second event twice |
| `InOrder.OneFetchForTwo` | network/transport.go:108-120 | a clean run in which one fetch for two deliveries gives what the wire leaves of both events together |
| `InOrder.ResizeGivenUp` | statesync/user.go:150-162 | so a resize and a key that each survive the wire are given as the key alone |
| `Handovers.FetchGivesIff` | network/transport.go:108-120 | a fetch gives every rune and resize it selects exactly when no keystroke follows a resize among them and sizes fit 32 bits; the very same events if and only if the text also regroups as typed |
| `Handovers.DeliverySelects` | network/transport.go:259-345 | if everything was fetched before a delivery, a fetch after it selects nothing, or the end of the delivered diff |
| `Handovers.PromptLosesNothing` | frontend/server/server.go:1695-1704 | a program that fetches whenever a newer state has arrived never loses a rune or a resize of what it selects |
| `Handovers.GivenExactlyOnce` | frontend/server/server.go:1695-1704 | in every such run with loss, duplication and reordering, the runes and resizes the program was given are a prefix of those pushed |
| `Handovers.GivenWhenClean` | network/transport.go:224-345 | the same of the code as written while every delivery is clean |
| `Handovers.GivenNeverStuck` | frontend/server/server.go:1695-1704 | from every such state without overflow one tick, its delivery and a fetch complete what was pushed |
| `Handovers.GivenInTalk` | frontend/server/server.go:1695-1704 | the same between two endpoints: what the program at B was given is a prefix of what was typed at A |
| `Overflow.DeadlockedForGood` | network/sender.go:267-276 | once the receiver lacks every state the sender refers to, it never moves again |
| `Overflow.IdleOutageDeadlocks` | network/sender.go:167-186 | 32 lost empty acks in a row bring a link there |
| `Worlds.BothWays` | network/transport.go:224-345 | two endpoints that acknowledge each other through their instructions: in every conversation each side selects a prefix of what was typed at the other, and without overflow holds the state the other diffs against |
| `Worlds.TalkIsRun` | network/transport.go:224-345 | for the link from A to B every conversation is a run of that link alone, which pushes what is typed at A |
| `Worlds.TalkNeverStuck` | network/sender.go:349-445 | from every conversation without overflow one tick at A, its processing at B and a fetch there complete the selection of what was typed at A |
| `Worlds.LocalKeeps` | network/transport.go:224-345 | every step of one endpoint keeps both links' invariants and every ack an instruction carries in flight on the opposite link |
| `UserStreams.UserStream.PushBack` | statesync/user.go:74-77 | a keystroke is added at the end |
| `UserStreams.UserStream.PushBackResize` | statesync/user.go:79-82 | a resize is added at the end |
| `UserStreams.UserStream.Subtract` | statesync/user.go:107-125 | the leading events shared with the prefix are gone, also when it is the stream itself |
| `UserStreams.UserStream.DiffFrom` | statesync/user.go:129-179 | the message encodes the events after the common prefix |
| `UserStreams.UserStream.ApplyString` | statesync/user.go:188-212 | the events of the message are appended, each keystroke cut into graphemes |
| `UserStreams.UserStream.Equal` | statesync/user.go:215-220 | true exactly for equal event lists |
| `UserStreams.UserStream.Clone` | statesync/user.go:228-245 | a new stream with the same events |
| `UserDiffs.DiffCarries` | statesync/user.go:129-179 | a diff carries exactly the last run of keystrokes and the resizes after it, or all resizes when there is no keystroke |
| `UserDiffs.RunesSurviveIff` | statesync/user.go:129-212 | applying the diff rebuilds runes and resizes in order if and only if no keystroke follows a resize and sizes fit 32 bits |
| `UserDiffs.EventsSurviveIff` | statesync/user.go:129-212 | the very same events if and only if the text also regroups as typed |
| `UserDiffs.ResizesAreLost` | statesync/user.go:150-162 | a resize before a keystroke is lost |
| `TransportSenders.TransportSender.UpdateAssumedReceiverState` | network/sender.go:76-95 | the assumed state is the last of the run of recently sent states |
| `TransportSenders.TransportSender.RationalizeStates` | network/sender.go:122-131 | the front is subtracted from the current state and from every sent state, last from itself through the alias |
| `TransportSenders.TransportSender.SendToReceiver` | network/sender.go:133-165 | a resend renews the last state's time under its number, anything else is recorded under the next |
| `TransportSenders.TransportSender.SendEmptyAck` | network/sender.go:167-186 | the current state is recorded under the next number, or the shutdown number, with an empty diff |
| `TransportSenders.TransportSender.SendInFragments` | network/sender.go:188-205 | the instruction names the assumed state, the new number, the ack and the front as throwaway number |
| `TransportSenders.TransportSender.AddSentState` | network/sender.go:267-276 | a copy of the state is appended; beyond 32 the sixteen oldest go |
| `TransportSenders.TransportSender.Tick` | network/sender.go:349-445 | the sender's new value and what it sends are those of the specification's tick |
| `TransportSenders.TransportSender.ProcessAcknowledgmentThrough` | network/sender.go:477-496 | sent states below an acknowledged number that is still there are dropped |
| `TransportSenders.TransportSender.SetAckNum` | network/sender.go:499-501 | sets the number to acknowledge |
| `TransportSenders.KeepNumbered` | network/transport.go:75-85 | the loop that keeps the records numbered at least so |
| `Transports.Transport.ProcessThrowawayUntil` | network/transport.go:75-85 | the slice is compacted in place and the slots behind the survivors keep what they held |
| `Transports.Transport.ThrowAway` | network/transport.go:284-285 | what a pointer into the slice reads after compaction |
| `Transports.Transport.InsertNewState` | network/transport.go:318-339 | the loop that rebuilds the slice over its own slots, with the overwritten slot |
| `Transports.Transport.AddReceived` | network/transport.go:306-342 | the diff is applied to a copy of the reference; only a newest state is acknowledged |
| `Transports.Transport.StoreUnlessFull` | network/transport.go:287-342 | beyond 1024 states a new one is refused until the quench time, which is then renewed |
| `Transports.Transport.ProcessPayload` | network/transport.go:240-345 | version, acknowledgment, duplicate, reference, throwaway, queue limit and insertion as the code has them; on clean instructions the object stays valid |
| `Transports.Transport.GetRemoteDiff` | network/transport.go:108-120 | the diff since the last call, after which all states are rebased on the oldest |
| `Transports.InsertedValues` | network/transport.go:318-339 | inserting records and inserting values agree |
| `Fragments.ParseSerialize` | network/fragment.go:40-99 | a fragment survives the wire exactly if it was initialized and its number is below 0x8000 |
| `Fragments.SerializeParse` | network/fragment.go:40-99 | a datagram parses exactly if it has a header, and to the one fragment that serializes to it |
| `Fragments.WireFormat` | network/fragment.go:71-99 | the id in eight bytes, the number in two with the final flag on top, then the contents |
| `Fragments.CutParts` | network/fragment.go:240-267 | the fragments hold the payload in order, numbered in turn, full but for the last, which alone is final |
| `Fragments.CutCount` | network/fragment.go:240-267 | no more fragments than the payload needs |
| `Fragments.ReadBack` | network/fragment.go:48-53 | a number is read back from its big-endian bytes |
| `Fragments.WriteBack` | network/fragment.go:81-92 | bytes are written back from the number they spell |
| `Fragmenters.Fragmenter.constructor` | network/fragment.go:206-215 | the first call takes id 1, whatever it sends |
| `Fragmenters.Fragmenter.MakeFragments` | network/fragment.go:222-268 | a new id unless instruction and MTU repeat; the loop ends and returns the payload's cut |
| `Fragmenters.CutPayload` | network/fragment.go:240-267 | the loop cuts the payload into its fragments |
| `Fragmenters.SameIdIff` | network/fragment.go:222-238 | two calls share an id exactly when they and all calls between agree in instruction and MTU |
| `Assemblies.FragmentAssembly.HasFragment` | network/fragment.go:118-128 | the first fragment with the number, if there is one |
| `Assemblies.FragmentAssembly.AddFragment` | network/fragment.go:131-170 | another id starts afresh, a known number is skipped, a new one sorted in; complete when as many arrived as the final one announces |
| `Assemblies.FragmentAssembly.GetAssembly` | network/fragment.go:173-198 | decodes the concatenation; only then is everything but the id reset |
| `Assemblies.PlacedRising` | network/fragment.go:155-157 | sorting in a new number keeps the order and adds nothing else |
| `Reassembly.AddedKeeps` | network/fragment.go:131-170 | the fragments held are of one instruction, each once, in order, and the total is known exactly if the final one is there |
| `Reassembly.CompleteIff` | network/fragment.go:161-169 | complete exactly when every fragment is held, and then they are the instruction's in order |
| `Reassembly.OnlyWholePayloads` | network/fragment.go:131-198 | for any interleaving, duplication, loss and order: whatever is taken out under an id is that id's payload |
| `Reassembly.FreshComesOutIff` | network/fragment.go:131-170 | fed fragments of one fresh id, something comes out exactly when all have arrived |
| `Datagrams.EveryInstructionWasSent` | network/fragment.go:131-268 | every instruction taken out of any datagrams on the network was handed to the fragmenter under that id |
| `Datagrams.AllArrivedIsTakenOut` | network/fragment.go:131-268 | all datagrams of a call, in any order and with repetitions, give its instruction |
| `Ring.PhysicalRowInjective` | terminal/framebuffer.go:477-506 | no two rows of screen and history share storage |
| `Ring.AddressMap` | terminal/framebuffer.go:477-523 | every cell of screen and history lies in the storage, and distinct cells in distinct places |
| `Deltas.ApplyKeepsValid` | terminal/framebuffer.go:80-281 | every operation keeps the head within the margins, historyRows within saveLines and room for every row |
| `Deltas.RunKeepsAddressMap` | terminal/framebuffer.go:477-523 | the address map stays one-to-one in every run of writes, scrolls, margins, resizes and history drops |
| `Frames.EraseInRowAt` | terminal/framebuffer.go:220-228 | erasing changes exactly the cells of the range in the row of the storage, in the fields Reset2 sets |
| `Frames.MoveInRowAt` | terminal/framebuffer.go:231-240 | moving changes exactly the target range to the old source |
| `Frames.CopyRowAt` | terminal/framebuffer.go:243-252 | copying a row part changes exactly the target cells |
| `Frames.PutCellAt` | terminal/framebuffer.go:210-217 | a write changes one cell |
| `Frames.AddDamageCovers` | terminal/base.go:105-119 | adding a range to the damage loses none |
| `Frames.AddDamageLeast` | terminal/base.go:105-119 | and adds nothing outside the smallest range that holds both; an empty range is forgotten |
| `Scrolling.HeadUpIs` | terminal/framebuffer.go:255-263 | the head stays within the margins; for counts up to the region it has moved by the count around it |
| `Scrolling.ScrollUpRow` | terminal/framebuffer.go:255-266 | which old row each row shows after scrolling up |
| `Scrolling.ScrollDownRow` | terminal/framebuffer.go:269-281 | which old row each row shows after scrolling down |
| `Scrolling.UnwrappedAt` | terminal/framebuffer.go:600-610 | rearranging the storage changes no row |
| `Scrolling.MarginsMoveNothing` | terminal/framebuffer.go:139-160 | setting or resetting margins leaves every row of screen and history as it reads, whatever the old margins and rotation |
| `Scrolling.DropForgets` | terminal/framebuffer.go:133-137 | dropping the history leaves the screen as it reads and no row of the history |
| `Scrolling.ResizeAt` | terminal/framebuffer.go:80-130 | resizing keeps the whole history and what both sizes share; the rest is zero |
| `Lines.ScrollUpRefines` | terminal/handler.go:811-820 | SU without margins, by any count up to the storage: the top rows go to the history, truncated to the newest saveLines, blank rows come in at the bottom and, beyond the screen's height, end the history |
| `Lines.ScrollDownRefines` | terminal/handler.go:823-832 | SD without margins: blank rows at the top, bottom rows and newest history rows dropped |
| `Lines.ScrollUpRefinesInMargins` | terminal/handler.go:811-820 | SU between margins moves only those rows; the history count grows over stale rows |
| `Lines.ScrollDownRefinesInMargins` | terminal/handler.go:823-832 | SD between margins moves only those rows; the history count shrinks |
| `Lines.OverscrollErases` | terminal/handler.go:811-832 | SU and SD between margins by any count: a row outside them is erased exactly if the count reaches it, and otherwise kept |
| `Lines.InsertRowsRefines` | terminal/emulator.go:354-364 | inserting lines shifts the columns between the margins down and blanks the gap; every other cell is untouched |
| `Lines.DeleteRowsRefines` | terminal/emulator.go:368-376 | deleting lines shifts them up and blanks the bottom; every other cell is untouched |
| `Lines.DeleteUndoesInsert` | terminal/emulator.go:354-376 | deleting what was inserted restores every row not pushed out |
| `Deltas.ApplyStaysInSync` | terminal/framebuffer.go:179-281 | damage covers every difference to the copy, whatever is done short of a new size |
| `Deltas.DeltaCopyIsFullCopy` | terminal/framebuffer.go:179-196 | a delta copy equals a full copy up to the dirty flags after any run since the damage was reset |
| `Deltas.DeltaCopiedAt` | terminal/framebuffer.go:551-578 | a full copy shows the screen row by row; a delta copy changes only damaged cells that are shown wrongly, marks just those dirty and leaves none such |
| `Terminals.LinesKeepGood` | terminal/handler.go:764-780 | IL and DL keep emulator and frame in agreement |
| `Terminals.ScrollKeepsGood` | terminal/handler.go:811-832 | so do SU and SD, for every count that reaches no row outside the storage |
| `Terminals.IndexKeepsGood` | terminal/handler.go:433-525 | so do IND and RI |
| `Editing.InsertLinesAt` | terminal/handler.go:764-770 | IL cell by cell: with the cursor inside the margins and k = min(n, rows to the bottom margin), k blank rows at the cursor, the rows below k down, columns outside and the history kept |
| `Editing.DeleteLinesAt` | terminal/handler.go:774-780 | DL cell by cell: rows move up by k and blank rows come in at the bottom margin |
| `Editing.DeleteUndoesInsertLines` | terminal/handler.go:764-780 | DL after IL restores every cell but the rows pushed out at the bottom margin, which are blank |
| `Editing.OutsideNothing` | terminal/handler.go:764-780 | IL and DL with the cursor outside the margins change nothing |
| `Editing.LinesMoveCursor` | terminal/handler.go:764-780 | inside, the cursor goes to the start of its line in the region, and nothing beside text and cursor changes |
| `Editing.ScrollUpColumnsAt` | terminal/handler.go:811-820 | SU between left and right margins: rows of the region move up there, no history is made |
| `Editing.ScrollDownColumnsAt` | terminal/handler.go:823-832 | SD between left and right margins: rows of the region move down there |
| `Editing.ScrollUpRowsAt` | terminal/handler.go:811-820 | SU of whole rows: which old row each row of screen and history shows, which are blank, which are kept |
| `Editing.ScrollDownRowsAt` | terminal/handler.go:823-832 | SD of whole rows, likewise |
| `Editing.IndexMoves` | terminal/handler.go:433-443 | IND: one row down; at the bottom margin the text scrolls up by one instead; on the last row below the region nothing |
| `Editing.ReverseIndexMoves` | terminal/handler.go:517-525 | RI: one row up; at the top margin the text scrolls down by one instead; on the first row above the region nothing |
| `Editing.ReverseIndexUndoesIndex` | terminal/handler.go:433-525 | RI takes back IND while neither scrolls |
| `Editing.ReturnMoves` | terminal/handler.go:385-392 | CR: to the left margin, or from left of it to the first column unless in origin mode; nothing else changes |
| `Terminals.RegionMovesNoText` | terminal/handler.go:1860-1898 | DECSTBM moves the cursor, never the text, whatever its parameters |
| `Editing.RegionSet` | terminal/handler.go:1860-1898 | rows t-1 up to b scroll for legal t;b, the whole screen without parameters; anything else changes no margin |
| `Editing.RegionMovesCursor` | terminal/handler.go:1860-1898 | and the cursor goes to the corner of the screen, or of the region in origin mode |
| `Terminals.ResizeKeepsGoodIff` | terminal/emulator.go:151-198 | the cursor stays on the screen exactly if the screen does not shrink past it by more rows than are above it |
| `Terminals.ResizeLosesCursor` | terminal/emulator.go:164-168 | row 10 of 24, shrunk to 5 rows: the cursor is nine rows above the screen |
| `Editing.ResizeShows` | terminal/emulator.go:151-198 | a resize without a region shifts the text down the screen by the rows taken from the history, or up by those given to it; every cell there is room for is that far from where it was |
| `Editing.ResizeMoves` | terminal/emulator.go:151-198 | the cursor goes with the text and left with the right margin; no top and bottom margins; the others are cut to the new width, the left one to leave two columns |
| `Editing.PulledIn` | terminal/emulator.go:320-329 | a cursor beyond the right or bottom limit is put at the nearest place within |
| `Editing.ResizeKeepsCursorCell` | terminal/emulator.go:151-198 | the cursor moves with the text: what was under it still is, if it stays on the screen and its column is left |
| `Terminals.ResizeRoundTripIff` | terminal/emulator.go:151-198 | shrinking by k and growing back restores count and cursor row exactly if history + k fits; then every cell of screen and history too |
| `Framebuffers.Framebuffer.constructor` | terminal/framebuffer.go:49-78 | zero cells for all lines asked for, of which at most 50000 are used |
| `Framebuffers.Framebuffer.GetPhysicalRow` | terminal/framebuffer.go:477-506 | the row of the storage, from the fields |
| `Framebuffers.Framebuffer.SetCell` | terminal/framebuffer.go:210-217 | the write and its damage |
| `Framebuffers.Framebuffer.EraseRange` | terminal/framebuffer.go:526-531 | erases in place and adds the damage |
| `Framebuffers.Framebuffer.EraseInRow` | terminal/framebuffer.go:220-228 | erases within a row |
| `Framebuffers.Framebuffer.CopyCells` | terminal/framebuffer.go:534-543 | copies as if through a buffer and adds the damage |
| `Framebuffers.Framebuffer.MoveInRow` | terminal/framebuffer.go:231-240 | moves within a row |
| `Framebuffers.Framebuffer.CopyRow` | terminal/framebuffer.go:243-252 | copies between rows |
| `Framebuffers.Framebuffer.ScrollUp` | terminal/framebuffer.go:255-266 | turns the head step by step |
| `Framebuffers.Framebuffer.ScrollDown` | terminal/framebuffer.go:269-281 | turns it back |
| `Framebuffers.Framebuffer.CopyScreenTo` | terminal/framebuffer.go:97-103 | the loop over the screen's rows |
| `Framebuffers.Framebuffer.CopyHistoryTo` | terminal/framebuffer.go:104-113 | the loop over the history's rows |
| `Framebuffers.Framebuffer.UnwrapCellStorage` | terminal/framebuffer.go:602-610 | new storage in logical order, unless nothing is turned |
| `Framebuffers.Framebuffer.SetMargins` | terminal/framebuffer.go:139-146 | the new margins after unwrapping, all exposed |
| `Framebuffers.Framebuffer.ResetMargins` | terminal/framebuffer.go:149-160 | no margins after unwrapping, all exposed |
| `Framebuffers.Framebuffer.Resize` | terminal/framebuffer.go:80-130 | new storage of the new size |
| `Framebuffers.Framebuffer.DropScrollbackHistory` | terminal/framebuffer.go:133-137 | no history, all exposed |
| `Framebuffers.Framebuffer.FullCopyCells` | terminal/framebuffer.go:179-188 | the destination is the screen |
| `Framebuffers.Framebuffer.DamageDeltaCopy` | terminal/framebuffer.go:551-578 | exactly the damaged cells that differ are copied and marked dirty |
| `Framebuffers.Framebuffer.DeltaCopyCells` | terminal/framebuffer.go:190-196 | the destination is the specification's delta copy |
| `Emulators.Emulator.EraseRows` | terminal/emulator.go:341-345 | erases rows of the storage between the left and right margins |
| `Emulators.Emulator.InsertRows` | terminal/emulator.go:354-364 | the loops of insertRows |
| `Emulators.Emulator.DeleteRows` | terminal/emulator.go:368-376 | the loops of deleteRows |
| `Emulators.Emulator.HdlCsiIl` | terminal/handler.go:764-770 | IL at the cursor, at most to the bottom margin |
| `Emulators.Emulator.HdlCsiDl` | terminal/handler.go:774-780 | DL at the cursor, at most to the bottom margin |
| `Emulators.Emulator.HdlCsiSu` | terminal/handler.go:811-820 | SU by turning the storage, or by deleting rows between left and right margins |
| `Emulators.Emulator.HdlCsiSd` | terminal/handler.go:823-832 | SD likewise |
| `Emulators.Emulator.HdlEscInd` | terminal/handler.go:433-443 | index, scrolling at the bottom margin |
| `Emulators.Emulator.HdlEscRi` | terminal/handler.go:517-525 | reverse index, scrolling at the top margin |
| `Emulators.Emulator.HdlCsiDecstbm` | terminal/handler.go:1860-1898 | DECSTBM with all its cases |
| `Emulators.Emulator.HdlC0Cr` | terminal/handler.go:385-392 | carriage return |
| `Emulators.Emulator.NormalizeCursorPos` | terminal/emulator.go:320-329 | the cursor back within the right and bottom limits |
| `Emulators.Emulator.Resize` | terminal/emulator.go:151-198 | resize on the primary screen |
| `SgrPrinter.PartStep` | terminal/handler.go:1043-1177 | the handler takes exactly the parameters of each printed group and does what the group is for |
| `SgrPrinter.SgrEffects` | terminal/handler.go:1043-1177 | a printed list of groups has the effect of its groups in turn |
| `SgrPrinter.PartsEffect` | terminal/renditions.go:103-185 | the groups printed for a rendition rebuild it, up to underline consistency and link |
| `SgrPrinter.SgrOfParts` | terminal/renditions.go:251-260 | the leading 0 makes that so from any prior rendition |
| `SgrParser.DigitsParsed` | terminal/parser.go:232-241 | printed digits are read back as their number |
| `SgrParser.TokensParsed` | terminal/parser.go:232-255 | up to sixteen parameters are collected with their separators |
| `SgrParser.ReadAllAppends` | terminal/parser.go:242-247 | parameters and separators join those read before |
| `SgrParser.TooMany` | terminal/parser.go:248-252 | a seventeenth parameter ends the sequence without effect |
| `SgrParser.SgrFed` | terminal/parser.go:864-879 | feeding the printed text: the reread rendition with at most 16 parameters, else no change |
| `SgrParser.SgrRoundTripIff` | terminal/renditions.go:103-185 | the printed rendition is read back from every prior one exactly if underline and its style agree, no colour without underline, no link and at most 16 parameters |
| `SgrParser.FeedKeepsReadable` | terminal/handler.go:1043-1177 | whatever is fed, the rendition stays one that SGR can print |
| `SgrCodes.OneParameter` | terminal/renditions.go:251-318 | one parameter does what the table of its meaning says: 1 to 8 set and 22 to 28 clear exactly their attributes, 30 to 49 and 90 to 107 set colours, 59 restores the underline colour; every other field is kept, and all are for any other number |
| `SgrCodes.InTurn` | terminal/handler.go:1043-1177 | parameters that stand for themselves act in turn |
| `SgrCodes.OffUndoesOn` | terminal/renditions.go:251-318 | 22, 23, 24, 25, 27 and 28 undo 1, 3, 4, 5 and 6, 7 and 8 on a rendition that had the attribute off, up to the underline style after 24 |
| `SgrCodes.FaintStays` | terminal/renditions.go:251-318 | 22 leaves faint text faint |
| `SgrCodes.StyleSet` | terminal/handler.go:1043-1177 | 4:n underlines in style n, and 4:0 not at all |
| `SgrCodes.CutShort` | terminal/handler.go:1043-1177 | a colour without all its parameters or of an unknown kind, or an unknown underline style, ends the sequence without further effect |
| `SgrCodes.FedParameter` | terminal/handler.go:1043-1177 | feeding ESC [ n m to the parser does what n means |
| `SgrCodes.FedNothing` | terminal/handler.go:1043-1177 | feeding ESC [ m resets everything |
| `SgrCodes.FedOther` | terminal/parser.go:196-229 | plain text and other escape or control sequences change no rendition, and the latter are over with their final byte |
| `SgrCodes.ParamCountIs` | terminal/renditions.go:103-185 | how many parameters are printed: one for each attribute and for a colour of the first sixteen, three or five for another, up to two for an underline, three or six for its colour |
| `SgrHandler.HdlCsiSgr` | terminal/handler.go:1043-1177 | the loop with its moving index applies the parameters |
| `SgrHandler.SgrAt` | terminal/handler.go:1049-1175 | one turn of the switch |
| `SgrHandler.SetColorAt` | terminal/handler.go:1050-1074 | palette and RGB colours, and sequences cut short |
| `SgrHandler.Parser.SetState` | terminal/parser.go:215-229 | going back to normal clears the parameters |
| `SgrHandler.Parser.Begin` | terminal/parser.go:1691-1698 | ESC in the normal state |
| `SgrHandler.Parser.CollectNumericParameters` | terminal/parser.go:232-255 | digits and separators into the buffers |
| `SgrHandler.Parser.CopyArgs` | terminal/parser.go:281-289 | a copy of the parameters, none for a lone 0 |
| `SgrHandler.Parser.CopySeps` | terminal/parser.go:291-299 | a copy of the separators |
| `SgrHandler.Parser.HandleSgr` | terminal/parser.go:864-879 | the final byte of SGR |
| `Overlays.KillEpochKills` | frontend/overlay.go:710-738 | of a killed epoch and later ones nothing is left but the new cursor |
| `Overlays.KillEpochKeeps` | frontend/overlay.go:710-738 | killing an epoch makes no prediction older |
| `Culling.CullKeeps` | frontend/overlay.go:952-1158 | judging keeps all predictions within their epochs; both epochs only go forward, the confirmed one behind the current |
| `Culling.CullLeavesPending` | frontend/overlay.go:952-1158 | after judging every prediction left is pending |
| `Culling.WrongStops` | frontend/overlay.go:1044-1049 | a shown prediction found wrong ends the judging, whatever is judged before it |
| `Culling.WrongHidesAll` | frontend/overlay.go:1044-1049 | then all predictions are gone and the epoch is one nothing has confirmed |
| `Verdicts.TextConfirms` | frontend/overlay.go:320-358 | a due, known, non-blank prediction whose cell shows its text, which no remembered content did, confirms its epoch if nothing due disagrees with the terminal |
| `Verdicts.OnlyTextConfirms` | frontend/overlay.go:320-358 | no other does: blank, unknown or previously matching predictions confirm nothing |
| `Verdicts.RefutedEndsEpoch` | frontend/overlay.go:952-1158 | a due, known prediction whose cell shows other text ends its epoch: nothing of it or later is left but cursors where the terminal's is, and nothing at all if it was shown; a new epoch begins |
| `Verdicts.WrongCursorClearsAll` | frontend/overlay.go:1117-1158 | a last cursor that is not where the terminal's is when due takes all predictions with it |
| `Verdicts.OnlyDueAreJudged` | frontend/overlay.go:952-1158 | if nothing is refuted, of the predictions on the screen exactly the due ones are gone; the others wait as they were |
| `Verdicts.RestOfRowRerendered` | frontend/overlay.go:1068-1100 | what waits right of a confirmed cell takes on the renditions shown at the nearest one |
| `Predictions.HandleKeeps` | frontend/overlay.go:833-933 | typing adds no prediction at or below a bound that all predictions and the current epoch were above, none beyond the new current epoch, and confirms nothing |
| `Predictions.HandleKeepsReady` | frontend/overlay.go:833-933 | whatever is typed, sizes and cursors go on agreeing with the terminal: every predicted cursor is on the screen |
| `Predictions.CullIsReady` | frontend/overlay.go:957-962 | judging first makes sizes and cursors agree with the terminal |
| `Predictions.HandleLaid` | frontend/overlay.go:640-692 | the rows of predictions stay as wide as the terminal they were made for |
| `Typing.CharacterIsPredicted` | frontend/overlay.go:1303-1428 | a character typed before the last column is predicted where the cursor was, in the terminal's renditions and the current epoch; cells right of it take over their left neighbours' text, the last unknown, or stay with overwriting; the cursor is one column on |
| `Typing.CharacterAtEdge` | frontend/overlay.go:1303-1428 | in the last column it is predicted too, in the next epoch, and the cursor at the start of the next row in the one after |
| `Typing.CharacterInCorner` | frontend/overlay.go:674-692 | in the last column of the last row the whole row is predicted blank, the character with it |
| `Typing.NewlinePredicts` | frontend/overlay.go:674-692 | the cursor goes to the start of the next row; on the last row all of it is predicted blank |
| `Typing.ReturnPredicts` | frontend/overlay.go:833-933 | return does that in the next epoch |
| `Typing.ArrowMovesCursor` | frontend/overlay.go:833-933 | an arrow moves the predicted cursor by one column within the screen and predicts no text |
| `Typing.ControlEndsEpoch` | frontend/overlay.go:833-933 | a control character or sequence predicts nothing and ends the epoch |
| `Epochs.EpochsGoForward` | frontend/overlay.go:661-737 | in every run both epochs never decrease, confirmed <= current, and no prediction is of a later epoch |
| `Epochs.HiddenShowsNothing` | frontend/overlay.go:801-824 | with all epochs unconfirmed nothing is shown: no cell changes, no cursor moves |
| `Epochs.HiddenUntilConfirmed` | frontend/overlay.go:801-824 | and so it stays in every run until a newer epoch is confirmed |
| `Epochs.NothingShownAtFirst` | frontend/overlay.go:625-637 | so a new engine shows nothing before a first prediction was confirmed |
| `Epochs.OnlyPendingAreShown` | frontend/overlay.go:1510-1515 | in every run what is shown was judged first: only predictions that cannot be judged yet are |
| `Epochs.WrongStaysHidden` | frontend/overlay.go:952-1158 | once a shown cell is found wrong nothing is shown until a later judging confirms a newer epoch |
| `Showing.ApplyShows` | frontend/overlay.go:252-316 | applying shows over each cell its own prediction if its epoch is confirmed: the text, underlined if asked for and not already there; unknown ones underline at most; every other cell is kept |
| `Showing.ApplyMovesCursor` | frontend/overlay.go:133-144 | the cursor is at the last predicted one of a confirmed epoch, or where it was |
| `Showing.RunTidy` | frontend/overlay.go:640-658 | in every run no row has two lists of predictions and every cursor is active |
| `Showing.TypedIsShown` | frontend/overlay.go:1303-1428 | once its epoch is confirmed a typed character is shown where the cursor was |
| `Showing.ShownAtOnce` | frontend/overlay.go:801-933 | in a confirmed epoch a character is shown as soon as it is typed, with the cursor behind it |
| `Showing.EchoConfirms` | frontend/overlay.go:320-358 | a terminal that then shows it is never held against it, and confirms its epoch unless it is blank, was there before, or another is refuted |
| `Showing.FirstEchoConfirms` | frontend/overlay.go:952-1158 | nothing predicted, a character typed, the terminal answers with it: the epoch is confirmed and goes on |
| `Showing.NextIsShownAtOnce` | frontend/overlay.go:801-933 | and the next character typed is shown at once, with the cursor behind it |
| `PredictionEngines.PredictionEngine.constructor` | frontend/overlay.go:625-637 | epochs 1 and 0, no predictions |
| `PredictionEngines.PredictionEngine.GetOrMakeRow` | frontend/overlay.go:640-658 | the row with that number, made if need be |
| `PredictionEngines.PredictionEngine.BecomeTentative` | frontend/overlay.go:661-665 | the next epoch |
| `PredictionEngines.PredictionEngine.NewlineCarriageReturn` | frontend/overlay.go:674-692 | the cursor to the next row's start, or blanks on the last row |
| `PredictionEngines.PredictionEngine.KillEpoch` | frontend/overlay.go:710-738 | the loops of killEpoch |
| `PredictionEngines.PredictionEngine.InitCursor` | frontend/overlay.go:748-762 | a cursor of the current epoch |
| `PredictionEngines.PredictionEngine.Apply` | frontend/overlay.go:801-824 | the loops of apply |
| `PredictionEngines.PredictionEngine.NewUserInput` | frontend/overlay.go:833-933 | judging, then the key |
| `PredictionEngines.PredictionEngine.JudgeCell` | frontend/overlay.go:999-1114 | one turn of the switch over validities |
| `PredictionEngines.PredictionEngine.Cull` | frontend/overlay.go:952-1158 | the loops of cull, with the return when a shown prediction is wrong |
| `PredictionEngines.PredictionEngine.Reset` | frontend/overlay.go:1161-1166 | no predictions, next epoch |
| `PredictionEngines.PredictionEngine.TypeAtCursor` | frontend/overlay.go:1326-1408 | the insertion in reverse order, then the character |
| `PredictionEngines.PredictionEngine.HandleUserGrapheme` | frontend/overlay.go:1303-1428 | a control character only ends the epoch; any other is predicted and moves the cursor |

## Left out

- Sockets, port hopping, ECN, encryption, compression and protobuf encoding: an instruction is a value, and `encode`, `decode` and `wire` are parameters assumed lossless where a theorem needs it.
- The clock and the round-trip estimator: send and ack deadlines, timeouts and stamps are arbitrary.
- `attemptProspectiveResendOptimization`, shutdown retries and their timers.
- `Complete`, `Display.NewFrame` and the large-stream path.
- Wrap-around of state numbers past the shutdown number: runs stop short of it.
- The difference between a nil and an empty slice, and runes that are not valid Unicode.
- The diff function assumes a splitter whose pieces concatenate back to the text.
- Transports.Transport.ProcessPayload: takes the instruction instead of the datagram, and one time for its three readings of the clock; after an unclean instruction it promises the fields' values but not validity, because two slots may then share a stream.
- Runs.ExactlyOnce: speaks of the events selected; what a fetch then returns of them is the subject of `Handovers`.
- Runs.NeverStuck: assumes that the tick's events survive the wire and that the receiver's queue holds at most 1024 states.
- Worlds.TalkNeverStuck: likewise.
- Handovers.GivenExactlyOnce: fetching as soon as a newer state has arrived is an assumption about the program, which is not modelled itself.
- AsWritten.CodeRun: two slots that share one stream are two equal values, which is the same as long as the oldest state held has no events when a fetch rebases the others.
- Fragmenters.Fragmenter.MakeFragments: requires an MTU above the header, without which the loop does not end.
- A datagram shorter than a header: parsing gives none, and the caller then fails.
- Selection, paging (`viewOffset` is 0), fillCells, the alternate screen and tab stops.
- Emulators.Emulator.HdlCsiSu: counts that reach a row outside the storage in use.
- Emulators.Emulator.HdlCsiSd: likewise.
- Lines.OverscrollErases: counts by which a row of the storage would be erased twice.
- Emulators.Emulator.Resize: hyperlinks and cursor styles.
- Editing.ResizeShows: screens with a scrolling region of their own, of which `Scrolling.ResizeAt` and `Terminals.ResizeKeepsGoodIff` speak.
- Editing.ResizeKeepsCursorCell: likewise, and left and right margins, which `Editing.ResizeMoves` covers.
- SgrParser.Input: of the control sequences only SGR is known, and escape sequences other than CSI end without effect.
- The warning for an unknown attribute, and colour names.
- Experimental mode, wide characters, margins of the terminal, time stamps and glitch triggers in the prediction engine; with the preference Never nothing happens at all.
- PredictionEngines.PredictionEngine.Apply: whether predictions are shown at all and underlined is an argument, and the list of applied differences is not kept.
- PredictionEngines.PredictionEngine.NewUserInput: takes the parsed key, and characters are one column wide.
- PredictionEngines.PredictionEngine.TypeAtCursor: characters are one column wide.
- PredictionEngines.PredictionEngine.HandleUserGrapheme: likewise.
- Showing.NextIsShownAtOnce: starts from no predictions and an answer that moves along what was right of the cursor; `Showing.EchoConfirms` and `Showing.ShownAtOnce` have no such premise.
- PredictionEngines.PredictionEngine.JudgeCell: does not count glitches.
- PredictionEngines.PredictionEngine.Cull: does not update the round-trip, glitch and underline triggers.
