# Tea: a verified model of its protocols and core algorithms

Tea is an agent runtime. This project models the parts of it whose correctness is hard to see from
the code, and proves what they are for. The modules import only each
other; `dafny verify dfyconfig.toml` checks all of them.

| area | modules |
|---|---|
| terminal handoff between a relay and a chain of runtimes | `Frames`, `RemoteLink`, `LinkProtocol`, `Handoff`, `HandoffEvents`, `HandoffExactly` |
| incremental terminal input decoding | `InputDecoder`, `KeyCodes`, `Chunking`, `ChunkingExactly`, `EscapeTimer`, `Utf8` |
| hand-written futures: effect gate, cancellation token | `EffectGate`, `Cancellation` |
| context compaction: configuration, validation, rewrite, transaction, request port | `Transcript`, `ConfigurationDiff`, `TranscriptValidity`, `Preservation`, `Commit`, `RequestPort` |
| prompt-cache warming | `CacheWarmer`, `WarmerRuns` |
| prompt-cache continuity | `PromptLayout` |
| JSON Schema subset | `Schema`, `SchemaFailures`, `SchemaValidation`, `NumberBounds` |
| bounded projection of tool results | `Projection`, `ProjectionContents`, `Utf8` |
| display-width wrapping | `Wrapping`, `StyledWrapping` |
| calendar arithmetic | `Calendar` |
| evaluation wave scheduler | `Wave` |

Objects that the source mutates are classes whose methods are proved equal to a step function on
the object's value. Protocols are state machines whose steps are those functions, one step for each
lock-protected section; theorems are about every sequence of steps. In the cancellation token, whose
flag is swapped outside the lock, the tests of the flag and the locked sections are separate steps.

Where the code does not do what its documentation or a first reading suggests, the model follows the
code, the exact condition is proved, and a concrete failing case is given:

- An unfinished bracketed paste falls through to key decoding, so a chunk boundary inside a paste
  changes the events (`Chunking.ChunkingMattersOnlyInPastes`, `Chunking.TornPasteExample`; for streams
  that end inside a paste as well, `ChunkingExactly.ChunkingExactly`).
- An Alt key, and an event decoded in paste mode, leave the escape timer set. A lone escape is held if
  and only if neither has left an expired timer behind (`EscapeTimer.LoneEscapeIsHeld`; both kinds:
  `EscapeTimer.AltLeavesTimer`, `EscapeTimer.PasteLeavesTimer`).
- A reader thread that reads the generation late detaches the next terminal
  (`LinkProtocol.LateReaderDetachesSuccessor`, `LinkProtocol.SuccessorCanBeDetached`).
- A handoff loses input exactly when more than 64 KiB was unconsumed
  (`Handoff.HandoffConservesInput`, `Handoff.FullWindowLosesInput`).
- A handoff conserves bytes but not paste mode: over a chain the events are those of the whole stream
  if and only if no runtime tears a paste and none hands off inside one
  (`HandoffEvents.ChainKeepsEvents`, `HandoffEvents.PasteIsHandedOff`; for any stream,
  `HandoffExactly.ChainExactly`).
- The gate can get stuck if and only if the future that owns its slot was dropped and the gate has not
  been closed since (`EffectGate.WedgedIffOwnerDropped`).
- A `register_waker` call merged into another entry is woken if and only if the last entry with its
  waker was not dropped, or rewritten by a poll under another waker, between the merge and the taking
  of the list without being put back (`Cancellation.MergedIsWokenIff`; losing runs:
  `Cancellation.MergedRegistrationIsLostOnDrop`, `Cancellation.MergedRegistrationIsLostOnRepoll`).
- The 62-byte repeat notice ignores the total limit, while limits from 58 bytes are accepted
  (`Projection.ProjectionFits`, `Projection.AcceptedTotalCanBeExceeded`).
- A replacement whose summarized prefix carried no configuration keeps whatever configuration its
  checkpoint introduces (`Preservation.ConfigurationIsPreserved`, `Preservation.CheckpointCanAddTool`).
  A checkpoint that restates the configuration in another order keeps that order
  (`Preservation.ConfigurationIsExact`, `Preservation.OrderCanDiffer`).
- After the durable write, a failed settlement, a late abort of an earlier run, or another writer, at
  any point up to publication, leaves durable and live history apart (`Commit.SplitExactly`,
  `Commit.FailedSettlementSplits`, `Commit.EndsTogetherIff`; runs: `Commit.SplitExample`,
  `Commit.WriterDuringGateSplits`).
- A request admitted only after the port was settled stays pending (`RequestPort.LeftPendingIff`,
  `RequestPort.LateAdmissionIsLeftPending`).
- Cache lifetimes less than a millisecond above ten seconds would not keep the ten-second margin; whole
  seconds always do (`CacheWarmer.DelayLeavesMargin`).
- Integers are compared as rounded doubles. Exactly which pairs are confused, and what each bound
  keyword then decides, is `NumberBounds.RoundedAlike`, `NumberBounds.IntegerBoundsExactly` and
  `NumberBounds.DoubleBoundsExactly`; a rejected value is `NumberBounds.ExclusiveBoundCanOverReject`.
- A wrapped row misses a next word that fits exactly, if the scan stops right behind it with an earlier
  space in the row (`Wrapping.RowIsFullUnless`, `Wrapping.ShortRow`).

## Model

| member | source | states |
|---|---|---|
| Calendar.YearOfEraIsCorrect | crates/tea-agent/src/verification.rs:1163-1167 | the division formula finds the year of the 400-year era that contains a given day, leap day included |
| Calendar.CivilIsCorrect | crates/tea-agent/src/verification.rs:1156-1173 | for every integer day count the result is a valid Gregorian date whose recursively counted day number is that count |
| Calendar.CivilInvertsDayNumber | crates/tea-agent/src/verification.rs:1156-1173 | converting any valid date's day number gives the date back |
| Calendar.DayNumberIsMonotone | crates/tea-agent/src/verification.rs:1156-1173 | the reference day number strictly follows calendar order |
| Calendar.CivilIsMonotone | crates/tea-agent/src/verification.rs:1156-1173 | a later day count gives a later date |
| Calendar.EpochIsDayZero | crates/tea-agent/src/verification.rs:1145-1173 | day zero and no other day is 1970-01-01 |
| Utf8.FirstIsStable | crates/tea-agent/src/terminal.rs:617-637 | what the front of a byte buffer decides, more bytes behind it do not change |
| Utf8.BoundarySplits | crates/tea-core/src/tool.rs:328-342 | cutting valid UTF-8 at a boundary leaves valid UTF-8 on both sides |
| Utf8.BoundaryIsNear | crates/tea-core/src/tool.rs:328-342 | every index of valid text has a boundary within three bytes on either side |
| Projection.Utf8PrefixEnd | crates/tea-core/src/tool.rs:328-334 | the backward search returns the last boundary at or before the limit |
| Projection.Utf8SuffixStart | crates/tea-core/src/tool.rs:336-342 | the forward search returns the first boundary at or after the start |
| Projection.NoBoundarySkipped | crates/tea-core/src/tool.rs:328-342 | no boundary lies between the index and the one found |
| Projection.SearchIsShort | crates/tea-core/src/tool.rs:328-342 | in valid text either search moves at most three bytes |
| Projection.TruncationIsBounded | crates/tea-core/src/tool.rs:302-326 | valid text within the limit, unchanged if it fits, otherwise two disjoint ends around the marker and at most six bytes short |
| Projection.AppendIsBounded | crates/tea-core/src/tool.rs:286-300 | appending a section keeps what is there, validity and the total limit |
| Projection.ProjectToolResultAsText | crates/tea-core/src/tool.rs:213-284 | the statement sequence computes the specified projection, error flag and set of seen errors; what that projection shows is `ProjectionContents.ResultIsShown` |
| Projection.SectionsAreBounded | crates/tea-core/src/tool.rs:182-284 | under an accepted policy the sections fit the total and an error's whole status header leads them |
| Projection.ProjectionFits | crates/tea-core/src/tool.rs:182-300 | a projected result fits an accepted total if and only if it is not a repeat under a total below 62; non-repeated errors keep their header |
| Projection.AcceptedTotalCanBeExceeded | crates/tea-core/src/tool.rs:182-240 | some accepted policy and result exceed the total |
| Projection.SeenAreTheErrors | crates/tea-core/src/tool.rs:213-240 | after any results the seen set holds exactly the fingerprints of the errors |
| Projection.FirstErrorIsShown | crates/tea-core/src/tool.rs:213-240 | a result is replaced by the notice if and only if it is an error and an earlier error has its fingerprint |
| ProjectionContents.TruncationIsBalanced | crates/tea-core/src/tool.rs:302-326 | what is cut is cut in the middle: two ends at boundaries, each within three bytes of half the room |
| ProjectionContents.AcceptsExactly | crates/tea-core/src/tool.rs:182-211 | a policy is accepted if and only if both parts have room for the marker and the total for the longest status line, a newline and the marker |
| ProjectionContents.ResultIsShown | crates/tea-core/src/tool.rs:213-300 | for every result that is not a repeat: status line, guidance, content and details, each cut to its own limit and joined by newlines, are the text if they fit; otherwise every leading run of them that fits is shown whole, in order |
| ProjectionContents.FirstCutPart | crates/tea-core/src/tool.rs:286-300 | the first part that does not fit is cut to exactly the room left, or left out if there is none |
| ProjectionContents.PlainResultIsItsContent | crates/tea-core/src/tool.rs:213-284 | a success without details whose content fits is its content, unchanged |
| ProjectionContents.RepeatIsOmitted | crates/tea-core/src/tool.rs:213-240 | a repeat is the notice and nothing else |
| PromptLayout.AppendOptional | crates/tea-core/src/measurement.rs:593-642 | appends the tagged, length-delimited optional field |
| PromptLayout.AppendModel | crates/tea-core/src/measurement.rs:593-642 | appends the optional model identity |
| PromptLayout.CanonicalRequestSurfaceBytes | crates/tea-core/src/measurement.rs:593-642 | the growing buffer ends as the specified canonical surface |
| PromptLayout.LittleEndianIsInjective | crates/tea-core/src/measurement.rs:639-642 | equal length prefixes mean equal lengths |
| PromptLayout.DelimitedIsPrefixFree | crates/tea-core/src/measurement.rs:639-642 | a length-delimited field is never a proper part of another at the same place |
| PromptLayout.OptionalIsPrefixFree | crates/tea-core/src/measurement.rs:593-637 | likewise for optional fields |
| PromptLayout.ModelIsPrefixFree | crates/tea-core/src/measurement.rs:593-637 | likewise for the model identity |
| PromptLayout.LabelsAreInjective | crates/tea-core/src/measurement.rs:593-637 | distinct thinking levels have distinct labels |
| PromptLayout.SurfacePrefixSplits | crates/tea-core/src/measurement.rs:481-642 | a surface that is a prefix of another has the same cache domain and a prefix context |
| PromptLayout.SameDomainKeepsPrefix | crates/tea-core/src/measurement.rs:481-642 | with equal domains the surface prefix relation is the context prefix relation |
| PromptLayout.CommonPrefixIsWhole | crates/tea-core/src/measurement.rs:644-649 | the common prefix length is the whole left operand if and only if it is a prefix |
| PromptLayout.ContinuityIsBytePrefix | crates/tea-core/src/measurement.rs:376-403 | `ExactExtension` if and only if the predecessor's bytes are a prefix, and if and only if the measured common request prefix is the whole predecessor |
| PromptLayout.ContinuityIsMeaningful | crates/tea-core/src/measurement.rs:187-217 | what each reported continuity says about the two surfaces: rebased and discontinuous are told apart, and both measured prefixes are the longest common ones |
| PromptLayout.SurfaceIsInjective | crates/tea-core/src/measurement.rs:593-642 | distinct requests have distinct surfaces |
| PromptLayout.ExtensionRunsKeepThePrefix | crates/tea-core/src/measurement.rs:168-217 | over a run of exact extensions every surface is a prefix of all later ones |
| PromptLayout.PromptLayoutLedger.Observe | crates/tea-core/src/measurement.rs:174-185 | the same verdict, and remembers this request |
| PromptLayout.PromptLayoutLedger.Compare | crates/tea-core/src/measurement.rs:187-217 | measures without remembering: reports an exact extension if and only if the remembered surface is a prefix, a changed domain if and only if the domains differ, a first request if and only if nothing is remembered |
| PromptLayout.PromptLayoutLedger.Commit | crates/tea-core/src/measurement.rs:220-223 | remembers the request only |
| PromptLayout.PromptLayoutLedger.Clear | crates/tea-core/src/measurement.rs:225-231 | forgets the previous request and any expectation |
| PromptLayout.PromptLayoutLedger.ExpectNextTransition | crates/tea-core/src/measurement.rs:241-247 | records the one permitted transition and nothing else |
| PromptLayout.PromptLayoutLedger.TakeExpectedTransition | crates/tea-core/src/measurement.rs:241-254 | an expectation is handed out once |
| InputDecoder.NextDropsFront | crates/tea-agent/src/terminal.rs:460-652 | whatever it returns, a call only removes bytes from the front of the buffer |
| InputDecoder.Decoder.Push | crates/tea-agent/src/terminal.rs:451-453 | appends to the buffer |
| InputDecoder.Decoder.Take | crates/tea-agent/src/terminal.rs:649-652 | removes and returns the front |
| InputDecoder.Decoder.NextEvent | crates/tea-agent/src/terminal.rs:460-548 | event, buffer, paste mode and deadline are those of the specified step |
| InputDecoder.Decoder.EscapeSequence | crates/tea-agent/src/terminal.rs:550-615 | recognises the candidate sequences and enters paste mode as specified; what each sequence means is `KeyCodes.KeyDecodes` |
| InputDecoder.Decoder.NextPlain | crates/tea-agent/src/terminal.rs:617-637 | decodes one scalar, replacement or nothing as specified |
| KeyCodes.ScalarRoundTrip | crates/tea-agent/src/terminal.rs:617-637 | decoding inverts the encoder of RFC 3629 on every Unicode scalar, whatever follows |
| KeyCodes.ScalarIsEncoded | crates/tea-agent/src/terminal.rs:617-637 | and nothing else decodes: a scalar at the front is the encoding of its value |
| KeyCodes.KeyDecodes | crates/tea-agent/src/terminal.rs:460-615 | every byte spelling of a named key, control key, Alt key or character decodes to that key, whatever follows and whatever the timer says, and leaves what follows |
| KeyCodes.PasteDecodes | crates/tea-agent/src/terminal.rs:461-471 | a bracketed paste is delivered with the bytes between the brackets |
| KeyCodes.StreamDecodes | crates/tea-agent/src/terminal.rs:460-637 | any sequence of spelled keys and pastes decodes to those events, in order, with nothing left over |
| KeyCodes.HighBytesExactly | crates/tea-agent/src/terminal.rs:617-637 | a byte above ASCII yields its character if complete, nothing while it may be completed, and otherwise one replacement character for that byte alone |
| KeyCodes.EscapeBeforeControl | crates/tea-agent/src/terminal.rs:550-615 | an escape before a control byte is the Escape key at once |
| Chunking.AtOneInstant | crates/tea-agent/src/terminal.rs:455-548 | with all calls at one instant the timer never fires and the decoder is its timeless form |
| Chunking.EventsAreStable | crates/tea-agent/src/terminal.rs:460-637 | an event once decided does not depend on later bytes, unless it came from a torn paste |
| Chunking.EventsConsume | crates/tea-agent/src/terminal.rs:460-637 | every event shortens the buffer, so draining ends |
| Chunking.DrainDecoder | crates/tea-agent/src/terminal.rs:313-395 | polling the decoder until it has no event is the specified drain |
| Chunking.FeedDecoder | crates/tea-agent/src/terminal.rs:313-395 | pushing and draining chunk by chunk is the specified feed |
| Chunking.DrainSplits | crates/tea-agent/src/terminal.rs:460-637 | draining a prefix and then the rest is draining the whole |
| Chunking.CleanFeedIsWhole | crates/tea-agent/src/terminal.rs:460-637 | chunks that tear no paste give the events and residue of the whole stream |
| Chunking.TearIsVisible | crates/tea-agent/src/terminal.rs:550-585 | a torn paste yields a key where the whole stream yields the paste |
| Chunking.TornFeedDiffers | crates/tea-agent/src/terminal.rs:550-585 | chunks that tear a paste give other events |
| Chunking.ChunkingMattersOnlyInPastes | crates/tea-agent/src/terminal.rs:450-652 | for every stream with closed pastes and every chunking: same events and residue if and only if no boundary tears a paste |
| Chunking.ChunkingIsHarmlessWithoutPastes | crates/tea-agent/src/terminal.rs:450-652 | a stream with no paste start decodes the same however it is cut |
| Chunking.TornPasteExample | crates/tea-agent/src/terminal.rs:550-585 | the concrete torn paste |
| ChunkingExactly.GoodStep | crates/tea-agent/src/terminal.rs:460-637 | a step that tears nothing differently decides what the whole stream decides |
| ChunkingExactly.BadStepShows | crates/tea-agent/src/terminal.rs:460-637 | any other step gives another event, or waits where the whole stream has one |
| ChunkingExactly.ChunkingExactly | crates/tea-agent/src/terminal.rs:450-652 | for every stream and every chunking: same events and residue if and only if no chunk tears a paste differently from the whole or waits inside one the whole tears |
| EscapeTimer.TimerAfter | crates/tea-agent/src/terminal.rs:460-548 | exactly what a call does to the escape timer: Alt keys, events in paste mode and idle calls keep it, holding an escape sets it, everything else clears it |
| EscapeTimer.EventLeavesTimer | crates/tea-agent/src/terminal.rs:460-548 | an event leaves a timer behind if and only if one was set and the event was an Alt key or decoded in paste mode |
| EscapeTimer.TimerOfSession | crates/tea-agent/src/terminal.rs:450-548 | over any session the timer is the fold of those effects |
| EscapeTimer.LoneEscapeIsHeld | crates/tea-agent/src/terminal.rs:455-548 | after any session that decoded everything, a lone escape is held if and only if no Alt key and no event in paste mode left an expired timer behind |
| EscapeTimer.AltLeavesTimer | crates/tea-agent/src/terminal.rs:496-514 | a session in which an Alt key does |
| EscapeTimer.PasteLeavesTimer | crates/tea-agent/src/terminal.rs:461-471 | a session in which a paste does |
| Frames.WrittenFrameReadsBack | crates/tea-agent/src/detach.rs:55-80 | a written frame reads back and leaves what follows if and only if its payload is at most 4 MiB |
| Frames.ConnectionDeliversPrefix | crates/tea-agent/src/detach.rs:55-80 | a connection cut anywhere delivers a prefix of the frames sent, an uncut one all of them |
| Frames.CutFrameIsNotRead | crates/tea-agent/src/detach.rs:66-80 | an incomplete frame is never delivered |
| RemoteLink.Link.Serve | crates/tea-agent/src/detach.rs:282-369 | the handshake section admits, refuses or fails as specified; over runs, `LinkProtocol.HandshakeAnswer` and `LinkProtocol.InputIsCounted` |
| RemoteLink.Link.Receive | crates/tea-agent/src/detach.rs:372-391 | received input is queued and counted |
| RemoteLink.Link.FinishServing | crates/tea-agent/src/detach.rs:392-399 | the leaving thread detaches only under its remembered generation |
| RemoteLink.Link.WaitInput | crates/tea-agent/src/detach.rs:423-439 | hands over all queued input |
| RemoteLink.Link.WriteOutput | crates/tea-agent/src/detach.rs:441-454 | sends to the attached terminal or detaches it |
| RemoteLink.Link.CloseWithHandoff | crates/tea-agent/src/detach.rs:464-495 | closes once and reports received minus unconsumed |
| LinkProtocol.RunKeepsInv | crates/tea-agent/src/detach.rs:282-495 | every step keeps the protocol invariant of link and connections |
| LinkProtocol.HandshakeAnswer | crates/tea-agent/src/detach.rs:282-369 | in every run a terminal is welcomed if and only if it speaks protocol 1, the link was never closed, nobody is attached, and it names no session or the one being served; everyone else is refused |
| LinkProtocol.InputIsCounted | crates/tea-agent/src/detach.rs:364-391 | in every run the counter is the number of input bytes since the last welcome, and the queue is, in order, the input since it was last emptied |
| LinkProtocol.StepsServeExactly | crates/tea-agent/src/detach.rs:392-495 | exactly which frame each other step sends and to whom, and which steps detach the terminal |
| LinkProtocol.FramesFollowTheProtocol | crates/tea-agent/src/detach.rs:282-495 | in every run the frames on a connection are a prefix of `REFUSE` or `WELCOME OUTPUT* CLOSE`, and a closed link has no terminal |
| LinkProtocol.OnlyTheAttachedTerminalIsServed | crates/tea-agent/src/detach.rs:282-495 | a step sends at most one frame, to the attached terminal or as a handshake answer |
| LinkProtocol.NothingAfterClose | crates/tea-agent/src/detach.rs:464-495 | once closed, whatever follows, a link admits nobody and sends only refusals, on old and new connections |
| LinkProtocol.LateReaderDetachesSuccessor | crates/tea-agent/src/detach.rs:370-399 | a finished thread detaches another terminal if and only if it read the generation after that one attached |
| LinkProtocol.SuccessorCanBeDetached | crates/tea-agent/src/detach.rs:370-399 | such runs exist |
| Handoff.Relay.Record | crates/tea-agent/src/detach.rs:709-717 | the window holds the newest 64 KiB of everything sent, with its base offset |
| Handoff.Relay.Resolve | crates/tea-agent/src/detach.rs:722-746 | the replay is what follows the consumed offset, or nothing if that was dropped |
| Handoff.RunKeepsInv | crates/tea-agent/src/detach.rs:374-379 | every step keeps consumed, decoding, queued and in-transit bytes equal to the log |
| Handoff.HandoffConservesInput | crates/tea-agent/src/detach.rs:464-475 | consumed bytes followed by the replay are exactly the bytes sent if and only if the backlog fits the window |
| Handoff.AnyLinkConservesInput | crates/tea-agent/src/detach.rs:364-399 | the same for a terminal that attaches to any open, free link, whatever that link has been through: it is served as on a new one |
| Handoff.FullWindowLosesInput | crates/tea-agent/src/detach.rs:709-746 | 65537 typed bytes before the close are all lost |
| Handoff.LogIsReplayThenTyped | crates/tea-agent/src/detach.rs:707-721 | what a session sends is the replay it was given, then what was typed |
| Handoff.ChainConservesInput | crates/tea-agent/src/detach.rs:707-746 | over any chain of handoffs within the window no byte is lost, duplicated or reordered |
| HandoffEvents.SessionContinues | crates/tea-agent/src/detach.rs:423-438 | in a session that tears no paste, the events so far and the decoder's future are those of one decoder on the whole stream |
| HandoffEvents.TearIsSeen | crates/tea-agent/src/terminal.rs:550-585 | where a session tears a paste it emits a key instead of the paste |
| HandoffEvents.ChainIsLimited | crates/tea-agent/src/detach.rs:707-746 | a chain that starts outside a paste never decodes what follows as the rest of one |
| HandoffEvents.ChainKeepsEvents | crates/tea-agent/src/detach.rs:464-475 | over any chain within the window, of a stream with closed pastes, the events are those of the whole stream if and only if no session tears a paste and none hands off inside one |
| HandoffEvents.PasteIsHandedOff | crates/tea-agent/src/detach.rs:464-475 | a run that hands off inside a paste |
| HandoffExactly.GoodSessionOnTrack | crates/tea-agent/src/detach.rs:423-438 | a session whose calls all decide as the whole stream would stays with the whole stream's events |
| HandoffExactly.BadSessionIsAstray | crates/tea-agent/src/detach.rs:423-438 | any other session shows it, by an event or by stalling |
| HandoffExactly.ChainExactly | crates/tea-agent/src/detach.rs:464-475 | over any chain within the window and for every stream, the events and what is left are those of the whole stream if and only if every call decides as the whole would and no session hands off inside a paste |
| EffectGate.ManualEffectGate.PeekAction | crates/tea-core/src/effect.rs:616-629 | while the gate is open, the id shown is exactly the one id that release would accept, and nothing is shown when there is none |
| EffectGate.ManualEffectGate.Release | crates/tea-core/src/effect.rs:639-671 | outcome, new state and woken task as specified |
| EffectGate.ManualEffectGate.Close | crates/tea-core/src/effect.rs:673-693 | closes, keeps the slot, empties the wait list and hands out every registered waker |
| EffectGate.ManualEffectGate.Poll | crates/tea-core/src/effect.rs:733-787 | result, new state and wakes of one poll as specified; whose action is parked is `EffectGate.FreeGateParks` |
| EffectGate.SlotIsExclusive | crates/tea-core/src/effect.rs:733-787 | in every run, whatever is dropped, at most one unfinished future holds an action, it is the one in the slot, and the "disappeared" and mismatch exits are unreachable |
| EffectGate.ShownActionIsLetThrough | crates/tea-core/src/effect.rs:616-787 | in every run, unless its owner was dropped, the action shown is the one its future was created with, and releasing it lets that future through and frees the slot |
| EffectGate.FreeGateParks | crates/tea-core/src/effect.rs:733-787 | in every run a free open gate parks whoever polls, under a fresh id, and shows the action that future was created with |
| EffectGate.ClosedGateFails | crates/tea-core/src/effect.rs:639-787 | in every run a poll fails if and only if the gate was closed, and a closed gate changes no more and releases nothing |
| EffectGate.NoLostWakeUp | crates/tea-core/src/effect.rs:639-787 | the waker of every pending, unwoken future is in the slot, in the list or in flight |
| EffectGate.NeverStuck | crates/tea-core/src/effect.rs:639-787 | unless an owner was dropped, a waiting future implies a wake in flight, a woken future or an action to release |
| EffectGate.OkNeedsOneRelease | crates/tea-core/src/effect.rs:639-787 | a future resolves Ok only after exactly one release of its own id |
| EffectGate.IdsStrictlyIncrease | crates/tea-core/src/effect.rs:733-787 | the ids handed out over a whole run strictly increase until the counter saturates, whatever became of the futures |
| EffectGate.OrphanedSlotIsPermanent | crates/tea-core/src/effect.rs:639-787 | over every continuation without a close an orphaned slot stays, no future finishes and no action is parked |
| EffectGate.OrphanedIffOwnerDropped | crates/tea-core/src/effect.rs:639-787 | in every run the slot is orphaned if and only if its owner was dropped and the gate not closed since |
| EffectGate.StuckIsOrphaned | crates/tea-core/src/effect.rs:639-787 | in every run only an orphaned slot sticks |
| EffectGate.WedgedIffOwnerDropped | crates/tea-core/src/effect.rs:639-787 | the gate can get stuck without a further owner being dropped if and only if its owner was dropped and it has not been closed since |
| Cancellation.Token.Swap | crates/tea-core/src/scheduler.rs:350-354 | exactly the first caller wins |
| Cancellation.Token.TakeWaiters | crates/tea-core/src/scheduler.rs:355-365 | the whole list is taken |
| Cancellation.Token.PollSection | crates/tea-core/src/scheduler.rs:419-443 | ready if cancelled, otherwise the own entry is inserted or updated |
| Cancellation.Token.RegisterSection | crates/tea-core/src/scheduler.rs:374-395 | wakes at once, merges with an equal waker, or appends |
| Cancellation.Token.DropSection | crates/tea-core/src/scheduler.rs:446-457 | afterwards the list holds exactly the entries of other ids |
| Cancellation.RunKeepsInv | crates/tea-core/src/scheduler.rs:343-457 | every step of every interleaving keeps pending waits and own registrations covered |
| Cancellation.QuietUntilCancelled | crates/tea-core/src/scheduler.rs:343-443 | in every interleaving the token is cancelled if and only if some call has swapped the flag, and until then no future is ready and no waker woken |
| Cancellation.AnsweredOnceCancelled | crates/tea-core/src/scheduler.rs:374-443 | from the swap on, every poll or registration that begins or reaches the lock is answered at once |
| Cancellation.PendingIsListed | crates/tea-core/src/scheduler.rs:419-443 | before the swap every pending future has its latest waker listed under its own id |
| Cancellation.PendingWaitsAreWoken | crates/tea-core/src/scheduler.rs:350-457 | once `cancel` has finished, every live pending future has been woken |
| Cancellation.KeptRegistrationsAreWoken | crates/tea-core/src/scheduler.rs:374-395 | so has every registration with its own entry |
| Cancellation.WokenExactly | crates/tea-core/src/scheduler.rs:350-395 | a finished `cancel` has woken exactly the wakers listed when it took the list and those of registrations that woke themselves |
| Cancellation.ListedAfter | crates/tea-core/src/scheduler.rs:374-457 | exactly which steps put a waker on the list and which take its last entry off |
| Cancellation.MergedIsWokenIff | crates/tea-core/src/scheduler.rs:374-457 | a merged registration is woken if and only if, from the merge to the taking of the list, the last entry with its waker was not taken off without being put back, or a registration of that waker woke itself |
| Cancellation.CancelCompletes | crates/tea-core/src/scheduler.rs:350-365 | from every state in which it has begun, the holder of the lock can finish and then `cancel` finishes by its own steps |
| Cancellation.MergedRegistrationIsLostOnDrop | crates/tea-core/src/scheduler.rs:374-457 | from any state with a merged registration, dropping its host can lose the wake-up |
| Cancellation.MergedRegistrationIsLostOnRepoll | crates/tea-core/src/scheduler.rs:374-443 | re-polling the host under another waker loses it too |
| Transcript.EffectiveConfiguration.ApplyUpdate | crates/tea-core/src/state/configuration.rs:233-257 | the in-place loops compute the specified application of an update |
| Transcript.PutSectionMeans | crates/tea-core/src/state/configuration.rs:233-249 | a section change is a map update |
| Transcript.PutToolMeans | crates/tea-core/src/state/configuration.rs:250-257 | adding a tool is a map update |
| Transcript.SectionsKeepTheirPlace | crates/tea-core/src/state/configuration.rs:233-249 | a reworded or removed section leaves the others as they are, in their places |
| Transcript.NewSectionsComeLast | crates/tea-core/src/state/configuration.rs:233-249 | a new section is appended, and removing an absent one changes nothing |
| Transcript.OthersKeepTheirPlace | crates/tea-core/src/state/configuration.rs:250-257 | removing a tool leaves the others in order |
| Transcript.AddedToolsComeLast | crates/tea-core/src/state/configuration.rs:250-257 | declared tools come last, in the order given, in place of earlier declarations of their names |
| Transcript.ApplyRespectsMeaning | crates/tea-core/src/state/configuration.rs:233-257 | an update keeps names unique and maps equal meanings to equal meanings |
| Transcript.ReplayIsKeyed | crates/tea-core/src/state/configuration.rs:260-268 | replaying any history yields unique section and tool names |
| Transcript.InForceOnceDeclared | crates/tea-core/src/state/configuration.rs:260-268 | a configuration is in force if and only if there has been a system message |
| Transcript.ReplayIsWellNamed | crates/tea-core/src/state/configuration.rs:160-268 | replaying valid updates yields valid names |
| Transcript.InitialUpdateReproduces | crates/tea-core/src/state/configuration.rs:281-294 | applying a configuration's initial update to nothing gives it back exactly |
| Transcript.InitialUpdateIsValid | crates/tea-core/src/state/configuration.rs:160-294 | the initial update of a well-named configuration is valid |
| Transcript.SameContentIsSameMeaning | crates/tea-core/src/state/configuration.rs:301-314 | the length-and-membership comparison decides equality of meaning |
| ConfigurationDiff.DiffConfigurations | crates/tea-core/src/state/configuration.rs:319-365 | the loops and filters compute the specified difference |
| ConfigurationDiff.SectionChangesAreExact | crates/tea-core/src/state/configuration.rs:323-346 | the difference mentions a section if and only if the sides disagree on it, and says what the target says |
| ConfigurationDiff.ToolChangesAreExact | crates/tea-core/src/state/configuration.rs:347-365 | a tool is withdrawn if and only if it was declared and the target differs, and declared if and only if the target has it and differs, as the target says |
| ConfigurationDiff.DiffFromNothing | crates/tea-core/src/state/configuration.rs:319-365 | from nothing the difference is the initial declaration, in order |
| ConfigurationDiff.DiffReachesTarget | crates/tea-core/src/state/configuration.rs:319-365 | no difference if and only if equal meaning; otherwise applying it reaches the target's meaning |
| ConfigurationDiff.DiffIsDoneOnce | crates/tea-core/src/state/configuration.rs:319-365 | after applying the difference there is none left |
| TranscriptValidity.EnterCalls | crates/tea-core/src/compaction.rs:1555-1569 | accepts a message's calls if and only if all call ids so far stay distinct |
| TranscriptValidity.ValidateMessages | crates/tea-core/src/compaction.rs:1537-1613 | accepts a history if and only if ids are distinct and unreserved, updates valid, and every call answered exactly once, later, under its name |
| TranscriptValidity.ScanDecides | crates/tea-core/src/compaction.rs:1537-1613 | the running checks together are that declarative well-formedness |
| TranscriptValidity.SameCoreSamePairing | crates/tea-core/src/compaction.rs:1537-1613 | histories that differ only in system messages are paired alike |
| Preservation.RetainedSuffix | crates/tea-core/src/compaction.rs:1632-1637 | counts the longest common suffix |
| Preservation.SuffixIsLongest | crates/tea-core/src/compaction.rs:1632-1637 | the last n messages of both are the same if and only if n is at most that count |
| Preservation.PreserveConfiguration | crates/tea-core/src/compaction.rs:1627-1662 | the in-place edits compute the specified rewrite |
| Preservation.RewrittenShape | crates/tea-core/src/compaction.rs:1650-1653 | with unique ids no checkpoint system message survives and the suffix survives whole |
| Preservation.CoreIsKept | crates/tea-core/src/compaction.rs:1650-1661 | all other messages stay, in order |
| Preservation.ConfigurationIsPreserved | crates/tea-core/src/compaction.rs:1619-1662 | the retained suffix is read under the meaning of the source's configurations, throughout, if and only if the prefix carried configuration or the checkpoint brings none |
| Preservation.ConfigurationIsExact | crates/tea-core/src/compaction.rs:1639-1661 | under the very same configurations, order included, if and only if the replacement was rewritten or its checkpoint kept the prefix's order |
| Preservation.OnlyOrderCanDiffer | crates/tea-core/src/compaction.rs:1642-1649 | where only the meaning is kept, the checkpoint restated the configuration in another order |
| Preservation.OrderCanDiffer | crates/tea-core/src/compaction.rs:1642-1649 | a source and replacement whose two tools, restated the other way round, are left that way |
| Preservation.CheckpointCanAddTool | crates/tea-core/src/compaction.rs:1639-1641 | a checkpoint after a bare prefix really can change the configuration |
| Preservation.RewriteIsValid | crates/tea-core/src/compaction.rs:1429-1441 | the result is well formed if and only if an unreserved id was left when one was needed |
| Preservation.FreshIdIsLeft | crates/tea-core/src/compaction.rs:1431-1439 | one is left if and only if all ids are below u64::MAX - 1 |
| Commit.AgentState.ReplaceMessages | crates/tea-core/src/state/lifecycle.rs:132-145 | new history, next revision, and an id allocator beyond every id |
| Commit.AgentState.ReserveDurableCommit | crates/tea-core/src/compaction.rs:1475-1535 | succeeds if and only if uncancelled, running under the owner, and at the expected revision |
| Commit.AgentState.PublishDurableReplacement | crates/tea-core/src/compaction.rs:1495-1514 | adopts the replacement for a running or cancelling owner at the expected revision, else changes nothing |
| Commit.ReplaceAdvancesIds | crates/tea-core/src/state/lifecycle.rs:135-145 | adopting a history moves the id allocator past every id in it, no further, and never back |
| Commit.IdsNeverGoBack | crates/tea-core/src/state/lifecycle.rs:135-145 | over every run of the transaction the allocator never goes back |
| Commit.ReservationSaysWhy | crates/tea-core/src/compaction.rs:1475-1535 | after any steps of others, a refused reservation answers cancellation first and then the revision it found |
| Commit.PublicationSaysWhy | crates/tea-core/src/compaction.rs:1475-1535 | likewise a refused publication |
| Commit.CancellationCannotSplit | crates/tea-core/src/compaction.rs:1421-1535 | for every placement of cancellation steps: neither history changed, exactly if one preceded the reservation, or both became the same replacement |
| Commit.ReservedTransactionFinishes | crates/tea-core/src/compaction.rs:1421-1464 | a reserved transaction's own steps commit it, whatever is cancelled |
| Commit.CommittedHistoryIsSound | crates/tea-core/src/compaction.rs:1421-1464 | the committed history is one, valid, and keeps the suffix's configurations, order included wherever it was rewritten |
| Commit.PublicationOverwritesItsSource | crates/tea-core/src/compaction.rs:1495-1514 | in every run the publishing step overwrites the very history the replacement was made from |
| Commit.SaturatedRevisionLosesAnUpdate | crates/tea-core/src/state/lifecycle.rs:135-151 | at the last revision the comparison misses another writer |
| Commit.SplitExactly | crates/tea-core/src/compaction.rs:1421-1464 | with cancellations and other writers anywhere before it, publication commits if and only if the last run to be cancelled is the owner and no other writer was seen; the replacement is durable either way, and live is the replacement only by the commit, else what the other writers made of the source |
| Commit.FailedSettlementSplits | crates/tea-core/src/compaction.rs:1442-1457 | a settlement that fails, whatever came before it, leaves the replacement durable and live what the other writers made of the source |
| Commit.ReservationExactly | crates/tea-core/src/compaction.rs:1475-1535 | after any steps of others, reservation succeeds if and only if none was a cancellation and no writer was seen; otherwise nothing is written |
| Commit.RefusedWriteChangesNothing | crates/tea-core/src/compaction.rs:1442-1452 | a refused write, whenever it comes, leaves the durable history alone |
| Commit.EndsTogetherIff | crates/tea-core/src/compaction.rs:1421-1464 | every transaction that ends after its write leaves the two histories equal if and only if it commits or the others wrote that very history |
| Commit.WriterDuringGateSplits | crates/tea-core/src/compaction.rs:1442-1457 | another writer during the first gate wait |
| Commit.SplitExample | crates/tea-core/src/compaction.rs:1442-1457 | a valid transaction whose histories then differ |
| RequestPort.CoreCompactionRequestPort.EnterBegin | crates/tea-core/src/compaction.rs:845-849 | the flag is taken by the first caller |
| RequestPort.CoreCompactionRequestPort.FailBegin | crates/tea-core/src/compaction.rs:858-863 | a refusal gives the flag back |
| RequestPort.CoreCompactionRequestPort.FinishBegin | crates/tea-core/src/compaction.rs:865-876 | a consent draws a fresh ticket and makes it pending |
| RequestPort.CoreCompactionRequestPort.TakeTicket | crates/tea-core/src/compaction.rs:880-902 | a pending ticket is handed out once |
| RequestPort.CoreCompactionRequestPort.SettleUnfinished | crates/tea-core/src/compaction.rs:806-836 | takes everything, asks about distinct pending tickets, and reports success only if there were none |
| RequestPort.OneRequestPerOperation | crates/tea-core/src/compaction.rs:840-878 | for every order of calls at most one holds or passes the gate |
| RequestPort.SettledOnceAtMost | crates/tea-core/src/compaction.rs:840-902 | no ticket is settled twice or without admission |
| RequestPort.SettledEffectIsTheGates | crates/tea-core/src/compaction.rs:840-902 | in every run what is settled is the effect the gate gave to the one admitted call, under that call's ticket |
| RequestPort.EveryTicketIsSettledOnce | crates/tea-core/src/compaction.rs:806-836 | when the rest has been settled every ticket admitted so far was given to exactly one settlement, with the effect it was admitted with, refusals included |
| RequestPort.LeftPendingIff | crates/tea-core/src/compaction.rs:806-878 | after the rest has been settled a ticket is left pending if and only if a call was admitted only afterwards |
| RequestPort.RefusalFreesThePort | crates/tea-core/src/compaction.rs:850-864 | after a refused request the port admits another |
| RequestPort.LateAdmissionIsLeftPending | crates/tea-core/src/compaction.rs:806-878 | a request at the gate during settlement can stay pending |
| CacheWarmer.DelayLeavesMargin | crates/tea-core/src/cache_warming.rs:93-105 | the delay is positive, inside the lifetime, and leaves ten seconds if and only if the lifetime is a millisecond or more above ten seconds |
| CacheWarmer.DelayIsAtMostNinetyPercent | crates/tea-core/src/cache_warming.rs:93-105 | the delay never exceeds ninety percent, truncation included |
| CacheWarmer.CacheWarmer.ClearLocked | crates/tea-core/src/cache_warming.rs:420-429 | next generation, no plan, flight cancelled, driver woken |
| CacheWarmer.CacheWarmer.ArmLocked | crates/tea-core/src/cache_warming.rs:439-463 | arms within the hour, otherwise stops |
| CacheWarmer.CacheWarmer.StartPlan | crates/tea-core/src/cache_warming.rs:338-375 | supersedes and starts, or stops, as specified |
| CacheWarmer.CacheWarmer.BeginSettle | crates/tea-core/src/cache_warming.rs:386-401 | closes once |
| CacheWarmer.CacheWarmer.PollSettled | crates/tea-core/src/cache_warming.rs:402-412 | ready if and only if nothing is in flight, otherwise registered |
| CacheWarmer.CacheWarmer.TakeRecords | crates/tea-core/src/cache_warming.rs:416-418 | empties the records |
| CacheWarmer.CacheWarmer.DecideRefresh | crates/tea-core/src/cache_warming.rs:512-548 | sends, waits or stops as specified |
| CacheWarmer.CacheWarmer.FinishRefresh | crates/tea-core/src/cache_warming.rs:549-575 | lands, records, and re-arms only if still current; over runs, `WarmerRuns.RecordsAreComplete` |
| WarmerRuns.RunKeepsInv | crates/tea-core/src/cache_warming.rs:338-575 | every step keeps plans and schedules sound and at most one refresh in flight |
| WarmerRuns.RecordsAreComplete | crates/tea-core/src/cache_warming.rs:416-575 | over every run the records taken followed by those held are, in order, one for each refresh that completed or reported usage, with the request sent, its outcome and whether it reported, and no others |
| WarmerRuns.SendingIsLastSend | crates/tea-core/src/cache_warming.rs:512-575 | the refresh that finishes is the last one sent |
| WarmerRuns.StartsExactly | crates/tea-core/src/cache_warming.rs:338-375 | a start supersedes the old plan and flight; the new plan is armed one delay ahead if and only if the request may be replayed and the delay exists and is within the hour |
| WarmerRuns.DecidesExactly | crates/tea-core/src/cache_warming.rs:512-548 | a refresh is sent if and only if the decision is current, open, in its window and worthwhile; an early one keeps the plan and any other live one drops it |
| WarmerRuns.FinishesExactly | crates/tea-core/src/cache_warming.rs:549-575 | a live refresh re-arms the same plan one delay later if and only if that is within the hour |
| WarmerRuns.SendsAreStarted | crates/tea-core/src/cache_warming.rs:338-548 | in every run each refresh replays the request of the start it is counted under, with that start's lifetime and moment |
| WarmerRuns.SendsAreSafe | crates/tea-core/src/cache_warming.rs:512-548 | in every run a refresh is sent only while open, current, alone, inside its window and five seconds or more before the lifetime ends |
| WarmerRuns.SettledIsFinal | crates/tea-core/src/cache_warming.rs:384-413 | once a settle call has returned nothing is sent or recorded, whatever follows |
| WarmerRuns.NoLostWakeUp | crates/tea-core/src/cache_warming.rs:386-510 | a parked driver has nothing to do and a parked settle call is registered with the refresh in flight |
| WarmerRuns.OnlyTheCurrentPlanIsSent | crates/tea-core/src/cache_warming.rs:512-575 | a decision under the current generation is about the plan in force, and a superseded or settled-over flight is cancelled |
| WarmerRuns.SendsFitInAnHour | crates/tea-core/src/cache_warming.rs:439-575 | each started plan sends at most floor(1 hour / delay) refreshes, each due within the hour and decided within half the margin of it |
| WarmerRuns.RefreshIsSent | crates/tea-core/src/cache_warming.rs:467-548 | a run in which a five-minute lifetime is refreshed after four and a half minutes |
| SchemaValidation.MatchesType | crates/tea-core/src/schema_validation.rs:70-89 | decides the `type` keyword |
| SchemaValidation.CheckRequired | crates/tea-core/src/schema_validation.rs:159-168 | appends exactly one kind of failure, for every missing name and no other, so nothing if and only if every required name is present |
| SchemaValidation.CheckProperties | crates/tea-core/src/schema_validation.rs:170-181 | appends exactly the failures of the declared properties at their paths, and none if and only if all are satisfied |
| SchemaValidation.CheckAdditional | crates/tea-core/src/schema_validation.rs:183-206 | likewise for undeclared ones |
| SchemaValidation.CheckAllOf | crates/tea-core/src/schema_validation.rs:108-112 | likewise for the schemas under `allOf` |
| SchemaValidation.CheckAnyOf | crates/tea-core/src/schema_validation.rs:113-120 | likewise for `anyOf` |
| SchemaValidation.CheckOneOf | crates/tea-core/src/schema_validation.rs:121-132 | likewise for `oneOf`: some alternative and no two |
| SchemaValidation.CheckNot | crates/tea-core/src/schema_validation.rs:133-140 | likewise for `not` |
| SchemaValidation.CheckCounts | crates/tea-core/src/schema_validation.rs:296-323 | likewise for a pair of count bounds |
| SchemaValidation.CheckNumber | crates/tea-core/src/schema_validation.rs:265-294 | likewise for the four number bounds |
| SchemaValidation.ValidateObject | crates/tea-core/src/schema_validation.rs:153-207 | likewise for objects |
| SchemaValidation.ValidateArray | crates/tea-core/src/schema_validation.rs:209-239 | likewise for arrays |
| SchemaValidation.ValidateValue | crates/tea-core/src/schema_validation.rs:60-151 | on a supported schema exactly the value's failures are appended, at the path or past a dot that follows it, and none if and only if the value satisfies the schema's compositional meaning |
| SchemaFailures.EveryMissingNameIsReported | crates/tea-core/src/schema_validation.rs:159-168 | every missing name of an object of the right type is among its failures |
| SchemaFailures.EveryPropertyIsReported | crates/tea-core/src/schema_validation.rs:170-181 | so is all that is wrong with a declared member, at its path |
| SchemaFailures.EveryAdditionalIsReported | crates/tea-core/src/schema_validation.rs:183-206 | so is an undeclared member that is not allowed, or all that is wrong with it |
| SchemaFailures.EveryItemIsReported | crates/tea-core/src/schema_validation.rs:215-224 | so is all that is wrong with an item, at its index |
| SchemaFailures.EveryAlternativeIsReported | crates/tea-core/src/schema_validation.rs:108-112 | so is all that a schema under `allOf` has against the value |
| SchemaFailures.DecimalIsInjective | crates/tea-core/src/schema_validation.rs:215-224 | the index in a path names one item |
| SchemaValidation.IsValid | crates/tea-core/src/schema_validation.rs:325-329 | decides satisfaction |
| SchemaValidation.ValidateSchema | crates/tea-core/src/schema_validation.rs:349-473 | accepts exactly the supported schemas, all the way down |
| SchemaValidation.ValidateToolArguments | crates/tea-core/src/schema_validation.rs:13-51 | accepts if and only if schema supported, arguments parsed and satisfied; each refusal for its own reason, and a violation lists exactly the value's failures |
| NumberBounds.RoundedIsMonotone | crates/tea-protocol/src/json.rs:123-131 | converting integers to doubles never reverses their order |
| NumberBounds.RoundedIsExact | crates/tea-protocol/src/json.rs:123-131 | it is exact if and only if the integer is a multiple of the local gap, so up to 2^53 |
| NumberBounds.RoundedAlike | crates/tea-protocol/src/json.rs:123-131 | two integers become one double if and only if they share a gap and lie on one side of a middle or around a multiple, or meet at a power of two |
| NumberBounds.IntegerBoundsExactly | crates/tea-core/src/schema_validation.rs:265-294 | for each bound keyword exactly what it decides between integers: an inclusive bound is also met, and an exclusive one not met, by an integer confused with it |
| NumberBounds.SchemaBoundsExactly | crates/tea-core/src/schema_validation.rs:265-294 | the four keywords of a schema together, on integer bounds and values |
| NumberBounds.DoubleBoundsExactly | crates/tea-core/src/schema_validation.rs:265-294 | the same for a floating-point bound: confusion only with the integer it is, and none otherwise |
| NumberBounds.SmallIntegersAreDistinct | crates/tea-core/src/schema_validation.rs:265-294 | up to 2^53 no two integers are confused |
| NumberBounds.ExclusiveBoundCanOverReject | crates/tea-core/src/schema_validation.rs:265-294 | a supported schema that asks for more than 2^53, as integer or double, rejects the next integer |
| Wrapping.Scan | crates/tea-agent/src/render.rs:1266-1283 | the scan finds the reach of a row and its last space |
| Wrapping.WrapRawText | crates/tea-agent/src/render.rs:1251-1291 | the nested loops end and compute the recursive wrapping |
| Wrapping.LinesAreTheText | crates/tea-agent/src/render.rs:1256-1261 | the lines contain no newline, and joined by newlines they are the text |
| Wrapping.RowsPerLine | crates/tea-agent/src/render.rs:1256-1291 | an empty line gets one empty row, a line of blanks none, any other at least one, all without blanks around them |
| Wrapping.WrappingKeepsInk | crates/tea-agent/src/render.rs:1251-1291 | the non-space characters of the rows are those of the text, in order |
| Wrapping.EveryRowFits | crates/tea-agent/src/render.rs:1251-1291 | every row fits the width or is a single scalar |
| Wrapping.EveryBreakIsJustified | crates/tea-agent/src/render.rs:1251-1291 | for every line of every text: its rows stand together, are the line up to dropped blanks, and end inside a word only if the word is too wide |
| Wrapping.RowIsFullUnless | crates/tea-agent/src/render.rs:1266-1286 | a row could have taken the next word if and only if the scan stopped right behind a word, at a space, with an earlier space to cut at; for both wrappers |
| Wrapping.RawCutIs | crates/tea-agent/src/render.rs:1281-1285 | the raw wrapper cuts where that says |
| Wrapping.ShortRow | crates/tea-agent/src/render.rs:1281-1286 | "ab cd ef" at width 5 starts with the row "ab" |
| StyledWrapping.WrapStyledLine | crates/tea-agent/src/render.rs:1001-1063 | the loop ends and computes the recursive wrapping |
| StyledWrapping.StyledWrappingKeepsInk | crates/tea-agent/src/render.rs:1001-1063 | every non-space cell appears once, in order, with its own style |
| StyledWrapping.StyledLineIsWoven | crates/tea-agent/src/render.rs:1001-1063 | the rows, with at most one space skipped after each, are the line's cells; leading blanks are kept if and only if indentation is preserved |
| StyledWrapping.TextIsKeptIffStyled | crates/tea-agent/src/render.rs:1005-1010 | the whole text is shown if and only if nothing visible lies past the last style |
| StyledWrapping.EveryStyledRowFits | crates/tea-agent/src/render.rs:1001-1063 | every row fits the width or is a single scalar |
| Wave.StartUntilFull | evals/controller.py:669-678 | starts in plan order until stopped, exhausted or at the limit |
| Wave.SettleAll | evals/controller.py:681-691 | each completed attempt is recorded once and a failure stops the wave if asked to |
| Wave.NeverOverLimit | evals/controller.py:642-691 | at every moment at most the limit is outstanding, and nothing starts after a stopping failure |
| Wave.ExecuteWave | evals/controller.py:618-705 | for every completion order: a prefix of the plan, in plan order, with its own outcomes; everything if never stopped; stopped if and only if an attempt failed and failures stop |

## Left out

- Sockets, threads, timeouts, file permissions, terminal modes and process spawning; a connection is a byte sequence.
- A terminal that attaches while the runtime's decoder still holds bytes, and decoder resets on suspend and resume, which discard them; a handoff session begins with an empty decoder and has no resets.
- The text of pasted input after lossy UTF-8 conversion, and terminal sizes.
- Calendar.CivilIsCorrect: day counts are mathematical integers; counts so close to the 64-bit limits that the source's additions overflow are not modelled.
- `current_utc_date` formatting and `is_iso_date`: only easier members.
- Projection.FirstErrorIsShown: fingerprints are given values, so nothing is claimed about collisions.
- PromptLayout.CanonicalRequestSurfaceBytes: tool definitions are opaque bytes; JSON text encoding is not modelled.
- Diagnostic fingerprints, ratios and changed-component lists of a measurement.
- Waiter-id wrap-around in the cancellation token after 2^64 registrations.
- EffectGate.OkNeedsOneRelease: stated while fewer than 2^64 actions have parked; beyond that ids repeat.
- Commit.CancellationCannotSplit: a gate that reports failure is taken not to have written, and the run's settlement to Idle is the owner's own step.
- The host's durable store, hooks, provider transports and the rest of the run loop.
- RequestPort.CoreCompactionRequestPort.FinishBegin: ticket numbers do not wrap, which one admission per operation rules out.
- Status texts of the warmer, dollar economics and request contents; the savings decision is an arbitrary answer.
- WarmerRuns.OnlyTheCurrentPlanIsSent: stated while the 64-bit generation has not wrapped.
- WarmerRuns.SendsFitInAnHour: stated for a clock that does not go back and a generation that has not wrapped; `Duration` overflow panics are not modelled.
- SchemaValidation.ValidateValue: the wording of failures and the order among object members are not modelled; `enum`, `const` and `uniqueItems` compare values by representation as the source does.
- JSON parsing and printing.
- StyledWrapping.WrapStyledLine: that lines carry one style per character is the constructors' doing and not modelled.
- HandoffEvents.ChainKeepsEvents: all decoder calls happen at one instant, so the escape timer plays no part; so too for HandoffExactly.ChainExactly.
- Wrapping.WrapRawText: positions count scalars instead of UTF-8 bytes.
- Wave.ExecuteWave: worker exceptions, staggering, the observed activity peak and the check that items share one baseline are not modelled.
- `CompletionSet`, `LiveRequestLedger`, trace, queue, routing, composer, tool search, themes, Markdown and tables: only easier members, or floating-point ranking.
