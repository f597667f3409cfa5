# Verified models of the desktop body and the Host

Dafny models of the state machines, loops and parsers in `ene-body` (the desktop
body) and `ene-core` (the Host), with proofs of the properties they exist for.

Where the source updates state in place, the model has a class whose methods are
proved against a function on the state's value (`View()`, `Now()`), and the
properties are lemmas about that function and about all runs of it. A run is a
sequence of states joined by atomic steps; each step is one lock section of the
source, except where noted below.

| file | what it models |
|---|---|
| `BodyIpc.dfy` | the length-prefixed codec between body and parent, and the loop that drains it |
| `HitTestMask.dfy` | the pointer hit test: a 4-pixel occupancy grid with a cached box |
| `WorkerShutdown.dfy` | the registry of effect workers and their cleanup obligations |
| `ControlSeat.dfy` | the confirmation seat: requests, sessions, capacity |
| `Connections.dfy` | the connection table: phases, supersession, nonces, replay window |
| `Presentations.dfy` | presentation receipts, the retired ring, per-connection references |
| `MemoryPages.dfy` | the paged memory and revision views |
| `DeletionWalk.dfy` | the persisted round-robin walk over unfinished deletions |
| `HoldBackoff.dfy` | the retry schedule of held deletions |
| `DirectoryPages.dfy` | the parser for Windows directory records |
| `TextStreams.dfy` | the text stream of a dialogue turn |
| `Prelude.dfy` | options, machine integers, ascending indices, two facts about finite sets |

Assumptions of the model:

- Ids that the source draws at random (connections, requests, sessions, receipts,
  wires) are fresh: a step that issues one takes an id not issued before.
- The clock, the store's answers, the network and child processes are parameters;
  a lemma holds for all of them.
- `usize` has 64 bits. 32-bit products that can wrap in `render.rs`, and the
  saturating 64-bit counters, are written out.
- `finish_worker` reads a flag, a slot and two process states and then removes the
  worker, without one lock over all of it (action.rs:924-940). With the call taken as
  one step, nothing is lost in any interleaving (`AtomicNoObligationLost`,
  `AtomicShutdownIsClean`). With the reads as separate steps, `NeverLostIff` says
  exactly which interleavings lose nothing, and `DisturbedFinishLosesObligation` is
  one that does.

Six results differ from what one would expect of the code at first sight:

- `opaque_rectangles`, `bounds` and the grip scan are exact if and only if no set
  cell has an edge at 2^32, which takes an image more than 2^32 - 4 pixels wide or
  high (`ExactCoverIff`, `BoundsArePixelBoxIff`, `BandEdgeIsTrueIff`,
  `GripComparesTrueEdgeIff`). On such an image the grip test's `band_right != 0` is
  not always true (`WidestHasNoEdge`).
- An operation that is missing from one page of held deletions loses its backoff
  (`AbsenceForgets`), and once the tick counter has saturated nothing is held back
  (`SaturationEndsBackoff`).
- With more unfinished operations than fit on one page, every operation is missing from
  one page in three, so the longer gaps of the backoff never occur (`NoLongBackoff`).
- An operation whose handling always fails starves every operation behind it
  (`StuckStarves`).
- A completed close does not say that the whole text was sent: the answer to the last
  push of a turn is ignored (`CompletedStreamIsWholeIff`, `CompletedWithoutText`).
- A directory record's name may reach into the next record: a page is accepted if and
  only if its records form a chain, with each name only bounded by the page
  (`AcceptedIff`).

## Model

| member | source | states |
|---|---|---|
| BodyIpc.FrameLen | apps/ene-body/src/ipc.rs:323-342 | a length is returned only when the whole frame is there, and then equals 4 plus the big-endian prefix, within the limit |
| BodyIpc.BigEndianRoundTrip | apps/ene-body/src/ipc.rs:308-342 | a written length prefix reads back, whatever follows |
| BodyIpc.FirstByteWeighsMost | apps/ene-body/src/ipc.rs:323-342 | prefixes order their numbers by the first byte that differs, so the byte order is big-endian |
| BodyIpc.FrameLenIff | apps/ene-body/src/ipc.rs:323-342 | every verdict on a length with its numbers: what is missing, what is too large, what is whole |
| BodyIpc.CodecErrors | apps/ene-body/src/ipc.rs:308-352 | which error encoding and decoding answer, and when |
| BodyIpc.FramedLen | apps/ene-body/src/ipc.rs:308-342 | a frame followed by anything has exactly its own length |
| BodyIpc.CodecRoundTrip | apps/ene-body/src/ipc.rs:308-352 | decoding an encoded message, with anything behind it, yields the message and the number of bytes it took |
| BodyIpc.FrameLenStable | apps/ene-body/src/ipc.rs:323-342 | more bytes never change a frame length or an oversize verdict already reached |
| BodyIpc.DrainSplit | apps/ene-body/src/run.rs:279-306 | draining a buffer, then its leftover with more bytes, equals draining all at once |
| BodyIpc.FeedIsDrain | apps/ene-body/src/run.rs:183-205 | any sequence of reads, drained one by one, equals one drain of the whole stream: same log, same verdict |
| BodyIpc.ChunkIndependence | apps/ene-body/src/run.rs:183-306 | two ways of splitting the same bytes into reads give the same handled commands, the same stop and the same fatal verdict |
| BodyIpc.LeftoverBound | apps/ene-body/src/run.rs:279-306 | what a drain that goes on waiting leaves is less than one maximal frame |
| BodyIpc.BufferBound | apps/ene-body/src/run.rs:183-205 | with reads of 4096 bytes the buffer never exceeds 69635 bytes |
| BodyIpc.DrainHandlesWire | apps/ene-body/src/run.rs:279-306 | draining a concatenation of in-limit frames handles exactly the decodable bodies, in order, up to and including a shutdown |
| BodyIpc.DrainConsumesFrames | apps/ene-body/src/run.rs:279-306 | for any bytes, what a drain consumed is a sequence of whole in-limit frames and its log is exactly their decodable bodies |
| BodyIpc.StreamRoundTrip | apps/ene-body/src/ipc.rs:308-352 | messages sent among in-limit frames that do not decode arrive exactly and in order, however the stream is split |
| BodyIpc.CommandLoop.DrainCommands | apps/ene-body/src/run.rs:279-306 | the loop handles and consumes what the drain function says and keeps the rest |
| BodyIpc.CommandLoop.Run | apps/ene-body/src/run.rs:183-205 | the read arm over any reads ends with the log, buffer and verdict of feeding them |
| HitTesting.ExactCoverIff | apps/ene-body/src/render.rs:158-180 | the rectangles are non-empty, disjoint, inside the image and cover exactly the opaque pixels if and only if no set cell's edge wraps; so always up to 2^32 - 4 pixels each way |
| HitTesting.BoundsArePixelBoxIff | apps/ene-body/src/render.rs:264-285 | the cached box is the tight pixel box of the opaque pixels if and only if no set cell's edge wraps |
| HitTesting.BandEdgeIsTrueIff | apps/ene-body/src/render.rs:126-156 | the grip scan finds the true right edge of the band if and only if no cell of the band has a wrapping right edge |
| HitTesting.GripComparesTrueEdgeIff | apps/ene-body/src/render.rs:126-156 | behind the earlier checks, the pointer's row is in the band and the scanned edge is the true one, right of the pointer and not zero, if and only if neither the pointer's bottom edge nor a right edge of the band wraps |
| HitTesting.GripComparesTrueEdge | apps/ene-body/src/render.rs:126-156 | so it is whenever no set cell's edge wraps, in particular up to 2^32 - 4 pixels each way |
| HitTesting.GripInPixels | apps/ene-body/src/render.rs:126-156 | when no edge wraps, the answer said of pixels alone: an opaque pixel hits if and only if the lowest opaque pixel is less than the grip below it, and no opaque pixel in the cell rows that reach that band lies the grip or more to its right |
| HitTesting.BandEdgeNonzeroIff | apps/ene-body/src/render.rs:126-156 | the scanned edge is not zero if and only if some row of the band ends in a cell whose right edge does not wrap |
| HitTesting.WidestHasNoEdge | apps/ene-body/src/render.rs:126-156 | on the mask 2^32 - 1 pixels wide that marking the first and the last cell and dilating builds, a pixel passes the earlier checks and the scanned edge is zero |
| HitTesting.HitTestMask.Mark | apps/ene-body/src/render.rs:264-285 | exactly the marked grid cell is added and the box stays tight |
| HitTesting.HitTestMask.Contains | apps/ene-body/src/render.rs:114-124 | true exactly for the pixels of set cells, on the image |
| HitTesting.HitTestMask.DilateOnce | apps/ene-body/src/render.rs:245-262 | a cell is set afterwards exactly when an originally set cell is at most one step away, diagonals included |
| HitTesting.HitTestMask.OpaqueRectangles | apps/ene-body/src/render.rs:158-180 | one rectangle for each maximal run of set cells, in row order |
| HitTesting.HitTestMask.ContainsResizeGrip | apps/ene-body/src/render.rs:126-156 | hit exactly when the pixel is opaque, in the grip band and within the grip width of the scanned edge; when no edge wraps, exactly when it is opaque and in the grip as the pixels alone define it |
| HitTesting.FromMarks | apps/ene-body/src/render.rs:76-112 | after any marks and one dilation, the set cells are those within one step of a marked cell |
| WorkerShutdown.AtomicNoObligationLost | apps/ene-core/src/action.rs:685-1083 | with `finish_worker` atomic, in every interleaving each registered obligation is discharged, in a registered worker's slot, or in the hand of a cleaner, possibly a cancelled one, with that worker registered and finalizing |
| WorkerShutdown.AtomicShutdownIsClean | apps/ene-core/src/action.rs:980-990 | with `finish_worker` atomic, in every interleaving: when shutdown verifies, every worker and its helper were reaped, every obligation is discharged, no slot is filled and nothing is stuck with a cancelled cleaner |
| WorkerShutdown.ShutdownDischargedEach | apps/ene-core/src/action.rs:685-1083 | and the run then contains, for every obligation ever registered, the step that discharged it |
| WorkerShutdown.DischargedIff | apps/ene-core/src/action.rs:863-1083 | an obligation becomes discharged exactly by a helper that reports it retains nothing, staging that finished cleanly, or a cleanup that removed the object or found none for an unprepared obligation; nothing takes that back |
| WorkerShutdown.SlotFate | apps/ene-core/src/action.rs:737-1083 | a filled slot whose obligation is not discharged is emptied only by a cleaner that then has it in hand |
| WorkerShutdown.SlotIff | apps/ene-core/src/action.rs:737-1083 | exactly which steps empty a slot and which fill it |
| WorkerShutdown.HandFate | apps/ene-core/src/action.rs:992-1083 | an obligation in hand stays there, is discharged, goes back as it was, or is stuck with its cancelled cleaner |
| WorkerShutdown.OwedIff | apps/ene-core/src/action.rs:737-753 | an obligation is owed from its registration on |
| WorkerShutdown.PreparedOnlyByAnswer | apps/ene-core/src/action.rs:755-876 | an obligation becomes prepared only when the helper answers so while it is in the slot |
| WorkerShutdown.AnswerPrepares | apps/ene-core/src/action.rs:755-876 | and that answer does prepare it |
| WorkerShutdown.ShutdownReapedEach | apps/ene-core/src/action.rs:685-990 | when shutdown verifies, in any interleaving, the run contains for every worker the step that reaped its child |
| WorkerShutdown.ShutdownStoppedEach | apps/ene-core/src/action.rs:755-990 | and behind every helper that was attached the step that ended it |
| WorkerShutdown.ReapedIff | apps/ene-core/src/action.rs:685-990 | exactly which steps mark a child as reaped, a helper as ended, and a helper as running |
| WorkerShutdown.StoppingIff | apps/ene-core/src/action.rs:946-978 | shutdown stops exactly the helpers that it finds attached |
| WorkerShutdown.RunnerMoves | apps/ene-core/src/action.rs:685-922 | where each step takes a runner from where it stands, and no other way |
| WorkerShutdown.PlainWorkerEnds | apps/ene-core/src/action.rs:685-990 | a run in which a worker is registered, reaped and removed, and shutdown verifies |
| WorkerShutdown.NeverLostIff | apps/ene-core/src/action.rs:685-1083 | with `finish_worker` split at its reads: at every point of an interleaving every obligation is accounted for if and only if no removal has outdated reads and an undischarged obligation |
| WorkerShutdown.NoObligationLost | apps/ene-core/src/action.rs:685-1083 | the accounting above holds after every interleaving without such a removal |
| WorkerShutdown.NothingAbandoned | apps/ene-core/src/action.rs:992-1083 | in an interleaving in which no cleaner is cancelled, none of them is stuck with a cancelled one |
| WorkerShutdown.VerifiedShutdown | apps/ene-core/src/action.rs:980-990 | when shutdown verifies, in any interleaving, every worker and its helper were reaped; and after one that loses nothing, every obligation ever registered is discharged |
| WorkerShutdown.VerifiedShutdownIsClean | apps/ene-core/src/action.rs:980-990 | when all removals had current reads, no slot is filled and nothing is stuck with a cancelled cleaner either |
| WorkerShutdown.CleanersExclude | apps/ene-core/src/action.rs:992-1083 | at most one cleaner works on a worker at a time, in any interleaving |
| WorkerShutdown.NoneRegisteredAfterClosing | apps/ene-core/src/action.rs:685-735 | after admission closed no worker is registered, in any interleaving |
| WorkerShutdown.AtomicRunExpands | apps/ene-core/src/action.rs:924-940 | an interleaving with atomic calls is an interleaving of their four steps in which every removal has current reads |
| WorkerShutdown.AtomicFinishUndisturbed | apps/ene-core/src/action.rs:924-940 | the four steps of a `finish_worker` call with nothing in between are the atomic step |
| WorkerShutdown.RemovalLosesIff | apps/ene-core/src/action.rs:924-940 | a removal loses an obligation if and only if the flag is set or the slot filled again at that moment and the obligation is owed and undischarged |
| WorkerShutdown.DisturbedFinishLosesObligation | apps/ene-core/src/action.rs:924-978 | a concrete interleaving with a shutdown under way in which shutdown verifies although an obligation was neither discharged nor held |
| WorkerShutdown.RunnerKeeps | apps/ene-core/src/action.rs:685-922 | every step of a runner keeps the accounting of obligations for all workers |
| WorkerShutdown.CleanerKeeps | apps/ene-core/src/action.rs:992-1083 | every step of a cleaner, cancellation included, keeps it |
| WorkerShutdown.FinisherKeeps | apps/ene-core/src/action.rs:924-940 | every step of `finish_worker` that loses nothing keeps it |
| WorkerShutdown.CleaningAlone | apps/ene-core/src/action.rs:992-1083 | the steps of one cleaning with nothing in between, and the finish behind them, leave exactly what the methods below promise of a worker |
| WorkerShutdown.WorkerRegistry.SpawnRegistered | apps/ene-core/src/action.rs:685-735 | registers a new worker unless admission is closed |
| WorkerShutdown.WorkerRegistry.RegisterStagingObligation | apps/ene-core/src/action.rs:737-753 | fills an empty slot and refuses a full one |
| WorkerShutdown.WorkerRegistry.FinishWorker | apps/ene-core/src/action.rs:924-940 | without interference: the atomic step, which removes the worker exactly when it is not finalizing, owes nothing and was reaped, and otherwise names the first obstacle |
| WorkerShutdown.WorkerRegistry.SettleWorkerObligation | apps/ene-core/src/action.rs:992-1028 | without interference: discharges the obligation or puts it back, removes the worker only when nothing is owed and it was reaped, leaves a claimed worker alone |
| WorkerShutdown.WorkerRegistry.FinalizeShutdown | apps/ene-core/src/action.rs:1030-1083 | without interference, over all workers: exactly the claimed, owing or live ones stay, and success means no obligation is left |
| ControlSeat.SessionsAreSeatBound | apps/ene-core/src/host_control.rs:95-378 | in every reachable state live sessions carry the current holder's generation and point to distinct requests awaiting the Owner |
| ControlSeat.CapacityHolds | apps/ene-core/src/host_control.rs:159-212 | at most 64 requests await confirmation, at most 64 sessions exist, at most 319 requests are stored |
| ControlSeat.ConsumedOnce | apps/ene-core/src/host_control.rs:274-324 | each session is consumed at most once, by completion, rejection, expiry or seat change |
| ControlSeat.HandOutConsumes | apps/ene-core/src/host_control.rs:290-324 | a request is handed out exactly when a live, unexpired session is presented with its nonce, and that consumes it |
| ControlSeat.AcceptedIsHandedOut | apps/ene-core/src/host_control.rs:184-306 | a request accepted with a GUI seated, minted and delivered, and presented under the challenge's nonce before the deadline, without a seat change since, is handed out with its operation and whatever was staged for it |
| ControlSeat.AcceptAnswers | apps/ene-core/src/host_control.rs:184-212 | a request is refused exactly when 64 are pending after the sweep, awaits the Owner exactly when someone is seated, and is unavailable otherwise; its stored state is the answer |
| ControlSeat.MintAnswers | apps/ene-core/src/host_control.rs:223-272 | over runs a mint is denied exactly when nobody is seated and unavailable exactly when the challenge cannot be delivered; else the session holds the nonce, the generation, the deadline, the request and the operation |
| ControlSeat.OutboundIffSeated | apps/ene-core/src/host_control.rs:109-133 | over runs there is a channel to the GUI exactly when there is a holder |
| ControlSeat.StageAnswers | apps/ene-core/src/host_control.rs:326-356 | a secret is taken exactly for a live, unexpired credential session under its nonce, generation and name, and changes nothing else |
| ControlSeat.WhySettled | apps/ene-core/src/host_control.rs:96-378 | which state a pending request has after each step, and that it leaves pending only for the reason that state names |
| ControlSeat.AcceptedIsLast | apps/ene-core/src/host_control.rs:184-212 | an accepted request is younger than every stored one, until the counter saturates |
| ControlSeat.RetiredInOrder | apps/ene-core/src/host_control.rs:159-212 | over runs a settled request that is retired was accepted before every settled one that stays, until the counter saturates |
| ControlSeat.EarlierGuiEnds | apps/ene-core/src/host_control.rs:109-133 | over runs, once another GUI has been spawned, closing the seat for an earlier one changes nothing, until the generations saturate |
| ControlSeat.SettledIsFinal | apps/ene-core/src/host_control.rs:358-378 | a settled request never changes again until it is retired, and a retired one never comes back |
| ControlSeat.AcceptKeeps | apps/ene-core/src/host_control.rs:184-212 | accepting keeps every capacity and ownership invariant |
| ControlSeat.MintKeeps | apps/ene-core/src/host_control.rs:223-272 | minting does too, wherever the seat has changed since the request was accepted |
| ControlSeat.InvalidateKeeps | apps/ene-core/src/host_control.rs:96-133 | a seat change drops every session together with the pending state of its request |
| ControlSeat.FirstPartyControlSeat.SeatSpawnedGui | apps/ene-core/src/host_control.rs:109-120 | a new generation holds the seat and every session is invalidated |
| ControlSeat.FirstPartyControlSeat.SeatClosed | apps/ene-core/src/host_control.rs:122-133 | only the holder's own generation empties the seat |
| ControlSeat.FirstPartyControlSeat.SettleExpiredSessions | apps/ene-core/src/host_control.rs:146-157 | exactly the due sessions go and exactly their requests are rejected |
| ControlSeat.FirstPartyControlSeat.SettleExpiredSession | apps/ene-core/src/host_control.rs:274-288 | the same for one session |
| ControlSeat.FirstPartyControlSeat.RetireSettledRequests | apps/ene-core/src/host_control.rs:159-182 | retires only settled requests, the oldest first, until fewer than 256 are left |
| ControlSeat.FirstPartyControlSeat.AcceptRequest | apps/ene-core/src/host_control.rs:184-212 | refuses at 64 pending requests, else stores the request after the sweep and the retirement |
| ControlSeat.FirstPartyControlSeat.Mint | apps/ene-core/src/host_control.rs:223-272 | a session is stored and delivered, or the request becomes unavailable and no session stays |
| ControlSeat.FirstPartyControlSeat.Take | apps/ene-core/src/host_control.rs:290-306 | removes and hands out a live session presented with its nonce under the current generation |
| ControlSeat.FirstPartyControlSeat.Reject | apps/ene-core/src/host_control.rs:308-324 | removes a live session presented with its nonce |
| ControlSeat.FirstPartyControlSeat.StageCredentialSecret | apps/ene-core/src/host_control.rs:326-356 | stores the secret only in the session whose pending credential has the named target |
| Connections.CurrentExactKept | apps/ene-core/src/conn.rs:127-145 | every step keeps: the current map names a connection exactly when its record is authenticated and paired with the device |
| Connections.CurrentBijection | apps/ene-core/src/conn.rs:284-326 | over all runs no device has two authenticated connections |
| Connections.InstallSupersedes | apps/ene-core/src/conn.rs:284-317 | installing makes the connection current and supersedes and reports the previous one exactly when there is one |
| Connections.PhasesMoveForward | apps/ene-core/src/conn.rs:148-410 | phases only move forward over any stretch of a run |
| Connections.SupersessionIsFinal | apps/ene-core/src/conn.rs:444-455 | after supersession, close or the admission stop the commit never runs for the earlier connection again |
| Connections.NonceOnce | apps/ene-core/src/conn.rs:263-282 | a nonce is handed out at most once per connection |
| Connections.NonceOffered | apps/ene-core/src/conn.rs:224-282 | over runs a nonce is handed out exactly when admission is open, the connection stands challenged and none has been handed out to it |
| Connections.NonceOfChallenge | apps/ene-core/src/conn.rs:224-282 | over runs the nonce handed out is the one of the connection's challenge |
| Connections.NonceAnswers | apps/ene-core/src/conn.rs:263-282 | every answer to a request for a nonce, and when it is given |
| Connections.ReadyCarries | apps/ene-core/src/conn.rs:148-387 | over runs a message let through acts under the class of its acceptance, the terms of its challenge and the device of its pairing or challenge, which the envelope claimed |
| Connections.ReadyIff | apps/ene-core/src/conn.rs:328-387 | a message is let through exactly when admission is open, its id is not in the window, its incarnation the pinned one and its device the bound one |
| Connections.PhaseMoves | apps/ene-core/src/conn.rs:148-410 | every change of a phase, exactly: nothing else moves a connection, and only closing removes it |
| Connections.DeadlineGiven | apps/ene-core/src/conn.rs:148-211 | over runs the deadline is the one of the acceptance, the pairing or the first wait for the Owner, whichever came last |
| Connections.ChallengeAnswers | apps/ene-core/src/conn.rs:224-261 | every answer to a challenge: accepted connections are bound by it, paired ones keep their device |
| Connections.PairAndInstallAnswers | apps/ene-core/src/conn.rs:179-199 | which connections can be paired, and every answer to an installation |
| Connections.AcceptAndStop | apps/ene-core/src/conn.rs:148-177 | what a new connection starts with, and that stopping only closes admission |
| Connections.CloseAnswers | apps/ene-core/src/conn.rs:397-410 | closing removes exactly the record, reports its device, and takes the device's entry exactly when it was the current one |
| Connections.WindowRefinesLog | apps/ene-core/src/conn.rs:328-387 | the window is the tail of the unbounded log, without repeats, and all accepted messages of a connection share one incarnation |
| Connections.RepeatNeedsDistinctOthers | apps/ene-core/src/conn.rs:328-387 | an id is recorded twice only with 128 distinct other ids in between |
| Connections.ConnectionTable.NotePaired | apps/ene-core/src/conn.rs:179-199 | pairs an accepted connection that has no device yet |
| Connections.ConnectionTable.NoteAwaitingOwnerConfirmation | apps/ene-core/src/conn.rs:201-211 | sets the waiting flag and the new deadline the first time, in any phase |
| Connections.ConnectionTable.NoteChallenged | apps/ene-core/src/conn.rs:224-261 | stores terms and nonce for a connection that may be challenged |
| Connections.ConnectionTable.TakeNonce | apps/ene-core/src/conn.rs:263-282 | hands out the nonce of a challenged connection and removes it |
| Connections.ConnectionTable.InstallAuthenticated | apps/ene-core/src/conn.rs:284-317 | installs a challenged connection and supersedes the device's previous one |
| Connections.ConnectionTable.LiveFor | apps/ene-core/src/conn.rs:328-387 | decides and records a message in the bounded window |
| Connections.ConnectionTable.NoteClosed | apps/ene-core/src/conn.rs:397-410 | removes the record and, if it was current, its device's entry |
| Connections.ConnectionTable.CommitsFor | apps/ene-core/src/conn.rs:444-455 | the commit runs exactly for an existing connection that is current |
| Presentations.ReceiptIdsDistinct | apps/ene-core/src/presentation.rs:174-190 | live ids are distinct and disjoint from the ring, which holds at most 64 ids, none twice |
| Presentations.EveryExitRetires | apps/ene-core/src/presentation.rs:174-210 | every issued id is live or retired, never both, retired once; the ring is the last 64 retirements |
| Presentations.ProceedOnce | apps/ene-core/src/presentation.rs:1284-1328 | an acknowledgement of an id proceeds at most once |
| Presentations.ProceedsIff | apps/ene-core/src/presentation.rs:1284-1328 | an acknowledgement proceeds if and only if a live, unexpired receipt fits its connection, incarnation, client, round and generation; only that receipt, or the expired one it names, leaves |
| Presentations.HandedOnIsInstalled | apps/ene-core/src/presentation.rs:1280-1345 | over runs the receipt handed on is the installed one with the entries that narrowing left; an acknowledgement that misfits the installed receipt is stale by its connection or by its view, whichever applies first |
| Presentations.VerdictIff | apps/ene-core/src/presentation.rs:1305-1328 | each verdict on a live receipt and when it is given, and which receipts are left |
| Presentations.UnsatisfiedSplits | apps/ene-core/src/presentation.rs:648-658 | narrowing treats the entries one by one, in order |
| Presentations.UnsatisfiedOne | apps/ene-core/src/presentation.rs:648-658 | and drops exactly the satisfied ones |
| Presentations.LateAcknowledgement | apps/ene-core/src/presentation.rs:1288-1304 | a late acknowledgement is unknown exactly when its id is not among the last 64 retired, and stale-connection exactly when it was issued to another connection |
| Presentations.CloseStep | apps/ene-core/src/presentation.rs:2057-2075 | closing leaves no entry of the connection in any of the seven tables and changes no other connection's, in every state that keeps the invariant |
| Presentations.CloseRemovesExactlyItsOwn | apps/ene-core/src/presentation.rs:2057-2075 | so over all runs, in which receipts are installed, references minted, items carried, cursors, subscriptions and resume slots stored |
| Presentations.TablesFill | apps/ene-core/src/presentation.rs:425-477 | a run after which one connection has an entry in every table |
| Presentations.ExpiryRemovesExactlyDue | apps/ene-core/src/presentation.rs:2077-2089 | expiry removes exactly the connection's due receipts |
| Presentations.MintKeepsOneToOne | apps/ene-core/src/presentation.rs:463-477 | minting keeps values and wires one-to-one per connection and is idempotent |
| Presentations.RefsOneToOne | apps/ene-core/src/presentation.rs:463-489 | over all runs no task and no report source has two wires on one connection |
| Presentations.PresentationState.Retire | apps/ene-core/src/presentation.rs:175-184 | a known id changes nothing, a new one enters the ring of 64 |
| Presentations.PresentationState.InstallReceipt | apps/ene-core/src/presentation.rs:981-1000 | a replaced receipt is retired |
| Presentations.PresentationState.NarrowReceipt | apps/ene-core/src/presentation.rs:648-658 | re-emitting drops the satisfied entries of a receipt that is still the live one, and nothing else |
| Presentations.PresentationState.ApplyAck | apps/ene-core/src/presentation.rs:1280-1328 | the verdict, and which receipts stay, for every acknowledgement |
| Presentations.PresentationState.DropConnection | apps/ene-core/src/presentation.rs:2057-2075 | drops the connection's entries and retires exactly its receipts |
| Presentations.PresentationState.ExpireDue | apps/ene-core/src/presentation.rs:2077-2089 | retires exactly the due receipts |
| Presentations.PresentationState.InvalidateForErasure | apps/ene-core/src/presentation.rs:192-210 | retires every receipt, forgets everything else, counts receipts and carried references |
| Presentations.PresentationState.MintTaskRef | apps/ene-core/src/presentation.rs:463-481 | the wire that a task already has on the connection, or the new one |
| MemoryPages.CapKeepsCharacters | apps/ene-core/src/setup.rs:955-966 | a line that is too long keeps exactly the characters that fit, and a newline |
| MemoryPages.FittingIsMost | apps/ene-core/src/setup.rs:955-966 | the characters kept fit into the cap and one more would not |
| MemoryPages.CappedLine | apps/ene-core/src/setup.rs:955-966 | the loop cuts at the last character boundary within the cap |
| MemoryPages.PageBounds | apps/ene-core/src/setup.rs:838-858 | a page renders one to twenty entries within the budget and one newline, and stops short only for want of room |
| MemoryPages.CursorMeaning | crates/ene-store/src/learning.rs:45-51 | a page starts at the first entry that the query's condition lets through: the memories older than the one named, of whichever companion, none for an unknown memory, every higher revision |
| MemoryPages.BodyOfVisit | apps/ene-core/src/setup.rs:838-862 | a page's body is the lines of the entries it shows, only the first capped, within 196609 bytes |
| MemoryPages.LineStands | apps/ene-core/src/setup.rs:838-858 | in a body every line stands where the lines and separators before it end, with its separator behind it, and nothing else is there |
| MemoryPages.TextShowsLine | apps/ene-core/src/setup.rs:838-862 | in the text shown, the line of every entry that the page renders stands there too, as far as the end of the last page is not trimmed |
| MemoryPages.WalkShowsShelf | apps/ene-core/src/setup.rs:809-938 | over a walk that is over, the bodies of its pages one behind the other are the lines of the whole shelf in order, capped where a page starts |
| MemoryPages.DeliversIff | apps/ene-core/src/setup.rs:838-858 | a page delivers exactly when one of the entries it renders does |
| MemoryPages.MemoryAnswerIff | apps/ene-core/src/setup.rs:809-862 | which answer a request for memories gets, in terms of the companion, the cursor, the store and the entries behind the cursor |
| MemoryPages.RevisionAnswerIff | apps/ene-core/src/setup.rs:864-938 | the same for revisions, where zero asks for the first page |
| MemoryPages.AnswerWords | apps/ene-core/src/setup.rs:809-938 | the words of every answer that is no page |
| MemoryPages.PageOfVisit | apps/ene-core/src/setup.rs:838-862 | a page names a cursor unless it reaches the end, and the cursor is its last entry |
| MemoryPages.WalkListsEachOnce | apps/ene-core/src/setup.rs:809-938 | following the cursors shows every entry on exactly one page, in order, and ends after at most one page an entry |
| MemoryPages.CursorLineSurvives | apps/ene-core/src/setup.rs:859-862 | trimming takes only the newline behind the cursor line: the text shown is the body and the line that names the cursor |
| MemoryPages.TrimEndOfText | apps/ene-core/src/setup.rs:862 | on UTF-8 text, trimming removes exactly the white characters at the end |
| MemoryPages.RenderMemoryList | apps/ene-core/src/setup.rs:809-862 | the text shown and whether it delivers, in every case: no companion, unreadable cursor, failing store, empty list, page with its cursor line |
| MemoryPages.RenderRevisionPage | apps/ene-core/src/setup.rs:864-938 | the same for revisions, where cursor zero asks for the first page |
| DeletionWalk.WalkIsFair | apps/ene-core/src/targeted_deletion.rs:207-257 | an operation that stays unfinished is examined within ceil(N / limit) + 1 passes from any cursor, when they succeed |
| DeletionWalk.StuckStarves | apps/ene-core/src/targeted_deletion.rs:275-297 | once a pass ends at an operation whose handling always fails, every later pass examines the same operations, up to that one |
| DeletionWalk.ExaminedOrStuck | apps/ene-core/src/targeted_deletion.rs:207-299 | within the bound an operation is examined or a pass is stuck, and behind a stuck pass it is examined exactly if that pass examined it |
| DeletionWalk.ExaminedExactly | apps/ene-core/src/targeted_deletion.rs:207-257 | while nothing finishes, an operation is first examined in exactly the pass given by the pages up to it, behind the pages up to the end when the cursor has passed it |
| DeletionWalk.PassExact | apps/ene-core/src/targeted_deletion.rs:220-256 | then a pass examines an operation exactly when it is one pass away and else brings it exactly one pass closer |
| DeletionWalk.NotThreeInARow | apps/ene-core/src/targeted_deletion.rs:220-256 | while nothing finishes and the operations do not fit on one page, none is on three pages in a row |
| DeletionWalk.EveryPageShowsAll | apps/ene-core/src/targeted_deletion.rs:220-256 | when they do and the cursor is at either end, every page shows all of them |
| DeletionWalk.PassCloser | apps/ene-core/src/targeted_deletion.rs:220-256 | every pass that does not examine the operation brings it at least one page closer |
| DeletionWalk.PagesIsCeiling | apps/ene-core/src/targeted_deletion.rs:220-256 | the page count used above is division rounded up |
| DeletionWalk.UnfinishedWalk.Page | apps/ene-core/src/targeted_deletion.rs:220-237 | the page behind the cursor, or from the start when that is empty |
| DeletionWalk.UnfinishedWalk.Advance | apps/ene-core/src/targeted_deletion.rs:243-256 | writes the cursor exactly when it moved |
| DeletionWalk.Pass | apps/ene-core/src/targeted_deletion.rs:259-299 | a successful pass examines its whole page and stores the next cursor; a failed one leaves the cursor |
| HoldBackoff.BackoffExact | apps/ene-core/src/targeted_deletion.rs:596-617 | an operation retryable at every tick is resumed exactly at the offsets 0, 1, 3, 7, 15, 23, ... until the tick counter saturates, and at every tick from then on |
| HoldBackoff.BackoffBound | apps/ene-core/src/targeted_deletion.rs:596-617 | so, below saturation, it is resumed at most 4 + T / 8 times at the offsets 0 to T |
| HoldBackoff.AppliedBound | apps/ene-core/src/targeted_deletion.rs:532-571 | whatever the store answers, failures included, at most 4 + T / 8 resumptions of an operation shown on every page are applied at the offsets 0 to T |
| HoldBackoff.AbsenceForgets | apps/ene-core/src/targeted_deletion.rs:619-621 | an operation that a page does not show as retryable loses its entry and is eligible at once |
| HoldBackoff.NoLongBackoff | apps/ene-core/src/targeted_deletion.rs:532-617 | so, while nothing finishes and the operations do not fit on one page, no operation gets beyond its second attempt in a row, and the gaps of four and eight ticks do not occur |
| HoldBackoff.FullBackoff | apps/ene-core/src/targeted_deletion.rs:532-617 | when they fit and the walk starts at either end, the exact schedule applies |
| HoldBackoff.SaturationEndsBackoff | apps/ene-core/src/targeted_deletion.rs:591-617 | with the tick counter saturated every operation is eligible |
| HoldBackoff.OwnEntryOnly | apps/ene-core/src/targeted_deletion.rs:532-571 | on a page an operation is resumed exactly when its own entry is eligible, and no other record changes its entry |
| HoldBackoff.ResumedExactly | apps/ene-core/src/targeted_deletion.rs:532-571 | the records resumed are, in the page's order, those shown as retryable whose operation was eligible when the page began |
| HoldBackoff.ResumedAtTurn | apps/ene-core/src/targeted_deletion.rs:547-568 | on any page a record is resumed exactly when its turn finds its operation retryable and eligible |
| HoldBackoff.HeldRetrySchedule.RecordResume | apps/ene-core/src/targeted_deletion.rs:602-617 | one more attempt, next eligible after 1, 2, 4 and then 8 ticks |
| HoldBackoff.HeldRetrySchedule.ResumePage | apps/ene-core/src/targeted_deletion.rs:532-571 | which records are resumed and what the schedule is afterwards, also when the store fails half-way |
| DirectoryPages.ReadRecord | apps/ene-core/src/staging_cleanup.rs:1339-1388 | the record at an offset or its first fault, with every read inside the page |
| DirectoryPages.ParsePage | apps/ene-core/src/staging_cleanup.rs:1331-1388 | the loop terminates on every buffer with the parse of its records |
| DirectoryPages.AcceptedIff | apps/ene-core/src/staging_cleanup.rs:1331-1388 | a page parses if and only if its records form a chain; it then yields the visible entries of the chain, which has at most one record for every 112 bytes |
| DirectoryPages.RefusedIff | apps/ene-core/src/staging_cleanup.rs:1331-1388 | a page is refused with a fault if and only if linked records lead from its start to a record with that fault |
| DirectoryPages.VisibleExactly | apps/ene-core/src/staging_cleanup.rs:1376-1379 | the visible entries are, in order, those named neither "." nor ".." |
| DirectoryPages.LastByteWeighsMost | apps/ene-core/src/staging_cleanup.rs:1350-1357 | fields order their numbers by the last byte that differs, so the byte order is little-endian |
| DirectoryPages.TrailFollows | apps/ene-core/src/staging_cleanup.rs:1331-1388 | following linked records yields their visible entries |
| DirectoryPages.RoundTrip | apps/ene-core/src/staging_cleanup.rs:1331-1388 | parsing any encoded list of entries returns it in order without the two dot entries |
| TextStreams.StreamGrammar | apps/ene-core/src/dialogue.rs:587-676 | whatever fails at whichever await: deltas 0 to n - 1, then at most a final frame n, then at most one close, completed only behind the final frame |
| TextStreams.SupersededSilence | apps/ene-core/src/dialogue.rs:1187-1269 | once the connection is superseded nothing but an interruption is sent |
| TextStreams.CompletedStreamIsWholeIff | apps/ene-core/src/dialogue.rs:1165-1269 | a turn with a completed close sends every text, in order, between the opening and the final frame if and only if no push aborted; the texts it sends are exactly those of the pushes that went on |
| TextStreams.CompletedWithoutText | crates/ene-companion/src/dialogue.rs:308-320 | a reply pushed once, at its end, whose push aborts for want of delivery evidence is completed without its text |
| TextStreams.DeltasAreThePublished | apps/ene-core/src/dialogue.rs:1219-1269 | the delta frames are exactly the pushes that passed every check, in their order and with their texts |
| TextStreams.OpenedIsClosed | apps/ene-core/src/dialogue.rs:1165-1216 | with room and a current connection every opened stream is closed, as completed exactly when the turn completed on a current premise |
| TextStreams.EndingExactly | apps/ene-core/src/dialogue.rs:1165-1216 | when the final frame, the completed close and the interruption are sent at the end of a turn, each exactly |
| TextStreams.ConsentGates | apps/ene-core/src/dialogue.rs:576-625 | when the acceptance and the opening are sent, that a stream which was not opened sends nothing else, and that a stale consent leaves at most an interruption |
| TextStreams.FlowIff | apps/ene-core/src/dialogue.rs:1219-1269 | each answer of a push said of its nine moments, on open, unopened and superseded streams |
| TextStreams.PublishedIff | apps/ene-core/src/dialogue.rs:1219-1269 | a push publishes exactly when each of its nine moments answers yes |
| TextStreams.FlowsInOrder | apps/ene-core/src/dialogue.rs:1219-1269 | every push has its own nine moments, one push behind the other |
| TextStreams.StreamGate.PushDelta | apps/ene-core/src/dialogue.rs:1219-1269 | a delta is sent and numbered exactly when all nine checks pass; the answer is decided by the first that fails |
| TextStreams.StreamGate.Finish | apps/ene-core/src/dialogue.rs:1165-1185 | the final frame and the completed close, or an interruption at the first check that fails |
| TextStreams.SubmitText | apps/ene-core/src/dialogue.rs:576-676 | the frames of a whole turn in every case, and what each push answers |

## Left out

- Windows, rendering, meshes and floating-point rasterisation: the mask takes an arbitrary sequence of marks instead.
- The MessagePack and JSON bodies: the codec is a parameter, a pair of functions of which the second inverts the first.
- What `handle_command` does with a command other than append it to the log and stop on shutdown.
- `tokio::select!`, wake-ups, channel capacity and cancellation, except the cancelled cleaner in `WorkerShutdown.dfy`.
- Processes, handles and the staging objects: a cleanup has one of three outcomes, a process is reaped or not.
- The parts of `ConnectionTable` that only read and format: `snapshot`, `phase_of`, `incarnation_of`, `admission_open`, `current_connection_for_incarnation`.
- The body of `execute_pending` and the store's answer to it: a taken request is settled with a given outcome.
- How a presentation pass is planned and what its cursors, subscriptions and resume slots say: they are stored, replaced and removed as opaque values.
- The text of a memory or revision line, the grounds of a revision and the coverage check: an entry comes with its line.
- MemoryPages.RenderLines: the two page loops of the source are one method here, with the newline behind a memory's line as a parameter.
- MemoryPages.RenderMemoryList: how an id is written in the cursor line is a parameter.
- MemoryPages.RenderRevisionPage: how a number is written in the cursor line is a parameter.
- WorkerShutdown.NoObligationLost: excludes the removals that lose an obligation, because the code does not; see the counterexample.
- WorkerShutdown.WorkerRegistry.FinishWorker: a call without interference; the interleaved steps are those of `FinisherNext`.
- WorkerShutdown.WorkerRegistry.SettleWorkerObligation: a call without interference; the interleaved steps are those of `CleanerNext`.
- WorkerShutdown.WorkerRegistry.FinalizeShutdown: a call without interference; the interleaved steps are those of `CleanerNext`.
- DeletionWalk.WalkIsFair: assumes that no operation is added meanwhile and that every pass succeeds; what a failing one does is `ExaminedOrStuck`.
- What driving an operation does to the store: the walk sees the set of unfinished operations shrink.
- Directory handles, deletion and the restart of an enumeration: only the page parser.
- TextStreams.SubmitText: the provider's turn is an arbitrary list of texts pushed and an arbitrary end; the source ends it at an aborted push except at the last one, whose answer it ignores. The frame counter does not wrap at 2^64.
- The individual conditions of the durable premise: one answer at each await.
- Worker, request and generation counters: worker ids do not wrap; request numbers and generations saturate as in the source.
