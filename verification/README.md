# Straw egress worker: a verified model of the framed stream protocol

Straw moves HTTP requests and raw tunnels between Control and an egress worker
in numbered, offset-checked, credit-limited frames. This project models the
worker's half and the receiving half of that protocol as they are written in
`egress/`, and proves what they guarantee, for every input, every arrival
trace and every interleaving. `dafny verify dfyconfig.toml` checks all of it.

## How the model is laid out

* **Receiving.** `StreamValidator` defines what a valid stream is, looking only
  at a whole list of frames, and shows the validator's counters to decide
  exactly that. `Network` feeds a validator whatever a network that drops,
  duplicates, reorders and corrupts delivers. `RequestBody` reassembles the
  request body, with referenced bodies from `BodyReference`, and `BodyDelivery`
  says when a body is delivered and what ends the read instead.
* **Sending.** `CreditGate` is the response credit gate, `ResponseEmitter` cuts
  and numbers what an executor sends, `ResponseCredit` counts bytes and frames
  against credit, and `ProgressFrames` says which frames the sends become.
  `RoundTrip` plays the emitter against the validator, and
  `CutSends` looks at the frames of sends that gave up.
  `Download` is the wait for the executor's result, `Cancellation` the rewrite
  of a cancelled result, and `DecodedStream` the progress frames and the result
  together. `CreditFlow` runs granter, grant queue and sender concurrently.
* **Raw tunnels.** `TunnelWire` records the order in which frames are numbered
  and the order in which they are published, which are separate steps.
  `RawTunnel` is the run loop and the download goroutine as a step relation;
  `TunnelSafety`, `TunnelCredit` and `TunnelIdle` prove what every interleaving
  keeps, `TunnelCauses` traces every ending to its cause and every event to its
  answer, `TunnelBounds` says when a goroutine waits, `TunnelOrder` which schedules publish in order, and `TunnelAtControl`
  what Control makes of either.
* **Worker and session.** `Admission` is the worker's admission and drain
  machine, `Session` the registration and heartbeat loops.
* `Frames` holds the wire vocabulary and Go's integer widths, `Naming` the
  subjects and the object-key scope.

Objects the source updates in place are classes (`Checker`, `BodyState`,
`ResponseCreditGate`, `Publisher`, `FrameBuilder`, `Worker`, `Runtime`); each
method is proved equal to a step of a specification function, and the results
are lemmas about those functions. `select` statements take their next event
from a list, so a theorem for all lists holds for every behaviour; a list that
ends early is a run that is still blocked. Concurrency is a step relation: any
sequence of steps is a schedule, and a step that is not enabled does nothing.
Time is a natural number read off the events.

## What the proofs found

The model follows the code. Where that is less than a reader may expect, the
exact condition under which the code delivers is proved:

* A tunnel numbers a frame under a lock and publishes it outside. The other
  side accepts everything published iff the schedule publishes in turn: never
  past a smaller number the other goroutine has in flight, and never after the
  terminal frame (`TunnelAtControl.AcceptedIffInTurn`). `ReorderedRun` breaks
  that with an ended context. So does `FullDuplexRun`, which merely sends bytes
  both ways and ends well: an End frame is last, has the largest number and
  follows everything read (`TunnelSafety.TerminalSafe`), but the frames before
  it need not be in order. What is accepted is a prefix in any case, and
  complete if an End is accepted (`TunnelAtControl.TunnelDelivers`).
* Request ids are not checked for uniqueness. Every request in flight stays
  cancellable throughout a run iff no id is reserved while in flight
  (`Admission.RunCancellable`, `AbandonReaches`, `LostCancel`).
* A draining worker admits nothing more iff no handler has passed its check
  (`Admission.DrainingIsFinal`); the one that has is admitted (`LateAdmission`).
* Serve leaves nothing behind iff the handler was idle when its wait ended, or
  held a message that would be refused anyway (`Admission.DrainCompleteIff`). A
  delivered message that would not may still be admitted after the wait, if
  draining is lifted meanwhile (`AdmittedAfterServe`, `LeavesOneBehind`).
* A body reference that states neither size nor checksum is read one byte deep
  and not verified: the result is the whole object iff that has at most one byte
  (`BodyReference.UnstatedSizeTruncates`).
* Object-key scope isolates requests for slash-free ids (`Naming.KeyScopeUnique`)
  but not for all deployment ids; `Naming.ScopesOverlapIff` says exactly which
  pairs overlap.
* A cancelled executor that returned no frames leaves the stream without a
  terminal frame: the rewrite closes it iff there was a frame to rewrite
  (`Cancellation.RewriteCloses`).
* The frames an executor returns are published with its own numbers, and a send
  may still publish after one that gave up on an ended context. Control accepts
  the whole stream iff no send did, and the returned frames are numbered on from
  the progress frames, whose number depends on how the sends were cut
  (`CutSends.ProgressValidIff`, `DecodedStream.DecodedAccepted`).
* Short credit is spent one byte at a time (`CreditGate.TakeShape`), which is
  why the frame count carries the term 32767 per grant
  (`ResponseCredit.ChunkBound`).
* `ready` is cleared only after Serve has drained: a worker whose session was
  rejected reports ready exactly until Serve has returned
  (`Session.RejectionOutlived`, `ReadyWhileDraining`).
* Sequence numbers may run out. Where that matters, after 2^64-1 frames, it is
  part of the condition (`RoundTrip.DeliveredInFull`,
  `RequestBody.ReplayContinues`).

## Model

| member | source | states |
|---|---|---|
| `Frames.HasTerminalSnoc` | egress/stream.go:134-141 | a frame added to a stream makes it terminal exactly if it was so before or the frame is End, Error or Cancelled |
| `Frames.DataBytesConcat` | egress/stream.go:114-132 | the bytes carried by two runs of frames one after the other are the bytes of the first followed by those of the second |
| `StreamValidator.ValidStreamSnoc` | egress/stream.go:59-88 | the stream definition, a statement about a whole list of frames, grows by one frame exactly if the old list is a stream and the frame may follow it |
| `StreamValidator.ValidStreamBounds` | egress/stream.go:114-132 | no stream has more than 2^64-1 frames or more data than the initial credit |
| `StreamValidator.DecideIffExtends` | egress/stream.go:59-76 | the validator's five counters decide exactly whether a frame may follow everything accepted so far |
| `StreamValidator.AdvanceTracks` | egress/stream.go:80-87 | after an accepted frame the counters again summarise the accepted frames; offset plus credit stays the initial credit, so neither wraps |
| `StreamValidator.AcceptIffExtends` | egress/stream.go:59-132 | accepted iff the accepted frames and this one form a valid stream; a rejected frame changes nothing at all, the idle clock included |
| `Network.NothingAfterTerminal` | egress/stream.go:94-101 | from a terminal state, whatever arrives and however much of it, nothing is accepted and the state stays as it is |
| `StreamValidator.OutcomeMeans` | egress/stream.go:59-132 | every outcome, told from the accepted frames: Duplicate iff the frame has a payload, the stream's attempt and a nonzero number no larger than the frames accepted, and the stream is open with numbers left; and likewise each of the other rejections |
| `StreamValidator.ReplayOutcome` | egress/stream.go:59-70 | a frame accepted before is never accepted again; the outcome is Duplicate unless the stream is terminal or the 2^64-1 numbers are used up, when it is a gap |
| `StreamValidator.Checker.constructor` | egress/stream.go:42-57 | a new validator expects number 1 at offset 0 with the whole credit, and its clock starts now |
| `StreamValidator.Checker.Accept` | egress/stream.go:59-88 | one call accepts iff the recorded history extended by the frame is a valid stream, and records it; otherwise the object is unchanged |
| `StreamValidator.Checker.Judge` | egress/stream.go:59-88 | the in-place update agrees with the specification step, outcome and every field |
| `StreamValidator.Checker.ValidateFrameShell` | egress/stream.go:94-112 | the order in which nil, terminal, number 0 and wrong attempt are reported |
| `StreamValidator.Checker.AcceptData` | egress/stream.go:114-132 | offset and credit move together or not at all |
| `Network.FeedTracks` | egress/stream.go:59-88 | over any run of arrivals, the accepted frames form a valid stream, occur in order among the arrivals, and are what the state summarises |
| `Network.AcceptedIsPrefix` | egress/stream.go:59-88 | for any numbered source, dropped, duplicated, reordered and mixed with junk, what is accepted is a prefix of the source |
| `Network.HonestSender` | egress/stream.go:59-132 | for a valid sent stream the accepted prefix reaches k exactly when the first k frames occur in order among the arrivals: the longest such prefix |
| `Network.NothingMissed` | egress/stream.go:59-88 | if the first k sent frames occur in order among the arrivals, at least k frames are accepted |
| `Network.InOrderAcceptedFrom` | egress/stream.go:59-88 | from any reachable state, frames arriving in order are all accepted iff they continue the stream |
| `Network.InOrderAccepted` | egress/stream.go:59-88 | a fresh validator accepts a whole list of arrivals iff the list is a valid stream |
| `Naming.ScanToken` | egress/types.go:231-237 | the scan reports the first unsafe character, and passes iff there is none |
| `Naming.ValidateSubjectToken` | egress/types.go:226-240 | safe iff nonempty and every character is a letter, digit, hyphen or underscore; "required" iff empty |
| `Naming.StreamSubjectMade` | egress/types.go:258-280 | a stream subject is made iff all three ids are safe and the direction is one of the two; otherwise the error names the first that is not, and why |
| `Naming.AssignmentSubjectMade` | egress/types.go:243-255 | an assignment subject is made iff both ids are safe; otherwise the error names the first that is not, and why |
| `Naming.StreamSubjectSplits` | egress/types.go:258-280 | splitting an accepted stream subject at its dots returns the fixed tokens and the four arguments |
| `Naming.AssignmentSubjectSplits` | egress/types.go:243-255 | likewise for assignment subjects |
| `Naming.StreamSubjectInjective` | egress/types.go:258-280 | two streams with one subject agree in request, worker, session and direction |
| `Naming.AssignmentSubjectInjective` | egress/types.go:243-255 | two assignments with one subject agree in worker and session |
| `Naming.SubjectsDisjoint` | egress/types.go:242-280 | no assignment subject is a stream subject |
| `Naming.KeyParts` | egress/assignment.go:671-675 | for slash-free ids, a key is in scope iff its parts between slashes are deployment, the deployment, request, the request, request, and at least one more |
| `Naming.KeyScopeUnique` | egress/assignment.go:671-675 | with slash-free ids, a body object key is in scope for at most one request of one deployment (ScopesOverlapIff gives the exact condition) |
| `Naming.SlashBreaksScope` | egress/assignment.go:671-675 | without that it is not: every key in scope of deployment "d/request/r" is in scope of request r of deployment d |
| `Naming.OverlapIsPrefix` | egress/assignment.go:671-675 | some key is in scope of two requests iff the scope prefix of one is a prefix of the other's |
| `Naming.ScopesOverlapIff` | egress/assignment.go:671-675 | for slash-free request ids, some key is in scope of two requests iff they are the same, or one deployment id is the other's "d/request/r", alone or followed by "/request" and its end or a slash, or it is the other's followed by "/request" and both request ids are "request" |
| `BodyReference.LimitFitsInt64` | egress/bodyref.go:77-81 | whenever the body is read, expected+1 fits int64 and bounds what is read |
| `BodyReference.SuccessIsWholeObject` | egress/bodyref.go:30-87 | a successful download against a stated size or checksum is the entire object, of exactly that size, matching the checksum |
| `BodyReference.SucceedsIff` | egress/bodyref.go:30-118 | with a stated size or checksum, success iff the reference is usable and unexpired and the whole object arrives and matches |
| `BodyReference.UnstatedSizeTruncates` | egress/bodyref.go:81-117 | with neither, one byte is read and nothing verified: the result is the whole object iff the object has at most one byte |
| `BodyReference.DownloadMeans` | egress/bodyref.go:30-118 | which of the outcomes a download has, in the source's order: unavailable, expired, size mismatch, checksum mismatch, or the bytes read |
| `BodyReference.LowerMeans` | egress/bodyref.go:112 | lower-casing changes A to Z only, to the letter of the other case: two checksums agree iff they agree letter by letter, and lower-case ones iff they are equal |
| `RequestBody.ApplyConsistent` | egress/assignment.go:621-669 | an accepted frame keeps body, head, byte count and reference scope a function of the accepted frames |
| `RequestBody.EventKeeps` | egress/assignment.go:588-601 | one round of the read loop keeps that, and reports a failure exactly when one has been recorded |
| `RequestBody.ReadKeeps` | egress/assignment.go:579-604 | the whole loop keeps it, and a delivered result satisfies the completeness test |
| `RequestBody.AssembleFromLastReference` | egress/assignment.go:634-666 | the assembled body is the last resolved content followed by the data accepted since |
| `RequestBody.ReadyBody` | egress/assignment.go:579-645 | whatever arrives, a delivered body comes from a valid stream of accepted frames, with the last RequestStart as head and at least the expected bytes |
| `RequestBody.BodyWithoutReferences` | egress/assignment.go:634-636 | without references the body is the accepted data in number order, received = len(body) = validator offset, offset + credit = initial credit, and expected <= len(body) <= initial credit |
| `RequestBody.BodyWithReferences` | egress/assignment.go:637-669 | with references the body is the last one's content and exactly the data since; that reference was in scope and followed a RequestStart |
| `RequestBody.FailureEndsRead` | egress/assignment.go:592-594 | a failure is recorded iff the read ends with it, and it was caused by the last accepted frame |
| `RequestBody.ReplaysInvisible` | egress/assignment.go:588-628 | deleting every replay of an accepted frame that arrives while there are sequence numbers left changes neither the state nor the result |
| `RequestBody.ReplayContinues` | egress/assignment.go:621-629 | a replay leaves the read as it was iff fewer than 2^64-1 frames were accepted; at that number it is a gap and ends the read |
| `RequestBody.IdleMeansNothingAccepted` | egress/assignment.go:596-599 | giving up as idle means the timeout has passed since the stream opened and since every accepted frame |
| `RequestBody.BodyState.constructor` | egress/assignment.go:580-583 | a new reader has nothing, and expects 0 bytes when told of no positive number |
| `RequestBody.BodyState.IsComplete` | egress/assignment.go:617-619 | complete iff a RequestStart was accepted and at least the expected bytes were received |
| `RequestBody.BodyState.Accept` | egress/assignment.go:621-645 | duplicates pass without effect, other rejected frames stop the read, accepted ones are recorded and applied |
| `RequestBody.BodyState.ApplyPayload` | egress/assignment.go:631-644 | the in-place effect of each payload agrees with the specification |
| `RequestBody.BodyState.AcceptBodyRef` | egress/assignment.go:647-669 | a reference before RequestStart or without resolver is refused, out of scope or failed it records a failure, resolved it replaces the body |
| `RequestBody.BodyState.HandleEvent` | egress/assignment.go:588-601 | one round of the select agrees with the specification step |
| `RequestBody.BodyState.ReadRequestBody` | egress/assignment.go:579-604 | the loop over the object computes the specified reader and ending (BodyDelivery says what that is) |
| `BodyDelivery.FrameMeans` | egress/assignment.go:621-669 | the read goes on after a frame iff it repeats an accepted number, or continues the stream and is a RequestStart, data, a credit announcement or a reference that resolves; exactly the frames that continue the stream are logged; and how the read ends on any other |
| `BodyDelivery.InScopeMeans` | egress/assignment.go:671-675 | for slash-free ids, a reference is in scope iff it names an object whose key has the parts of the request's own objects |
| `BodyDelivery.OtherEventMeans` | egress/assignment.go:588-601 | the ended context and the closed channel end the read; a tick does iff no frame was accepted for the whole timeout |
| `BodyDelivery.IdleTick` | egress/assignment.go:596-599 | a read that still waits is ended by a tick iff the timeout has passed since the stream opened and since the last frame accepted |
| `BodyDelivery.StillWaiting` | egress/assignment.go:584-619 | a read that still waits has accepted no RequestStart or fewer bytes than expected, and neither the context nor the channel has ended |
| `BodyDelivery.HonestBody` | egress/assignment.go:579-645 | a valid stream with a RequestStart and at least the expected bytes, arriving in order, is delivered: the read ends with the head and the bytes of its first frames that are enough, all of them if there are exactly the expected |
| `CreditGate.TakeConserves` | egress/assignment.go:728-752 | a take yields 1 to limit bytes; credit held plus grants consumed is bytes taken plus credit left; a refused or waiting take leaves credit 0 |
| `CreditGate.TakeShape` | egress/assignment.go:742-751 | a take is all or one byte: the limit if the credit at hand covers it, else 1; grants are consumed only at credit 0 |
| `CreditGate.TakeConsumesInOrder` | egress/assignment.go:733-740 | grants are consumed in order and none is lost |
| `CreditGate.TakeMeans` | egress/assignment.go:728-752 | a take is refused iff the credit is 0 and the context ends before any nonzero grant, waits iff the credit is 0 and neither comes, and otherwise takes at once or after the first nonzero grant |
| `CreditGate.ResponseCreditGate.New` | egress/assignment.go:714-720 | an initial credit of 0 gives the nil gate |
| `CreditGate.ResponseCreditGate.Acquire` | egress/assignment.go:728-752 | the waiting loop and the decrements compute the specified take and leave the specified credit |
| `ResponseEmitter.SendDataShape` | egress/assignment.go:353-375 | a send is cut into chunks of 1 to 32768 bytes that make up a prefix of the payload; all of it if the send neither gave up nor waits |
| `ResponseEmitter.ChunkSizes` | egress/assignment.go:357-369 | every frame a send adds is a data frame of its attempt with 1 to 32768 bytes |
| `ResponseEmitter.SendPublishes` | egress/assignment.go:341-375 | one send extends the wire, and by all its bytes unless it gave up or waits |
| `ResponseEmitter.SendAllPublishes` | egress/assignment.go:322-336 | over any list of sends the wire carries all the data bytes sent if none gave up or waits, and strictly less otherwise (which frames carry them, and the frames without data: ProgressFrames) |
| `ResponseEmitter.Publisher.PublishFrame` | egress/assignment.go:346-350 | a frame gets the next number and goes on the wire |
| `ResponseEmitter.Publisher.TakeAllowance` | egress/assignment.go:358-361 | the gate is asked once for the chunk and charged for it |
| `ResponseEmitter.Publisher.PublishResponseProgress` | egress/assignment.go:341-351 | one call computes the specified send; a frame without data is published as it is, under the next number |
| `ResponseEmitter.Publisher.PublishResponseData` | egress/assignment.go:353-375 | the chunking loop computes the specified frames, numbers, offsets and credit |
| `ResponseEmitter.Publisher.PublishChunk` | egress/assignment.go:357-372 | one round of the loop: the next chunk at the current offset, or the end |
| `ProgressFrames.WireIsItems` | egress/assignment.go:322-375 | the wire is numbered 1, 2, 3, ... and is the items sent, in order, each data item replaced by chunks of 1 to 32768 bytes at running offsets; only a send that waits for credit keeps later items back |
| `ProgressFrames.HeadsPublished` | egress/assignment.go:341-351 | the frames without data are published with their attempt and payload, each once, in order: a prefix of those sent, and all of them unless a send waits |
| `ResponseCredit.SendAllLedger` | egress/assignment.go:322-375 | after any sends, initial credit plus grants consumed is bytes published plus credit left, and consumed plus unconsumed grants are all the grants |
| `ResponseCredit.PublishedAmount` | egress/assignment.go:353-375 | with a limit and no send given up, bytes published = min(bytes sent, initial credit + all grants), blocked or finished |
| `ResponseCredit.ChunkBound` | egress/assignment.go:357-372 | a payload of L bytes that consumes g grants becomes at most ceil(L/32768) + 32767*(1+g) frames |
| `ResponseCredit.ChunkCountExact` | egress/assignment.go:357-372 | with no limit, or credit for the whole payload, exactly ceil(L/32768) frames and no grant consumed |
| `RoundTrip.SendAllFaithful` | egress/assignment.go:322-375 | every published data frame carries the executor's bytes at the offset it names, and the numbers are 1, 2, 3, ... |
| `RoundTrip.ValidFaithfulIsPrefix` | egress/stream.go:114-132 | a valid stream of such frames carries a prefix of the executor's bytes |
| `RoundTrip.DeliveredIsPrefix` | egress/assignment.go:322-375 | any sends, credit and cancellation, any lossy network: a fresh validator delivers a prefix of the executor's bytes, even past a truncated send; the accepted frames are a prefix of the published ones unless those outnumber the sequence numbers |
| `RoundTrip.DeliveredLess` | egress/assignment.go:358-361 | if a send was cut short or waits, fewer bytes than were sent are delivered, over any lossy network |
| `RoundTrip.DeliveredInFull` | egress/assignment.go:322-375 | the published frames in order are accepted in full and deliver every byte iff no send was cut short or waits and the frames do not outnumber the sequence numbers |
| `CutSends.ProgressValidIff` | egress/assignment.go:322-375 | the progress frames are a valid stream iff they do not outnumber the sequence numbers and no send published bytes after one that gave up on an ended context |
| `Cancellation.ApplyCancellation` | egress/assignment.go:754-771 | the array afterwards is the specified rewrite of the array before |
| `Cancellation.RewriteShape` | egress/assignment.go:754-771 | only the last frame may change: it is kept if it is End, and otherwise replaced by Cancelled with the reason, under the same number and attempt |
| `Cancellation.RewriteAccepted` | egress/assignment.go:310-315 | a nonempty result a reachable validator accepts in full is still accepted in full, leaves it terminal at the same next number, and a second rewrite changes nothing |
| `Cancellation.RewriteCloses` | egress/assignment.go:754-771 | after the rewrite of any result accepted in full, the stream is closed iff the result was nonempty or the stream was closed before |
| `DecodedStream.ConcatValid` | egress/stream.go:59-132 | frames after a valid stream form one with it iff each continues from its number of frames and bytes, and it was not terminal |
| `DecodedStream.WholeStreamAccepted` | egress/assignment.go:308-315 | progress frames and published result are accepted in full iff the former are a valid stream and the latter continues it, numbered on from the number of frames published |
| `DecodedStream.DecodedAccepted` | egress/assignment.go:308-375 | for any sends, cut short or not, the whole stream is accepted iff no send published after one that gave up, the result continues the frames published, and there are numbers enough; with no send cut short the first always holds |
| `DecodedStream.CancelledAccepted` | egress/assignment.go:310-315 | if a nonempty result continues the progress frames, so does its rewrite, which closes the stream |
| `Download.WaitMeaning` | egress/assignment.go:677-707 | cancelled iff the wait stopped at an accepted Cancel, the last frame it saw, with that frame's reason; exactly the accepted Credit frames were granted, once, in order |
| `Download.WaitEnds` | egress/assignment.go:677-707 | the wait goes on iff no result has been sent; otherwise it returns the first |
| `Download.WaitHears` | egress/assignment.go:677-707 | until the result or an accepted Cancel, every frame that continues the stream is accepted |
| `Download.GrantsAreDownload` | egress/assignment.go:691-695 | what is granted to the gate is the download bytes of the accepted Credit frames, and nothing else |
| `Download.ReplaysInvisible` | egress/assignment.go:687-689 | replays of frames accepted earlier, in the body phase or since, change neither result nor grants |
| `Download.Await` | egress/assignment.go:677-707 | the loop over a validator object computes the specified result, grants and state |
| `Download.DrainToResult` | egress/assignment.go:704-704 | after a cancellation the next result ends the wait |
| `CreditFlow.NextBalanced` | egress/assignment.go:709-752 | every step of granter, queue and sender keeps the account: initial + granted = sent + credit + queued + in hand |
| `CreditFlow.RunBalanced` | egress/assignment.go:709-752 | so does every schedule of them |
| `CreditFlow.DownloadBounded` | egress/assignment.go:677-752 | bytes published are at most the initial credit plus the grants of the distinct frames accepted after the body phase |
| `CreditFlow.GivesUpOnlySpent` | egress/assignment.go:733-736 | in every schedule, a send is given up only when the credit that reached the sender is all published |
| `CreditFlow.AmountWhenQuiet` | egress/assignment.go:728-752 | whenever the sender is blocked or has nothing in hand, bytes sent = min(bytes offered, initial + grants enqueued) |
| `CreditFlow.NoMutualBlock` | egress/assignment.go:722-740 | granter and sender never both wait on the queue; one at a standstill with a grant in hand means the sender has nothing to send |
| `CreditFlow.GrantReachesSender` | egress/assignment.go:722-752 | in every schedule in which it does not give up, a sender for which there is credit anywhere publishes: until then the step that brings the credit nearer is possible, and at most two such steps precede the publishing |
| `TunnelWire.FrameBuilder.Next` | egress/assignment.go:540-549 | the frame returned is the one the line records next, with the next number and the builder's attempt |
| `TunnelWire.AssignWellNumbered` | egress/assignment.go:540-549 | numbering a frame keeps the numbers handed out 1, 2, 3, ..., each once |
| `TunnelWire.AssignMerged` | egress/assignment.go:540-549 | numbering keeps the wire a merge of two increasing sequences with at most one frame in flight per goroutine |
| `TunnelWire.EmitMerged` | egress/assignment.go:491-497 | so does publishing outside the lock |
| `TunnelWire.AssignData` | egress/assignment.go:516-517 | a chunk numbered at the current offset keeps data offsets contiguous and adds its bytes |
| `TunnelWire.EmitData` | egress/assignment.go:491-497 | publishing moves a chunk from in flight to the wire and keeps data in order |
| `RawTunnel.LoopEffect` | egress/assignment.go:422-489 | every move of the run loop numbers exactly one frame, after which it returns iff the frame is terminal, or numbers none; an End only when the download has reported a clean end (what it reports, and the answer to every event: TunnelCauses) |
| `RawTunnel.NextWireOk` | egress/assignment.go:414-549 | every step of either goroutine keeps the numbering and the merge |
| `TunnelSafety.NextDataOk` | egress/assignment.go:499-528 | every step keeps: bytes read = bytes numbered + bytes in hand, unless the download gave up |
| `TunnelSafety.NextTerminalOk` | egress/assignment.go:422-475 | every step keeps: at most one terminal frame numbered, the run loop's last; End has the largest number and follows the whole download |
| `TunnelSafety.NextOffsetsOk` | egress/assignment.go:515-517 | every step keeps: each chunk on the wire starts where the data published before it ends |
| `TunnelSafety.WireSafe` | egress/assignment.go:414-549 | in every interleaving: numbers 1..n each once, the wire a merge of two increasing sequences, data offsets contiguous, data a prefix of the bytes read |
| `TunnelSafety.TerminalSafe` | egress/assignment.go:414-452 | in every interleaving at most one terminal frame; an End is last on the wire with the largest number, everything numbered is published, and so is every byte read |
| `TunnelSafety.TunnelEnds` | egress/assignment.go:422-452 | in every interleaving the run loop returns by publishing the tunnel's one terminal frame, or silently on an idle tick, and then the tunnel has none |
| `TunnelCauses.EndingsCaused` | egress/assignment.go:414-528 | in every schedule every ending has its cause: an End, a read that reported the end of the connection; a Cancelled, an accepted Cancel with its reason; an error, the ended context, a failed write with its reason, a failed read, or a download given up for want of credit |
| `TunnelCauses.DownloadAnswered` | egress/assignment.go:444-452 | in every schedule the run loop answers the end of the download with End iff the read that ended it reported the end of the connection and the download did not give up, and with the reset error otherwise |
| `TunnelCauses.DownloadReported` | egress/assignment.go:499-528 | in every schedule that answer can be given iff a read has reported an error and every byte read is numbered and none in flight, or the download has given up |
| `TunnelCauses.ContextAnswered` | egress/assignment.go:428-431 | in every schedule the run loop can answer the end of the context iff that has happened, and does so with the timeout error |
| `TunnelCauses.FrameAnswered` | egress/assignment.go:454-489 | a frame the validator rejects changes nothing; accepted data is written and answered with its length in upload credit, or with the write's error after the bytes it did write; an accepted Cancel with Cancelled; anything else with nothing |
| `TunnelCauses.OpeningFrames` | egress/assignment.go:400 | every tunnel begins with its target and status 200, numbered 1 and 2 |
| `TunnelBounds.TunnelLimits` | egress/assignment.go:499-528 | in every schedule the credit queue holds at most 32 grants, and every download chunk has 1 to 32768 bytes |
| `TunnelBounds.WaitsOnlyForCredit` | egress/assignment.go:414-528 | in every schedule the download can move unless it has bytes to send, no credit and none in the queue, and the context has not ended; the run loop can unless it holds a grant and the queue is full; never are both stuck |
| `TunnelIdle.TunnelIdleMeansNothingAccepted` | egress/assignment.go:432-435 | a tunnel that returns as idle has accepted no frame for the whole timeout |
| `TunnelIdle.TickEnds` | egress/assignment.go:432-435 | in every schedule a tick makes the run loop return iff the timeout has passed since the tunnel opened and since the last frame it accepted, on a stream not closed by the other side |
| `TunnelCredit.UploadAccounted` | egress/assignment.go:454-489 | while writes succeed, bytes written upstream = data accepted since opening = offset gained = upload credit announced; offset + credit stays the initial credit |
| `TunnelCredit.DownloadAccounted` | egress/assignment.go:454-528 | download bytes on the wire are at most the initial credit plus the grants of the frames accepted since opening, each counted once |
| `TunnelOrder.NextOrderly` | egress/assignment.go:495-549 | a step keeps the wire in number order with nothing after a terminal frame iff it does not publish past a smaller number in flight or past the terminal frame |
| `TunnelOrder.OrderlyIffInTurn` | egress/assignment.go:495-549 | in every interleaving, the wire is in order iff every publication of the schedule happened in turn |
| `TunnelAtControl.AcceptedIffInTurn` | egress/assignment.go:495-549 | for every schedule, a fresh validator with enough credit accepts the published frames in full iff every publication happened in turn and the frames do not outnumber the sequence numbers |
| `TunnelAtControl.TunnelDelivers` | egress/assignment.go:414-549 | for every schedule and any lossy network, a fresh validator accepts a prefix of the frames in number order and delivers a prefix of the bytes read; if it accepts an End, every frame and every byte |
| `TunnelAtControl.ReorderedRun` | egress/assignment.go:495-549 | a six-step run in which they were not: the wire carries 1, 2, 4, 3, data after an error |
| `TunnelAtControl.FullDuplexRun` | egress/assignment.go:478-528 | a run with bytes both ways that ends well, End last and largest, and yet carries 1, 2, 4, 3, 5 |
| `TunnelAtControl.ReplayInvisible` | egress/assignment.go:454-457 | a replayed frame leaves the whole tunnel state as it was |
| `Admission.Worker.constructor` | egress/assignment.go:77-93 | a new worker is empty and not draining; without modes it serves decoded HTTP only |
| `Admission.Worker.SnapshotCapacity` | egress/assignment.go:244-249 | the capacity reported is the books and limits of that moment |
| `Admission.Worker.SetDraining` | egress/assignment.go:105-109 | only the draining flag changes |
| `Admission.Worker.Reserve` | egress/assignment.go:251-257 | the counter and the cancel map both take the reservation, and nothing else changes |
| `Admission.Worker.Release` | egress/assignment.go:259-265 | the counter and the cancel map both lose it |
| `Admission.Worker.HandleAssign` | egress/assignment.go:176-212 | undisturbed, an assignment is answered by what it carries, the draining flag, the modes, the load and the stream set-up, in the source's order; one reservation is entered if it is accepted, otherwise the books are untouched |
| `Admission.EvaluateAssignment` | egress/types.go:186-204 | accepted iff the request is valid, the worker is not draining, the mode is in a list that is empty or has it, and there is no limit or the load is below it; the first condition that fails gives the refusal |
| `Admission.Worker.AbandonInFlight` | egress/assignment.go:162-174 | exactly the registered cancel functions are called |
| `Admission.Undisturbed` | egress/assignment.go:176-212 | with nothing in between, also while the subscription ends, an assignment is admitted iff it carries a valid request, the worker is not draining, the mode is supported, the limit is 0 or above the requests in flight, and its stream was set up; the first of these to fail gives the refusal, and the machine does what the method does |
| `Admission.NextInv` | egress/assignment.go:176-265 | every step keeps count, room, replies and drain invariants together |
| `Admission.ActiveCounts` | egress/assignment.go:244-265 | in every interleaving active = reserved - released = accepted replies still unfinished; it never exceeds a nonzero limit although check and reserve are separate, and is exact iff below 2^32 |
| `Admission.DecideKeepsRoom` | egress/types.go:168-204 | a passed capacity check leaves room for the reservation to come |
| `Admission.DrainingAdmits` | egress/assignment.go:105-109 | while draining holds throughout, only the request whose handler had passed its check before can be admitted |
| `Admission.LateAdmission` | egress/assignment.go:183-204 | and that one is admitted and acknowledged, draining or not |
| `Admission.DrainingIsFinal` | egress/assignment.go:105-109 | a draining worker admits nothing more while draining holds iff no handler has passed its check |
| `Admission.DrainEndsAdmission` | egress/assignment.go:138-141 | told to drain or to stop, the worker admits at most the request past its check, until told otherwise |
| `Admission.DrainComplete` | egress/assignment.go:138-160 | when Serve's wait ends nothing is in flight but the request of a handler between reserve and start; from then on at most one request is in flight, and none if no message had been delivered to a handler |
| `Admission.ServeWaitsForAll` | egress/assignment.go:145-157 | in every run Serve's wait can end only when every request started has been released and its goroutine has ended |
| `Admission.QuietAfterUnsubscribe` | egress/assignment.go:143 | once the subscription has ended, an idle handler stays idle and nothing more is admitted or answered |
| `Admission.DrainCompleteIff` | egress/assignment.go:138-160 | nothing will ever be in flight after Serve's wait iff the handler was idle, or held a message that an empty worker that is not draining would refuse |
| `Admission.AdmittedAfterServe` | egress/assignment.go:176-209 | the bound is reached: a message delivered before the subscription ended is admitted after the wait if draining was lifted meanwhile |
| `Admission.LeavesOneBehind` | egress/assignment.go:138-209 | a concrete run from the start that does so, and leaves one request running after Serve |
| `Admission.CancelsBounded` | egress/assignment.go:251-265 | the cancel map is never larger than the requests in flight and holds only theirs |
| `Admission.NextCancellable` | egress/assignment.go:251-265 | from a state where every request can be cancelled, a step leads to another such state iff it does not reserve an id in flight |
| `Admission.RunCancellable` | egress/assignment.go:251-265 | over a whole run, every request in flight can be cancelled at every moment iff no id is ever reserved while in flight |
| `Admission.AbandonReaches` | egress/assignment.go:162-174 | abandoning reaches every request in flight iff each is registered under its id, and then the keys are exactly the ids |
| `Admission.CancelsOnlyWhileWaiting` | egress/assignment.go:152-157 | in every run Serve cancels no request before the subscription has ended |
| `Admission.OrphanedTask` | egress/assignment.go:259-265 | of two requests with one id, releasing either strikes the other's cancel function |
| `Admission.LostCancel` | egress/assignment.go:251-265 | a concrete run in which a request is left that abandoning does not cancel |
| `Session.CapacityFromConcurrency` | egress/runtime.go:313-323 | active + available = max, or nothing is available because there is no limit or it is exceeded |
| `Session.Runtime.RegisterWithRetry` | egress/runtime.go:179-202 | registrations are retried, one wait of the prescribed length between them, exactly until one brings a session id or the context has ended |
| `Session.Runtime.TryOnce` | egress/runtime.go:183-201 | one attempt: what was sent and answered is logged as it was; a session iff the answer brings an id, otherwise a wait unless the context has ended |
| `Session.Runtime.SendHeartbeat` | egress/runtime.go:255-262 | one heartbeat with the session, load, spare capacity, draining state and its answer, unless the context ended and may stop it |
| `Session.Runtime.RunHeartbeatLoop` | egress/runtime.go:254-285 | every tick sends a heartbeat; it is over exactly at the first heartbeat that went out and was rejected, or the first wait that the ended context ends, after leaving readiness and a draining heartbeat |
| `Session.Runtime.Tick` | egress/runtime.go:271-283 | one round of the select: the farewell if the context ends the wait, and otherwise a heartbeat, lost iff it went out and was rejected |
| `Session.Runtime.RunSession` | egress/runtime.go:204-252 | Serve is started first and waited for last on every way out but a failed factory |
| `Session.Runtime.ServeSession` | egress/runtime.go:161-165 | readiness is entered before the session and left after it, on every way out |
| `Session.Runtime.Round` | egress/runtime.go:155-176 | one round registers and serves one session; it goes on only after a lost one, and returns nil iff the session ended with a farewell |
| `Session.Runtime.Run` | egress/runtime.go:144-177 | the log of any run is lawful; with a factory the return is nil iff the context ended, a draining heartbeat was sent and Serve waited for; an error means that no worker could be built, or that the context ended without such a farewell; no return leaves the worker ready |
| `Session.HeartbeatIsCurrent` | egress/runtime.go:254-285 | every heartbeat carries the session of the latest registration, goes out while it is served, reports active + available = max when active <= max and max > 0 and otherwise nothing available, and says draining iff the worker is or readiness has been left |
| `Session.ServeReturnsBeforeRegister` | egress/runtime.go:246-251 | no registration is sent before every started Serve has returned, nor while ready |
| `Session.ReadyOnlyInSession` | egress/runtime.go:153-165 | ready means the latest registration was accepted with a session id and readiness has not been left since |
| `Session.WaitLength` | egress/runtime.go:179-202 | the k-th wait since the last success lasts min(2^k, 30) seconds |
| `Session.RejectionOutlived` | egress/runtime.go:163-165 | after a heartbeat rejected while ready come Serve's return and then the end of readiness, with nothing in between: ready is reported exactly until Serve has returned |
| `Session.ReadyWhileDraining` | egress/runtime.go:246-251 | a lawful log that is still ready after a rejected heartbeat and Serve's return |
| `Session.RejectionEndsSession` | egress/runtime.go:264-282 | between a rejected heartbeat and any later one there is a registration |

## Left out

- TunnelAtControl.TunnelDelivers: stated for at most 2^64-1 numbered frames; beyond that two frames share a number.
- TunnelSafety.WireSafe: the run loop and the download goroutine are modelled on values as steps of one relation, because they interleave; the aliasing of the frame builder and gate between them is the shared state of that relation.
- Publishing failures: marshalling and publish errors are ignored by the worker and by the model; a publish appends to the wire.
- runDecodedRequest as a whole: its phases (body, execution, wait, cancellation rewrite) are modelled one by one, with the validator state each leaves as the start of the next.
- OpenTunnel and its failure path, which publishes two frames and ends.
- A Data frame whose inner message is missing: the model's data frames always carry an offset and bytes.
- The busy loop of waitForResult on a closed frame channel: the channel is never closed by the worker.
- NATS, protobuf, HTTP request construction, ed25519 and SHA-256: subscriptions and flushes are assumed to succeed once a step relies on them, the hash and the Unicode tables are function parameters.
- The generated Validate method of an assignment request: a flag of the request.
- Timers, tickers and deadlines: events chosen by the environment.
- The snapshot subscription in runSession: its effect is a SetDraining step at any time, and the draining state the heartbeat reads is the environment's choice.
- Serve's own errors: runSession ignores them, and the model's Serve returns when waited for.
- Liveness of a blocked executor, upstream connection or grant: the code does not promise it; `CreditFlow.NoMutualBlock` says exactly which standstills exist.
- What an executor does inside Execute: its sends are assumed to be sequential and to have contiguous offsets where a lemma says so.
- BuildRegisterRequest, BuildHeartbeat, ValidateMaxPayload, ValidateServers and the REST client: only easy members.
