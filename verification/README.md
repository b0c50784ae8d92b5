# Verified model of dictad

dictad turns a microphone into typed text: a capture loop cuts speech into
utterances, a pool of goroutines transcribes them, one worker types them, and a
mute watcher opens and closes the session.  This project models those parts in
Dafny and proves what they guarantee together.

Two kinds of module go side by side.  *Machines* describe the interleavings: a
state, the steps a thread can take (one per mutex-held region or channel
operation), and theorems about every run.  *Classes* write the same code the way
the program does, with fields updated in place, arrays that are reused, and
loops; their contracts tie them to the machine's steps or to a reference function.

| file | what it holds |
|---|---|
| `DictationMachine.dfy` | session, capture lifecycle, type queue, transcription pool and worker as one step system |
| `DictationInvariants.dfy`, `DictationQueue.dfy` | its inductive invariant, one conjunct per concern |
| `DictationTheorems.dfy`, `DictationProgress.dfy` | what every run guarantees: order, staleness, exactly-once, agreement, draining, progress |
| `DictationOverlap.dfy` | what overlapping opens and closes do to one another and to flushed audio, exactly when |
| `DictationRegions.dfy` | what each region achieves in any state of any run |
| `SessionRegions.dfy` | the regions of the session as methods of a class that never leaves those runs, and whole operations run undisturbed |
| `QuietestSplit.dfy`, `AudioLoop.dfy`, `CaptureLoop.dfy` | segmentation of the frame stream, and the loop over its reused buffer |
| `MuteDebounce.dfy`, `FlapGuard.dfy`, `SuspendSafety.dfy`, `MuteWatcher.dfy` | the mute watcher: debounce, flap window, two-lock discipline, and the class |
| `Chunks.dfy`, `Breaker.dfy`, `Typer.dfy` | cutting typed text, and the circuit breaker against its history |
| `NoiseFloor.dfy`, `Vad.dfy` | calibration median, floor drift and hangover of the VAD |
| `PcmZero.dfy`, `AutoMute.dfy` | the newest-wins mute source and the first-wins multiplexer |
| `Repetition.dfy`, `Transcripts.dfy` | the repetition-loop filter, and all of what transcribe does to the backend's answer |

Modelling decisions a reader should know:

* Toggle, EnsureTypeOpen, CloseIfTypeOpen, Commit, Cancel, Shutdown, the idle
  timer and the panel's exit all read the state and then call `open_` or
  `close`.  The machine lets either begin at any moment, so its theorems cover
  every caller and every stale decision a caller may have taken.
* A start of capture, a spawn of the panel, a transcription and a keystroke
  call may each fail or succeed at will.  Stopping capture always succeeds, as
  `audioMonitor.Stop` does, and waits for the audio goroutine.
* The worker's epoch check and the Type call are separate steps, so a call that
  passed its check may still finish after a reopen; `NothingStaleTyped` says
  that this one call is the only exception.
* History that the program does not keep (`opens`, `typed`, `log`, `emitted`,
  `raws`, `history`) is carried along to state properties about whole runs.

Where the code and its documentation differ, the model follows the code:

* `SetMinRawSpeechFrames` says that the gate stands aside for a VAD without raw
  classification.  The raw count stays zero then, so an utterance that ends is
  passed on exactly when no minimum is configured (`AudioLoop.GateStandsAsideIff`),
  and one frame of speech and a flush show one dropped (`AudioLoop.GateDropsSpeech`).
* `rollbackOpen` is documented to undo its own open, and `close` works on the
  session whose epoch it has read.  Both close whatever is open, so each ends a
  newer session exactly when one is open and the epoch has moved on
  (`DictationOverlap.EndsAnotherIff`), and there are runs where each does
  (`RollbackCanEndAnother`, `CloseCanEndAnother`).
* `close` is documented to flush the audio still held into the closing session.
  With room in the queue and the gate passed that happens exactly when the session
  is still the one open in type mode at the moment OnUtterance reads it
  (`DictationOverlap.FlushBecomesJobIff`); in an overlap with another close the
  audio can be dropped (`FlushCanBeLost`) or land in a later session
  (`FlushCanChangeEpoch`).
* Auto promises one winning source.  The winner is kept by name, with the empty
  name for "nobody yet", so the promise holds exactly for non-empty and distinct
  names (`AutoMute.OneSourceIffGoodNames`).

## Model

| member | source | states |
|---|---|---|
| `DictationTheorems.TypedInSubmissionOrder` | cmd/dictad/session.go:252-313 | in every reachable state the jobs handed to Type are strictly increasing in submission order, queued epochs never decrease, and a payload is the job's text with a leading space exactly when an earlier call of its epoch succeeded |
| `DictationTheorems.ReadyClosedExactlyOnce` | cmd/dictad/session.go:749-804 | ready is closed at most once, and exactly once when neither the audio goroutine nor a transcription owns the job any more |
| `DictationTheorems.ResolvedForever` | cmd/dictad/session.go:787-804 | in any run a job whose ready is closed never changes again, and no job changes its epoch or audio |
| `DictationTheorems.TokensAreTranscriptions` | cmd/dictad/asrmonitor.go:129-149 | held inflight tokens are the running transcriptions and never exceed MaxConcurrent |
| `DictationTheorems.CaptureFollowsOpen` | cmd/dictad/session.go:223-244 | with any overlap of opens and closes and any failing start, capture runs exactly when the session is open whenever no operation is between changing open and finishing its sync or rollback |
| `DictationTheorems.EpochsNameSessions` | cmd/dictad/session.go:499-508 | open holds exactly when mode is not none, no two opens share an epoch, and the open session is the latest opening |
| `DictationTheorems.EpochsOnlyGrow` | cmd/dictad/session.go:568-607 | in any run the epoch never decreases, and within one epoch the mode can only go to none |
| `DictationTheorems.CallbackDropsExactlyStale` | cmd/dictad/session.go:762-779 | the transcript callback drops exactly when the epoch has moved on; its mode test never decides by itself |
| `DictationTheorems.NothingStaleTyped` | cmd/dictad/session.go:286-307 | in any run, nothing of an epoch older than the present one is typed from here on, except the one call already past the worker's check |
| `DictationOverlap.EndsAnotherIff` | cmd/dictad/session.go:553-607 | in every reachable state a rollback or a committing close ends a session opened after its own exactly when something is open and the epoch is no longer the one the thread remembers |
| `DictationOverlap.RollbackCanEndAnother` | cmd/dictad/session.go:534-562 | a reachable state in which the rollback of a clip session, closed while its panel was starting, is about to end the type session opened since |
| `DictationOverlap.CloseCanEndAnother` | cmd/dictad/session.go:580-607 | a reachable state in which one of two overlapping closes is about to end the session opened after the other one |
| `DictationOverlap.FlushBecomesJobIff` | cmd/dictad/session.go:590-607 | with the gate passed and room in the queue, the audio a close flushes becomes the next job of the closing epoch exactly when that session is open in type mode when OnUtterance reads it, whatever else any thread does |
| `DictationOverlap.FlushBecomesJob` | cmd/dictad/session.go:590-607 | so it becomes that job in every run where the session stays put until OnUtterance has read it |
| `DictationOverlap.FlushCanBeLost` | cmd/dictad/session.go:590-607 | a reachable run in which the flushed audio is dropped because another close commits first |
| `DictationOverlap.FlushCanChangeEpoch` | cmd/dictad/session.go:728-759 | a reachable run in which the flushed audio becomes a job of the next session |
| `DictationOverlap.FlushServedOnce` | cmd/dictad/audiomonitor.go:219-267 | a flush that has been served is never served again, in any run |
| `DictationOverlap.UtteranceBecomesJobIff` | cmd/dictad/session.go:728-759 | with room in the queue an utterance ended by silence becomes the next job, of the epoch live when OnUtterance reads the session, exactly when a type session is open then |
| `DictationTheorems.RunKeepsInv` | cmd/dictad/session.go:48-65 | the whole invariant survives every run |
| `DictationTheorems.StepTypes` | cmd/dictad/session.go:297-311 | a step logs only the call in progress, and starts only calls of the live epoch |
| `DictationTheorems.ExitIsFinal` | cmd/dictad/session.go:252-260 | once the worker has exited nothing is typed any more, in any run |
| `DictationProgress.DrainedExactly` | cmd/dictad/session.go:283-311 | once the worker has caught up, the handed-over jobs of the live epoch are exactly its resolved jobs with text |
| `DictationProgress.ClosingLosesNoTranscript` | cmd/dictad/session.go:568-576 | a text transcribed for the live epoch is typed by the time the daemon settles, even across closes, if the epoch has not moved and the worker runs |
| `DictationProgress.AnsweredTextIsTyped` | cmd/dictad/asrmonitor.go:148-223 | from the backend to the keyboard: whatever text a transcription of the live epoch is answered has been handed to Type once the daemon settles in that epoch |
| `DictationProgress.TranscriptSurvives` | cmd/dictad/session.go:761-795 | while the epoch stays, a delivered text is stored in its job unchanged |
| `DictationProgress.InternalRunsAreBounded` | cmd/dictad/session.go:252-313 | whatever the scheduling, a run without new requests or audio has at most Remaining(s) steps |
| `DictationProgress.NoDeadlock` | cmd/dictad/session.go:223-244 | unless everything is done some thread can go on |
| `DictationProgress.CanSettle` | cmd/dictad/session.go:568-630 | from every state of every run the daemon can finish its work by itself |
| `DictationProgress.SettledInAgreement` | cmd/dictad/session.go:223-313 | a settled daemon has capture equal to open, no tokens, every ready closed once, and exactly the texts of the live epoch handed over |
| `DictationInvariants.CaptureByControl` | cmd/dictad/session.go:229-244 | every step of an operation keeps a disagreement between capture and open covered by a thread that will repair it |
| `DictationQueue.OwnerAdvances` | cmd/dictad/asrmonitor.go:148-223 | a transcription keeps its job until it has closed ready, and then no one owns it |
| `DictationQueue.OwnerLaunches` | cmd/dictad/asrmonitor.go:136-145 | handing a job to a transcription passes on the duty to close it |
| `DictationQueue.FreshEpoch` | cmd/dictad/session.go:265-273 | crossing into another epoch finds nothing typed in it, so the counter may restart at zero |
| `SessionRegions.Session.OpenSession` | cmd/dictad/session.go:499-509 | afterwards the mode is open; unless it was already, its epoch is later than every earlier opening and than every job, transcription and utterance under way |
| `SessionRegions.Session.CheckOpen` | cmd/dictad/session.go:580-588 | an open session is remembered by the epoch of the latest opening; a closed one needs nothing |
| `SessionRegions.Session.CloseSession` | cmd/dictad/session.go:603-607 | afterwards nothing is open, and the transcripts under way that would still be accepted are exactly those of the closed epoch |
| `SessionRegions.Session.RollbackOpen` | cmd/dictad/session.go:556-562 | afterwards nothing is open, and every job, transcription and utterance under way is stale |
| `SessionRegions.Session.SyncAudioRead` | cmd/dictad/session.go:229-237 | whoever has read open under audioMu is alone with it until it acts |
| `SessionRegions.Session.SyncAudioAct` | cmd/dictad/session.go:238-244 | audioMu is free again, capture does what was wanted unless the start failed, and if nobody is left reconciling capture agrees with open |
| `SessionRegions.Session.SkipSync` | cmd/dictad/session.go:229-232 | without a lifecycle capture is left alone, and a clip open goes on to its panel |
| `SessionRegions.Session.TakeFlush` | cmd/dictad/audiomonitor.go:219-267 | what was held goes to OnUtterance if the gate passes; the flush cannot be served a second time, its thread may commit exactly when nothing was handed on, and no other thread is affected |
| `SessionRegions.Session.EndUtterance` | cmd/dictad/audiomonitor.go:219-236 | an utterance ended by silence goes to OnUtterance if the gate passes, whole, and nobody is answered |
| `SessionRegions.Session.ReadSession` | cmd/dictad/session.go:728-737 | an utterance is claimed, whole, for the latest opening, whose epoch is no older than any job; with nothing open it is dropped |
| `SessionRegions.Session.EnqueueJob` | cmd/dictad/session.go:740-759 | the job is last in line, no older than any before it, unresolved and owned; the queue never holds more than eight and a full one drops |
| `SessionRegions.Session.TakeToken` | cmd/dictad/asrmonitor.go:129-144 | empty audio or a full pool resolves the job, for the first time and without text; otherwise there is one token more than running transcriptions, and no more than MaxConcurrent |
| `SessionRegions.Session.GoTranscribe` | cmd/dictad/asrmonitor.go:145 | the new transcription owes the job its close, and tokens equal running transcriptions |
| `SessionRegions.Session.Transcribed` | cmd/dictad/asrmonitor.go:148-212 | the transcription goes on to deliver a text exactly when the filters accept it, and that text; everything else is skipped, and the job is still untouched |
| `DictationRegions.ResultIsDelivered` | cmd/dictad/asrmonitor.go:150-214 | in every reachable state a transcription delivers exactly the non-empty text it is given, and skips exactly without one |
| `SessionRegions.Session.DeliverTranscript` | cmd/dictad/session.go:762-785 | a transcript is dropped exactly when the epoch has moved on; its job is still without text and unresolved |
| `SessionRegions.Session.StoreText` | cmd/dictad/session.go:787 | the job was unresolved and empty, now has a text, and is still unresolved; no other job changes |
| `SessionRegions.Session.Resolve` | cmd/dictad/session.go:788-804 | ready, open until now, is closed once and nobody is left to close it again |
| `SessionRegions.Session.ReleaseToken` | cmd/dictad/asrmonitor.go:149 | one transcription fewer is running and another may start |
| `SessionRegions.Session.TakeJob` | cmd/dictad/session.go:261-273 | the oldest job is taken, later than all handed over before, and the count is that of successful calls in its epoch |
| `SessionRegions.Session.AwaitReady` | cmd/dictad/session.go:274-285 | the job is resolved for good, by one close; it goes on exactly when it has a text |
| `SessionRegions.Session.CheckEpoch` | cmd/dictad/session.go:297-306 | exactly a job of the live epoch goes on to Type, with a leading space exactly when an earlier call of the epoch succeeded |
| `SessionRegions.Session.FinishTyping` | cmd/dictad/session.go:307-311 | the call is the newest in submission order as well, and the epoch now counts as typed in exactly if this or an earlier call succeeded |
| `SessionRegions.Session.OpenAlone` | cmd/dictad/session.go:499-566 | undisturbed, open_ ends open in a new epoch with capture running, does nothing if already open, or rolls back to closed and stopped, one epoch further on |
| `SessionRegions.Session.UtteranceAlone` | cmd/dictad/session.go:728-805 | undisturbed, OnUtterance queues exactly one job with this audio and epoch if a type session is open and the queue has room, and none otherwise, and answers whoever waits for the flush |
| `SessionRegions.Session.SubmitAlone` | cmd/dictad/asrmonitor.go:129-146 | submitting audio either closes ready at once, for empty audio or a full pool, or takes a token and starts one transcription |
| `SessionRegions.Session.CloseAlone` | cmd/dictad/session.go:580-613 | undisturbed, close queues the held audio for the closing epoch, stops capture and keeps the epoch |
| `SessionRegions.Session.Toggle` | cmd/dictad/session.go:411-449 | a repeat within the sliding debounce window changes nothing but the stamp; otherwise toggle closes the target mode or ends in it |
| `QuietestSplit.Split` | cmd/dictad/audiomonitor.go:393-407 | of the whole frames in the last half, within the search distance of the end, none is quieter than the frame the cut ends, and none after the cut is as quiet; the cut ends one of them, or the whole frames when there is none |
| `QuietestSplit.BestFrame` | cmd/dictad/audiomonitor.go:398-405 | the loop finds the latest of the least loud frames |
| `QuietestSplit.CutIsUnique` | cmd/dictad/audiomonitor.go:386-392 | only one cut has these properties |
| `QuietestSplit.CutBounds` | cmd/dictad/audiomonitor.go:386-392 | for whole frames the cut is frame-aligned and keeps more than half of the buffer |
| `AudioLoop.SpeechIsConserved` | cmd/dictad/audiomonitor.go:219-337 | for any frames and flushes, what was sent, gated or cut off followed by the accumulator is the audio of exactly the frames called speech |
| `AudioLoop.ChunksAreBounded` | cmd/dictad/audiomonitor.go:304-330 | with a cap and whole frames the accumulator stays under the cap, every piece is frame-aligned and less than a frame over it, and a forced piece is more than half of its buffer, well cut |
| `AudioLoop.GateCountsRawFrames` | cmd/dictad/audiomonitor.go:219-236 | an utterance that ends is dropped exactly when fewer raw speech frames than the minimum were heard since it began, counting those of parts already cut off |
| `AudioLoop.GateStandsAsideIff` | cmd/dictad/audiomonitor.go:123-128 | without raw classification an utterance that ends is passed on exactly when no minimum is configured, and dropped exactly when one is |
| `AudioLoop.GateDropsSpeech` | cmd/dictad/audiomonitor.go:123-128 | one frame of speech and a flush, dropped |
| `AudioLoop.GateWithoutEnergyVAD` | cmd/dictad/audiomonitor.go:123-128 | so with a minimum nothing is ever sent except forced pieces |
| `AudioLoop.OutagesAlternate` | cmd/dictad/audiomonitor.go:238-283 | lost and restored reports alternate, starting with lost |
| `AudioLoop.WatchdogExactly` | cmd/dictad/audiomonitor.go:238-283 | with a timeout the watchdog is armed, and in any case no outage under way, exactly when a frame has followed every expiry |
| `AudioLoop.InUtteranceExactly` | cmd/dictad/audiomonitor.go:291-336 | the loop is in an utterance exactly while a speech frame has not been followed by silence or a flush |
| `CaptureLoop.Monitor.Finalize` | cmd/dictad/audiomonitor.go:219-236 | the emit closure hands on a copy or drops, and resets |
| `CaptureLoop.Monitor.Append` | cmd/dictad/audiomonitor.go:305 | append in place or into a larger array keeps the accumulated audio |
| `CaptureLoop.Monitor.ForceSplit` | cmd/dictad/audiomonitor.go:320-330 | the forced chunk is copied out and the rest moved to the front of the same array |
| `CaptureLoop.Monitor.OnStall` | cmd/dictad/audiomonitor.go:254-262 | the watchdog reports once and disarms |
| `CaptureLoop.Monitor.OnFlush` | cmd/dictad/audiomonitor.go:263-267 | a flush emits what is held; earlier utterances keep their bytes |
| `CaptureLoop.Monitor.OnFrame` | cmd/dictad/audiomonitor.go:268-337 | a frame takes the loop to its next state; earlier utterances keep their bytes |
| `MuteDebounce.DispatchExactly` | cmd/dictad/mutewatch.go:288-434 | a transition to s is dispatched exactly when an unblocked timer is due on a change to s that has been steadily repeated for the debounce time, all read off the history of inputs |
| `MuteDebounce.LastStateExactly` | cmd/dictad/mutewatch.go:315-434 | the state believed is that of the last input that is initial, first, observed while suspended or absent, or an expiry that fired or was suspended |
| `MuteDebounce.DispatchesAlternate` | cmd/dictad/mutewatch.go:315-434 | two dispatches with no initial, suspended or absent observation and no suspended expiry between them differ in state |
| `MuteDebounce.ChangeIsDispatched` | cmd/dictad/mutewatch.go:315-434 | after a dispatch a change to another state, left alone for the debounce time, is dispatched in its turn |
| `MuteDebounce.PendingExactly` | cmd/dictad/mutewatch.go:387-432 | a candidate is pending exactly when some change away from the last state has only been repeated since it armed |
| `MuteDebounce.PendingIsAChange` | cmd/dictad/mutewatch.go:418-432 | a pending state differs from the last state, and only after a seed |
| `FlapGuard.WindowIsHistory` | cmd/dictad/mutewatch.go:253-282 | on a clock that does not run backwards the kept times are the recent part of the whole history, and the guard is suspended exactly when some fire made the count exceed the threshold |
| `FlapGuard.WindowIsFilter` | cmd/dictad/mutewatch.go:267-274 | with a positive window the kept times are the history filtered to times later than now minus the window |
| `FlapGuard.TripsAtTheFirst` | cmd/dictad/mutewatch.go:275-281 | the guard trips at the first such fire and not before |
| `FlapGuard.DisabledNeverSuspends` | cmd/dictad/mutewatch.go:258-262 | without a threshold the guard never suspends and keeps no times |
| `SuspendSafety.SuspendedMeansClosed` | cmd/dictad/mutewatch.go:140-192 | in every interleaving, suspended with actMu free means no type session is open |
| `SuspendSafety.NothingOpensUntilResume` | cmd/dictad/mutewatch.go:315-362 | once suspended, no EnsureTypeOpen call begins and nothing opens until a Resume |
| `SuspendSafety.SuspendReturnsClosed` | cmd/dictad/mutewatch.go:149-176 | a Suspend that has returned leaves the session closed until a Resume |
| `SuspendSafety.FireAlone` | cmd/dictad/mutewatch.go:315-362 | an expiry that nobody interferes with does nothing when suspended or absent; otherwise muted closes, unmuted asks once for an open, and a tripped guard suspends and closes |
| `SuspendSafety.SuspendAlone` | cmd/dictad/mutewatch.go:149-176 | an undisturbed Suspend suspends, and closes unless it was suspended already |
| `SuspendSafety.ResumeReopens` | cmd/dictad/mutewatch.go:182-192 | after a Resume the next unmuted expiry opens the session again |
| `SuspendSafety.OpensOnlyByFire` | cmd/dictad/mutewatch.go:333-348 | a session opens only by a successful EnsureTypeOpen of an unmuted expiry |
| `MuteWatcher.Watcher.FilterInPlace` | cmd/dictad/mutewatch.go:267-273 | the filter within the slice's own array keeps exactly the later times in order |
| `MuteWatcher.Watcher.RecordFireAndCheckFlap` | cmd/dictad/mutewatch.go:258-282 | one fire recorded, and whether it tripped the guard |
| `MuteWatcher.Watcher.Suspend` | cmd/dictad/mutewatch.go:149-176 | entering suspension closes the session, repeating it does not |
| `MuteWatcher.Watcher.Resume` | cmd/dictad/mutewatch.go:182-192 | resuming clears the flap window |
| `MuteWatcher.Watcher.OnEvent` | cmd/dictad/mutewatch.go:382-433 | an event seeds, tracks, cancels, keeps or arms |
| `MuteWatcher.Watcher.OnTimer` | cmd/dictad/mutewatch.go:369-374 | an expiry dispatches, records the fire, and closes the session if the guard trips |
| `MuteWatcher.Watcher.OnDevice` | cmd/dictad/mutewatch.go:375-381 | a lost device drops the candidate |
| `MuteWatcher.Watcher.DeviceLost` | cmd/dictad/mutewatch.go:200-209 | while the device is absent no expiry dispatches and no event makes a new candidate |
| `MuteWatcher.Watcher.DeviceRestored` | cmd/dictad/mutewatch.go:216-225 | the state the device returns in seeds the watcher and is not dispatched |
| `Chunks.ChunkString` | internal/dispatch/typer.go:449-478 | the loop produces the one division of the text |
| `Chunks.FindSplit` | internal/dispatch/typer.go:465-473 | the walk back finds the latest blank of the last quarter or keeps the full size |
| `Chunks.ChunksAreLossless` | internal/dispatch/typer.go:445-448 | the chunks concatenate to the text and have between one and size characters |
| `Chunks.CutsInPlace` | internal/dispatch/typer.go:445-448 | a chunk that is not the last has more than three quarters of the size and ends after the latest blank of its last quarter, or is full |
| `Chunks.CutExactly` | internal/dispatch/typer.go:465-473 | a cut falls after the latest space or tab of the last quarter, or at the full size when there is none |
| `Chunks.DivisionIsUnique` | internal/dispatch/typer.go:449-478 | a text has only one such division |
| `Chunks.StripNewlines` | internal/dispatch/typer.go:205-210 | newlines and carriage returns become spaces and nothing else changes |
| `Breaker.FieldsAreHistory` | internal/dispatch/typer.go:258-301 | the count is the trailing run of failures, open means it reached the threshold, notified equals open, and there is one notice per outage |
| `Breaker.NothingBeforeCooldown` | internal/dispatch/typer.go:246-256 | after a failure at time t that leaves the breaker open no call before t + cooldown invokes anything, and the next may |
| `Breaker.ClosedAllowsAlways` | internal/dispatch/typer.go:249-255 | below the threshold every call is allowed |
| `Typer.SubprocessTyper.BreakerAllowAttempt` | internal/dispatch/typer.go:249-256 | the guard answers as the history requires |
| `Typer.SubprocessTyper.RecordResult` | internal/dispatch/typer.go:264-301 | the fields keep standing for the history; a cancelled attempt is not part of it |
| `Typer.SubprocessTyper.TypeChunks` | internal/dispatch/typer.go:229-244 | done exactly when nothing stops the chunks, failed or cancelled exactly when a failing invocation or a cancelled delay comes first, and what was sent ends there |
| `Typer.SubprocessTyper.Type` | internal/dispatch/typer.go:204-225 | blank text and an open breaker send nothing; otherwise the outcome is exact, a failure counting as cancelled only when the context has ended, and successes and failures, and nothing else, enter the history |
| `Typer.SubprocessTyper.Attempt` | internal/dispatch/typer.go:222-224 | an allowed attempt is recorded unless it was cancelled |
| `NoiseFloor.MedianIsRobust` | internal/audio/vad.go:239-250 | the median is on the same side of any bound as more than half of the samples |
| `NoiseFloor.MedianExactly` | internal/audio/vad.go:239-250 | of an odd number the median is the sample in the middle, of an even number the mean of the two in the middle, of none zero |
| `NoiseFloor.CalibrationIgnoresClicks` | internal/audio/vad.go:137-145 | if more than half of the calibration samples are at most x, so is the floor |
| `NoiseFloor.CalibrationHearsNoise` | internal/audio/vad.go:140-146 | a level reached by more than half of the calibration samples raises the floor to it |
| `NoiseFloor.DriftIsBounded` | internal/audio/vad.go:166-173 | one drift stays between the lower bound and the larger of the old floor and the loudest window |
| `NoiseFloor.FloorNeverOvershoots` | internal/audio/vad.go:166-173 | the same over any stretch of silent frames |
| `NoiseFloor.FloorConverges` | internal/audio/vad.go:166-173 | in a steady ambient noise the floor approaches it geometrically by the decay, until the lower bound stops it |
| `NoiseFloor.SortPermutes` | internal/audio/vad.go:243-244 | the sorted copy has the samples of the original |
| `Vad.HangoverStep` | internal/audio/vad.go:191-205 | the counter and the flag stand for the time since the last raw speech frame |
| `Vad.EnergyVAD.ApplyHangover` | internal/audio/vad.go:193-205 | a frame is speech exactly when a raw speech frame lies within the hangover |
| `Vad.EnergyVAD.IsSpeech` | internal/audio/vad.go:121-177 | the same for whole frames; after calibration a frame is raw speech exactly when one of its windows exceeds the floor by the margin, calibration collects the level of each window in order and ends with a floor most samples agree with, and later frames keep the floor between the minimum and the larger of its old value and the loudest window |
| `Vad.WindowsAreLevels` | internal/audio/vad.go:210-229 | the levels are those of the whole windows in order, or of a buffer shorter than one |
| `Vad.AboveIsSomeWindow` | internal/audio/vad.go:154-164 | some level exceeds a threshold exactly when some window of the buffer does |
| `Vad.EnergyVAD.Reset` | internal/audio/vad.go:110-117 | a fresh session forgets the history |
| `Vad.Scan` | internal/audio/vad.go:155-164 | the loop finds the loudest window and whether any exceeds the threshold |
| `PcmZero.Source.OnFrame` | internal/mute/pcmzero/source.go:110-162 | with the consumer free to receive between any two channel operations, the queued or else the last received event carries the frame's state, and deliveries are a subsequence of the emissions; only after a second Watch may there be no event yet, exactly when the state is the one last seen |
| `PcmZero.Slot.Send` | internal/mute/pcmzero/source.go:144-161 | newest wins, and no send meets a closed channel |
| `PcmZero.Source.Watch` | internal/mute/pcmzero/source.go:71-92 | a second Watch while one runs is refused; after a cancellation it gets a new channel and keeps the last state |
| `PcmZero.Source.Detach` | internal/mute/pcmzero/source.go:83-86 | after cancellation no frame uses the channel |
| `PcmZero.Source.CloseOut` | internal/mute/pcmzero/source.go:87-89 | each detached channel is closed once, whatever is watched by then |
| `PcmZero.Source.Reseed` | internal/mute/pcmzero/source.go:101-105 | the next frame is reported as initial |
| `PcmZero.ChangesAlternate` | internal/mute/pcmzero/source.go:124-135 | consecutive emissions without a reseed between them differ in state |
| `PcmZero.ChangesExactly` | internal/mute/pcmzero/source.go:110-142 | exactly the first frame, the first after a reseed and every change are emitted, in order, each saying whether its bytes are all zero and whether it is initial |
| `PcmZero.LastChangeIsCurrent` | internal/mute/pcmzero/source.go:124-135 | the last emission carries the last frame's state |
| `PcmZero.AllZero` | internal/mute/pcmzero/source.go:167-174 | the scan says whether every byte is zero |
| `AutoMute.WinnerTakesAll` | internal/mute/auto.go:92-146 | every transition on the output is the winner's, they are a prefix of its own from the first, and lock-in never cancels it |
| `AutoMute.EverythingDueIsSent` | internal/mute/auto.go:108-146 | the output carries every event of the winner and every initial event of the others, each source's in its own order, and all losers are cancelled |
| `AutoMute.WinnerStays` | internal/mute/auto.go:123-132 | once a source has won it stays the winner |
| `AutoMute.GoneIsSilent` | internal/mute/auto.go:106-145 | a goroutine whose source closed, or that gave up, sends nothing more |
| `AutoMute.OneSourceIffGoodNames` | internal/mute/auto.go:123-137 | with two or more sources the output stays with one source in every run exactly when the names are non-empty and distinct |
| `AutoMute.BadNamesMix` | internal/mute/auto.go:128-132 | an empty name, or a shared one, lets two sources through |
| `Repetition.IsRepetitionLoop` | cmd/dictad/asrmonitor.go:285-312 | the scan reports exactly a letter three times in a row, or twice when English never doubles it |
| `Repetition.CleanText` | cmd/dictad/asrmonitor.go:271-284 | nothing is reported exactly when every repeated letter occurs twice and may be doubled |
| `Transcripts.Filter` | cmd/dictad/asrmonitor.go:159-212 | the filters in their order accept exactly what the definition accepts |
| `Transcripts.FillerIsHallucination` | cmd/dictad/asrmonitor.go:243-254 | a text of full stops, exclamation and question marks, commas and blanks counts as a hallucination |
| `Transcripts.AcceptedSpeaks` | cmd/dictad/asrmonitor.go:183-212 | a text that is delivered contains something else, and the test for an empty text never decides by itself |
| `Transcripts.AcceptedExactly` | cmd/dictad/asrmonitor.go:161-212 | exactly the stripped answer is delivered, and exactly when it is no known phrase and no decoder loop |
| `Transcripts.NormalizedExactly` | cmd/dictad/asrmonitor.go:248-254 | what is compared with the phrases is the text without surrounding white space, the filler after it and the white space before that, in lower case |

## Left out

- Capture, cue, ydotool, wl-copy and panel subprocesses, the ASR and cleanup clients, the control socket, the event bus, audit files and logging: foreign calls, present only as steps or arguments with an arbitrary outcome.
- The epoch is an unbounded number; the wrap-around of a 64-bit counter is not modelled.
- The idle timer and NoteSpeech decide only when `close` begins, which the machine leaves open.
- Shutdown closing typeQueue is not modelled; cancellation of the worker is the step Exit.
- The flush request channel and its time-outs are one step: a close is served, or gives up at any time.
- VAD Reset on open is not a step of the dictation machine; it is Vad.EnergyVAD.Reset.
- SuspendSafety.SuspendedMeansClosed: the toggler's close is taken to succeed, as the session's close always does, and the watcher to be the only opener.
- Chunks.ChunkString: texts are sequences of Unicode characters, so the replacement of invalid UTF-8 bytes is not modelled.
- Typer.SubprocessTyper.Type: calls follow one another, as the single worker makes them; what overlapping calls do to the breaker is not modelled.
- Vad.EnergyVAD.IsSpeech: loudness is a real-valued function of the samples, so rounding is not modelled; the decibel margin is given as its ratio.
- AutoMute.WinnerTakesAll: the capacity of the output channel only delays a send, so it is not modelled.
- SessionRegions.Session.Transcribed: disfluency stripping, case folding and what counts as a letter are arbitrary functions, because a regular expression and the Unicode tables define them.
- DictationOverlap.UtteranceBecomesJobIff: room in the queue and a gate that passes are assumed, as for FlushBecomesJobIff.
- DictationOverlap.FlushBecomesJobIff: a full queue or a gate that fails drops the audio before the session matters, so both are assumed away.
- The ring buffer, the retry schedule, the whisper supervisor and the event list: easier, or carried by libraries.
