/** What each region of the dictation machine achieves, in any state of any run. */
module DictationRegions {
  import opened Common
  import opened DictationMachine
  import opened DictationInvariants
  import opened DictationQueue
  import opened DictationTheorems

  // ------------------------------------------------------ control threads

  /** Everything under way belongs to an earlier epoch, so no check will let it through. */
  ghost predicate AllStale(s: State) {
    && (forall j :: 0 <= j < |s.jobs| ==> s.jobs[j].epoch < s.epoch)
    && (forall k :: 0 <= k < |s.tasks| ==> s.tasks[k].ticket.epoch < s.epoch)
    && (HasTicket(s.audio) ==> s.audio.ticket.epoch < s.epoch)
  }

  /** Whatever bumps the epoch leaves everything that is under way behind. */
  lemma BumpLeavesBehind(s: State, s': State)
    requires InvSession(s) && InvQueue(s) && s'.epoch == s.epoch + 1
    requires s'.jobs == s.jobs && s'.tasks == s.tasks && s'.audio == s.audio
    ensures AllStale(s')
  {
  }

  /** open_ makes a session whose epoch is new, unless it finds its mode already open. */
  lemma OpenIsFresh(c: Config, s: State, t: nat)
    requires Reachable(c, s) && ControlEnabled(c, s, t, OpenRegion)
    ensures Reachable(c, ApplyControl(c, s, t, OpenRegion))
    ensures var s' := ApplyControl(c, s, t, OpenRegion);
      && s'.open && s'.mode == s.ops[t].target
      && if s.open && s.mode == s.ops[t].target then s'.epoch == s.epoch && s'.ops[t].Done?
         else AllStale(s') && forall i :: 0 <= i < |s.opens| ==> s.opens[i].epoch < s'.epoch
  {
    ReachableStep(c, s, Control(t, OpenRegion));
    ReachableInv(c, s);
    if !(s.open && s.mode == s.ops[t].target) { BumpLeavesBehind(s, ApplyControl(c, s, t, OpenRegion)); }
  }

  /** close remembers the epoch of the latest opening, if that session is still open. */
  lemma CloseFindsLatest(c: Config, s: State, t: nat)
    requires Reachable(c, s) && ControlEnabled(c, s, t, CloseCheck)
    ensures Reachable(c, ApplyControl(c, s, t, CloseCheck))
    ensures var op := ApplyControl(c, s, t, CloseCheck).ops[t];
      && (op.Done? <==> !s.open)
      && (op.Flushing? <==> s.open)
      && (s.open ==> s.opens != [] && s.opens[|s.opens|-1] == Opening(op.epoch, s.mode))
  {
    ReachableStep(c, s, Control(t, CloseCheck));
    ReachableInv(c, s);
    if s.open { LiveIsLast(s.opens, s.epoch, s.mode); }
  }

  /** The transcripts of epoch e, and of no other, would pass the callback's check. */
  ghost predicate Accepts(s: State, e: nat) {
    forall k :: 0 <= k < |s.tasks| && s.tasks[k].pc.Delivering? ==> AcceptsTask(s, k, e)
  }

  predicate AcceptsTask(s: State, k: nat, e: nat)
    requires k < |s.tasks|
  {
    TaskEnabled(s, k, Deliver) && (ApplyTask(s, k, Deliver).tasks[k].pc.Skipping? <==> s.tasks[k].ticket.epoch != e)
  }

  /** Closing lets the transcripts of the closed session drain: they are still the ones accepted. */
  lemma CloseDrains(c: Config, s: State, t: nat)
    requires Reachable(c, s) && ControlEnabled(c, s, t, CloseRegion)
    ensures Reachable(c, ApplyControl(c, s, t, CloseRegion))
    ensures var s' := ApplyControl(c, s, t, CloseRegion); !s'.open && Accepts(s', s.epoch)
  {
    ReachableStep(c, s, Control(t, CloseRegion));
    ReachableInv(c, s);
    var s' := ApplyControl(c, s, t, CloseRegion);
    ControlKeepsInv(c, s, t, CloseRegion);
    forall k | 0 <= k < |s'.tasks| && s'.tasks[k].pc.Delivering? ensures AcceptsTask(s', k, s.epoch) {
      DropsExactlyStale(c, s', k);
    }
  }

  /** A rollback accepts nothing that is under way. */
  lemma RollbackStales(c: Config, s: State, t: nat)
    requires Reachable(c, s) && ControlEnabled(c, s, t, Rollback)
    ensures Reachable(c, ApplyControl(c, s, t, Rollback))
    ensures var s' := ApplyControl(c, s, t, Rollback); !s'.open && AllStale(s')
  {
    ReachableStep(c, s, Control(t, Rollback));
    ReachableInv(c, s);
    BumpLeavesBehind(s, ApplyControl(c, s, t, Rollback));
  }

  /** Whoever has read `open` under audioMu is alone with it. */
  lemma ReadExcludes(c: Config, s: State, t: nat)
    requires Reachable(c, s) && ControlEnabled(c, s, t, SyncRead)
    ensures Reachable(c, ApplyControl(c, s, t, SyncRead))
    ensures var s' := ApplyControl(c, s, t, SyncRead);
      && (forall u :: 0 <= u < |s.ops| && u != t ==> !s'.ops[u].Holding?)
      && (forall u: nat :: u < |s.ops| ==> !ControlEnabled(c, s', u, SyncRead))
  {
    ReachableStep(c, s, Control(t, SyncRead));
    ReachableInv(c, s);
    assert ApplyControl(c, s, t, SyncRead).ops[t].Holding?;
  }

  /** The last of the threads that reconcile leaves capture and `open` in agreement. */
  lemma ActReconciles(c: Config, s: State, t: nat, ok: bool)
    requires Reachable(c, s) && c.onDemand && ControlEnabled(c, s, t, SyncAct(ok))
    ensures var s' := ApplyControl(c, s, t, SyncAct(ok));
      && AudioMuFree(s')
      && (ok ==> s'.running == s.ops[t].wanted)
      && ((forall u :: 0 <= u < |s'.ops| ==> !Reconciling(s'.ops[u])) ==> s'.running == s'.open)
  {
    ReachableInv(c, s);
    CaptureByControl(c, s, t, SyncAct(ok));
  }

  // ------------------------------------------------------ audio goroutine

  /** A session's utterance is claimed for its latest opening, and for no older epoch than any job. */
  lemma ReadClaims(c: Config, s: State)
    requires Reachable(c, s) && AudioEnabled(s, UtteranceRead)
    ensures Reachable(c, ApplyAudio(c, s, UtteranceRead))
    ensures var s' := ApplyAudio(c, s, UtteranceRead);
      && (s'.audio.Slot? <==> s.open) && (s'.audio.Quiet? <==> !s.open)
      && (s.open ==>
            && s'.audio.pcm == s.audio.pcm
            && s.opens != [] && s.opens[|s.opens|-1] == Opening(s'.audio.ticket.epoch, s'.audio.ticket.mode)
            && forall j :: 0 <= j < |s.jobs| ==> s.jobs[j].epoch <= s'.audio.ticket.epoch)
  {
    ReachableStep(c, s, Air(UtteranceRead));
    ReachableInv(c, s);
    if s.open { LiveIsLast(s.opens, s.epoch, s.mode); }
  }

  /** Job n is the last in line, no older than any before it, unresolved, and somebody's to resolve. */
  ghost predicate LastInLine(s: State, n: nat) {
    && |s.jobs| == n + 1 && s.queue != [] && s.queue[|s.queue|-1] == n
    && (forall j :: 0 <= j < n ==> s.jobs[j].epoch <= s.jobs[n].epoch)
    && s.jobs[n].closes == 0 && HasOwner(s.tasks, Carried(s.audio), n)
  }

  /** The slot in the queue is allocated in submission order, before transcription starts. */
  lemma EnqueueIsLast(c: Config, s: State)
    requires Reachable(c, s) && AudioEnabled(s, Enqueue)
    ensures Reachable(c, ApplyAudio(c, s, Enqueue))
    ensures var s' := ApplyAudio(c, s, Enqueue);
      && (s'.audio.Submit? <==> s.audio.ticket.mode != TypeMode || |s.queue| < QUEUE_CAP)
      && (s'.audio.Submit? ==> s'.audio.pcm == s.audio.pcm)
      && if s.audio.ticket.mode == TypeMode && |s.queue| < QUEUE_CAP then
           LastInLine(s', |s.jobs|) && s'.jobs[..|s.jobs|] == s.jobs
           && s'.jobs[|s.jobs|].pcm == s.audio.pcm && s'.jobs[|s.jobs|].epoch == s.audio.ticket.epoch
         else s'.jobs == s.jobs && s'.queue == s.queue
  {
    ReachableStep(c, s, Air(Enqueue));
    ReachableInv(c, s);
  }

  /** Nobody owes job j its close any more, and it was closed once. */
  ghost predicate ResolvedOnce(s: State, j: nat) {
    j < |s.jobs| && s.jobs[j].closes == 1 && !HasOwner(s.tasks, Carried(s.audio), j)
  }

  /** A job that goes from one close to none owing was unresolved before. */
  lemma OwnerGone(c: Config, s: State, j: nat)
    requires Inv(c, s) && j < |s.jobs| && s.jobs[j].closes == 1
    ensures ResolvedOnce(s, j)
  {
    forall k | 0 <= k < |s.tasks| ensures !Owes(s.tasks[k], j) {
      assert TaskFits(s.jobs, s.tasks[k]);
    }
  }

  /** An utterance without audio, or one too many, has its job resolved on the spot, without text. */
  lemma SubmitResolves(c: Config, s: State)
    requires Reachable(c, s) && AudioEnabled(s, AsrSubmit) && (s.audio.pcm == [] || s.tokens >= c.maxConcurrent)
    ensures Reachable(c, ApplyAudio(c, s, AsrSubmit))
    ensures var s' := ApplyAudio(c, s, AsrSubmit); var job := s.audio.ticket.job;
      && s'.audio.Quiet?
      && (job.Some? ==>
            job.value < |s.jobs| && s.jobs[job.value].closes == 0
            && s'.jobs[job.value].text == "" && ResolvedOnce(s', job.value))
  {
    ReachableStep(c, s, Air(AsrSubmit));
    ReachableInv(c, s);
    var s' := ApplyAudio(c, s, AsrSubmit);
    ReachableInv(c, s');
    if s.audio.ticket.job.Some? { OwnerGone(c, s', s.audio.ticket.job.value); }
  }

  /** Any other takes a token, of which there are enough. */
  lemma SubmitTakesToken(c: Config, s: State)
    requires Reachable(c, s) && AudioEnabled(s, AsrSubmit) && s.audio.pcm != [] && s.tokens < c.maxConcurrent
    ensures Reachable(c, ApplyAudio(c, s, AsrSubmit))
    ensures var s' := ApplyAudio(c, s, AsrSubmit);
      s'.audio.Launch? && s'.tokens == Live(s.tasks) + 1 <= c.maxConcurrent && s'.jobs == s.jobs
  {
    ReachableStep(c, s, Air(AsrSubmit));
    ReachableInv(c, s);
  }

  /** The transcription that starts owes the utterance's job its close, and holds the token taken for it. */
  lemma LaunchPassesDuty(c: Config, s: State)
    requires Reachable(c, s) && AudioEnabled(s, AsrLaunch)
    ensures Reachable(c, ApplyAudio(c, s, AsrLaunch))
    ensures var s' := ApplyAudio(c, s, AsrLaunch); var job := s.audio.ticket.job;
      && s'.audio.Quiet? && s'.tokens == Live(s'.tasks) == Live(s.tasks) + 1 <= c.maxConcurrent
      && |s'.tasks| == |s.tasks| + 1
      && (job.Some? ==> Owes(s'.tasks[|s.tasks|], job.value))
  {
    ReachableStep(c, s, Air(AsrLaunch));
    ReachableInv(c, s);
    var s' := ApplyAudio(c, s, AsrLaunch);
    assert s'.tasks[..|s.tasks|] == s.tasks;
  }

  // ------------------------------------------------- transcribe goroutines

  /** Task k's job, if it has one, is still without text and its ready channel open. */
  predicate Untouched(s: State, k: nat)
    requires k < |s.tasks|
  {
    s.tasks[k].ticket.job.Some? ==>
      var j := s.tasks[k].ticket.job.value; j < |s.jobs| && s.jobs[j].closes == 0 && s.jobs[j].text == ""
  }

  lemma TranscribingIsUntouched(c: Config, s: State, k: nat)
    requires Reachable(c, s) && k < |s.tasks| && s.tasks[k].pc.Transcribing?
    ensures Untouched(s, k)
  {
    ReachableInv(c, s);
    assert TaskFits(s.jobs, s.tasks[k]);
  }

  /** A text that is not empty goes on to be delivered, whole; without one the job is skipped. */
  lemma ResultIsDelivered(c: Config, s: State, k: nat, result: Option<string>)
    requires Reachable(c, s) && TaskEnabled(s, k, Result(result))
    ensures Reachable(c, ApplyTask(s, k, Result(result)))
    ensures var task := ApplyTask(s, k, Result(result)).tasks[k];
      && task.ticket == s.tasks[k].ticket
      && (forall text :: task.pc == Delivering(text) <==> result == Some(text) && text != "")
      && (task.pc.Skipping? <==> result == None || result == Some(""))
    ensures Untouched(s, k)
  {
    ReachableStep(c, s, Pool(k, Result(result)));
    TranscribingIsUntouched(c, s, k);
  }

  /** A transcript is dropped exactly when its epoch is over; until then its job is untouched. */
  lemma DeliverDropsStale(c: Config, s: State, k: nat)
    requires Reachable(c, s) && TaskEnabled(s, k, Deliver)
    ensures Reachable(c, ApplyTask(s, k, Deliver))
    ensures var s' := ApplyTask(s, k, Deliver);
      && (s'.tasks[k].pc.Skipping? <==> s.epoch != s.tasks[k].ticket.epoch)
      && Untouched(s, k) && Untouched(s', k)
  {
    ReachableStep(c, s, Pool(k, Deliver));
    ReachableInv(c, s);
    assert TaskFits(s.jobs, s.tasks[k]);
    DropsExactlyStale(c, s, k);
  }

  /** The text goes into a job that is unresolved and empty, before ready is closed. */
  lemma StoreFirst(c: Config, s: State, k: nat)
    requires Reachable(c, s) && TaskEnabled(s, k, Store)
    ensures Reachable(c, ApplyTask(s, k, Store))
    ensures var s' := ApplyTask(s, k, Store); var j := s.tasks[k].ticket.job.value;
      && Untouched(s, k) && s'.jobs[j].text == s.tasks[k].pc.text != "" && s'.jobs[j].closes == 0
      && forall i :: 0 <= i < |s.jobs| && i != j ==> s'.jobs[i] == s.jobs[i]
  {
    ReachableStep(c, s, Pool(k, Store));
    ReachableInv(c, s);
    assert TaskFits(s.jobs, s.tasks[k]);
  }

  /** ready is closed for the first time, by the last who could. */
  lemma CloseReadyOnce(c: Config, s: State, k: nat)
    requires Reachable(c, s) && TaskEnabled(s, k, CloseReady) && s.tasks[k].ticket.job.Some?
    ensures var s' := ApplyTask(s, k, CloseReady); var j := s.tasks[k].ticket.job.value;
      s.jobs[j].closes == 0 && ResolvedOnce(s', j)
  {
    ReachableInv(c, s);
    assert TaskFits(s.jobs, s.tasks[k]);
    TaskKeepsInv(c, s, k, CloseReady);
    OwnerGone(c, ApplyTask(s, k, CloseReady), s.tasks[k].ticket.job.value);
  }

  /** The token that comes back makes room for another transcription. */
  lemma ReleaseMakesRoom(c: Config, s: State, k: nat)
    requires Reachable(c, s) && TaskEnabled(s, k, Release)
    ensures Reachable(c, ApplyTask(s, k, Release))
    ensures var s' := ApplyTask(s, k, Release);
      && s'.tokens < c.maxConcurrent && Live(s'.tasks) == Live(s.tasks) - 1
  {
    ReachableStep(c, s, Pool(k, Release));
    ReachableInv(c, s);
    LiveUpdate(s.tasks, k, Released);
  }

  // ------------------------------------------------------------ the worker

  /** The worker takes the oldest job, and its counter is the number of calls that succeeded in the job's epoch. */
  lemma TakeIsOldest(c: Config, s: State)
    requires Reachable(c, s) && WorkerEnabled(s, Take)
    ensures Reachable(c, ApplyWorker(s, Take))
    ensures var s' := ApplyWorker(s, Take); var j := s.queue[0];
      && s'.worker == Waiting(j) && j == |s.jobs| - |s.queue|
      && (forall i :: 0 <= i < |s'.queue| ==> j < s'.queue[i])
      && (forall k :: 0 <= k < |s.typed| ==> s.typed[k].job < j)
      && s'.typedInEpoch == OkIn(s.typed, s.jobs[j].epoch)
  {
    ReachableStep(c, s, Work(Take));
    ReachableInv(c, s);
    TypingByTake(s);
  }

  /** A closed ready means a resolved job: one close, and a text or none for good. */
  lemma ReadyIsResolved(c: Config, s: State)
    requires Reachable(c, s) && WorkerEnabled(s, Ready)
    ensures Reachable(c, ApplyWorker(s, Ready))
    ensures var j := s.worker.job;
      && ResolvedOnce(s, j)
      && (ApplyWorker(s, Ready).worker.Checking? <==> s.jobs[j].text != "")
      && (ApplyWorker(s, Ready).worker.Idle? <==> s.jobs[j].text == "")
  {
    ReachableStep(c, s, Work(Ready));
    ReachableInv(c, s);
    OwnerGone(c, s, s.worker.job);
  }

  /** A job of the live epoch, and no other, goes on to be typed; the space says whether anything of the epoch was typed before. */
  lemma CheckChoosesText(c: Config, s: State)
    requires Reachable(c, s) && WorkerEnabled(s, Check)
    ensures Reachable(c, ApplyWorker(s, Check))
    ensures var s' := ApplyWorker(s, Check); var job := s.jobs[s.worker.job];
      && (s'.worker.Typing? <==> s.epoch == job.epoch)
      && (s'.worker.Idle? <==> s.epoch != job.epoch)
      && (s'.worker.Typing? ==>
            s'.worker.payload == (if TypedBefore(s.typed, |s.typed|, s.epoch) then " " else "") + job.text
            && job.text != "")
  {
    ReachableStep(c, s, Work(Check));
    ReachableInv(c, s);
    NewEpochUntyped(s.typed, s.jobs[s.worker.job].epoch);
  }

  lemma SuccessIsRemembered(typed: seq<TypeCall>, call: TypeCall)
    ensures TypedBefore(typed + [call], |typed| + 1, call.epoch) <==> call.ok || TypedBefore(typed, |typed|, call.epoch)
  {
    var typed', n := typed + [call], |typed|;
    PrefixTypedBefore(typed, call, n, call.epoch);
    assert typed'[n] == call;
    assert TypedBefore(typed', n, call.epoch) ==> TypedBefore(typed', n + 1, call.epoch);
  }

  /** The call that has finished is the newest in submission order too, and a success will earn the next one its space. */
  lemma TypedIsNewest(c: Config, s: State, ok: bool)
    requires Reachable(c, s) && WorkerEnabled(s, Typed(ok))
    ensures Reachable(c, ApplyWorker(s, Typed(ok)))
    ensures var s' := ApplyWorker(s, Typed(ok)); var n := |s.typed|;
      && |s'.typed| == n + 1 && s'.typed[..n] == s.typed && s'.typed[n].job == s.worker.job
      && (forall k :: 0 <= k < n ==> s.typed[k].job < s'.typed[n].job)
      && s'.typedInEpoch == OkIn(s'.typed, s'.currentEpoch)
      && (TypedBefore(s'.typed, n + 1, s'.typed[n].epoch) <==> ok || TypedBefore(s.typed, n, s'.typed[n].epoch))
  {
    ReachableStep(c, s, Work(Typed(ok)));
    ReachableInv(c, s);
    TypingByTyped(s, ok);
    var s' := ApplyWorker(s, Typed(ok));
    SuccessIsRemembered(s.typed, s'.typed[|s.typed|]);
  }
}
