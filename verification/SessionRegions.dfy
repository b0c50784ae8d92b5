/**
 The session, the transcription pool and the typing worker as the program
 writes them: one object whose fields the regions update in place.  A method is
 one region between two points where another thread may run: it takes the step
 of DictationMachine it implements, stays within the runs of that machine, and says
 what that achieves.
 */
module SessionRegions {
  import opened Common
  import opened DictationMachine
  import opened DictationInvariants
  import opened DictationTheorems
  import opened DictationRegions
  import opened Repetition
  import opened Transcripts

  class Session {
    const c: Config
    // guarded by mu
    var mode: Mode
    var open: bool
    var epoch: nat
    ghost var opens: seq<Opening>
    // capture, and where each control thread stands
    var running: bool
    var ops: seq<Op>
    // the audio goroutine
    var held: Pcm
    var audio: Audio
    // typeQueue and the jobs it points to
    var jobs: seq<Job>
    var queue: seq<nat>
    // the inflight channel and where each transcribe goroutine stands
    var tokens: nat
    var tasks: seq<Task>
    // locals of typeWorker
    var worker: Worker
    var currentEpoch: nat
    var initialized: bool
    var typedInEpoch: nat
    ghost var typed: seq<TypeCall>
    // Toggle's debounce; not part of the machine's state
    var toggleDebounce: int
    var lastToggle: int

    ghost function View(): State
      reads this
    {
      State(mode, open, epoch, opens, running, ops, held, audio, jobs, queue, tokens, tasks,
            worker, currentEpoch, initialized, typedInEpoch, typed)
    }

    ghost predicate Valid()
      reads this
    {
      Reachable(c, View())
    }

    constructor (config: Config)
      ensures Valid() && c == config && View() == Init(config)
    {
      c := config;
      mode, open, epoch, opens := NoMode, false, 0, [];
      running, ops := !config.onDemand, [];
      held, audio := [], Quiet;
      jobs, queue := [], [];
      tokens, tasks := 0, [];
      worker, currentEpoch, initialized, typedInEpoch, typed := Idle, 0, false, 0, [];
      toggleDebounce, lastToggle := 0, 0;
      new;
      ReachableInit(config);
    }

    // ------------------------------------------------------ control threads

    /** open_: bump the epoch and open, unless this mode is open already. */
    method OpenSession(t: nat)
      requires Valid() && ControlEnabled(c, View(), t, OpenRegion)
      modifies this`mode, this`open, this`epoch, this`opens, this`ops
      ensures Valid() && View() == ApplyControl(c, old(View()), t, OpenRegion)
      ensures open && mode == old(ops[t].target)
      ensures if old(open && mode == ops[t].target) then epoch == old(epoch) && ops[t].Done?
              else AllStale(View()) && forall i :: 0 <= i < |old(opens)| ==> old(opens)[i].epoch < epoch
    {
      ghost var was := View();
      OpenIsFresh(c, was, t);
      var target := ops[t].target;
      if open && mode == target {
        ops := ops[t := Done];
        return;
      }
      epoch := epoch + 1;
      mode := target;
      open := true;
      opens := opens + [Opening(epoch, target)];
      ops := ops[t := Syncing(Opener(target, epoch))];
    }

    /** close, first region: a closed session needs no closing. */
    method CheckOpen(t: nat)
      requires Valid() && ControlEnabled(c, View(), t, CloseCheck)
      modifies this`ops
      ensures Valid() && View() == ApplyControl(c, old(View()), t, CloseCheck)
      ensures (ops[t].Done? <==> !open) && (ops[t].Flushing? <==> open)
      ensures open ==> opens != [] && opens[|opens|-1] == Opening(ops[t].epoch, mode)
    {
      ghost var was := View();
      CloseFindsLatest(c, was, t);
      if !open {
        ops := ops[t := Done];
      } else {
        ops := ops[t := Flushing(epoch)];
      }
    }

    /** close, second region: the epoch stays, so queued transcripts drain. */
    method CloseSession(t: nat)
      requires Valid() && ControlEnabled(c, View(), t, CloseRegion)
      modifies this`mode, this`open, this`ops
      ensures Valid() && View() == ApplyControl(c, old(View()), t, CloseRegion)
      ensures !open && Accepts(View(), old(epoch))
    {
      ghost var was := View();
      CloseDrains(c, was, t);
      mode := NoMode;
      open := false;
      ops := ops[t := Syncing(Closer)];
    }

    /** rollbackOpen: nothing of the failed open may be delivered. */
    method RollbackOpen(t: nat)
      requires Valid() && ControlEnabled(c, View(), t, Rollback)
      modifies this`mode, this`open, this`epoch, this`ops
      ensures Valid() && View() == ApplyControl(c, old(View()), t, Rollback)
      ensures !open && AllStale(View())
    {
      ghost var was := View();
      RollbackStales(c, was, t);
      epoch := epoch + 1;
      mode := NoMode;
      open := false;
      ops := ops[t := Syncing(Undo)];
    }

    /** syncAudio: take audioMu and read which way to go. */
    method SyncAudioRead(t: nat)
      requires Valid() && ControlEnabled(c, View(), t, SyncRead)
      modifies this`ops
      ensures Valid() && View() == ApplyControl(c, old(View()), t, SyncRead)
      ensures forall u :: 0 <= u < |ops| && u != t ==> !ops[u].Holding?
      ensures forall u: nat :: u < |ops| ==> !ControlEnabled(c, View(), u, SyncRead)
    {
      ghost var was := View();
      ReadExcludes(c, was, t);
      var why := ops[t].why;
      ops := ops[t := Holding(why, open)];
    }

    /** syncAudio: start or stop capture and release audioMu. `ok` is what the device answered. */
    method SyncAudioAct(t: nat, ok: bool)
      requires Valid() && ControlEnabled(c, View(), t, SyncAct(ok))
      modifies this`running, this`held, this`ops
      ensures Valid() && View() == ApplyControl(c, old(View()), t, SyncAct(ok))
      ensures c.onDemand && ok ==> running == old(ops[t].wanted)
      ensures c.onDemand ==> AudioMuFree(View())
      ensures c.onDemand && (forall u :: 0 <= u < |ops| ==> !Reconciling(ops[u])) ==> running == open
    {
      ghost var was := View();
      ReachableStep(c, was, Control(t, SyncAct(ok)));
      if c.onDemand { ActReconciles(c, was, t, ok); }
      var why := ops[t].why;
      if ops[t].wanted {
        if !running { running := ok; }
      } else {
        running := false;
        held := [];
      }
      ops := ops[t := AfterSync(why, ok)];
    }

    // ------------------------------------------------------ audio goroutine

    /** The loop takes a flush request: the emit closure runs on what it holds. */
    method TakeFlush(t: nat, gate: bool)
      requires Valid() && AudioEnabled(View(), ServeFlush(t, gate))
      modifies this`held, this`audio, this`ops
      ensures Valid() && View() == ApplyAudio(c, old(View()), ServeFlush(t, gate))
      ensures held == [] && (audio == if old(held) != [] && gate then Heard(old(held), Some(t)) else Quiet)
      ensures forall g :: !AudioEnabled(View(), ServeFlush(t, g))
      ensures ControlEnabled(c, View(), t, CloseRegion) <==> audio.Quiet?
      ensures |ops| == |old(ops)| && forall u :: 0 <= u < |ops| && u != t ==> ops[u] == old(ops)[u]
    {
      ghost var was := View();
      ReachableStep(c, was, Air(ServeFlush(t, gate)));
      if |held| > 0 && gate {
        audio := Heard(held, Some(t));
      } else {
        ops := Answer(ops, Some(t));
      }
      held := [];
    }

    /** An utterance ends in silence: the emit closure runs on what is held, and nobody is answered. */
    method EndUtterance(gate: bool)
      requires Valid() && AudioEnabled(View(), Emit(gate))
      modifies this`held, this`audio
      ensures Valid() && View() == ApplyAudio(c, old(View()), Emit(gate))
      ensures held == [] && (audio == if gate then Heard(old(held), None) else Quiet)
    {
      ReachableStep(c, View(), Air(Emit(gate)));
      if gate {
        audio := Heard(held, None);
      }
      held := [];
    }

    /** OnUtterance: capture mode and epoch, or drop when no session is open. */
    method ReadSession()
      requires Valid() && AudioEnabled(View(), UtteranceRead)
      modifies this`audio, this`ops
      ensures Valid() && View() == ApplyAudio(c, old(View()), UtteranceRead)
      ensures (audio.Slot? <==> open) && (audio.Quiet? <==> !open)
      ensures open ==>
                && audio.pcm == old(audio.pcm)
                && opens != [] && opens[|opens|-1] == Opening(audio.ticket.epoch, audio.ticket.mode)
                && forall j :: 0 <= j < |jobs| ==> jobs[j].epoch <= audio.ticket.epoch
    {
      ghost var was := View();
      ReadClaims(c, was);
      var pcm, reply := audio.pcm, audio.reply;
      if !open || (mode != TypeMode && mode != ClipMode) {
        ops := Answer(ops, reply);
        audio := Quiet;
      } else {
        audio := Slot(pcm, Ticket(mode, epoch, None), reply);
      }
    }

    /** OnUtterance: allocate the job and put it on typeQueue, or drop when the queue is full. */
    method EnqueueJob()
      requires Valid() && AudioEnabled(View(), Enqueue)
      modifies this`jobs, this`queue, this`audio, this`ops
      ensures Valid() && View() == ApplyAudio(c, old(View()), Enqueue)
      ensures audio.Submit? <==> old(audio.ticket.mode) != TypeMode || |old(queue)| < QUEUE_CAP
      ensures audio.Submit? ==> audio.pcm == old(audio.pcm)
      ensures if old(audio.ticket.mode) == TypeMode && |old(queue)| < QUEUE_CAP then
                && LastInLine(View(), |old(jobs)|) && jobs[..|old(jobs)|] == old(jobs)
                && jobs[|old(jobs)|].pcm == old(audio.pcm) && jobs[|old(jobs)|].epoch == old(audio.ticket.epoch)
              else jobs == old(jobs) && queue == old(queue)
    {
      ghost var was := View();
      EnqueueIsLast(c, was);
      var pcm, ticket, reply := audio.pcm, audio.ticket, audio.reply;
      if ticket.mode == TypeMode {
        if |queue| < QUEUE_CAP {
          var job := |jobs|;
          jobs := jobs + [Job(ticket.epoch, pcm, "", 0)];
          queue := queue + [job];
          audio := Submit(pcm, ticket.(job := Some(job)), reply);
        } else {
          ops := Answer(ops, reply);
          audio := Quiet;
        }
      } else {
        audio := Submit(pcm, ticket, reply);
      }
    }

    /** close(job.ready); closing it twice would panic. */
    method CloseReadyOf(job: Option<nat>)
      requires job.Some? ==> job.value < |jobs| && jobs[job.value].closes == 0
      modifies this`jobs
      ensures jobs == CloseJob(old(jobs), job) && (job.Some? ==> jobs[job.value].closes == 1)
    {
      if job.Some? {
        jobs := jobs[job.value := jobs[job.value].(closes := jobs[job.value].closes + 1)];
      }
    }

    /** asrMonitor.OnUtterance: take an inflight token or skip. */
    method TakeToken()
      requires Valid() && AudioEnabled(View(), AsrSubmit)
      modifies this`jobs, this`tokens, this`audio, this`ops
      ensures Valid() && View() == ApplyAudio(c, old(View()), AsrSubmit)
      ensures audio.Quiet? <==> old(audio.pcm) == [] || old(tokens) >= c.maxConcurrent
      ensures audio.Quiet? && old(audio.ticket.job).Some? ==>
                var j := old(audio.ticket.job.value);
                j < |old(jobs)| && old(jobs)[j].closes == 0 && ResolvedOnce(View(), j) && jobs[j].text == ""
      ensures !audio.Quiet? ==> tokens == Live(tasks) + 1 <= c.maxConcurrent && jobs == old(jobs)
    {
      if |audio.pcm| == 0 || tokens >= c.maxConcurrent {
        SkipUtterance();
      } else {
        SubmitTakesToken(c, View());
        tokens := tokens + 1;
        audio := Launch(audio.pcm, audio.ticket, audio.reply);
      }
    }

    /** onSkip, called before any transcription: the worker will pass over the job. */
    method SkipUtterance()
      requires Valid() && AudioEnabled(View(), AsrSubmit) && (audio.pcm == [] || tokens >= c.maxConcurrent)
      modifies this`jobs, this`audio, this`ops
      ensures Valid() && View() == ApplyAudio(c, old(View()), AsrSubmit)
      ensures audio.Quiet?
      ensures old(audio.ticket.job).Some? ==>
                var j := old(audio.ticket.job.value);
                j < |old(jobs)| && old(jobs)[j].closes == 0 && ResolvedOnce(View(), j) && jobs[j].text == ""
    {
      SubmitResolves(c, View());
      CloseReadyOf(audio.ticket.job);
      ops := Answer(ops, audio.reply);
      audio := Quiet;
    }

    /** asrMonitor.OnUtterance: go m.transcribe. */
    method GoTranscribe()
      requires Valid() && AudioEnabled(View(), AsrLaunch)
      modifies this`tasks, this`audio, this`ops
      ensures Valid() && View() == ApplyAudio(c, old(View()), AsrLaunch)
      ensures audio.Quiet? && tokens == Live(tasks) == Live(old(tasks)) + 1 <= c.maxConcurrent && |tasks| == |old(tasks)| + 1
      ensures old(audio.ticket.job).Some? ==> Owes(tasks[|old(tasks)|], old(audio.ticket.job.value))
    {
      ghost var was := View();
      LaunchPassesDuty(c, was);
      var ticket, reply := audio.ticket, audio.reply;
      tasks := tasks + [Task(ticket, Transcribing)];
      ops := Answer(ops, reply);
      audio := Quiet;
    }

    // ------------------------------------------------- transcribe goroutines

    /**
     transcribe, once the backend has answered: an error, a known phrase, a
     decoder loop or an empty text goes to onSkip, anything else to onTranscript.
     `strip` removes disfluencies; `nul` is no letter.
     */
    method Transcribed(k: nat, answer: Option<string>, strip: string -> string, lower: char -> char,
                       isLetter: char -> bool, nul: char)
      requires Valid() && TaskEnabled(View(), k, Result(answer)) && !isLetter(nul)
      modifies this`tasks
      ensures Valid() && View() == ApplyTask(old(View()), k, Result(Accepted(answer, strip, lower, isLetter)))
      ensures tasks[k].pc == match Accepted(answer, strip, lower, isLetter)
                             case Some(text) => Delivering(text)
                             case None => Skipping
      ensures Untouched(View(), k)
    {
      var heard := Filter(answer, strip, lower, isLetter, nul);
      Settle(k, heard);
    }

    /** The transcription has a text to deliver, or is skipped. */
    method Settle(k: nat, heard: Option<string>)
      requires Valid() && TaskEnabled(View(), k, Result(heard))
      modifies this`tasks
      ensures Valid() && View() == ApplyTask(old(View()), k, Result(heard)) && Untouched(View(), k)
      ensures tasks[k].pc == if heard.Some? && heard.value != "" then Delivering(heard.value) else Skipping
    {
      ghost var was := View();
      ResultIsDelivered(c, was, k, heard);
      var skipped := heard.None? || heard.value == "";
      tasks := tasks[k := tasks[k].(pc := if skipped then Skipping else Delivering(heard.value))];
    }

    /** The transcript callback's check of the live session. */
    method DeliverTranscript(k: nat)
      requires Valid() && TaskEnabled(View(), k, Deliver)
      modifies this
      ensures Valid() && View() == ApplyTask(old(View()), k, Deliver)
      ensures tasks[k].pc.Skipping? <==> epoch != tasks[k].ticket.epoch
      ensures Untouched(View(), k)
    {
      ghost var was := View();
      DeliverDropsStale(c, was, k);
      var task := tasks[k];
      var current, currentMode := epoch, mode;
      if current != task.ticket.epoch || (currentMode != task.ticket.mode && currentMode != NoMode) {
        tasks := tasks[k := task.(pc := Skipping)];
      } else if task.ticket.mode == TypeMode {
        tasks := tasks[k := task.(pc := Storing(task.pc.text))];
      } else {
        tasks := tasks[k := task.(pc := Returning)];
      }
    }

    /** job.text = tr.Text. */
    method StoreText(k: nat)
      requires Valid() && TaskEnabled(View(), k, Store)
      modifies this
      ensures Valid() && View() == ApplyTask(old(View()), k, Store)
      ensures old(Untouched(View(), k))
      ensures var j := old(tasks[k].ticket.job.value);
                && jobs[j].text == old(tasks[k].pc.text) != "" && jobs[j].closes == 0
                && forall i :: 0 <= i < |jobs| && i != j ==> jobs[i] == old(jobs)[i]
    {
      ghost var was := View();
      StoreFirst(c, was, k);
      var task := tasks[k];
      var j := task.ticket.job.value;
      jobs := jobs[j := jobs[j].(text := task.pc.text)];
      tasks := tasks[k := task.(pc := Closing)];
    }

    /** The one close(job.ready) of a transcription. */
    method Resolve(k: nat)
      requires Valid() && TaskEnabled(View(), k, CloseReady)
      modifies this
      ensures Valid() && View() == ApplyTask(old(View()), k, CloseReady)
      ensures old(tasks[k].ticket.job).Some? ==>
                old(jobs[tasks[k].ticket.job.value].closes) == 0 && ResolvedOnce(View(), old(tasks[k].ticket.job.value))
    {
      ghost var was := View();
      ReachableStep(c, was, Pool(k, CloseReady));
      if was.tasks[k].ticket.job.Some? { CloseReadyOnce(c, was, k); }
      var task := tasks[k];
      CloseReadyOf(task.ticket.job);
      tasks := tasks[k := task.(pc := Returning)];
    }

    /** The deferred receive from inflight. */
    method ReleaseToken(k: nat)
      requires Valid() && TaskEnabled(View(), k, Release)
      modifies this
      ensures Valid() && View() == ApplyTask(old(View()), k, Release)
      ensures tokens < c.maxConcurrent && Live(tasks) == Live(old(tasks)) - 1
    {
      ghost var was := View();
      ReleaseMakesRoom(c, was, k);
      tokens := tokens - 1;
      tasks := tasks[k := tasks[k].(pc := Released)];
    }

    // ------------------------------------------------------------ the worker

    /** Receive a job; crossing into another epoch restarts the count. */
    method TakeJob()
      requires Valid() && WorkerEnabled(View(), Take)
      modifies this
      ensures Valid() && View() == ApplyWorker(old(View()), Take)
      ensures worker == Waiting(old(queue[0])) && worker.job == |old(jobs)| - |old(queue)|
      ensures forall i :: 0 <= i < |queue| ==> worker.job < queue[i]
      ensures forall i :: 0 <= i < |typed| ==> typed[i].job < worker.job
      ensures typedInEpoch == OkIn(typed, jobs[worker.job].epoch)
    {
      ghost var was := View();
      TakeIsOldest(c, was);
      var job := queue[0];
      queue := queue[1..];
      if !initialized || jobs[job].epoch != currentEpoch {
        currentEpoch := jobs[job].epoch;
        typedInEpoch := 0;
        initialized := true;
      }
      worker := Waiting(job);
    }

    /** ready is closed: a job without text is skipped. */
    method AwaitReady()
      requires Valid() && WorkerEnabled(View(), Ready)
      modifies this
      ensures Valid() && View() == ApplyWorker(old(View()), Ready)
      ensures ResolvedOnce(View(), old(worker.job))
      ensures (worker.Checking? <==> jobs[old(worker.job)].text != "") && (worker.Idle? <==> jobs[old(worker.job)].text == "")
    {
      ghost var was := View();
      ReadyIsResolved(c, was);
      var job := worker.job;
      if jobs[job].text == "" {
        worker := Idle;
      } else {
        worker := Checking(job);
      }
    }

    /** Compare epochs and choose the text to type. */
    method CheckEpoch()
      requires Valid() && WorkerEnabled(View(), Check)
      modifies this
      ensures Valid() && View() == ApplyWorker(old(View()), Check)
      ensures (worker.Typing? <==> epoch == jobs[old(worker.job)].epoch) && (worker.Idle? <==> !worker.Typing?)
      ensures worker.Typing? ==>
                && jobs[old(worker.job)].text != ""
                && worker.payload == (if TypedBefore(typed, |typed|, epoch) then " " else "") + jobs[old(worker.job)].text
    {
      ghost var was := View();
      CheckChoosesText(c, was);
      var job := worker.job;
      var liveEpoch := epoch;
      if liveEpoch != jobs[job].epoch {
        worker := Idle;
        return;
      }
      var text := jobs[job].text;
      if typedInEpoch > 0 {
        text := " " + text;
      }
      worker := Typing(job, text);
    }

    /** typer.Type has returned; only a success earns a leading space later. */
    method FinishTyping(ok: bool)
      requires Valid() && WorkerEnabled(View(), Typed(ok))
      modifies this
      ensures Valid() && View() == ApplyWorker(old(View()), Typed(ok))
      ensures |typed| == |old(typed)| + 1 && typed[..|old(typed)|] == old(typed) && typed[|old(typed)|].job == old(worker.job)
      ensures forall i :: 0 <= i < |old(typed)| ==> typed[i].job < typed[|old(typed)|].job
      ensures typedInEpoch == OkIn(typed, currentEpoch)
      ensures var e := typed[|old(typed)|].epoch;
                TypedBefore(typed, |typed|, e) <==> ok || TypedBefore(old(typed), |old(typed)|, e)
    {
      ghost var was := View();
      TypedIsNewest(c, was, ok);
      typed := typed + [TypeCall(worker.job, jobs[worker.job].epoch, worker.payload, ok)];
      worker := Idle;
      if ok {
        typedInEpoch := typedInEpoch + 1;
      }
    }

    // -------------------------------------- whole operations, uninterrupted

    /** No other thread is inside a region, and capture that runs on demand agrees with `open`. */
    ghost predicate Calm()
      reads this
    {
      Valid() && AudioMuFree(View()) && audio.Quiet? && (c.onDemand ==> running == open) && (open <==> mode != NoMode)
    }

    /** A control thread begins an operation. */
    method Begin(op: Op) returns (t: nat)
      requires Valid() && (op.CloseEntry? || (op.OpenEntry? && op.target != NoMode))
      modifies this`ops
      ensures Valid() && t == |old(ops)| && ops == old(ops) + [op]
      ensures old(AudioMuFree(View())) ==> AudioMuFree(View())
    {
      ReachableStep(c, View(), if op.CloseEntry? then BeginClose else BeginOpen(op.target));
      t := |ops|;
      ops := ops + [op];
    }

    /** syncAudio without a lifecycle: capture is left alone, and the caller goes on. */
    method SkipSync(t: nat)
      requires Valid() && ControlEnabled(c, View(), t, SyncSkip)
      modifies this`ops
      ensures Valid() && View() == ApplyControl(c, old(View()), t, SyncSkip)
      ensures var why := old(ops[t].why);
        ops == old(ops)[t := if why.Opener? && why.target == ClipMode then Spawning(why.epoch) else Done]
    {
      ReachableStep(c, View(), Control(t, SyncSkip));
      ops := ops[t := AfterSync(ops[t].why, true)];
    }

    /** syncAudio from one lock to the other. */
    method SyncAudio(t: nat, ok: bool)
      requires Valid() && AudioMuFree(View()) && audio.Quiet?
      requires t < |ops| && ops[t].Syncing? && (c.onDemand ==> (open && running ==> ok) && (!open ==> ok))
      modifies this`running, this`held, this`ops
      ensures Valid() && AudioMuFree(View())
      ensures running == if c.onDemand then open && (old(running) || ok) else old(running)
      ensures held == if c.onDemand && !open then [] else old(held)
      ensures ops == old(ops)[t := AfterSync(old(ops)[t].why, ok || !c.onDemand)]
    {
      if !c.onDemand {
        SkipSync(t);
      } else {
        SyncAudioRead(t);
        SyncAudioAct(t, ok);
      }
    }

    /** The panel of a clip session starts, or its open has failed. */
    method SpawnPanel(t: nat, ok: bool)
      requires Valid() && ControlEnabled(c, View(), t, Spawn(ok))
      modifies this`ops
      ensures Valid() && View() == ApplyControl(c, old(View()), t, Spawn(ok))
    {
      ReachableStep(c, View(), Control(t, Spawn(ok)));
      ops := ops[t := if ok then Done else RollingBack(ops[t].epoch)];
    }

    /** rollbackOpen, all of it. */
    method RollbackAlone(t: nat)
      requires Valid() && AudioMuFree(View()) && audio.Quiet? && t < |ops| && ops[t].RollingBack?
      modifies this`mode, this`open, this`epoch, this`ops, this`running, this`held
      ensures Calm() && !open && epoch == old(epoch) + 1
    {
      RollbackOpen(t);
      SyncAudio(t, true);
    }

    /** The rest of open_: a failed start, or a panel that fails to start, is rolled back. */
    method CompleteOpen(t: nat, spawns: bool) returns (ok: bool)
      requires Valid() && AudioMuFree(View()) && audio.Quiet? && open && mode != NoMode
      requires t < |ops| && if ops[t].RollingBack? then c.onDemand ==> !running
                            else (c.onDemand ==> running) && (ops[t].Spawning? || ops[t].Done?)
      modifies this`mode, this`open, this`epoch, this`ops, this`running, this`held
      ensures Calm() && (ok <==> old(ops[t]).Done? || (old(ops[t]).Spawning? && spawns))
      ensures if ok then open && mode == old(mode) && epoch == old(epoch) else !open && epoch == old(epoch) + 1
    {
      if ops[t].Spawning? {
        SpawnPanel(t, spawns);
      }
      ok := ops[t].Done?;
      if !ok {
        RollbackAlone(t);
      }
    }

    /**
     open_ with nobody in the way: already open in this mode it does nothing;
     otherwise it opens a new epoch with capture running, or, when the
     microphone or the panel fails, ends closed and stopped with the aborted
     epoch left behind for good.
     */
    method OpenAlone(target: Mode, starts: bool, spawns: bool) returns (ok: bool)
      requires Calm() && target != NoMode
      modifies this`mode, this`open, this`epoch, this`opens, this`ops, this`running, this`held
      ensures Calm()
      ensures ok <==> (old(open) && old(mode) == target)
                      || ((!c.onDemand || old(running) || starts) && (target == ClipMode ==> spawns))
      ensures ok ==> open && mode == target && epoch == old(epoch) + if old(open) && old(mode) == target then 0 else 1
      ensures !ok ==> !open && epoch == old(epoch) + 2
    {
      var t := Begin(OpenEntry(target));
      OpenSession(t);
      if ops[t].Done? {
        return true;
      }
      SyncAudio(t, starts || running);
      ok := CompleteOpen(t, spawns);
    }

    /** asrMonitor.OnUtterance, to its return. */
    method SubmitAlone()
      requires Valid() && audio.Submit?
      modifies this`audio, this`ops, this`jobs, this`tokens, this`tasks
      ensures Valid() && audio.Quiet? && ops == Answer(old(ops), old(audio).reply)
      ensures if old(audio).pcm == [] || old(tokens) >= c.maxConcurrent then
                && jobs == CloseJob(old(jobs), old(audio).ticket.job)
                && tokens == old(tokens) && tasks == old(tasks)
              else
                && jobs == old(jobs)
                && tokens == old(tokens) + 1 && tasks == old(tasks) + [Task(old(audio).ticket, Transcribing)]
    {
      TakeToken();
      if audio.Launch? {
        GoTranscribe();
      }
    }

    /**
     The synchronous part of OnUtterance, from the captured audio to the return,
     however the utterance ended: one job more when a type session is open and the
     queue has room, and whoever waits for the flush is answered.
     */
    method UtteranceAlone()
      requires Valid() && audio.Heard?
      modifies this`audio, this`ops, this`jobs, this`queue, this`tokens, this`tasks
      ensures Valid() && audio.Quiet? && ops == Answer(old(ops), old(audio).reply)
      ensures if open && mode == TypeMode && |old(queue)| < QUEUE_CAP then
                && |jobs| == |old(jobs)| + 1 && jobs[..|old(jobs)|] == old(jobs)
                && jobs[|old(jobs)|].pcm == old(audio).pcm && jobs[|old(jobs)|].epoch == epoch
                && queue == old(queue) + [|old(jobs)|]
              else jobs == old(jobs) && queue == old(queue)
      ensures !open ==> tokens == old(tokens) && tasks == old(tasks)
    {
      ReadSession();
      if audio.Slot? {
        ClaimedAlone();
      }
    }

    /** The rest of OnUtterance, once it has claimed the utterance for a session. */
    method ClaimedAlone()
      requires Valid() && audio.Slot? && audio.ticket.job == None
      modifies this`audio, this`ops, this`jobs, this`queue, this`tokens, this`tasks
      ensures Valid() && audio.Quiet? && ops == Answer(old(ops), old(audio).reply)
      ensures if old(audio.ticket.mode) == TypeMode && |old(queue)| < QUEUE_CAP then
                && |jobs| == |old(jobs)| + 1 && jobs[..|old(jobs)|] == old(jobs)
                && jobs[|old(jobs)|].pcm == old(audio.pcm) && jobs[|old(jobs)|].epoch == old(audio.ticket.epoch)
                && queue == old(queue) + [|old(jobs)|]
              else jobs == old(jobs) && queue == old(queue)
    {
      EnqueueJob();
      if audio.Submit? {
        SubmitAlone();
      }
    }

    /** The flushed audio has become the next job, when the session types and the queue has room. */
    twostate predicate Flushed(gate: bool)
      reads this
    {
      if old(mode) == TypeMode && old(held) != [] && gate && |old(queue)| < QUEUE_CAP then
        && |jobs| == |old(jobs)| + 1 && jobs[..|old(jobs)|] == old(jobs)
        && jobs[|old(jobs)|].pcm == old(held) && jobs[|old(jobs)|].epoch == old(epoch)
        && queue == old(queue) + [|old(jobs)|]
      else jobs == old(jobs) && queue == old(queue)
    }

    /** flushAudio, served at once. */
    method FlushAudio(t: nat, gate: bool)
      requires Calm() && open && t < |ops| && ops[t].Flushing?
      modifies this`held, this`audio, this`ops, this`jobs, this`queue, this`tokens, this`tasks
      ensures Calm() && held == [] && ops == old(ops)[t := CloseCommit(old(ops)[t].epoch)]
      ensures Flushed(gate)
    {
      TakeFlush(t, gate);
      if audio.Heard? {
        UtteranceAlone();
      }
    }

    /**
     close with nobody in the way: the audio still held becomes the last job of
     the closing epoch, capture stops, and the epoch stays so that it drains.
     */
    method CloseAlone(gate: bool)
      requires Calm()
      modifies this`mode, this`open, this`ops, this`running, this`held, this`audio, this`jobs, this`queue, this`tokens, this`tasks
      ensures Calm() && !open
      ensures if old(open) then held == [] && Flushed(gate) else jobs == old(jobs) && queue == old(queue)
    {
      var t := Begin(CloseEntry);
      CheckOpen(t);
      if ops[t].Done? {
        return;
      }
      FlushAudio(t, gate);
      CloseSession(t);
      SyncAudio(t, true);
    }

    /**
     Toggle: a repeat within the debounce window is ignored, however long the
     burst; otherwise an open session of the target mode closes, and anything
     else ends with the target open in a new epoch, or closed if it cannot open.
     */
    method Toggle(target: Mode, now: int, gate: bool, starts: bool, spawns: bool) returns (ignored: bool, ok: bool)
      requires Calm() && target != NoMode
      modifies this
      ensures Calm() && toggleDebounce == old(toggleDebounce)
      ensures ignored <==> old(toggleDebounce) > 0 && now - old(lastToggle) < old(toggleDebounce)
      ensures lastToggle == if old(toggleDebounce) > 0 then now else old(lastToggle)
      ensures ignored ==> View() == old(View())
      ensures !ignored && old(open) && old(mode) == target ==> ok && !open && epoch == old(epoch)
      ensures !ignored && !(old(open) && old(mode) == target) ==>
                if ok then open && mode == target && epoch == old(epoch) + 1 else !open && epoch == old(epoch) + 2
      ensures !ignored && old(open) ==> Flushed(gate)
    {
      if toggleDebounce > 0 {
        var since := now - lastToggle;
        lastToggle := now;
        if since < toggleDebounce {
          return true, true;
        }
      }
      ignored := false;
      if open && mode == target {
        CloseAlone(gate);
        ok := true;
      } else {
        if open {
          CloseAlone(gate);
        }
        ok := OpenAlone(target, starts, spawns);
      }
    }
  }
}
