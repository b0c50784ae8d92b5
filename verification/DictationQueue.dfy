/** The queue, ownership, concurrency, typing and draining invariants are kept by every thread. */
module DictationQueue {
  import opened Common
  import opened DictationMachine
  import opened DictationInvariants

  // ------------------------------------------------------------------ queue

  lemma QueueByControl(c: Config, s: State, t: nat, step: ControlStep)
    requires InvQueue(s) && ControlEnabled(c, s, t, step)
    ensures InvQueue(ApplyControl(c, s, t, step))
  {
    ControlFrame(c, s, t, step);
  }

  /** The queue order is the submission order, and a later submission never has an older epoch. */
  lemma QueueByAudio(c: Config, s: State, step: AudioStep)
    requires InvQueue(s) && AudioEnabled(s, step)
    ensures InvQueue(ApplyAudio(c, s, step))
  {
    AudioFrame(c, s, step);
    AudioJobs(c, s, step);
  }

  /** What the audio goroutine does to the jobs: append one, or close one. */
  lemma AudioJobs(c: Config, s: State, step: AudioStep)
    requires AudioEnabled(s, step)
    ensures var s' := ApplyAudio(c, s, step);
      && |s.jobs| <= |s'.jobs| && |s'.jobs| - |s.jobs| == |s'.queue| - |s.queue|
      && (forall j :: 0 <= j < |s.jobs| ==>
            && s'.jobs[j] == s.jobs[j].(closes := s'.jobs[j].closes)
            && s'.jobs[j].closes >= s.jobs[j].closes)
      && (s'.jobs != s.jobs && !step.AsrSubmit? ==>
            && step.Enqueue? && |s.queue| < QUEUE_CAP
            && s'.jobs == s.jobs + [Job(s.audio.ticket.epoch, s.audio.pcm, "", 0)]
            && s'.queue == s.queue + [|s.jobs|])
      && (!step.Enqueue? ==> s'.queue == s.queue)
      && (s'.queue != s.queue ==> s'.jobs != s.jobs)
  {
  }

  lemma QueueByTask(s: State, k: nat, step: TaskStep)
    requires InvQueue(s) && TaskEnabled(s, k, step)
    ensures InvQueue(ApplyTask(s, k, step))
  {
    TaskFrame(s, k, step);
  }

  lemma QueueByWorker(s: State, step: WorkerStep)
    requires InvQueue(s) && WorkerEnabled(s, step)
    ensures InvQueue(ApplyWorker(s, step))
  {
    WorkerFrame(s, step);
  }

  // ---------------------------------------------------------------- owners

  lemma OwnerEnqueues(jobs: seq<Job>, tasks: seq<Task>, job: Job)
    requires Owned(jobs, tasks, None) && job.closes == 0 && job.text == ""
    ensures Owned(jobs + [job], tasks, Some(Ticket(TypeMode, job.epoch, Some(|jobs|))))
  {
    var jobs' := jobs + [job];
    forall j | 0 <= j < |jobs| && jobs[j].closes == 0
      ensures HasOwner(tasks, Some(Ticket(TypeMode, job.epoch, Some(|jobs|))), j)
    {
      assert HasOwner(tasks, None, j);
    }
    forall k | 0 <= k < |tasks| ensures TaskFits(jobs', tasks[k]) {
      assert TaskFits(jobs, tasks[k]);
    }
  }

  lemma OwnerSkips(jobs: seq<Job>, tasks: seq<Task>, tk: Ticket)
    requires Owned(jobs, tasks, Some(tk))
    ensures Owned(CloseJob(jobs, tk.job), tasks, None)
  {
    var jobs' := CloseJob(jobs, tk.job);
    forall k | 0 <= k < |tasks| ensures TaskFits(jobs', tasks[k]) {
      assert TaskFits(jobs, tasks[k]);
    }
    forall j | 0 <= j < |jobs| && jobs'[j].closes == 0 ensures HasOwner(tasks, None, j) {
      assert HasOwner(tasks, Some(tk), j);
    }
  }

  lemma OwnerLaunches(jobs: seq<Job>, tasks: seq<Task>, tk: Ticket)
    requires Owned(jobs, tasks, Some(tk))
    ensures Owned(jobs, tasks + [Task(tk, Transcribing)], None)
  {
    var tasks' := tasks + [Task(tk, Transcribing)];
    forall j | 0 <= j < |jobs| && jobs[j].closes == 0 ensures HasOwner(tasks', None, j) {
      assert HasOwner(tasks, Some(tk), j);
      if tk.job == Some(j) {
        assert Owes(tasks'[|tasks|], j);
      } else {
        var k :| 0 <= k < |tasks| && Owes(tasks[k], j);
        assert Owes(tasks'[k], j);
      }
    }
  }

  lemma OwnerByEnqueue(c: Config, s: State)
    requires InvOwner(s) && InvQueue(s) && AudioEnabled(s, Enqueue)
    ensures InvOwner(ApplyAudio(c, s, Enqueue))
  {
    var a := s.audio;
    if a.ticket.mode == TypeMode && |s.queue| < QUEUE_CAP {
      OwnerEnqueues(s.jobs, s.tasks, Job(a.ticket.epoch, a.pcm, "", 0));
    }
  }

  lemma OwnerBySubmit(c: Config, s: State)
    requires InvOwner(s) && AudioEnabled(s, AsrSubmit)
    ensures InvOwner(ApplyAudio(c, s, AsrSubmit))
  {
    OwnerSkips(s.jobs, s.tasks, s.audio.ticket);
  }

  lemma OwnerByAudio(c: Config, s: State, step: AudioStep)
    requires InvOwner(s) && InvQueue(s) && AudioEnabled(s, step)
    ensures InvOwner(ApplyAudio(c, s, step))
  {
    match step
    case Enqueue => OwnerByEnqueue(c, s);
    case AsrSubmit => OwnerBySubmit(c, s);
    case AsrLaunch => OwnerLaunches(s.jobs, s.tasks, s.audio.ticket);
    case _ =>
      var s' := ApplyAudio(c, s, step);
      assert s'.jobs == s.jobs && s'.tasks == s.tasks;
      assert Carried(s.audio) == None && Carried(s'.audio) == None;
  }

  /** A task goes on: it keeps its job until it has closed ready. */
  lemma OwnerAdvances(jobs: seq<Job>, jobs': seq<Job>, tasks: seq<Task>, k: nat, pc: TaskPc, carried: Option<Ticket>)
    requires Owned(jobs, tasks, carried) && k < |tasks| && |jobs'| == |jobs|
    requires forall j :: 0 <= j < |jobs| && tasks[k].ticket.job != Some(j) ==> jobs'[j] == jobs[j]
    requires TaskFits(jobs', tasks[k].(pc := pc))
    requires forall j :: 0 <= j < |jobs| ==> jobs'[j].epoch == jobs[j].epoch
    requires tasks[k].pc.Returning? || tasks[k].pc.Released? ==> pc.Returning? || pc.Released?
    ensures Owned(jobs', tasks[k := tasks[k].(pc := pc)], carried)
  {
    var tasks' := tasks[k := tasks[k].(pc := pc)];
    forall l | 0 <= l < |tasks| && l != k ensures TaskFits(jobs', tasks'[l]) {
      assert TaskFits(jobs, tasks[l]);
    }
    forall j | 0 <= j < |jobs| && jobs'[j].closes == 0 ensures HasOwner(tasks', carried, j) {
      if tasks[k].ticket.job == Some(j) {
        assert Owes(tasks'[k], j);
      } else {
        assert HasOwner(tasks, carried, j);
        if l :| 0 <= l < |tasks| && Owes(tasks[l], j) {
          assert Owes(tasks'[l], j);
        }
      }
    }
  }

  lemma OwnerByTask(s: State, k: nat, step: TaskStep)
    requires InvOwner(s) && TaskEnabled(s, k, step)
    ensures InvOwner(ApplyTask(s, k, step))
  {
    var s' := ApplyTask(s, k, step);
    TaskFrame(s, k, step);
    assert TaskFits(s.jobs, s.tasks[k]);
    OwnerAdvances(s.jobs, s'.jobs, s.tasks, k, s'.tasks[k].pc, Carried(s.audio));
  }

  // ----------------------------------------------------------- concurrency

  lemma {:induction false} LiveUpdate(tasks: seq<Task>, k: nat, pc: TaskPc)
    requires k < |tasks| && !tasks[k].pc.Released?
    ensures Live(tasks[k := tasks[k].(pc := pc)]) == Live(tasks) - if pc.Released? then 1 else 0
  {
    var tasks' := tasks[k := tasks[k].(pc := pc)];
    if k == |tasks| - 1 {
      assert tasks'[..k] == tasks[..k];
    } else {
      LiveUpdate(tasks[..|tasks|-1], k, pc);
      assert tasks'[..|tasks|-1] == tasks[..|tasks|-1][k := tasks[k].(pc := pc)];
    }
  }

  lemma TokensByAudio(c: Config, s: State, step: AudioStep)
    requires InvTokens(c, s) && AudioEnabled(s, step)
    ensures InvTokens(c, ApplyAudio(c, s, step))
  {
    var s' := ApplyAudio(c, s, step);
    AudioFrame(c, s, step);
    if step.AsrLaunch? {
      assert s'.tasks[..|s.tasks|] == s.tasks;
    } else {
      assert s'.tasks == s.tasks;
    }
  }

  lemma TokensByTask(c: Config, s: State, k: nat, step: TaskStep)
    requires InvTokens(c, s) && TaskEnabled(s, k, step)
    ensures InvTokens(c, ApplyTask(s, k, step))
  {
    TaskFrame(s, k, step);
    LiveUpdate(s.tasks, k, ApplyTask(s, k, step).tasks[k].pc);
  }

  // ---------------------------------------------------------------- typing

  lemma {:induction false} NewEpochUntyped(typed: seq<TypeCall>, e: nat)
    ensures OkIn(typed, e) > 0 <==> TypedBefore(typed, |typed|, e)
  {
    if typed != [] {
      var n := |typed| - 1;
      NewEpochUntyped(typed[..n], e);
      assert TypedBefore(typed, |typed|, e) ==
             (TypedBefore(typed[..n], n, e) || (typed[n].ok && typed[n].epoch == e)) by {
        if i :| 0 <= i < n && typed[..n][i].ok && typed[..n][i].epoch == e {
          assert typed[i].ok && typed[i].epoch == e;
        }
        if i :| 0 <= i <= n && typed[i].ok && typed[i].epoch == e {
          assert i < n ==> typed[..n][i].ok && typed[..n][i].epoch == e;
        }
      }
    }
  }

  lemma TypingByAudio(c: Config, s: State, step: AudioStep)
    requires InvTyping(s) && AudioEnabled(s, step)
    ensures InvTyping(ApplyAudio(c, s, step))
  {
    AudioFrame(c, s, step);
    AudioJobs(c, s, step);
    TypingFramed(s, ApplyAudio(c, s, step));
  }

  /** Typing depends on the jobs only through those the worker has already seen resolved. */
  lemma TypingFramed(s: State, s': State)
    requires InvTyping(s)
    requires s' == s.(mode := s'.mode, open := s'.open, epoch := s'.epoch, opens := s'.opens, running := s'.running,
                      ops := s'.ops, held := s'.held, audio := s'.audio, jobs := s'.jobs, queue := s'.queue,
                      tokens := s'.tokens, tasks := s'.tasks)
    requires |s.jobs| <= |s'.jobs| && s'.Taken() == s.Taken()
    requires forall j :: 0 <= j < |s.jobs| ==>
               && s'.jobs[j].epoch == s.jobs[j].epoch && s'.jobs[j].closes >= s.jobs[j].closes
               && (s.jobs[j].closes > 0 ==> s'.jobs[j].text == s.jobs[j].text)
    ensures InvTyping(s')
  {
    forall k | 0 <= k < |s.typed| ensures CallFits(s', k) {
      assert CallFits(s, k);
    }
  }

  lemma TypingByTask(s: State, k: nat, step: TaskStep)
    requires InvTyping(s) && InvOwner(s) && TaskEnabled(s, k, step)
    ensures InvTyping(ApplyTask(s, k, step))
  {
    var s' := ApplyTask(s, k, step);
    TaskFrame(s, k, step);
    ResolvedIsFinal(s, k, step);
    TypingFramed(s, s');
  }

  /** No text is stored, and ready is not closed again, after the one close. */
  lemma ResolvedIsFinal(s: State, k: nat, step: TaskStep)
    requires InvOwner(s) && TaskEnabled(s, k, step)
    ensures var s' := ApplyTask(s, k, step);
      forall j :: 0 <= j < |s.jobs| ==>
        && s'.jobs[j].closes >= s.jobs[j].closes
        && (s.jobs[j].closes > 0 ==> s'.jobs[j] == s.jobs[j])
  {
    assert TaskFits(s.jobs, s.tasks[k]);
  }

  /** Queued epochs never decrease, so crossing into a new one finds nothing typed in it. */
  lemma FreshEpoch(s: State)
    requires InvTyping(s) && InvQueue(s) && s.queue != []
    requires !s.initialized || s.jobs[s.Taken()].epoch != s.currentEpoch
    ensures OkIn(s.typed, s.jobs[s.Taken()].epoch) == 0
  {
    var e := s.jobs[s.Taken()].epoch;
    NewEpochUntyped(s.typed, e);
    forall i | 0 <= i < |s.typed| ensures s.typed[i].epoch < e {
      assert CallFits(s, i);
    }
  }

  lemma TypingByTake(s: State)
    requires InvTyping(s) && InvQueue(s) && WorkerEnabled(s, Take)
    ensures InvTyping(ApplyWorker(s, Take))
  {
    var s' := ApplyWorker(s, Take);
    assert s.queue[0] == s.Taken();
    if !s.initialized || s.jobs[s.Taken()].epoch != s.currentEpoch { FreshEpoch(s); }
    forall k | 0 <= k < |s.typed| ensures CallFits(s', k) && s.typed[k].job < s.Taken() {
      assert CallFits(s, k);
    }
  }

  lemma TypingByTyped(s: State, ok: bool)
    requires InvTyping(s) && WorkerEnabled(s, Typed(ok))
    ensures InvTyping(ApplyWorker(s, Typed(ok)))
  {
    var s' := ApplyWorker(s, Typed(ok));
    WorkerFrame(s, Typed(ok));
    var n := |s.typed|;
    assert s'.typed[..n] == s.typed;
    forall k | 0 <= k < n ensures CallFits(s', k) {
      assert CallFits(s, k);
      PrefixTypedBefore(s.typed, s'.typed[n], k, s.typed[k].epoch);
    }
    PrefixTypedBefore(s.typed, s'.typed[n], n, s'.typed[n].epoch);
    assert CallFits(s', n);
  }

  lemma PrefixTypedBefore(typed: seq<TypeCall>, call: TypeCall, k: nat, e: nat)
    requires k <= |typed|
    ensures TypedBefore(typed + [call], k, e) == TypedBefore(typed, k, e)
  {
    var typed' := typed + [call];
    if i :| 0 <= i < k && typed'[i].ok && typed'[i].epoch == e {
      assert typed[i].ok && typed[i].epoch == e;
    }
    if i :| 0 <= i < k && typed[i].ok && typed[i].epoch == e {
      assert typed'[i].ok && typed'[i].epoch == e;
    }
  }

  lemma TypingByWorker(s: State, step: WorkerStep)
    requires InvTyping(s) && InvQueue(s) && WorkerEnabled(s, step)
    ensures InvTyping(ApplyWorker(s, step))
  {
    match step
    case Take => TypingByTake(s);
    case Typed(ok) => TypingByTyped(s, ok);
    case Check => NewEpochUntyped(s.typed, s.jobs[s.worker.job].epoch); TypingIdles(s, ApplyWorker(s, step));
    case Ready => TypingIdles(s, ApplyWorker(s, step));
    case Exit => TypingIdles(s, ApplyWorker(s, step));
  }

  /** Only the worker's program counter moves. */
  lemma TypingIdles(s: State, s': State)
    requires InvTyping(s) && s' == s.(worker := s'.worker)
    requires Busy(s'.worker).Some? ==> Busy(s.worker) == Busy(s'.worker)
    requires s'.worker.Checking? || s'.worker.Typing? ==>
               s.jobs[s'.worker.job].closes > 0 && s.jobs[s'.worker.job].text != ""
    requires s'.worker.Typing? ==>
               s'.worker.payload == Payload(TypedBefore(s.typed, |s.typed|, s.jobs[s'.worker.job].epoch),
                                            s.jobs[s'.worker.job].text)
    ensures InvTyping(s')
  {
    forall k | 0 <= k < |s.typed| ensures CallFits(s', k) {
      assert CallFits(s, k);
    }
  }

  // -------------------------------------------------------------- draining

  lemma DrainByControl(c: Config, s: State, t: nat, step: ControlStep)
    requires InvDrain(s) && InvQueue(s) && ControlEnabled(c, s, t, step)
    ensures InvDrain(ApplyControl(c, s, t, step))
  {
    ControlFrame(c, s, t, step);
    DrainFramed(s, ApplyControl(c, s, t, step));
  }

  lemma DrainFramed(s: State, s': State)
    requires InvDrain(s) && s'.worker == s.worker && s'.typed == s.typed && s'.Taken() == s.Taken()
    requires |s.queue| <= |s.jobs| <= |s'.jobs|
    requires forall j :: 0 <= j < |s.jobs| ==> s'.jobs[j].epoch == s.jobs[j].epoch <= s.epoch
    requires s'.epoch >= s.epoch
    requires forall j :: 0 <= j < |s.jobs| && s.jobs[j].closes > 0 ==>
               s'.jobs[j].text == s.jobs[j].text && s'.jobs[j].closes > 0
    ensures InvDrain(s')
  {
    if !s.worker.Exited? {
      forall j | 0 <= j < |s'.jobs| && Past(s', j)
        ensures s'.jobs[j].closes > 0
        ensures s'.jobs[j].text != "" && s'.jobs[j].epoch == s'.epoch ==> HandedOver(s', j)
      {
        assert Past(s, j);
        if s'.jobs[j].text != "" && s'.jobs[j].epoch == s'.epoch {
          assert HandedOver(s, j);
          var k :| 0 <= k < |s.typed| && s.typed[k].job == j;
          assert s'.typed[k].job == j;
        }
      }
    }
  }

  lemma DrainByAudio(c: Config, s: State, step: AudioStep)
    requires InvDrain(s) && InvQueue(s) && AudioEnabled(s, step)
    ensures InvDrain(ApplyAudio(c, s, step))
  {
    AudioFrame(c, s, step);
    AudioJobs(c, s, step);
    DrainFramed(s, ApplyAudio(c, s, step));
  }

  lemma DrainByTask(s: State, k: nat, step: TaskStep)
    requires InvDrain(s) && InvQueue(s) && InvOwner(s) && TaskEnabled(s, k, step)
    ensures InvDrain(ApplyTask(s, k, step))
  {
    TaskFrame(s, k, step);
    ResolvedIsFinal(s, k, step);
    DrainFramed(s, ApplyTask(s, k, step));
  }

  lemma DrainByWorker(s: State, step: WorkerStep)
    requires InvDrain(s) && InvQueue(s) && InvTyping(s) && WorkerEnabled(s, step)
    ensures InvDrain(ApplyWorker(s, step))
  {
    var s' := ApplyWorker(s, step);
    WorkerFrame(s, step);
    if !s'.worker.Exited? {
      forall j | 0 <= j < |s'.jobs| && Past(s', j)
        ensures s'.jobs[j].closes > 0
        ensures s'.jobs[j].text != "" && s'.jobs[j].epoch == s'.epoch ==> HandedOver(s', j)
      {
        if Past(s, j) {
          if HandedOver(s, j) {
            var k :| 0 <= k < |s.typed| && s.typed[k].job == j;
            assert s'.typed[k].job == j;
          }
        } else if step.Typed? {
          assert s'.typed[|s.typed|].job == j;
        }
      }
    }
  }
}
