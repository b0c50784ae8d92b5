/** What the dictation machine guarantees over every interleaving and every run. */
module DictationTheorems {
  import opened Common
  import opened DictationMachine
  import opened DictationInvariants
  import opened DictationQueue

  // ====================================================== runs keep the invariant

  lemma BeginKeepsInv(c: Config, s: State, step: Step)
    requires Inv(c, s) && Enabled(c, s, step) && (step.BeginOpen? || step.BeginClose?)
    ensures Inv(c, Apply(c, s, step))
  {
    var s' := Apply(c, s, step);
    if c.onDemand { CaptureByBegin(s.ops, s'.ops[|s.ops|], s.open, s.running); }
    TypingFramed(s, s');
    DrainFramed(s, s');
  }

  lemma ControlKeepsInv(c: Config, s: State, t: nat, step: ControlStep)
    requires Inv(c, s) && ControlEnabled(c, s, t, step)
    ensures Inv(c, ApplyControl(c, s, t, step))
  {
    SessionByControl(c, s, t, step);
    QueueByControl(c, s, t, step);
    DrainByControl(c, s, t, step);
    ControlFrame(c, s, t, step);
    TypingFramed(s, ApplyControl(c, s, t, step));
    if c.onDemand { CaptureByControl(c, s, t, step); }
  }

  lemma AudioKeepsInv(c: Config, s: State, step: AudioStep)
    requires Inv(c, s) && AudioEnabled(s, step)
    ensures Inv(c, ApplyAudio(c, s, step))
  {
    SessionByAudio(c, s, step);
    QueueByAudio(c, s, step);
    OwnerByAudio(c, s, step);
    TokensByAudio(c, s, step);
    TypingByAudio(c, s, step);
    DrainByAudio(c, s, step);
    if c.onDemand { CaptureByAudio(c, s, step); }
  }

  lemma TaskKeepsInv(c: Config, s: State, k: nat, step: TaskStep)
    requires Inv(c, s) && TaskEnabled(s, k, step)
    ensures Inv(c, ApplyTask(s, k, step))
  {
    SessionByTask(s, k, step);
    QueueByTask(s, k, step);
    OwnerByTask(s, k, step);
    TokensByTask(c, s, k, step);
    TypingByTask(s, k, step);
    DrainByTask(s, k, step);
    TaskFrame(s, k, step);
  }

  lemma WorkerKeepsInv(c: Config, s: State, step: WorkerStep)
    requires Inv(c, s) && WorkerEnabled(s, step)
    ensures Inv(c, ApplyWorker(s, step))
  {
    QueueByWorker(s, step);
    TypingByWorker(s, step);
    DrainByWorker(s, step);
    WorkerFrame(s, step);
  }

  lemma StepKeepsInv(c: Config, s: State, step: Step)
    requires Inv(c, s) && Enabled(c, s, step)
    ensures Inv(c, Apply(c, s, step))
  {
    match step
    case Control(t, control) => ControlKeepsInv(c, s, t, control);
    case Air(air) => AudioKeepsInv(c, s, air);
    case Pool(k, pool) => TaskKeepsInv(c, s, k, pool);
    case Work(work) => WorkerKeepsInv(c, s, work);
    case _ => BeginKeepsInv(c, s, step);
  }

  lemma {:induction false} RunKeepsInv(c: Config, s: State, steps: seq<Step>, s': State)
    requires Inv(c, s) && Reaches(c, s, steps, s')
    ensures Inv(c, s')
    decreases |steps|
  {
    if steps != [] {
      StepKeepsInv(c, s, steps[0]);
      RunKeepsInv(c, Apply(c, s, steps[0]), steps[1..], s');
    }
  }

  /** s can occur in some run of the daemon. */
  ghost predicate Reachable(c: Config, s: State) {
    exists steps :: Reaches(c, Init(c), steps, s)
  }

  lemma ReachableInv(c: Config, s: State)
    requires Reachable(c, s)
    ensures Inv(c, s)
  {
    var steps :| Reaches(c, Init(c), steps, s);
    InitInv(c);
    RunKeepsInv(c, Init(c), steps, s);
  }

  lemma ReachableInit(c: Config)
    ensures Reachable(c, Init(c))
  {
    assert Reaches(c, Init(c), [], Init(c));
  }

  lemma {:induction false} ReachesAppend(c: Config, s: State, steps: seq<Step>, s1: State, step: Step)
    requires Reaches(c, s, steps, s1) && Enabled(c, s1, step)
    ensures Reaches(c, s, steps + [step], Apply(c, s1, step))
    decreases |steps|
  {
    if steps == [] {
      assert [step][1..] == [];
    } else {
      ReachesAppend(c, Apply(c, s, steps[0]), steps[1..], s1, step);
      assert (steps + [step])[1..] == steps[1..] + [step];
    }
  }

  lemma ReachableStep(c: Config, s: State, step: Step)
    requires Reachable(c, s) && Enabled(c, s, step)
    ensures Reachable(c, Apply(c, s, step))
  {
    var steps :| Reaches(c, Init(c), steps, s);
    ReachesAppend(c, Init(c), steps, s, step);
  }

  lemma {:induction false} ReachableRun(c: Config, s: State, steps: seq<Step>, s': State)
    requires Reachable(c, s) && Reaches(c, s, steps, s')
    ensures Reachable(c, s')
    decreases |steps|
  {
    if steps != [] {
      ReachableStep(c, s, steps[0]);
      ReachableRun(c, Apply(c, s, steps[0]), steps[1..], s');
    }
  }

  // ============================================================ typing order

  /** The jobs handed to Type so far, counting a call in progress. */
  function HandedJobs(s: State): (r: seq<nat>) {
    seq(|s.typed|, k requires 0 <= k < |s.typed| => s.typed[k].job)
    + if s.worker.Typing? then [s.worker.job] else []
  }

  predicate Increasing(js: seq<nat>, bound: nat) {
    forall i, k :: 0 <= i < k < |js| ==> js[i] < js[k] < bound
  }

  lemma HandedInOrder(s: State)
    requires InvTyping(s)
    ensures Increasing(HandedJobs(s), |s.jobs|)
  {
    var handed := HandedJobs(s);
    forall i, k | 0 <= i < k < |handed| ensures handed[i] < handed[k] < |s.jobs| {
      assert handed[i] == s.typed[i].job;
      assert CallFits(s, i);
      if k < |s.typed| {
        assert handed[k] == s.typed[k].job;
        assert CallFits(s, k);
      }
    }
  }

  /**
   Whatever order transcriptions finish in, jobs are handed to Type in
   submission order, none of them twice, and the text carries a leading space
   exactly when an earlier job of its epoch was typed without error.
   */
  lemma TypedInSubmissionOrder(c: Config, s: State)
    requires Reachable(c, s)
    ensures Increasing(HandedJobs(s), |s.jobs|)
    ensures forall i, j :: 0 <= i < j < |s.jobs| ==> s.jobs[i].epoch <= s.jobs[j].epoch
    ensures forall k :: 0 <= k < |s.typed| ==>
              && s.typed[k].job < |s.jobs|
              && s.typed[k].epoch == s.jobs[s.typed[k].job].epoch
              && s.jobs[s.typed[k].job].text != ""
              && s.typed[k].payload == (if TypedBefore(s.typed, k, s.typed[k].epoch) then " " else "")
                                       + s.jobs[s.typed[k].job].text
    ensures s.worker.Typing? ==>
              && s.worker.job < |s.jobs|
              && s.worker.payload == (if TypedBefore(s.typed, |s.typed|, s.jobs[s.worker.job].epoch) then " " else "")
                                     + s.jobs[s.worker.job].text
  {
    ReachableInv(c, s);
    HandedInOrder(s);
    forall k | 0 <= k < |s.typed|
      ensures s.typed[k].job < |s.jobs|
      ensures s.typed[k].epoch == s.jobs[s.typed[k].job].epoch && s.jobs[s.typed[k].job].text != ""
      ensures s.typed[k].payload == (if TypedBefore(s.typed, k, s.typed[k].epoch) then " " else "")
                                    + s.jobs[s.typed[k].job].text
    {
      assert CallFits(s, k);
    }
  }

  // ===================================================== exactly-once resolution

  /** ready is closed at most once, and by the time nobody owns the job, exactly once. */
  lemma ReadyClosedExactlyOnce(c: Config, s: State, j: nat)
    requires Reachable(c, s) && j < |s.jobs|
    ensures s.jobs[j].closes <= 1
    ensures s.jobs[j].closes == 1 <==> !HasOwner(s.tasks, Carried(s.audio), j)
  {
    ReachableInv(c, s);
    if k :| 0 <= k < |s.tasks| && Owes(s.tasks[k], j) {
      assert TaskFits(s.jobs, s.tasks[k]);
    }
  }

  lemma StepKeepsJobs(c: Config, s: State, step: Step)
    requires Inv(c, s) && Enabled(c, s, step)
    ensures var s' := Apply(c, s, step);
      && |s.jobs| <= |s'.jobs|
      && (forall j :: 0 <= j < |s.jobs| ==>
            && s'.jobs[j].epoch == s.jobs[j].epoch && s'.jobs[j].pcm == s.jobs[j].pcm
            && (s.jobs[j].closes > 0 ==> s'.jobs[j] == s.jobs[j]))
  {
    match step
    case Control(t, control) => ControlFrame(c, s, t, control);
    case Air(air) => AudioJobs(c, s, air);
    case Pool(k, pool) => TaskFrame(s, k, pool); ResolvedIsFinal(s, k, pool);
    case Work(work) => WorkerFrame(s, work);
    case _ =>
  }

  /** After the close no text is written: a resolved job never changes again, in any run. */
  lemma {:induction false} ResolvedForever(c: Config, s: State, steps: seq<Step>, s': State)
    requires Inv(c, s) && Reaches(c, s, steps, s')
    ensures |s.jobs| <= |s'.jobs|
    ensures forall j :: 0 <= j < |s.jobs| ==>
              && s'.jobs[j].epoch == s.jobs[j].epoch && s'.jobs[j].pcm == s.jobs[j].pcm
              && (s.jobs[j].closes > 0 ==> s'.jobs[j] == s.jobs[j])
    decreases |steps|
  {
    if steps != [] {
      StepKeepsInv(c, s, steps[0]);
      StepKeepsJobs(c, s, steps[0]);
      ResolvedForever(c, Apply(c, s, steps[0]), steps[1..], s');
    }
  }

  /** Running transcriptions are the held inflight tokens, and never exceed the bound. */
  lemma TokensAreTranscriptions(c: Config, s: State)
    requires Reachable(c, s)
    ensures Live(s.tasks) + (if s.audio.Launch? then 1 else 0) == s.tokens <= c.maxConcurrent
  {
    ReachableInv(c, s);
  }

  // ======================================================== capture agreement

  /** An operation that has changed `open`, or is about to withdraw it, and not yet synced. */
  predicate Reconciling(op: Op) {
    op.Syncing? || op.Holding? || op.RollingBack?
  }

  /** With any overlap of opens and closes, and any failing start, capture follows `open`. */
  lemma CaptureFollowsOpen(c: Config, s: State)
    requires c.onDemand && Reachable(c, s)
    requires forall t :: 0 <= t < |s.ops| ==> !Reconciling(s.ops[t])
    ensures s.running == s.open
  {
    ReachableInv(c, s);
  }

  // ================================================================== epochs

  /** open is mode, openings have distinct growing epochs, and the live one is the last. */
  lemma EpochsNameSessions(c: Config, s: State)
    requires Reachable(c, s)
    ensures s.open <==> s.mode != NoMode
    ensures forall i, j :: 0 <= i < j < |s.opens| ==> s.opens[i].epoch < s.opens[j].epoch <= s.epoch
    ensures s.open ==> s.opens != [] && s.opens[|s.opens| - 1] == Opening(s.epoch, s.mode)
  {
    ReachableInv(c, s);
    if s.open { LiveIsLast(s.opens, s.epoch, s.mode); }
  }

  lemma LiveIsLast(opens: seq<Opening>, epoch: nat, mode: Mode)
    requires EpochsGrow(opens, epoch) && Opened(opens, epoch, mode)
    ensures opens != [] && opens[|opens| - 1] == Opening(epoch, mode)
  {
    assert opens[|opens| - 1].epoch <= epoch;
  }

  /** In any run the epoch never decreases, and within one epoch the mode can only go to none. */
  lemma {:induction false} EpochsOnlyGrow(c: Config, s: State, steps: seq<Step>, s': State)
    requires Reaches(c, s, steps, s')
    ensures s.epoch <= s'.epoch
    ensures s'.epoch == s.epoch ==> s'.mode == s.mode || s'.mode == NoMode
    decreases |steps|
  {
    if steps != [] {
      EpochsOnlyGrow(c, Apply(c, s, steps[0]), steps[1..], s');
      match steps[0]
      case Control(t, control) =>
      case Air(air) => AudioFrame(c, s, air);
      case Pool(k, pool) => TaskFrame(s, k, pool);
      case Work(work) => WorkerFrame(s, work);
      case _ =>
    }
  }

  /**
   The transcript callback drops a transcript exactly when the epoch has moved
   on: its test of the mode never decides anything by itself.
   */
  lemma CallbackDropsExactlyStale(c: Config, s: State, k: nat)
    requires Reachable(c, s) && k < |s.tasks| && s.tasks[k].pc.Delivering?
    ensures TaskEnabled(s, k, Deliver)
    ensures ApplyTask(s, k, Deliver).tasks[k].pc.Skipping? <==> s.epoch != s.tasks[k].ticket.epoch
  {
    ReachableInv(c, s);
    DropsExactlyStale(c, s, k);
  }

  lemma DropsExactlyStale(c: Config, s: State, k: nat)
    requires Inv(c, s) && k < |s.tasks| && s.tasks[k].pc.Delivering?
    ensures TaskEnabled(s, k, Deliver)
    ensures ApplyTask(s, k, Deliver).tasks[k].pc.Skipping? <==> s.epoch != s.tasks[k].ticket.epoch
  {
    var tk := s.tasks[k].ticket;
    assert TaskFits(s.jobs, s.tasks[k]);
    if s.open && s.epoch == tk.epoch {
      var i :| 0 <= i < |s.opens| && s.opens[i] == Opening(s.epoch, s.mode);
      var j :| 0 <= j < |s.opens| && s.opens[j] == Opening(tk.epoch, tk.mode);
      assert i == j;
    }
  }

  /** The call in progress, if any, belongs to epoch e. */
  predicate TypingIn(s: State, e: nat) {
    s.worker.Typing? && s.worker.job < |s.jobs| && s.jobs[s.worker.job].epoch == e
  }

  /** One step logs the call in progress, or begins one for the live epoch. */
  lemma StepTypes(c: Config, s: State, step: Step)
    requires Inv(c, s) && Enabled(c, s, step)
    ensures var s' := Apply(c, s, step);
      && s.epoch <= s'.epoch
      && (forall e :: TypingIn(s', e) ==> e == s.epoch || TypingIn(s, e))
      && (s'.typed == s.typed ||
          exists call :: s'.typed == s.typed + [call] && TypingIn(s, call.epoch) && !s'.worker.Typing?)
  {
    StepKeepsJobs(c, s, step);
    match step
    case Control(t, control) => ControlFrame(c, s, t, control);
    case Air(air) => AudioFrame(c, s, air);
    case Pool(k, pool) => TaskFrame(s, k, pool);
    case Work(work) =>
      WorkerFrame(s, work);
      if work.Typed? {
        assert TypingIn(s, Apply(c, s, step).typed[|s.typed|].epoch);
      }
    case _ =>
  }

  /**
   Once the session has moved to a later epoch, nothing older is typed any
   more, except the one call that had already passed the worker's check.
   */
  lemma {:induction false} NothingStaleTyped(c: Config, s: State, steps: seq<Step>, s': State)
    requires Inv(c, s) && Reaches(c, s, steps, s')
    ensures |s.typed| <= |s'.typed| && s'.typed[..|s.typed|] == s.typed
    ensures forall k :: |s.typed| <= k < |s'.typed| && s'.typed[k].epoch < s.epoch ==>
              k == |s.typed| && TypingIn(s, s'.typed[k].epoch)
    decreases |steps|
  {
    if steps != [] {
      var s1 := Apply(c, s, steps[0]);
      StepKeepsInv(c, s, steps[0]);
      NothingStaleTyped(c, s1, steps[1..], s');
      StepTypes(c, s, steps[0]);
      NoStaleAhead(s, s1, s');
    }
  }

  lemma NoStaleAhead(s: State, s1: State, s': State)
    requires s.epoch <= s1.epoch
    requires forall e :: TypingIn(s1, e) ==> e == s.epoch || TypingIn(s, e)
    requires s1.typed == s.typed ||
             exists call :: s1.typed == s.typed + [call] && TypingIn(s, call.epoch) && !s1.worker.Typing?
    requires |s1.typed| <= |s'.typed| && s'.typed[..|s1.typed|] == s1.typed
    requires forall k :: |s1.typed| <= k < |s'.typed| && s'.typed[k].epoch < s1.epoch ==>
               k == |s1.typed| && TypingIn(s1, s'.typed[k].epoch)
    ensures |s.typed| <= |s'.typed| && s'.typed[..|s.typed|] == s.typed
    ensures forall k :: |s.typed| <= k < |s'.typed| && s'.typed[k].epoch < s.epoch ==>
              k == |s.typed| && TypingIn(s, s'.typed[k].epoch)
  {
    assert s'.typed[..|s.typed|] == s'.typed[..|s1.typed|][..|s.typed|];
    forall k | |s.typed| <= k < |s'.typed| && s'.typed[k].epoch < s.epoch
      ensures k == |s.typed| && TypingIn(s, s'.typed[k].epoch)
    {
      if k < |s1.typed| { assert s'.typed[k] == s1.typed[k]; }
    }
  }

  /** Once the worker has exited nothing is typed any more. */
  lemma {:induction false} ExitIsFinal(c: Config, s: State, steps: seq<Step>, s': State)
    requires steps != [] && steps[0] == Work(Exit) && Reaches(c, s, steps, s')
    ensures s'.worker.Exited? && s'.typed == s.typed
  {
    ExitedStays(c, Apply(c, s, steps[0]), steps[1..], s');
  }

  lemma {:induction false} ExitedStays(c: Config, s: State, steps: seq<Step>, s': State)
    requires s.worker.Exited? && Reaches(c, s, steps, s')
    ensures s'.worker.Exited? && s'.typed == s.typed
    decreases |steps|
  {
    if steps != [] {
      match steps[0] {
        case Control(t, control) => ControlFrame(c, s, t, control);
        case Air(air) => AudioFrame(c, s, air);
        case Pool(k, pool) => TaskFrame(s, k, pool);
        case _ =>
      }
      ExitedStays(c, Apply(c, s, steps[0]), steps[1..], s');
    }
  }
}
