/** Closing loses nothing, and every run left alone settles in agreement. */
module DictationProgress {
  import opened Common
  import opened DictationMachine
  import opened DictationInvariants
  import opened DictationQueue
  import opened DictationTheorems

  // ============================================================== draining

  /**
   Once the worker has caught up, the jobs of the live epoch that were resolved
   to a text have all been handed to Type; nothing else of that epoch has.
   */
  lemma DrainedExactly(c: Config, s: State, j: nat)
    requires Reachable(c, s) && s.queue == [] && s.worker.Idle?
    requires j < |s.jobs| && s.jobs[j].epoch == s.epoch
    ensures s.jobs[j].closes == 1
    ensures HandedOver(s, j) <==> s.jobs[j].text != ""
  {
    ReachableInv(c, s);
    assert Past(s, j);
    if k :| 0 <= k < |s.typed| && s.typed[k].job == j {
      assert CallFits(s, k);
    }
  }

  // ================================================ a transcript is not lost

  /** Task k carries `text` for job j, or has delivered it. */
  predicate Carries(s: State, k: nat, j: nat, text: string) {
    && k < |s.tasks| && j < |s.jobs|
    && s.tasks[k].ticket == Ticket(TypeMode, s.jobs[j].epoch, Some(j))
    && (|| s.tasks[k].pc == Delivering(text)
        || s.tasks[k].pc == Storing(text)
        || ((s.tasks[k].pc.Closing? || s.tasks[k].pc.Returning? || s.tasks[k].pc.Released?)
            && s.jobs[j].text == text))
  }

  lemma TranscriptByTask(c: Config, s: State, l: nat, step: TaskStep, k: nat, j: nat, text: string)
    requires Inv(c, s) && TaskEnabled(s, l, step)
    requires Carries(s, k, j, text) && s.jobs[j].epoch == s.epoch
    ensures Carries(ApplyTask(s, l, step), k, j, text)
  {
    TaskFrame(s, l, step);
    if l != k {
      assert s.tasks[l].ticket.job != Some(j);
    } else if step.Deliver? {
      DropsExactlyStale(c, s, k);
    }
  }

  lemma TranscriptAdvances(c: Config, s: State, step: Step, k: nat, j: nat, text: string)
    requires Inv(c, s) && Enabled(c, s, step)
    requires Carries(s, k, j, text) && s.jobs[j].epoch == s.epoch
    ensures Carries(Apply(c, s, step), k, j, text)
  {
    match step
    case Control(u, control) => ControlFrame(c, s, u, control);
    case Air(air) =>
      AudioFrame(c, s, air);
      AudioJobs(c, s, air);
      AudioTasks(c, s, air);
    case Pool(l, pool) => TranscriptByTask(c, s, l, pool, k, j, text);
    case Work(work) => WorkerFrame(s, work);
    case _ =>
  }

  lemma {:induction false} TranscriptSurvives(c: Config, s: State, steps: seq<Step>, s': State, k: nat, j: nat, text: string)
    requires Inv(c, s) && Reaches(c, s, steps, s') && Carries(s, k, j, text)
    requires s.jobs[j].epoch == s.epoch == s'.epoch
    ensures Carries(s', k, j, text) && s'.jobs[j].epoch == s.jobs[j].epoch
    decreases |steps|
  {
    if steps != [] {
      var s1 := Apply(c, s, steps[0]);
      StepKeepsInv(c, s, steps[0]);
      StepKeepsJobs(c, s, steps[0]);
      TranscriptAdvances(c, s, steps[0], k, j, text);
      StepTypes(c, s, steps[0]);
      EpochsOnlyGrow(c, s1, steps[1..], s');
      TranscriptSurvives(c, s1, steps[1..], s', k, j, text);
    }
  }

  /**
   The drain contract of close: a text transcribed for the live epoch reaches
   the keyboard even if the session closes meanwhile, as long as no later open
   (or withdrawn open) moves the epoch and the worker is not cancelled.
   */
  lemma ClosingLosesNoTranscript(c: Config, s: State, steps: seq<Step>, s': State, k: nat, j: nat, text: string)
    requires Reachable(c, s) && Reaches(c, s, steps, s')
    requires k < |s.tasks| && s.tasks[k] == Task(Ticket(TypeMode, s.epoch, Some(j)), Delivering(text))
    requires s'.epoch == s.epoch && Settled(s')
    ensures exists i :: 0 <= i < |s'.typed| && s'.typed[i].job == j &&
              (s'.typed[i].payload == text || s'.typed[i].payload == " " + text)
  {
    ReachableInv(c, s);
    assert TaskFits(s.jobs, s.tasks[k]);
    TranscriptSurvives(c, s, steps, s', k, j, text);
    RunKeepsInv(c, s, steps, s');
    assert TaskFits(s'.jobs, s'.tasks[k]) && s'.tasks[k].pc.Released?;
    assert Past(s', j) && HandedOver(s', j);
    var i :| 0 <= i < |s'.typed| && s'.typed[i].job == j;
    assert CallFits(s', i);
  }

  /** A run can be cut anywhere. */
  lemma {:induction false} RunSplits(c: Config, s: State, steps: seq<Step>, s': State, i: nat) returns (m: State)
    requires Reaches(c, s, steps, s') && i <= |steps|
    ensures Reaches(c, s, steps[..i], m) && Reaches(c, m, steps[i..], s')
    decreases i
  {
    if i == 0 {
      m := s;
      assert steps[0..] == steps;
    } else {
      m := RunSplits(c, Apply(c, s, steps[0]), steps[1..], s', i - 1);
      assert steps[..i][1..] == steps[1..][..i - 1] && steps[1..][i - 1..] == steps[i..];
    }
  }

  lemma TicketStays(c: Config, s: State, step: Step, k: nat)
    requires Enabled(c, s, step) && k < |s.tasks|
    ensures var s' := Apply(c, s, step); k < |s'.tasks| && s'.tasks[k].ticket == s.tasks[k].ticket
  {
    match step
    case Control(u, control) => ControlFrame(c, s, u, control);
    case Air(air) => AudioTasks(c, s, air);
    case Pool(l, pool) => TaskFrame(s, l, pool);
    case Work(work) => WorkerFrame(s, work);
    case _ =>
  }

  lemma {:induction false} TicketKept(c: Config, s: State, steps: seq<Step>, s': State, k: nat)
    requires Reaches(c, s, steps, s') && k < |s.tasks|
    ensures k < |s'.tasks| && s'.tasks[k].ticket == s.tasks[k].ticket
    decreases |steps|
  {
    if steps != [] {
      TicketStays(c, s, steps[0], k);
      TicketKept(c, Apply(c, s, steps[0]), steps[1..], s', k);
    }
  }

  /**
   From the backend to the keyboard: whatever a transcription of the live epoch
   is answered, as long as it is a text, has been handed to Type once the daemon
   has settled in that epoch.
   */
  lemma AnsweredTextIsTyped(c: Config, s: State, steps: seq<Step>, s': State, k: nat, j: nat, i: nat, text: string)
    requires Reachable(c, s) && Reaches(c, s, steps, s')
    requires k < |s.tasks| && s.tasks[k].ticket == Ticket(TypeMode, s.epoch, Some(j))
    requires i < |steps| && steps[i] == Pool(k, Result(Some(text))) && text != ""
    requires s'.epoch == s.epoch && Settled(s')
    ensures exists n :: 0 <= n < |s'.typed| && s'.typed[n].job == j &&
              (s'.typed[n].payload == text || s'.typed[n].payload == " " + text)
  {
    var m := RunSplits(c, s, steps, s', i);
    ReachableRun(c, s, steps[..i], m);
    TicketKept(c, s, steps[..i], m, k);
    EpochsOnlyGrow(c, s, steps[..i], m);
    EpochsOnlyGrow(c, m, steps[i..], s');
    var answered := Apply(c, m, steps[i]);
    ReachableStep(c, m, steps[i]);
    assert answered.tasks[k] == Task(Ticket(TypeMode, m.epoch, Some(j)), Delivering(text));
    ClosingLosesNoTranscript(c, answered, steps[i..][1..], s', k, j, text);
  }

  // ============================================================== progress

  /** Work the daemon still does by itself: no new request, audio or cancellation. */
  predicate Internal(step: Step) {
    && !step.BeginOpen? && !step.BeginClose?
    && !(step.Air? && step.air.Hear?)
    && !(step.Work? && step.work.Exit?)
  }

  /** Nothing is left to do. */
  predicate Settled(s: State) {
    && s.audio.Quiet? && s.held == [] && s.queue == [] && s.worker.Idle?
    && (forall t :: 0 <= t < |s.ops| ==> s.ops[t].Done?)
    && (forall k :: 0 <= k < |s.tasks| ==> s.tasks[k].pc.Released?)
  }

  function OpWeight(op: Op): nat {
    match op
    case OpenEntry(_) => 7
    case CloseEntry => 5
    case Flushing(_) => 4
    case CloseCommit(_) => 3
    case Syncing(why) => if why.Opener? then 6 else 2
    case Holding(why, _) => if why.Opener? then 5 else 1
    case Spawning(_) => 4
    case RollingBack(_) => 3
    case Done => 0
  }

  function TaskWeight(pc: TaskPc): nat {
    match pc
    case Transcribing => 5
    case Delivering(_) => 4
    case Storing(_) => 3
    case Closing => 2
    case Skipping => 2
    case Returning => 1
    case Released => 0
  }

  function AudioWeight(a: Audio): nat {
    match a
    case Quiet => 0
    case Launch(_, _, _) => 6
    case Submit(_, _, _) => 7
    case Slot(_, _, _) => 12
    case Heard(_, _) => 13
  }

  function WorkerWeight(w: Worker): nat {
    match w
    case Waiting(_) => 3
    case Checking(_) => 2
    case Typing(_, _) => 1
    case _ => 0
  }

  function OpsWeight(ops: seq<Op>): nat {
    if ops == [] then 0 else OpsWeight(ops[..|ops|-1]) + OpWeight(ops[|ops|-1])
  }

  function TasksWeight(tasks: seq<Task>): nat {
    if tasks == [] then 0 else TasksWeight(tasks[..|tasks|-1]) + TaskWeight(tasks[|tasks|-1].pc)
  }

  /** An upper bound on the internal steps still to come. */
  function Remaining(s: State): nat {
    OpsWeight(s.ops) + TasksWeight(s.tasks) + AudioWeight(s.audio) + WorkerWeight(s.worker)
    + 4 * |s.queue| + if s.held == [] then 0 else 14
  }

  lemma {:induction false} OpsWeightUpdate(ops: seq<Op>, t: nat, op: Op)
    requires t < |ops|
    ensures OpsWeight(ops[t := op]) == OpsWeight(ops) - OpWeight(ops[t]) + OpWeight(op)
  {
    var ops' := ops[t := op];
    var n := |ops| - 1;
    if t == n {
      assert ops'[..n] == ops[..n];
    } else {
      OpsWeightUpdate(ops[..n], t, op);
      assert ops'[..n] == ops[..n][t := op];
    }
  }

  lemma {:induction false} TasksWeightUpdate(tasks: seq<Task>, k: nat, pc: TaskPc)
    requires k < |tasks|
    ensures TasksWeight(tasks[k := tasks[k].(pc := pc)])
            == TasksWeight(tasks) - TaskWeight(tasks[k].pc) + TaskWeight(pc)
  {
    var tasks' := tasks[k := tasks[k].(pc := pc)];
    var n := |tasks| - 1;
    if k == n {
      assert tasks'[..n] == tasks[..n];
    } else {
      TasksWeightUpdate(tasks[..n], k, pc);
      assert tasks'[..n] == tasks[..n][k := tasks[k].(pc := pc)];
    }
  }

  lemma ControlDecreases(c: Config, s: State, t: nat, step: ControlStep)
    requires ControlEnabled(c, s, t, step)
    ensures Remaining(ApplyControl(c, s, t, step)) < Remaining(s)
  {
    ControlFrame(c, s, t, step);
    OpsWeightUpdate(s.ops, t, ApplyControl(c, s, t, step).ops[t]);
  }

  lemma AnswerIsWork(ops: seq<Op>, reply: Option<nat>)
    ensures OpsWeight(Answer(ops, reply)) == OpsWeight(ops) - if Answer(ops, reply) == ops then 0 else 1
  {
    if Answer(ops, reply) != ops {
      OpsWeightUpdate(ops, reply.value, CloseCommit(ops[reply.value].epoch));
    }
  }

  lemma EmitDecreases(s: State, gate: bool, reply: Option<nat>)
    requires s.audio.Quiet?
    requires s.held != [] || Answer(s.ops, reply) != s.ops
    ensures Remaining(EmitHeld(s, gate, reply)) < Remaining(s)
  {
    AnswerIsWork(s.ops, reply);
  }

  lemma AudioDecreases(c: Config, s: State, step: AudioStep)
    requires AudioEnabled(s, step) && !step.Hear?
    ensures Remaining(ApplyAudio(c, s, step)) < Remaining(s)
  {
    match step
    case Emit(gate) => EmitDecreases(s, gate, None);
    case ServeFlush(t, gate) =>
      assert Answer(s.ops, Some(t))[t] != s.ops[t];
      EmitDecreases(s, gate, Some(t));
    case AsrLaunch => LaunchDecreases(c, s);
    case AsrSubmit => SubmitDecreases(c, s);
    case Enqueue => EnqueueDecreases(c, s);
    case UtteranceRead => AudioMovesOn(s, ApplyAudio(c, s, UtteranceRead), s.audio.reply);
  }

  /** The audio goroutine moved on, and nothing else grew. */
  lemma AudioMovesOn(s: State, s': State, reply: Option<nat>)
    requires s'.tasks == s.tasks && s'.worker == s.worker && s'.held == s.held
    requires s'.ops == s.ops || s'.ops == Answer(s.ops, reply)
    requires AudioWeight(s'.audio) + 4 * |s'.queue| < AudioWeight(s.audio) + 4 * |s.queue|
    ensures Remaining(s') < Remaining(s)
  {
    AnswerIsWork(s.ops, reply);
  }

  lemma EnqueueDecreases(c: Config, s: State)
    requires AudioEnabled(s, Enqueue)
    ensures Remaining(ApplyAudio(c, s, Enqueue)) < Remaining(s)
  {
    AudioMovesOn(s, ApplyAudio(c, s, Enqueue), s.audio.reply);
  }

  lemma SubmitDecreases(c: Config, s: State)
    requires AudioEnabled(s, AsrSubmit)
    ensures Remaining(ApplyAudio(c, s, AsrSubmit)) < Remaining(s)
  {
    AudioMovesOn(s, ApplyAudio(c, s, AsrSubmit), s.audio.reply);
  }

  lemma LaunchDecreases(c: Config, s: State)
    requires AudioEnabled(s, AsrLaunch)
    ensures Remaining(ApplyAudio(c, s, AsrLaunch)) < Remaining(s)
  {
    AnswerIsWork(s.ops, s.audio.reply);
    assert ApplyAudio(c, s, AsrLaunch).tasks[..|s.tasks|] == s.tasks;
  }

  lemma TaskDecreases(s: State, k: nat, step: TaskStep)
    requires TaskEnabled(s, k, step)
    ensures Remaining(ApplyTask(s, k, step)) < Remaining(s)
  {
    TaskFrame(s, k, step);
    TasksWeightUpdate(s.tasks, k, ApplyTask(s, k, step).tasks[k].pc);
  }

  lemma InternalDecreases(c: Config, s: State, step: Step)
    requires Enabled(c, s, step) && Internal(step)
    ensures Remaining(Apply(c, s, step)) < Remaining(s)
  {
    match step
    case Control(t, control) => ControlDecreases(c, s, t, control);
    case Air(air) => AudioDecreases(c, s, air);
    case Pool(k, pool) => TaskDecreases(s, k, pool);
    case Work(work) => WorkerFrame(s, work);
  }

  /** Whatever the scheduling, the daemon's own work is over after Remaining(s) steps. */
  lemma {:induction false} InternalRunsAreBounded(c: Config, s: State, steps: seq<Step>, s': State)
    requires Reaches(c, s, steps, s') && forall i :: 0 <= i < |steps| ==> Internal(steps[i])
    ensures |steps| + Remaining(s') <= Remaining(s)
    decreases |steps|
  {
    if steps != [] {
      InternalDecreases(c, s, steps[0]);
      InternalRunsAreBounded(c, Apply(c, s, steps[0]), steps[1..], s');
    }
  }

  // ---------------------------------------------------------- no deadlock

  lemma {:induction false} LivePositive(tasks: seq<Task>, k: nat)
    requires k < |tasks| && !tasks[k].pc.Released?
    ensures Live(tasks) > 0
  {
    if k < |tasks| - 1 { LivePositive(tasks[..|tasks|-1], k); }
  }

  lemma ControlCanStep(c: Config, s: State, t: nat) returns (step: Step)
    requires Inv(c, s) && t < |s.ops| && !s.ops[t].Done? && s.audio.Quiet?
    ensures Enabled(c, s, step) && Internal(step)
  {
    match s.ops[t]
    case OpenEntry(_) => step := Control(t, OpenRegion);
    case CloseEntry => step := Control(t, CloseCheck);
    case Flushing(_) => step := Air(ServeFlush(t, true));
    case CloseCommit(_) => step := Control(t, CloseRegion);
    case Spawning(_) => step := Control(t, Spawn(true));
    case RollingBack(_) => step := Control(t, Rollback);
    case Holding(_, _) => step := Control(t, SyncAct(true));
    case Syncing(_) =>
      if !c.onDemand {
        step := Control(t, SyncSkip);
      } else if AudioMuFree(s) {
        step := Control(t, SyncRead);
      } else {
        var u :| 0 <= u < |s.ops| && s.ops[u].Holding?;
        step := Control(u, SyncAct(true));
      }
  }

  lemma TaskCanStep(c: Config, s: State, k: nat) returns (step: Step)
    requires Inv(c, s) && k < |s.tasks| && !s.tasks[k].pc.Released?
    ensures Enabled(c, s, step) && Internal(step)
  {
    assert TaskFits(s.jobs, s.tasks[k]);
    match s.tasks[k].pc
    case Transcribing => step := Pool(k, Result(None));
    case Delivering(_) => step := Pool(k, Deliver);
    case Storing(_) => step := Pool(k, Store);
    case Closing => step := Pool(k, CloseReady);
    case Skipping => step := Pool(k, CloseReady);
    case Returning =>
      LivePositive(s.tasks, k);
      step := Pool(k, Release);
  }

  /** Unless everything is done, some thread can go on: the daemon never deadlocks. */
  lemma NoDeadlock(c: Config, s: State) returns (step: Step)
    requires Inv(c, s) && !Settled(s) && !s.worker.Exited?
    ensures Enabled(c, s, step) && Internal(step)
  {
    if !s.audio.Quiet? {
      step := Air(match s.audio
                  case Heard(_, _) => UtteranceRead
                  case Slot(_, _, _) => Enqueue
                  case Submit(_, _, _) => AsrSubmit
                  case _ => AsrLaunch);
    } else if s.held != [] {
      step := Air(Emit(true));
    } else if t :| 0 <= t < |s.ops| && !s.ops[t].Done? {
      step := ControlCanStep(c, s, t);
    } else if k :| 0 <= k < |s.tasks| && !s.tasks[k].pc.Released? {
      step := TaskCanStep(c, s, k);
    } else {
      // every owner is gone, so the job the worker waits for is resolved
      match s.worker
      case Idle => step := Work(Take);
      case Waiting(j) =>
        assert HasOwner(s.tasks, Carried(s.audio), j) ==> s.jobs[j].closes > 0;
        step := Work(Ready);
      case Checking(_) => step := Work(Check);
      case Typing(_, _) => step := Work(Typed(true));
    }
  }

  lemma NextInternal(c: Config, s: State) returns (step: Step, s1: State)
    requires Inv(c, s) && !Settled(s) && !s.worker.Exited?
    ensures Enabled(c, s, step) && Internal(step) && s1 == Apply(c, s, step)
    ensures Inv(c, s1) && !s1.worker.Exited? && Remaining(s1) < Remaining(s)
  {
    step := NoDeadlock(c, s);
    s1 := Apply(c, s, step);
    InternalDecreases(c, s, step);
    StepKeepsInv(c, s, step);
    WorkerStaysUp(c, s, step);
  }

  lemma WorkerStaysUp(c: Config, s: State, step: Step)
    requires Enabled(c, s, step) && Internal(step) && !s.worker.Exited?
    ensures !Apply(c, s, step).worker.Exited?
  {
    match step
    case Control(t, control) => ControlFrame(c, s, t, control);
    case Air(air) => AudioFrame(c, s, air);
    case Pool(k, pool) => TaskFrame(s, k, pool);
    case _ =>
  }

  /** From anywhere in any run, the daemon can finish its work by itself. */
  lemma {:induction false} CanSettle(c: Config, s: State) returns (steps: seq<Step>, s': State)
    requires Inv(c, s) && !s.worker.Exited?
    ensures Reaches(c, s, steps, s') && Settled(s')
    ensures forall i :: 0 <= i < |steps| ==> Internal(steps[i])
    decreases Remaining(s)
  {
    if Settled(s) {
      steps, s' := [], s;
    } else {
      var step, s1 := NextInternal(c, s);
      var rest;
      rest, s' := CanSettle(c, s1);
      steps := [step] + rest;
      assert steps[1..] == rest;
    }
  }

  /** What a settled daemon looks like. */
  lemma SettledInAgreement(c: Config, s: State)
    requires Reachable(c, s) && Settled(s)
    ensures c.onDemand ==> s.running == s.open
    ensures s.tokens == 0
    ensures forall j :: 0 <= j < |s.jobs| ==> s.jobs[j].closes == 1
    ensures forall j :: 0 <= j < |s.jobs| && s.jobs[j].epoch == s.epoch ==>
              (HandedOver(s, j) <==> s.jobs[j].text != "")
  {
    ReachableInv(c, s);
    if c.onDemand { CaptureFollowsOpen(c, s); }
    NoneLive(s.tasks);
    forall j | 0 <= j < |s.jobs| ensures s.jobs[j].closes == 1 {
      ReadyClosedExactlyOnce(c, s, j);
    }
    forall j | 0 <= j < |s.jobs| && s.jobs[j].epoch == s.epoch
      ensures HandedOver(s, j) <==> s.jobs[j].text != ""
    {
      DrainedExactly(c, s, j);
    }
  }

  lemma {:induction false} NoneLive(tasks: seq<Task>)
    requires forall k :: 0 <= k < |tasks| ==> tasks[k].pc.Released?
    ensures Live(tasks) == 0
  {
    if tasks != [] { NoneLive(tasks[..|tasks|-1]); }
  }
}
