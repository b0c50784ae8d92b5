/** The inductive invariant of the dictation machine, one conjunct per concern. */
module DictationInvariants {
  import opened Common
  import opened DictationMachine

  // ---------------------------------------------------------------- session

  ghost predicate Opened(opens: seq<Opening>, epoch: nat, mode: Mode) {
    exists i :: 0 <= i < |opens| && opens[i] == Opening(epoch, mode)
  }

  predicate HasTicket(a: Audio) { a.Slot? || a.Submit? || a.Launch? }

  predicate EpochsGrow(opens: seq<Opening>, epoch: nat) {
    && (forall i :: 0 <= i < |opens| ==> opens[i].mode != NoMode && opens[i].epoch <= epoch)
    && (forall i, j :: 0 <= i < j < |opens| ==> opens[i].epoch < opens[j].epoch)
  }

  ghost predicate InvSession(s: State) {
    && (s.open <==> s.mode != NoMode)
    && EpochsGrow(s.opens, s.epoch)
    && (s.open ==> Opened(s.opens, s.epoch, s.mode))
    && (forall t :: 0 <= t < |s.ops| && s.ops[t].OpenEntry? ==> s.ops[t].target != NoMode)
    && (HasTicket(s.audio) ==> Opened(s.opens, s.audio.ticket.epoch, s.audio.ticket.mode))
    && (forall k :: 0 <= k < |s.tasks| ==> Opened(s.opens, s.tasks[k].ticket.epoch, s.tasks[k].ticket.mode))
  }

  // ---------------------------------------------------------------- capture

  predicate OpenerWaiting(op: Op) { op.Syncing? && op.why.Opener? }

  /** An opener that will still start capture, or withdraw the open. */
  predicate OpenerPending(op: Op) {
    OpenerWaiting(op) || (op.Holding? && op.why.Opener? && op.wanted) || op.RollingBack?
  }

  /** A thread that will still act on the closed state. */
  predicate StopPending(op: Op) {
    op.Syncing? || (op.Holding? && !op.wanted)
  }

  ghost predicate AnySyncing(ops: seq<Op>) {
    exists u :: 0 <= u < |ops| && ops[u].Syncing?
  }

  ghost predicate AnyOpenerWaiting(ops: seq<Op>) {
    exists u :: 0 <= u < |ops| && OpenerWaiting(ops[u])
  }

  ghost predicate AnyOpenerPending(ops: seq<Op>) {
    exists u :: 0 <= u < |ops| && OpenerPending(ops[u])
  }

  ghost predicate AnyStopPending(ops: seq<Op>) {
    exists u :: 0 <= u < |ops| && StopPending(ops[u])
  }

  /**
   A thread that read a stale `open` under audioMu is followed by whoever made
   it stale, and a disagreement between capture and `open` is always covered by
   a thread that has yet to repair it.
   */
  ghost predicate Reconciles(ops: seq<Op>, open: bool, running: bool) {
    && (forall t, u :: 0 <= t < u < |ops| ==> !(ops[t].Holding? && ops[u].Holding?))
    && (forall t :: 0 <= t < |ops| && ops[t].Holding? && ops[t].wanted && !open ==> AnySyncing(ops))
    && (forall t :: 0 <= t < |ops| && ops[t].Holding? && !ops[t].wanted && open ==> AnyOpenerWaiting(ops))
    && (open && !running ==> AnyOpenerPending(ops))
    && (!open && running ==> AnyStopPending(ops))
  }

  ghost predicate InvCapture(s: State) {
    Reconciles(s.ops, s.open, s.running)
  }

  // ------------------------------------------------------------------ queue

  ghost predicate InvQueue(s: State) {
    && |s.queue| <= |s.jobs| && |s.queue| <= QUEUE_CAP
    && (forall i :: 0 <= i < |s.queue| ==> s.queue[i] == |s.jobs| - |s.queue| + i)
    && (forall i, j :: 0 <= i < j < |s.jobs| ==> s.jobs[i].epoch <= s.jobs[j].epoch)
    && (forall i :: 0 <= i < |s.jobs| ==> s.jobs[i].epoch <= s.epoch)
    && (s.audio.Slot? ==>
          && s.audio.ticket.epoch <= s.epoch && s.audio.ticket.job == None
          && forall i :: 0 <= i < |s.jobs| ==> s.jobs[i].epoch <= s.audio.ticket.epoch)
  }

  // ---------------------------------------------- exactly-once resolution

  predicate TicketFits(jobs: seq<Job>, tk: Ticket) {
    && (tk.job.Some? <==> tk.mode == TypeMode)
    && (tk.job.Some? ==> tk.job.value < |jobs| && jobs[tk.job.value].epoch == tk.epoch)
  }

  predicate PcFits(job: Job, pc: TaskPc) {
    && (job.closes == if pc.Returning? || pc.Released? then 1 else 0)
    && (pc.Closing? ==> job.text != "")
    && (pc.Transcribing? || pc.Delivering? || pc.Storing? || pc.Skipping? ==> job.text == "")
  }

  predicate TaskFits(jobs: seq<Job>, task: Task) {
    && TicketFits(jobs, task.ticket)
    && (task.pc.Delivering? || task.pc.Storing? ==> task.pc.text != "")
    && (task.pc.Storing? || task.pc.Closing? ==> task.ticket.job.Some?)
    && (task.ticket.job.Some? ==> PcFits(jobs[task.ticket.job.value], task.pc))
  }

  /** A task that has yet to close its job's ready channel. */
  predicate Owes(task: Task, j: nat) {
    task.ticket.job == Some(j) && !task.pc.Returning? && !task.pc.Released?
  }

  /** The ticket the audio goroutine carries between the queue and the pool. */
  function Carried(a: Audio): Option<Ticket> {
    if a.Submit? || a.Launch? then Some(a.ticket) else None
  }

  /** Each job is owned by at most one goroutine. */
  ghost predicate Disjoint(tasks: seq<Task>, carried: Option<Ticket>) {
    && (forall k, l :: 0 <= k < l < |tasks| && tasks[k].ticket.job.Some? ==>
          tasks[k].ticket.job != tasks[l].ticket.job)
    && (carried.Some? && carried.value.job.Some? ==>
          forall k :: 0 <= k < |tasks| ==> tasks[k].ticket.job != carried.value.job)
  }

  ghost predicate HasOwner(tasks: seq<Task>, carried: Option<Ticket>, j: nat) {
    || (carried.Some? && carried.value.job == Some(j))
    || exists k :: 0 <= k < |tasks| && Owes(tasks[k], j)
  }

  /** ready is closed at most once, and whoever has not closed it yet still will. */
  ghost predicate Owned(jobs: seq<Job>, tasks: seq<Task>, carried: Option<Ticket>) {
    && (forall j :: 0 <= j < |jobs| ==> jobs[j].closes <= 1)
    && (forall k :: 0 <= k < |tasks| ==> TaskFits(jobs, tasks[k]))
    && (carried.Some? ==> TicketFits(jobs, carried.value))
    && (carried.Some? && carried.value.job.Some? ==>
          jobs[carried.value.job.value].closes == 0 && jobs[carried.value.job.value].text == "")
    && Disjoint(tasks, carried)
    && (forall j :: 0 <= j < |jobs| && jobs[j].closes == 0 ==> HasOwner(tasks, carried, j))
  }

  ghost predicate InvOwner(s: State) {
    Owned(s.jobs, s.tasks, Carried(s.audio))
  }

  // ------------------------------------------------------------ concurrency

  function Live(tasks: seq<Task>): nat {
    if tasks == [] then 0
    else Live(tasks[..|tasks|-1]) + if tasks[|tasks|-1].pc.Released? then 0 else 1
  }

  predicate InvTokens(c: Config, s: State) {
    && s.tokens == Live(s.tasks) + (if s.audio.Launch? then 1 else 0)
    && s.tokens <= c.maxConcurrent
  }

  // ----------------------------------------------------------------- typing

  function OkIn(typed: seq<TypeCall>, e: nat): nat {
    if typed == [] then 0
    else OkIn(typed[..|typed|-1], e) +
         if typed[|typed|-1].ok && typed[|typed|-1].epoch == e then 1 else 0
  }

  /** An earlier utterance of the epoch has reached the keyboard. */
  ghost predicate TypedBefore(typed: seq<TypeCall>, k: nat, e: nat) {
    exists i :: 0 <= i < k && i < |typed| && typed[i].ok && typed[i].epoch == e
  }

  function Busy(w: Worker): Option<nat> {
    if w.Waiting? || w.Checking? || w.Typing? then Some(w.job) else None
  }

  ghost predicate CallFits(s: State, k: nat)
    requires k < |s.typed|
  {
    var call := s.typed[k];
    && call.job < s.Taken()
    && call.job < |s.jobs|
    && s.jobs[call.job].closes > 0 && s.jobs[call.job].text != ""
    && s.jobs[call.job].epoch == call.epoch
    && call.payload == Payload(TypedBefore(s.typed, k, call.epoch), s.jobs[call.job].text)
  }

  ghost predicate InvTyping(s: State) {
    && |s.queue| <= |s.jobs|
    && (s.initialized <==> s.Taken() > 0)
    && (s.initialized ==> s.currentEpoch == s.jobs[s.Taken() - 1].epoch)
    && s.typedInEpoch == (if s.initialized then OkIn(s.typed, s.currentEpoch) else 0)
    && (forall k :: 0 <= k < |s.typed| ==> CallFits(s, k))
    && (forall i, k :: 0 <= i < k < |s.typed| ==> s.typed[i].job < s.typed[k].job)
    && (Busy(s.worker).Some? ==>
          && s.worker.job == s.Taken() - 1
          && forall k :: 0 <= k < |s.typed| ==> s.typed[k].job < s.worker.job)
    && (s.worker.Checking? || s.worker.Typing? ==>
          s.jobs[s.worker.job].closes > 0 && s.jobs[s.worker.job].text != "")
    && (s.worker.Typing? ==>
          s.worker.payload == Payload(TypedBefore(s.typed, |s.typed|, s.jobs[s.worker.job].epoch),
                                      s.jobs[s.worker.job].text))
  }

  // --------------------------------------------------------------- draining

  /** The worker is finished with job j. */
  predicate Past(s: State, j: nat) {
    j < s.Taken() && Busy(s.worker) != Some(j)
  }

  ghost predicate HandedOver(s: State, j: nat) {
    exists k :: 0 <= k < |s.typed| && s.typed[k].job == j
  }

  ghost predicate InvDrain(s: State) {
    !s.worker.Exited? ==>
      forall j :: 0 <= j < |s.jobs| && Past(s, j) ==>
        && s.jobs[j].closes > 0
        && (s.jobs[j].text != "" && s.jobs[j].epoch == s.epoch ==> HandedOver(s, j))
  }

  ghost predicate Inv(c: Config, s: State) {
    && InvSession(s) && InvQueue(s) && InvOwner(s) && InvTokens(c, s)
    && InvTyping(s) && InvDrain(s) && (c.onDemand ==> InvCapture(s))
  }

  // ======================================================== initial state

  lemma InitInv(c: Config)
    ensures Inv(c, Init(c))
  {
  }

  // ================================================ what each thread leaves

  lemma ControlFrame(c: Config, s: State, t: nat, step: ControlStep)
    requires ControlEnabled(c, s, t, step)
    ensures var s' := ApplyControl(c, s, t, step);
      && s' == s.(mode := s'.mode, open := s'.open, epoch := s'.epoch, opens := s'.opens,
                  running := s'.running, held := s'.held, ops := s'.ops)
      && s'.epoch >= s.epoch && s'.ops == s.ops[t := s'.ops[t]]
  {
  }

  lemma AudioFrame(c: Config, s: State, step: AudioStep)
    requires AudioEnabled(s, step)
    ensures var s' := ApplyAudio(c, s, step);
      && s' == s.(held := s'.held, audio := s'.audio, ops := s'.ops, jobs := s'.jobs,
                  queue := s'.queue, tokens := s'.tokens, tasks := s'.tasks)
  {
  }

  lemma AudioTasks(c: Config, s: State, step: AudioStep)
    requires AudioEnabled(s, step)
    ensures ApplyAudio(c, s, step).tasks
            == if step.AsrLaunch? then s.tasks + [Task(s.audio.ticket, Transcribing)] else s.tasks
  {
  }

  lemma TaskFrame(s: State, k: nat, step: TaskStep)
    requires TaskEnabled(s, k, step)
    ensures var s' := ApplyTask(s, k, step);
      && s' == s.(jobs := s'.jobs, tokens := s'.tokens, tasks := s'.tasks)
      && s'.tasks == s.tasks[k := s.tasks[k].(pc := s'.tasks[k].pc)]
      && |s'.jobs| == |s.jobs|
      && (forall j :: 0 <= j < |s.jobs| ==>
            && s'.jobs[j] == s.jobs[j].(text := s'.jobs[j].text, closes := s'.jobs[j].closes)
            && (s.tasks[k].ticket.job != Some(j) ==> s'.jobs[j] == s.jobs[j]))
  {
  }

  lemma WorkerFrame(s: State, step: WorkerStep)
    requires WorkerEnabled(s, step)
    ensures var s' := ApplyWorker(s, step);
      s' == s.(queue := s'.queue, worker := s'.worker, currentEpoch := s'.currentEpoch,
               initialized := s'.initialized, typedInEpoch := s'.typedInEpoch, typed := s'.typed)
  {
  }

  // ================================================================ session

  lemma OpenedLasts(opens: seq<Opening>, o: Opening, epoch: nat, mode: Mode)
    requires Opened(opens, epoch, mode)
    ensures Opened(opens + [o], epoch, mode)
  {
    var i :| 0 <= i < |opens| && opens[i] == Opening(epoch, mode);
    assert (opens + [o])[i] == Opening(epoch, mode);
  }

  lemma SessionByControl(c: Config, s: State, t: nat, step: ControlStep)
    requires InvSession(s) && ControlEnabled(c, s, t, step)
    ensures InvSession(ApplyControl(c, s, t, step))
  {
    var s' := ApplyControl(c, s, t, step);
    ControlFrame(c, s, t, step);
    if s'.opens != s.opens {
      assert s'.opens == s.opens + [Opening(s'.epoch, s'.mode)];
      assert s'.opens[|s.opens|] == Opening(s'.epoch, s'.mode);
      if HasTicket(s.audio) {
        OpenedLasts(s.opens, Opening(s'.epoch, s'.mode), s.audio.ticket.epoch, s.audio.ticket.mode);
      }
      forall k | 0 <= k < |s.tasks|
        ensures Opened(s'.opens, s.tasks[k].ticket.epoch, s.tasks[k].ticket.mode)
      {
        OpenedLasts(s.opens, Opening(s'.epoch, s'.mode), s.tasks[k].ticket.epoch, s.tasks[k].ticket.mode);
      }
    }
  }

  lemma SessionByAudio(c: Config, s: State, step: AudioStep)
    requires InvSession(s) && AudioEnabled(s, step)
    ensures InvSession(ApplyAudio(c, s, step))
  {
    var s' := ApplyAudio(c, s, step);
    AudioFrame(c, s, step);
    AudioTasks(c, s, step);
    assert HasTicket(s'.audio) ==> Opened(s.opens, s'.audio.ticket.epoch, s'.audio.ticket.mode);
  }

  lemma SessionByTask(s: State, k: nat, step: TaskStep)
    requires InvSession(s) && TaskEnabled(s, k, step)
    ensures InvSession(ApplyTask(s, k, step))
  {
    TaskFrame(s, k, step);
  }

  // ================================================================ capture

  lemma CaptureByControl(c: Config, s: State, t: nat, step: ControlStep)
    requires InvCapture(s) && ControlEnabled(c, s, t, step) && c.onDemand
    ensures InvCapture(ApplyControl(c, s, t, step))
  {
    var s' := ApplyControl(c, s, t, step);
    ControlFrame(c, s, t, step);
    assert forall u :: 0 <= u < |s.ops| && u != t ==> s'.ops[u] == s.ops[u];
    assert step.OpenRegion? && s'.ops[t] != Done ==> OpenerWaiting(s'.ops[t]) && OpenerPending(s'.ops[t]);
    assert step.CloseRegion? || step.Rollback? ==> s'.ops[t].Syncing? && StopPending(s'.ops[t]);
    assert step.SyncRead? && OpenerWaiting(s.ops[t]) && s.open ==> OpenerPending(s'.ops[t]);
    assert step.SyncRead? && !s.open ==> StopPending(s'.ops[t]);
  }

  /** Threads that wait for a flush take no part in reconciling capture. */
  lemma ReconcilesFramed(ops: seq<Op>, t: nat, op: Op, open: bool, running: bool)
    requires Reconciles(ops, open, running)
    requires t < |ops| && ops[t].Flushing? && op.CloseCommit?
    ensures Reconciles(ops[t := op], open, running)
  {
    assert forall u :: 0 <= u < |ops| && u != t ==> ops[t := op][u] == ops[u];
  }

  lemma CaptureByAudio(c: Config, s: State, step: AudioStep)
    requires InvCapture(s) && AudioEnabled(s, step)
    ensures InvCapture(ApplyAudio(c, s, step))
  {
    AudioFrame(c, s, step);
    var s' := ApplyAudio(c, s, step);
    if s'.ops != s.ops {
      var t := AnsweredThread(c, s, step);
      ReconcilesFramed(s.ops, t, s'.ops[t], s.open, s.running);
    }
  }

  /** The audio goroutine touches a control thread only to answer its flush. */
  lemma AnsweredThread(c: Config, s: State, step: AudioStep) returns (t: nat)
    requires AudioEnabled(s, step) && ApplyAudio(c, s, step).ops != s.ops
    ensures t < |s.ops| && s.ops[t].Flushing?
    ensures ApplyAudio(c, s, step).ops == s.ops[t := CloseCommit(s.ops[t].epoch)]
  {
    t := if step.ServeFlush? then step.t else s.audio.reply.value;
  }

  lemma CaptureByBegin(ops: seq<Op>, op: Op, open: bool, running: bool)
    requires Reconciles(ops, open, running) && (op.OpenEntry? || op.CloseEntry?)
    ensures Reconciles(ops + [op], open, running)
  {
    assert forall u :: 0 <= u < |ops| ==> (ops + [op])[u] == ops[u];
  }
}
