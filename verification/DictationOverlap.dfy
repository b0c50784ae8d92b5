/** What overlapping opens and closes do to one another, and to the audio a close flushes. */
module DictationOverlap {
  import opened Common
  import opened DictationMachine
  import opened DictationInvariants
  import opened DictationQueue
  import opened DictationTheorems

  // ================================================= which epoch a thread means

  /** An open or a close in progress remembers an epoch that is past or present. */
  predicate PastOrPresent(op: Op, epoch: nat) {
    && (op.Flushing? || op.CloseCommit? || op.RollingBack? || op.Spawning? ==> op.epoch <= epoch)
    && ((op.Syncing? || op.Holding?) && op.why.Opener? ==> op.why.epoch <= epoch)
  }

  ghost predicate KnowsItsEpoch(s: State) {
    forall t :: 0 <= t < |s.ops| ==> PastOrPresent(s.ops[t], s.epoch)
  }

  lemma OpKnows(c: Config, s: State, t: nat, step: ControlStep)
    requires ControlEnabled(c, s, t, step) && PastOrPresent(s.ops[t], s.epoch)
    ensures var s' := ApplyControl(c, s, t, step); PastOrPresent(s'.ops[t], s'.epoch)
  {
  }

  lemma ControlKnows(c: Config, s: State, t: nat, step: ControlStep)
    requires KnowsItsEpoch(s) && ControlEnabled(c, s, t, step)
    ensures KnowsItsEpoch(ApplyControl(c, s, t, step))
  {
    ControlFrame(c, s, t, step);
    OpKnows(c, s, t, step);
  }

  lemma KnowsItsEpochKept(c: Config, s: State, step: Step)
    requires KnowsItsEpoch(s) && Enabled(c, s, step)
    ensures KnowsItsEpoch(Apply(c, s, step))
  {
    match step
    case Control(t, control) => ControlKnows(c, s, t, control);
    case Air(air) => AnswerKnows(c, s, air);
    case Pool(k, pool) => TaskFrame(s, k, pool);
    case Work(work) => WorkerFrame(s, work);
    case _ =>
  }

  lemma AnswerKnows(c: Config, s: State, step: AudioStep)
    requires KnowsItsEpoch(s) && AudioEnabled(s, step)
    ensures KnowsItsEpoch(ApplyAudio(c, s, step))
  {
    AudioFrame(c, s, step);
    if ApplyAudio(c, s, step).ops != s.ops { var t := AnsweredThread(c, s, step); }
  }

  lemma {:induction false} RunKnowsItsEpoch(c: Config, s: State, steps: seq<Step>, s': State)
    requires KnowsItsEpoch(s) && Reaches(c, s, steps, s')
    ensures KnowsItsEpoch(s')
    decreases |steps|
  {
    if steps != [] {
      KnowsItsEpochKept(c, s, steps[0]);
      RunKnowsItsEpoch(c, Apply(c, s, steps[0]), steps[1..], s');
    }
  }

  // ==================================== operations that end somebody else's session

  /** A step that closes whatever session is open: a close commits, or a failed open rolls back. */
  predicate EndsSession(step: ControlStep) {
    step.CloseRegion? || step.Rollback?
  }

  /** Thread t's step ends a session opened after the one the thread set out to end. */
  ghost predicate EndsAnother(c: Config, s: State, t: nat, step: ControlStep)
    requires ControlEnabled(c, s, t, step) && EndsSession(step)
  {
    && s.open && !ApplyControl(c, s, t, step).open
    && exists i :: 0 <= i < |s.opens| && s.opens[i] == Opening(s.epoch, s.mode) && s.opens[i].epoch > s.ops[t].epoch
  }

  /**
   rollbackOpen is meant to undo its own open, and close to close the session it
   has flushed.  Either ends another one exactly when something is open and the
   epoch is no longer the one the thread remembers.
   */
  lemma EndsAnotherIff(c: Config, s: State, t: nat, step: ControlStep)
    requires Reachable(c, s) && ControlEnabled(c, s, t, step) && EndsSession(step)
    ensures EndsAnother(c, s, t, step) <==> s.open && s.epoch != s.ops[t].epoch
  {
    ReachableInv(c, s);
    var steps :| Reaches(c, Init(c), steps, s);
    RunKnowsItsEpoch(c, Init(c), steps, s);
  }

  // ------------------------------------------------------------ building runs

  /** One more step of a run. */
  lemma Go(c: Config, s: State, step: Step) returns (s': State)
    requires Reachable(c, s) && Enabled(c, s, step)
    ensures s' == Apply(c, s, step) && Reachable(c, s')
  {
    s' := Apply(c, s, step);
    ReachableStep(c, s, step);
  }

  lemma Begun(c: Config) returns (s: State)
    ensures s == Init(c) && Reachable(c, s)
  {
    s := Init(c);
    ReachableInit(c);
  }

  /** Thread t takes its operation through syncAudio. */
  lemma GoSync(c: Config, s: State, t: nat) returns (s': State)
    requires Reachable(c, s) && c.onDemand && AudioMuFree(s) && s.audio.Quiet?
    requires t < |s.ops| && s.ops[t].Syncing?
    ensures Reachable(c, s') && AudioMuFree(s')
    ensures s' == s.(running := s.open, held := if s.open then s.held else [],
                     ops := s.ops[t := AfterSync(s.ops[t].why, true)])
  {
    s' := Go(c, s, Control(t, SyncRead));
    s' := Go(c, s', Control(t, SyncAct(true)));
  }

  /** A new thread opens a session. */
  lemma GoOpen(c: Config, s: State, target: Mode) returns (s': State)
    requires Reachable(c, s) && c.onDemand && AudioMuFree(s) && s.audio.Quiet?
    requires !s.open && target != NoMode
    ensures Reachable(c, s') && AudioMuFree(s')
    ensures s' == s.(mode := target, open := true, epoch := s.epoch + 1,
                     opens := s.opens + [Opening(s.epoch + 1, target)], running := true,
                     ops := s.ops + [if target == ClipMode then Spawning(s.epoch + 1) else Done])
  {
    s' := Go(c, s, BeginOpen(target));
    s' := Go(c, s', Control(|s.ops|, OpenRegion));
    s' := GoSync(c, s', |s.ops|);
  }

  /** A new thread begins to close the session, and waits for its flush. */
  lemma GoFlush(c: Config, s: State) returns (s': State)
    requires Reachable(c, s) && s.open
    ensures Reachable(c, s') && s' == s.(ops := s.ops + [Flushing(s.epoch)])
  {
    s' := Go(c, s, BeginClose);
    s' := Go(c, s', Control(|s.ops|, CloseCheck));
  }

  /** Thread t, which waits for its flush no longer, closes the session. */
  lemma GoClose(c: Config, s: State, t: nat) returns (s': State)
    requires Reachable(c, s) && c.onDemand && AudioMuFree(s) && s.audio.Quiet?
    requires t < |s.ops| && s.ops[t].CloseCommit?
    ensures Reachable(c, s') && AudioMuFree(s')
    ensures s' == s.(mode := NoMode, open := false, running := false, held := [], ops := s.ops[t := Done])
  {
    s' := Go(c, s, Control(t, CloseRegion));
    s' := GoSync(c, s', t);
  }

  // --------------------------------------------------------------- it happens

  /**
   A clip session is closed while its panel is still starting, a type session
   opens, the panel then fails to start, and its rollback ends the type session.
   */
  lemma RollbackCanEndAnother(c: Config) returns (s: State)
    requires c.onDemand
    ensures Reachable(c, s) && ControlEnabled(c, s, 0, Rollback) && EndsAnother(c, s, 0, Rollback)
    ensures s.mode == TypeMode && s.running && s.ops == [RollingBack(1), Done, Done]
  {
    s := Begun(c);
    s := GoOpen(c, s, ClipMode);
    s := GoFlush(c, s);
    s := Go(c, s, Control(1, FlushGiveUp));
    s := GoClose(c, s, 1);
    s := GoOpen(c, s, TypeMode);
    s := Go(c, s, Control(0, Spawn(false)));
    EndsAnotherIff(c, s, 0, Rollback);
  }

  /** Two threads are closing the type session of epoch 1. */
  lemma TwoClosing(c: Config) returns (s: State)
    requires c.onDemand
    ensures Reachable(c, s) && AudioMuFree(s) && s.ops == [Done, Flushing(1), CloseCommit(1)]
    ensures s == Init(c).(mode := TypeMode, open := true, epoch := 1, opens := [Opening(1, TypeMode)],
                          running := true, ops := s.ops)
  {
    s := Begun(c);
    s := GoOpen(c, s, TypeMode);
    s := GoFlush(c, s);
    s := GoFlush(c, s);
    s := Go(c, s, Control(2, FlushGiveUp));
  }

  /** Of two closes one commits, a new session opens, and the other close then ends that one. */
  lemma CloseCanEndAnother(c: Config) returns (s: State)
    requires c.onDemand
    ensures Reachable(c, s) && ControlEnabled(c, s, 1, CloseRegion) && EndsAnother(c, s, 1, CloseRegion)
    ensures s.mode == TypeMode && s.running && s.ops == [Done, CloseCommit(1), Done, Done]
  {
    s := TwoClosing(c);
    s := GoClose(c, s, 2);
    s := GoOpen(c, s, TypeMode);
    s := Go(c, s, Control(1, FlushGiveUp));
    EndsAnotherIff(c, s, 1, CloseRegion);
  }

  // ======================================================= the flush of a close

  /** Job j holds this audio and belongs to epoch e. */
  predicate JobHolds(s: State, j: nat, pcm: Pcm, e: nat) {
    j < |s.jobs| && s.jobs[j].pcm == pcm && s.jobs[j].epoch == e
  }

  /** The loop is still on its way from thread t's flush to the queue. */
  predicate Unqueued(a: Audio, t: nat) {
    (a.Heard? || a.Slot?) && a.reply == Some(t)
  }

  /** Thread t's flush is with the audio goroutine, or over for good; so it is as soon as it is served. */
  predicate ServedOnce(s: State, t: nat) {
    && t < |s.ops| && !s.ops[t].CloseEntry?
    && (s.ops[t].Flushing? ==> !s.audio.Quiet? && s.audio.reply == Some(t))
  }

  lemma ServedOnceByAudio(c: Config, s: State, step: AudioStep, t: nat)
    requires AudioEnabled(s, step) && ServedOnce(s, t)
    ensures ServedOnce(ApplyAudio(c, s, step), t)
  {
    AudioFrame(c, s, step);
    if ApplyAudio(c, s, step).ops != s.ops { var u := AnsweredThread(c, s, step); }
  }

  lemma ServedOnceKept(c: Config, s: State, step: Step, t: nat)
    requires Enabled(c, s, step) && ServedOnce(s, t)
    ensures ServedOnce(Apply(c, s, step), t)
  {
    match step
    case Control(u, control) => ControlFrame(c, s, u, control);
    case Air(air) => ServedOnceByAudio(c, s, air, t);
    case Pool(k, pool) => TaskFrame(s, k, pool);
    case Work(work) => WorkerFrame(s, work);
    case _ =>
  }

  /** A flush that has been served is never served again: its thread waits for that one answer, or no longer. */
  lemma {:induction false} FlushServedOnce(c: Config, s: State, steps: seq<Step>, s': State, t: nat)
    requires ServedOnce(s, t) && Reaches(c, s, steps, s')
    ensures ServedOnce(s', t) && forall gate :: !AudioEnabled(s', ServeFlush(t, gate))
    decreases |steps|
  {
    if steps != [] {
      ServedOnceKept(c, s, steps[0], t);
      FlushServedOnce(c, Apply(c, s, steps[0]), steps[1..], s', t);
    }
  }

  // --------------------------------------------- before OnUtterance reads the session

  /** The flushed audio is in OnUtterance's hands, with the queue as long as n jobs made it. */
  predicate FlushHeard(s: State, t: nat, pcm: Pcm, n: nat) {
    && ServedOnce(s, t) && s.audio == Heard(pcm, Some(t))
    && |s.jobs| == n && |s.queue| < QUEUE_CAP
  }

  lemma FlushHeardKept(c: Config, s: State, step: Step, t: nat, pcm: Pcm, n: nat)
    requires Enabled(c, s, step) && FlushHeard(s, t, pcm, n) && step != Air(UtteranceRead)
    ensures FlushHeard(Apply(c, s, step), t, pcm, n)
  {
    ServedOnceKept(c, s, step, t);
    match step
    case Control(u, control) => ControlFrame(c, s, u, control);
    case Pool(k, pool) => TaskFrame(s, k, pool);
    case Work(work) => WorkerFrame(s, work);
    case _ =>
  }

  lemma {:induction false} FlushStaysHeard(c: Config, s: State, steps: seq<Step>, s': State, t: nat, pcm: Pcm, n: nat)
    requires Reaches(c, s, steps, s') && FlushHeard(s, t, pcm, n)
    requires forall i :: 0 <= i < |steps| ==> steps[i] != Air(UtteranceRead)
    ensures FlushHeard(s', t, pcm, n)
    decreases |steps|
  {
    if steps != [] {
      FlushHeardKept(c, s, steps[0], t, pcm, n);
      FlushStaysHeard(c, Apply(c, s, steps[0]), steps[1..], s', t, pcm, n);
    }
  }

  // ------------------------------------------------ the session was still the right one

  /** The flushed audio has been claimed for epoch e, and is on its way into job n or there. */
  predicate FlushClaimed(s: State, t: nat, pcm: Pcm, e: nat, n: nat) {
    && ServedOnce(s, t)
    && if Unqueued(s.audio, t) then
         s.audio == Slot(pcm, Ticket(TypeMode, e, None), Some(t)) && |s.jobs| == n && |s.queue| < QUEUE_CAP
       else JobHolds(s, n, pcm, e)
  }

  lemma FlushClaimedByAudio(c: Config, s: State, step: AudioStep, t: nat, pcm: Pcm, e: nat, n: nat)
    requires AudioEnabled(s, step) && FlushClaimed(s, t, pcm, e, n)
    ensures FlushClaimed(ApplyAudio(c, s, step), t, pcm, e, n)
  {
    ServedOnceKept(c, s, Air(step), t);
    if Unqueued(s.audio, t) {
      assert step.Enqueue? && ApplyAudio(c, s, step).jobs[n] == Job(e, pcm, "", 0);
    } else {
      AudioJobs(c, s, step);
    }
  }

  lemma FlushClaimedKept(c: Config, s: State, step: Step, t: nat, pcm: Pcm, e: nat, n: nat)
    requires Enabled(c, s, step) && FlushClaimed(s, t, pcm, e, n)
    ensures FlushClaimed(Apply(c, s, step), t, pcm, e, n)
  {
    ServedOnceKept(c, s, step, t);
    match step
    case Control(u, control) => ControlFrame(c, s, u, control);
    case Air(air) => FlushClaimedByAudio(c, s, air, t, pcm, e, n);
    case Pool(k, pool) => TaskFrame(s, k, pool);
    case Work(work) => WorkerFrame(s, work);
    case _ =>
  }

  lemma {:induction false} FlushLands(c: Config, s: State, steps: seq<Step>, s': State, t: nat, pcm: Pcm, e: nat, n: nat)
    requires Reaches(c, s, steps, s') && FlushClaimed(s, t, pcm, e, n)
    ensures FlushClaimed(s', t, pcm, e, n)
    decreases |steps|
  {
    if steps != [] {
      FlushClaimedKept(c, s, steps[0], t, pcm, e, n);
      FlushLands(c, Apply(c, s, steps[0]), steps[1..], s', t, pcm, e, n);
    }
  }

  // ------------------------------------------------- the session had moved on

  /** No type session of epoch e is live, nobody holds a ticket of one, and none of the jobs from n on is of it. */
  predicate Missed(s: State, e: nat, n: nat) {
    && e <= s.epoch && !(s.open && s.mode == TypeMode && s.epoch == e)
    && (s.audio.Slot? ==> !(s.audio.ticket.mode == TypeMode && s.audio.ticket.epoch == e))
    && forall j :: n <= j < |s.jobs| ==> s.jobs[j].epoch != e
  }

  lemma MissedByAudio(c: Config, s: State, step: AudioStep, e: nat, n: nat)
    requires AudioEnabled(s, step) && Missed(s, e, n)
    ensures Missed(ApplyAudio(c, s, step), e, n)
  {
    AudioFrame(c, s, step);
    if !step.Enqueue? { AudioJobs(c, s, step); }
  }

  lemma MissedKept(c: Config, s: State, step: Step, e: nat, n: nat)
    requires Enabled(c, s, step) && Missed(s, e, n)
    ensures Missed(Apply(c, s, step), e, n)
  {
    match step
    case Control(u, control) => ControlFrame(c, s, u, control);
    case Air(air) => MissedByAudio(c, s, air, e, n);
    case Pool(k, pool) => TaskFrame(s, k, pool);
    case Work(work) => WorkerFrame(s, work);
    case _ =>
  }

  lemma {:induction false} MissedForever(c: Config, s: State, steps: seq<Step>, s': State, e: nat, n: nat)
    requires Reaches(c, s, steps, s') && Missed(s, e, n)
    ensures Missed(s', e, n)
    decreases |steps|
  {
    if steps != [] {
      MissedKept(c, s, steps[0], e, n);
      MissedForever(c, Apply(c, s, steps[0]), steps[1..], s', e, n);
    }
  }

  // ---------------------------------------------------------------- the theorem

  /** The loop serves thread t's flush in s, the gate passes, and r is where OnUtterance reads the session. */
  predicate ServedUntilRead(c: Config, s: State, t: nat, pre: seq<Step>, r: State) {
    && AudioEnabled(s, ServeFlush(t, true)) && s.held != []
    && Reaches(c, ApplyAudio(c, s, ServeFlush(t, true)), pre, r)
    && forall i :: 0 <= i < |pre| ==> pre[i] != Air(UtteranceRead)
  }

  /** The session of epoch e is open and types. */
  predicate TypesIn(s: State, e: nat) {
    s.open && s.mode == TypeMode && s.epoch == e
  }

  /**
   With room in the queue the audio a close flushes becomes a job of the closing
   epoch exactly when that session is still open, in type mode, at the moment
   OnUtterance reads it; what happens before or after does not matter, not even
   whether the closing thread still waits.
   */
  lemma {:induction false} FlushBecomesJobIff(c: Config, s: State, t: nat, pre: seq<Step>, r: State, post: seq<Step>, s': State)
    requires Reachable(c, s) && |s.queue| < QUEUE_CAP && ServedUntilRead(c, s, t, pre, r)
    requires post != [] && post[0] == Air(UtteranceRead) && Reaches(c, r, post, s')
    requires !Unqueued(s'.audio, t)
    ensures JobHolds(s', |s.jobs|, s.held, s.ops[t].epoch) <==> TypesIn(r, s.ops[t].epoch)
  {
    var e, n := s.ops[t].epoch, |s.jobs|;
    FlushStaysHeard(c, ApplyAudio(c, s, ServeFlush(t, true)), pre, r, t, s.held, n);
    var claimed := ApplyAudio(c, r, UtteranceRead);
    ServedOnceKept(c, r, post[0], t);
    if TypesIn(r, e) {
      FlushLands(c, claimed, post[1..], s', t, s.held, e, n);
    } else {
      ClosesPastOrPresent(c, s, t);
      EpochsOnlyGrow(c, ApplyAudio(c, s, ServeFlush(t, true)), pre, r);
      MissedForever(c, claimed, post[1..], s', e, n);
    }
  }

  lemma ClosesPastOrPresent(c: Config, s: State, t: nat)
    requires Reachable(c, s) && t < |s.ops| && s.ops[t].Flushing?
    ensures s.ops[t].epoch <= s.epoch
  {
    var steps :| Reaches(c, Init(c), steps, s);
    RunKnowsItsEpoch(c, Init(c), steps, s);
  }

  /** Until OnUtterance has read the session, it stays as it is in `live`. */
  predicate KeptWhileHeard(c: Config, s: State, steps: seq<Step>, live: State)
    decreases |steps|
  {
    s.audio.Heard? ==>
      && s.open == live.open && s.mode == live.mode && s.epoch == live.epoch
      && (steps != [] ==> Enabled(c, s, steps[0]) && KeptWhileHeard(c, Apply(c, s, steps[0]), steps[1..], live))
  }

  lemma {:induction false} SplitAtRead(c: Config, s: State, steps: seq<Step>, s': State, live: State, t: nat, pcm: Pcm, n: nat)
    returns (pre: seq<Step>, r: State, post: seq<Step>)
    requires Reaches(c, s, steps, s') && FlushHeard(s, t, pcm, n) && !Unqueued(s'.audio, t)
    requires KeptWhileHeard(c, s, steps, live)
    ensures Reaches(c, s, pre, r) && forall i :: 0 <= i < |pre| ==> pre[i] != Air(UtteranceRead)
    ensures post != [] && post[0] == Air(UtteranceRead) && Reaches(c, r, post, s')
    ensures r.open == live.open && r.mode == live.mode && r.epoch == live.epoch
    decreases |steps|
  {
    if steps[0] == Air(UtteranceRead) {
      pre, r, post := [], s, steps;
    } else {
      FlushHeardKept(c, s, steps[0], t, pcm, n);
      var rest;
      rest, r, post := SplitAtRead(c, Apply(c, s, steps[0]), steps[1..], s', live, t, pcm, n);
      pre := [steps[0]] + rest;
      assert pre[1..] == rest;
    }
  }

  /**
   So a close whose flush is served turns the audio the loop still held into the
   next job of the closing epoch, if the gate passes, the queue has room, and the
   session stays put until OnUtterance has read it.
   */
  lemma FlushBecomesJob(c: Config, s: State, steps: seq<Step>, s': State, t: nat)
    requires Reachable(c, s) && |s.queue| < QUEUE_CAP && s.audio.Quiet? && s.held != []
    requires t < |s.ops| && s.ops[t] == Flushing(s.epoch) && s.open && s.mode == TypeMode
    requires steps != [] && steps[0] == Air(ServeFlush(t, true)) && Reaches(c, s, steps, s')
    requires KeptWhileHeard(c, Apply(c, s, steps[0]), steps[1..], s) && !Unqueued(s'.audio, t)
    ensures JobHolds(s', |s.jobs|, s.held, s.epoch)
  {
    var served := Apply(c, s, steps[0]);
    var pre, r, post := SplitAtRead(c, served, steps[1..], s', s, t, s.held, |s.jobs|);
    FlushBecomesJobIff(c, s, t, pre, r, post, s');
  }

  // ------------------------------------------- an utterance that ends by itself

  /** An utterance on its way to OnUtterance's read of the session. */
  predicate UtteranceHeard(s: State, pcm: Pcm, n: nat) {
    s.audio == Heard(pcm, None) && |s.jobs| == n && |s.queue| < QUEUE_CAP
  }

  lemma UtteranceHeardKept(c: Config, s: State, step: Step, pcm: Pcm, n: nat)
    requires Enabled(c, s, step) && UtteranceHeard(s, pcm, n) && step != Air(UtteranceRead)
    ensures UtteranceHeard(Apply(c, s, step), pcm, n)
  {
    match step
    case Control(u, control) => ControlFrame(c, s, u, control);
    case Pool(k, pool) => TaskFrame(s, k, pool);
    case Work(work) => WorkerFrame(s, work);
    case _ =>
  }

  lemma {:induction false} UtteranceStaysHeard(c: Config, s: State, steps: seq<Step>, s': State, pcm: Pcm, n: nat)
    requires Reaches(c, s, steps, s') && UtteranceHeard(s, pcm, n)
    requires forall i :: 0 <= i < |steps| ==> steps[i] != Air(UtteranceRead)
    ensures UtteranceHeard(s', pcm, n)
    decreases |steps|
  {
    if steps != [] {
      UtteranceHeardKept(c, s, steps[0], pcm, n);
      UtteranceStaysHeard(c, Apply(c, s, steps[0]), steps[1..], s', pcm, n);
    }
  }

  /** It has been claimed for epoch e, and waits to be queued. */
  predicate UtteranceClaimed(s: State, pcm: Pcm, e: nat, n: nat) {
    s.audio == Slot(pcm, Ticket(TypeMode, e, None), None) && |s.jobs| == n && |s.queue| < QUEUE_CAP
  }

  lemma UtteranceClaimedKept(c: Config, s: State, step: Step, pcm: Pcm, e: nat, n: nat)
    requires Enabled(c, s, step) && UtteranceClaimed(s, pcm, e, n)
    ensures if step == Air(Enqueue) then JobHolds(Apply(c, s, step), n, pcm, e)
            else UtteranceClaimed(Apply(c, s, step), pcm, e, n)
  {
    match step
    case Control(u, control) => ControlFrame(c, s, u, control);
    case Air(air) => assert air.Enqueue? && ApplyAudio(c, s, air).jobs[n] == Job(e, pcm, "", 0);
    case Pool(k, pool) => TaskFrame(s, k, pool);
    case Work(work) => WorkerFrame(s, work);
    case _ =>
  }

  lemma {:induction false} UtteranceLands(c: Config, s: State, steps: seq<Step>, s': State, pcm: Pcm, e: nat, n: nat)
    requires Inv(c, s) && Reaches(c, s, steps, s') && UtteranceClaimed(s, pcm, e, n)
    requires exists i :: 0 <= i < |steps| && steps[i] == Air(Enqueue)
    ensures JobHolds(s', n, pcm, e)
    decreases |steps|
  {
    UtteranceClaimedKept(c, s, steps[0], pcm, e, n);
    StepKeepsInv(c, s, steps[0]);
    if steps[0] == Air(Enqueue) {
      ResolvedForever(c, Apply(c, s, steps[0]), steps[1..], s');
    } else {
      var i :| 0 <= i < |steps| && steps[i] == Air(Enqueue);
      assert steps[1..][i - 1] == Air(Enqueue);
      UtteranceLands(c, Apply(c, s, steps[0]), steps[1..], s', pcm, e, n);
    }
  }

  /** In s an utterance ends and passes the gate, and r is where OnUtterance reads the session. */
  predicate EndsUntilRead(c: Config, s: State, pre: seq<Step>, r: State) {
    && AudioEnabled(s, Emit(true))
    && Reaches(c, ApplyAudio(c, s, Emit(true)), pre, r)
    && forall i :: 0 <= i < |pre| ==> pre[i] != Air(UtteranceRead)
  }

  /**
   With room in the queue an utterance ended by silence becomes the next job, of
   the epoch that is live when OnUtterance reads the session, exactly when a type
   session is open then.
   */
  lemma {:induction false} UtteranceBecomesJobIff(c: Config, s: State, pre: seq<Step>, r: State, post: seq<Step>, s': State)
    requires Reachable(c, s) && |s.queue| < QUEUE_CAP && EndsUntilRead(c, s, pre, r)
    requires post != [] && post[0] == Air(UtteranceRead) && Reaches(c, r, post, s')
    requires r.open ==> exists i :: 0 < i < |post| && post[i] == Air(Enqueue)
    ensures JobHolds(s', |s.jobs|, s.held, r.epoch) <==> r.open && r.mode == TypeMode
  {
    var ended, claimed := ApplyAudio(c, s, Emit(true)), Apply(c, r, post[0]);
    UtteranceStaysHeard(c, ended, pre, r, s.held, |s.jobs|);
    ReadClaimsOrMisses(c, r, s.held, |s.jobs|);
    if r.open && r.mode == TypeMode {
      ReachableStep(c, s, Air(Emit(true)));
      ReachableRun(c, ended, pre, r);
      ReachableStep(c, r, post[0]);
      ReachableInv(c, claimed);
      var i :| 0 < i < |post| && post[i] == Air(Enqueue);
      assert post[1..][i - 1] == Air(Enqueue);
      UtteranceLands(c, claimed, post[1..], s', s.held, r.epoch, |s.jobs|);
    } else {
      MissedForever(c, claimed, post[1..], s', r.epoch, |s.jobs|);
    }
  }

  lemma ReadClaimsOrMisses(c: Config, r: State, pcm: Pcm, n: nat)
    requires UtteranceHeard(r, pcm, n)
    ensures var claimed := Apply(c, r, Air(UtteranceRead));
      if r.open && r.mode == TypeMode then UtteranceClaimed(claimed, pcm, r.epoch, n) else Missed(claimed, r.epoch, n)
  {
  }

  // --------------------------------------------------------------- it happens

  /** Two threads are closing epoch 1, the loop holds audio, and there is room in the queue. */
  lemma HeldWhileClosing(c: Config, pcm: Pcm) returns (s: State)
    requires c.onDemand && pcm != []
    ensures Reachable(c, s) && TypesIn(s, 1) && s.ops == [Done, Flushing(1), CloseCommit(1)]
    ensures s.held == pcm && s.audio.Quiet? && s.jobs == [] && s.queue == []
  {
    s := TwoClosing(c);
    s := Go(c, s, Air(Hear(pcm)));
  }

  /**
   One close's flush is served with the gate passed and the queue empty, the
   other close commits, and the flushed audio is dropped.
   */
  lemma FlushCanBeLost(c: Config, pcm: Pcm) returns (s: State, pre: seq<Step>, r: State, s': State)
    requires c.onDemand && pcm != []
    ensures Reachable(c, s) && s.held == pcm && s.queue == [] && TypesIn(s, 1)
    ensures s.ops == [Done, Flushing(1), CloseCommit(1)]
    ensures ServedUntilRead(c, s, 1, pre, r) && AudioEnabled(r, UtteranceRead)
    ensures s' == ApplyAudio(c, r, UtteranceRead) && s'.jobs == [] && s'.audio.Quiet? && s'.held == []
  {
    s := HeldWhileClosing(c, pcm);
    var served := ApplyAudio(c, s, ServeFlush(1, true));
    pre := [Control(2, CloseRegion)];
    r := Apply(c, served, pre[0]);
    assert pre[1..] == [];
    s' := ApplyAudio(c, r, UtteranceRead);
  }

  /** The other close commits and a new session opens: the flushed audio becomes a job of the new epoch. */
  lemma FlushCanChangeEpoch(c: Config, pcm: Pcm) returns (s: State, pre: seq<Step>, r: State, s': State)
    requires c.onDemand && pcm != []
    ensures Reachable(c, s) && s.held == pcm && s.queue == [] && TypesIn(s, 1)
    ensures s.ops == [Done, Flushing(1), CloseCommit(1)]
    ensures ServedUntilRead(c, s, 1, pre, r) && Reaches(c, r, [Air(UtteranceRead), Air(Enqueue)], s')
    ensures s'.jobs == [Job(2, pcm, "", 0)]
  {
    s := HeldWhileClosing(c, pcm);
    var served := ApplyAudio(c, s, ServeFlush(1, true));
    pre, r := ReopenedBy(c, served);
    var slot := ApplyAudio(c, r, UtteranceRead);
    s' := ApplyAudio(c, slot, Enqueue);
    var post := [Air(UtteranceRead), Air(Enqueue)];
    assert post[1..] == [Air(Enqueue)] && post[1..][1..] == [];
  }

  /** Thread 2 commits its close, and thread 3 opens a new type session. */
  lemma ReopenedBy(c: Config, s: State) returns (steps: seq<Step>, s': State)
    requires |s.ops| == 3 && s.ops[2].CloseCommit?
    ensures Reaches(c, s, steps, s') && forall i :: 0 <= i < |steps| ==> steps[i] != Air(UtteranceRead)
    ensures s' == s.(mode := TypeMode, open := true, epoch := s.epoch + 1,
                     opens := s.opens + [Opening(s.epoch + 1, TypeMode)], ops := s'.ops)
  {
    steps := [Control(2, CloseRegion), BeginOpen(TypeMode), Control(3, OpenRegion)];
    var s1 := Apply(c, s, steps[0]);
    var s2 := Apply(c, s1, steps[1]);
    s' := Apply(c, s2, steps[2]);
    assert steps[1..] == [steps[1], steps[2]] && steps[1..][1..] == [steps[2]] && steps[1..][1..][1..] == [];
  }
}
