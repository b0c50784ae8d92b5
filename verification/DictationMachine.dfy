/**
 The dictation session as a step system: cmd/dictad/session.go together with
 the transcription pool of cmd/dictad/asrmonitor.go.

 Every mutex-held region (and every channel operation) of the source is one
 step; any thread may take a step between two steps of another.  Control
 threads (hotkey, mute watcher, idle timer, panel, capture loss) all reduce to
 calls of `open_` and `close`, so the machine lets either begin at any moment.
 */
module DictationMachine {
  import opened Common

  datatype Mode = NoMode | TypeMode | ClipMode

  /** onDemand: SetAudioLifecycle was called; maxConcurrent: the inflight bound. */
  datatype Config = Config(onDemand: bool, maxConcurrent: nat)

  /** The buffer of typeQueue. */
  const QUEUE_CAP: nat := 8

  /** One successful transition to open, as history. */
  datatype Opening = Opening(epoch: nat, mode: Mode)

  /** A typeJob: `closes` counts the close(job.ready) calls made so far. */
  datatype Job = Job(epoch: nat, pcm: Pcm, text: string, closes: nat)

  /** Why a control thread is reconciling capture. */
  datatype Purpose = Opener(target: Mode, epoch: nat) | Closer | Undo

  /** Program counter of one control operation. */
  datatype Op =
    | OpenEntry(target: Mode)
    | CloseEntry
    | Flushing(epoch: nat)
    | CloseCommit(epoch: nat)
    | Syncing(why: Purpose)                 // `open` changed, audioMu not yet taken
    | Holding(why: Purpose, wanted: bool)   // holds audioMu, has read `open`
    | Spawning(epoch: nat)
    | RollingBack(epoch: nat)
    | Done

  /** What OnUtterance captured under mu, and the queue slot it allocated. */
  datatype Ticket = Ticket(mode: Mode, epoch: nat, job: Option<nat>)

  /** Program counter of the audio goroutine. `reply` is a flush being served. */
  datatype Audio =
    | Quiet
    | Heard(pcm: Pcm, reply: Option<nat>)
    | Slot(pcm: Pcm, ticket: Ticket, reply: Option<nat>)
    | Submit(pcm: Pcm, ticket: Ticket, reply: Option<nat>)
    | Launch(pcm: Pcm, ticket: Ticket, reply: Option<nat>)

  /** Program counter of one transcribe goroutine. */
  datatype TaskPc =
    | Transcribing
    | Delivering(text: string)
    | Storing(text: string)
    | Closing
    | Skipping
    | Returning
    | Released

  datatype Task = Task(ticket: Ticket, pc: TaskPc)

  /** Program counter of typeWorker. */
  datatype Worker =
    | Idle
    | Waiting(job: nat)
    | Checking(job: nat)
    | Typing(job: nat, payload: string)
    | Exited

  /** One finished call of typer.Type. */
  datatype TypeCall = TypeCall(job: nat, epoch: nat, payload: string, ok: bool)

  datatype State = State(
    mode: Mode, open: bool, epoch: nat, opens: seq<Opening>,
    running: bool, ops: seq<Op>,
    held: Pcm, audio: Audio,
    jobs: seq<Job>, queue: seq<nat>,
    tokens: nat, tasks: seq<Task>,
    worker: Worker, currentEpoch: nat, initialized: bool, typedInEpoch: nat,
    typed: seq<TypeCall>)
  {
    /** Number of jobs the worker has received from the queue. */
    function Taken(): int { |jobs| - |queue| }
  }

  function Init(c: Config): State {
    State(NoMode, false, 0, [], !c.onDemand, [], [], Quiet, [], [], 0, [],
          Idle, 0, false, 0, [])
  }

  /** Steps of a control operation: open_, close, rollbackOpen, syncAudio. */
  datatype ControlStep =
    | OpenRegion
    | CloseCheck
    | FlushGiveUp
    | CloseRegion
    | SyncSkip
    | SyncRead
    | SyncAct(ok: bool)
    | Spawn(ok: bool)
    | Rollback

  /** Steps of the audio goroutine. */
  datatype AudioStep =
    | Hear(pcm: Pcm)
    | Emit(gate: bool)
    | ServeFlush(t: nat, gate: bool)
    | UtteranceRead
    | Enqueue
    | AsrSubmit
    | AsrLaunch

  /** Steps of a transcribe goroutine. */
  datatype TaskStep =
    | Result(result: Option<string>)
    | Deliver
    | Store
    | CloseReady
    | Release

  /** Steps of typeWorker. */
  datatype WorkerStep =
    | Take
    | Ready
    | Check
    | Typed(ok: bool)
    | Exit

  datatype Step =
    | BeginOpen(target: Mode)
    | BeginClose
    | Control(t: nat, control: ControlStep)
    | Air(air: AudioStep)
    | Pool(k: nat, pool: TaskStep)
    | Work(work: WorkerStep)

  // ------------------------------------------------------- control threads

  predicate AudioMuFree(s: State) {
    forall u :: 0 <= u < |s.ops| ==> !s.ops[u].Holding?
  }

  predicate ControlEnabled(c: Config, s: State, t: nat, step: ControlStep) {
    && t < |s.ops|
    && match step
       case OpenRegion => s.ops[t].OpenEntry?
       case CloseCheck => s.ops[t].CloseEntry?
       case FlushGiveUp => s.ops[t].Flushing?
       case CloseRegion => s.ops[t].CloseCommit?
       case SyncSkip => !c.onDemand && s.ops[t].Syncing?
       case SyncRead => c.onDemand && s.ops[t].Syncing? && AudioMuFree(s)
       // Stop always succeeds and waits for the audio loop to exit; a start
       // can fail only when it really has to start something.
       case SyncAct(ok) =>
         && s.ops[t].Holding?
         && (if s.ops[t].wanted then s.running ==> ok else ok && (s.running ==> s.audio.Quiet?))
       case Spawn(ok) => s.ops[t].Spawning?
       case Rollback => s.ops[t].RollingBack?
  }

  function SetOp(s: State, t: nat, op: Op): State
    requires t < |s.ops|
  {
    s.(ops := s.ops[t := op])
  }

  /** What a thread does once syncAudio has returned to it. */
  function AfterSync(why: Purpose, ok: bool): Op {
    match why
    case Opener(target, epoch) =>
      if !ok then RollingBack(epoch) else if target == ClipMode then Spawning(epoch) else Done
    case Closer => Done
    case Undo => Done
  }

  function ApplyControl(c: Config, s: State, t: nat, step: ControlStep): State
    requires ControlEnabled(c, s, t, step)
  {
    match step
    case OpenRegion =>
      var target := s.ops[t].target;
      if s.open && s.mode == target then SetOp(s, t, Done)
      else s.(epoch := s.epoch + 1, mode := target, open := true,
              opens := s.opens + [Opening(s.epoch + 1, target)],
              ops := s.ops[t := Syncing(Opener(target, s.epoch + 1))])
    case CloseCheck => SetOp(s, t, if s.open then Flushing(s.epoch) else Done)
    case FlushGiveUp => SetOp(s, t, CloseCommit(s.ops[t].epoch))
    case CloseRegion => s.(mode := NoMode, open := false, ops := s.ops[t := Syncing(Closer)])
    case SyncSkip => SetOp(s, t, AfterSync(s.ops[t].why, true))
    case SyncRead => SetOp(s, t, Holding(s.ops[t].why, s.open))
    case SyncAct(ok) =>
      var wanted := s.ops[t].wanted;
      s.(running := wanted && (s.running || ok), held := if wanted then s.held else [],
         ops := s.ops[t := AfterSync(s.ops[t].why, ok)])
    case Spawn(ok) => SetOp(s, t, if ok then Done else RollingBack(s.ops[t].epoch))
    case Rollback =>
      s.(epoch := s.epoch + 1, mode := NoMode, open := false, ops := s.ops[t := Syncing(Undo)])
  }

  // ------------------------------------------------------- audio goroutine

  predicate AudioEnabled(s: State, step: AudioStep) {
    match step
    case Hear(pcm) => s.running && s.audio.Quiet?
    case Emit(gate) => s.audio.Quiet? && s.held != []
    case ServeFlush(t, gate) => s.audio.Quiet? && t < |s.ops| && s.ops[t].Flushing?
    case UtteranceRead => s.audio.Heard?
    case Enqueue => s.audio.Slot?
    case AsrSubmit => s.audio.Submit?
    case AsrLaunch => s.audio.Launch?
  }

  /** close(job.ready), when the utterance has a job. */
  function CloseJob(jobs: seq<Job>, job: Option<nat>): seq<Job> {
    if job.Some? && job.value < |jobs|
    then jobs[job.value := jobs[job.value].(closes := jobs[job.value].closes + 1)]
    else jobs
  }

  /** A thread waiting for the flush it asked for may go on. */
  function Answer(ops: seq<Op>, reply: Option<nat>): seq<Op> {
    if reply.Some? && reply.value < |ops| && ops[reply.value].Flushing?
    then ops[reply.value := CloseCommit(ops[reply.value].epoch)]
    else ops
  }

  /** The audio goroutine returns from OnUtterance, answering a flush. */
  function Finish(s: State, reply: Option<nat>): State {
    s.(audio := Quiet, ops := Answer(s.ops, reply))
  }

  /** The emit closure: a non-empty accumulator that passes the gate goes to OnUtterance. */
  function EmitHeld(s: State, gate: bool, reply: Option<nat>): State {
    if s.held != [] && gate then s.(held := [], audio := Heard(s.held, reply))
    else s.(held := [], audio := Quiet, ops := Answer(s.ops, reply))
  }

  function ApplyAudio(c: Config, s: State, step: AudioStep): State
    requires AudioEnabled(s, step)
  {
    match step
    case Hear(pcm) => s.(held := pcm)
    case Emit(gate) => EmitHeld(s, gate, None)
    case ServeFlush(t, gate) => EmitHeld(s, gate, Some(t))
    case UtteranceRead =>
      if !s.open || s.mode == NoMode then Finish(s, s.audio.reply)
      else s.(audio := Slot(s.audio.pcm, Ticket(s.mode, s.epoch, None), s.audio.reply))
    case Enqueue =>
      var a := s.audio;
      if a.ticket.mode != TypeMode then s.(audio := Submit(a.pcm, a.ticket, a.reply))
      else if |s.queue| < QUEUE_CAP then
        s.(jobs := s.jobs + [Job(a.ticket.epoch, a.pcm, "", 0)],
           queue := s.queue + [|s.jobs|],
           audio := Submit(a.pcm, a.ticket.(job := Some(|s.jobs|)), a.reply))
      else Finish(s, a.reply)
    case AsrSubmit =>
      var a := s.audio;
      if a.pcm == [] || s.tokens >= c.maxConcurrent
      then s.(jobs := CloseJob(s.jobs, a.ticket.job), audio := Quiet, ops := Answer(s.ops, a.reply))
      else s.(tokens := s.tokens + 1, audio := Launch(a.pcm, a.ticket, a.reply))
    case AsrLaunch =>
      s.(tasks := s.tasks + [Task(s.audio.ticket, Transcribing)],
         audio := Quiet, ops := Answer(s.ops, s.audio.reply))
  }

  // ------------------------------------------------- transcribe goroutines

  predicate TaskEnabled(s: State, k: nat, step: TaskStep) {
    && k < |s.tasks|
    && (s.tasks[k].ticket.job.Some? ==> s.tasks[k].ticket.job.value < |s.jobs|)
    && match step
       case Result(_) => s.tasks[k].pc.Transcribing?
       case Deliver => s.tasks[k].pc.Delivering?
       case Store => s.tasks[k].pc.Storing? && s.tasks[k].ticket.job.Some?
       case CloseReady => s.tasks[k].pc.Closing? || s.tasks[k].pc.Skipping?
       case Release => s.tasks[k].pc.Returning? && s.tokens > 0
  }

  function AtPc(tasks: seq<Task>, k: nat, pc: TaskPc): seq<Task>
    requires k < |tasks|
  {
    tasks[k := tasks[k].(pc := pc)]
  }

  function SetPc(s: State, k: nat, pc: TaskPc): State
    requires k < |s.tasks|
  {
    s.(tasks := AtPc(s.tasks, k, pc))
  }

  function ApplyTask(s: State, k: nat, step: TaskStep): State
    requires TaskEnabled(s, k, step)
  {
    var tk := s.tasks[k].ticket;
    match step
    case Result(result) =>
      SetPc(s, k, if result.Some? && result.value != "" then Delivering(result.value) else Skipping)
    case Deliver =>
      if s.epoch != tk.epoch || (s.mode != tk.mode && s.mode != NoMode) then SetPc(s, k, Skipping)
      else if tk.mode == TypeMode then SetPc(s, k, Storing(s.tasks[k].pc.text))
      else SetPc(s, k, Returning)
    case Store =>
      var j := tk.job.value;
      s.(jobs := s.jobs[j := s.jobs[j].(text := s.tasks[k].pc.text)], tasks := AtPc(s.tasks, k, Closing))
    case CloseReady => s.(jobs := CloseJob(s.jobs, tk.job), tasks := AtPc(s.tasks, k, Returning))
    case Release => s.(tokens := s.tokens - 1, tasks := AtPc(s.tasks, k, Released))
  }

  // ------------------------------------------------------------ the worker

  predicate WorkerEnabled(s: State, step: WorkerStep) {
    match step
    case Take => s.worker.Idle? && s.queue != [] && s.queue[0] < |s.jobs|
    case Ready => s.worker.Waiting? && s.worker.job < |s.jobs| && s.jobs[s.worker.job].closes > 0
    case Check => s.worker.Checking? && s.worker.job < |s.jobs|
    case Typed(ok) => s.worker.Typing? && s.worker.job < |s.jobs|
    case Exit => s.worker.Idle? || s.worker.Waiting?
  }

  /** The text handed to the keyboard. */
  function Payload(follows: bool, text: string): string {
    if follows then " " + text else text
  }

  function ApplyWorker(s: State, step: WorkerStep): State
    requires WorkerEnabled(s, step)
  {
    match step
    case Take =>
      var j := s.queue[0];
      var crosses := !s.initialized || s.jobs[j].epoch != s.currentEpoch;
      s.(queue := s.queue[1..], worker := Waiting(j), initialized := true,
         currentEpoch := if crosses then s.jobs[j].epoch else s.currentEpoch,
         typedInEpoch := if crosses then 0 else s.typedInEpoch)
    case Ready =>
      s.(worker := if s.jobs[s.worker.job].text == "" then Idle else Checking(s.worker.job))
    case Check =>
      var j := s.worker.job;
      if s.epoch != s.jobs[j].epoch then s.(worker := Idle)
      else s.(worker := Typing(j, Payload(s.typedInEpoch > 0, s.jobs[j].text)))
    case Typed(ok) =>
      var w := s.worker;
      s.(worker := Idle, typedInEpoch := if ok then s.typedInEpoch + 1 else s.typedInEpoch,
         typed := s.typed + [TypeCall(w.job, s.jobs[w.job].epoch, w.payload, ok)])
    case Exit => s.(worker := Exited)
  }

  // --------------------------------------------------------------- machine

  predicate Enabled(c: Config, s: State, step: Step) {
    match step
    case BeginOpen(target) => target != NoMode
    case BeginClose => true
    case Control(t, control) => ControlEnabled(c, s, t, control)
    case Air(air) => AudioEnabled(s, air)
    case Pool(k, pool) => TaskEnabled(s, k, pool)
    case Work(work) => WorkerEnabled(s, work)
  }

  function Apply(c: Config, s: State, step: Step): State
    requires Enabled(c, s, step)
  {
    match step
    case BeginOpen(target) => s.(ops := s.ops + [OpenEntry(target)])
    case BeginClose => s.(ops := s.ops + [CloseEntry])
    case Control(t, control) => ApplyControl(c, s, t, control)
    case Air(air) => ApplyAudio(c, s, air)
    case Pool(k, pool) => ApplyTask(s, k, pool)
    case Work(work) => ApplyWorker(s, work)
  }

  /** s' is reached from s by exactly these steps, whoever takes them. */
  predicate Reaches(c: Config, s: State, steps: seq<Step>, s': State)
    decreases |steps|
  {
    if steps == [] then s' == s
    else Enabled(c, s, steps[0]) && Reaches(c, Apply(c, s, steps[0]), steps[1..], s')
  }
}
