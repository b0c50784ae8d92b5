/**
 Suspend, Resume and fire of cmd/dictad/mutewatch.go running against each
 other: the two-lock discipline of `mu` and `actMu` as a step system.  Every
 region held under `mu` is one step; `actMu` is held across steps.
 */
module SuspendSafety {
  import opened MuteDebounce

  /** Where the fire path of Run stands. */
  datatype Fire =
    | Off
    | WantsLock(state: Mute)
    | Locked(state: Mute)       // holds actMu from here on
    | NotSuspended(state: Mute)
    | Acting(state: Mute)
    | Calling(state: Mute)      // inside the toggler call
    | Recording
    | ClosingFlap

  /** Where one Suspend call stands. */
  datatype Suspender = Asking | Holding | Closing | Finished

  datatype Holder = Nobody | Runner | Caller(i: nat)

  /** typeOpen: a type-mode session is open.  opening: EnsureTypeOpen calls begun so far. */
  datatype State = State(suspended: bool, typeOpen: bool, holder: Holder,
                         fire: Fire, suspenders: seq<Suspender>, opening: nat)

  const Init: State := State(false, false, Nobody, Off, [], 0)

  datatype Step =
    // Run, once a debounce timer has expired
    | FireBegins(state: Mute)
    | FireLocks
    | FireChecksSuspended
    | FireChecksAbsent(absent: bool)
    | FireCalls
    | FireReturns(ok: bool)
    | FireRecords(trip: bool)
    | FireCloses
    // Suspend, from any goroutine
    | SuspendBegins
    | SuspendLocks(i: nat)
    | SuspendSets(i: nat)
    | SuspendCloses(i: nat)
    // others
    | Resume
    | SessionCloses

  predicate Enabled(s: State, step: Step) {
    match step
    case FireBegins(_) => s.fire.Off?
    case FireLocks => s.fire.WantsLock? && s.holder.Nobody?
    case FireChecksSuspended => s.fire.Locked?
    case FireChecksAbsent(_) => s.fire.NotSuspended?
    case FireCalls => s.fire.Acting?
    case FireReturns(_) => s.fire.Calling?
    case FireRecords(_) => s.fire.Recording?
    case FireCloses => s.fire.ClosingFlap?
    case SuspendBegins => true
    case SuspendLocks(i) => i < |s.suspenders| && s.suspenders[i].Asking? && s.holder.Nobody?
    case SuspendSets(i) => i < |s.suspenders| && s.suspenders[i].Holding?
    case SuspendCloses(i) => i < |s.suspenders| && s.suspenders[i].Closing?
    case Resume => true
    case SessionCloses => true
  }

  function Apply(s: State, step: Step): State
    requires Enabled(s, step)
  {
    match step
    case FireBegins(state) => s.(fire := WantsLock(state))
    case FireLocks => s.(fire := Locked(s.fire.state), holder := Runner)
    case FireChecksSuspended =>
      if s.suspended then s.(fire := Off, holder := Nobody) else s.(fire := NotSuspended(s.fire.state))
    case FireChecksAbsent(absent) =>
      if absent then s.(fire := Off, holder := Nobody) else s.(fire := Acting(s.fire.state))
    case FireCalls =>
      s.(fire := Calling(s.fire.state), opening := if s.fire.state == Unmuted then s.opening + 1 else s.opening)
    case FireReturns(ok) =>
      s.(fire := Recording,
         typeOpen := match s.fire.state
                     case Muted => false
                     case Unmuted => s.typeOpen || ok
                     case Unknown => s.typeOpen)
    case FireRecords(trip) =>
      if trip && !s.suspended then s.(fire := ClosingFlap, suspended := true)
      else s.(fire := Off, holder := Nobody)
    case FireCloses => s.(fire := Off, holder := Nobody, typeOpen := false)
    case SuspendBegins => s.(suspenders := s.suspenders + [Asking])
    case SuspendLocks(i) => s.(suspenders := s.suspenders[i := Holding], holder := Caller(i))
    case SuspendSets(i) =>
      if s.suspended then s.(suspenders := s.suspenders[i := Finished], holder := Nobody)
      else s.(suspenders := s.suspenders[i := Closing], suspended := true)
    case SuspendCloses(i) => s.(suspenders := s.suspenders[i := Finished], holder := Nobody, typeOpen := false)
    case Resume => s.(suspended := false)
    case SessionCloses => s.(typeOpen := false)
  }

  predicate Reaches(s: State, steps: seq<Step>, s': State)
    decreases |steps|
  {
    if steps == [] then s' == s
    else Enabled(s, steps[0]) && Reaches(Apply(s, steps[0]), steps[1..], s')
  }

  ghost predicate Reachable(s: State) {
    exists steps :: Reaches(Init, steps, s)
  }

  predicate PastTheCheck(f: Fire) {
    f.NotSuspended? || f.Acting? || f.Calling? || f.Recording?
  }

  /** actMu is held by whoever stands inside its region, and a pending close covers an open session. */
  predicate Inv(s: State) {
    && (s.holder.Runner? <==> !s.fire.Off? && !s.fire.WantsLock?)
    && (forall i :: 0 <= i < |s.suspenders| ==>
          (s.holder == Caller(i) <==> s.suspenders[i].Holding? || s.suspenders[i].Closing?))
    && (s.holder.Caller? ==> s.holder.i < |s.suspenders|)
    && (PastTheCheck(s.fire) ==> !s.suspended)
    && (s.suspended && s.typeOpen ==>
          || s.fire.ClosingFlap?
          || (s.holder.Caller? && s.suspenders[s.holder.i].Closing?))
  }

  lemma StepKeepsInv(s: State, step: Step)
    requires Inv(s) && Enabled(s, step)
    ensures Inv(Apply(s, step))
  {
  }

  lemma {:induction false} RunKeepsInv(s: State, steps: seq<Step>, s': State)
    requires Inv(s) && Reaches(s, steps, s')
    ensures Inv(s')
    decreases |steps|
  {
    if steps != [] {
      StepKeepsInv(s, steps[0]);
      RunKeepsInv(Apply(s, steps[0]), steps[1..], s');
    }
  }

  /** Suspended means off: with actMu free no type session is open, in every interleaving. */
  lemma SuspendedMeansClosed(s: State)
    requires Reachable(s) && s.suspended && s.holder.Nobody?
    ensures !s.typeOpen
  {
    var steps :| Reaches(Init, steps, s);
    RunKeepsInv(Init, steps, s);
  }

  /** And stays off: no EnsureTypeOpen call begins, and nothing opens, until a Resume. */
  lemma {:induction false} NothingOpensUntilResume(s: State, steps: seq<Step>, s': State)
    requires Inv(s) && s.suspended && Reaches(s, steps, s')
    requires forall i :: 0 <= i < |steps| ==> !steps[i].Resume?
    ensures s'.suspended && s'.opening == s.opening
    ensures s'.typeOpen ==> s.typeOpen
    decreases |steps|
  {
    if steps != [] {
      StepKeepsInv(s, steps[0]);
      NothingOpensUntilResume(Apply(s, steps[0]), steps[1..], s');
    }
  }

  /** A Suspend that has returned leaves the session closed until a Resume. */
  lemma SuspendReturnsClosed(s: State, step: Step, steps: seq<Step>, s': State)
    requires Reachable(s) && Enabled(s, step) && Reaches(Apply(s, step), steps, s')
    requires (step.SuspendSets? && s.suspended) || (step.SuspendCloses? && s.suspended)
    requires forall i :: 0 <= i < |steps| ==> !steps[i].Resume?
    ensures s'.suspended && !s'.typeOpen
  {
    var before :| Reaches(Init, before, s);
    RunKeepsInv(Init, before, s);
    StepKeepsInv(s, step);
    NothingOpensUntilResume(Apply(s, step), steps, s');
  }

  // ===================================== what each call does when nobody interferes

  lemma {:induction false} ReachesMore(s: State, steps: seq<Step>, s1: State, step: Step)
    requires Reaches(s, steps, s1) && Enabled(s1, step)
    ensures Reaches(s, steps + [step], Apply(s1, step))
    decreases |steps|
  {
    if steps == [] {
      assert [step][1..] == [];
    } else {
      ReachesMore(Apply(s, steps[0]), steps[1..], s1, step);
      assert (steps + [step])[1..] == steps[1..] + [step];
    }
  }

  /** One more step of a run from s0. */
  lemma Go(s0: State, steps: seq<Step>, s: State, step: Step) returns (steps': seq<Step>, s': State)
    requires Reaches(s0, steps, s) && Enabled(s, step)
    ensures steps' == steps + [step] && s' == Apply(s, step) && Reaches(s0, steps', s')
  {
    steps', s' := steps + [step], Apply(s, step);
    ReachesMore(s0, steps, s, step);
  }

  /** The session opens only when an EnsureTypeOpen call succeeds, and any other thread that closes it leaves it closed. */
  lemma OpensOnlyByFire(s: State, step: Step)
    requires Enabled(s, step)
    ensures !s.typeOpen && Apply(s, step).typeOpen ==> step == FireReturns(true) && s.fire == Calling(Unmuted)
    ensures step.SessionCloses? ==> !Apply(s, step).typeOpen && Apply(s, step).suspended == s.suspended
  {
  }

  /** What an expiry for this state leaves behind, once it has run. */
  function AfterFire(s: State, state: Mute, absent: bool, ok: bool, trip: bool): State {
    if s.suspended || absent then s
    else s.(suspended := trip,
            opening := if state == Unmuted then s.opening + 1 else s.opening,
            typeOpen := !trip && match state
                                 case Muted => false
                                 case Unmuted => s.typeOpen || ok
                                 case Unknown => s.typeOpen)
  }

  /**
   An expiry that nobody interferes with: suspended or absent it does nothing;
   otherwise muted closes the session, unmuted asks for it to be opened, once,
   and a tripped flap guard suspends and closes.
   */
  lemma FireAlone(s: State, state: Mute, absent: bool, ok: bool, trip: bool) returns (steps: seq<Step>)
    requires s.fire.Off? && s.holder.Nobody?
    ensures Reaches(s, steps, AfterFire(s, state, absent, ok, trip))
  {
    var s1: State;
    steps, s1 := Go(s, [], s, FireBegins(state));
    steps, s1 := Go(s, steps, s1, FireLocks);
    steps, s1 := Go(s, steps, s1, FireChecksSuspended);
    if !s.suspended {
      steps, s1 := Go(s, steps, s1, FireChecksAbsent(absent));
      if !absent {
        steps, s1 := Go(s, steps, s1, FireCalls);
        steps, s1 := Go(s, steps, s1, FireReturns(ok));
        steps, s1 := Go(s, steps, s1, FireRecords(trip));
        if trip { steps, s1 := Go(s, steps, s1, FireCloses); }
      }
    }
  }

  /** Suspend suspends, and closes the session unless it was suspended already. */
  lemma SuspendAlone(s: State) returns (steps: seq<Step>, s': State)
    requires s.holder.Nobody?
    ensures Reaches(s, steps, s')
    ensures s' == s.(suspended := true, typeOpen := s.typeOpen && s.suspended, suspenders := s.suspenders + [Finished])
  {
    var i := |s.suspenders|;
    steps, s' := Go(s, [], s, SuspendBegins);
    steps, s' := Go(s, steps, s', SuspendLocks(i));
    steps, s' := Go(s, steps, s', SuspendSets(i));
    if !s.suspended { steps, s' := Go(s, steps, s', SuspendCloses(i)); }
  }

  /** After a Resume the next unmuted expiry opens the session again. */
  lemma ResumeReopens(s: State) returns (steps: seq<Step>, s': State)
    requires s.fire.Off? && s.holder.Nobody?
    ensures steps != [] && steps[0] == Resume && Reaches(s, steps, s')
    ensures s' == s.(suspended := false, typeOpen := true, opening := s.opening + 1)
  {
    var resumed := Apply(s, Resume);
    var rest := FireAlone(resumed, Unmuted, false, true, false);
    steps, s' := [Resume] + rest, AfterFire(resumed, Unmuted, false, true, false);
    assert steps[1..] == rest;
  }
}
