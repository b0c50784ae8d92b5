/**
 The debounce of the mute watcher: what Run in cmd/dictad/mutewatch.go makes of
 the events, device signals and timer expiries it consumes.
 */
module MuteDebounce {
  import opened Common

  datatype Mute = Unknown | Unmuted | Muted

  /**
   One pass of Run's select.  An observation and an expiry carry the clock and
   the suspended and absent flags as Run reads them there.
   */
  datatype Input =
    | Observed(state: Mute, initial: bool, at: int, suspended: bool, absent: bool)
    | Elapsed(at: int, suspended: bool, absent: bool)
    | Device(lost: bool)

  /** A state on its way to being believed, and when its timer was armed. */
  datatype Candidate = Candidate(state: Mute, armedAt: int)

  /** A transition handed to the toggler. */
  datatype Dispatch = Dispatch(state: Mute, at: int)

  datatype Watch = Watch(seeded: bool, lastState: Mute, pending: Option<Candidate>, dispatched: seq<Dispatch>)

  const Fresh: Watch := Watch(false, Unknown, None, [])

  function Observe(w: Watch, ev: Input): Watch
    requires ev.Observed?
  {
    if ev.initial then w.(lastState := ev.state, seeded := true, pending := None)
    else if !w.seeded then w.(lastState := ev.state, seeded := true)
    else if ev.suspended || ev.absent then w.(lastState := ev.state, pending := None)
    else if ev.state == w.lastState then w.(pending := None)
    else if w.pending.Some? && w.pending.value.state == ev.state then w
    else w.(pending := Some(Candidate(ev.state, ev.at)))
  }

  /** The timer channel delivers only once the debounce has passed. */
  predicate Due(debounce: int, w: Watch, at: int) {
    w.pending.Some? && at >= w.pending.value.armedAt + debounce
  }

  /** fire: suspended keeps track, absent keeps nothing, otherwise dispatch. */
  function Fire(w: Watch, at: int, suspended: bool, absent: bool): Watch
    requires w.pending.Some?
  {
    var state := w.pending.value.state;
    var w' := w.(pending := None);
    if suspended then w'.(lastState := state)
    else if absent then w'
    else w'.(lastState := state, dispatched := w.dispatched + [Dispatch(state, at)])
  }

  function Next(debounce: int, w: Watch, ev: Input): Watch {
    match ev
    case Observed(_, _, _, _, _) => Observe(w, ev)
    case Elapsed(at, suspended, absent) => if Due(debounce, w, at) then Fire(w, at, suspended, absent) else w
    case Device(lost) => if lost then w.(pending := None) else w
  }

  function Play(debounce: int, h: seq<Input>): Watch {
    if h == [] then Fresh else Next(debounce, Play(debounce, h[..|h|-1]), h[|h|-1])
  }

  // ==================================== what the history makes of it, without the machine

  /** An input that leaves a candidate for s, armed at `at`, to its timer. */
  predicate Leaves(debounce: int, ev: Input, s: Mute, at: int) {
    match ev
    case Observed(state, initial, _, suspended, absent) => state == s && !initial && !suspended && !absent
    case Elapsed(now, _, _) => now < at + debounce
    case Device(lost) => !lost
  }

  /** Input i makes a change to s a candidate: seen with nothing in the way, s is neither believed nor already pending. */
  ghost predicate Arms(debounce: int, h: seq<Input>, i: nat, s: Mute, at: int)
    requires i < |h|
    decreases i, 3
  {
    && h[i] == Observed(s, false, at, false, false)
    && (exists b :: b != s && Believes(debounce, h[..i], b))
    && !(exists a :: Steady(debounce, h[..i], s, a))
  }

  /** A change to s was seen at time `at` by input i and has been steadily repeated since. */
  ghost predicate SteadySince(debounce: int, h: seq<Input>, i: nat, s: Mute, at: int)
    decreases |h|, 0
  {
    && i < |h| && Arms(debounce, h, i, s, at)
    && (forall j :: i < j < |h| ==> Leaves(debounce, h[j], s, at))
  }

  ghost predicate Steady(debounce: int, h: seq<Input>, s: Mute, at: int)
    decreases |h|, 1
  {
    exists i: nat :: SteadySince(debounce, h, i, s, at)
  }

  /**
   Input i settles the belief on s: an observation that is initial, the first, or
   made while suspended or absent; or the expiry of a steady change, unless the
   device is absent and the watcher not suspended.
   */
  ghost predicate Settles(debounce: int, h: seq<Input>, i: nat, s: Mute)
    requires i < |h|
    decreases i, 3
  {
    match h[i]
    case Observed(state, initial, _, suspended, absent) =>
      state == s && (initial || suspended || absent || forall k :: 0 <= k < i ==> !h[k].Observed?)
    case Elapsed(now, suspended, absent) =>
      (suspended || !absent) && exists at :: Steady(debounce, h[..i], s, at) && now >= at + debounce
    case Device(_) => false
  }

  /** The last input that settled anything settled on s. */
  ghost predicate Believes(debounce: int, h: seq<Input>, s: Mute)
    decreases |h|, 2
  {
    exists i: nat :: i < |h| && Settles(debounce, h, i, s) && SettledBy(debounce, h, i)
  }

  /** No input after i settles anything. */
  ghost predicate SettledBy(debounce: int, h: seq<Input>, i: nat)
    decreases |h|, 1
  {
    forall j: nat, s :: i < j < |h| ==> !Settles(debounce, h, j, s)
  }

  // -------------------------------------------------------- one input more

  lemma ArmsPrefix(debounce: int, h: seq<Input>, ev: Input, i: nat, s: Mute, at: int)
    requires i < |h|
    ensures Arms(debounce, h + [ev], i, s, at) == Arms(debounce, h, i, s, at)
  {
    assert (h + [ev])[..i] == h[..i];
  }

  lemma SettlesPrefix(debounce: int, h: seq<Input>, ev: Input, i: nat, s: Mute)
    requires i < |h|
    ensures Settles(debounce, h + [ev], i, s) == Settles(debounce, h, i, s)
  {
    assert (h + [ev])[..i] == h[..i];
    assert forall k :: 0 <= k < i ==> (h + [ev])[k] == h[k];
  }

  lemma SteadyGrows(debounce: int, h: seq<Input>, ev: Input, i: nat, s: Mute, at: int)
    requires i < |h|
    ensures SteadySince(debounce, h + [ev], i, s, at)
            <==> SteadySince(debounce, h, i, s, at) && Leaves(debounce, ev, s, at)
  {
    var h' := h + [ev];
    ArmsPrefix(debounce, h, ev, i, s, at);
    assert forall j :: i < j < |h| ==> h'[j] == h[j];
    assert h'[|h|] == ev;
  }

  /** What is steady after one input more was steady before and left alone, or is armed by it. */
  lemma SteadyStep(debounce: int, h: seq<Input>, ev: Input, s: Mute, at: int)
    ensures Steady(debounce, h + [ev], s, at) <==>
              (Steady(debounce, h, s, at) && Leaves(debounce, ev, s, at)) || Arms(debounce, h + [ev], |h|, s, at)
  {
    var h' := h + [ev];
    if i: nat :| SteadySince(debounce, h', i, s, at) && i < |h| { SteadyGrows(debounce, h, ev, i, s, at); }
    if i: nat :| SteadySince(debounce, h, i, s, at) { SteadyGrows(debounce, h, ev, i, s, at); }
    if Arms(debounce, h', |h|, s, at) { assert SteadySince(debounce, h', |h|, s, at); }
  }

  /** What is believed after one input more is what it settles, or else what was believed before. */
  lemma BelievesStep(debounce: int, h: seq<Input>, ev: Input, s: Mute)
    ensures Settles(debounce, h + [ev], |h|, s) ==> Believes(debounce, h + [ev], s)
    ensures (forall b :: !Settles(debounce, h + [ev], |h|, b)) ==>
              (Believes(debounce, h + [ev], s) <==> Believes(debounce, h, s))
  {
    var h' := h + [ev];
    if Settles(debounce, h', |h|, s) { assert SettledBy(debounce, h', |h|); }
    if forall b :: !Settles(debounce, h', |h|, b) {
      if i: nat :| i < |h'| && Settles(debounce, h', i, s) && SettledBy(debounce, h', i) {
        SettledByPrefix(debounce, h, ev, i);
        SettlesPrefix(debounce, h, ev, i, s);
        assert Settles(debounce, h, i, s) && SettledBy(debounce, h, i);
      }
      if i: nat :| i < |h| && Settles(debounce, h, i, s) && SettledBy(debounce, h, i) {
        SettledByPrefix(debounce, h, ev, i);
        SettlesPrefix(debounce, h, ev, i, s);
        assert Settles(debounce, h', i, s) && SettledBy(debounce, h', i);
      }
    }
  }

  lemma SettledByPrefix(debounce: int, h: seq<Input>, ev: Input, i: nat)
    requires forall b :: !Settles(debounce, h + [ev], |h|, b)
    ensures SettledBy(debounce, h + [ev], i) <==> SettledBy(debounce, h, i)
  {
    forall j: nat, s | i < j < |h| ensures Settles(debounce, h + [ev], j, s) == Settles(debounce, h, j, s) {
      SettlesPrefix(debounce, h, ev, j, s);
    }
  }

  // ------------------------------------------------------ the machine follows it

  /** The machine's fields are what the history makes of them. */
  ghost predicate Follows(debounce: int, h: seq<Input>) {
    var w := Play(debounce, h);
    && (w.seeded <==> exists k :: 0 <= k < |h| && h[k].Observed?)
    && (forall s :: Believes(debounce, h, s) <==> w.seeded && s == w.lastState)
    && (forall s, at :: Steady(debounce, h, s, at) <==> w.pending == Some(Candidate(s, at)))
    && (w.pending.Some? ==> w.seeded && w.pending.value.state != w.lastState)
  }

  lemma {:induction false} HistoryDecides(debounce: int, h: seq<Input>)
    ensures Follows(debounce, h)
  {
    if h != [] {
      var n := |h| - 1;
      HistoryDecides(debounce, h[..n]);
      assert h == h[..n] + [h[n]];
      FollowsStep(debounce, h[..n], h[n]);
    }
  }

  lemma FollowsStep(debounce: int, h: seq<Input>, ev: Input)
    requires Follows(debounce, h)
    ensures Follows(debounce, h + [ev])
  {
    var h', w, w' := h + [ev], Play(debounce, h), Play(debounce, h + [ev]);
    assert h'[..|h|] == h && h'[|h|] == ev;
    SeededStep(h, ev);
    forall s ensures Believes(debounce, h', s) <==> w'.seeded && s == w'.lastState {
      NextBelief(debounce, h, ev, s);
    }
    forall s, at ensures Steady(debounce, h', s, at) <==> w'.pending == Some(Candidate(s, at)) {
      SteadyStep(debounce, h, ev, s, at);
      ArmsExactly(debounce, h, ev, s, at);
    }
  }

  lemma SeededStep(h: seq<Input>, ev: Input)
    ensures (exists k :: 0 <= k < |h + [ev]| && (h + [ev])[k].Observed?)
            <==> (exists k :: 0 <= k < |h| && h[k].Observed?) || ev.Observed?
  {
    var h' := h + [ev];
    if k :| 0 <= k < |h| && h[k].Observed? { assert h'[k].Observed?; }
    if k :| 0 <= k < |h'| && h'[k].Observed? { assert k < |h| ==> h[k].Observed?; }
    assert h'[|h|] == ev;
  }

  lemma ArmsExactly(debounce: int, h: seq<Input>, ev: Input, s: Mute, at: int)
    requires Follows(debounce, h)
    ensures var w := Play(debounce, h);
      Arms(debounce, h + [ev], |h|, s, at) <==>
        && ev == Observed(s, false, at, false, false) && w.seeded && w.lastState != s
        && (w.pending.Some? ==> w.pending.value.state != s)
  {
    var w := Play(debounce, h);
    assert (h + [ev])[..|h|] == h;
    if w.pending.Some? { assert Steady(debounce, h, w.pending.value.state, w.pending.value.armedAt); }
    if w.seeded { assert Believes(debounce, h, w.lastState); }
  }

  lemma SettlesExactly(debounce: int, h: seq<Input>, ev: Input, s: Mute)
    requires Follows(debounce, h)
    ensures var w := Play(debounce, h);
      Settles(debounce, h + [ev], |h|, s) <==>
        match ev
        case Observed(state, initial, _, suspended, absent) =>
          state == s && (initial || suspended || absent || !w.seeded)
        case Elapsed(now, suspended, absent) =>
          (suspended || !absent) && Due(debounce, w, now) && w.pending.value.state == s
        case Device(_) => false
  {
    var w := Play(debounce, h);
    assert (h + [ev])[..|h|] == h;
    assert forall k :: 0 <= k < |h| ==> (h + [ev])[k] == h[k];
    if w.pending.Some? { assert Steady(debounce, h, w.pending.value.state, w.pending.value.armedAt); }
  }

  lemma NextBelief(debounce: int, h: seq<Input>, ev: Input, s: Mute)
    requires Follows(debounce, h)
    ensures var w' := Play(debounce, h + [ev]); Believes(debounce, h + [ev], s) <==> w'.seeded && s == w'.lastState
  {
    var h', w, w' := h + [ev], Play(debounce, h), Play(debounce, h + [ev]);
    assert h'[..|h|] == h;
    forall b ensures Settles(debounce, h', |h|, b) ==> w'.lastState == b && w'.seeded { SettlesExactly(debounce, h, ev, b); }
    BelievesStep(debounce, h, ev, s);
    if Believes(debounce, h', s) && Settles(debounce, h', |h|, w'.lastState) {
      LastSettles(debounce, h', s, w'.lastState);
    }
    SettlesExactly(debounce, h, ev, w'.lastState);
    BelievesStep(debounce, h, ev, w'.lastState);
  }

  /** Whoever settles last is believed. */
  lemma LastSettles(debounce: int, h: seq<Input>, s: Mute, b: Mute)
    requires h != [] && Believes(debounce, h, s) && Settles(debounce, h, |h| - 1, b)
    ensures Settles(debounce, h, |h| - 1, s)
  {
    var i: nat :| i < |h| && Settles(debounce, h, i, s) && SettledBy(debounce, h, i);
  }

  // ============================================================ what is promised

  /** A pending state differs from the last one, and waits for its timer. */
  lemma PendingIsAChange(debounce: int, h: seq<Input>)
    ensures var w := Play(debounce, h); w.pending.Some? ==> w.seeded && w.pending.value.state != w.lastState
  {
    HistoryDecides(debounce, h);
  }

  /** The last state is the one that the last input to settle anything settled on. */
  lemma LastStateExactly(debounce: int, h: seq<Input>, s: Mute)
    ensures var w := Play(debounce, h); w.seeded && w.lastState == s <==> Believes(debounce, h, s)
  {
    HistoryDecides(debounce, h);
  }

  /** There is a candidate exactly when some change has been steadily repeated since it armed. */
  lemma PendingExactly(debounce: int, h: seq<Input>, s: Mute, at: int)
    ensures Play(debounce, h).pending == Some(Candidate(s, at)) <==> Steady(debounce, h, s, at)
  {
    HistoryDecides(debounce, h);
  }

  /**
   Run dispatches a transition exactly when its timer is due on a change that
   was steadily repeated for the debounce time, with the watcher neither
   suspended nor absent; so an initial or first event, or a bounce, never fires.
   */
  lemma DispatchExactly(debounce: int, h: seq<Input>, ev: Input, s: Mute)
    ensures var w, w' := Play(debounce, h), Play(debounce, h + [ev]);
      && (w'.dispatched == w.dispatched || |w'.dispatched| == |w.dispatched| + 1)
      && w'.dispatched[..|w.dispatched|] == w.dispatched
      && (w'.dispatched != w.dispatched && w'.dispatched[|w.dispatched|] == Dispatch(s, ev.at) <==>
            Fires(debounce, h, ev, s))
  {
    assert (h + [ev])[..|h|] == h;
    HistoryDecides(debounce, h);
  }

  /** With this input the watcher hands a transition to s to the toggler. */
  ghost predicate Fires(debounce: int, h: seq<Input>, ev: Input, s: Mute) {
    && ev.Elapsed? && !ev.suspended && !ev.absent
    && exists at :: Steady(debounce, h, s, at) && ev.at >= at + debounce
  }

  /** An input that is neither initial nor seen or expired while suspended, nor an observation while absent. */
  predicate Calm(ev: Input) {
    match ev
    case Observed(_, initial, _, suspended, absent) => !initial && !suspended && !absent
    case Elapsed(_, suspended, _) => !suspended
    case Device(_) => true
  }

  /** Nothing is dispatched by this input. */
  ghost predicate Silent(debounce: int, h: seq<Input>, ev: Input) {
    forall b :: !Fires(debounce, h, ev, b)
  }

  /** After h come calm inputs none of which dispatches anything. */
  ghost predicate Uneventful(debounce: int, h: seq<Input>, mid: seq<Input>) {
    forall k :: 0 <= k < |mid| ==> Calm(mid[k]) && Silent(debounce, h + mid[..k], mid[k])
  }

  lemma UneventfulPrefix(debounce: int, h: seq<Input>, mid: seq<Input>)
    requires mid != [] && Uneventful(debounce, h, mid)
    ensures Uneventful(debounce, h, mid[..|mid|-1])
  {
    var shorter := mid[..|mid|-1];
    forall k | 0 <= k < |shorter| ensures Calm(shorter[k]) && Silent(debounce, h + shorter[..k], shorter[k]) {
      assert shorter[..k] == mid[..k] && shorter[k] == mid[k];
    }
  }

  /** A dispatch is believed, and nothing is pending after it. */
  lemma FiredIsBelieved(debounce: int, h: seq<Input>, ev: Input, s: Mute)
    requires Fires(debounce, h, ev, s)
    ensures var w := Play(debounce, h + [ev]); w.seeded && w.lastState == s && w.pending == None
  {
    assert (h + [ev])[..|h|] == h;
    HistoryDecides(debounce, h);
  }

  /** Uneventful inputs leave the belief alone, and make no candidate of a state they do not report. */
  lemma {:induction false} BeliefKept(debounce: int, h: seq<Input>, mid: seq<Input>, s: Mute)
    requires var w := Play(debounce, h); w.seeded && w.lastState == s && w.pending == None
    requires Uneventful(debounce, h, mid)
    ensures var w := Play(debounce, h + mid);
      && w.seeded && w.lastState == s
      && (w.pending.Some? ==> exists k :: 0 <= k < |mid| && mid[k].Observed? && mid[k].state == w.pending.value.state)
    decreases |mid|
  {
    if mid == [] {
      assert h + mid == h;
    } else {
      var n := |mid| - 1;
      UneventfulPrefix(debounce, h, mid);
      BeliefKept(debounce, h, mid[..n], s);
      HistoryDecides(debounce, h + mid[..n]);
      var w := Play(debounce, h + mid[..n]);
      assert (h + mid)[..|h + mid| - 1] == h + mid[..n];
      if w.pending.Some? {
        assert Steady(debounce, h + mid[..n], w.pending.value.state, w.pending.value.armedAt);
        assert !Fires(debounce, h + mid[..n], mid[n], w.pending.value.state);
        var k :| 0 <= k < n && mid[..n][k].Observed? && mid[..n][k].state == w.pending.value.state;
        assert mid[k].Observed? && mid[k].state == w.pending.value.state;
      }
    }
  }

  /** Two dispatches with nothing but calm inputs between them are of different states. */
  lemma DispatchesAlternate(debounce: int, h: seq<Input>, first: Input, mid: seq<Input>, second: Input, s: Mute, s': Mute)
    requires Fires(debounce, h, first, s) && Uneventful(debounce, h + [first], mid)
    requires Fires(debounce, h + [first] + mid, second, s')
    ensures s != s'
  {
    FiredIsBelieved(debounce, h, first, s);
    BeliefKept(debounce, h + [first], mid, s);
    HistoryDecides(debounce, h + [first] + mid);
  }

  /** A candidate that is left alone stays one. */
  lemma {:induction false} SteadyLeft(debounce: int, h: seq<Input>, left: seq<Input>, s: Mute, at: int)
    requires Steady(debounce, h, s, at)
    requires forall k :: 0 <= k < |left| ==> Leaves(debounce, left[k], s, at)
    ensures Steady(debounce, h + left, s, at)
    decreases |left|
  {
    if left == [] {
      assert h + left == h;
    } else {
      var n := |left| - 1;
      SteadyLeft(debounce, h, left[..n], s, at);
      SteadyStep(debounce, h + left[..n], left[n], s, at);
      assert h + left == h + left[..n] + [left[n]];
    }
  }

  /**
   After a dispatch, a change to another state that is then left alone for the
   debounce time is dispatched in its turn.
   */
  lemma ChangeIsDispatched(debounce: int, h: seq<Input>, first: Input, mid: seq<Input>, change: Input,
                           left: seq<Input>, expiry: Input, s: Mute, s': Mute)
    requires Fires(debounce, h, first, s) && Uneventful(debounce, h + [first], mid) && s' != s
    requires forall k :: 0 <= k < |mid| && mid[k].Observed? ==> mid[k].state != s'
    requires change.Observed? && change == Observed(s', false, change.at, false, false)
    requires forall k :: 0 <= k < |left| ==> Leaves(debounce, left[k], s', change.at)
    requires expiry.Elapsed? && !expiry.suspended && !expiry.absent && expiry.at >= change.at + debounce
    ensures Fires(debounce, h + [first] + mid + [change] + left, expiry, s')
  {
    var before := h + [first] + mid;
    FiredIsBelieved(debounce, h, first, s);
    BeliefKept(debounce, h + [first], mid, s);
    HistoryDecides(debounce, before);
    ArmsExactly(debounce, before, change, s', change.at);
    SteadyStep(debounce, before, change, s', change.at);
    SteadyLeft(debounce, before + [change], left, s', change.at);
  }
}
