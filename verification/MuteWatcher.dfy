/**
 The mute watcher of cmd/dictad/mutewatch.go as the program writes it: the
 locals of Run and the guarded fields, updated in place, with the flap window
 filtered inside its own backing array.
 */
module MuteWatcher {
  import opened Common
  import opened MuteDebounce
  import FlapGuard

  class Watcher {
    const debounce: int
    const flapWindow: int
    const flapThreshold: int

    // locals of Run; hasPending says that the timer is running
    var lastState: Mute
    var seeded: bool
    var pending: Mute
    var hasPending: bool
    var armedAt: int
    ghost var dispatched: seq<Dispatch>

    // guarded by mu
    var suspended: bool
    var absent: bool
    var fireTimes: array<int>
    var fires: nat               // length in use

    // the session behind the toggler
    var typeOpen: bool

    ghost predicate Valid()
      reads this
    {
      fires <= fireTimes.Length
    }

    ghost function Run(): Watch
      reads this
    {
      Watch(seeded, lastState, if hasPending then Some(Candidate(pending, armedAt)) else None, dispatched)
    }

    ghost function Guard(): FlapGuard.Guard
      requires Valid()
      reads this, fireTimes
    {
      FlapGuard.Guard(suspended, fireTimes[..fires])
    }

    constructor (debounce: int, flapWindow: int, flapThreshold: int)
      ensures Valid() && Run() == Fresh && Guard() == FlapGuard.Guard(false, [])
      ensures this.debounce == if debounce <= 0 then 1 else debounce
      ensures this.flapWindow == flapWindow && this.flapThreshold == flapThreshold
      ensures !absent && !typeOpen && fresh(fireTimes)
    {
      this.debounce := if debounce <= 0 then 1 else debounce;
      this.flapWindow, this.flapThreshold := flapWindow, flapThreshold;
      lastState, seeded, pending, hasPending, armedAt := Unknown, false, Unknown, false, 0;
      dispatched := [];
      suspended, absent, typeOpen := false, false, false;
      fireTimes, fires := new int[0], 0;
    }

    // ----------------------------------------------------------- flap guard

    /** Keep the times later than the cutoff, in the array they are in. */
    method FilterInPlace(cutoff: int)
      requires Valid()
      modifies this`fires, fireTimes
      ensures Valid() && fireTimes[..fires] == FlapGuard.Recent(old(fireTimes[..fires]), cutoff)
    {
      ghost var was := fireTimes[..fires];
      var i, kept := 0, 0;
      while i < fires
        invariant kept <= i <= fires == old(fires)
        invariant fireTimes[..kept] == FlapGuard.Recent(was[..i], cutoff)
        invariant fireTimes[i..fires] == was[i..]
      {
        var t := fireTimes[i];
        assert t == was[i] && was[..i + 1][..i] == was[..i];
        assert fireTimes[i + 1..fires] == was[i + 1..];
        if t > cutoff {
          fireTimes[kept] := t;
          kept := kept + 1;
        }
        i := i + 1;
      }
      assert was[..fires] == was;
      fires := kept;
    }

    method Append(now: int)
      requires Valid()
      modifies this`fires, this`fireTimes, fireTimes
      ensures Valid() && fireTimes[..fires] == old(fireTimes[..fires]) + [now]
      ensures fireTimes == old(fireTimes) || fresh(fireTimes)
    {
      if fires == fireTimes.Length {
        var larger := new int[2 * fires + 1];
        forall i | 0 <= i < fires { larger[i] := fireTimes[i]; }
        assert larger[..fires] == fireTimes[..fires];
        fireTimes := larger;
      }
      fireTimes[fires] := now;
      fires := fires + 1;
    }

    method RecordFireAndCheckFlap(now: int) returns (tripped: bool)
      requires Valid()
      modifies this`fires, this`fireTimes, this`suspended, fireTimes
      ensures Valid() && Guard() == FlapGuard.Record(flapWindow, flapThreshold, old(Guard()), now)
      ensures tripped <==> suspended && !old(suspended)
      ensures fireTimes == old(fireTimes) || fresh(fireTimes)
    {
      if flapThreshold <= 0 || suspended {
        return false;
      }
      FilterInPlace(now - flapWindow);
      Append(now);
      if fires > flapThreshold {
        suspended := true;
        fireTimes, fires := new int[0], 0;
        return true;
      }
      return false;
    }

    // --------------------------------------------------- suspend and resume

    /** Entering suspension closes the session; a repeated Suspend changes nothing. */
    method Suspend()
      modifies this`suspended, this`typeOpen
      ensures suspended && typeOpen == (old(typeOpen) && old(suspended))
    {
      var already := suspended;
      suspended := true;
      if !already {
        typeOpen := false;
      }
    }

    method Resume()
      modifies this`suspended, this`fires, this`fireTimes
      ensures Valid() && Guard() == FlapGuard.Guard(false, []) && fresh(fireTimes)
    {
      suspended := false;
      fireTimes, fires := new int[0], 0;
    }

    /** Whatever happens next, nothing is dispatched before the device is back, and nothing new becomes a candidate. */
    method DeviceLost()
      modifies this`absent
      ensures absent
      ensures forall at, s :: Next(debounce, Run(), Elapsed(at, s, absent)).dispatched == dispatched
      ensures forall state, initial, at, s ::
                Next(debounce, Run(), Observed(state, initial, at, s, absent)).pending in {None, Run().pending}
    {
      absent := true;
    }

    /** The state the device returns in seeds the watcher and is never dispatched. */
    method DeviceRestored()
      modifies this`absent
      ensures !absent
      ensures forall state, at, s ::
                var seed := Next(debounce, Run(), Observed(state, true, at, s, absent));
                seed.lastState == state && seed.pending == None && seed.dispatched == dispatched
    {
      absent := false;
    }

    // ------------------------------------------------------ the loop of Run

    method StopTimer()
      modifies this`hasPending
      ensures !hasPending
    {
      hasPending := false;
    }

    method OnDevice(lost: bool)
      modifies this`hasPending
      ensures Run() == Next(debounce, old(Run()), Device(lost))
    {
      if lost {
        StopTimer();
      }
    }

    method OnEvent(state: Mute, initial: bool, at: int)
      modifies this`lastState, this`seeded, this`pending, this`hasPending, this`armedAt
      ensures Run() == Next(debounce, old(Run()), Observed(state, initial, at, suspended, absent))
    {
      if initial {
        lastState := state;
        seeded := true;
        StopTimer();
        return;
      }
      if !seeded {
        lastState := state;
        seeded := true;
        return;
      }
      if suspended {
        lastState := state;
        StopTimer();
        return;
      }
      if absent {
        lastState := state;
        StopTimer();
        return;
      }
      if state == lastState {
        StopTimer();
        return;
      }
      if hasPending && pending == state {
        return;
      }
      pending, hasPending, armedAt := state, true, at;
    }

    /** The debounce timer has expired; `opens` is how EnsureTypeOpen would answer. */
    method OnTimer(at: int, opens: bool)
      requires Valid() && Due(debounce, Run(), at)
      modifies this, fireTimes
      ensures Valid() && absent == old(absent)
      ensures Run() == Next(debounce, old(Run()), Elapsed(at, old(suspended), old(absent)))
      ensures Guard() == if old(suspended) || old(absent) then old(Guard())
                         else FlapGuard.Record(flapWindow, flapThreshold, old(Guard()), at)
      ensures typeOpen == if old(suspended) || old(absent) then old(typeOpen)
                          else if suspended then false
                          else if old(pending) == Muted then false
                          else if old(pending) == Unmuted then old(typeOpen) || opens
                          else old(typeOpen)
    {
      var fired := pending;
      StopTimer();
      if suspended {
        lastState := fired;
        return;
      }
      if absent {
        return;
      }
      lastState := fired;
      dispatched := dispatched + [Dispatch(fired, at)];
      match fired {
        case Muted => typeOpen := false;
        case Unmuted => if !typeOpen { typeOpen := opens; }
        case Unknown =>
      }
      var tripped := RecordFireAndCheckFlap(at);
      if tripped {
        typeOpen := false;
      }
    }
  }
}
