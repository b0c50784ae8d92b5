/**
 The circuit breaker of internal/dispatch/typer.go against the history of
 attempts it is meant to summarise.
 */
module Breaker {
  import opened Common

  /** A finished attempt that was not cancelled, and the clock when it was recorded. */
  datatype Attempt = Attempt(ok: bool, at: int)

  datatype State = State(failures: nat, open: bool, openedAt: int, notified: bool, notices: nat)

  const Closed: State := State(0, false, 0, false, 0)

  predicate Allows(cooldown: int, b: State, now: int) {
    !b.open || now - b.openedAt >= cooldown
  }

  function Record(threshold: int, b: State, a: Attempt): State {
    if a.ok then b.(failures := 0, open := false, notified := false)
    else if b.open then b.(failures := b.failures + 1, openedAt := a.at)
    else if b.failures + 1 >= threshold then
      State(b.failures + 1, true, a.at, true, if b.notified then b.notices else b.notices + 1)
    else b.(failures := b.failures + 1)
  }

  function Play(threshold: int, h: seq<Attempt>): State {
    if h == [] then Closed else Record(threshold, Play(threshold, h[..|h|-1]), h[|h|-1])
  }

  /** The length of the run of failures that ends the history. */
  function Trailing(h: seq<Attempt>): (n: nat)
    ensures n <= |h|
    ensures forall i :: |h| - n <= i < |h| ==> !h[i].ok
    ensures n < |h| ==> h[|h| - n - 1].ok
  {
    if h == [] || h[|h|-1].ok then 0 else Trailing(h[..|h|-1]) + 1
  }

  /** How often a run of failures has grown to the threshold. */
  function Outages(threshold: int, h: seq<Attempt>): nat {
    if h == [] then 0
    else Outages(threshold, h[..|h|-1]) + if Trailing(h) == threshold then 1 else 0
  }

  /**
   The breaker's fields are the history: the count is the trailing run of
   failures, it is open exactly when that run has reached the threshold, since
   its last failure, and the user was notified once per outage.
   */
  lemma {:induction false} FieldsAreHistory(threshold: int, h: seq<Attempt>)
    requires threshold > 0
    ensures var b := Play(threshold, h);
      && b.failures == Trailing(h)
      && (b.open <==> Trailing(h) >= threshold)
      && b.notified == b.open
      && (b.open ==> h != [] && b.openedAt == h[|h|-1].at)
      && b.notices == Outages(threshold, h)
  {
    if h != [] {
      FieldsAreHistory(threshold, h[..|h|-1]);
    }
  }

  /** One call of Type: when it asks, and what it records if it was allowed. None: it was cancelled. */
  datatype Call = Call(at: int, result: Option<Attempt>)

  /** How many of these calls invoke the keyboard at all, and where they leave the breaker. */
  function Calls(threshold: int, cooldown: int, b: State, calls: seq<Call>): (r: (State, nat))
    decreases |calls|
  {
    if calls == [] then (b, 0)
    else if !Allows(cooldown, b, calls[0].at) then Calls(threshold, cooldown, b, calls[1..])
    else
      var b' := if calls[0].result.Some? then Record(threshold, b, calls[0].result.value) else b;
      var rest := Calls(threshold, cooldown, b', calls[1..]);
      (rest.0, rest.1 + 1)
  }

  /**
   After a failure recorded at time t that leaves the breaker open, no call
   made before t + cooldown invokes anything; the first later one does.
   */
  lemma {:induction false} NothingBeforeCooldown(threshold: int, cooldown: int, h: seq<Attempt>, calls: seq<Call>)
    requires threshold > 0 && h != [] && Trailing(h) >= threshold
    requires forall i :: 0 <= i < |calls| ==> calls[i].at < h[|h|-1].at + cooldown
    ensures Calls(threshold, cooldown, Play(threshold, h), calls) == (Play(threshold, h), 0)
    ensures forall now :: Allows(cooldown, Play(threshold, h), now) <==> now >= h[|h|-1].at + cooldown
    decreases |calls|
  {
    FieldsAreHistory(threshold, h);
    if calls != [] {
      NothingBeforeCooldown(threshold, cooldown, h, calls[1..]);
    }
  }

  /** While fewer than `threshold` failures end the history every call is allowed. */
  lemma ClosedAllowsAlways(threshold: int, cooldown: int, h: seq<Attempt>, now: int)
    requires threshold > 0 && Trailing(h) < threshold
    ensures Allows(cooldown, Play(threshold, h), now)
  {
    FieldsAreHistory(threshold, h);
  }
}
