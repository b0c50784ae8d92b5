/**
 SubprocessTyper of internal/dispatch/typer.go: strip, cut, invoke once per
 chunk, and keep the circuit breaker.  What ydotool and the context answer is
 the caller's `fate`.
 */
module Typer {
  import opened Chunks
  import Breaker

  /** Does invocation k succeed, is the context cancelled in the delay before it, and is it by the end? */
  datatype Fate = Fate(succeeds: nat -> bool, cancels: nat -> bool, cancelledByEnd: bool)

  /** Nothing stops the invocations before number k: none of them fails, and no delay before one is cancelled. */
  predicate Clear(fate: Fate, k: nat) {
    forall j :: 0 <= j < k ==> fate.succeeds(j) && (j > 0 ==> !fate.cancels(j))
  }

  /** Invocation k is the first thing to stop the typing: it is made, and fails. */
  predicate FailsAt(fate: Fate, k: nat) {
    Clear(fate, k) && (k > 0 ==> !fate.cancels(k)) && !fate.succeeds(k)
  }

  /** The delay before invocation k is the first thing to stop the typing. */
  predicate CancelsAt(fate: Fate, k: nat) {
    Clear(fate, k) && k > 0 && fate.cancels(k)
  }

  datatype Outcome = Blank | BreakerOpen | Done | Cancelled | Failed

  ghost predicate Fails(fate: Fate, n: nat) {
    exists k :: 0 <= k < n && FailsAt(fate, k)
  }

  ghost predicate Cancels(fate: Fate, n: nat) {
    exists k :: 0 <= k < n && CancelsAt(fate, k)
  }

  /** The payloads of an attempt: all chunks, or those up to what stopped it, the one that failed included. */
  ghost predicate Payloads(fate: Fate, chunks: seq<string>, payloads: seq<string>) {
    && (Clear(fate, |chunks|) ==> payloads == chunks)
    && (forall k :: 0 <= k < |chunks| && FailsAt(fate, k) ==> payloads == chunks[..k + 1])
    && (forall k :: 0 <= k < |chunks| && CancelsAt(fate, k) ==> payloads == chunks[..k])
    && payloads <= chunks && (chunks != [] ==> payloads != [])
  }

  /** What stops the typing first is the only thing that does. */
  lemma FirstStop(fate: Fate, i: nat, n: nat)
    requires i < n && (FailsAt(fate, i) || CancelsAt(fate, i))
    ensures !Clear(fate, n)
    ensures forall k :: 0 <= k < n && FailsAt(fate, k) ==> k == i && FailsAt(fate, i)
    ensures forall k :: 0 <= k < n && CancelsAt(fate, k) ==> k == i && CancelsAt(fate, i)
    ensures !(FailsAt(fate, i) && CancelsAt(fate, i))
  {
  }

  class SubprocessTyper {
    const chunkSize: int
    const threshold: int
    const cooldown: int

    // guarded by mu
    var consecutiveFailures: nat
    var open: bool
    var openedAt: int
    var notified: bool

    var notices: nat                       // notifications sent to the user
    var sent: seq<string>                  // payloads handed to ydotool
    ghost var history: seq<Breaker.Attempt>

    ghost function View(): Breaker.State
      reads this
    {
      Breaker.State(consecutiveFailures, open, openedAt, notified, notices)
    }

    ghost predicate Valid()
      reads this
    {
      chunkSize > 0 && threshold > 0 && cooldown > 0 && View() == Breaker.Play(threshold, history)
    }

    constructor (chunkSize: int, threshold: int, cooldown: int)
      ensures Valid() && history == [] && sent == []
      ensures this.chunkSize == if chunkSize <= 0 then 200 else chunkSize
      ensures this.threshold == if threshold <= 0 then 3 else threshold
    {
      this.chunkSize := if chunkSize <= 0 then 200 else chunkSize;
      this.threshold := if threshold <= 0 then 3 else threshold;
      this.cooldown := if cooldown <= 0 then 30_000 else cooldown;
      consecutiveFailures, open, openedAt, notified, notices := 0, false, 0, false, 0;
      sent, history := [], [];
    }

    method BreakerAllowAttempt(now: int) returns (allowed: bool)
      requires Valid()
      ensures allowed == Breaker.Allows(cooldown, Breaker.Play(threshold, history), now)
    {
      if !open {
        return true;
      }
      return now - openedAt >= cooldown;
    }

    /** Update the breaker after an attempt; a cancelled one is not counted. */
    method RecordResult(ok: bool, cancelled: bool, now: int)
      requires Valid()
      modifies this`consecutiveFailures, this`open, this`openedAt, this`notified, this`notices, this`history
      ensures Valid()
      ensures history == if !ok && cancelled then old(history) else old(history) + [Breaker.Attempt(ok, now)]
    {
      if !ok && cancelled {
        return;
      }
      var notify := false;
      if ok {
        consecutiveFailures := 0;
        open := false;
        notified := false;
      } else if open {
        consecutiveFailures := consecutiveFailures + 1;
        openedAt := now;
      } else {
        consecutiveFailures := consecutiveFailures + 1;
        if consecutiveFailures >= threshold {
          open := true;
          openedAt := now;
          if !notified {
            notified := true;
            notify := true;
          }
        }
      }
      history := history + [Breaker.Attempt(ok, now)];
      assert history[..|history|-1] == old(history);
      if notify {
        notices := notices + 1;
      }
    }

    /** One invocation per chunk, stopping at the first failure or cancellation. */
    method TypeChunks(text: string, fate: Fate) returns (outcome: Outcome, ghost chunks: seq<string>)
      requires chunkSize > 0
      modifies this`sent
      ensures Splits(text, chunkSize, chunks) && (outcome.Done? || outcome.Cancelled? || outcome.Failed?)
      ensures outcome.Done? <==> Clear(fate, |chunks|)
      ensures outcome.Failed? <==> Fails(fate, |chunks|)
      ensures outcome.Cancelled? <==> Cancels(fate, |chunks|)
      ensures old(sent) <= sent && Payloads(fate, chunks, sent[|old(sent)|..])
    {
      var pieces := ChunkString(text, chunkSize);
      chunks := pieces;
      ChunksAreLossless(text, chunkSize, chunks);
      var i := 0;
      while i < |pieces|
        invariant 0 <= i <= |pieces| && sent == old(sent) + chunks[..i]
        invariant Clear(fate, i)
      {
        if i > 0 && fate.cancels(i) {
          assert CancelsAt(fate, i) && sent[|old(sent)|..] == chunks[..i];
          FirstStop(fate, i, |chunks|);
          return Cancelled, chunks;
        }
        sent := sent + [pieces[i]];
        assert chunks[..i + 1] == chunks[..i] + [pieces[i]];
        if !fate.succeeds(i) {
          assert FailsAt(fate, i) && sent[|old(sent)|..] == chunks[..i + 1];
          FirstStop(fate, i, |chunks|);
          return Failed, chunks;
        }
        i := i + 1;
      }
      assert sent[|old(sent)|..] == chunks;
      outcome := Done;
    }

    /** An attempt the breaker allows, and its record: a cancelled one counts as neither success nor failure. */
    method Attempt(clean: string, recorded: int, fate: Fate) returns (outcome: Outcome, ghost chunks: seq<string>)
      requires Valid()
      modifies this
      ensures Valid() && Splits(clean, chunkSize, chunks) && (outcome.Done? || outcome.Cancelled? || outcome.Failed?)
      ensures outcome.Done? <==> Clear(fate, |chunks|)
      ensures outcome.Failed? <==> Fails(fate, |chunks|) && !fate.cancelledByEnd
      ensures outcome.Cancelled? <==> Cancels(fate, |chunks|) || (Fails(fate, |chunks|) && fate.cancelledByEnd)
      ensures old(sent) <= sent && Payloads(fate, chunks, sent[|old(sent)|..])
      ensures history == if outcome.Cancelled? then old(history)
                         else old(history) + [Breaker.Attempt(outcome.Done?, recorded)]
    {
      outcome, chunks := TypeChunks(clean, fate);
      if outcome.Failed? && fate.cancelledByEnd {
        outcome := Cancelled;
      }
      RecordResult(outcome.Done?, outcome.Cancelled?, recorded);
    }

    /**
     Type text.  What is sent is a prefix of the one division of the stripped
     text, up to the first failure or cancellation; all of it, and so the whole
     text, when there is none.
     */
    method Type(text: string, asked: int, recorded: int, fate: Fate) returns (outcome: Outcome, ghost chunks: seq<string>)
      requires Valid()
      modifies this
      ensures Valid()
      ensures outcome.Blank? <==> AllSpace(StripNewlines(text))
      ensures outcome.BreakerOpen? <==>
                !AllSpace(StripNewlines(text)) && !Breaker.Allows(cooldown, old(View()), asked)
      ensures outcome.Blank? || outcome.BreakerOpen? ==> sent == old(sent) && history == old(history) && chunks == []
      ensures !outcome.Blank? && !outcome.BreakerOpen? ==>
                && Splits(StripNewlines(text), chunkSize, chunks) && Join(chunks) == StripNewlines(text)
                && old(sent) <= sent && Payloads(fate, chunks, sent[|old(sent)|..])
                && (outcome.Done? <==> Clear(fate, |chunks|))
                && (outcome.Failed? <==> Fails(fate, |chunks|) && !fate.cancelledByEnd)
                && (outcome.Cancelled? <==> Cancels(fate, |chunks|) || (Fails(fate, |chunks|) && fate.cancelledByEnd))
      ensures history == if outcome.Done? || outcome.Failed? then old(history) + [Breaker.Attempt(outcome.Done?, recorded)]
                         else old(history)
    {
      chunks := [];
      var clean := StripNewlines(text);
      if AllSpace(clean) {
        return Blank, chunks;
      }
      var allowed := BreakerAllowAttempt(asked);
      if !allowed {
        return BreakerOpen, chunks;
      }
      outcome, chunks := Attempt(clean, recorded, fate);
      ChunksAreLossless(clean, chunkSize, chunks);
    }
  }
}
