/**
 The capture loop of cmd/dictad/audiomonitor.go: frames the VAD calls speech
 are gathered into utterances, cut when too long, gated when too faint, and
 handed on; a watchdog reports a capture that stops delivering.
 */
module AudioLoop {
  import opened Common
  import opened QuietestSplit

  /** One wake-up of the loop. `raw`: an EnergyVAD called the frame raw speech. */
  datatype Event =
    | Frame(pcm: Pcm, speech: bool, raw: bool)
    | Flush
    | StallTimer

  /** What became of a stretch of speech audio, in order. */
  datatype Piece =
    | Sent(pcm: Pcm)
    | Gated(pcm: Pcm)
    | Forced(buffer: Pcm, cut: nat)

  /** A forced piece is cut inside its buffer. */
  type CutPiece = p: Piece | p.Forced? ==> p.cut <= |p.buffer| witness Sent([])

  datatype Signal = Lost | Restored

  datatype Loop = Loop(inUtterance: bool, acc: Pcm, raw: nat, log: seq<CutPiece>,
                       armed: bool, stalled: bool, signals: seq<Signal>)

  /** hasCallback: onUtterance is set; minRaw, cap: zero or less disables them. */
  datatype Tuning = Tuning(hasCallback: bool, minRaw: int, cap: int, searchBytes: nat, F: nat, stallTimeout: bool)

  function Start(c: Tuning): Loop {
    Loop(false, [], 0, [], c.stallTimeout, false, [])
  }

  /** The emit closure. */
  function Emit(c: Tuning, s: Loop): Loop {
    s.(acc := [], raw := 0, inUtterance := false,
       log := if !c.hasCallback || s.acc == [] then s.log
              else if 0 < c.minRaw && s.raw < c.minRaw then s.log + [Gated(s.acc)]
              else s.log + [Sent(s.acc)])
  }

  /** A frame has arrived: the watchdog is re-armed and an outage ends. */
  function FrameSeen(c: Tuning, s: Loop): Loop {
    s.(armed := c.stallTimeout, stalled := false,
       signals := if s.stalled then s.signals + [Restored] else s.signals)
  }

  /** A speech frame joins the accumulator, which starts afresh between utterances. */
  function Gather(c: Tuning, s: Loop, pcm: Pcm, raw: bool): Loop {
    var s1 := if s.inUtterance then s else s.(inUtterance := true, acc := [], raw := 0);
    s1.(raw := s1.raw + if raw then 1 else 0, acc := if c.hasCallback then s1.acc + pcm else s1.acc)
  }

  /** A speech frame: gather it, and force-split an accumulator that has reached the cap. */
  ghost predicate Speaks(c: Tuning, rms: Pcm -> real, s: Loop, pcm: Pcm, raw: bool, s': Loop)
    requires c.F > 0
  {
    var s2 := Gather(c, s, pcm, raw);
    if c.hasCallback && 0 < c.cap <= |s2.acc| then
      exists cut: nat :: cut <= |s2.acc| && GoodCut(s2.acc, c.searchBytes, c.F, rms, cut) &&
        s' == s2.(acc := s2.acc[cut..], log := s2.log + [Forced(s2.acc, cut)])
    else s' == s2
  }

  ghost predicate Next(c: Tuning, rms: Pcm -> real, s: Loop, ev: Event, s': Loop)
    requires c.F > 0
  {
    match ev
    case Flush => s' == Emit(c, s)
    case StallTimer => s.armed && s' == s.(armed := false, stalled := true, signals := s.signals + [Lost])
    case Frame(pcm, speech, raw) =>
      var s1 := FrameSeen(c, s);
      if speech then Speaks(c, rms, s1, pcm, raw, s')
      else s' == if s1.inUtterance then Emit(c, s1) else s1
  }

  /** s is where the loop stands after these events. */
  ghost predicate After(c: Tuning, rms: Pcm -> real, events: seq<Event>, s: Loop)
    requires c.F > 0
    decreases |events|
  {
    if events == [] then s == Start(c)
    else
      var before, ev := events[..|events|-1], events[|events|-1];
      exists p: Loop :: After(c, rms, before, p) && Next(c, rms, p, ev, s)
  }

  // ========================================================= conservation

  function PiecePcm(p: CutPiece): Pcm {
    match p
    case Sent(pcm) => pcm
    case Gated(pcm) => pcm
    case Forced(buffer, cut) => buffer[..cut]
  }

  function LogPcm(log: seq<CutPiece>): Pcm {
    if log == [] then [] else LogPcm(log[..|log|-1]) + PiecePcm(log[|log|-1])
  }

  /** The audio of exactly the frames the VAD called speech. */
  function SpeechPcm(events: seq<Event>): Pcm {
    if events == [] then []
    else SpeechPcm(events[..|events|-1]) +
         var ev := events[|events|-1]; if ev.Frame? && ev.speech then ev.pcm else []
  }

  lemma LogAppend(log: seq<CutPiece>, p: CutPiece, rest: Pcm)
    ensures LogPcm(log + [p]) + rest == LogPcm(log) + (PiecePcm(p) + rest)
  {
    assert (log + [p])[..|log|] == log;
  }

  lemma EmitConserves(c: Tuning, s: Loop)
    requires c.hasCallback
    ensures var s' := Emit(c, s); LogPcm(s'.log) + s'.acc == LogPcm(s.log) + s.acc
  {
    if s.acc != [] {
      LogAppend(s.log, if 0 < c.minRaw && s.raw < c.minRaw then Gated(s.acc) else Sent(s.acc), []);
    }
  }

  /** The forced cut only moves audio from the accumulator into the log. */
  lemma CutConserves(log: seq<CutPiece>, acc: Pcm, cut: nat)
    requires cut <= |acc|
    ensures LogPcm(log + [Forced(acc, cut)]) + acc[cut..] == LogPcm(log) + acc
  {
    LogAppend(log, Forced(acc, cut), acc[cut..]);
    assert acc[..cut] + acc[cut..] == acc;
  }

  lemma SpeechConserves(c: Tuning, rms: Pcm -> real, s: Loop, ev: Event, s': Loop)
    requires c.F > 0 && c.hasCallback && Next(c, rms, s, ev, s') && ev.Frame? && ev.speech
    requires !s.inUtterance ==> s.acc == []
    ensures s'.inUtterance && LogPcm(s'.log) + s'.acc == LogPcm(s.log) + (s.acc + ev.pcm)
  {
    var s2 := Gather(c, FrameSeen(c, s), ev.pcm, ev.raw);
    assert s2.acc == s.acc + ev.pcm;
    if 0 < c.cap <= |s2.acc| {
      var cut: nat :| cut <= |s2.acc| && GoodCut(s2.acc, c.searchBytes, c.F, rms, cut) &&
        s' == s2.(acc := s2.acc[cut..], log := s2.log + [Forced(s2.acc, cut)]);
      CutConserves(s.log, s2.acc, cut);
    }
  }

  lemma StepConserves(c: Tuning, rms: Pcm -> real, s: Loop, ev: Event, s': Loop)
    requires c.F > 0 && c.hasCallback && Next(c, rms, s, ev, s')
    requires !s.inUtterance ==> s.acc == []
    ensures !s'.inUtterance ==> s'.acc == []
    ensures LogPcm(s'.log) + s'.acc
            == LogPcm(s.log) + s.acc + if ev.Frame? && ev.speech then ev.pcm else []
  {
    if ev.Frame? && ev.speech {
      SpeechConserves(c, rms, s, ev, s');
      assert LogPcm(s.log) + (s.acc + ev.pcm) == LogPcm(s.log) + s.acc + ev.pcm;
    } else {
      EmitConserves(c, if ev.Frame? then FrameSeen(c, s) else s);
      assert LogPcm(s.log) + s.acc + [] == LogPcm(s.log) + s.acc;
    }
  }

  /**
   Nothing the VAD called speech is lost, duplicated or reordered: what was
   sent, gated and cut off, followed by what is still held, is the speech.
   */
  lemma {:induction false} SpeechIsConserved(c: Tuning, rms: Pcm -> real, events: seq<Event>, s: Loop)
    requires c.F > 0 && c.hasCallback && After(c, rms, events, s)
    ensures LogPcm(s.log) + s.acc == SpeechPcm(events)
    ensures !s.inUtterance ==> s.acc == []
    decreases |events|
  {
    if events != [] {
      var n := |events| - 1;
      var p: Loop :| After(c, rms, events[..n], p) && Next(c, rms, p, events[n], s);
      SpeechIsConserved(c, rms, events[..n], p);
      StepConserves(c, rms, p, events[n], s);
    }
  }

  // =============================================================== bounds

  /** A length of whole frames. */
  predicate Aligned(length: nat, F: nat)
    requires F > 0
  {
    length == length / F * F
  }

  lemma AlignedTimes(k: nat, F: nat)
    requires F > 0
    ensures Aligned(k * F, F) && k * F / F == k
  {
    WholeFrames(k, F);
  }

  lemma AlignedPlusFrame(length: nat, F: nat)
    requires F > 0 && Aligned(length, F)
    ensures Aligned(length + F, F)
  {
    AlignedTimes(length / F + 1, F);
    assert (length / F + 1) * F == length / F * F + F;
  }

  /** What the log promises of a piece when every frame is whole. */
  ghost predicate Bounded(c: Tuning, rms: Pcm -> real, p: CutPiece)
    requires c.F > 0
  {
    && |PiecePcm(p)| < c.cap + c.F
    && |PiecePcm(p)| % c.F == 0
    && (p.Forced? ==>
          && c.cap <= |p.buffer| < c.cap + c.F
          && GoodCut(p.buffer, c.searchBytes, c.F, rms, p.cut)
          && |p.buffer| < 2 * p.cut)
  }

  /** The forced cut of an aligned buffer just over the cap. */
  lemma ForcedBounds(c: Tuning, rms: Pcm -> real, buffer: Pcm, cut: nat)
    requires c.F > 0 && c.cap > 0 && Aligned(|buffer|, c.F) && c.cap <= |buffer| < c.cap + c.F
    requires GoodCut(buffer, c.searchBytes, c.F, rms, cut) && cut <= |buffer|
    ensures Bounded(c, rms, Forced(buffer, cut))
    ensures |buffer| - cut < c.cap && Aligned(|buffer| - cut, c.F)
  {
    var n := |buffer| / c.F;
    AtLeastOne(|buffer|, c.F);
    var kept := CutBounds(buffer, c.searchBytes, c.F, rms, n, cut);
    RestInBytes(n, kept, c.F);
  }

  lemma AtLeastOne(length: nat, F: nat)
    requires F > 0 && length > 0 && Aligned(length, F)
    ensures length / F > 0
  {
  }

  lemma RestInBytes(n: nat, kept: nat, F: nat)
    requires F > 0 && 0 < kept <= n
    ensures 0 <= n * F - kept * F <= n * F - F
    ensures Aligned(n * F - kept * F, F)
  {
    MulMono(1, kept, F);
    MulMono(kept, n, F);
    AlignedTimes(n - kept, F);
    assert (n - kept) * F == n * F - kept * F;
  }

  lemma StepBounded(c: Tuning, rms: Pcm -> real, s: Loop, ev: Event, s': Loop)
    requires c.F > 0 && c.cap > 0 && Next(c, rms, s, ev, s')
    requires ev.Frame? ==> |ev.pcm| == c.F
    requires |s.acc| < c.cap && Aligned(|s.acc|, c.F)
    requires forall i :: 0 <= i < |s.log| ==> Bounded(c, rms, s.log[i])
    ensures |s'.acc| < c.cap && Aligned(|s'.acc|, c.F)
    ensures forall i :: 0 <= i < |s'.log| ==> Bounded(c, rms, s'.log[i])
  {
    MultipleOf(|s.acc| / c.F, c.F);
    AlignedTimes(0, c.F);
    AlignedPlusFrame(|s.acc|, c.F);
    AlignedPlusFrame(0, c.F);
    if ev.Frame? && ev.speech {
      var s2 := Gather(c, FrameSeen(c, s), ev.pcm, ev.raw);
      if c.hasCallback && c.cap <= |s2.acc| {
        var cut: nat :| cut <= |s2.acc| && GoodCut(s2.acc, c.searchBytes, c.F, rms, cut) &&
          s' == s2.(acc := s2.acc[cut..], log := s2.log + [Forced(s2.acc, cut)]);
        ForcedBounds(c, rms, s2.acc, cut);
      }
    }
  }

  /**
   With a cap and whole frames the accumulator stays under the cap, everything
   sent is frame-aligned and at most one frame over it, and a forced chunk is
   more than half its buffer, cut after the latest quietest frame searched.
   */
  lemma {:induction false} ChunksAreBounded(c: Tuning, rms: Pcm -> real, events: seq<Event>, s: Loop)
    requires c.F > 0 && c.cap > 0 && After(c, rms, events, s)
    requires forall i :: 0 <= i < |events| && events[i].Frame? ==> |events[i].pcm| == c.F
    ensures |s.acc| < c.cap && Aligned(|s.acc|, c.F)
    ensures forall i :: 0 <= i < |s.log| ==> Bounded(c, rms, s.log[i])
    decreases |events|
  {
    if events != [] {
      var n := |events| - 1;
      var p: Loop :| After(c, rms, events[..n], p) && Next(c, rms, p, events[n], s);
      ChunksAreBounded(c, rms, events[..n], p);
      StepBounded(c, rms, p, events[n], s);
    }
  }

  // ================================================================= gate

  /** Raw speech frames since the running utterance began. */
  function RawRun(events: seq<Event>): nat {
    if events == [] then 0
    else
      var ev := events[|events|-1];
      match ev
      case Flush => 0
      case StallTimer => RawRun(events[..|events|-1])
      case Frame(_, speech, raw) => if speech then RawRun(events[..|events|-1]) + (if raw then 1 else 0) else 0
  }

  lemma StepCountsRaw(c: Tuning, rms: Pcm -> real, s: Loop, ev: Event, s': Loop)
    requires c.F > 0 && Next(c, rms, s, ev, s') && (!s.inUtterance ==> s.raw == 0)
    ensures !s'.inUtterance ==> s'.raw == 0
    ensures s'.raw == match ev
                      case Flush => 0
                      case StallTimer => s.raw
                      case Frame(_, speech, raw) => if speech then s.raw + (if raw then 1 else 0) else 0
  {
    if ev.Frame? && ev.speech {
      assert s'.raw == Gather(c, FrameSeen(c, s), ev.pcm, ev.raw).raw;
    }
  }

  lemma {:induction false} RawCountIsRun(c: Tuning, rms: Pcm -> real, events: seq<Event>, s: Loop)
    requires c.F > 0 && After(c, rms, events, s)
    ensures s.raw == RawRun(events) && (!s.inUtterance ==> s.raw == 0)
    decreases |events|
  {
    if events != [] {
      var n := |events| - 1;
      var p: Loop :| After(c, rms, events[..n], p) && Next(c, rms, p, events[n], s);
      RawCountIsRun(c, rms, events[..n], p);
      StepCountsRaw(c, rms, p, events[n], s);
    }
  }

  /** The end of an utterance, by silence or by flush. */
  predicate Ends(ev: Event) {
    ev.Flush? || (ev.Frame? && !ev.speech)
  }

  /** The gate drops an utterance exactly when it holds too few raw speech frames. */
  lemma GateCountsRawFrames(c: Tuning, rms: Pcm -> real, events: seq<Event>, p: Loop, ev: Event, s: Loop)
    requires c.F > 0 && c.hasCallback && After(c, rms, events, p) && Next(c, rms, p, ev, s)
    requires Ends(ev) && p.acc != []
    ensures s.acc == []
    ensures s.log == p.log + [if 0 < c.minRaw && RawRun(events) < c.minRaw then Gated(p.acc) else Sent(p.acc)]
  {
    RawCountIsRun(c, rms, events, p);
    SpeechIsConserved(c, rms, events, p);
  }

  lemma {:induction false} NoRawRun(events: seq<Event>)
    requires forall i :: 0 <= i < |events| && events[i].Frame? ==> !events[i].raw
    ensures RawRun(events) == 0
  {
    if events != [] { NoRawRun(events[..|events|-1]); }
  }

  /**
   With a VAD that exposes no raw classification the gate does not stand aside,
   as SetMinRawSpeechFrames documents: it drops every utterance that ends.
   */
  lemma {:induction false} GateWithoutEnergyVAD(c: Tuning, rms: Pcm -> real, events: seq<Event>, s: Loop)
    requires c.F > 0 && c.minRaw > 0 && After(c, rms, events, s)
    requires forall i :: 0 <= i < |events| && events[i].Frame? ==> !events[i].raw
    ensures forall i :: 0 <= i < |s.log| ==> !s.log[i].Sent?
    decreases |events|
  {
    if events != [] {
      var n := |events| - 1;
      var p: Loop :| After(c, rms, events[..n], p) && Next(c, rms, p, events[n], s);
      GateWithoutEnergyVAD(c, rms, events[..n], p);
      NoRawRun(events[..n]);
      RawCountIsRun(c, rms, events[..n], p);
    }
  }

  /**
   The documented behaviour, utterance by utterance: without raw classification
   an utterance that ends is passed on exactly when no minimum is configured.
   */
  lemma GateStandsAsideIff(c: Tuning, rms: Pcm -> real, events: seq<Event>, p: Loop, ev: Event, s: Loop)
    requires c.F > 0 && c.hasCallback && After(c, rms, events, p) && Next(c, rms, p, ev, s)
    requires forall i :: 0 <= i < |events| && events[i].Frame? ==> !events[i].raw
    requires Ends(ev) && p.acc != []
    ensures s.log == p.log + [Sent(p.acc)] <==> c.minRaw <= 0
    ensures s.log == p.log + [Gated(p.acc)] <==> c.minRaw > 0
  {
    GateCountsRawFrames(c, rms, events, p, ev, s);
    NoRawRun(events);
    assert (p.log + [Sent(p.acc)])[|p.log|] != (p.log + [Gated(p.acc)])[|p.log|];
  }

  /** One frame of speech without raw classification, then a flush: the speech is dropped. */
  lemma GateDropsSpeech(c: Tuning, rms: Pcm -> real, pcm: Pcm) returns (s: Loop)
    requires c.F > 0 && c.hasCallback && c.minRaw > 0 && pcm != [] && (c.cap <= 0 || |pcm| < c.cap)
    ensures After(c, rms, [Frame(pcm, true, false), Flush], s) && s.log == [Gated(pcm)] && s.acc == []
  {
    var frame, both := [Frame(pcm, true, false)], [Frame(pcm, true, false), Flush];
    var p := Gather(c, FrameSeen(c, Start(c)), pcm, false);
    assert p.acc == pcm;
    s := Emit(c, p);
    assert frame[..0] == [] && both[..1] == frame;
    assert After(c, rms, [], Start(c)) && Next(c, rms, Start(c), frame[0], p);
    assert After(c, rms, frame, p) && Next(c, rms, p, Flush, s);
  }

  // ========================================================= being in an utterance

  /** A speech frame that nothing has ended since. */
  ghost predicate Opens(events: seq<Event>, i: nat) {
    && i < |events| && events[i].Frame? && events[i].speech
    && forall j :: i < j < |events| ==> !Ends(events[j])
  }

  lemma OpensStep(events: seq<Event>, ev: Event)
    ensures (exists i :: Opens(events + [ev], i)) <==>
              (ev.Frame? && ev.speech) || (!Ends(ev) && exists i :: Opens(events, i))
  {
    var events' := events + [ev];
    assert events'[|events|] == ev && forall j :: 0 <= j < |events| ==> events'[j] == events[j];
    if i: nat :| Opens(events', i) && i < |events| { assert Opens(events, i); }
    if i: nat :| Opens(events, i) && !Ends(ev) { assert Opens(events', i); }
    if ev.Frame? && ev.speech { assert Opens(events', |events|); }
  }

  lemma StepSpeaks(c: Tuning, rms: Pcm -> real, s: Loop, ev: Event, s': Loop)
    requires c.F > 0 && Next(c, rms, s, ev, s')
    ensures s'.inUtterance <==> (ev.Frame? && ev.speech) || (!Ends(ev) && s.inUtterance)
  {
    if ev.Frame? && ev.speech {
      assert s'.inUtterance == Gather(c, FrameSeen(c, s), ev.pcm, ev.raw).inUtterance;
    }
  }

  /** The loop is in an utterance exactly while a speech frame has not been followed by silence or a flush. */
  lemma {:induction false} InUtteranceExactly(c: Tuning, rms: Pcm -> real, events: seq<Event>, s: Loop)
    requires c.F > 0 && After(c, rms, events, s)
    ensures s.inUtterance <==> exists i :: Opens(events, i)
    decreases |events|
  {
    if events != [] {
      var n := |events| - 1;
      var p: Loop :| After(c, rms, events[..n], p) && Next(c, rms, p, events[n], s);
      InUtteranceExactly(c, rms, events[..n], p);
      StepSpeaks(c, rms, p, events[n], s);
      OpensStep(events[..n], events[n]);
      assert events == events[..n] + [events[n]];
    }
  }

  // ============================================================= watchdog

  ghost predicate Alternates(signals: seq<Signal>) {
    forall i :: 0 <= i < |signals| ==> signals[i] == if i % 2 == 0 then Lost else Restored
  }

  lemma StepAlternates(c: Tuning, rms: Pcm -> real, s: Loop, ev: Event, s': Loop)
    requires c.F > 0 && Next(c, rms, s, ev, s')
    requires Alternates(s.signals) && (s.stalled <==> |s.signals| % 2 == 1) && (s.stalled ==> !s.armed)
    ensures Alternates(s'.signals) && (s'.stalled <==> |s'.signals| % 2 == 1) && (s'.stalled ==> !s'.armed)
  {
    var was := if ev.Frame? then FrameSeen(c, s) else s;
    assert !ev.StallTimer? ==> s'.signals == was.signals && s'.stalled == was.stalled && s'.armed == was.armed;
  }

  /** Every expiry of the watchdog is followed by a frame. */
  ghost predicate Recovered(events: seq<Event>) {
    forall i :: 0 <= i < |events| && events[i].StallTimer? ==> FrameAfter(events, i)
  }

  ghost predicate FrameAfter(events: seq<Event>, i: nat) {
    exists j :: i < j < |events| && events[j].Frame?
  }

  lemma RecoveredStep(events: seq<Event>, ev: Event)
    ensures Recovered(events + [ev]) <==> ev.Frame? || (Recovered(events) && !ev.StallTimer?)
  {
    var events' := events + [ev];
    assert events'[|events|] == ev;
    if Recovered(events') && !ev.Frame? {
      forall i | 0 <= i < |events| && events[i].StallTimer? ensures FrameAfter(events, i) {
        assert events'[i].StallTimer?;
        var j :| i < j < |events'| && events'[j].Frame?;
        assert events[j].Frame?;
      }
    }
    if Recovered(events) && ev.Flush? {
      forall i | 0 <= i < |events'| && events'[i].StallTimer? ensures FrameAfter(events', i) {
        assert events[i].StallTimer?;
        var j :| i < j < |events| && events[j].Frame?;
        assert events'[j].Frame?;
      }
    }
    if ev.Frame? {
      forall i | 0 <= i < |events'| && events'[i].StallTimer? ensures FrameAfter(events', i) {
        assert events'[|events|].Frame?;
      }
    }
  }

  lemma StepWatches(c: Tuning, rms: Pcm -> real, s: Loop, ev: Event, s': Loop)
    requires c.F > 0 && Next(c, rms, s, ev, s')
    ensures ev.Frame? ==> s'.armed == c.stallTimeout && !s'.stalled
    ensures ev.Flush? ==> s'.armed == s.armed && s'.stalled == s.stalled
    ensures ev.StallTimer? ==> s.armed && !s'.armed && s'.stalled
  {
    if ev.Frame? && ev.speech {
      var s2 := Gather(c, FrameSeen(c, s), ev.pcm, ev.raw);
      assert s'.armed == s2.armed && s'.stalled == s2.stalled;
    }
  }

  /** The watchdog is armed, and no outage under way, exactly when a frame has come after every expiry; without a timeout it never is. */
  lemma {:induction false} WatchdogExactly(c: Tuning, rms: Pcm -> real, events: seq<Event>, s: Loop)
    requires c.F > 0 && After(c, rms, events, s)
    ensures s.armed <==> c.stallTimeout && Recovered(events)
    ensures s.stalled <==> !Recovered(events)
    decreases |events|
  {
    if events != [] {
      var n := |events| - 1;
      var p: Loop :| After(c, rms, events[..n], p) && Next(c, rms, p, events[n], s);
      WatchdogExactly(c, rms, events[..n], p);
      StepWatches(c, rms, p, events[n], s);
      RecoveredStep(events[..n], events[n]);
      assert events == events[..n] + [events[n]];
    }
  }

  /** An outage is reported once when it begins and once when it ends. */
  lemma {:induction false} OutagesAlternate(c: Tuning, rms: Pcm -> real, events: seq<Event>, s: Loop)
    requires c.F > 0 && After(c, rms, events, s)
    ensures Alternates(s.signals)
    ensures s.stalled <==> |s.signals| % 2 == 1
    ensures s.stalled ==> !s.armed
    decreases |events|
  {
    if events != [] {
      var n := |events| - 1;
      var p: Loop :| After(c, rms, events[..n], p) && Next(c, rms, p, events[n], s);
      OutagesAlternate(c, rms, events[..n], p);
      StepAlternates(c, rms, p, events[n], s);
    }
  }
}
