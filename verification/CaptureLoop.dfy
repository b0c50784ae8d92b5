/**
 The capture loop as the program runs it: one growing buffer that is reused in
 place, and utterances handed out as copies that must never change again.
 */
module CaptureLoop {
  import opened Common
  import QuietestSplit
  import opened AudioLoop

  class Monitor {
    const c: Tuning
    const rms: Pcm -> real

    var inUtterance: bool
    var buffer: array<byte>       // backing array of the accumulator
    var length: nat               // its length in use
    var rawSpeechCount: nat
    var armed: bool
    var stalled: bool

    var utterances: seq<array<byte>>   // what onUtterance was given, oldest first
    ghost var log: seq<CutPiece>
    ghost var signals: seq<Signal>

    /** The pieces of the log that were handed on. */
    static function Given(log: seq<CutPiece>): seq<Pcm> {
      if log == [] then []
      else Given(log[..|log|-1]) + if log[|log|-1].Gated? then [] else [PiecePcm(log[|log|-1])]
    }

    static lemma GivenAppend(log: seq<CutPiece>, p: CutPiece)
      ensures Given(log + [p]) == Given(log) + if p.Gated? then [] else [PiecePcm(p)]
    {
      assert (log + [p])[..|log|] == log;
    }

    ghost predicate Valid()
      reads this, buffer, set a | a in utterances
    {
      && c.F > 0
      && length <= buffer.Length
      && buffer !in utterances
      && |Given(log)| == |utterances|
      && (forall i :: 0 <= i < |utterances| ==> utterances[i][..] == Given(log)[i])
    }

    ghost function View(): Loop
      requires length <= buffer.Length
      reads this, buffer
    {
      Loop(inUtterance, buffer[..length], rawSpeechCount, log, armed, stalled, signals)
    }

    constructor (c: Tuning, rms: Pcm -> real)
      requires c.F > 0
      ensures Valid() && View() == Start(c) && this.c == c && this.rms == rms
      ensures utterances == []
    {
      this.c, this.rms := c, rms;
      inUtterance, buffer, length, rawSpeechCount := false, new byte[0], 0, 0;
      armed, stalled := c.stallTimeout, false;
      utterances, log, signals := [], [], [];
    }

    /** Hand a fresh copy of the first n bytes to onUtterance. */
    method HandOn(n: nat, ghost p: CutPiece)
      requires Valid() && n <= length && !p.Gated? && PiecePcm(p) == buffer[..n]
      modifies this`utterances, this`log
      ensures Valid() && log == old(log) + [p]
      ensures |utterances| == old(|utterances|) + 1 && utterances[..old(|utterances|)] == old(utterances)
      ensures fresh(utterances[old(|utterances|)])
    {
      var utterance := new byte[n];
      forall i | 0 <= i < n { utterance[i] := buffer[i]; }
      assert utterance[..] == buffer[..n];
      utterances := utterances + [utterance];
      GivenAppend(log, p);
      log := log + [p];
    }

    /** The emit closure. */
    method Finalize()
      requires Valid()
      modifies this
      ensures Valid() && View() == Emit(c, old(View())) && buffer == old(buffer)
      ensures old(utterances) <= utterances
    {
      if c.hasCallback && length > 0 {
        if c.minRaw > 0 && rawSpeechCount < c.minRaw {
          GivenAppend(log, Gated(buffer[..length]));
          log := log + [Gated(buffer[..length])];
        } else {
          HandOn(length, Sent(buffer[..length]));
        }
      }
      length := 0;
      rawSpeechCount := 0;
      inUtterance := false;
    }

    /** append(accumulator, pcm...): in place while there is room, else into a larger array. */
    method Append(pcm: Pcm)
      requires Valid()
      modifies this`buffer, this`length, buffer
      ensures Valid() && length <= buffer.Length && buffer[..length] == old(buffer[..length]) + pcm
      ensures buffer == old(buffer) || fresh(buffer)
    {
      if length + |pcm| > buffer.Length {
        var larger := new byte[2 * (length + |pcm|)];
        forall i | 0 <= i < length { larger[i] := buffer[i]; }
        assert larger[..length] == buffer[..length];
        buffer := larger;
      }
      forall i | 0 <= i < |pcm| { buffer[length + i] := pcm[i]; }
      length := length + |pcm|;
      assert buffer[..length] == old(buffer[..length]) + pcm;
    }

    /** append(accumulator[:0], accumulator[cut:]...): move the rest to the front of the same array. */
    method ShiftDown(cut: nat)
      requires Valid() && cut <= length
      modifies this`length, buffer
      ensures Valid() && buffer[..length] == old(buffer[cut..length])
    {
      var rest := length - cut;
      forall i | 0 <= i < rest { buffer[i] := buffer[cut + i]; }
      assert buffer[..rest] == old(buffer[cut..length]);
      length := rest;
    }

    /** Force-emit up to the cut and carry the rest over. */
    method ForceSplit() returns (cut: nat)
      requires Valid()
      modifies this`utterances, this`log, this`length, buffer
      ensures Valid() && old(utterances) <= utterances
      ensures cut <= old(length) && buffer[..length] == old(buffer[..length])[cut..]
      ensures QuietestSplit.GoodCut(old(buffer[..length]), c.searchBytes, c.F, rms, cut)
      ensures log == old(log) + [Forced(old(buffer[..length]), cut)]
    {
      ghost var acc := buffer[..length];
      cut := QuietestSplit.Split(buffer[..length], c.searchBytes, c.F, rms);
      QuietestSplit.CutInside(acc, c.searchBytes, c.F, rms, cut);
      assert acc[..cut] == buffer[..cut];
      HandOn(cut, Forced(acc, cut));
      ShiftDown(cut);
      assert acc[cut..] == old(buffer[..length])[cut..];
    }

    /** The stall timer has expired. */
    method OnStall()
      requires Valid() && armed
      modifies this
      ensures Valid() && Next(c, rms, old(View()), StallTimer, View())
      ensures utterances == old(utterances)
    {
      armed := false;
      stalled := true;
      signals := signals + [Lost];
    }

    method OnFlush()
      requires Valid()
      modifies this
      ensures Valid() && Next(c, rms, old(View()), Flush, View())
      ensures old(utterances) <= utterances
      ensures forall a :: a in old(utterances) ==> a[..] == old(a[..])
    {
      Finalize();
    }

    /** A speech frame, after the watchdog has been told. */
    method Hear(pcm: Pcm, raw: bool)
      requires Valid()
      modifies this, buffer
      ensures Valid() && old(utterances) <= utterances
      ensures View() == Gather(c, old(View()), pcm, raw)
      ensures utterances == old(utterances) && log == old(log)
      ensures buffer == old(buffer) || fresh(buffer)
    {
      if !inUtterance {
        inUtterance := true;
        length := 0;
        rawSpeechCount := 0;
      }
      if raw {
        rawSpeechCount := rawSpeechCount + 1;
      }
      if c.hasCallback {
        Append(pcm);
      }
    }

    method Speak(pcm: Pcm, raw: bool)
      requires Valid()
      modifies this, buffer
      ensures Valid() && Speaks(c, rms, old(View()), pcm, raw, View())
      ensures old(utterances) <= utterances
    {
      Hear(pcm, raw);
      if c.hasCallback && c.cap > 0 && length >= c.cap {
        ghost var s2 := View();
        var cut := ForceSplit();
        assert View() == s2.(acc := s2.acc[cut..], log := s2.log + [Forced(s2.acc, cut)]);
      }
    }

    /** A frame re-arms the watchdog and ends an outage. */
    method Rearm()
      requires Valid()
      modifies this`armed, this`stalled, this`signals
      ensures Valid() && View() == FrameSeen(c, old(View()))
    {
      armed := c.stallTimeout;
      if stalled {
        stalled := false;
        signals := signals + [Restored];
      }
    }

    /** One captured frame.  Nothing handed out earlier changes. */
    method OnFrame(pcm: Pcm, speech: bool, raw: bool)
      requires Valid()
      modifies this, buffer
      ensures Valid() && Next(c, rms, old(View()), Frame(pcm, speech, raw), View())
      ensures old(utterances) <= utterances
      ensures forall a :: a in old(utterances) ==> a[..] == old(a[..])
    {
      Rearm();
      if speech {
        Speak(pcm, raw);
      } else if inUtterance {
        Finalize();
      }
    }
  }
}
