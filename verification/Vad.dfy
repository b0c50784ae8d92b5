/**
 EnergyVAD of internal/audio/vad.go: calibration, the raw threshold test, and
 the hangover.  Durations are whole nanoseconds; the loudness of a window is
 any function `rms`.
 */
module Vad {
  import opened Common
  import opened NoiseFloor

  // --------------------------------------------------------------- windows

  /** Window i of the buffer, w bytes long. */
  function WindowPcm(pcm: Pcm, w: nat, i: nat): (r: Pcm)
    requires i * w <= (i + 1) * w <= |pcm|
    ensures r == pcm[i * w..(i + 1) * w]
  {
    pcm[i * w..(i + 1) * w]
  }

  /** One loudness per full window; a buffer too short for one is a single window. */
  function Windows(pcm: Pcm, windowSamples: int, rms: Pcm -> real): (r: seq<real>) {
    if windowSamples <= 0 then []
    else
      var n := |pcm| / 2 * 2;
      var winBytes := windowSamples * 2;
      if n < winBytes then if n == 0 then [] else [rms(pcm[..n])]
      else seq(n / winBytes, i requires 0 <= i < n / winBytes => WindowAt(pcm, n, winBytes, rms, i))
  }

  function WindowAt(pcm: Pcm, n: nat, winBytes: nat, rms: Pcm -> real, i: nat): real
    requires winBytes > 0 && n <= |pcm| && i < n / winBytes
  {
    WindowInside(n, winBytes, i);
    rms(WindowPcm(pcm, winBytes, i))
  }

  lemma WindowInside(n: nat, winBytes: nat, i: nat)
    requires winBytes > 0 && i < n / winBytes
    ensures i * winBytes <= (i + 1) * winBytes <= n
  {
    assert (i + 1) * winBytes <= n / winBytes * winBytes;
  }

  lemma WholeWindows(n: nat, w: nat, i: nat)
    requires w > 0
    ensures (i + 1) * w <= n <==> i < n / w
  {
    if i < n / w {
      WindowInside(n, w, i);
    } else {
      assert (i + 1) * w >= (n / w + 1) * w > n;
    }
  }

  /**
   Some window is louder than the threshold: of the whole windows in the even
   part of the buffer, or that part itself when it is shorter than a window.
   */
  ghost predicate SomeWindowAbove(pcm: Pcm, w: nat, rms: Pcm -> real, threshold: real) {
    var n := |pcm| / 2 * 2;
    w > 0 && if n < w then n > 0 && rms(pcm[..n]) > threshold
             else exists i: nat :: i * w <= (i + 1) * w <= n && rms(WindowPcm(pcm, w, i)) > threshold
  }

  /** These are the loudnesses of the whole windows, in order, or of the part shorter than one. */
  ghost predicate AreLevels(values: seq<real>, pcm: Pcm, w: nat, rms: Pcm -> real) {
    var n := |pcm| / 2 * 2;
    if w == 0 || n == 0 then values == []
    else if n < w then values == [rms(pcm[..n])]
    else |values| == n / w && forall i: nat :: i < |values| && i * w <= (i + 1) * w <= n ==>
           values[i] == rms(WindowPcm(pcm, w, i))
  }

  lemma WindowsAreLevels(pcm: Pcm, windowSamples: nat, rms: Pcm -> real)
    ensures AreLevels(Windows(pcm, windowSamples, rms), pcm, windowSamples * 2, rms)
  {
  }

  lemma AboveIsSomeWindow(values: seq<real>, pcm: Pcm, w: nat, rms: Pcm -> real, threshold: real)
    requires AreLevels(values, pcm, w, rms)
    ensures AnyAbove(values, threshold) <==> SomeWindowAbove(pcm, w, rms, threshold)
  {
    var n := |pcm| / 2 * 2;
    if 0 < w <= n {
      if i: nat :| i < |values| && values[i] > threshold {
        WindowInside(n, w, i);
        assert rms(WindowPcm(pcm, w, i)) > threshold;
      }
      if i: nat :| i * w <= (i + 1) * w <= n && rms(WindowPcm(pcm, w, i)) > threshold {
        WholeWindows(n, w, i);
        assert values[i] > threshold;
      }
    } else if w > 0 && n > 0 {
      assert values[0] == rms(pcm[..n]);
    }
  }

  lemma WindowsMean(pcm: Pcm, windowSamples: int, rms: Pcm -> real, threshold: real)
    ensures var values := Windows(pcm, windowSamples, rms);
      windowSamples >= 0 ==>
        && AreLevels(values, pcm, windowSamples * 2, rms)
        && (AnyAbove(values, threshold) <==> SomeWindowAbove(pcm, windowSamples * 2, rms, threshold))
  {
    if windowSamples >= 0 {
      WindowsAreLevels(pcm, windowSamples, rms);
      AboveIsSomeWindow(Windows(pcm, windowSamples, rms), pcm, windowSamples * 2, rms, threshold);
    }
  }

  /** The loudest window, at least zero. */
  function Loudest(values: seq<real>): (m: real)
    ensures m >= 0.0
    ensures forall i :: 0 <= i < |values| ==> values[i] <= m
    ensures m == 0.0 || m in values
  {
    if values == [] then 0.0 else Max(Loudest(values[..|values|-1]), values[|values|-1])
  }

  predicate AnyAbove(values: seq<real>, threshold: real) {
    exists i :: 0 <= i < |values| && values[i] > threshold
  }

  // -------------------------------------------------------------- hangover

  /** Frame k counts as speech: a raw speech frame no more than a hangover ago. */
  ghost predicate WithinHangover(raws: seq<bool>, frameDur: int, hangover: int, k: nat)
    requires k < |raws|
  {
    exists j :: 0 <= j <= k && raws[j] && (j == k || (k - j) * frameDur < hangover)
  }

  /** What the counter and the flag stand for. */
  ghost predicate Remembers(raws: seq<bool>, frameDur: int, hangover: int, silenceRun: int, inUtterance: bool) {
    && (inUtterance ==> exists j :: LastRaw(raws, j) && silenceRun == (|raws| - 1 - j) * frameDur)
    && (!inUtterance ==> forall j :: 0 <= j < |raws| && raws[j] ==> (|raws| - 1 - j) * frameDur >= hangover && j < |raws| - 1)
  }

  ghost predicate LastRaw(raws: seq<bool>, j: int) {
    0 <= j < |raws| && raws[j] && forall i :: j < i < |raws| ==> !raws[i]
  }

  datatype Config = Config(marginRatio: real, hangover: int, calibrate: int, windowSamples: int,
                           decay: real, minFloor: real, seed: real, frameDur: int)

  class EnergyVAD {
    const cfg: Config
    const rms: Pcm -> real

    var floor: real
    var calibrateRemaining: int
    var calSamples: seq<real>
    var inUtterance: bool
    var silenceRun: int
    var lastRawSpeech: bool
    ghost var raws: seq<bool>     // raw classification of every frame since the last Reset

    ghost predicate Valid()
      reads this
    {
      && cfg.frameDur > 0
      && Remembers(raws, cfg.frameDur, cfg.hangover, silenceRun, inUtterance)
      && (raws != [] ==> lastRawSpeech == raws[|raws| - 1])
      && (cfg.seed >= cfg.minFloor ==> floor >= cfg.minFloor)
    }

    /** What one frame does to the floor, as bounds: `x` is any level. */
    twostate predicate FloorIsTame(values: seq<real>)
      reads this
    {
      && (old(calibrateRemaining) > 0 >= calibrateRemaining ==>
            && (forall x :: x >= cfg.minFloor && 2 * AtMost(calSamples, x) > |calSamples| ==> cfg.minFloor <= floor <= x)
            && (forall x :: 2 * AtLeast(calSamples, x) > |calSamples| ==> x <= floor))
      && (old(calibrateRemaining) <= 0 && 0.0 <= cfg.decay <= 1.0 && cfg.seed >= cfg.minFloor ==>
            cfg.minFloor <= floor <= Max(old(floor), Loudest(values)))
    }

    constructor (cfg: Config, rms: Pcm -> real)
      requires cfg.frameDur > 0
      ensures Valid() && raws == [] && this.cfg == cfg
      ensures floor == cfg.seed && calibrateRemaining == cfg.calibrate && calSamples == []
    {
      this.cfg, this.rms := cfg, rms;
      floor, calibrateRemaining, calSamples := cfg.seed, cfg.calibrate, [];
      inUtterance, silenceRun, lastRawSpeech := false, 0, false;
      raws := [];
    }

    method Reset()
      requires Valid()
      modifies this
      ensures Valid() && raws == []
      ensures floor == cfg.seed && calibrateRemaining == cfg.calibrate && calSamples == []
    {
      floor := cfg.seed;
      calibrateRemaining := cfg.calibrate;
      calSamples := [];
      inUtterance := false;
      silenceRun := 0;
      lastRawSpeech := false;
      raws := [];
    }

    method ApplyHangover(rawSpeech: bool) returns (speech: bool)
      requires cfg.frameDur > 0 && Remembers(raws, cfg.frameDur, cfg.hangover, silenceRun, inUtterance)
      modifies this`silenceRun, this`inUtterance, this`raws
      ensures raws == old(raws) + [rawSpeech]
      ensures Remembers(raws, cfg.frameDur, cfg.hangover, silenceRun, inUtterance)
      ensures speech <==> WithinHangover(raws, cfg.frameDur, cfg.hangover, |raws| - 1)
    {
      HangoverStep(raws, rawSpeech, cfg.frameDur, cfg.hangover, silenceRun, inUtterance);
      raws := raws + [rawSpeech];
      if rawSpeech {
        silenceRun := 0;
        inUtterance := true;
        return true;
      }
      silenceRun := silenceRun + cfg.frameDur;
      if inUtterance && silenceRun < cfg.hangover {
        return true;
      }
      inUtterance := false;
      return false;
    }

    /** Calibration: collect the frame's samples, and take their median when the time is up. */
    method Calibrate(values: seq<real>)
      modifies this`calSamples, this`calibrateRemaining, this`floor
      requires values != []
      ensures calSamples == old(calSamples) + values
      ensures calibrateRemaining == old(calibrateRemaining) - cfg.frameDur
      ensures floor == if calibrateRemaining <= 0 then Calibrated(calSamples, cfg.minFloor) else old(floor)
    {
      calSamples := calSamples + values;
      calibrateRemaining := calibrateRemaining - cfg.frameDur;
      if calibrateRemaining <= 0 && |calSamples| > 0 {
        var f := Median(calSamples);
        if f < cfg.minFloor {
          f := cfg.minFloor;
        }
        floor := f;
      }
    }

    /** After calibration: the threshold test, and the drift of the floor in silence. */
    method Classify(values: seq<real>) returns (rawSpeech: bool)
      modifies this`floor
      ensures rawSpeech <==> AnyAbove(values, old(floor) * cfg.marginRatio)
      ensures floor == if rawSpeech then old(floor)
                       else Drift(old(floor), cfg.decay, Loudest(values), cfg.minFloor)
    {
      var threshold := floor * cfg.marginRatio;
      var maxR;
      rawSpeech, maxR := Scan(values, threshold);
      if !rawSpeech {
        DriftTowards(maxR);
      }
    }

    method DriftTowards(loudest: real)
      modifies this`floor
      ensures floor == Drift(old(floor), cfg.decay, loudest, cfg.minFloor)
    {
      floor := (1.0 - cfg.decay) * floor + cfg.decay * loudest;
      if floor < cfg.minFloor {
        floor := cfg.minFloor;
      }
    }

    /** One frame, once its windows have been measured. */
    method Judge(values: seq<real>) returns (speech: bool)
      requires Valid()
      modifies this
      ensures Valid() && raws == old(raws) + [lastRawSpeech]
      ensures speech <==> WithinHangover(raws, cfg.frameDur, cfg.hangover, |raws| - 1)
      ensures Judged(values) && FloorIsTame(values)
    {
      ghost var was := floor;
      if |values| == 0 {
        lastRawSpeech := false;
      } else if calibrateRemaining > 0 {
        Calibrate(values);
        lastRawSpeech := false;
        CalibrationTrustsMost(calSamples, cfg.minFloor);
      } else {
        lastRawSpeech := Classify(values);
        if 0.0 <= cfg.decay <= 1.0 && was >= cfg.minFloor {
          DriftIsBounded(was, cfg.decay, Loudest(values), cfg.minFloor);
        }
      }
      speech := ApplyHangover(lastRawSpeech);
    }

    /** What a frame with these window levels does: nothing, a step of calibration, or a verdict. */
    twostate predicate Judged(values: seq<real>)
      reads this
    {
      if values == [] then
        floor == old(floor) && calSamples == old(calSamples) && !lastRawSpeech
        && calibrateRemaining == old(calibrateRemaining)
      else if old(calibrateRemaining) > 0 then
        && !lastRawSpeech && calSamples == old(calSamples) + values
        && calibrateRemaining == old(calibrateRemaining) - cfg.frameDur
        && floor == if calibrateRemaining <= 0 then Calibrated(calSamples, cfg.minFloor) else old(floor)
      else
        && calSamples == old(calSamples) && calibrateRemaining == old(calibrateRemaining)
        && (lastRawSpeech <==> AnyAbove(values, old(floor) * cfg.marginRatio))
        && floor == if lastRawSpeech then old(floor)
                    else Drift(old(floor), cfg.decay, Loudest(values), cfg.minFloor)
    }

    /**
     One frame: speech exactly when a raw speech frame lies within the hangover,
     and raw speech exactly when, after calibration, some window of the frame is
     louder than the floor by the margin.
     */
    method IsSpeech(pcm: Pcm) returns (speech: bool)
      requires Valid()
      modifies this
      ensures Valid() && raws == old(raws) + [lastRawSpeech]
      ensures speech <==> WithinHangover(raws, cfg.frameDur, cfg.hangover, |raws| - 1)
      ensures var values := Windows(pcm, cfg.windowSamples, rms);
        && Judged(values) && FloorIsTame(values)
        && (cfg.windowSamples >= 0 ==> AreLevels(values, pcm, cfg.windowSamples * 2, rms))
      ensures cfg.windowSamples >= 0 && old(calibrateRemaining) <= 0 ==>
                (lastRawSpeech <==> SomeWindowAbove(pcm, cfg.windowSamples * 2, rms, old(floor) * cfg.marginRatio))
    {
      WindowsMean(pcm, cfg.windowSamples, rms, floor * cfg.marginRatio);
      speech := Judge(Windows(pcm, cfg.windowSamples, rms));
    }
  }

  /** Does any window exceed the threshold, and how loud is the loudest? */
  method Scan(values: seq<real>, threshold: real) returns (rawSpeech: bool, maxR: real)
    ensures rawSpeech <==> AnyAbove(values, threshold)
    ensures maxR == Loudest(values)
  {
    rawSpeech, maxR := false, 0.0;
    var k := 0;
    while k < |values|
      invariant 0 <= k <= |values|
      invariant rawSpeech <==> AnyAbove(values[..k], threshold)
      invariant maxR == Loudest(values[..k])
    {
      assert values[..k + 1][..k] == values[..k];
      if values[k] > maxR {
        maxR := values[k];
      }
      if values[k] > threshold {
        assert values[..k + 1][k] > threshold;
        rawSpeech := true;
      }
      OneMore(values, threshold, k);
      k := k + 1;
    }
    assert values[..k] == values;
  }

  lemma OneMore(values: seq<real>, threshold: real, k: nat)
    requires k < |values|
    ensures AnyAbove(values[..k + 1], threshold) <==> AnyAbove(values[..k], threshold) || values[k] > threshold
  {
    if values[k] > threshold { assert values[..k + 1][k] > threshold; }
    if AnyAbove(values[..k], threshold) {
      var i :| 0 <= i < k && values[..k][i] > threshold;
      assert values[..k + 1][i] > threshold;
    }
    if AnyAbove(values[..k + 1], threshold) && values[k] <= threshold {
      var i :| 0 <= i < k + 1 && values[..k + 1][i] > threshold;
      assert values[..k][i] > threshold;
    }
  }

  /** One frame on, the counter and the flag still say how long ago speech was heard. */
  lemma HangoverStep(raws: seq<bool>, raw: bool, frameDur: int, hangover: int, silenceRun: int, inUtterance: bool)
    requires frameDur > 0 && Remembers(raws, frameDur, hangover, silenceRun, inUtterance)
    ensures var raws' := raws + [raw];
      if raw then
        Remembers(raws', frameDur, hangover, 0, true) && WithinHangover(raws', frameDur, hangover, |raws|)
      else if inUtterance && silenceRun + frameDur < hangover then
        Remembers(raws', frameDur, hangover, silenceRun + frameDur, true)
        && WithinHangover(raws', frameDur, hangover, |raws|)
      else
        Remembers(raws', frameDur, hangover, silenceRun + frameDur, false)
        && !WithinHangover(raws', frameDur, hangover, |raws|)
  {
    var raws' := raws + [raw];
    if raw {
      assert LastRaw(raws', |raws|);
    } else if inUtterance {
      var j :| LastRaw(raws, j) && silenceRun == (|raws| - 1 - j) * frameDur;
      assert LastRaw(raws', j);
      assert (|raws| - j) * frameDur == silenceRun + frameDur;
      forall i | 0 <= i < |raws'| && raws'[i] ensures (|raws| - i) * frameDur >= silenceRun + frameDur {
        assert i <= j;
        assert (|raws| - i) * frameDur == (|raws| - j) * frameDur + (j - i) * frameDur;
      }
    } else {
      forall i | 0 <= i < |raws'| && raws'[i] ensures (|raws| - i) * frameDur >= hangover {
        assert (|raws| - i) * frameDur == (|raws| - 1 - i) * frameDur + frameDur;
      }
    }
  }
}
