/**
 Where a forced split cuts an over-long utterance: quietestSplit of
 cmd/dictad/audiomonitor.go.  A frame is F bytes; the root-mean-square of a
 frame is any function `rms`.
 */
module QuietestSplit {
  import opened Common

  // ------------------------------------------------------- multiples of F

  lemma MulMono(a: int, b: int, F: nat)
    requires a <= b
    ensures a * F <= b * F
  {
  }

  lemma {:induction false} MultipleOf(k: nat, F: nat)
    requires F > 0
    ensures (k * F) % F == 0
  {
    var q, r := (k * F) / F, (k * F) % F;
    assert (k - q) * F == r;
    if k - q >= 1 {
      MulMono(1, k - q, F);
    } else if k - q <= -1 {
      MulMono(k - q, -1, F);
    }
  }

  lemma FrameInside(length: nat, F: nat, i: nat)
    requires F > 0 && i < length / F
    ensures i * F <= (i + 1) * F <= length
  {
    MulMono(i, i + 1, F);
    MulMono(i + 1, length / F, F);
  }

  /** Whole frame i of the buffer. */
  function WholeFrame(pcm: Pcm, F: nat, i: nat): (frame: Pcm)
    requires i * F <= (i + 1) * F <= |pcm|
    ensures frame == pcm[i * F..(i + 1) * F]
  {
    pcm[i * F..(i + 1) * F]
  }

  // -------------------------------------------------------------- the cut

  /** The loudness of each whole frame of the buffer. */
  function Levels(pcm: Pcm, F: nat, rms: Pcm -> real): (levels: seq<real>)
    requires F > 0
    ensures |levels| == |pcm| / F
  {
    seq(|pcm| / F, i requires 0 <= i < |pcm| / F => Level(pcm, F, rms, i))
  }

  function Level(pcm: Pcm, F: nat, rms: Pcm -> real, i: nat): real
    requires F > 0 && i < |pcm| / F
  {
    FrameInside(|pcm|, F, i);
    rms(pcm[i * F..(i + 1) * F])
  }

  /** How many trailing frames are searched: never more than half of them. */
  function Window(frames: nat, searchFrames: nat): nat {
    if searchFrames < frames / 2 then searchFrames else frames / 2
  }

  /** Frame b is the latest of the quietest frames from lo on. */
  ghost predicate LatestQuietest(levels: seq<real>, lo: nat, b: nat) {
    && lo <= b < |levels|
    && (forall i :: lo <= i < |levels| ==> levels[b] <= levels[i])
    && (forall i :: b < i < |levels| ==> levels[b] < levels[i])
  }

  /** How many frames the cut keeps. */
  ghost predicate KeepsFrames(levels: seq<real>, searchFrames: nat, kept: nat) {
    var w := Window(|levels|, searchFrames);
    if w == 0 then kept == |levels|
    else kept > 0 && LatestQuietest(levels, |levels| - w, kept - 1)
  }

  /** What the cut promises. */
  ghost predicate GoodCut(pcm: Pcm, searchBytes: nat, F: nat, rms: Pcm -> real, cut: nat)
    requires F > 0
  {
    if |pcm| / F == 0 then cut == |pcm|
    else exists kept: nat ::
      KeepsFrames(Levels(pcm, F, rms), searchBytes / F, kept) && cut == kept * F
  }

  /** The cut as the program computes it. */
  method Split(pcm: Pcm, searchBytes: nat, F: nat, rms: Pcm -> real) returns (cut: nat)
    requires F > 0
    ensures GoodCut(pcm, searchBytes, F, rms, cut) && cut <= |pcm|
    // no whole frame of the last half, within searchBytes of the end, is quieter, and none after the cut as quiet
    ensures var f := |pcm| / F;
      forall i: nat :: i < f && i * F <= (i + 1) * F <= |pcm| && 2 * (f - i) <= f && f - i <= searchBytes / F ==>
        && F <= cut && rms(pcm[cut - F..cut]) <= rms(WholeFrame(pcm, F, i))
        && (cut <= i * F ==> rms(pcm[cut - F..cut]) < rms(WholeFrame(pcm, F, i)))
    // the cut ends such a frame, or the whole frames when there is none, or the buffer when it holds no frame
    ensures var f, kept := |pcm| / F, cut / F;
      if f == 0 then cut == |pcm|
      else
        && cut == kept * F
        && if f == 1 || searchBytes < F then kept == f
           else 0 < kept <= f && 2 * (f - (kept - 1)) <= f && f - (kept - 1) <= searchBytes / F
  {
    var frames := |pcm| / F;
    if frames == 0 {
      return |pcm|;
    }
    var best := BestFrame(Levels(pcm, F, rms), searchBytes / F);
    cut := best * F;
    CutInside(pcm, searchBytes, F, rms, cut);
    CutIsQuietest(pcm, searchBytes, F, rms, best);
    CutIsSearched(frames, Levels(pcm, F, rms), searchBytes, F, best);
    WholeFrames(best, F);
  }

  method BestFrame(levels: seq<real>, searchFrames: nat) returns (best: nat)
    ensures KeepsFrames(levels, searchFrames, best)
  {
    var frames := |levels|;
    var window := Window(frames, searchFrames);
    best := frames;
    var bestRMS: Option<real> := None;   // None stands for +Inf
    var i := frames - window;
    while i < frames
      invariant frames - window <= i <= frames
      invariant i == frames - window ==> best == frames && bestRMS == None
      invariant i > frames - window ==>
                  && best > 0 && LatestQuietest(levels[..i], frames - window, best - 1)
                  && bestRMS == Some(levels[best - 1])
    {
      if bestRMS.None? || levels[i] <= bestRMS.value {
        best, bestRMS := i + 1, Some(levels[i]);
      }
      i := i + 1;
    }
    assert levels[..frames] == levels;
  }

  /** What the cut means for the frames themselves. */
  lemma CutIsQuietest(pcm: Pcm, searchBytes: nat, F: nat, rms: Pcm -> real, kept: nat)
    requires F > 0 && |pcm| / F > 0 && KeepsFrames(Levels(pcm, F, rms), searchBytes / F, kept) && kept * F <= |pcm|
    ensures var f, cut := |pcm| / F, kept * F;
      forall i: nat :: i < f && i * F <= (i + 1) * F <= |pcm| && 2 * (f - i) <= f && f - i <= searchBytes / F ==>
        && F <= cut && rms(pcm[cut - F..cut]) <= rms(WholeFrame(pcm, F, i))
        && (cut <= i * F ==> rms(pcm[cut - F..cut]) < rms(WholeFrame(pcm, F, i)))
  {
    var f, levels := |pcm| / F, Levels(pcm, F, rms);
    forall i: nat | i < f && i * F <= (i + 1) * F <= |pcm| && 2 * (f - i) <= f && f - i <= searchBytes / F
      ensures F <= kept * F && rms(pcm[kept * F - F..kept * F]) <= rms(WholeFrame(pcm, F, i))
      ensures kept * F <= i * F ==> rms(pcm[kept * F - F..kept * F]) < rms(WholeFrame(pcm, F, i))
    {
      var w := Window(f, searchBytes / F);
      assert 0 < w && f - w <= i;
      assert LatestQuietest(levels, f - w, kept - 1);
      MulMono(1, kept, F);
      assert (kept - 1) * F == kept * F - F;
      assert levels[kept - 1] == rms(pcm[kept * F - F..kept * F]) && levels[i] == rms(WholeFrame(pcm, F, i));
      if kept * F <= i * F && i < kept { MulMono(i + 1, kept, F); }
    }
  }

  /** Where the cut can fall. */
  lemma CutIsSearched(f: nat, levels: seq<real>, searchBytes: nat, F: nat, kept: nat)
    requires F > 0 && f == |levels| > 0 && KeepsFrames(levels, searchBytes / F, kept)
    ensures if f == 1 || searchBytes < F then kept == f
            else 0 < kept <= f && 2 * (f - (kept - 1)) <= f && f - (kept - 1) <= searchBytes / F
  {
    if searchBytes < F {
      assert searchBytes / F == 0;
    } else {
      AtLeastOneFrame(searchBytes, F);
    }
  }

  lemma AtLeastOneFrame(length: nat, F: nat)
    requires 0 < F <= length
    ensures length / F >= 1
  {
  }

  /** Only one cut is good: the quietest frame, and among equals the latest. */
  lemma CutIsUnique(levels: seq<real>, searchFrames: nat, kept: nat, kept': nat)
    requires KeepsFrames(levels, searchFrames, kept) && KeepsFrames(levels, searchFrames, kept')
    ensures kept == kept'
  {
    if Window(|levels|, searchFrames) > 0 {
      NoneLater(levels, |levels| - Window(|levels|, searchFrames), kept - 1, kept' - 1);
      NoneLater(levels, |levels| - Window(|levels|, searchFrames), kept' - 1, kept - 1);
    }
  }

  lemma NoneLater(levels: seq<real>, lo: nat, b: nat, d: nat)
    requires LatestQuietest(levels, lo, b) && LatestQuietest(levels, lo, d)
    ensures d <= b
  {
    assert levels[d] <= levels[b];
  }

  /** The cut keeps more than half of the frames, so less than half are carried over. */
  lemma KeepsMoreThanHalf(levels: seq<real>, searchFrames: nat, kept: nat)
    requires |levels| > 0 && KeepsFrames(levels, searchFrames, kept)
    ensures 2 * kept > |levels| && kept <= |levels|
  {
  }

  lemma WholePart(length: nat, F: nat)
    requires F > 0
    ensures length / F * F <= length
  {
  }

  lemma KeptInside(levels: seq<real>, searchFrames: nat, kept: nat, F: nat)
    requires KeepsFrames(levels, searchFrames, kept)
    ensures kept * F <= |levels| * F
  {
    MulMono(kept, |levels|, F);
  }

  lemma CutInside(pcm: Pcm, searchBytes: nat, F: nat, rms: Pcm -> real, cut: nat)
    requires F > 0 && GoodCut(pcm, searchBytes, F, rms, cut)
    ensures cut <= |pcm|
  {
    WholePart(|pcm|, F);
    if |pcm| / F > 0 {
      var levels, searchFrames := Levels(pcm, F, rms), searchBytes / F;
      var kept: nat :| KeepsFrames(levels, searchFrames, kept) && cut == kept * F;
      KeptInside(levels, searchFrames, kept, F);
    }
  }

  /** The same in bytes, for a buffer of n whole frames. */
  lemma CutBounds(pcm: Pcm, searchBytes: nat, F: nat, rms: Pcm -> real, n: nat, cut: nat) returns (kept: nat)
    requires F > 0 && n > 0 && |pcm| == n * F && GoodCut(pcm, searchBytes, F, rms, cut)
    ensures cut == kept * F && n < 2 * kept && kept <= n
    ensures cut % F == 0 && cut <= |pcm| && 2 * cut > |pcm|
  {
    WholeFrames(n, F);
    kept :| KeepsFrames(Levels(pcm, F, rms), searchBytes / F, kept) && cut == kept * F;
    KeepsMoreThanHalf(Levels(pcm, F, rms), searchBytes / F, kept);
    MultipleOf(kept, F);
    HalfInBytes(n, kept, F);
  }

  lemma HalfInBytes(n: nat, kept: nat, F: nat)
    requires F > 0 && n < 2 * kept && kept <= n
    ensures kept * F <= n * F < 2 * (kept * F)
  {
    MulMono(kept, n, F);
    MulMono(n + 1, 2 * kept, F);
  }

  lemma WholeFrames(n: nat, F: nat)
    requires F > 0
    ensures n * F / F == n
  {
    MultipleOf(n, F);
    var q := n * F / F;
    assert (n - q) * F == 0;
    if n - q >= 1 {
      MulMono(1, n - q, F);
    } else if n - q <= -1 {
      MulMono(n - q, -1, F);
    }
  }
}
