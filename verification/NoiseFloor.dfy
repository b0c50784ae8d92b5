/**
 The noise floor of internal/audio/vad.go: the calibration median and the
 moving average that follows it.
 */
module NoiseFloor {

  /** How many samples satisfy x <= bound. */
  function AtMost(xs: seq<real>, bound: real): (n: nat)
    ensures n <= |xs|
  {
    if xs == [] then 0 else (if xs[0] <= bound then 1 else 0) + AtMost(xs[1..], bound)
  }

  function AtLeast(xs: seq<real>, bound: real): (n: nat)
    ensures n <= |xs|
  {
    if xs == [] then 0 else (if xs[0] >= bound then 1 else 0) + AtLeast(xs[1..], bound)
  }

  predicate Sorted(xs: seq<real>) {
    forall i, j :: 0 <= i <= j < |xs| ==> xs[i] <= xs[j]
  }

  function Insert(x: real, xs: seq<real>): (r: seq<real>)
    requires Sorted(xs)
    ensures |r| == |xs| + 1 && Sorted(r)
    ensures r[0] == if xs == [] || x <= xs[0] then x else xs[0]
  {
    if xs == [] || x <= xs[0] then [x] + xs else [xs[0]] + Insert(x, xs[1..])
  }

  /** slices.Sort on a copy. */
  function Sort(xs: seq<real>): (r: seq<real>)
    ensures |r| == |xs| && Sorted(r)
  {
    if xs == [] then [] else Insert(xs[0], Sort(xs[1..]))
  }

  lemma {:induction false} InsertPermutes(x: real, xs: seq<real>)
    requires Sorted(xs)
    ensures multiset(Insert(x, xs)) == multiset(xs) + multiset{x}
  {
    if xs != [] && x > xs[0] {
      InsertPermutes(x, xs[1..]);
      assert xs == [xs[0]] + xs[1..];
    }
  }

  /** Sort rearranges its input and nothing more. */
  lemma {:induction false} SortPermutes(xs: seq<real>)
    ensures multiset(Sort(xs)) == multiset(xs)
  {
    if xs != [] {
      SortPermutes(xs[1..]);
      InsertPermutes(xs[0], Sort(xs[1..]));
      assert xs == [xs[0]] + xs[1..];
    }
  }

  function Median(xs: seq<real>): real {
    var sorted := Sort(xs);
    var n := |sorted|;
    if n == 0 then 0.0
    else if n % 2 == 1 then sorted[n / 2]
    else (sorted[n / 2 - 1] + sorted[n / 2]) / 2.0
  }

  lemma {:induction false} InsertCounts(x: real, xs: seq<real>, bound: real)
    requires Sorted(xs)
    ensures AtMost(Insert(x, xs), bound) == AtMost(xs, bound) + if x <= bound then 1 else 0
    ensures AtLeast(Insert(x, xs), bound) == AtLeast(xs, bound) + if x >= bound then 1 else 0
  {
    if xs != [] && x > xs[0] {
      InsertCounts(x, xs[1..], bound);
      assert Insert(x, xs)[1..] == Insert(x, xs[1..]);
    } else {
      assert Insert(x, xs)[1..] == xs;
    }
  }

  lemma {:induction false} SortCounts(xs: seq<real>, bound: real)
    ensures AtMost(Sort(xs), bound) == AtMost(xs, bound)
    ensures AtLeast(Sort(xs), bound) == AtLeast(xs, bound)
  {
    if xs != [] {
      SortCounts(xs[1..], bound);
      InsertCounts(xs[0], Sort(xs[1..]), bound);
    }
  }

  /** In sorted order the samples at most a bound come first, and those at least it come last. */
  lemma {:induction false} CountsArePlaces(xs: seq<real>, bound: real, k: nat)
    requires Sorted(xs) && k < |xs|
    ensures k < AtMost(xs, bound) <==> xs[k] <= bound
    ensures |xs| - k <= AtLeast(xs, bound) <==> xs[k] >= bound
  {
    if k > 0 {
      CountsArePlaces(xs[1..], bound, k - 1);
      assert xs[0] <= xs[k];
      if xs[0] >= bound { AllAtLeast(xs, bound); }
    } else {
      if xs[0] > bound { NoneAtMost(xs, bound); }
      if xs[0] >= bound { AllAtLeast(xs, bound); }
    }
  }

  lemma {:induction false} NoneAtMost(xs: seq<real>, bound: real)
    requires forall i :: 0 <= i < |xs| ==> xs[i] > bound
    ensures AtMost(xs, bound) == 0
  {
    if xs != [] { NoneAtMost(xs[1..], bound); }
  }

  lemma {:induction false} AllAtLeast(xs: seq<real>, bound: real)
    requires forall i :: 0 <= i < |xs| ==> xs[i] >= bound
    ensures AtLeast(xs, bound) == |xs|
  {
    if xs != [] { AllAtLeast(xs[1..], bound); }
  }

  /**
   Fewer than half of the samples cannot drag the median anywhere: it is at
   most whatever bounds more than half of them from above, and at least
   whatever bounds more than half of them from below.
   */
  lemma MedianIsRobust(xs: seq<real>, bound: real)
    ensures 2 * AtMost(xs, bound) > |xs| ==> Median(xs) <= bound
    ensures 2 * AtLeast(xs, bound) > |xs| ==> Median(xs) >= bound
  {
    var sorted := Sort(xs);
    var n := |sorted|;
    SortCounts(xs, bound);
    if n > 0 {
      CountsArePlaces(sorted, bound, n / 2);
      if n % 2 == 0 { CountsArePlaces(sorted, bound, n / 2 - 1); }
    }
  }

  /**
   Which sample the median is: of an odd number the one in the middle, of an even
   number the mean of the two in the middle, of none zero.
   */
  lemma MedianExactly(xs: seq<real>) returns (lo: real, hi: real)
    ensures Median(xs) == (lo + hi) / 2.0
    ensures xs == [] ==> lo == hi == 0.0
    ensures xs != [] ==> lo in xs && hi in xs
    ensures |xs| % 2 == 1 ==> lo == hi && 2 * AtMost(xs, lo) > |xs| && 2 * AtLeast(xs, lo) > |xs|
    ensures |xs| % 2 == 0 && xs != [] ==>
              && 2 * AtMost(xs, lo) >= |xs| && 2 * AtLeast(xs, lo) > |xs|
              && 2 * AtMost(xs, hi) > |xs| && 2 * AtLeast(xs, hi) >= |xs|
  {
    lo, hi := 0.0, 0.0;
    if xs != [] {
      var sorted, n := Sort(xs), |xs|;
      lo, hi := sorted[(n - 1) / 2], sorted[n / 2];
      SortPermutes(xs);
      assert lo in multiset(sorted) && hi in multiset(sorted);
      SortCounts(xs, lo);
      SortCounts(xs, hi);
      CountsArePlaces(sorted, lo, (n - 1) / 2);
      CountsArePlaces(sorted, hi, n / 2);
    }
  }

  function Max(a: real, b: real): real {
    if a < b then b else a
  }

  /** The floor once calibration completes. */
  function Calibrated(samples: seq<real>, minFloor: real): real {
    Max(Median(samples), minFloor)
  }

  /** The moving average over a silent frame whose loudest window is `loudest`. */
  function Drift(floor: real, decay: real, loudest: real, minFloor: real): real {
    Max((1.0 - decay) * floor + decay * loudest, minFloor)
  }

  /** Clicks in fewer than half of the calibration samples do not raise the floor. */
  lemma CalibrationIgnoresClicks(samples: seq<real>, minFloor: real, x: real)
    requires x >= minFloor && 2 * AtMost(samples, x) > |samples|
    ensures minFloor <= Calibrated(samples, minFloor) <= x
  {
    MedianIsRobust(samples, x);
  }

  /** A level reached by more than half of the calibration samples raises the floor to it. */
  lemma CalibrationHearsNoise(samples: seq<real>, minFloor: real, x: real)
    requires 2 * AtLeast(samples, x) > |samples|
    ensures x <= Calibrated(samples, minFloor)
  {
    MedianIsRobust(samples, x);
  }

  /** Both, for every level. */
  lemma CalibrationTrustsMost(samples: seq<real>, minFloor: real)
    ensures forall x :: x >= minFloor && 2 * AtMost(samples, x) > |samples| ==>
              minFloor <= Calibrated(samples, minFloor) <= x
    ensures forall x :: 2 * AtLeast(samples, x) > |samples| ==> x <= Calibrated(samples, minFloor)
  {
    forall x | x >= minFloor && 2 * AtMost(samples, x) > |samples|
      ensures minFloor <= Calibrated(samples, minFloor) <= x
    {
      CalibrationIgnoresClicks(samples, minFloor, x);
    }
    forall x | 2 * AtLeast(samples, x) > |samples| ensures x <= Calibrated(samples, minFloor) {
      CalibrationHearsNoise(samples, minFloor, x);
    }
  }

  /** The floor stays between its lower bound and the larger of its old value and what was heard. */
  lemma DriftIsBounded(floor: real, decay: real, loudest: real, minFloor: real)
    requires 0.0 <= decay <= 1.0 && floor >= minFloor
    ensures minFloor <= Drift(floor, decay, loudest, minFloor) <= Max(floor, loudest)
  {
    Average(decay, floor, loudest, Max(floor, loudest));
  }

  /** The floor after a stretch of silent frames, oldest first. */
  function Drifts(floor: real, decay: real, heard: seq<real>, minFloor: real): real {
    if heard == [] then floor
    else Drift(Drifts(floor, decay, heard[..|heard|-1], minFloor), decay, heard[|heard|-1], minFloor)
  }

  /** However long the silence, the floor never rises above everything it has been or heard. */
  lemma {:induction false} FloorNeverOvershoots(floor: real, decay: real, heard: seq<real>, minFloor: real, bound: real)
    requires 0.0 <= decay <= 1.0 && minFloor <= floor <= bound
    requires forall i :: 0 <= i < |heard| ==> heard[i] <= bound
    ensures minFloor <= Drifts(floor, decay, heard, minFloor) <= bound
  {
    if heard != [] {
      var n := |heard| - 1;
      FloorNeverOvershoots(floor, decay, heard[..n], minFloor, bound);
      DriftIsBounded(Drifts(floor, decay, heard[..n], minFloor), decay, heard[n], minFloor);
    }
  }

  function Pow(x: real, n: nat): real {
    if n == 0 then 1.0 else Pow(x, n - 1) * x
  }

  lemma ProductNonNegative(a: real, b: real)
    requires a >= 0.0 && b >= 0.0
    ensures a * b >= 0.0
  {
  }

  lemma ProductIsFraction(p: real, x: real)
    requires 0.0 <= p <= 1.0 && 0.0 <= x <= 1.0
    ensures 0.0 <= p * x <= 1.0
  {
    ProductNonNegative(p, x);
    ProductNonNegative(p, 1.0 - x);
    assert p * (1.0 - x) == p - p * x;
  }

  lemma {:induction false} PowIsFraction(x: real, n: nat)
    requires 0.0 <= x <= 1.0
    ensures 0.0 <= Pow(x, n) <= 1.0
  {
    if n > 0 {
      PowIsFraction(x, n - 1);
      ProductIsFraction(Pow(x, n - 1), x);
    }
  }

  /** Where the floor would be after n frames at one ambient level if nothing bounded it. */
  function Decayed(floor: real, decay: real, ambient: real, n: nat): real {
    ambient + Pow(1.0 - decay, n) * (floor - ambient)
  }

  /**
   In a steady ambient noise the floor approaches it geometrically: every silent
   frame leaves the fraction 1 - decay of the distance, until the lower bound
   stops it.
   */
  lemma {:induction false} FloorConverges(floor: real, decay: real, heard: seq<real>, minFloor: real, ambient: real)
    requires 0.0 <= decay <= 1.0 && minFloor <= floor
    requires forall i :: 0 <= i < |heard| ==> heard[i] == ambient
    ensures Drifts(floor, decay, heard, minFloor)
            == Max(Decayed(floor, decay, ambient, |heard|), minFloor)
    decreases |heard|
  {
    if heard != [] {
      var n := |heard| - 1;
      FloorConverges(floor, decay, heard[..n], minFloor, ambient);
      ConvergesOnce(floor, decay, minFloor, ambient, n);
    } else {
      DecayedStart(floor, decay, ambient);
    }
  }

  lemma DecayedStart(floor: real, decay: real, ambient: real)
    ensures Decayed(floor, decay, ambient, 0) == floor
  {
  }

  lemma ConvergesOnce(floor: real, decay: real, minFloor: real, ambient: real, n: nat)
    requires 0.0 <= decay <= 1.0 && minFloor <= floor
    ensures Drift(Max(Decayed(floor, decay, ambient, n), minFloor), decay, ambient, minFloor)
            == Max(Decayed(floor, decay, ambient, n + 1), minFloor)
  {
    StaysAbove(floor, decay, minFloor, ambient, n);
    StepsCloser(Decayed(floor, decay, ambient, n), decay, minFloor, ambient);
    DecayedStep(floor, decay, ambient, n);
  }

  lemma DecayedStep(floor: real, decay: real, ambient: real, n: nat)
    ensures Decayed(floor, decay, ambient, n + 1)
            == (1.0 - decay) * Decayed(floor, decay, ambient, n) + decay * ambient
  {
    var p, r, d := Pow(1.0 - decay, n), 1.0 - decay, floor - ambient;
    assert r * (ambient + p * d) == r * ambient + r * (p * d);
    assert (p * r) * d == r * (p * d);
    assert r * ambient + decay * ambient == ambient;
  }

  /** Only an ambient level below the bound takes the floor there. */
  lemma StaysAbove(floor: real, decay: real, minFloor: real, ambient: real, n: nat)
    requires 0.0 <= decay <= 1.0 && minFloor <= floor
    ensures ambient >= minFloor ==> Decayed(floor, decay, ambient, n) >= minFloor
  {
    var p := Pow(1.0 - decay, n);
    PowIsFraction(1.0 - decay, n);
    if ambient >= minFloor { Mixed(p, ambient, floor, minFloor); }
  }

  /** A weighted average is no smaller than a common bound. */
  lemma Mixed(v: real, a: real, b: real, m: real)
    requires 0.0 <= v <= 1.0 && m <= a && m <= b
    ensures a + v * (b - a) >= m
  {
    if b >= a {
      assert v * (b - a) >= 0.0;
    } else {
      assert (1.0 - v) * (a - b) >= 0.0;
      assert (1.0 - v) * (a - b) == (a - b) - v * (a - b);
      assert v * (a - b) == -(v * (b - a));
    }
  }

  /** Below the bound, and in an ambient level below it, the floor stays at the bound. */
  lemma StaysDown(u: real, decay: real, minFloor: real, ambient: real)
    requires 0.0 <= decay <= 1.0 && u <= minFloor && ambient <= minFloor
    ensures Drift(u, decay, ambient, minFloor) == minFloor
  {
    Average(decay, u, ambient, minFloor);
  }

  lemma StepsCloser(u: real, decay: real, minFloor: real, ambient: real)
    requires 0.0 <= decay <= 1.0 && (ambient >= minFloor ==> u >= minFloor)
    ensures Drift(Max(u, minFloor), decay, ambient, minFloor)
            == Drift(u, decay, ambient, minFloor)
  {
    if u < minFloor {
      StaysDown(minFloor, decay, minFloor, ambient);
      StaysDown(u, decay, minFloor, ambient);
    }
  }

  /** A weighted average is no larger than a common bound. */
  lemma Average(v: real, a: real, b: real, m: real)
    requires 0.0 <= v <= 1.0 && a <= m && b <= m
    ensures (1.0 - v) * a + v * b <= m
  {
    var u, p, q := 1.0 - v, m - a, m - b;
    assert u * p >= 0.0 && v * q >= 0.0;
    calc {
      u * a + v * b;
      u * (m - p) + v * (m - q);
      (u * m - u * p) + (v * m - v * q);
      u * m + v * m - u * p - v * q;
      { assert u * m + v * m == m; }
      m - u * p - v * q;
    }
  }
}
