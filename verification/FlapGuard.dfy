/**
 The flap guard of the mute watcher: recordFireAndCheckFlap in
 cmd/dictad/mutewatch.go.
 */
module FlapGuard {

  /** The times later than the cutoff, in order. */
  function Recent(times: seq<int>, cutoff: int): (r: seq<int>)
    ensures |r| <= |times|
  {
    if times == [] then []
    else Recent(times[..|times|-1], cutoff) + if times[|times|-1] > cutoff then [times[|times|-1]] else []
  }

  datatype Guard = Guard(suspended: bool, times: seq<int>)

  function Record(window: int, threshold: int, g: Guard, now: int): Guard {
    if threshold <= 0 || g.suspended then g
    else
      var kept := Recent(g.times, now - window) + [now];
      if |kept| > threshold then Guard(true, []) else Guard(false, kept)
  }

  /** The guard after fires at these times, starting from a clear. */
  function Fires(window: int, threshold: int, h: seq<int>): Guard {
    if h == [] then Guard(false, [])
    else Record(window, threshold, Fires(window, threshold, h[..|h|-1]), h[|h|-1])
  }

  predicate Nondecreasing(h: seq<int>) {
    forall i, j :: 0 <= i < j < |h| ==> h[i] <= h[j]
  }

  lemma RecentSnoc(times: seq<int>, x: int, cutoff: int)
    ensures Recent(times + [x], cutoff) == Recent(times, cutoff) + if x > cutoff then [x] else []
  {
    assert (times + [x])[..|times|] == times;
  }

  lemma {:induction false} RecentAppend(a: seq<int>, b: seq<int>, cutoff: int)
    ensures Recent(a + b, cutoff) == Recent(a, cutoff) + Recent(b, cutoff)
  {
    if b == [] {
      assert a + b == a;
    } else {
      var n := |b| - 1;
      RecentAppend(a, b[..n], cutoff);
      RecentSnoc(a + b[..n], b[n], cutoff);
      assert a + b == a + b[..n] + [b[n]];
    }
  }

  lemma RecentOne(x: int, cutoff: int)
    ensures Recent([x], cutoff) == if x > cutoff then [x] else []
  {
    assert [x][..0] == [];
  }

  /** Filtering again with a later cutoff is filtering once. */
  lemma {:induction false} RecentTwice(times: seq<int>, c1: int, c2: int)
    requires c1 <= c2
    ensures Recent(Recent(times, c1), c2) == Recent(times, c2)
  {
    if times != [] {
      var n := |times| - 1;
      RecentTwice(times[..n], c1, c2);
      RecentOne(times[n], c2);
      RecentAppend(Recent(times[..n], c1), if times[n] > c1 then [times[n]] else [], c2);
    }
  }

  /** Counting fire k itself, more than `threshold` fires fall in the window that ends with it. */
  predicate Trips(window: int, threshold: int, h: seq<int>, k: nat)
    requires k < |h|
  {
    |Recent(h[..k], h[k] - window)| + 1 > threshold
  }

  ghost predicate EverTrips(window: int, threshold: int, h: seq<int>) {
    exists k: nat :: k < |h| && Trips(window, threshold, h, k)
  }

  lemma TripsPrefix(window: int, threshold: int, h: seq<int>, m: nat, k: nat)
    requires k < m <= |h|
    ensures Trips(window, threshold, h[..m], k) == Trips(window, threshold, h, k)
  {
    assert h[..m][..k] == h[..k];
  }

  lemma EverTripsStep(window: int, threshold: int, h: seq<int>)
    requires h != []
    ensures EverTrips(window, threshold, h)
            <==> EverTrips(window, threshold, h[..|h|-1]) || Trips(window, threshold, h, |h| - 1)
  {
    var before := h[..|h|-1];
    if EverTrips(window, threshold, before) {
      var k: nat :| k < |before| && Trips(window, threshold, before, k);
      TripsPrefix(window, threshold, h, |h| - 1, k);
    }
    if EverTrips(window, threshold, h) {
      var k: nat :| k < |h| && Trips(window, threshold, h, k);
      if k < |h| - 1 { TripsPrefix(window, threshold, h, |h| - 1, k); }
    }
  }

  /** The recorded times are the recent part of the history, and the last fire. */
  predicate Tracks(window: int, times: seq<int>, h: seq<int>) {
    times == if h == [] then [] else Recent(h[..|h|-1], h[|h|-1] - window) + [h[|h|-1]]
  }

  lemma NarrowsOne(earlier: seq<int>, x: int, c1: int, c2: int)
    requires c1 <= c2
    ensures Recent(Recent(earlier, c1) + [x], c2) == Recent(earlier + [x], c2)
  {
    RecentAppend(Recent(earlier, c1), [x], c2);
    RecentTwice(earlier, c1, c2);
    RecentAppend(earlier, [x], c2);
  }

  /** As the clock moves on, filtering what was kept is filtering everything. */
  lemma WindowNarrows(window: int, h: seq<int>, now: int, times: seq<int>)
    requires Tracks(window, times, h) && (h != [] ==> h[|h|-1] <= now)
    ensures Recent(times, now - window) == Recent(h, now - window)
  {
    if h != [] {
      var m := |h| - 1;
      assert h == h[..m] + [h[m]];
      NarrowsOne(h[..m], h[m], h[m] - window, now - window);
    }
  }

  /**
   With a clock that does not run backwards, the in-place window is the filter
   of the whole history since the last clear, and the guard is suspended exactly
   when some fire made the count exceed the threshold.
   */
  lemma {:induction false} WindowIsHistory(window: int, threshold: int, h: seq<int>)
    requires threshold > 0 && Nondecreasing(h)
    ensures var g := Fires(window, threshold, h);
      && (g.suspended <==> EverTrips(window, threshold, h))
      && (if g.suspended then g.times == [] else Tracks(window, g.times, h))
  {
    if h != [] {
      var n := |h| - 1;
      WindowIsHistory(window, threshold, h[..n]);
      EverTripsStep(window, threshold, h);
      var g := Fires(window, threshold, h[..n]);
      if !g.suspended {
        WindowNarrows(window, h[..n], h[n], g.times);
      }
    }
  }

  /** A guard without a threshold keeps no times and never suspends. */
  lemma {:induction false} DisabledNeverSuspends(window: int, threshold: int, h: seq<int>)
    requires threshold <= 0
    ensures Fires(window, threshold, h) == Guard(false, [])
  {
    if h != [] { DisabledNeverSuspends(window, threshold, h[..|h|-1]); }
  }

  /** With a positive window the recorded times are the whole history later than now - window. */
  lemma WindowIsFilter(window: int, threshold: int, h: seq<int>)
    requires threshold > 0 && window > 0 && Nondecreasing(h) && h != []
    requires !Fires(window, threshold, h).suspended
    ensures Fires(window, threshold, h).times == Recent(h, h[|h|-1] - window)
  {
    var n := |h| - 1;
    WindowIsHistory(window, threshold, h);
    assert h == h[..n] + [h[n]];
    RecentSnoc(h[..n], h[n], h[n] - window);
  }

  lemma NotBefore(window: int, threshold: int, h: seq<int>, k: nat)
    requires threshold > 0 && Nondecreasing(h) && k <= |h|
    requires forall j: nat :: j < k ==> !Trips(window, threshold, h, j)
    ensures !Fires(window, threshold, h[..k]).suspended
  {
    WindowIsHistory(window, threshold, h[..k]);
    forall j: nat | j < k ensures !Trips(window, threshold, h[..k], j) {
      TripsPrefix(window, threshold, h, k, j);
    }
  }

  /** The guard trips at the first such fire and not before. */
  lemma TripsAtTheFirst(window: int, threshold: int, h: seq<int>, k: nat)
    requires threshold > 0 && Nondecreasing(h) && k < |h| && Trips(window, threshold, h, k)
    requires forall j: nat :: j < k ==> !Trips(window, threshold, h, j)
    ensures !Fires(window, threshold, h[..k]).suspended
    ensures Fires(window, threshold, h[..k + 1]).suspended
  {
    NotBefore(window, threshold, h, k);
    WindowIsHistory(window, threshold, h[..k + 1]);
    TripsPrefix(window, threshold, h, k + 1, k);
  }
}
