/** The statistics observer's rate state, changed sample by sample and pruned (stats_observer.cpp). */
module RateObserver {
  import opened RateWindow

  type PairId = (string, string)

  class RateObserver {
    var pairSeconds: map<PairId, seq<PairSecond>>
    var writerSeconds: map<string, seq<WriterSecond>>
    var newest: int
    var sliding: bool
    /** Every sample ever taken, the bound of the last prune, and whether there was one. */
    ghost var taken: seq<Sample>
    ghost var floor: int
    ghost var pruned: bool

    ghost predicate Valid()
      reads this
    {
      (forall pair :: Exact(SecondsOf(pairSeconds, pair), taken, pair, floor))
      && (forall pair :: Backed(SecondsOf(pairSeconds, pair), taken, pair))
      && (forall p :: NumbersExact(NumbersAt(writerSeconds, p), taken, p, pruned))
      && NewestOf(taken, newest) && floor <= Oldest()
      && (!pruned ==> floor <= INT64_MIN) && (pruned ==> newest != INT64_MIN)
    }

    function Oldest(): int
      reads this
    {
      newest - WINDOW_SECONDS + 1
    }

    constructor ()
      ensures Valid() && taken == [] && !pruned && !sliding
    {
      pairSeconds, writerSeconds, newest, sliding := map[], map[], INT64_MIN, false;
      taken, floor, pruned := [], INT64_MIN - WINDOW_SECONDS + 1, false;
    }

    method Take(s: Sample)
      requires Valid() && Monotone(taken + [s]) && s.sec >= INT64_MIN
      modifies this
      ensures Valid() && taken == old(taken) + [s] && sliding == old(sliding) && pruned == old(pruned)
    {
      hide Exact, Backed, NumbersExact, Monotone, Took, TookNumber, NewestOf;
      ghost var seconds, numbers, before := pairSeconds, writerSeconds, taken;
      if s.sec > newest {
        newest := s.sec;
      }
      pairSeconds := pairSeconds[s.pair := Took(SecondsOf(pairSeconds, s.pair), s.sec, s.ts)];
      writerSeconds := writerSeconds[s.publisher := TookNumber(NumbersAt(writerSeconds, s.publisher), s.sec, s.seqNo)];
      taken := taken + [s];
      NewestSnoc(before, old(newest), s);
      forall pair
        ensures Exact(SecondsOf(pairSeconds, pair), taken, pair, floor) && Backed(SecondsOf(pairSeconds, pair), taken, pair)
      {
        TakeKeepsBacked(SecondsOf(seconds, pair), before, pair, s);
        TakeKeepsExact(SecondsOf(seconds, pair), before, pair, floor, s);
      }
      forall p
        ensures NumbersExact(NumbersAt(writerSeconds, p), taken, p, pruned)
      {
        TakeKeepsNumbers(NumbersAt(numbers, p), before, p, pruned, s);
      }
    }

    /** Forgets the seconds before the window, which the newest sample ends. */
    method Prune()
      requires Valid()
      modifies this
      ensures Valid() && taken == old(taken) && sliding == old(sliding) && newest == old(newest)
      ensures sliding && newest != INT64_MIN ==> pruned && floor == Oldest() && AllFrom(pairSeconds, floor)
      ensures !(sliding && newest != INT64_MIN) ==> unchanged(this)
    {
      if !sliding || newest == INT64_MIN {
        return;
      }
      hide Exact, Backed, NumbersExact;
      var oldest := Oldest();
      ghost var seconds, numbers := pairSeconds, writerSeconds;
      var m := PruneAll(pairSeconds, oldest);
      var n := PruneWriters(writerSeconds, oldest);
      forall pair
        ensures Exact(SecondsOf(m, pair), taken, pair, oldest) && Backed(SecondsOf(m, pair), taken, pair)
        ensures forall b :: b in SecondsOf(m, pair) ==> b.sec >= oldest
      {
        PruneKeepsExact(SecondsOf(seconds, pair), taken, pair, floor, oldest);
        PruneKeepsBacked(SecondsOf(seconds, pair), taken, pair, oldest, floor);
      }
      forall p
        ensures NumbersExact(NumbersAt(n, p), taken, p, true)
      {
        PruneKeepsNumbers(NumbersAt(numbers, p), taken, p, pruned, oldest);
      }
      pairSeconds, writerSeconds := m, n;
      floor, pruned := oldest, true;
    }

    method SetRateWindow(on: bool)
      requires Valid()
      modifies this
      ensures Valid() && taken == old(taken) && sliding == on
    {
      sliding := on;
      Prune();
    }

    method Drain(samples: seq<Sample>)
      requires Valid() && Monotone(taken + samples) && forall s :: s in samples ==> s.sec >= INT64_MIN
      modifies this
      ensures Valid() && taken == old(taken) + samples && sliding == old(sliding)
      ensures !sliding ==> pruned == old(pruned)
      ensures sliding && newest != INT64_MIN ==> floor == Oldest() && AllFrom(pairSeconds, floor)
    {
      hide Exact, Backed, NumbersExact, NewestOf, Took, TookNumber;
      for i := 0 to |samples|
        invariant Valid() && taken == old(taken) + samples[..i] && sliding == old(sliding) && pruned == old(pruned)
      {
        MonotonePrefix(old(taken), samples, i);
        assert old(taken) + samples[..i + 1] == taken + [samples[i]];
        Take(samples[i]);
      }
      assert old(taken) + samples == taken;
      Prune();
    }

    /**
     * snapshot(): a final drain, then the reduction. With the sliding window every pair's window is the naive one over
     * all samples ever taken, of which it counts the last five seconds; without it the gaps are those of all of them.
     */
    method Snapshot(samples: seq<Sample>) returns (windows: map<PairId, Delivery>, gaps: map<string, nat>)
      requires Valid() && Monotone(taken + samples) && forall s :: s in samples ==> s.sec >= INT64_MIN
      modifies this
      ensures Valid() && taken == old(taken) + samples
      ensures sliding ==> forall pair :: Windowed(windows, pair, taken, LastSeconds(taken, pair))
      ensures sliding && newest != INT64_MIN ==>
                forall pair :: IsWindow(windows, pair, WindowOf(taken, pair, Oldest()))
      ensures !pruned ==> forall pair :: IsWindow(windows, pair, WindowOf(taken, pair, INT64_MIN))
      ensures !pruned ==> forall p :: IsGaps(gaps, p, Gaps(NumbersOf(taken, p)))
    {
      hide Windowed, LastSeconds, NewestOf, IsWindow, IsGaps;
      Drain(samples);
      windows := ReduceAll(pairSeconds);
      gaps := ReduceGaps(writerSeconds);
      forall pair
        ensures sliding && newest != INT64_MIN ==> IsWindow(windows, pair, WindowOf(taken, pair, Oldest()))
        ensures !pruned ==> IsWindow(windows, pair, WindowOf(taken, pair, INT64_MIN))
      {
        assert Backed(SecondsOf(pairSeconds, pair), taken, pair);
        WholeWindow(SecondsOf(pairSeconds, pair), taken, pair, floor, floor);
        WholeWindow(SecondsOf(pairSeconds, pair), taken, pair, floor, INT64_MIN);
      }
      forall pair
        ensures sliding ==> Windowed(windows, pair, taken, LastSeconds(taken, pair))
      {
        NewestSeconds(windows, pair, taken, newest);
      }
      forall p
        ensures !pruned ==> IsGaps(gaps, p, Gaps(NumbersOf(taken, p)))
      {
        assert NumbersExact(NumbersAt(writerSeconds, p), taken, p, pruned);
      }
    }
  }

  // ---- the reductions

  predicate IsWindow(windows: map<PairId, Delivery>, pair: PairId, w: Delivery) {
    (pair in windows <==> w.samples > 0) && (pair in windows ==> windows[pair] == w)
  }

  /** The samples are counted, with the least and greatest of their timestamps; no window without samples. */
  ghost predicate Windowed(windows: map<PairId, Delivery>, pair: PairId, taken: seq<Sample>, which: set<int>)
    requires forall i :: i in which ==> 0 <= i < |taken|
  {
    (pair in windows <==> which != {})
    && (pair in windows ==> windows[pair].samples == |which| && Bounds(windows[pair], taken, which))
  }

  /** Before any second but the least possible one is heard of, every sample is in the window. */
  lemma NewestSeconds(windows: map<PairId, Delivery>, pair: PairId, taken: seq<Sample>, newest: int)
    requires NewestOf(taken, newest)
    ensures IsWindow(windows, pair, WindowOf(taken, pair, if newest == INT64_MIN then INT64_MIN else newest - WINDOW_SECONDS + 1))
            ==> Windowed(windows, pair, taken, LastSeconds(taken, pair))
  {
    var oldest := if newest == INT64_MIN then INT64_MIN else newest - WINDOW_SECONDS + 1;
    WindowIsCountMinMax(taken, pair, oldest);
    if newest != INT64_MIN {
      LastSecondsAre(taken, pair, newest);
    } else {
      assert LastSeconds(taken, pair) == InWindow(taken, pair, INT64_MIN);
    }
  }

  predicate IsGaps(gaps: map<string, nat>, p: string, n: nat) {
    (p in gaps <==> n > 0) && (p in gaps ==> gaps[p] == n)
  }

  method Reduce(seconds: seq<PairSecond>) returns (w: Delivery)
    requires Increasing(seconds)
    ensures w == Reduced(seconds)
  {
    w := NO_DELIVERY;
    for i := 0 to |seconds|
      invariant w == Reduced(seconds[..i])
    {
      var s := seconds[i];
      assert seconds[..i + 1][..i] == seconds[..i];
      if w.samples == 0 {
        w := s.w;
        continue;
      }
      w := Delivery(w.samples + s.w.samples, Min(w.first, s.w.first), Max(w.last, s.w.last));
    }
    assert seconds[..|seconds|] == seconds;
  }

  method ReduceAll(m: map<PairId, seq<PairSecond>>) returns (windows: map<PairId, Delivery>)
    requires forall pair :: Increasing(SecondsOf(m, pair))
    ensures forall pair :: IsWindow(windows, pair, Reduced(SecondsOf(m, pair)))
  {
    windows := map[];
    var rest := m.Keys;
    while rest != {}
      invariant rest <= m.Keys
      invariant forall pair :: if pair in rest then pair !in windows else IsWindow(windows, pair, Reduced(SecondsOf(m, pair)))
      decreases rest
    {
      var pair :| pair in rest;
      rest := rest - {pair};
      assert m[pair] == SecondsOf(m, pair);
      var w := Reduce(m[pair]);
      if w.samples > 0 {
        windows := windows[pair := w];
      }
    }
  }

  method ReduceWriter(seconds: seq<WriterSecond>) returns (n: Numbers)
    requires Filled(seconds)
    ensures n == ReducedNumbers(seconds)
  {
    var least: nat, greatest: nat, samples: nat := 0, 0, 0;
    for i := 0 to |seconds|
      invariant Numbers(samples, least, greatest) == ReducedNumbers(seconds[..i])
    {
      var s := seconds[i];
      assert seconds[..i + 1][..i] == seconds[..i] && s in seconds;
      if samples == 0 {
        least, greatest := s.minSeq, s.maxSeq;
      }
      samples := samples + s.samples;
      least := if s.minSeq < least then s.minSeq else least;
      greatest := if greatest < s.maxSeq then s.maxSeq else greatest;
    }
    assert seconds[..|seconds|] == seconds;
    n := Numbers(samples, least, greatest);
  }

  method ReduceGaps(m: map<string, seq<WriterSecond>>) returns (gaps: map<string, nat>)
    requires forall p :: Filled(NumbersAt(m, p))
    ensures forall p :: IsGaps(gaps, p, Gaps(ReducedNumbers(NumbersAt(m, p))))
  {
    gaps := map[];
    var rest := m.Keys;
    while rest != {}
      invariant rest <= m.Keys
      invariant forall p :: if p in rest then p !in gaps else IsGaps(gaps, p, Gaps(ReducedNumbers(NumbersAt(m, p))))
      decreases rest
    {
      var p :| p in rest;
      rest := rest - {p};
      assert m[p] == NumbersAt(m, p);
      var n := ReduceWriter(m[p]);
      if n.samples == 0 {
        continue;
      }
      var numbered := n.greatest - n.least + 1;
      if numbered > n.samples {
        gaps := gaps[p := numbered - n.samples];
      }
    }
  }

  // ---- pruning

  ghost predicate AllFrom(m: map<PairId, seq<PairSecond>>, oldest: int) {
    forall pair, b :: b in SecondsOf(m, pair) ==> b.sec >= oldest
  }

  function NumbersFrom(seconds: seq<WriterSecond>, oldest: int): seq<WriterSecond> {
    if seconds != [] && seconds[0].sec < oldest then NumbersFrom(seconds[1..], oldest) else seconds
  }

  method PopFront(seconds: seq<PairSecond>, oldest: int) returns (left: seq<PairSecond>)
    ensures left == From(seconds, oldest)
  {
    left := seconds;
    while left != [] && left[0].sec < oldest
      invariant From(left, oldest) == From(seconds, oldest)
      decreases |left|
    {
      left := left[1..];
    }
  }

  method PruneAll(m: map<PairId, seq<PairSecond>>, oldest: int) returns (r: map<PairId, seq<PairSecond>>)
    ensures forall pair :: SecondsOf(r, pair) == From(SecondsOf(m, pair), oldest)
  {
    r := m;
    var rest := m.Keys;
    while rest != {}
      invariant rest <= m.Keys
      invariant forall pair :: SecondsOf(r, pair) == if pair in rest then m[pair] else From(SecondsOf(m, pair), oldest)
      decreases rest
    {
      var pair :| pair in rest;
      rest := rest - {pair};
      var left := PopFront(m[pair], oldest);
      r := if left == [] then r - {pair} else r[pair := left];
    }
  }

  method PopWriters(seconds: seq<WriterSecond>, oldest: int) returns (left: seq<WriterSecond>)
    ensures left == NumbersFrom(seconds, oldest)
  {
    left := seconds;
    while left != [] && left[0].sec < oldest
      invariant NumbersFrom(left, oldest) == NumbersFrom(seconds, oldest)
      decreases |left|
    {
      left := left[1..];
    }
  }

  method PruneWriters(m: map<string, seq<WriterSecond>>, oldest: int) returns (r: map<string, seq<WriterSecond>>)
    ensures forall p :: NumbersAt(r, p) == NumbersFrom(NumbersAt(m, p), oldest)
  {
    r := m;
    var rest := m.Keys;
    while rest != {}
      invariant rest <= m.Keys
      invariant forall p :: NumbersAt(r, p) == if p in rest then m[p] else NumbersFrom(NumbersAt(m, p), oldest)
      decreases rest
    {
      var p :| p in rest;
      rest := rest - {p};
      var left := PopWriters(m[p], oldest);
      r := if left == [] then r - {p} else r[p := left];
    }
  }

  // ---- what the methods rest on

  /** newest_second_ is the latest second of all, INT64_MIN before the first sample. */
  ghost predicate NewestOf(taken: seq<Sample>, newest: int) {
    newest >= INT64_MIN && (forall i :: 0 <= i < |taken| ==> INT64_MIN <= taken[i].sec <= newest)
    && (newest == INT64_MIN || exists i :: 0 <= i < |taken| && taken[i].sec == newest)
  }

  lemma NewestSnoc(taken: seq<Sample>, newest: int, s: Sample)
    requires NewestOf(taken, newest) && s.sec >= INT64_MIN
    ensures newest >= INT64_MIN && NewestOf(taken + [s], if s.sec > newest then s.sec else newest)
  {
    var all := taken + [s];
    assert all[|taken|] == s;
    if newest != INT64_MIN {
      var i :| 0 <= i < |taken| && taken[i].sec == newest;
      assert all[i] == taken[i];
    }
  }

  /** The seconds of a publisher count all its samples while nothing was pruned. */
  ghost predicate NumbersExact(seconds: seq<WriterSecond>, taken: seq<Sample>, p: string, pruned: bool) {
    Filled(seconds) && (!pruned ==> ReducedNumbers(seconds) == NumbersOf(taken, p))
  }

  lemma TakeKeepsNumbers(seconds: seq<WriterSecond>, taken: seq<Sample>, p: string, pruned: bool, s: Sample)
    requires NumbersExact(seconds, taken, p, pruned)
    ensures NumbersExact(if s.publisher == p then TookNumber(seconds, s.sec, s.seqNo) else seconds, taken + [s], p, pruned)
  {
    TookNumberReduced(seconds, s.sec, s.seqNo);
    assert (taken + [s])[..|taken|] == taken;
    hide TookNumber;
  }

  lemma {:induction false} PruneKeepsNumbers(seconds: seq<WriterSecond>, taken: seq<Sample>, p: string, pruned: bool, oldest: int)
    requires NumbersExact(seconds, taken, p, pruned)
    ensures NumbersExact(NumbersFrom(seconds, oldest), taken, p, true)
  {
    if seconds != [] && seconds[0].sec < oldest {
      assert forall s :: s in seconds[1..] ==> s in seconds;
      PruneKeepsNumbers(seconds[1..], taken, p, true, oldest);
    }
  }

  lemma PruneKeepsBacked(seconds: seq<PairSecond>, taken: seq<Sample>, pair: PairId, oldest: int, floor: int)
    requires Exact(seconds, taken, pair, floor) && Backed(seconds, taken, pair)
    ensures Backed(From(seconds, oldest), taken, pair) && forall b :: b in From(seconds, oldest) ==> b.sec >= oldest
  {
    FromSuffix(seconds, oldest);
  }

  lemma MonotonePrefix(taken: seq<Sample>, samples: seq<Sample>, i: nat)
    requires Monotone(taken + samples) && i < |samples|
    ensures Monotone(taken + samples[..i + 1])
  {
    var all, part := taken + samples, taken + samples[..i + 1];
    assert forall k :: 0 <= k < |part| ==> part[k] == all[k];
  }

  /** With nothing before `oldest` left, what is kept is the window. */
  lemma WholeWindow(seconds: seq<PairSecond>, taken: seq<Sample>, pair: PairId, floor: int, oldest: int)
    requires Exact(seconds, taken, pair, floor)
    ensures Increasing(seconds)
    ensures floor <= oldest && (forall b :: b in seconds ==> b.sec >= oldest) ==>
              Reduced(seconds) == WindowOf(taken, pair, oldest)
  {
    if floor <= oldest && forall b :: b in seconds ==> b.sec >= oldest {
      FromAll(seconds, oldest);
      assert Reduced(From(seconds, oldest)) == WindowOf(taken, pair, oldest);
    }
  }
}
