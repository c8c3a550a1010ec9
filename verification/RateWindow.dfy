/** The sliding rate window and the sequence gaps of the latency samples (stats_observer.cpp). */
module RateWindow {

  const WINDOW_SECONDS := 5
  const INT64_MIN := -0x8000_0000_0000_0000

  /** One HISTORY_LATENCY sample: the pair, who published it, its source timestamp and sequence number. */
  datatype Sample = Sample(pair: (string, string), publisher: string, sec: int, ts: real, seqNo: nat)

  /** A DeliveryWindow; first and last are zero while it is empty. */
  datatype Delivery = Delivery(samples: nat, first: real, last: real)

  const NO_DELIVERY := Delivery(0, 0.0, 0.0)

  datatype PairSecond = PairSecond(sec: int, w: Delivery)

  datatype WriterSecond = WriterSecond(sec: int, minSeq: nat, maxSeq: nat, samples: nat)

  function Min(a: real, b: real): real {
    if b < a then b else a
  }

  function Max(a: real, b: real): real {
    if a < b then b else a
  }

  function Single(ts: real): Delivery {
    Delivery(1, ts, ts)
  }

  function Join(a: Delivery, b: Delivery): Delivery {
    if a.samples == 0 then b
    else if b.samples == 0 then a
    else Delivery(a.samples + b.samples, Min(a.first, b.first), Max(a.last, b.last))
  }

  // ---- the naive window: every sample ever taken, looked at again

  function WindowOf(taken: seq<Sample>, pair: (string, string), oldest: int): Delivery {
    if taken == [] then NO_DELIVERY
    else
      var rest, s := taken[..|taken| - 1], taken[|taken| - 1];
      if s.pair == pair && s.sec >= oldest then Join(WindowOf(rest, pair, oldest), Single(s.ts)) else WindowOf(rest, pair, oldest)
  }

  /** The samples the window is about. */
  function InWindow(taken: seq<Sample>, pair: (string, string), oldest: int): set<int> {
    set i | 0 <= i < |taken| && taken[i].pair == pair && taken[i].sec >= oldest
  }

  ghost predicate Bounds(w: Delivery, taken: seq<Sample>, which: set<int>)
    requires forall i :: i in which ==> 0 <= i < |taken|
  {
    (forall i :: i in which ==> w.first <= taken[i].ts <= w.last)
    && (exists i :: i in which && taken[i].ts == w.first) && (exists i :: i in which && taken[i].ts == w.last)
  }

  lemma InWindowSnoc(rest: seq<Sample>, s: Sample, pair: (string, string), oldest: int)
    ensures InWindow(rest + [s], pair, oldest)
         == InWindow(rest, pair, oldest) + (if s.pair == pair && s.sec >= oldest then {|rest|} else {})
  {
    var taken := rest + [s];
    assert taken[|rest|] == s && forall i :: 0 <= i < |rest| ==> taken[i] == rest[i];
  }

  lemma BoundsSnoc(w: Delivery, rest: seq<Sample>, s: Sample, which: set<int>)
    requires forall i :: i in which ==> 0 <= i < |rest|
    requires w.samples == |which| && (w.samples > 0 ==> Bounds(w, rest, which))
    ensures Bounds(Join(w, Single(s.ts)), rest + [s], which + {|rest|})
  {
    var taken, all := rest + [s], which + {|rest|};
    assert taken[|rest|] == s && forall i :: i in which ==> taken[i] == rest[i];
    assert |rest| in all;
    if w.samples > 0 {
      var a :| a in which && rest[a].ts == w.first;
      var b :| b in which && rest[b].ts == w.last;
      assert a in all && b in all && taken[a].ts == w.first && taken[b].ts == w.last;
    }
  }

  /** The window is the count of the samples in it, and the least and greatest of their timestamps. */
  lemma {:induction false} WindowIsCountMinMax(taken: seq<Sample>, pair: (string, string), oldest: int)
    ensures var w, which := WindowOf(taken, pair, oldest), InWindow(taken, pair, oldest);
            w.samples == |which| && (w.samples > 0 ==> Bounds(w, taken, which))
  {
    if taken != [] {
      var rest, s := taken[..|taken| - 1], taken[|taken| - 1];
      assert taken == rest + [s];
      WindowIsCountMinMax(rest, pair, oldest);
      InWindowSnoc(rest, s, pair, oldest);
      if s.pair == pair && s.sec >= oldest {
        BoundsSnoc(WindowOf(rest, pair, oldest), rest, s, InWindow(rest, pair, oldest));
      } else if WindowOf(rest, pair, oldest).samples > 0 {
        assert forall i :: i in InWindow(rest, pair, oldest) ==> taken[i] == rest[i];
      }
    }
  }

  /** The samples of the pair in the five seconds that the newest sample of all ends. */
  function LastSeconds(taken: seq<Sample>, pair: (string, string)): (which: set<int>)
    ensures forall i :: i in which ==> 0 <= i < |taken|
  {
    set i | 0 <= i < |taken| && taken[i].pair == pair && forall j :: 0 <= j < |taken| ==> taken[j].sec - taken[i].sec < 5
  }

  lemma LastSecondsAre(taken: seq<Sample>, pair: (string, string), newest: int)
    requires (forall j :: 0 <= j < |taken| ==> taken[j].sec <= newest) && exists j :: 0 <= j < |taken| && taken[j].sec == newest
    ensures LastSeconds(taken, pair) == InWindow(taken, pair, newest - WINDOW_SECONDS + 1)
  {
  }

  // ---- the window kept second by second

  function Reduced(seconds: seq<PairSecond>): Delivery {
    if seconds == [] then NO_DELIVERY else Join(Reduced(seconds[..|seconds| - 1]), seconds[|seconds| - 1].w)
  }

  /** Popping the seconds before `oldest` off the front. */
  function From(seconds: seq<PairSecond>, oldest: int): (r: seq<PairSecond>)
    ensures |r| <= |seconds|
  {
    if seconds != [] && seconds[0].sec < oldest then From(seconds[1..], oldest) else seconds
  }

  predicate Increasing(seconds: seq<PairSecond>) {
    (forall i, j :: 0 <= i < j < |seconds| ==> seconds[i].sec < seconds[j].sec)
    && (forall i :: 0 <= i < |seconds| ==> seconds[i].w.samples > 0)
  }

  /** One sample into the seconds of its pair. */
  function Took(seconds: seq<PairSecond>, sec: int, ts: real): seq<PairSecond> {
    if seconds == [] || seconds[|seconds| - 1].sec < sec then seconds + [PairSecond(sec, Single(ts))]
    else
      var last := seconds[|seconds| - 1];
      seconds[|seconds| - 1 := last.(w := Delivery(last.w.samples + 1, Min(last.w.first, ts), Max(last.w.last, ts)))]
  }

  lemma {:induction false} FromSuffix(seconds: seq<PairSecond>, oldest: int)
    requires Increasing(seconds)
    ensures Increasing(From(seconds, oldest)) && From(seconds, oldest) == seconds[|seconds| - |From(seconds, oldest)|..]
    ensures forall s :: s in From(seconds, oldest) <==> s in seconds && s.sec >= oldest
  {
    if seconds != [] && seconds[0].sec < oldest {
      FromSuffix(seconds[1..], oldest);
      assert forall s :: s in seconds <==> s == seconds[0] || s in seconds[1..];
    } else {
      NoneBefore(seconds, oldest);
    }
  }

  lemma NoneBefore(seconds: seq<PairSecond>, oldest: int)
    requires Increasing(seconds) && (seconds != [] ==> seconds[0].sec >= oldest)
    ensures forall s :: s in seconds ==> s.sec >= oldest
  {
  }

  lemma {:induction false} FromFrom(seconds: seq<PairSecond>, a: int, b: int)
    requires a <= b
    ensures From(From(seconds, a), b) == From(seconds, b)
  {
    if seconds != [] && seconds[0].sec < a {
      FromFrom(seconds[1..], a, b);
    }
  }

  lemma {:induction false} FromAll(seconds: seq<PairSecond>, oldest: int)
    requires forall s :: s in seconds ==> s.sec >= oldest
    ensures From(seconds, oldest) == seconds
  {
    assert seconds != [] ==> seconds[0] in seconds;
  }

  lemma {:induction false} FromSnoc(seconds: seq<PairSecond>, s: PairSecond, oldest: int)
    requires s.sec < oldest ==> forall x :: x in seconds ==> x.sec < oldest
    ensures From(seconds + [s], oldest) == if s.sec < oldest then [] else From(seconds, oldest) + [s]
  {
    if seconds == [] {
      assert [] + [s] == [s] && [s][1..] == [];
    } else if seconds[0].sec < oldest {
      FromSnoc(seconds[1..], s, oldest);
      assert (seconds + [s])[1..] == seconds[1..] + [s];
    } else {
      assert seconds[0] in seconds;
    }
  }

  lemma JoinAssociative(a: Delivery, b: Delivery, c: Delivery)
    ensures Join(Join(a, b), c) == Join(a, Join(b, c))
  {
  }

  /** The seconds of a pair give its naive window for every `oldest` from `floor` on. */
  ghost predicate Exact(seconds: seq<PairSecond>, taken: seq<Sample>, pair: (string, string), floor: int) {
    Increasing(seconds) && forall oldest :: oldest >= floor ==> Reduced(From(seconds, oldest)) == WindowOf(taken, pair, oldest)
  }

  ghost predicate NotAfter(seconds: seq<PairSecond>, sec: int) {
    forall s :: s in seconds ==> s.sec <= sec
  }

  lemma TookIncreasing(seconds: seq<PairSecond>, sec: int, ts: real)
    requires Increasing(seconds) && NotAfter(seconds, sec)
    ensures Increasing(Took(seconds, sec, ts)) && NotAfter(Took(seconds, sec, ts), sec)
  {
    assert seconds != [] ==> seconds[|seconds| - 1] in seconds;
  }

  lemma PushedReduced(seconds: seq<PairSecond>, sec: int, ts: real, oldest: int)
    requires forall x :: x in seconds ==> x.sec < sec
    ensures Reduced(From(seconds + [PairSecond(sec, Single(ts))], oldest))
         == if sec >= oldest then Join(Reduced(From(seconds, oldest)), Single(ts)) else Reduced(From(seconds, oldest))
  {
    FromSnoc(seconds, PairSecond(sec, Single(ts)), oldest);
    if sec < oldest {
      NoneFrom(seconds, oldest);
    } else {
      ReducedSnoc(From(seconds, oldest), PairSecond(sec, Single(ts)));
    }
  }

  lemma GrownReduced(init: seq<PairSecond>, last: PairSecond, ts: real, oldest: int)
    requires forall x :: x in init ==> x.sec < last.sec
    ensures Reduced(From(init + [last.(w := Join(last.w, Single(ts)))], oldest))
         == if last.sec >= oldest then Join(Reduced(From(init + [last], oldest)), Single(ts))
            else Reduced(From(init + [last], oldest))
  {
    var more := last.(w := Join(last.w, Single(ts)));
    FromSnoc(init, last, oldest);
    FromSnoc(init, more, oldest);
    if last.sec >= oldest {
      ReducedSnoc(From(init, oldest), last);
      ReducedSnoc(From(init, oldest), more);
      JoinAssociative(Reduced(From(init, oldest)), last.w, Single(ts));
    }
  }

  lemma TookReduced(seconds: seq<PairSecond>, sec: int, ts: real, oldest: int)
    requires Increasing(seconds) && NotAfter(seconds, sec)
    ensures Reduced(From(Took(seconds, sec, ts), oldest))
         == if sec >= oldest then Join(Reduced(From(seconds, oldest)), Single(ts)) else Reduced(From(seconds, oldest))
  {
    hide From, Reduced;
    if seconds == [] || seconds[|seconds| - 1].sec < sec {
      PushedReduced(seconds, sec, ts, oldest);
    } else {
      var n := |seconds| - 1;
      var init, last := seconds[..n], seconds[n];
      assert last in seconds && last.sec == sec && seconds == init + [last];
      assert Took(seconds, sec, ts) == init + [last.(w := Join(last.w, Single(ts)))];
      GrownReduced(init, last, ts, oldest);
    }
  }

  lemma ReducedSnoc(seconds: seq<PairSecond>, s: PairSecond)
    ensures Reduced(seconds + [s]) == Join(Reduced(seconds), s.w)
  {
    assert (seconds + [s])[..|seconds|] == seconds;
  }

  lemma {:induction false} NoneFrom(seconds: seq<PairSecond>, oldest: int)
    requires forall s :: s in seconds ==> s.sec < oldest
    ensures From(seconds, oldest) == []
  {
    if seconds != [] {
      assert seconds[0] in seconds;
      NoneFrom(seconds[1..], oldest);
    }
  }

  /** Taking a sample keeps every window exact, that of its own pair and those of the others. */
  lemma TakeKeepsExact(seconds: seq<PairSecond>, taken: seq<Sample>, pair: (string, string), floor: int, s: Sample)
    requires Exact(seconds, taken, pair, floor) && (s.pair == pair ==> NotAfter(seconds, s.sec))
    ensures Exact(if s.pair == pair then Took(seconds, s.sec, s.ts) else seconds, taken + [s], pair, floor)
  {
    var after := if s.pair == pair then Took(seconds, s.sec, s.ts) else seconds;
    if s.pair == pair {
      TookIncreasing(seconds, s.sec, s.ts);
    }
    assert (taken + [s])[..|taken|] == taken;
    hide Took;
    forall oldest | oldest >= floor
      ensures Reduced(From(after, oldest)) == WindowOf(taken + [s], pair, oldest)
    {
      assert Reduced(From(seconds, oldest)) == WindowOf(taken, pair, oldest);
      if s.pair == pair {
        TookReduced(seconds, s.sec, s.ts, oldest);
      }
    }
  }

  /** Pruning keeps the windows from the new bound on, and what is left is the window. */
  lemma PruneKeepsExact(seconds: seq<PairSecond>, taken: seq<Sample>, pair: (string, string), floor: int, oldest: int)
    requires Exact(seconds, taken, pair, floor) && floor <= oldest
    ensures Exact(From(seconds, oldest), taken, pair, oldest)
    ensures Reduced(From(seconds, oldest)) == WindowOf(taken, pair, oldest)
    ensures From(seconds, oldest) == [] ==> WindowOf(taken, pair, oldest).samples == 0
  {
    FromSuffix(seconds, oldest);
    forall later | later >= oldest
      ensures Reduced(From(From(seconds, oldest), later)) == WindowOf(taken, pair, later)
    {
      FromFrom(seconds, oldest, later);
    }
  }

  // ---- sequence gaps

  /** How many samples, and the least and greatest sequence number among them. */
  datatype Numbers = Numbers(samples: nat, least: nat, greatest: nat)

  const NO_NUMBERS := Numbers(0, 0, 0)

  function JoinNumbers(a: Numbers, b: Numbers): Numbers {
    if a.samples == 0 then b
    else if b.samples == 0 then a
    else Numbers(a.samples + b.samples, if b.least < a.least then b.least else a.least,
                 if a.greatest < b.greatest then b.greatest else a.greatest)
  }

  function NumbersIn(s: WriterSecond): Numbers {
    Numbers(s.samples, s.minSeq, s.maxSeq)
  }

  function TookNumber(seconds: seq<WriterSecond>, sec: int, n: nat): seq<WriterSecond> {
    if seconds == [] || seconds[|seconds| - 1].sec < sec then seconds + [WriterSecond(sec, n, n, 1)]
    else
      var last := seconds[|seconds| - 1];
      seconds[|seconds| - 1 := WriterSecond(last.sec, if n < last.minSeq then n else last.minSeq,
                                            if last.maxSeq < n then n else last.maxSeq, last.samples + 1)]
  }

  function ReducedNumbers(seconds: seq<WriterSecond>): Numbers {
    if seconds == [] then NO_NUMBERS
    else JoinNumbers(ReducedNumbers(seconds[..|seconds| - 1]), NumbersIn(seconds[|seconds| - 1]))
  }

  function NumbersOf(taken: seq<Sample>, publisher: string): Numbers {
    if taken == [] then NO_NUMBERS
    else
      var rest, s := taken[..|taken| - 1], taken[|taken| - 1];
      if s.publisher == publisher then JoinNumbers(NumbersOf(rest, publisher), Numbers(1, s.seqNo, s.seqNo))
      else NumbersOf(rest, publisher)
  }

  predicate Filled(seconds: seq<WriterSecond>) {
    forall s :: s in seconds ==> s.samples > 0
  }

  /** In whatever order the seconds arrive. */
  lemma TookNumberReduced(seconds: seq<WriterSecond>, sec: int, n: nat)
    requires Filled(seconds)
    ensures Filled(TookNumber(seconds, sec, n))
    ensures ReducedNumbers(TookNumber(seconds, sec, n)) == JoinNumbers(ReducedNumbers(seconds), Numbers(1, n, n))
  {
    var after := TookNumber(seconds, sec, n);
    if |after| > |seconds| {
      assert after[..|after| - 1] == seconds;
    } else {
      assert seconds[|seconds| - 1] in seconds;
      assert after[..|after| - 1] == seconds[..|seconds| - 1];
    }
  }

  function Gaps(n: Numbers): nat {
    if n.samples > 0 && n.greatest - n.least + 1 > n.samples then n.greatest - n.least + 1 - n.samples else 0
  }

  function Received(taken: seq<Sample>, publisher: string): set<nat> {
    set i | 0 <= i < |taken| && taken[i].publisher == publisher :: taken[i].seqNo
  }

  /** The numbers between the least and the greatest received that never arrived. */
  function Missing(received: set<nat>): set<nat> {
    set n, a, b | a in received && b in received && a <= n <= b && n !in received :: n
  }

  ghost predicate OwnNumbers(taken: seq<Sample>, publisher: string) {
    forall i, j :: 0 <= i < j < |taken| && taken[i].publisher == taken[j].publisher == publisher ==>
      taken[i].seqNo != taken[j].seqNo
  }

  /** What is known of the numbers `r` received, some of them more than once. */
  ghost predicate Describes(n: Numbers, r: set<nat>) {
    (n.samples == 0 <==> r == {}) && |r| <= n.samples
    && (r != {} ==> n.least in r && n.greatest in r && forall x :: x in r ==> n.least <= x <= n.greatest)
  }

  lemma DescribesMore(n: Numbers, r: set<nat>, x: nat)
    requires Describes(n, r)
    ensures Describes(JoinNumbers(n, Numbers(1, x, x)), r + {x})
  {
    assert x in r ==> r + {x} == r;
  }

  lemma {:induction false} NumbersBound(taken: seq<Sample>, publisher: string)
    ensures var n, r := NumbersOf(taken, publisher), Received(taken, publisher);
            Describes(n, r) && (OwnNumbers(taken, publisher) ==> |r| == n.samples)
  {
    if taken == [] {
      assert Received(taken, publisher) == {};
    } else {
      hide Describes, Received, OwnNumbers, JoinNumbers;
      var rest, s := taken[..|taken| - 1], taken[|taken| - 1];
      assert taken == rest + [s];
      NumbersBound(rest, publisher);
      ReceivedSnoc(rest, s, publisher);
      OwnNumbersSnoc(rest, s, publisher);
      if s.publisher == publisher {
        DescribesMore(NumbersOf(rest, publisher), Received(rest, publisher), s.seqNo);
        JoinedCount(NumbersOf(rest, publisher), s.seqNo);
      }
    }
  }

  lemma JoinedCount(n: Numbers, x: nat)
    ensures JoinNumbers(n, Numbers(1, x, x)).samples == n.samples + 1
  {
  }

  lemma OwnNumbersSnoc(rest: seq<Sample>, s: Sample, publisher: string)
    ensures OwnNumbers(rest + [s], publisher) ==> OwnNumbers(rest, publisher)
    ensures OwnNumbers(rest + [s], publisher) && s.publisher == publisher ==> s.seqNo !in Received(rest, publisher)
  {
    var taken := rest + [s];
    assert taken[|rest|] == s && forall i :: 0 <= i < |rest| ==> taken[i] == rest[i];
  }

  lemma ReceivedSnoc(taken: seq<Sample>, s: Sample, publisher: string)
    ensures Received(taken + [s], publisher) == Received(taken, publisher) + (if s.publisher == publisher then {s.seqNo} else {})
  {
    var all := taken + [s];
    assert all[|taken|] == s;
    forall n
      ensures n in Received(all, publisher) <==> n in Received(taken, publisher) || (s.publisher == publisher && n == s.seqNo)
    {
      if n in Received(taken, publisher) {
        var i :| 0 <= i < |taken| && taken[i].publisher == publisher && taken[i].seqNo == n;
        assert all[i] == taken[i];
      }
    }
  }

  function Range(a: nat, b: nat): (r: set<nat>)
    requires a <= b
    ensures |r| == b - a && forall n :: n in r <==> a <= n < b
    decreases b
  {
    if a == b then {} else Range(a, b - 1) + {b - 1}
  }

  /**
   * The gaps are the missing numbers less the repeated arrivals, in any arrival order: exactly
   * the missing numbers when every sample has its own.
   */
  lemma GapsAreTheMissing(taken: seq<Sample>, publisher: string)
    ensures var n, r := NumbersOf(taken, publisher), Received(taken, publisher);
            var repeated := n.samples - |r|;
            Gaps(n) == (if |Missing(r)| > repeated then |Missing(r)| - repeated else 0)
            && (OwnNumbers(taken, publisher) ==> Gaps(n) == |Missing(r)|)
  {
    var n, r := NumbersOf(taken, publisher), Received(taken, publisher);
    NumbersBound(taken, publisher);
    hide NumbersOf, Received, OwnNumbers;
    if r != {} {
      var all := Range(n.least, n.greatest + 1);
      assert r <= all && Missing(r) == all - r;
    } else {
      assert Missing(r) == {};
    }
  }

  // ---- the observer

  /** Within a pair the source seconds never go back. */
  ghost predicate Monotone(taken: seq<Sample>) {
    forall i, j :: 0 <= i < j < |taken| && taken[i].pair == taken[j].pair ==> taken[i].sec <= taken[j].sec
  }

  /** No second is later than the last sample of its pair, nor earlier than any. */
  ghost predicate Backed(seconds: seq<PairSecond>, taken: seq<Sample>, pair: (string, string)) {
    forall b :: b in seconds ==>
      b.sec >= INT64_MIN && exists i :: 0 <= i < |taken| && taken[i].pair == pair && b.sec <= taken[i].sec
  }

  lemma TakeKeepsBacked(seconds: seq<PairSecond>, taken: seq<Sample>, pair: (string, string), s: Sample)
    requires Backed(seconds, taken, pair) && Monotone(taken + [s]) && s.sec >= INT64_MIN
    ensures s.pair == pair ==> NotAfter(seconds, s.sec)
    ensures Backed(if s.pair == pair then Took(seconds, s.sec, s.ts) else seconds, taken + [s], pair)
  {
    var all := taken + [s];
    assert all[|taken|] == s && forall i :: 0 <= i < |taken| ==> all[i] == taken[i];
    forall b | b in seconds
      ensures b.sec >= INT64_MIN && exists i :: 0 <= i < |all| && all[i].pair == pair && b.sec <= all[i].sec
      ensures s.pair == pair ==> b.sec <= s.sec
    {
      var i :| 0 <= i < |taken| && taken[i].pair == pair && b.sec <= taken[i].sec;
      assert all[i] == taken[i];
    }
    var after := if s.pair == pair then Took(seconds, s.sec, s.ts) else seconds;
    forall b | b in after
      ensures b.sec >= INT64_MIN && exists i :: 0 <= i < |all| && all[i].pair == pair && b.sec <= all[i].sec
    {
      if b !in seconds {
        assert all[|taken|].pair == pair;
      }
    }
  }

  function SecondsOf(m: map<(string, string), seq<PairSecond>>, pair: (string, string)): seq<PairSecond> {
    if pair in m then m[pair] else []
  }

  function NumbersAt(m: map<string, seq<WriterSecond>>, publisher: string): seq<WriterSecond> {
    if publisher in m then m[publisher] else []
  }
}
