/** The number of frames a history over its byte limit gives up (web/replay.js). */
module HistoryBound {
  function Sum(sizes: seq<nat>): nat {
    if sizes == [] then 0 else sizes[0] + Sum(sizes[1..])
  }

  lemma {:induction false} SumSplit(sizes: seq<nat>, n: nat)
    requires n <= |sizes|
    ensures Sum(sizes) == Sum(sizes[..n]) + Sum(sizes[n..])
  {
    if n > 0 {
      SumSplit(sizes[1..], n - 1);
      assert sizes[..n][1..] == sizes[1..][..n - 1];
    } else {
      assert sizes[0..] == sizes;
    }
  }

  lemma SumSnoc(sizes: seq<nat>, b: nat)
    ensures Sum(sizes + [b]) == Sum(sizes) + b
  {
    SumSplit(sizes + [b], |sizes|);
    assert (sizes + [b])[..|sizes|] == sizes && (sizes + [b])[|sizes|..] == [b];
  }

  /** Keeping fewer frames keeps fewer bytes. */
  lemma SumMonotone(sizes: seq<nat>, m: nat, n: nat)
    requires m <= n <= |sizes|
    ensures Sum(sizes[n..]) <= Sum(sizes[m..])
  {
    SumSplit(sizes[m..], n - m);
    assert sizes[m..][n - m..] == sizes[n..];
  }

  /** The batch dropped when `left` frames are left: a tenth, rounded up, but never the newest. */
  function Batch(left: nat): nat
    requires left >= 2
  {
    var tenth := (left + 9) / 10;
    if tenth < left - 1 then tenth else left - 1
  }

  /** A tenth, rounded up, but never the newest frame. */
  lemma BatchIff(left: nat, b: nat)
    requires left >= 2
    ensures b == Batch(left) <==> 1 <= b < left && 10 * (b - 1) < left && (b == left - 1 || left <= 10 * b)
  {
  }

  /** Whether more frames have to go once the oldest n are gone. */
  predicate TooMany(sizes: seq<nat>, limit: nat, n: nat)
    requires n <= |sizes|
  {
    Sum(sizes[n..]) > limit && n + 1 < |sizes|
  }

  function DropFrom(sizes: seq<nat>, limit: nat, n: nat): (m: nat)
    requires n <= |sizes|
    ensures n <= m <= |sizes|
    decreases |sizes| - n
  {
    if TooMany(sizes, limit, n) then DropFrom(sizes, limit, n + Batch(|sizes| - n)) else n
  }

  /** What dropCount() returns. */
  function DropCountOf(sizes: seq<nat>, limit: nat): (n: nat)
    ensures n <= |sizes|
  {
    DropFrom(sizes, limit, 0)
  }

  method WithoutBatch(sizes: seq<nat>, n: nat, step: nat, bytes: nat) returns (left: nat)
    requires n + step <= |sizes| && bytes == Sum(sizes[n..])
    ensures left == Sum(sizes[n + step..])
  {
    left := bytes;
    for k := n to n + step
      invariant left == Sum(sizes[k..])
    {
      assert sizes[k..][1..] == sizes[k + 1..];
      left := left - sizes[k];
    }
  }

  method TotalBytes(sizes: seq<nat>) returns (bytes: nat)
    ensures bytes == Sum(sizes)
  {
    bytes := 0;
    for i := 0 to |sizes|
      invariant bytes == Sum(sizes[..i])
    {
      SumSnoc(sizes[..i], sizes[i]);
      assert sizes[..i + 1] == sizes[..i] + [sizes[i]];
      bytes := bytes + sizes[i];
    }
    assert sizes[..|sizes|] == sizes;
  }

  method DropCount(sizes: seq<nat>, limit: nat) returns (n: nat)
    ensures n == DropCountOf(sizes, limit)
  {
    hide Sum;
    var bytes := TotalBytes(sizes);
    assert sizes == sizes[0..];
    n := 0;
    while bytes > limit && n + 1 < |sizes|
      invariant n <= |sizes| && bytes == Sum(sizes[n..])
      invariant DropFrom(sizes, limit, n) == DropCountOf(sizes, limit)
      decreases |sizes| - n
    {
      var step := Batch(|sizes| - n);
      bytes := WithoutBatch(sizes, n, step, bytes);
      n := n + step;
    }
  }

  /** The newest frame stays, and the kept bytes fit unless it is the only one left. */
  lemma {:induction false} DropSuffices(sizes: seq<nat>, limit: nat, n: nat)
    requires n < |sizes|
    ensures var m := DropFrom(sizes, limit, n); m < |sizes| && (Sum(sizes[m..]) <= limit || m == |sizes| - 1)
    decreases |sizes| - n
  {
    if TooMany(sizes, limit, n) {
      DropSuffices(sizes, limit, n + Batch(|sizes| - n));
    }
  }

  /**
   * Nothing goes from a history that fits; otherwise the count reached without the last batch
   * does not suffice, so any sufficient count is less than that batch below the one chosen.
   */
  lemma {:induction false} DropOvershoot(sizes: seq<nat>, limit: nat, n: nat, enough: nat)
    requires n <= enough <= |sizes| && Sum(sizes[enough..]) <= limit
    ensures var m := DropFrom(sizes, limit, n);
            m <= enough || exists last :: n <= last < enough && TooMany(sizes, limit, last)
                                          && m == last + Batch(|sizes| - last) && m - enough < Batch(|sizes| - last)
    decreases |sizes| - n
  {
    if TooMany(sizes, limit, n) {
      var next := n + Batch(|sizes| - n);
      if next <= enough {
        DropOvershoot(sizes, limit, next, enough);
      } else {
        SumMonotone(sizes, enough, next);
        assert DropFrom(sizes, limit, next) == next;
      }
    }
  }

  /** The bound of dropCount(), from the first frame on. */
  lemma DropCountBound(sizes: seq<nat>, limit: nat)
    ensures var n := DropCountOf(sizes, limit);
            (sizes == [] ==> n == 0)
            && (sizes != [] ==> n < |sizes| && (Sum(sizes[n..]) <= limit || n == |sizes| - 1))
            && (Sum(sizes) <= limit ==> n == 0)
            && forall enough :: 0 <= enough < n && Sum(sizes[enough..]) <= limit ==>
                 exists last :: 0 <= last < enough && TooMany(sizes, limit, last)
                                && n == last + Batch(|sizes| - last) && n - enough < Batch(|sizes| - last)
  {
    var n := DropCountOf(sizes, limit);
    assert sizes[0..] == sizes;
    if sizes != [] {
      DropSuffices(sizes, limit, 0);
    }
    forall enough | 0 <= enough < n && Sum(sizes[enough..]) <= limit
      ensures exists last :: 0 <= last < enough && TooMany(sizes, limit, last)
                             && n == last + Batch(|sizes| - last) && n - enough < Batch(|sizes| - last)
    {
      DropOvershoot(sizes, limit, 0, enough);
    }
  }

  /** Where frame i is once the oldest n are gone, and whether it is one of those: then the first one left stands for it. */
  function ShiftIndex(i: int, n: nat): (int, bool) {
    if i < n then (0, true) else (i - n, false)
  }
}
