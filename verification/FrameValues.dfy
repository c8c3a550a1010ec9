/** The values of single frames, taken from counters that run over the whole observation (web/replay.js). */
module FrameValues {
  import opened Model
  import opened Documents
  import opened Recording
  import R = RecordedValues

  /** Frame i continues frame i - 1: the pair was there with the same GUIDs. */
  predicate Continues(s: seq<Slot>, i: nat)
    requires i < |s|
  {
    i > 0 && s[i - 1].transport != 0 && s[i - 1].guids == s[i].guids
  }

  function LossAt(s: seq<Slot>, i: nat): Num
    requires i < |s|
  {
    var v, pv := s[i].lost, if Continues(s, i) then s[i - 1].lost else NaN;
    if v.NaN? then NaN
    else if pv.NaN? || v.v < pv.v then v
    else Val(v.v - pv.v)
  }

  function LatencyAt(s: seq<Slot>, i: nat): Num
    requires i < |s|
  {
    var m, k := s[i].latencyMean, s[i].latencySamples;
    var pm := if Continues(s, i) then s[i - 1].latencyMean else NaN;
    var pk := if Continues(s, i) then s[i - 1].latencySamples else NaN;
    if m.NaN? || k.NaN? then NaN
    else if pm.NaN? || pk.NaN? || k.v < pk.v then (if k.v > 0.0 then m else NaN)
    else if k.v > pk.v then Val((m.v * k.v - pm.v * pk.v) / (k.v - pk.v))
    else NaN
  }

  method FrameLoss(s: seq<Slot>) returns (out: array<Num>)
    ensures fresh(out) && out.Length == |s| && forall i :: 0 <= i < |s| ==> out[i] == LossAt(s, i)
  {
    out := new Num[|s|](_ => NaN);
    for i := 0 to |s|
      invariant forall j :: 0 <= j < |s| ==> out[j] == if j < i then LossAt(s, j) else NaN
    {
      var v := s[i].lost;
      if v.Val? {
        var pv := if Continues(s, i) then s[i - 1].lost else NaN;
        out[i] := if pv.NaN? || v.v < pv.v then v else Val(v.v - pv.v);
      }
    }
  }

  method FrameLatency(s: seq<Slot>) returns (out: array<Num>)
    ensures fresh(out) && out.Length == |s| && forall i :: 0 <= i < |s| ==> out[i] == LatencyAt(s, i)
  {
    out := new Num[|s|](_ => NaN);
    for i := 0 to |s|
      invariant forall j :: 0 <= j < |s| ==> out[j] == if j < i then LatencyAt(s, j) else NaN
    {
      assert out[i] == NaN;
      var m, k := s[i].latencyMean, s[i].latencySamples;
      if m.Val? && k.Val? {
        var pm := if Continues(s, i) then s[i - 1].latencyMean else NaN;
        var pk := if Continues(s, i) then s[i - 1].latencySamples else NaN;
        if pm.NaN? || pk.NaN? || k.v < pk.v {
          if k.v > 0.0 {
            out[i] := m;
          }
        } else if k.v > pk.v {
          out[i] := Val((m.v * k.v - pm.v * pk.v) / (k.v - pk.v));
        }
      }
    }
  }

  // ---- telescoping

  function ValueOf(n: Num): real {
    if n.NaN? then 0.0 else n.v
  }

  /** Frames a..b-1 are one stretch: a new pair at `a`, the same GUIDs after it, and a count that never falls. */
  ghost predicate LossStretch(s: seq<Slot>, a: nat, b: nat) {
    a < b <= |s| && !Continues(s, a)
    && (forall i :: a < i < b ==> Continues(s, i))
    && (forall i :: a <= i < b ==> s[i].lost.Val? && s[i].lost.v >= 0.0)
    && (forall i :: a < i < b ==> s[i - 1].lost.v <= s[i].lost.v)
  }

  function LossSum(s: seq<Slot>, a: nat, b: nat): real
    requires a <= b <= |s|
  {
    if a == b then 0.0 else LossSum(s, a, b - 1) + ValueOf(LossAt(s, b - 1))
  }

  /** Over a stretch the losses of the frames add up to the last cumulative count. */
  lemma {:induction false} LossTelescopes(s: seq<Slot>, a: nat, b: nat)
    requires LossStretch(s, a, b)
    ensures LossSum(s, a, b) == s[b - 1].lost.v
  {
    if b == a + 1 {
      assert LossSum(s, a, a) == 0.0;
    } else {
      LossTelescopes(s, a, b - 1);
    }
  }

  /** A frame's loss is never negative, wherever counters restart. */
  lemma LossNotNegative(s: seq<Slot>, i: nat)
    requires i < |s| && (s[i].lost.Val? ==> s[i].lost.v >= 0.0)
    ensures ValueOf(LossAt(s, i)) >= 0.0
  {
  }

  ghost predicate LatencyStretch(s: seq<Slot>, a: nat, b: nat) {
    a < b <= |s| && !Continues(s, a)
    && (forall i :: a < i < b ==> Continues(s, i))
    && (forall i :: a <= i < b ==> s[i].latencyMean.Val? && s[i].latencySamples.Val? && s[i].latencySamples.v >= 0.0)
    && (forall i :: a < i < b ==> Accumulates(s[i - 1], s[i]))
  }

  /** A cumulative mean moves only with new samples. */
  ghost predicate Accumulates(before: Slot, after: Slot)
    requires before.latencySamples.Val? && after.latencySamples.Val? && before.latencyMean.Val? && after.latencyMean.Val?
  {
    before.latencySamples.v < after.latencySamples.v
    || (before.latencySamples.v == after.latencySamples.v && before.latencyMean == after.latencyMean)
  }

  /** The samples that arrived during frame i. */
  function NewSamples(s: seq<Slot>, i: nat): real
    requires i < |s|
  {
    var k := ValueOf(s[i].latencySamples);
    if Continues(s, i) && s[i - 1].latencySamples.Val? && s[i - 1].latencyMean.Val? && k >= s[i - 1].latencySamples.v
    then k - s[i - 1].latencySamples.v
    else k
  }

  /** A frame's latency weighted by its own samples. */
  function Weighted(s: seq<Slot>, i: nat): real
    requires i < |s|
  {
    ValueOf(LatencyAt(s, i)) * NewSamples(s, i)
  }

  /** The latency of all samples so far. */
  function Total(slot: Slot): real {
    ValueOf(slot.latencyMean) * ValueOf(slot.latencySamples)
  }

  function WeightedSum(s: seq<Slot>, a: nat, b: nat): real
    requires a <= b <= |s|
  {
    if a == b then 0.0
    else WeightedSum(s, a, b - 1) + Weighted(s, b - 1)
  }

  lemma Undivided(x: real, d: real)
    requires d != 0.0
    ensures x / d * d == x
  {
  }

  lemma FirstLatency(s: seq<Slot>, a: nat)
    requires a < |s| && !Continues(s, a) && s[a].latencyMean.Val? && s[a].latencySamples.Val? && s[a].latencySamples.v >= 0.0
    ensures Weighted(s, a) == Total(s[a])
  {
  }

  lemma NextLatency(s: seq<Slot>, i: nat)
    requires 0 < i < |s| && Continues(s, i)
    requires s[i - 1].latencyMean.Val? && s[i - 1].latencySamples.Val? && s[i].latencyMean.Val? && s[i].latencySamples.Val?
    requires Accumulates(s[i - 1], s[i])
    ensures Weighted(s, i) == Total(s[i]) - Total(s[i - 1])
  {
    var k, pk := s[i].latencySamples.v, s[i - 1].latencySamples.v;
    if k > pk {
      Undivided(s[i].latencyMean.v * k - s[i - 1].latencyMean.v * pk, k - pk);
    }
  }

  /** Over a stretch the frame latencies, weighted by their new samples, add up to the last mean times the last samples. */
  lemma {:induction false} LatencyTelescopes(s: seq<Slot>, a: nat, b: nat)
    requires LatencyStretch(s, a, b)
    ensures WeightedSum(s, a, b) == Total(s[b - 1])
  {
    hide Weighted, Total, NewSamples, LatencyAt;
    if b == a + 1 {
      FirstLatency(s, a);
      assert WeightedSum(s, a, a) == 0.0;
    } else {
      LatencyTelescopes(s, a, b - 1);
      NextLatency(s, b - 1);
    }
  }

  // ---- of the frames' documents

  /** Pair k of the frame before stands for the series there, with a known transport, and the texts of its GUIDs hash as l's. */
  ghost predicate WasThere(before: seq<R.Listed>, key: KeyMode, id: string, k: int, l: R.Listed) {
    R.Last(before, key, id, R.Any, k) && before[k].p.transport.Known?
    && Hash32(before[k].t.topic + "|" + before[k].p.writerGuid + "|" + before[k].p.readerGuid)
       == Hash32(l.t.topic + "|" + l.p.writerGuid + "|" + l.p.readerGuid)
  }

  /** What the slot of the frame before says of it. */
  lemma WasThereIff(s: Slot, before: seq<R.Listed>, key: KeyMode, id: string, l: R.Listed, hash: bv32)
    requires R.Recorded(s, before, key, id) && R.Hashes(hash, l)
    ensures s.transport != 0 && s.guids == hash <==> exists k :: WasThere(before, key, id, k, l)
  {
    R.OneLast(before, key, id, R.Any);
    hide R.NoneHas, Hash32, R.RateRead, R.LatencyRead, R.LossRead, R.Listed.Text, R.Any;
    if k :| WasThere(before, key, id, k, l) {
      R.StandsFor(s, before, key, id, k);
    }
    if s.transport != 0 && s.guids == hash {
      var k :| R.Last(before, key, id, R.Any, k) && R.Codes(s.transport, before[k].p.transport) && R.Hashes(s.guids, before[k]);
      assert WasThere(before, key, id, k, l);
    }
  }

  /** A pair that stands for a series is listed, and its slot has its hash. */
  lemma OwnSlot(s: Slot, d: Doc, key: KeyMode, id: string, l: int)
    requires R.Last(R.Listing(d.topics), key, id, R.Any, l)
    ensures R.Lists(d, key, id) && 0 <= l < |R.Listing(d.topics)|
    ensures R.Recorded(s, R.Listing(d.topics), key, id) ==> R.Hashes(s.guids, R.Listing(d.topics)[l])
  {
    hide R.Listing, R.Listed.Text, R.Hashes, R.RateRead, R.LatencyRead, R.LossRead, R.NoneHas;
    if R.Recorded(s, R.Listing(d.topics), key, id) {
      R.StandsFor(s, R.Listing(d.topics), key, id, l);
    }
  }

  lemma ContinuesAt(s: seq<Slot>, i: nat)
    requires 0 < i < |s|
    ensures Continues(s, i) <==> s[i - 1].transport != 0 && s[i - 1].guids == s[i].guids
  {
  }

  /** Counters go on from the frame before exactly when it had the series with these GUIDs. */
  lemma ContinuesIff(key: KeyMode, frames: seq<Frame>, i: nat, id: string, l: int)
    requires 0 < i < |frames| && R.Last(R.Listing(frames[i].doc.topics), key, id, R.Any, l)
    ensures id in Scratch(key, frames).series
    ensures var own, before := R.Listing(frames[i].doc.topics), R.Listing(frames[i - 1].doc.topics);
            Continues(Scratch(key, frames).series[id], i) <==> exists k :: WasThere(before, key, id, k, own[l])
  {
    hide *;
    var own, before := R.Listing(frames[i].doc.topics), R.Listing(frames[i - 1].doc.topics);
    OwnSlot(EMPTY, frames[i].doc, key, id, l);
    R.RecordingReads(key, frames, i, id);
    R.RecordingReads(key, frames, i - 1, id);
    var column := Scratch(key, frames).series[id];
    OwnSlot(column[i], frames[i].doc, key, id, l);
    WasThereIff(column[i - 1], before, key, id, own[l], column[i].guids);
    ContinuesAt(column, i);
  }

  ghost predicate NotThere(before: seq<R.Listed>, key: KeyMode, id: string, l: R.Listed) {
    forall k :: !WasThere(before, key, id, k, l)
  }

  /** A pair that is new, or whose GUIDs are, shows its counters as they are: no value is taken across the two. */
  lemma RestartStartsOver(key: KeyMode, frames: seq<Frame>, i: nat, id: string, l: int)
    requires 0 < i < |frames| && R.Last(R.Listing(frames[i].doc.topics), key, id, R.Any, l)
    requires NotThere(R.Listing(frames[i - 1].doc.topics), key, id, R.Listing(frames[i].doc.topics)[l])
    ensures id in Scratch(key, frames).series
    ensures var column := Scratch(key, frames).series[id];
            LossAt(column, i) == column[i].lost
            && LatencyAt(column, i) == OwnLatency(column[i])
  {
    ContinuesIff(key, frames, i, id, l);
    hide Scratch, R.Last, R.Listing, WasThere;
  }

  /** The mean of a slot that counted any sample. */
  function OwnLatency(slot: Slot): Num {
    if slot.latencyMean.Val? && slot.latencySamples.Val? && slot.latencySamples.v > 0.0 then slot.latencyMean else NaN
  }

  // ---- compaction

  /** Dropping the oldest n frames changes no kept frame's value but that of the new first one. */
  lemma CompactionKeepsFrameValues(s: seq<Slot>, n: nat, i: nat)
    requires n < i < |s|
    ensures LossAt(s[n..], i - n) == LossAt(s, i) && LatencyAt(s[n..], i - n) == LatencyAt(s, i)
  {
    assert s[n..][i - n] == s[i] && s[n..][i - n - 1] == s[i - 1];
    assert Continues(s[n..], i - n) == Continues(s, i);
  }

  /** ... which shows the cumulative values: its predecessor is gone. */
  lemma CompactionRestartsTheFirst(s: seq<Slot>, n: nat)
    requires n < |s|
    ensures LossAt(s[n..], 0) == s[n].lost
    ensures LatencyAt(s[n..], 0) == OwnLatency(s[n])
  {
  }
}
