/** What a recording holds of a frame, read back from the frame's document (web/replay.js). */
module RecordedValues {
  import opened Model
  import opened Documents
  import opened Recording

  // ---- the pairs of a document

  datatype Listed = Listed(t: DocTopic, p: DocPair) {
    /** The text its series is kept under. */
    function Text(key: KeyMode): string {
      KeyId(IdentOf(t, p, key))
    }
  }

  /** The pairs of all topics, as listed. */
  function Listing(topics: seq<DocTopic>): seq<Listed> {
    if topics == [] then []
    else Listing(topics[..|topics| - 1]) + FirstPairs(topics[|topics| - 1], |topics[|topics| - 1].pairs|)
  }

  function FirstPairs(t: DocTopic, n: nat): (ls: seq<Listed>)
    requires n <= |t.pairs|
    ensures |ls| == n
  {
    seq(n, i requires 0 <= i < n => Listed(t, t.pairs[i]))
  }

  function CallOf(l: Listed, key: KeyMode): Called {
    Called(l.p, KeyOf(l.t, l.p), IdentOf(l.t, l.p, key))
  }

  ghost predicate CallsMatch(calls: seq<Called>, ls: seq<Listed>, key: KeyMode) {
    |calls| == |ls| && forall k :: 0 <= k < |ls| ==> calls[k] == CallOf(ls[k], key)
  }

  lemma {:induction false} TopicCallsMatch(t: DocTopic, key: KeyMode, n: nat)
    requires n <= |t.pairs|
    ensures CallsMatch(TopicCalls(t, key, n), FirstPairs(t, n), key)
  {
    hide CallOf, KeyOf, IdentOf;
    if n > 0 {
      TopicCallsMatch(t, key, n - 1);
      LastCall(t, key, n);
    }
  }

  lemma LastCall(t: DocTopic, key: KeyMode, n: nat)
    requires 0 < n <= |t.pairs|
    ensures TopicCalls(t, key, n) == TopicCalls(t, key, n - 1) + [CallOf(FirstPairs(t, n)[n - 1], key)]
  {
  }

  lemma {:induction false} CallsAre(topics: seq<DocTopic>, key: KeyMode)
    ensures CallsMatch(Calls(topics, key), Listing(topics), key)
  {
    if topics != [] {
      var t := topics[|topics| - 1];
      CallsAre(topics[..|topics| - 1], key);
      TopicCallsMatch(t, key, |t.pairs|);
      hide CallOf, TopicCalls;
    }
  }

  // ---- what is recorded of them

  /** The last of the pairs of that text that has it. */
  ghost predicate Last(ls: seq<Listed>, key: KeyMode, id: string, has: DocPair -> bool, k: int) {
    0 <= k < |ls| && ls[k].Text(key) == id && has(ls[k].p)
    && forall l :: k < l < |ls| && has(ls[l].p) ==> ls[l].Text(key) != id
  }

  ghost predicate NoneHas(ls: seq<Listed>, key: KeyMode, id: string, has: DocPair -> bool) {
    forall l :: 0 <= l < |ls| && has(ls[l].p) ==> ls[l].Text(key) != id
  }

  predicate Any(p: DocPair) { true }
  predicate Measured(p: DocPair) { p.measured.Some? }
  predicate Timed(p: DocPair) { p.measured.Some? && p.measured.value.latency.Some? }
  predicate Counted(p: DocPair) { p.measured.Some? && p.measured.value.lost.Some? }

  /** The names the viewer knows, in its order. */
  const TRANSPORTS := [ViaUDPv4, ViaUDPv6, ViaTCPv4, ViaTCPv6, ViaSHM, DataSharing, NoTransport]

  /** 0 stands for a text that is none of the names, and for no pair. */
  ghost predicate Codes(code: nat, t: DocTransport) {
    match t
    case Known(known) => 0 < code <= |TRANSPORTS| && TRANSPORTS[code - 1] == known
    case Unrecognised(_) => code == 0
  }

  /** The hash of the text of the pair's own topic and GUIDs, whatever the series is keyed by. */
  ghost predicate Hashes(hash: bv32, l: Listed) {
    hash == Hash32(l.t.topic + "|" + l.p.writerGuid + "|" + l.p.readerGuid)
  }

  ghost predicate TransportRead(s: Slot, ls: seq<Listed>, key: KeyMode, id: string) {
    if NoneHas(ls, key, id, Any) then s.transport == 0 && s.guids == 0
    else exists k :: Last(ls, key, id, Any, k) && Codes(s.transport, ls[k].p.transport) && Hashes(s.guids, ls[k])
  }

  ghost predicate RateRead(s: Slot, ls: seq<Listed>, key: KeyMode, id: string) {
    if NoneHas(ls, key, id, Measured) then s.hz == NaN
    else exists k :: Last(ls, key, id, Measured, k) && s.hz == ls[k].p.measured.value.deliveredPerS
  }

  ghost predicate LatencyRead(s: Slot, ls: seq<Listed>, key: KeyMode, id: string) {
    if NoneHas(ls, key, id, Timed) then s.latencyMean == NaN && s.latencySamples == NaN
    else exists k :: Last(ls, key, id, Timed, k)
                     && s.latencyMean == ls[k].p.measured.value.latency.value.mean
                     && s.latencySamples == ls[k].p.measured.value.latency.value.samples
  }

  ghost predicate LossRead(s: Slot, ls: seq<Listed>, key: KeyMode, id: string) {
    if NoneHas(ls, key, id, Counted) then s.lost == NaN
    else exists k :: Last(ls, key, id, Counted, k) && s.lost == ls[k].p.measured.value.lost.value
  }

  /** The slot of series `id` for a frame that lists these pairs. */
  ghost predicate Recorded(s: Slot, ls: seq<Listed>, key: KeyMode, id: string) {
    TransportRead(s, ls, key, id) && RateRead(s, ls, key, id) && LatencyRead(s, ls, key, id) && LossRead(s, ls, key, id)
  }

  lemma LastSnoc(init: seq<Listed>, l: Listed, key: KeyMode, id: string, has: DocPair -> bool)
    ensures var ls, own := init + [l], l.Text(key) == id && has(l.p);
            (NoneHas(ls, key, id, has) <==> NoneHas(init, key, id, has) && !own)
            && forall k :: Last(ls, key, id, has, k) <==> if own then k == |init| else Last(init, key, id, has, k)
  {
    hide Listed.Text;
    var ls := init + [l];
    assert forall k :: 0 <= k < |init| ==> ls[k] == init[k];
    assert ls[|init|] == l;
    forall k
      ensures Last(ls, key, id, has, k)
         <==> if l.Text(key) == id && has(l.p) then k == |init| else Last(init, key, id, has, k)
    {
      if Last(ls, key, id, has, k) && k < |init| {
        assert has(l.p) ==> ls[|init|].Text(key) != id;
        forall m | k < m < |init| && has(init[m].p)
          ensures init[m].Text(key) != id
        {
          assert ls[m] == init[m];
        }
      }
    }
  }

  lemma OneLast(ls: seq<Listed>, key: KeyMode, id: string, has: DocPair -> bool)
    ensures forall k, l :: Last(ls, key, id, has, k) && Last(ls, key, id, has, l) ==> k == l
    ensures NoneHas(ls, key, id, has) ==> forall k :: !Last(ls, key, id, has, k)
  {
    hide Listed.Text;
  }

  lemma StandsFor(s: Slot, ls: seq<Listed>, key: KeyMode, id: string, k: int)
    requires TransportRead(s, ls, key, id) && Last(ls, key, id, Any, k)
    ensures Codes(s.transport, ls[k].p.transport) && Hashes(s.guids, ls[k])
  {
    OneLast(ls, key, id, Any);
    hide NoneHas, Codes, Hashes, Any, Listed.Text;
  }

  lemma CodeIs(t: DocTransport)
    ensures Codes(TransportCode(t), t)
  {
  }

  function NextSlot(s: Slot, l: Listed, key: KeyMode, id: string): Slot {
    if l.Text(key) == id then Written(s, CallOf(l, key)) else s
  }

  /** The last pair that has it is still the last, unless the next one has it too. */
  lemma LastStays(init: seq<Listed>, l: Listed, key: KeyMode, id: string, has: DocPair -> bool) returns (k: int)
    ensures var ls := init + [l];
            if l.Text(key) == id && has(l.p) then
              k == |init| && Last(ls, key, id, has, k) && !NoneHas(ls, key, id, has) && ls[k] == l
            else if NoneHas(init, key, id, has) then NoneHas(ls, key, id, has)
            else !NoneHas(ls, key, id, has) && Last(init, key, id, has, k) && Last(ls, key, id, has, k) && ls[k] == init[k]
    ensures forall m :: Last(init, key, id, has, m) && Last(init, key, id, has, k) ==> m == k
  {
    LastSnoc(init, l, key, id, has);
    hide Listed.Text;
    k := |init|;
    if !(l.Text(key) == id && has(l.p)) && !NoneHas(init, key, id, has) {
      k := SomeLast(init, key, id, has);
    }
  }

  lemma {:induction false} SomeLast(ls: seq<Listed>, key: KeyMode, id: string, has: DocPair -> bool) returns (k: int)
    requires !NoneHas(ls, key, id, has)
    ensures Last(ls, key, id, has, k)
  {
    hide Listed.Text;
    var init, l := ls[..|ls| - 1], ls[|ls| - 1];
    assert ls == init + [l];
    LastSnoc(init, l, key, id, has);
    if l.Text(key) == id && has(l.p) {
      k := |init|;
    } else {
      k := SomeLast(init, key, id, has);
    }
  }

  lemma TransportSnoc(s: Slot, init: seq<Listed>, l: Listed, key: KeyMode, id: string)
    requires TransportRead(s, init, key, id)
    ensures TransportRead(NextSlot(s, l, key, id), init + [l], key, id)
  {
    CodeIs(l.p.transport);
    hide Listed.Text, Codes, TransportCode, Hash32, NoneHas, Last, IdentOf;
    var k := LastStays(init, l, key, id, Any);
  }

  lemma RateSnoc(s: Slot, init: seq<Listed>, l: Listed, key: KeyMode, id: string)
    requires RateRead(s, init, key, id)
    ensures RateRead(NextSlot(s, l, key, id), init + [l], key, id)
  {
    hide Listed.Text, TransportCode, Hash32, NoneHas, IdentOf;
    var k := LastStays(init, l, key, id, Measured);
  }

  lemma LatencySnoc(s: Slot, init: seq<Listed>, l: Listed, key: KeyMode, id: string)
    requires LatencyRead(s, init, key, id)
    ensures LatencyRead(NextSlot(s, l, key, id), init + [l], key, id)
  {
    hide Listed.Text, TransportCode, Hash32, NoneHas, IdentOf;
    var k := LastStays(init, l, key, id, Timed);
  }

  lemma LossSnoc(s: Slot, init: seq<Listed>, l: Listed, key: KeyMode, id: string)
    requires LossRead(s, init, key, id)
    ensures LossRead(NextSlot(s, l, key, id), init + [l], key, id)
  {
    hide Listed.Text, TransportCode, Hash32, NoneHas, IdentOf;
    var k := LastStays(init, l, key, id, Counted);
  }

  lemma {:induction false} SlotReads(calls: seq<Called>, ls: seq<Listed>, key: KeyMode, id: string)
    requires CallsMatch(calls, ls, key)
    ensures Recorded(SlotOf(calls, id), ls, key, id)
  {
    hide *;
    if ls != [] {
      var init, l := ls[..|ls| - 1], ls[|ls| - 1];
      InitMatches(calls, ls, key);
      SlotReads(calls[..|calls| - 1], init, key, id);
      SlotIs(calls, l, key, id);
      assert ls == init + [l];
      AllSnoc(SlotOf(calls[..|calls| - 1], id), init, l, key, id);
    } else {
      NothingReads(calls, key, id);
    }
  }

  lemma NothingReads(calls: seq<Called>, key: KeyMode, id: string)
    requires CallsMatch(calls, [], key)
    ensures Recorded(SlotOf(calls, id), [], key, id)
  {
  }

  lemma InitMatches(calls: seq<Called>, ls: seq<Listed>, key: KeyMode)
    requires CallsMatch(calls, ls, key) && ls != []
    ensures |calls| == |ls| && CallsMatch(calls[..|calls| - 1], ls[..|ls| - 1], key)
    ensures calls[|calls| - 1] == CallOf(ls[|ls| - 1], key)
  {
    hide CallOf;
  }

  lemma SlotIs(calls: seq<Called>, l: Listed, key: KeyMode, id: string)
    requires calls != [] && calls[|calls| - 1] == CallOf(l, key)
    ensures SlotOf(calls, id) == NextSlot(SlotOf(calls[..|calls| - 1], id), l, key, id)
  {
    hide Written, KeyId;
  }

  lemma AllSnoc(s: Slot, init: seq<Listed>, l: Listed, key: KeyMode, id: string)
    requires Recorded(s, init, key, id)
    ensures Recorded(NextSlot(s, l, key, id), init + [l], key, id)
  {
    hide TransportRead, RateRead, LatencyRead, LossRead, NextSlot;
    TransportSnoc(s, init, l, key, id);
    RateSnoc(s, init, l, key, id);
    LatencySnoc(s, init, l, key, id);
    LossSnoc(s, init, l, key, id);
  }

  /** The document lists a pair of that text. */
  ghost predicate Lists(d: Doc, key: KeyMode, id: string) {
    exists k :: 0 <= k < |Listing(d.topics)| && Listing(d.topics)[k].Text(key) == id
  }

  lemma ListsIff(d: Doc, key: KeyMode, id: string)
    ensures Lists(d, key, id) <==> id in IdsOf(Calls(d.topics, key))
  {
    CallsAre(d.topics, key);
    hide Calls, Listing, KeyId, IdentOf;
    var calls, ls := Calls(d.topics, key), Listing(d.topics);
    if c :| c in calls && KeyId(c.ident) == id {
      var k :| 0 <= k < |calls| && calls[k] == c;
      assert ls[k].Text(key) == id;
    }
    if k :| 0 <= k < |ls| && ls[k].Text(key) == id {
      assert calls[k] in calls && KeyId(calls[k].ident) == id;
    }
  }

  lemma SeriesIff(key: KeyMode, frames: seq<Frame>, id: string)
    ensures id in Scratch(key, frames).series <==> exists j :: 0 <= j < |frames| && Lists(frames[j].doc, key, id)
  {
    assert id in Scratch(key, frames).series <==> id in AllIds(frames, key);
    hide IdsOf, Scratch, Lists;
    forall j | 0 <= j < |frames|
      ensures Lists(frames[j].doc, key, id) <==> id in IdsOf(frames[j].Calls(key))
    {
      ListsIff(frames[j].doc, key, id);
    }
    hide Frame.Calls;
  }

  lemma SlotAt(key: KeyMode, frames: seq<Frame>, i: nat, id: string)
    requires i < |frames| && id in Scratch(key, frames).series
    ensures var column := Scratch(key, frames).series[id];
            |column| == |frames| && column[i] == SlotOf(Calls(frames[i].doc.topics, key), id)
  {
    hide SlotOf, IdsOf;
  }

  /**
   * A recording read back: it has a series for each pair text listed in some frame, and of frame i that series holds what
   * the last of its pairs of that text says, each measurement from the last that has it, and nothing where none does.
   */
  lemma RecordingReads(key: KeyMode, frames: seq<Frame>, i: nat, id: string)
    requires i < |frames|
    ensures var r := Scratch(key, frames);
            r.starts[i] == frames[i].start && r.ends[i] == frames[i].end
            && r.observedAt[i] == frames[i].doc.observedAt && r.changed[i] == frames[i].doc.changed
            && (id in r.series <==> exists j :: 0 <= j < |frames| && Lists(frames[j].doc, key, id))
            && (id in r.series ==>
                  |r.series[id]| == |frames| && Recorded(r.series[id][i], Listing(frames[i].doc.topics), key, id))
  {
    assert var r := Scratch(key, frames);
           r.starts[i] == frames[i].start && r.ends[i] == frames[i].end
           && r.observedAt[i] == frames[i].doc.observedAt && r.changed[i] == frames[i].doc.changed;
    CallsAre(frames[i].doc.topics, key);
    SeriesIff(key, frames, id);
    SlotReads(Calls(frames[i].doc.topics, key), Listing(frames[i].doc.topics), key, id);
    if id in Scratch(key, frames).series {
      SlotAt(key, frames, i, id);
    }
    hide *;
  }

  /** The hash is FNV-1a: the offset basis for no text, and the published value for one letter. */
  lemma HashValues()
    ensures Hash32("") == 0x811c9dc5 && Hash32("a") == 0xe40c292c
  {
    assert "a"[..0] == "";
  }
}
