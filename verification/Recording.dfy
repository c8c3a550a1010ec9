/** A recording's per-frame values, as mathematical values (web/replay.js). */
module Recording {
  import opened Model
  import opened Documents

  /** FNV-1a of a string. */
  function Hash32(s: string): bv32 {
    if s == "" then 0x811c9dc5
    else (Hash32(s[..|s| - 1]) ^ CharCode(s[|s| - 1])) * 0x01000193
  }

  function CharCode(c: char): bv32 {
    (c as int % 0x10000) as bv32
  }

  /** What every series holds for one frame; transport 0 marks a frame without the pair. */
  datatype Slot = Slot(transport: nat, guids: bv32, hz: Num, latencyMean: Num, latencySamples: Num, lost: Num)

  const EMPTY := Slot(0, 0, NaN, NaN, NaN, NaN)

  function Empties(n: nat): (s: seq<Slot>)
    ensures |s| == n && forall i :: 0 <= i < n ==> s[i] == EMPTY
  {
    seq(n, _ => EMPTY)
  }

  function TransportCode(t: DocTransport): nat {
    match t
    case Known(ViaUDPv4) => 1
    case Known(ViaUDPv6) => 2
    case Known(ViaTCPv4) => 3
    case Known(ViaTCPv6) => 4
    case Known(ViaSHM) => 5
    case Known(DataSharing) => 6
    case Known(NoTransport) => 7
    case Unrecognised(_) => 0
  }

  /** A slot after one pair of the frame is written into it: what is not measured stays as it was. */
  function Written(s: Slot, c: Called): Slot {
    var s1 := s.(transport := TransportCode(c.pair.transport), guids := Hash32(KeyId(c.actual.Id())));
    if c.pair.measured.None? then s1
    else
      var m := c.pair.measured.value;
      var s2 := s1.(hz := m.deliveredPerS);
      var s3 := if m.latency.Some? then s2.(latencyMean := m.latency.value.mean, latencySamples := m.latency.value.samples)
                else s2;
      if m.lost.Some? then s3.(lost := m.lost.value) else s3
  }

  /** The slot of series `id` in a frame with these pairs. */
  function SlotOf(calls: seq<Called>, id: string): Slot {
    if calls == [] then EMPTY
    else
      var rest, last := SlotOf(calls[..|calls| - 1], id), calls[|calls| - 1];
      if KeyId(last.ident) == id then Written(rest, last) else rest
  }

  function IdsOf(calls: seq<Called>): set<string> {
    set c | c in calls :: KeyId(c.ident)
  }

  /** A document and the bytes of the file it was found at. */
  datatype Frame = Frame(doc: Doc, start: nat, end: nat) {
    function Calls(key: KeyMode): seq<Called> {
      Documents.Calls(doc.topics, key)
    }
  }

  datatype Rec = Rec(
    key: KeyMode, starts: seq<nat>, ends: seq<nat>, observedAt: seq<string>, changed: seq<bool>,
    series: map<string, seq<Slot>>)
  {
    function Frames(): nat {
      |starts|
    }

    ghost predicate Aligned() {
      |ends| == |starts| && |observedAt| == |starts| && |changed| == |starts|
      && forall id :: id in series ==> |series[id]| == |starts|
    }
  }

  /** addFrame(): every series gains a slot, and a pair seen for the first time an absent past. */
  function Added(r: Rec, f: Frame): (r': Rec)
    ensures r.Aligned() ==> r'.Aligned()
  {
    var calls := f.Calls(r.key);
    Rec(r.key, r.starts + [f.start], r.ends + [f.end], r.observedAt + [f.doc.observedAt], r.changed + [f.doc.changed],
        map id | id in r.series.Keys + IdsOf(calls) ::
          (if id in r.series then r.series[id] else Empties(r.Frames())) + [SlotOf(calls, id)])
  }

  predicate Present(slots: seq<Slot>) {
    exists i :: 0 <= i < |slots| && slots[i].transport != 0
  }

  /** dropFrames(): the oldest frames go, and with them the series in none of the kept ones. */
  function Dropped(r: Rec, n: nat): (r': Rec)
    requires r.Aligned()
    ensures r'.Aligned()
  {
    var k := if n < r.Frames() then n else r.Frames();
    if k == 0 then r
    else Rec(r.key, r.starts[k..], r.ends[k..], r.observedAt[k..], r.changed[k..],
             map id | id in r.series && Present(r.series[id][k..]) :: r.series[id][k..])
  }

  // ---- the recording built from scratch

  /** The series ids of the frames. */
  function AllIds(frames: seq<Frame>, key: KeyMode): set<string> {
    set i, id | 0 <= i < |frames| && id in IdsOf(frames[i].Calls(key)) :: id
  }

  function Column(frames: seq<Frame>, key: KeyMode, id: string): (s: seq<Slot>)
    ensures |s| == |frames|
  {
    seq(|frames|, i requires 0 <= i < |frames| => SlotOf(frames[i].Calls(key), id))
  }

  /** The recording of exactly these frames: frame i of every series read from frame i's document. */
  function Scratch(key: KeyMode, frames: seq<Frame>): (r: Rec)
    ensures r.Aligned() && r.Frames() == |frames|
  {
    Rec(key,
        seq(|frames|, i requires 0 <= i < |frames| => frames[i].start),
        seq(|frames|, i requires 0 <= i < |frames| => frames[i].end),
        seq(|frames|, i requires 0 <= i < |frames| => frames[i].doc.observedAt),
        seq(|frames|, i requires 0 <= i < |frames| => frames[i].doc.changed),
        map id | id in AllIds(frames, key) :: Column(frames, key, id))
  }

  predicate KnownTransports(d: Doc) {
    forall t, p :: t in d.topics && p in t.pairs ==> p.transport.Known?
  }

  /** addFrame() reads the document to its end: under the node key it throws when a pair names an unlisted node. */
  predicate Readable(d: Doc, key: KeyMode) {
    key.ByNode? ==> Resolved(d)
  }

  lemma {:induction false} SlotOfAbsent(calls: seq<Called>, id: string)
    requires id !in IdsOf(calls)
    ensures SlotOf(calls, id) == EMPTY
  {
    if calls != [] {
      assert calls[|calls| - 1] in calls;
      SlotOfAbsent(calls[..|calls| - 1], id);
    }
  }

  lemma {:induction false} SlotOfPresent(calls: seq<Called>, id: string)
    requires id in IdsOf(calls) && forall c :: c in calls ==> c.pair.transport.Known?
    ensures SlotOf(calls, id).transport != 0
  {
    var init, last := calls[..|calls| - 1], calls[|calls| - 1];
    assert calls == init + [last];
    if KeyId(last.ident) != id {
      SlotOfPresent(init, id);
    }
  }

  lemma {:induction false} CallsKnown(topics: seq<DocTopic>, key: KeyMode)
    requires forall t, p :: t in topics && p in t.pairs ==> p.transport.Known?
    ensures forall c :: c in Calls(topics, key) ==> c.pair.transport.Known?
  {
    if topics != [] {
      var t := topics[|topics| - 1];
      assert t in topics;
      CallsKnown(topics[..|topics| - 1], key);
      TopicCallsKnown(t, key, |t.pairs|);
    }
  }

  lemma {:induction false} TopicCallsKnown(t: DocTopic, key: KeyMode, n: nat)
    requires n <= |t.pairs| && forall p :: p in t.pairs ==> p.transport.Known?
    ensures forall c :: c in TopicCalls(t, key, n) ==> c.pair.transport.Known?
  {
    if n > 0 {
      TopicCallsKnown(t, key, n - 1);
    }
  }

  lemma AllIdsSnoc(key: KeyMode, frames: seq<Frame>, f: Frame)
    ensures AllIds(frames + [f], key) == AllIds(frames, key) + IdsOf(f.Calls(key))
  {
    var all := frames + [f];
    assert all[|frames|] == f;
    forall id | id in AllIds(frames, key)
      ensures id in AllIds(all, key)
    {
      var i :| 0 <= i < |frames| && id in IdsOf(frames[i].Calls(key));
      assert all[i] == frames[i];
    }
    forall id | id in AllIds(all, key)
      ensures id in AllIds(frames, key) + IdsOf(f.Calls(key))
    {
      var i :| 0 <= i < |all| && id in IdsOf(all[i].Calls(key));
      assert i < |frames| ==> all[i] == frames[i];
    }
  }

  lemma ColumnSnoc(key: KeyMode, frames: seq<Frame>, f: Frame, id: string)
    ensures Column(frames + [f], key, id) == Column(frames, key, id) + [SlotOf(f.Calls(key), id)]
    ensures id !in AllIds(frames, key) ==> Column(frames, key, id) == Empties(|frames|)
  {
    if id !in AllIds(frames, key) {
      forall i | 0 <= i < |frames|
        ensures Column(frames, key, id)[i] == EMPTY
      {
        SlotOfAbsent(frames[i].Calls(key), id);
      }
    }
  }

  lemma AddedSeries(key: KeyMode, frames: seq<Frame>, f: Frame)
    ensures Added(Scratch(key, frames), f).series == Scratch(key, frames + [f]).series
  {
    var a, b := Added(Scratch(key, frames), f).series, Scratch(key, frames + [f]).series;
    AllIdsSnoc(key, frames, f);
    assert a.Keys == b.Keys;
    forall id | id in a
      ensures a[id] == b[id]
    {
      ColumnSnoc(key, frames, f, id);
    }
  }

  /** Adding a frame to the recording of some frames gives the recording of all of them. */
  lemma AddedToScratch(key: KeyMode, frames: seq<Frame>, f: Frame)
    ensures Added(Scratch(key, frames), f) == Scratch(key, frames + [f])
  {
    AddedSeries(key, frames, f);
    var a, b := Added(Scratch(key, frames), f), Scratch(key, frames + [f]);
    assert a.starts == b.starts && a.ends == b.ends && a.observedAt == b.observedAt && a.changed == b.changed;
  }

  /** No series outlives its last frame: one with a known transport is of a listed pair. */
  lemma PresentIsListed(key: KeyMode, frames: seq<Frame>, id: string)
    requires Present(Column(frames, key, id))
    ensures id in AllIds(frames, key)
  {
    var i :| 0 <= i < |frames| && Column(frames, key, id)[i].transport != 0;
    if id !in IdsOf(frames[i].Calls(key)) {
      SlotOfAbsent(frames[i].Calls(key), id);
    }
  }

  lemma ColumnDrop(key: KeyMode, frames: seq<Frame>, n: nat, id: string)
    requires n <= |frames|
    ensures Column(frames, key, id)[n..] == Column(frames[n..], key, id)
  {
  }

  /** The series a compaction leaves: those present in a kept frame, with the kept columns. */
  lemma DroppedSeries(key: KeyMode, frames: seq<Frame>, n: nat)
    requires 0 < n <= |frames|
    ensures var a := Dropped(Scratch(key, frames), n);
            (forall id :: id in a.series <==> Present(Column(frames[n..], key, id)))
            && (forall id :: id in a.series ==> a.series[id] == Column(frames[n..], key, id))
  {
    var a := Dropped(Scratch(key, frames), n);
    forall id {
      ColumnDrop(key, frames, n, id);
    }
    forall id | Present(Column(frames[n..], key, id))
      ensures id in AllIds(frames, key)
    {
      PresentIsListed(key, frames[n..], id);
      var i :| 0 <= i < |frames[n..]| && id in IdsOf(frames[n..][i].Calls(key));
      assert frames[n + i] == frames[n..][i];
    }
  }

  lemma DroppedFrames(key: KeyMode, frames: seq<Frame>, n: nat)
    requires 0 < n <= |frames|
    ensures var a, b := Dropped(Scratch(key, frames), n), Scratch(key, frames[n..]);
            a.key == b.key && a.starts == b.starts && a.ends == b.ends && a.observedAt == b.observedAt && a.changed == b.changed
  {
  }

  lemma DroppedSeriesMatch(key: KeyMode, frames: seq<Frame>, n: nat)
    requires 0 < n <= |frames|
    ensures var a, b := Dropped(Scratch(key, frames), n).series, Scratch(key, frames[n..]).series;
            a == b <==> forall id :: id in b ==> id in a
  {
    DroppedSeries(key, frames, n);
    var a, b := Dropped(Scratch(key, frames), n).series, Scratch(key, frames[n..]).series;
    forall id | id in a
      ensures id in b && a[id] == b[id]
    {
      PresentIsListed(key, frames[n..], id);
    }
    if forall id :: id in b ==> id in a {
      SameMap(a, b);
    }
  }

  lemma SameMap<K, V>(a: map<K, V>, b: map<K, V>)
    requires (forall k :: k in a ==> k in b && a[k] == b[k]) && forall k :: k in b ==> k in a
    ensures a == b
  {
    assert a.Keys == b.Keys;
  }

  /**
   * Compacting the recording of `frames` gives the recording of the kept frames exactly when
   * every pair of a kept frame is in some kept frame with a transport the viewer knows.
   */
  lemma DroppedFromScratch(key: KeyMode, frames: seq<Frame>, n: nat)
    requires n <= |frames|
    ensures Dropped(Scratch(key, frames), n) == Scratch(key, frames[n..])
       <==> (n == 0 || forall id :: id in AllIds(frames[n..], key) ==> Present(Column(frames[n..], key, id)))
  {
    if n == 0 {
      assert frames[0..] == frames;
    } else {
      DroppedFrames(key, frames, n);
      DroppedSeriesMatch(key, frames, n);
      DroppedSeries(key, frames, n);
      assert Scratch(key, frames[n..]).series.Keys == AllIds(frames[n..], key);
      hide *;
    }
  }

  /** Frames whose transports the viewer knows compact without loss. */
  lemma KnownFramesCompact(key: KeyMode, frames: seq<Frame>, n: nat)
    requires n <= |frames| && forall f :: f in frames ==> KnownTransports(f.doc)
    ensures Dropped(Scratch(key, frames), n) == Scratch(key, frames[n..])
  {
    forall id | id in AllIds(frames[n..], key)
      ensures Present(Column(frames[n..], key, id))
    {
      var i :| 0 <= i < |frames[n..]| && id in IdsOf(frames[n..][i].Calls(key));
      assert frames[n..][i] in frames;
      CallsKnown(frames[n..][i].doc.topics, key);
      SlotOfPresent(frames[n..][i].Calls(key), id);
      assert Column(frames[n..], key, id)[i].transport != 0;
    }
    DroppedFromScratch(key, frames, n);
  }

  const UNKNOWN_PAIR := DocPair("w", "r", "", "", Unrecognised("QUIC"), Certain, None, [], None)
  const UNKNOWN_FRAME := Frame(Doc("", false, [DocTopic("t", [], [], [UNKNOWN_PAIR])]), 0, 1)

  lemma UnknownPairCalls()
    ensures UNKNOWN_FRAME.Calls(ByGuid) == [Called(UNKNOWN_PAIR, PairKey("t", "w", "r", "", ""), Ident("t", "w", "r"))]
  {
    var t := UNKNOWN_FRAME.doc.topics[0];
    assert UNKNOWN_FRAME.doc.topics[..0] == [];
    assert TopicCalls(t, ByGuid, 0) == [];
    assert TopicCalls(t, ByGuid, 1) == [Called(UNKNOWN_PAIR, KeyOf(t, UNKNOWN_PAIR), IdentOf(t, UNKNOWN_PAIR, ByGuid))];
    assert Calls([t], ByGuid) == Calls([], ByGuid) + TopicCalls(t, ByGuid, 1);
  }

  /** A pair with a transport the viewer does not know is lost by the first compaction. */
  lemma UnknownTransportIsLost()
    ensures var frames := [UNKNOWN_FRAME, UNKNOWN_FRAME];
            Dropped(Scratch(ByGuid, frames), 1) != Scratch(ByGuid, frames[1..])
  {
    UnknownPairCalls();
    var calls, id, kept := UNKNOWN_FRAME.Calls(ByGuid), KeyId(Ident("t", "w", "r")), [UNKNOWN_FRAME];
    assert calls[0] in calls && id in IdsOf(kept[0].Calls(ByGuid));
    assert calls[..0] == [] && SlotOf(calls, id).transport == 0;
    assert [UNKNOWN_FRAME, UNKNOWN_FRAME][1..] == kept;
    assert id in AllIds(kept, ByGuid) && !Present(Column(kept, ByGuid, id));
    hide *;
    DroppedFromScratch(ByGuid, [UNKNOWN_FRAME, UNKNOWN_FRAME], 1);
  }

  const UNLISTED_PAIR := DocPair("w", "r", "node", "", Known(ViaSHM), Certain, None, [], None)
  const UNLISTED := Doc("", false, [DocTopic("t", [], [], [UNLISTED_PAIR])])

  /** A document with a pair of a node that lists no endpoint: added under the GUID key, thrown at under the node key. */
  lemma UnlistedNodeThrows()
    ensures KnownTransports(UNLISTED) && Readable(UNLISTED, ByGuid) && !Readable(UNLISTED, ByNode)
  {
    assert UNLISTED.topics[0] in UNLISTED.topics && UNLISTED.topics[0].pairs == [UNLISTED_PAIR];
    assert UNLISTED_PAIR in UNLISTED.topics[0].pairs && !PairResolved(UNLISTED.topics[0], UNLISTED_PAIR);
  }

  // ---- any interleaving

  datatype Op = Add(frame: Frame) | Drop(n: nat)

  function Run(r: Rec, ops: seq<Op>): (r': Rec)
    requires r.Aligned()
    ensures r'.Aligned()
  {
    if ops == [] then r
    else
      var before := Run(r, ops[..|ops| - 1]);
      match ops[|ops| - 1]
      case Add(f) => Added(before, f)
      case Drop(n) => Dropped(before, n)
  }

  /** The frames an interleaving keeps. */
  function KeptFrames(frames: seq<Frame>, ops: seq<Op>): seq<Frame> {
    if ops == [] then frames
    else
      var before := KeptFrames(frames, ops[..|ops| - 1]);
      match ops[|ops| - 1]
      case Add(f) => before + [f]
      case Drop(n) => before[(if n < |before| then n else |before|)..]
  }

  /** After any adds and drops the recording is the one built from scratch from the kept frames. */
  lemma {:induction false} CompactionRefinesScratch(key: KeyMode, frames: seq<Frame>, ops: seq<Op>)
    requires forall f :: f in frames ==> KnownTransports(f.doc)
    requires forall op :: op in ops && op.Add? ==> KnownTransports(op.frame.doc) && Readable(op.frame.doc, key)
    ensures forall f :: f in KeptFrames(frames, ops) ==> KnownTransports(f.doc)
    ensures Run(Scratch(key, frames), ops) == Scratch(key, KeptFrames(frames, ops))
  {
    if ops != [] {
      var init, last := ops[..|ops| - 1], ops[|ops| - 1];
      assert last in ops;
      CompactionRefinesScratch(key, frames, init);
      var before := KeptFrames(frames, init);
      match last {
        case Add(f) => AddedToScratch(key, before, f);
        case Drop(n) =>
          KnownFramesCompact(key, before, if n < |before| then n else |before|);
      }
    }
  }
}
