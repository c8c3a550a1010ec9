/** Counting the pairs between processes without listing them (decision.cpp). */
module MeasurablePairs {
  import opened Model
  import opened Decision

  // ---- one pair at a time

  predicate Eprosima(e: Endpoint) {
    e.guidBytes[0] == 0x01 && e.guidBytes[1] == 0x0f
  }

  /** A writer and a reader of one topic, both outside the tool. */
  predicate Pairable(w: Endpoint, r: Endpoint, own: set<string>) {
    w.isWriter && !r.isWriter && w.ddsTopic == r.ddsTopic && w.participant !in own && r.participant !in own
  }

  predicate Measurable(w: Endpoint, r: Endpoint, own: set<string>) {
    Pairable(w, r, own) && !IntraProcessPair(w, r)
  }

  /** How many of `rs` are in the relation with `w`. */
  function ReadersOf(w: Endpoint, rs: seq<Endpoint>, rel: (Endpoint, Endpoint) -> bool): nat {
    if rs == [] then 0
    else ReadersOf(w, rs[..|rs| - 1], rel) + (if rel(w, rs[|rs| - 1]) then 1 else 0)
  }

  /** Every pair of an endpoint of ws and one of rs looked at. */
  function RelatedPairs(ws: seq<Endpoint>, rs: seq<Endpoint>, rel: (Endpoint, Endpoint) -> bool): nat {
    if ws == [] then 0
    else RelatedPairs(ws[..|ws| - 1], rs, rel) + ReadersOf(ws[|ws| - 1], rs, rel)
  }

  /** The pairs among `es` that can show a packet. */
  function PairsOf(es: seq<Endpoint>, own: set<string>): nat {
    RelatedPairs(es, es, (w, r) => Measurable(w, r, own))
  }

  // ---- by process groups

  /** The first eight GUID bytes, or the GUID of an endpoint of another vendor. */
  function ProcessKey(e: Endpoint): string {
    if Eprosima(e) then seq(8, i requires 0 <= i < 8 => e.guidBytes[i] as char) else e.guid
  }

  datatype Group = Group(writers: nat, readers: nat)

  datatype TopicCounts = TopicCounts(writers: nat, readers: nat, byProcess: map<string, Group>) {
    function At(key: string): Group {
      if key in byProcess then byProcess[key] else Group(0, 0)
    }
  }

  const NO_COUNTS := TopicCounts(0, 0, map[])

  function CountsAt(topics: map<string, TopicCounts>, topic: string): TopicCounts {
    if topic in topics then topics[topic] else NO_COUNTS
  }

  function SameProcess(g: Group): int {
    g.writers * g.readers
  }

  /** The pairs of a topic that leave their process. */
  ghost function Leaving(t: TopicCounts): int {
    t.writers * t.readers - Total(t.byProcess, SameProcess)
  }

  /** The values of a map added up, in whatever order. */
  ghost function Total<V>(m: map<string, V>, f: V -> int): int {
    if m == map[] then 0
    else
      var k :| k in m;
      f(m[k]) + Total(m - {k}, f)
  }

  lemma {:induction false} TotalTakeOut<V>(m: map<string, V>, f: V -> int, k: string)
    requires k in m
    ensures Total(m, f) == f(m[k]) + Total(m - {k}, f)
  {
    var first :| first in m && Total(m, f) == f(m[first]) + Total(m - {first}, f);
    if first != k {
      TotalTakeOut(m - {first}, f, k);
      TotalTakeOut(m - {k}, f, first);
      assert m - {first} - {k} == m - {k} - {first};
    }
  }

  lemma TotalPut<V>(m: map<string, V>, f: V -> int, k: string, v: V)
    ensures Total(m[k := v], f) == Total(m, f) + f(v) - (if k in m then f(m[k]) else 0)
  {
    var m' := m[k := v];
    TotalTakeOut(m', f, k);
    if k in m {
      TotalTakeOut(m, f, k);
      assert m' - {k} == m - {k};
    } else {
      assert m' - {k} == m;
    }
  }

  function Counted(t: TopicCounts, key: string, isWriter: bool): TopicCounts {
    var g := t.At(key);
    if isWriter then TopicCounts(t.writers + 1, t.readers, t.byProcess[key := Group(g.writers + 1, g.readers)])
    else TopicCounts(t.writers, t.readers + 1, t.byProcess[key := Group(g.writers, g.readers + 1)])
  }

  /** No group has more ends than its topic, so the unsigned subtraction never wraps. */
  ghost predicate Fits(t: TopicCounts) {
    Leaving(t) >= 0 && forall k :: t.At(k).writers <= t.writers && t.At(k).readers <= t.readers
  }

  lemma OneMoreProduct(w: nat, r: nat)
    ensures (w + 1) * r == w * r + r && w * (r + 1) == w * r + w
  {
  }

  lemma CountedAt(t: TopicCounts, key: string, isWriter: bool, k: string)
    ensures Counted(t, key, isWriter).At(k)
         == if k != key then t.At(k)
            else if isWriter then Group(t.At(k).writers + 1, t.At(k).readers) else Group(t.At(k).writers, t.At(k).readers + 1)
  {
  }

  lemma CountedLeaving(t: TopicCounts, key: string, isWriter: bool)
    requires Fits(t)
    ensures Fits(Counted(t, key, isWriter))
    ensures Leaving(Counted(t, key, isWriter))
         == Leaving(t) + (if isWriter then t.readers - t.At(key).readers else t.writers - t.At(key).writers)
  {
    var g, t' := t.At(key), Counted(t, key, isWriter);
    var g' := if isWriter then Group(g.writers + 1, g.readers) else Group(g.writers, g.readers + 1);
    TotalPut(t.byProcess, SameProcess, key, g');
    OneMoreProduct(g.writers, g.readers);
    OneMoreProduct(t.writers, t.readers);
    assert g.writers <= t.writers && g.readers <= t.readers;
    forall k
      ensures t'.At(k).writers <= t'.writers && t'.At(k).readers <= t'.readers
    {
      CountedAt(t, key, isWriter, k);
      assert t.At(k).writers <= t.writers && t.At(k).readers <= t.readers;
    }
    assert Total(t'.byProcess, SameProcess) == Total(t.byProcess, SameProcess) + SameProcess(g') - SameProcess(g);
  }

  /** What one endpoint adds: a pair with every opposite end on its topic, less those in its group. */
  function Count(topics: map<string, TopicCounts>, e: Endpoint, own: set<string>): map<string, TopicCounts> {
    if e.participant in own then topics
    else topics[e.ddsTopic := Counted(CountsAt(topics, e.ddsTopic), ProcessKey(e), e.isWriter)]
  }

  method CountEndpoints(es: seq<Endpoint>, own: set<string>) returns (topics: map<string, TopicCounts>)
    ensures topics == CountedAll(es, own)
  {
    topics := map[];
    for i := 0 to |es|
      invariant topics == CountedAll(es[..i], own)
    {
      var e := es[i];
      assert es[..i + 1][..i] == es[..i];
      if e.participant in own {
        continue;
      }
      var t := CountsAt(topics, e.ddsTopic);
      var counts := t.At(ProcessKey(e));
      if e.isWriter {
        t := t.(writers := t.writers + 1);
        counts := counts.(writers := counts.writers + 1);
      } else {
        t := t.(readers := t.readers + 1);
        counts := counts.(readers := counts.readers + 1);
      }
      topics := topics[e.ddsTopic := t.(byProcess := t.byProcess[ProcessKey(e) := counts])];
    }
    assert es[..|es|] == es;
  }

  function CountedAll(es: seq<Endpoint>, own: set<string>): map<string, TopicCounts> {
    if es == [] then map[] else Count(CountedAll(es[..|es| - 1], own), es[|es| - 1], own)
  }

  method CountMeasurablePairs(es: seq<Endpoint>, own: set<string>) returns (out: nat)
    ensures out == PairsBetweenGroups(es, own) <= PairsOf(es, own)
    ensures out == PairsOf(es, own) <==> GroupsAreProcesses(es, own)
  {
    GroupsCountPairs(es, own);
    PairsOfGroups(es, own);
    var topics := CountEndpoints(es, own);
    assert forall k :: k in topics ==> topics[k] == CountsAt(topics, k);
    out := 0;
    var rest := topics;
    while rest != map[]
      invariant out + Total(rest, Leaving) == Total(topics, Leaving)
      invariant forall k :: k in rest ==> Fits(rest[k])
      decreases rest.Keys
    {
      var k :| k in rest;
      TotalTakeOut(rest, Leaving, k);
      var samePairs := SumSame(rest[k].byProcess);
      out := out + (rest[k].writers * rest[k].readers - samePairs);
      rest := rest - {k};
    }
  }

  method SumSame(byProcess: map<string, Group>) returns (same: int)
    ensures same == Total(byProcess, SameProcess)
  {
    same := 0;
    var rest := byProcess;
    while rest != map[]
      invariant same + Total(rest, SameProcess) == Total(byProcess, SameProcess)
      decreases rest.Keys
    {
      var k :| k in rest;
      TotalTakeOut(rest, SameProcess, k);
      same := same + rest[k].writers * rest[k].readers;
      rest := rest - {k};
    }
  }

  // ---- the groups count the pairs

  predicate BetweenGroups(w: Endpoint, r: Endpoint, own: set<string>) {
    Pairable(w, r, own) && ProcessKey(w) != ProcessKey(r)
  }

  function PairsBetweenGroups(es: seq<Endpoint>, own: set<string>): nat {
    RelatedPairs(es, es, (w, r) => BetweenGroups(w, r, own))
  }

  /** The two ends of a pair are in one group only if they are in one process. */
  ghost predicate GroupsAreProcesses(es: seq<Endpoint>, own: set<string>) {
    forall w, r :: w in es && r in es && Pairable(w, r, own) && ProcessKey(w) == ProcessKey(r) ==> IntraProcessPair(w, r)
  }

  /** One process is one group. */
  lemma ProcessIsInGroup(w: Endpoint, r: Endpoint)
    requires IntraProcessPair(w, r)
    ensures ProcessKey(w) == ProcessKey(r)
  {
    forall i | 0 <= i < 8
      ensures w.guidBytes[i] == r.guidBytes[i]
    {
      assert w.guidBytes[i] == w.guidBytes[..8][i] == r.guidBytes[..8][i];
    }
  }

  lemma {:induction false} FewerReaders(w: Endpoint, rs: seq<Endpoint>, p: (Endpoint, Endpoint) -> bool,
                                        q: (Endpoint, Endpoint) -> bool)
    requires forall r :: p(w, r) ==> q(w, r)
    ensures ReadersOf(w, rs, p) <= ReadersOf(w, rs, q)
    ensures ReadersOf(w, rs, p) == ReadersOf(w, rs, q) <==> forall r :: r in rs && q(w, r) ==> p(w, r)
  {
    if rs != [] {
      var init, last := rs[..|rs| - 1], rs[|rs| - 1];
      FewerReaders(w, init, p, q);
      assert rs == init + [last];
    }
  }

  lemma {:induction false} FewerPairs(ws: seq<Endpoint>, rs: seq<Endpoint>, p: (Endpoint, Endpoint) -> bool,
                                      q: (Endpoint, Endpoint) -> bool)
    requires forall w, r :: p(w, r) ==> q(w, r)
    ensures RelatedPairs(ws, rs, p) <= RelatedPairs(ws, rs, q)
    ensures RelatedPairs(ws, rs, p) == RelatedPairs(ws, rs, q)
       <==> forall w, r :: w in ws && r in rs && q(w, r) ==> p(w, r)
  {
    if ws != [] {
      var init, last := ws[..|ws| - 1], ws[|ws| - 1];
      FewerPairs(init, rs, p, q);
      FewerReaders(last, rs, p, q);
      assert ws == init + [last];
    }
  }

  /** No pair between groups is within a process; the converse is the condition. */
  lemma PairsOfGroups(es: seq<Endpoint>, own: set<string>)
    ensures PairsBetweenGroups(es, own) <= PairsOf(es, own)
    ensures PairsBetweenGroups(es, own) == PairsOf(es, own) <==> GroupsAreProcesses(es, own)
  {
    forall w, r | IntraProcessPair(w, r)
      ensures ProcessKey(w) == ProcessKey(r)
    {
      ProcessIsInGroup(w, r);
    }
    hide ProcessKey, IntraProcessPair;
    var p: (Endpoint, Endpoint) -> bool := (w, r) => BetweenGroups(w, r, own);
    var q: (Endpoint, Endpoint) -> bool := (w, r) => Measurable(w, r, own);
    FewerPairs(es, es, p, q);
    assert (forall w, r :: w in es && r in es && q(w, r) ==> p(w, r)) <==> GroupsAreProcesses(es, own);
  }

  /** Endpoints have their own GUIDs, and no GUID text is as short as eight characters. */
  ghost predicate OwnGuids(es: seq<Endpoint>) {
    (forall e, f :: e in es && f in es && e.guid == f.guid ==> e == f) && forall e :: e in es ==> |e.guid| != 8
  }

  /** Then a shared key is a shared process. */
  lemma OwnGuidsSuffice(es: seq<Endpoint>, own: set<string>)
    requires OwnGuids(es)
    ensures GroupsAreProcesses(es, own)
  {
    forall w, r | w in es && r in es && Pairable(w, r, own) && ProcessKey(w) == ProcessKey(r)
      ensures IntraProcessPair(w, r)
    {
      KeyIsProcess(w, r);
    }
  }

  /** A shared key is a shared process. */
  lemma KeyIsProcess(a: Endpoint, b: Endpoint)
    requires a.guid != b.guid && |a.guid| != 8 && |b.guid| != 8
    ensures ProcessKey(a) == ProcessKey(b) <==> IntraProcessPair(a, b)
    ensures ProcessKey(a) == ProcessKey(b) <==> IntraProcessPair(b, a)
  {
    if Eprosima(a) && Eprosima(b) && ProcessKey(a) == ProcessKey(b) {
      forall i | 0 <= i < 8
        ensures a.guidBytes[i] == b.guidBytes[i]
      {
        assert a.guidBytes[i] as char == ProcessKey(a)[i] == ProcessKey(b)[i];
      }
      assert a.guidBytes[..8] == b.guidBytes[..8];
    }
    if IntraProcessPair(a, b) {
      ProcessIsInGroup(a, b);
    }
    if IntraProcessPair(b, a) {
      ProcessIsInGroup(b, a);
    }
  }

  /** The writers or readers on a topic outside the tool, and those of them in one group. */
  function Ends(es: seq<Endpoint>, own: set<string>, topic: string, writers: bool): nat {
    if es == [] then 0
    else
      var e := es[|es| - 1];
      Ends(es[..|es| - 1], own, topic, writers)
      + (if e.participant !in own && e.ddsTopic == topic && e.isWriter == writers then 1 else 0)
  }

  function EndsIn(es: seq<Endpoint>, own: set<string>, topic: string, writers: bool, key: string): nat {
    if es == [] then 0
    else
      var e := es[|es| - 1];
      EndsIn(es[..|es| - 1], own, topic, writers, key)
      + (if e.participant !in own && e.ddsTopic == topic && e.isWriter == writers && ProcessKey(e) == key then 1 else 0)
  }

  /** The counters of one topic. */
  ghost predicate TopicExact(c: TopicCounts, es: seq<Endpoint>, own: set<string>, t: string) {
    Fits(c) && c.writers == Ends(es, own, t, true) && c.readers == Ends(es, own, t, false)
    && forall k :: c.At(k) == Group(EndsIn(es, own, t, true, k), EndsIn(es, own, t, false, k))
  }

  ghost predicate CountsExact(topics: map<string, TopicCounts>, es: seq<Endpoint>, own: set<string>) {
    forall t: string :: TopicExact(CountsAt(topics, t), es, own, t)
  }

  function WritersOf(ws: seq<Endpoint>, r: Endpoint, rel: (Endpoint, Endpoint) -> bool): nat {
    if ws == [] then 0
    else WritersOf(ws[..|ws| - 1], r, rel) + (if rel(ws[|ws| - 1], r) then 1 else 0)
  }

  lemma {:induction false} OneMoreReader(ws: seq<Endpoint>, rs: seq<Endpoint>, r: Endpoint, rel: (Endpoint, Endpoint) -> bool)
    ensures RelatedPairs(ws, rs + [r], rel) == RelatedPairs(ws, rs, rel) + WritersOf(ws, r, rel)
  {
    if ws != [] {
      OneMoreReader(ws[..|ws| - 1], rs, r, rel);
      ReadersSnoc(ws[|ws| - 1], rs, r, rel);
    }
  }

  lemma ReadersSnoc(w: Endpoint, rs: seq<Endpoint>, r: Endpoint, rel: (Endpoint, Endpoint) -> bool)
    ensures ReadersOf(w, rs + [r], rel) == ReadersOf(w, rs, rel) + (if rel(w, r) then 1 else 0)
  {
    assert (rs + [r])[..|rs|] == rs;
  }

  lemma OneMoreEndpoint(es: seq<Endpoint>, e: Endpoint, rel: (Endpoint, Endpoint) -> bool)
    requires !rel(e, e)
    ensures RelatedPairs(es + [e], es + [e], rel) == RelatedPairs(es, es, rel) + WritersOf(es, e, rel) + ReadersOf(e, es, rel)
  {
    assert (es + [e])[..|es|] == es;
    OneMoreReader(es, es, e, rel);
    ReadersSnoc(e, es, e, rel);
  }

  /** The partners of an endpoint: the opposite ends on its topic outside its process group. */
  lemma {:induction false} PartnersAre(es: seq<Endpoint>, e: Endpoint, own: set<string>)
    ensures ReadersOf(e, es, (w, r) => BetweenGroups(w, r, own))
         == if e.participant in own || !e.isWriter then 0
            else Ends(es, own, e.ddsTopic, false) - EndsIn(es, own, e.ddsTopic, false, ProcessKey(e))
    ensures WritersOf(es, e, (w, r) => BetweenGroups(w, r, own))
         == if e.participant in own || e.isWriter then 0
            else Ends(es, own, e.ddsTopic, true) - EndsIn(es, own, e.ddsTopic, true, ProcessKey(e))
  {
    if es != [] {
      hide ProcessKey;
      PartnersAre(es[..|es| - 1], e, own);
    }
  }

  lemma EndsSnoc(es: seq<Endpoint>, e: Endpoint, own: set<string>, t: string, w: bool, k: string)
    ensures var here := e.participant !in own && e.ddsTopic == t && e.isWriter == w;
            Ends(es + [e], own, t, w) == Ends(es, own, t, w) + (if here then 1 else 0)
            && EndsIn(es + [e], own, t, w, k) == EndsIn(es, own, t, w, k) + (if here && ProcessKey(e) == k then 1 else 0)
  {
    hide ProcessKey;
    assert (es + [e])[..|es|] == es;
  }

  lemma CountKeepsTopic(topics: map<string, TopicCounts>, es: seq<Endpoint>, own: set<string>, e: Endpoint, t: string)
    requires TopicExact(CountsAt(topics, t), es, own, t)
    ensures TopicExact(CountsAt(Count(topics, e, own), t), es + [e], own, t)
  {
    var c, key := CountsAt(topics, t), ProcessKey(e);
    CountedLeaving(c, key, e.isWriter);
    forall w: bool, k: string {
      EndsSnoc(es, e, own, t, w, k);
    }
    forall k {
      CountedAt(c, key, e.isWriter, k);
    }
    hide ProcessKey, Fits, Ends, EndsIn, TopicCounts.At;
  }

  lemma CountKeepsExact(topics: map<string, TopicCounts>, es: seq<Endpoint>, own: set<string>, e: Endpoint)
    requires CountsExact(topics, es, own)
    ensures CountsExact(Count(topics, e, own), es + [e], own)
  {
    hide TopicExact, CountsAt, Count;
    forall t: string
      ensures TopicExact(CountsAt(Count(topics, e, own), t), es + [e], own, t)
    {
      CountKeepsTopic(topics, es, own, e, t);
    }
  }

  /** The product over groups is the count over pairs. */
  lemma {:induction false} GroupsCountPairs(es: seq<Endpoint>, own: set<string>)
    ensures CountsExact(CountedAll(es, own), es, own)
    ensures Total(CountedAll(es, own), Leaving) == PairsBetweenGroups(es, own)
  {
    if es == [] {
      assert Fits(NO_COUNTS);
    } else {
      var init, e := es[..|es| - 1], es[|es| - 1];
      assert es == init + [e];
      GroupsCountPairs(init, own);
      var topics := CountedAll(init, own);
      CountKeepsExact(topics, init, own, e);
      OneMoreEndpoint(init, e, (w, r) => BetweenGroups(w, r, own));
      PartnersAre(init, e, own);
      if e.participant !in own {
        OneMoreTotal(topics, init, own, e);
      }
    }
  }

  lemma OneMoreTotal(topics: map<string, TopicCounts>, es: seq<Endpoint>, own: set<string>, e: Endpoint)
    requires CountsExact(topics, es, own) && e.participant !in own
    ensures Total(Count(topics, e, own), Leaving) == Total(topics, Leaving)
              + Ends(es, own, e.ddsTopic, !e.isWriter) - EndsIn(es, own, e.ddsTopic, !e.isWriter, ProcessKey(e))
  {
    var c := CountsAt(topics, e.ddsTopic);
    assert Leaving(NO_COUNTS) == 0;
    CountedLeaving(c, ProcessKey(e), e.isWriter);
    TotalPut(topics, Leaving, e.ddsTopic, Counted(c, ProcessKey(e), e.isWriter));
  }
}
