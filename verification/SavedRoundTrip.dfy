/** A saved document read back has the pairs of the snapshot it was written from, and compares equal to it. */
module SavedRoundTrip {
  import opened Model
  import opened Snapshot
  import opened GuidText
  import opened SavedDocuments
  import D = SnapshotDiff
  import O = OrderedPairs
  import R = Ranks

  // ---- the parts

  lemma EnumsRead(k: LocatorKind, t: Transport, c: Confidence, tk: TopicKind, d: GroupDirection)
    ensures KindFrom(KindText(k)) == Some(k) && TransportFrom(TransportText(t)) == Some(t)
    ensures ConfidenceFrom(ConfidenceText(c)) == Some(c)
    ensures TopicKindFrom(TopicKindText(tk)) == Some(tk) && DirectionFrom(DirectionText(d)) == Some(d)
  {
  }

  function Mapped<S, T>(xs: seq<S>, g: S -> T): (r: seq<T>)
    ensures |r| == |xs|
  {
    seq(|xs|, i requires 0 <= i < |xs| => g(xs[i]))
  }

  lemma {:induction false} ArrayReads<S, T>(xs: seq<S>, r: S -> Json, f: Json -> Option<T>, g: S -> T)
    requires forall i :: 0 <= i < |xs| ==> f(r(xs[i])) == Some(g(xs[i]))
    ensures Each(JsonArray(xs, r).items, f) == Some(Mapped(xs, g))
  {
    if xs != [] {
      var init := xs[..|xs| - 1];
      ArrayReads(init, r, f, g);
      assert JsonArray(xs, r).items[..|xs| - 1] == JsonArray(init, r).items;
      assert Mapped(xs, g) == Mapped(init, g) + [g(xs[|xs| - 1])];
    }
  }

  lemma MeasuredLocatorReads(m: MeasuredLocator)
    ensures MeasuredLocatorFrom(MeasuredLocatorJson(m)) == Some(m)
  {
    EnumsRead(m.locator.kind, NoTransport, Certain, OtherTopic, NoDirection);
    hide KindText, KindFrom;
  }

  lemma SelectedLocatorReads(v: Verdict)
    ensures var j := SelectedLocatorJson(v);
            if v.locator.kind == Invalid then !j.Obj? && At(j, Multicast).None?
            else j.Obj? && LocatorFrom(j) == Some(v.locator) && BoolAt(j, Multicast) == Some(v.locatorMulticast)
  {
    EnumsRead(v.locator.kind, NoTransport, Certain, OtherTopic, NoDirection);
    hide KindText, KindFrom;
  }

  lemma TransportsRead(ts: seq<Transport>)
    ensures Each(JsonArray(ts, TransportJson).items, TransportIn) == Some(ts)
  {
    forall i | 0 <= i < |ts|
      ensures TransportIn(TransportJson(ts[i])) == Some(ts[i])
    {
      EnumsRead(Invalid, ts[i], Certain, OtherTopic, NoDirection);
    }
    hide TransportIn, TransportJson;
    ArrayReads(ts, TransportJson, TransportIn, x => x);
    assert Mapped(ts, x => x) == ts;
  }

  lemma CodesRead(cs: seq<Code>)
    ensures Each(JsonArray(cs, CodeJson).items, CodeIn) == Some(cs)
  {
    ArrayReads(cs, CodeJson, CodeIn, x => x);
    assert Mapped(cs, x => x) == cs;
  }

  lemma MeasuredLocatorsRead(ms: seq<MeasuredLocator>)
    ensures Each(JsonArray(ms, MeasuredLocatorJson).items, MeasuredLocatorFrom) == Some(ms)
  {
    forall i | 0 <= i < |ms|
      ensures MeasuredLocatorFrom(MeasuredLocatorJson(ms[i])) == Some(ms[i])
    {
      MeasuredLocatorReads(ms[i]);
    }
    hide MeasuredLocatorFrom, MeasuredLocatorJson;
    ArrayReads(ms, MeasuredLocatorJson, MeasuredLocatorFrom, x => x);
    assert Mapped(ms, x => x) == ms;
  }

  lemma MeasurementReads(m: Measurement)
    ensures MeasurementFrom(MeasurementJson(m)) == Some(m)
  {
    TransportsRead(m.transports);
    MeasuredLocatorsRead(m.locators);
    hide Each, TransportIn, MeasuredLocatorFrom;
  }

  // ---- endpoints

  /** An endpoint as it is read back: the fields a comparison needs. */
  function Reread(e: Endpoint): Endpoint {
    BLANK_ENDPOINT.(isWriter := e.isWriter, guid := e.guid, guidBytes := BytesFrom(e.guid, 0, []), participant := e.participant,
           nodeName := NormalizedNodeName(e.nodeName), ddsTopic := e.ddsTopic, ddsType := e.ddsType)
  }

  lemma EndpointReads(e: Endpoint)
    ensures EndpointFrom(EndpointJson(e), e.isWriter) == Some(Reread(e))
  {
    hide NormalizedNodeName, BytesFrom;
  }

  ghost predicate Sided(t: TopicSummary) {
    (forall i :: 0 <= i < |t.writers| ==> t.writers[i].isWriter) && (forall i :: 0 <= i < |t.readers| ==> !t.readers[i].isWriter)
  }

  function RereadEnds(t: TopicSummary): Ends {
    (Mapped(t.writers, Reread), Mapped(t.readers, Reread))
  }

  /** An endpoint is read with its own name, or without one when it had none to be known by. */
  lemma NodeNameReads(j: Json, isWriter: bool)
    requires EndpointFrom(j, isWriter).Some?
    ensures StrAt(j, Node).Some?
    ensures var e, name := EndpointFrom(j, isWriter).value, StrAt(j, Node).value;
            e.isWriter == isWriter
            && e.nodeName == if name == "_NODE_NAMESPACE_UNKNOWN_/_NODE_NAME_UNKNOWN_" then "" else name
  {
  }

  lemma EndsRead(t: TopicSummary)
    requires Sided(t)
    ensures EndsFrom(TopicJson(t)) == Some(RereadEnds(t))
  {
    hide WriterFrom, ReaderFrom, EndpointJson, Reread, Each, PairJson, TopicKindText, DirectionText;
    WritersRead(t.writers);
    ReadersRead(t.readers);
  }

  lemma WritersRead(es: seq<Endpoint>)
    requires forall i :: 0 <= i < |es| ==> es[i].isWriter
    ensures Each(JsonArray(es, EndpointJson).items, WriterFrom) == Some(Mapped(es, Reread))
  {
    hide EndpointFrom, EndpointJson, Reread;
    forall i | 0 <= i < |es|
      ensures WriterFrom(EndpointJson(es[i])) == Some(Reread(es[i]))
    {
      EndpointReads(es[i]);
    }
    ArrayReads(es, EndpointJson, WriterFrom, Reread);
  }

  lemma ReadersRead(es: seq<Endpoint>)
    requires forall i :: 0 <= i < |es| ==> !es[i].isWriter
    ensures Each(JsonArray(es, EndpointJson).items, ReaderFrom) == Some(Mapped(es, Reread))
  {
    hide EndpointFrom, EndpointJson, Reread;
    forall i | 0 <= i < |es|
      ensures ReaderFrom(EndpointJson(es[i])) == Some(Reread(es[i]))
    {
      EndpointReads(es[i]);
    }
    ArrayReads(es, EndpointJson, ReaderFrom, Reread);
  }

  // ---- pairs and topics

  function RereadVerdict(v: Verdict): Verdict {
    if v.locator.kind == Invalid then v.(locator := NO_LOCATOR, locatorMulticast := false) else v
  }

  function RereadPair(p: Pair): Pair {
    Pair(Reread(p.writer), Reread(p.reader), RereadVerdict(p.verdict), p.measured)
  }

  /** Every end of a pair is found again under its GUID. */
  ghost predicate Resolves(t: TopicSummary, byGuid: map<string, Endpoint>) {
    forall i :: 0 <= i < |t.pairs| ==> ResolvesPair(t.pairs[i], byGuid)
  }

  ghost predicate ResolvesPair(p: Pair, byGuid: map<string, Endpoint>) {
    p.writer.guid in byGuid && byGuid[p.writer.guid] == Reread(p.writer)
    && p.reader.guid in byGuid && byGuid[p.reader.guid] == Reread(p.reader)
  }

  lemma VerdictReads(p: Pair)
    ensures VerdictFrom(PairJson(p)) == Some(RereadVerdict(p.verdict))
  {
    EnumsRead(Invalid, p.verdict.transport, p.verdict.confidence, OtherTopic, NoDirection);
    SelectedLocatorReads(p.verdict);
    CodesRead(p.verdict.reasons);
    CodesRead(p.verdict.warnings);
    hide Each, TransportText, TransportFrom, ConfidenceText, ConfidenceFrom, LocatorFrom, SelectedLocatorJson, MeasurementJson;
  }

  lemma PairReads(p: Pair, byGuid: map<string, Endpoint>)
    requires ResolvesPair(p, byGuid)
    ensures PairFrom(PairJson(p), byGuid) == Some(RereadPair(p))
  {
    VerdictReads(p);
    MeasurementReads(p.measured);
    hide VerdictFrom, MeasurementFrom, MeasurementJson, SelectedLocatorJson, Reread, RereadVerdict;
  }

  function RereadTopic(t: TopicSummary): TopicSummary {
    t.(writers := Mapped(t.writers, Reread), readers := Mapped(t.readers, Reread), pairs := Mapped(t.pairs, RereadPair))
  }

  lemma ClassReads(t: TopicSummary)
    ensures ClassFrom(TopicJson(t)) == Some((t.kind, t.group, t.direction, true))
  {
    EnumsRead(Invalid, NoTransport, Certain, t.kind, t.direction);
    hide TopicKindFrom, TopicKindText, DirectionFrom, DirectionText;
  }

  lemma PairsRead(t: TopicSummary, byGuid: map<string, Endpoint>)
    requires Resolves(t, byGuid)
    ensures ArrayAt(TopicJson(t), Pairs, x => PairFrom(x, byGuid)) == Some(Mapped(t.pairs, RereadPair))
  {
    forall i | 0 <= i < |t.pairs|
      ensures PairFrom(PairJson(t.pairs[i]), byGuid) == Some(RereadPair(t.pairs[i]))
    {
      PairReads(t.pairs[i], byGuid);
    }
    hide PairFrom, PairJson, RereadPair, Reread;
    ArrayReads(t.pairs, PairJson, x => PairFrom(x, byGuid), RereadPair);
    hide Each;
  }

  lemma TopicReads(t: TopicSummary, byGuid: map<string, Endpoint>)
    requires Resolves(t, byGuid)
    ensures TopicFrom(TopicJson(t), RereadEnds(t), byGuid) == Some((RereadTopic(t), true))
  {
    hide PairFrom, PairJson, RereadPair, Reread, ClassFrom, Each, EndpointJson, TopicKindText, DirectionText;
    PairsRead(t, byGuid);
    ClassReads(t);
    CodesRead(t.unmatchedReasons);
  }

  // ---- the index

  ghost predicate Holds(byGuid: map<string, Endpoint>, ends: seq<Ends>) {
    (forall g :: g in byGuid ==> byGuid[g].guid == g && Listed(ends, byGuid[g]))
    && (forall e: Endpoint :: Listed(ends, e) ==> e.guid in byGuid)
  }

  ghost predicate Listed(ends: seq<Ends>, e: Endpoint) {
    exists i :: 0 <= i < |ends| && (e in ends[i].0 || e in ends[i].1)
  }

  lemma {:induction false} IndexMember(byGuid: map<string, Endpoint>, es: seq<Endpoint>)
    requires forall g :: g in byGuid ==> byGuid[g].guid == g
    ensures forall g :: g in Index(byGuid, es) ==>
                          Index(byGuid, es)[g].guid == g
                          && (Index(byGuid, es)[g] in es || (g in byGuid && Index(byGuid, es)[g] == byGuid[g]))
    ensures forall g :: g in byGuid ==> g in Index(byGuid, es)
    ensures forall e :: e in es ==> e.guid in Index(byGuid, es)
  {
    if es != [] {
      IndexMember(byGuid, es[..|es| - 1]);
      assert es == es[..|es| - 1] + [es[|es| - 1]];
    }
  }

  lemma ListedSnoc(init: seq<Ends>, e: Ends, x: Endpoint)
    ensures Listed(init + [e], x) <==> Listed(init, x) || x in e.0 || x in e.1
  {
    var ends := init + [e];
    assert ends[|init|] == e && forall i :: 0 <= i < |init| ==> ends[i] == init[i];
  }

  lemma NoneListed()
    ensures forall e: Endpoint :: !Listed([], e)
  {
  }

  lemma {:induction false} IndexHolds(ends: seq<Ends>)
    ensures Holds(IndexAll(ends), ends)
  {
    hide Index, Listed;
    if ends == [] {
      NoneListed();
    } else {
      var init, e := ends[..|ends| - 1], ends[|ends| - 1];
      IndexHolds(init);
      var before := IndexAll(init);
      IndexMember(before, e.0);
      IndexMember(Index(before, e.0), e.1);
      forall x: Endpoint
        ensures Listed(ends, x) <==> Listed(init, x) || x in e.0 || x in e.1
      {
        ListedSnoc(init, e, x);
        assert ends == init + [e];
      }
    }
  }

  // ---- documents

  ghost predicate ListedIn(topics: seq<TopicSummary>, e: Endpoint) {
    exists t :: t in topics && (e in t.writers || e in t.readers)
  }

  /** Pairs join listed endpoints, and no two endpoints of the snapshot have one GUID. */
  ghost predicate Savable(topics: seq<TopicSummary>) {
    (forall t :: t in topics ==> Sided(t))
    && (forall t, p :: t in topics && p in t.pairs ==> p.writer in t.writers && p.reader in t.readers)
    && (forall e, f :: ListedIn(topics, e) && ListedIn(topics, f) && e.guid == f.guid ==> e == f)
  }

  lemma RereadListed(topics: seq<TopicSummary>, e: Endpoint)
    requires ListedIn(topics, e)
    ensures Listed(Mapped(topics, RereadEnds), Reread(e))
  {
    var t :| t in topics && (e in t.writers || e in t.readers);
    var i :| 0 <= i < |topics| && topics[i] == t;
    var ends := Mapped(topics, RereadEnds);
    assert ends[i] == RereadEnds(t);
    hide Reread;
    if e in t.writers {
      var k :| 0 <= k < |t.writers| && t.writers[k] == e;
      assert ends[i].0[k] == Reread(e);
    } else {
      var k :| 0 <= k < |t.readers| && t.readers[k] == e;
      assert ends[i].1[k] == Reread(e);
    }
  }

  lemma ListedWas(topics: seq<TopicSummary>, x: Endpoint) returns (e: Endpoint)
    requires Listed(Mapped(topics, RereadEnds), x)
    ensures ListedIn(topics, e) && x == Reread(e)
  {
    var ends := Mapped(topics, RereadEnds);
    var i :| 0 <= i < |ends| && (x in ends[i].0 || x in ends[i].1);
    var t := topics[i];
    assert t in topics && ends[i] == RereadEnds(t);
    hide Reread;
    if x in ends[i].0 {
      var k :| 0 <= k < |t.writers| && ends[i].0[k] == x;
      e := t.writers[k];
    } else {
      var k :| 0 <= k < |t.readers| && ends[i].1[k] == x;
      e := t.readers[k];
    }
  }

  /** Looking up the GUID of a listed endpoint finds that endpoint. */
  lemma LookUp(topics: seq<TopicSummary>, byGuid: map<string, Endpoint>, e: Endpoint)
    requires Savable(topics) && Holds(byGuid, Mapped(topics, RereadEnds)) && ListedIn(topics, e)
    ensures e.guid in byGuid && byGuid[e.guid] == Reread(e)
  {
    RereadListed(topics, e);
    assert Reread(e).guid == e.guid;
    var f := ListedWas(topics, byGuid[e.guid]);
    assert Reread(f).guid == f.guid;
  }

  lemma AllResolve(topics: seq<TopicSummary>, byGuid: map<string, Endpoint>, t: TopicSummary)
    requires Savable(topics) && Holds(byGuid, Mapped(topics, RereadEnds)) && t in topics
    ensures Resolves(t, byGuid)
  {
    forall i | 0 <= i < |t.pairs|
      ensures ResolvesPair(t.pairs[i], byGuid)
    {
      var p := t.pairs[i];
      assert p in t.pairs && ListedIn(topics, p.writer) && ListedIn(topics, p.reader);
      LookUp(topics, byGuid, p.writer);
      LookUp(topics, byGuid, p.reader);
    }
  }

  function Classified(t: TopicSummary): (TopicSummary, bool) {
    (RereadTopic(t), true)
  }

  lemma {:induction false} TopicsRead(topics: seq<TopicSummary>, byGuid: map<string, Endpoint>)
    requires forall i :: 0 <= i < |topics| ==> Resolves(topics[i], byGuid)
    ensures TopicsFrom(JsonArray(topics, TopicJson).items, Mapped(topics, RereadEnds), byGuid) == Some(Mapped(topics, Classified))
  {
    hide TopicFrom, TopicJson, Resolves, RereadTopic;
    if topics != [] {
      var n := |topics| - 1;
      var init, t := topics[..n], topics[n];
      TopicsRead(init, byGuid);
      TopicReads(t, byGuid);
      var items, ends := JsonArray(topics, TopicJson).items, Mapped(topics, RereadEnds);
      assert items[..n] == JsonArray(init, TopicJson).items && ends[..n] == Mapped(init, RereadEnds);
      assert Mapped(topics, Classified) == Mapped(init, Classified) + [Classified(t)];
    }
  }

  /** Reading a written document gives every topic back, with each pair resolved to its own endpoints. */
  lemma DocumentReads(topics: seq<TopicSummary>)
    requires Savable(topics)
    ensures TopicsOf(Document(topics)) == Some(Mapped(topics, Classified))
  {
    forall i | 0 <= i < |topics|
      ensures EndsFrom(TopicJson(topics[i])) == Some(RereadEnds(topics[i]))
    {
      assert topics[i] in topics;
      EndsRead(topics[i]);
    }
    hide EndsFrom, TopicJson, RereadEnds;
    ArrayReads(topics, TopicJson, EndsFrom, RereadEnds);
    var ends := Mapped(topics, RereadEnds);
    IndexHolds(ends);
    hide Savable, Holds;
    forall i | 0 <= i < |topics|
      ensures Resolves(topics[i], IndexAll(ends))
    {
      AllResolve(topics, IndexAll(ends), topics[i]);
    }
    TopicsRead(topics, IndexAll(ends));
    hide Each, TopicsFrom, IndexAll, Mapped, JsonArray, Resolves;
    DocumentShape(topics);
  }

  lemma DocumentShape(topics: seq<TopicSummary>)
    ensures var d := Document(topics);
            d.Obj? && IntAt(d, SchemaVersion) == Some(1) && At(d, Topics).Some?
            && d.fields[Topics] == JsonArray(topics, TopicJson) && d.fields[Topics].Arr?
  {
  }

  // ---- comparing with what was saved

  /** No endpoint carries the name the middleware gives an unknown node; it is emptied when it is first read. */
  ghost predicate KnownNames(topics: seq<TopicSummary>) {
    forall t, e :: t in topics && (e in t.writers || e in t.readers) ==> e.nodeName != UNKNOWN_NODE_NAME
  }

  ghost predicate CleanLocators(t: TopicSummary) {
    forall i :: 0 <= i < |t.pairs| && t.pairs[i].verdict.locator.kind == Invalid ==> t.pairs[i].verdict.locator == NO_LOCATOR
  }

  lemma {:induction false} SameNodeGuids(es: seq<Endpoint>, node: string)
    requires forall i :: 0 <= i < |es| ==> es[i].nodeName != UNKNOWN_NODE_NAME
    ensures D.NodeGuids(Mapped(es, Reread), node) == D.NodeGuids(es, node)
  {
    if es != [] {
      var init := es[..|es| - 1];
      SameNodeGuids(init, node);
      assert Mapped(es, Reread)[..|es| - 1] == Mapped(init, Reread);
    }
  }

  lemma SameEntry(t: TopicSummary, i: nat, mode: KeyMode)
    requires i < |t.pairs| && CleanLocators(t)
    requires forall e :: e in t.writers + t.readers ==> e.nodeName != UNKNOWN_NODE_NAME
    requires t.pairs[i].writer in t.writers && t.pairs[i].reader in t.readers
    ensures D.EntryOf(RereadTopic(t), RereadPair(t.pairs[i]), mode) == D.EntryOf(t, t.pairs[i], mode)
  {
    var p, u := t.pairs[i], RereadTopic(t);
    var es := t.writers + t.readers;
    assert u.writers + u.readers == Mapped(es, Reread);
    assert forall k :: 0 <= k < |es| ==> es[k] in es;
    assert p.writer in es && p.reader in es;
    SameNodeGuids(es, p.writer.nodeName);
    SameNodeGuids(es, p.reader.nodeName);
    assert StateOf(RereadPair(p)) == StateOf(p);
    hide StateOf, R.CountLess, D.NodeGuids;
  }

  lemma {:induction false} SamePutPairs(es: seq<O.Entry>, t: TopicSummary, mode: KeyMode, n: nat)
    requires n <= |t.pairs|
    requires forall i :: 0 <= i < |t.pairs| ==>
                           D.EntryOf(RereadTopic(t), RereadPair(t.pairs[i]), mode) == D.EntryOf(t, t.pairs[i], mode)
    ensures D.PutPairs(es, RereadTopic(t), mode, n) == D.PutPairs(es, t, mode, n)
  {
    hide D.EntryOf, O.Put, RereadPair;
    if n > 0 {
      SamePutPairs(es, t, mode, n - 1);
      assert RereadTopic(t).pairs[n - 1] == RereadPair(t.pairs[n - 1]);
    }
  }

  lemma SamePairCount(t: TopicSummary)
    ensures |RereadTopic(t).pairs| == |t.pairs|
  {
  }

  lemma {:induction false} SameKeyed(topics: seq<TopicSummary>, mode: KeyMode)
    requires KnownNames(topics) && forall t :: t in topics ==> CleanLocators(t)
    requires forall t, p :: t in topics && p in t.pairs ==> p.writer in t.writers && p.reader in t.readers
    ensures D.Keyed(Mapped(topics, RereadTopic), mode) == D.Keyed(topics, mode)
  {
    hide D.EntryOf, RereadPair, CleanLocators, RereadTopic;
    if topics != [] {
      var n := |topics| - 1;
      var init, t := topics[..n], topics[n];
      assert t in topics && forall u :: u in init ==> u in topics;
      SameKeyed(init, mode);
      forall i | 0 <= i < |t.pairs|
        ensures D.EntryOf(RereadTopic(t), RereadPair(t.pairs[i]), mode) == D.EntryOf(t, t.pairs[i], mode)
      {
        assert t.pairs[i] in t.pairs;
        SameEntry(t, i, mode);
      }
      SamePutPairs(D.Keyed(init, mode), t, mode, |t.pairs|);
      SamePairCount(t);
      assert Mapped(topics, RereadTopic)[..n] == Mapped(init, RereadTopic);
    }
  }

  lemma {:induction false} NothingChanges(es: seq<O.Entry>, cur: seq<O.Entry>, mode: KeyMode)
    requires O.Ordered(es) && forall e :: e in cur ==> e in es
    ensures D.Changed(es, cur, mode) == [] && D.Added(es, cur) == []
  {
    if cur != [] {
      var e := cur[|cur| - 1];
      assert e in cur && forall x :: x in cur[..|cur| - 1] ==> x in cur;
      O.FindOrdered(es, e);
      NothingChanges(es, cur[..|cur| - 1], mode);
    }
  }

  /** A snapshot compared with its own saved document has no changes, under either key. */
  lemma SavedComparesEqual(topics: seq<TopicSummary>, mode: KeyMode)
    requires Savable(topics) && KnownNames(topics) && forall t :: t in topics ==> CleanLocators(t)
    ensures TopicsOf(Document(topics)) == Some(Mapped(topics, Classified))
    ensures var reread := Mapped(topics, RereadTopic);
            D.DiffOf(D.Keyed(topics, mode), D.Keyed(reread, mode), mode) == D.Changes([], [], [])
            && D.DiffOf(D.Keyed(reread, mode), D.Keyed(topics, mode), mode) == D.Changes([], [], [])
  {
    DocumentReads(topics);
    SameKeyed(topics, mode);
    D.KeyedOrdered(topics, mode);
    var es := D.Keyed(topics, mode);
    hide D.Keyed, KnownNames, CleanLocators, TopicsOf, Document;
    NothingChanges(es, es, mode);
  }

  /** The GUID bytes of a listed endpoint survive: the text says them all. */
  lemma GuidBytesSurvive(e: Endpoint)
    requires e.guid == GuidString(e.guidBytes)
    ensures Reread(e).guidBytes == e.guidBytes
  {
    GuidRoundTrip(e.guidBytes);
  }
}
