/** The viewer and the command-line tool list the same changes, in the same order. */
module DocumentAgreement {
  import opened Model
  import opened Documents
  import opened DocumentDiff
  import K = KeyTexts
  import G = GuidText
  import Ranks
  import S = Snapshot
  import O = OrderedPairs
  import D = SnapshotDiff
  import L = DiffLaws

  // ---- a document that describes a snapshot

  function Names(ts: seq<Transport>): (r: seq<DocTransport>)
    ensures |r| == |ts|
  {
    seq(|ts|, i requires 0 <= i < |ts| => Known(ts[i]))
  }

  /** How a pair state is written: the selected locator is null when there is none. */
  function ImageOf(s: S.PairState): DocState {
    DocState(Known(s.transport), s.confidence, Names(s.measured),
             if s.locator.kind == Invalid then None else Some(s.locator), s.measuredLocators, s.warnings)
  }

  /** What `measured` lists; null says that nothing was. */
  ghost predicate MeasuredDescribed(m: S.Measurement, d: Option<DocMeasured>) {
    match d
    case None => m.transports == [] && m.locators == []
    case Some(dm) =>
      |dm.transports| == |m.transports| && |dm.locators| == |m.locators|
      && (forall i :: 0 <= i < |m.transports| ==> dm.transports[i] == Known(m.transports[i]))
      && forall i :: 0 <= i < |m.locators| ==> dm.locators[i] == m.locators[i].locator
  }

  ghost predicate PairDescribed(p: S.Pair, d: DocPair) {
    d.writerGuid == p.writer.guid && d.readerGuid == p.reader.guid
    && d.writerNode == p.writer.nodeName && d.readerNode == p.reader.nodeName
    && d.transport == Known(p.verdict.transport) && d.confidence == p.verdict.confidence
    && d.locator == (if p.verdict.locator.kind == Invalid then None else Some(p.verdict.locator))
    && d.warnings == p.verdict.warnings && MeasuredDescribed(p.measured, d.measured)
  }

  lemma StateDescribed(p: S.Pair, d: DocPair)
    requires PairDescribed(p, d)
    ensures DocStateOf(d) == ImageOf(S.StateOf(p))
  {
    var s, t := DocStateOf(d), ImageOf(S.StateOf(p));
    assert s.measured == t.measured && s.measuredLocators == t.measuredLocators;
  }

  ghost predicate EndsDescribed(es: seq<Endpoint>, ds: seq<DocEndpoint>) {
    |ds| == |es| && forall i :: 0 <= i < |es| ==> ds[i] == DocEndpoint(es[i].guid, es[i].nodeName)
  }

  ghost predicate TopicDescribed(t: S.TopicSummary, d: DocTopic) {
    d.topic == t.displayTopic && EndsDescribed(t.writers, d.writers) && EndsDescribed(t.readers, d.readers)
    && |d.pairs| == |t.pairs| && forall i :: 0 <= i < |t.pairs| ==> PairDescribed(t.pairs[i], d.pairs[i])
  }

  ghost predicate Described(topics: seq<S.TopicSummary>, ds: seq<DocTopic>) {
    |ds| == |topics| && forall i :: 0 <= i < |topics| ==> TopicDescribed(topics[i], ds[i])
  }

  function DocEntryOf(e: O.Entry): DocEntry {
    DocEntry(e.ident, e.key, ImageOf(e.state))
  }

  function Images(es: seq<O.Entry>): (ds: seq<DocEntry>)
    ensures |ds| == |es|
  {
    seq(|es|, i requires 0 <= i < |es| => DocEntryOf(es[i]))
  }

  // ---- the keyed pairs agree

  lemma {:induction false} GuidsDescribed(es: seq<Endpoint>, ds: seq<DocEndpoint>, node: string)
    requires EndsDescribed(es, ds)
    ensures NodeGuids(ds, node) == D.NodeGuids(es, node)
  {
    if es != [] {
      GuidsDescribed(es[..|es| - 1], ds[..|es| - 1], node);
    }
  }

  lemma IdentityDescribed(t: S.TopicSummary, d: DocTopic, e: Endpoint)
    requires TopicDescribed(t, d) && e in t.writers + t.readers
    ensures Identity(d, e.guid, e.nodeName) == D.Identity(t, e)
  {
    if e.nodeName != "" {
      GuidsDescribed(t.writers + t.readers, d.writers + d.readers, e.nodeName);
      D.ListedGuid(t.writers + t.readers, e);
      Ranks.PlaceIsRank(D.NodeGuids(t.writers + t.readers, e.nodeName), e.guid);
    }
  }

  function CallEntry(d: DocTopic, i: nat, key: KeyMode): DocEntry
    requires i < |d.pairs|
  {
    DocEntry(IdentOf(d, d.pairs[i], key), KeyOf(d, d.pairs[i]), DocStateOf(d.pairs[i]))
  }

  lemma CallDescribed(t: S.TopicSummary, d: DocTopic, i: nat, key: KeyMode)
    requires TopicDescribed(t, d) && L.DistinctEnds(t) && i < |t.pairs|
    ensures |d.pairs| == |t.pairs| && CallEntry(d, i, key) == DocEntryOf(D.EntryOf(t, t.pairs[i], key))
  {
    var p := t.pairs[i];
    assert p in t.pairs && PairDescribed(p, d.pairs[i]);
    IdentityDescribed(t, d, p.writer);
    IdentityDescribed(t, d, p.reader);
    StateDescribed(p, d.pairs[i]);
    hide Identity, D.Identity, ImageOf, DocStateOf;
  }

  lemma {:induction false} PutAfterIsPut(es: seq<O.Entry>, e: O.Entry)
    requires e.ident !in O.IdentsOf(es)
    ensures PutAfter(Images(es), DocEntryOf(e)) == Images(O.Put(es, e))
  {
    if es != [] && !O.IdentLess(e.ident, es[0].ident) {
      assert es[0] in es;
      assert forall x :: x in es[1..] ==> x in es;
      PutAfterIsPut(es[1..], e);
      assert Images(es)[1..] == Images(es[1..]);
      assert Images([es[0]] + O.Put(es[1..], e)) == [DocEntryOf(es[0])] + Images(O.Put(es[1..], e));
    } else {
      assert Images([e] + es) == [DocEntryOf(e)] + Images(es);
    }
  }

  lemma SortSnoc(calls: seq<Called>, c: Called)
    ensures StableSort(EntriesOf(calls + [c]))
         == PutAfter(StableSort(EntriesOf(calls)), DocEntry(c.ident, c.actual, DocStateOf(c.pair)))
  {
    var es := EntriesOf(calls + [c]);
    assert es[..|es| - 1] == EntriesOf(calls);
  }

  lemma {:induction false} TopicSorts(calls: seq<Called>, es: seq<O.Entry>, t: S.TopicSummary, d: DocTopic, key: KeyMode, n: nat)
    requires TopicDescribed(t, d) && L.DistinctEnds(t) && n <= |t.pairs|
    requires O.Ordered(es) && O.IdentsOf(es) !! L.IdentsOfPairs(t, key, |t.pairs|)
    requires StableSort(EntriesOf(calls)) == Images(es)
    ensures StableSort(EntriesOf(calls + TopicCalls(d, key, n))) == Images(D.PutPairs(es, t, key, n))
  {
    hide StableSort, EntriesOf, Images, PutAfter, O.Put, IdentOf, D.EntryOf, DocStateOf, TopicDescribed, DocEntryOf,
      KeyOf, L.DistinctEnds, O.Ordered;
    if n == 0 {
      assert calls + [] == calls;
    } else {
      TopicSorts(calls, es, t, d, key, n - 1);
      var before := D.PutPairs(es, t, key, n - 1);
      L.PutPairsMember(es, t, key, n - 1);
      L.NextIdent(t, key, n);
      PairIdent(t, key, n - 1);
      hide L.IdentsOfPairs;
      CallDescribed(t, d, n - 1, key);
      PutAfterIsPut(before, D.EntryOf(t, t.pairs[n - 1], key));
      CallsSnoc(calls, d, key, n);
    }
  }

  lemma PairIdent(t: S.TopicSummary, key: KeyMode, i: nat)
    requires i < |t.pairs|
    ensures D.EntryOf(t, t.pairs[i], key).ident in L.IdentsOfPairs(t, key, |t.pairs|)
  {
    hide D.EntryOf;
  }

  lemma CallsSnoc(calls: seq<Called>, d: DocTopic, key: KeyMode, n: nat)
    requires 0 < n <= |d.pairs|
    ensures StableSort(EntriesOf(calls + TopicCalls(d, key, n)))
         == PutAfter(StableSort(EntriesOf(calls + TopicCalls(d, key, n - 1))), CallEntry(d, n - 1, key))
  {
    var c := Called(d.pairs[n - 1], KeyOf(d, d.pairs[n - 1]), IdentOf(d, d.pairs[n - 1], key));
    assert calls + TopicCalls(d, key, n) == calls + TopicCalls(d, key, n - 1) + [c];
    SortSnoc(calls + TopicCalls(d, key, n - 1), c);
  }

  /** The viewer's sorted list is the tool's ordered map. */
  lemma {:induction false} KeyedAgree(topics: seq<S.TopicSummary>, ds: seq<DocTopic>, key: KeyMode)
    requires Described(topics, ds) && L.Distinct(topics, key)
    ensures StableSort(EntriesOf(Calls(ds, key))) == Images(D.Keyed(topics, key))
  {
    if topics != [] {
      hide L.Distinct, L.DistinctEnds, L.Apart, O.Ordered, StableSort, EntriesOf, Images, D.PutPairs, TopicDescribed;
      var n := |topics| - 1;
      var init, t, d := topics[..n], topics[n], ds[n];
      assert topics == init + [t];
      L.DistinctSnoc(init, t, key);
      KeyedAgree(init, ds[..n], key);
      OtherTopics(init, t, key);
      DescribedSize(t, d);
      assert Calls(ds, key) == Calls(ds[..n], key) + TopicCalls(d, key, |d.pairs|);
      assert D.Keyed(topics, key) == D.PutPairs(D.Keyed(init, key), t, key, |t.pairs|);
      hide Calls, D.Keyed;
      TopicSorts(Calls(ds[..n], key), D.Keyed(init, key), t, d, key, |t.pairs|);
    } else {
      assert EntriesOf([]) == [] && Images([]) == [];
    }
  }

  lemma OtherTopics(init: seq<S.TopicSummary>, t: S.TopicSummary, key: KeyMode)
    requires L.Distinct(init + [t], key)
    ensures O.Ordered(D.Keyed(init, key)) && O.IdentsOf(D.Keyed(init, key)) !! L.IdentsOfPairs(t, key, |t.pairs|)
  {
    L.DistinctSnoc(init, t, key);
    hide L.DistinctEnds, O.Ordered, D.Keyed, L.Apart;
    L.KeyedIdents(init, key);
    L.NewTopic(init, t, key);
  }

  lemma DescribedSize(t: S.TopicSummary, d: DocTopic)
    requires TopicDescribed(t, d)
    ensures |d.pairs| == |t.pairs|
  {
  }

  // ---- the states agree

  /** A verdict without a locator has the empty one. */
  ghost predicate CleanLocators(es: seq<O.Entry>) {
    forall e :: e in es ==> e.state.locator.kind == Invalid ==> e.state.locator == NO_LOCATOR
  }

  lemma NamesInjective(a: seq<Transport>, b: seq<Transport>)
    ensures Names(a) == Names(b) <==> a == b
  {
    if Names(a) == Names(b) {
      forall i | 0 <= i < |a|
        ensures a[i] == b[i]
      {
        assert Names(a)[i] == Names(b)[i];
      }
    }
  }

  predicate SameLocators(a: seq<Locator>, b: seq<Locator>, ignorePorts: bool) {
    |a| == |b| && forall i :: 0 <= i < |a| ==> SameLocator(Some(a[i]), Some(b[i]), ignorePorts)
  }

  function Stripped(a: seq<Locator>): (r: seq<Locator>)
    ensures |r| == |a|
  {
    seq(|a|, i requires 0 <= i < |a| => D.StripPort(a[i]))
  }

  lemma LocatorsAgree(a: seq<Locator>, b: seq<Locator>)
    ensures SameLocators(a, b, false) <==> a == b
    ensures SameLocators(a, b, true) <==> Stripped(a) == Stripped(b)
  {
    if Stripped(a) == Stripped(b) {
      forall i | 0 <= i < |a|
        ensures D.StripPort(a[i]) == D.StripPort(b[i])
      {
        assert Stripped(a)[i] == Stripped(b)[i];
      }
    }
  }

  /** The viewer calls two states the same exactly when the tool does. */
  lemma StatesAgree(a: S.PairState, b: S.PairState, key: KeyMode)
    requires a.locator.kind == Invalid ==> a.locator == NO_LOCATOR
    requires b.locator.kind == Invalid ==> b.locator == NO_LOCATOR
    ensures SameDocState(ImageOf(a), ImageOf(b), key.ByNode?) <==> D.SameState(a, b, key)
  {
    NamesInjective(a.measured, b.measured);
    LocatorsAgree(a.measuredLocators, b.measuredLocators);
    assert D.Strip(a).measuredLocators == Stripped(a.measuredLocators);
    assert D.Strip(b).measuredLocators == Stripped(b.measuredLocators);
  }

  // ---- the lists agree

  /** The key texts of the identities tell them apart. */
  ghost predicate TextsApart(ids: set<Ident>) {
    forall a, b :: a in ids && b in ids && KeyId(a) == KeyId(b) ==> a == b
  }

  /** Entries whose identities are among `ids`, which their key texts tell apart. */
  ghost predicate Within(es: seq<O.Entry>, ids: set<Ident>) {
    TextsApart(ids) && forall e :: e in es ==> e.ident in ids
  }

  /** The viewer's Map holds the entries in order, each under its own key text. */
  ghost predicate Mirrors(m: JsMap, es: seq<O.Entry>) {
    |m.order| == |es|
    && (forall i :: 0 <= i < |es| ==>
          m.order[i] == KeyId(es[i].ident) && m.order[i] in m.at && m.at[m.order[i]] == DocEntryOf(es[i]))
    && (forall id :: id in m.at ==> id in m.order)
  }

  lemma MirrorsSnoc(m: JsMap, init: seq<O.Entry>, e: O.Entry)
    requires Mirrors(m, init) && forall i :: 0 <= i < |init| ==> KeyId(init[i].ident) != KeyId(e.ident)
    ensures Mirrors(m.Set(KeyId(e.ident), DocEntryOf(e)), init + [e])
  {
    hide KeyId, DocEntryOf;
    var id := KeyId(e.ident);
    assert forall i :: 0 <= i < |m.order| ==> m.order[i] != id;
  }

  lemma DifferentKeys(ids: set<Ident>, es: seq<O.Entry>, i: nat, j: nat)
    requires O.Ordered(es) && Within(es, ids) && i < j < |es|
    ensures KeyId(es[i].ident) != KeyId(es[j].ident)
  {
    assert es[i] in es && es[j] in es;
    O.NotBoth(es[i].ident, es[j].ident);
  }

  lemma LastKey(ids: set<Ident>, es: seq<O.Entry>)
    requires O.Ordered(es) && Within(es, ids) && es != []
    ensures forall i :: 0 <= i < |es| - 1 ==> KeyId(es[i].ident) != KeyId(es[|es| - 1].ident)
  {
    hide KeyId, Within, O.Ordered;
    forall i | 0 <= i < |es| - 1
      ensures KeyId(es[i].ident) != KeyId(es[|es| - 1].ident)
    {
      DifferentKeys(ids, es, i, |es| - 1);
    }
  }

  lemma InitOrdered(ids: set<Ident>, es: seq<O.Entry>)
    requires es != [] && O.Ordered(es) && Within(es, ids)
    ensures O.Ordered(es[..|es| - 1]) && Within(es[..|es| - 1], ids)
    ensures Images(es)[..|es| - 1] == Images(es[..|es| - 1])
  {
    assert forall x :: x in es[..|es| - 1] ==> x in es;
  }

  lemma CleanInit(ids: set<Ident>, es: seq<O.Entry>)
    requires es != [] && CleanLocators(es) && Within(es, ids)
    ensures CleanLocators(es[..|es| - 1]) && Within(es[..|es| - 1], ids) && es[|es| - 1].ident in ids
    ensures Images(es)[..|es| - 1] == Images(es[..|es| - 1])
  {
    assert forall x :: x in es[..|es| - 1] ==> x in es;
  }

  lemma MapSnoc(es: seq<O.Entry>)
    requires es != []
    ensures MapOf(Images(es)) == MapOf(Images(es[..|es| - 1])).Set(KeyId(es[|es| - 1].ident), DocEntryOf(es[|es| - 1]))
  {
    hide KeyId;
    assert Images(es)[..|es| - 1] == Images(es[..|es| - 1]);
  }

  lemma MirrorsLast(ids: set<Ident>, es: seq<O.Entry>)
    requires O.Ordered(es) && Within(es, ids) && es != []
    requires Mirrors(MapOf(Images(es[..|es| - 1])), es[..|es| - 1])
    ensures Mirrors(MapOf(Images(es)), es)
  {
    hide *;
    var init, e := es[..|es| - 1], es[|es| - 1];
    LastKey(ids, es);
    MirrorsSnoc(MapOf(Images(init)), init, e);
    MapSnoc(es);
    assert es == init + [e];
  }

  lemma {:induction false} MapMirrors(ids: set<Ident>, es: seq<O.Entry>)
    requires O.Ordered(es) && Within(es, ids)
    ensures Mirrors(MapOf(Images(es)), es)
  {
    if es != [] {
      hide *;
      InitOrdered(ids, es);
      MapMirrors(ids, es[..|es| - 1]);
      MirrorsLast(ids, es);
    }
  }

  lemma LookUp(ids: set<Ident>, m: JsMap, prev: seq<O.Entry>, id: Ident)
    requires Mirrors(m, prev) && Within(prev, ids) && id in ids
    ensures KeyId(id) in m.at <==> O.Find(prev, id).Some?
    ensures KeyId(id) in m.at ==> m.at[KeyId(id)] == DocEntryOf(O.Find(prev, id).value)
  {
    L.FindSome(prev, id);
    if KeyId(id) in m.at {
      var i :| 0 <= i < |prev| && m.order[i] == KeyId(id);
      assert prev[i] in prev;
    }
    var found := O.Find(prev, id);
    if found.Some? {
      var i :| 0 <= i < |prev| && prev[i] == found.value;
      assert m.order[i] == KeyId(id);
    }
  }

  lemma {:induction false} AddedAgree(ids: set<Ident>, m: JsMap, prev: seq<O.Entry>, cur: seq<O.Entry>)
    requires Mirrors(m, prev) && Within(prev, ids) && Within(cur, ids)
    ensures AddedOf(m.at, Images(cur)) == D.Added(prev, cur)
  {
    hide Mirrors, ImageOf, KeyId, O.Find;
    if cur != [] {
      var init, e := cur[..|cur| - 1], cur[|cur| - 1];
      assert e in cur && forall x :: x in init ==> x in cur;
      AddedAgree(ids, m, prev, init);
      assert Images(cur)[..|cur| - 1] == Images(init);
      LookUp(ids, m, prev, e.ident);
    }
  }

  function ImageOfChange(c: D.PairChange): DocChange {
    DocChange(c.key, ImageOf(c.from), ImageOf(c.to), c.beforeKey.writerGuid, c.beforeKey.readerGuid)
  }

  function ImagesOfChanges(cs: seq<D.PairChange>): (r: seq<DocChange>)
    ensures |r| == |cs|
  {
    seq(|cs|, i requires 0 <= i < |cs| => ImageOfChange(cs[i]))
  }

  lemma ChangesSnoc(cs: seq<D.PairChange>, c: D.PairChange)
    ensures ImagesOfChanges(cs + [c]) == ImagesOfChanges(cs) + [ImageOfChange(c)]
  {
  }

  lemma {:induction false} ChangedAgree(ids: set<Ident>, m: JsMap, prev: seq<O.Entry>, cur: seq<O.Entry>, key: KeyMode)
    requires Mirrors(m, prev) && Within(prev, ids) && Within(cur, ids) && CleanLocators(prev) && CleanLocators(cur)
    ensures ChangedOf(m.at, Images(cur), key.ByNode?) == ImagesOfChanges(D.Changed(prev, cur, key))
  {
    if cur != [] {
      var init, e := cur[..|cur| - 1], cur[|cur| - 1];
      assert e in cur;
      CleanInit(ids, cur);
      hide KeyId, Within, Mirrors, SameDocState, D.SameState, ImageOf, ImagesOfChanges;
      ChangedAgree(ids, m, prev, init, key);
      LookUp(ids, m, prev, e.ident);
      var found := O.Find(prev, e.ident);
      if found.Some? {
        StatesAgree(found.value.state, e.state, key);
        ChangesSnoc(D.Changed(prev, init, key), D.PairChange(e.key, found.value.state, e.state, found.value.key));
      }
      hide CleanLocators, Images, O.Find;
    }
  }

  lemma {:induction false} RemovedAgree(ids: set<Ident>, m: JsMap, prev: seq<O.Entry>, cur: seq<O.Entry>, n: nat)
    requires Mirrors(m, prev) && Within(prev, ids) && Within(cur, ids) && n <= |prev|
    requires forall id :: id in m.order ==> id in m.at
    ensures RemovedOf(m, n, Seen(Images(cur))) == D.Added(cur, prev[..n])
  {
    if n > 0 {
      RemovedAgree(ids, m, prev, cur, n - 1);
      var e := prev[n - 1];
      assert e in prev && prev[..n][..n - 1] == prev[..n - 1];
      assert m.at[m.order[n - 1]] == DocEntryOf(e);
      SeenIffFound(ids, cur, e.ident);
      hide Mirrors, Within, Seen, KeyId, O.Find;
    }
  }

  lemma SeenIffFound(ids: set<Ident>, cur: seq<O.Entry>, id: Ident)
    requires Within(cur, ids) && id in ids
    ensures KeyId(id) in Seen(Images(cur)) <==> O.Find(cur, id).Some?
  {
    L.FindSome(cur, id);
    if KeyId(id) in Seen(Images(cur)) {
      var d :| d in Images(cur) && KeyId(d.ident) == KeyId(id);
      var i :| 0 <= i < |cur| && Images(cur)[i] == d;
      assert cur[i] in cur;
    }
    if e :| e in cur && e.ident == id {
      var i :| 0 <= i < |cur| && cur[i] == e;
      assert Images(cur)[i] in Images(cur);
    }
  }

  /** decide() leaves the locator empty when it selects none. */
  ghost predicate CleanVerdicts(topics: seq<S.TopicSummary>) {
    forall t, p :: t in topics && p in t.pairs ==> p.verdict.locator.kind == Invalid ==> p.verdict.locator == NO_LOCATOR
  }

  lemma KeyedClean(topics: seq<S.TopicSummary>, key: KeyMode)
    requires L.Distinct(topics, key) && CleanVerdicts(topics)
    ensures CleanLocators(D.Keyed(topics, key)) && O.Ordered(D.Keyed(topics, key))
  {
    L.KeyedIdents(topics, key);
    hide O.Ordered, D.Keyed, L.Apart;
    forall x | x in D.Keyed(topics, key)
      ensures x.state.locator.kind == Invalid ==> x.state.locator == NO_LOCATOR
    {
      var t, p := L.PairBehind(topics, key, x);
    }
  }

  /** The identities the two comparisons match by. */
  function Matched(before: seq<S.TopicSummary>, after: seq<S.TopicSummary>, key: KeyMode): set<Ident> {
    O.IdentsOf(D.Keyed(before, key)) + O.IdentsOf(D.Keyed(after, key))
  }

  lemma KeyedWithin(before: seq<S.TopicSummary>, after: seq<S.TopicSummary>, key: KeyMode)
    requires TextsApart(Matched(before, after, key))
    ensures Within(D.Keyed(before, key), Matched(before, after, key)) && Within(D.Keyed(after, key), Matched(before, after, key))
  {
    hide D.Keyed;
  }

  lemma ListsAgree(ids: set<Ident>, prev: seq<O.Entry>, cur: seq<O.Entry>, key: KeyMode)
    requires O.Ordered(prev) && Within(prev, ids) && Within(cur, ids) && CleanLocators(prev) && CleanLocators(cur)
    ensures var m := MapOf(Images(prev));
            |m.order| == |prev| && (forall id :: id in m.order ==> id in m.at)
            && AddedOf(m.at, Images(cur)) == D.Added(prev, cur)
            && ChangedOf(m.at, Images(cur), key.ByNode?) == ImagesOfChanges(D.Changed(prev, cur, key))
            && RemovedOf(m, |prev|, Seen(Images(cur))) == D.Added(cur, prev)
  {
    var m := MapOf(Images(prev));
    MapMirrors(ids, prev);
    assert |m.order| == |prev|;
    hide *;
    MapOfClosed(Images(prev));
    AddedAgree(ids, m, prev, cur);
    ChangedAgree(ids, m, prev, cur, key);
    RemovedAgree(ids, m, prev, cur, |prev|);
    assert prev[..|prev|] == prev;
  }

  /**
   * The comparison of two documents in the viewer gives the lists of the command-line
   * comparison of the snapshots they describe, in the same order.
   */
  lemma SameLists(before: seq<S.TopicSummary>, after: seq<S.TopicSummary>, b: Doc, a: Doc, key: KeyMode)
    requires Described(before, b.topics) && L.Distinct(before, key) && CleanVerdicts(before)
    requires Described(after, a.topics) && L.Distinct(after, key) && CleanVerdicts(after)
    requires TextsApart(Matched(before, after, key))
    ensures var c := D.DiffOf(D.Keyed(before, key), D.Keyed(after, key), key);
            DocDiffOf(b, a, key) == DocChanges(c.added, c.removed, ImagesOfChanges(c.changed))
  {
    KeyedAgree(before, b.topics, key);
    KeyedAgree(after, a.topics, key);
    KeyedClean(before, key);
    KeyedClean(after, key);
    KeyedWithin(before, after, key);
    hide L.Distinct, CleanVerdicts, Matched, TextsApart, Within, D.Keyed, CleanLocators, MapOf, Images, O.Ordered,
      AddedOf, ChangedOf, RemovedOf, D.Added, D.Changed, Seen;
    ListsAgree(Matched(before, after, key), D.Keyed(before, key), D.Keyed(after, key), key);
  }

  // ---- when the key texts tell the pairs apart

  /** The GUID texts are those the tool writes. */
  ghost predicate GuidTexts(topics: seq<S.TopicSummary>) {
    forall t, e :: t in topics && e in t.writers + t.readers ==> e.guid == G.GuidString(e.guidBytes)
  }

  /** By GUIDs, whatever the topics are called. */
  lemma GuidTextsApart(before: seq<S.TopicSummary>, after: seq<S.TopicSummary>)
    requires L.AllDistinctEnds(before) && L.AllDistinctEnds(after) && GuidTexts(before) && GuidTexts(after)
    ensures TextsApart(Matched(before, after, ByGuid))
  {
    var ids := Matched(before, after, ByGuid);
    hide L.DistinctEnds, KeyId, G.GuidString;
    forall a, b | a in ids && b in ids && KeyId(a) == KeyId(b)
      ensures a == b
    {
      var t, w, r := OfGuids(before, after, a);
      var u, v, s := OfGuids(before, after, b);
      K.GuidKeysTellApart(t, w, r, u, v, s);
    }
  }

  lemma OfGuids(before: seq<S.TopicSummary>, after: seq<S.TopicSummary>, id: Ident) returns (t: string, w: Guid, r: Guid)
    requires L.AllDistinctEnds(before) && L.AllDistinctEnds(after) && GuidTexts(before) && GuidTexts(after)
    requires id in Matched(before, after, ByGuid)
    ensures id == Ident(t, G.GuidString(w), G.GuidString(r))
  {
    var u, p := PairMatched(before, after, ByGuid, id);
    assert p.writer in u.writers + u.readers && p.reader in u.writers + u.readers;
    t, w, r := u.displayTopic, p.writer.guidBytes, p.reader.guidBytes;
  }

  /** The pair an identity stands for. */
  lemma PairMatched(before: seq<S.TopicSummary>, after: seq<S.TopicSummary>, key: KeyMode, id: Ident)
    returns (t: S.TopicSummary, p: S.Pair)
    requires L.AllDistinctEnds(before) && L.AllDistinctEnds(after) && id in Matched(before, after, key)
    ensures (t in before || t in after) && L.DistinctEnds(t) && p in t.pairs && p.writer in t.writers && p.reader in t.readers
    ensures id == D.EntryOf(t, p, key).ident
  {
    L.KeyedIdents(before, key);
    L.KeyedIdents(after, key);
    hide D.Keyed, O.Ordered, D.EntryOf;
    if id in O.IdentsOf(D.Keyed(before, key)) {
      var e :| e in D.Keyed(before, key) && e.ident == id;
      t, p := L.PairBehind(before, key, e);
    } else {
      var e :| e in D.Keyed(after, key) && e.ident == id;
      t, p := L.PairBehind(after, key, e);
    }
  }

  /** An endpoint as an end of a pair under the node key. */
  function EndOf(t: S.TopicSummary, e: Endpoint): (r: K.End)
    ensures r.Valid()
  {
    if e.nodeName == "" then K.OfGuid(e.guidBytes)
    else K.OfNode(e.nodeName, Ranks.CountLess(D.NodeGuids(t.writers + t.readers, e.nodeName), e.guid))
  }

  /** Every pair's names are such that its key text is its own. */
  ghost predicate NamesApart(topics: seq<S.TopicSummary>) {
    forall t, p :: t in topics && p in t.pairs ==> K.ToldApart(t.displayTopic, EndOf(t, p.writer), EndOf(t, p.reader))
  }

  /** By nodes, when the names of the pairs allow it. */
  lemma NodeNamesApart(before: seq<S.TopicSummary>, after: seq<S.TopicSummary>)
    requires L.AllDistinctEnds(before) && L.AllDistinctEnds(after) && GuidTexts(before) && GuidTexts(after)
    requires NamesApart(before) && NamesApart(after)
    ensures TextsApart(Matched(before, after, ByNode))
  {
    var ids := Matched(before, after, ByNode);
    hide L.DistinctEnds, KeyId, K.ToldApart, K.Key, GuidTexts;
    forall a, b | a in ids && b in ids && KeyId(a) == KeyId(b)
      ensures a == b
    {
      var t, p := PairMatched(before, after, ByNode, a);
      var u, q := PairMatched(before, after, ByNode, b);
      KeyOfEnds(before, after, t, p);
      KeyOfEnds(before, after, u, q);
      K.ToldApartIsUnique(t.displayTopic, EndOf(t, p.writer), EndOf(t, p.reader),
                          u.displayTopic, EndOf(u, q.writer), EndOf(u, q.reader));
    }
  }

  lemma KeyOfEnds(before: seq<S.TopicSummary>, after: seq<S.TopicSummary>, t: S.TopicSummary, p: S.Pair)
    requires GuidTexts(before) && GuidTexts(after) && (t in before || t in after)
    requires p.writer in t.writers && p.reader in t.readers
    ensures D.EntryOf(t, p, ByNode).ident == K.Key(t.displayTopic, EndOf(t, p.writer), EndOf(t, p.reader))
  {
    assert p.writer in t.writers + t.readers && p.reader in t.writers + t.readers;
    hide G.GuidString, D.NodeGuids, Ranks.CountLess;
  }
}
