/** What the comparison of two snapshots promises: an exact partition of the pairs, and silence about a restart. */
module DiffLaws {
  import opened Text
  import opened Model
  import opened Snapshot
  import opened Ranks
  import opened OrderedPairs
  import opened SnapshotDiff

  // ---- partition

  /** The pairs on both sides in the same state. */
  function Unchanged(prev: seq<Entry>, cur: seq<Entry>, mode: KeyMode): seq<Entry> {
    if cur == [] then []
    else
      var e := cur[|cur| - 1];
      var p := Find(prev, e.ident);
      Unchanged(prev, cur[..|cur| - 1], mode)
      + (if p.Some? && SameState(p.value.state, e.state, mode) then [e] else [])
  }

  lemma {:induction false} EveryPairOnce(prev: seq<Entry>, cur: seq<Entry>, mode: KeyMode)
    ensures |Added(prev, cur)| + |Changed(prev, cur, mode)| + |Unchanged(prev, cur, mode)| == |cur|
  {
    if cur != [] {
      EveryPairOnce(prev, cur[..|cur| - 1], mode);
    }
  }

  lemma {:induction false} FindSome(es: seq<Entry>, id: Ident)
    ensures Find(es, id).Some? <==> id in IdentsOf(es)
  {
    var r := Find(es, id);
    if r.Some? {
      assert r.value in es;
    }
  }

  lemma LastIdent(init: seq<Entry>, e: Entry)
    requires Ordered(init + [e])
    ensures Ordered(init) && IdentsOf(init + [e]) == IdentsOf(init) + {e.ident} && e.ident !in IdentsOf(init)
  {
    var es := init + [e];
    assert forall i :: 0 <= i < |init| ==> es[i] == init[i];
    forall x | x in init
      ensures x.ident != e.ident
    {
      var i :| 0 <= i < |init| && init[i] == x;
      assert es[i] == x && es[|init|] == e;
      NotBoth(x.ident, e.ident);
    }
    assert forall x :: x in es <==> x in init || x == e;
  }

  lemma {:induction false} AddedCount(prev: seq<Entry>, cur: seq<Entry>)
    requires Ordered(cur)
    ensures |Added(prev, cur)| == |IdentsOf(cur) - IdentsOf(prev)|
  {
    if cur != [] {
      var init, e := cur[..|cur| - 1], cur[|cur| - 1];
      assert cur == init + [e];
      AddedCount(prev, init);
      FindSome(prev, e.ident);
      LastIdent(init, e);
      hide IdentsOf, Ordered, Find;
      GrowDifference(IdentsOf(init), IdentsOf(prev), e.ident);
    }
  }

  lemma GrowDifference<T>(a: set<T>, b: set<T>, x: T)
    requires x !in a
    ensures |a + {x} - b| == |a - b| + (if x in b then 0 else 1)
  {
    if x in b {
      assert a + {x} - b == a - b;
    } else {
      assert a + {x} - b == a - b + {x};
    }
  }

  /**
   * Every pair of the after snapshot is added, changed or unchanged, every pair of the before
   * snapshot removed, changed or unchanged, and the difference of the counts is that of the sizes.
   */
  lemma DiffIsAPartition(prev: seq<Entry>, cur: seq<Entry>, mode: KeyMode)
    requires Ordered(prev) && Ordered(cur)
    ensures var c, same := DiffOf(prev, cur, mode), |Unchanged(prev, cur, mode)|;
            |c.added| + |c.changed| + same == |cur| && |c.removed| + |c.changed| + same == |prev|
            && |c.added| - |c.removed| == |cur| - |prev|
  {
    var a, b := IdentsOf(cur), IdentsOf(prev);
    EveryPairOnce(prev, cur, mode);
    AddedCount(prev, cur);
    AddedCount(cur, prev);
    OrderedSize(prev);
    OrderedSize(cur);
    assert a == (a - b) + (a * b) && b == (b - a) + (a * b);
    assert |a| == |a - b| + |a * b| && |b| == |b - a| + |a * b|;
  }

  lemma {:induction false} AddedMember(prev: seq<Entry>, cur: seq<Entry>, k: PairKey)
    ensures k in Added(prev, cur) <==> exists e :: e in cur && e.ident !in IdentsOf(prev) && e.key == k
  {
    if cur != [] {
      var init, e := cur[..|cur| - 1], cur[|cur| - 1];
      assert cur == init + [e];
      AddedMember(prev, init, k);
      FindSome(prev, e.ident);
    }
  }

  lemma {:induction false} ChangedMember(prev: seq<Entry>, cur: seq<Entry>, mode: KeyMode, c: PairChange)
    requires Ordered(prev)
    ensures c in Changed(prev, cur, mode)
       <==> exists p, e :: p in prev && e in cur && p.ident == e.ident && !SameState(p.state, e.state, mode)
                           && c == PairChange(e.key, p.state, e.state, p.key)
  {
    if cur != [] {
      var init, last := cur[..|cur| - 1], cur[|cur| - 1];
      assert cur == init + [last];
      ChangedMember(prev, init, mode, c);
      forall p | p in prev && p.ident == last.ident
        ensures Find(prev, last.ident) == Some(p)
      {
        FindOrdered(prev, p);
      }
    }
  }

  /** Each list holds exactly the pairs it is for, with the two states and the two keys. */
  lemma DiffListsAreExact(prev: seq<Entry>, cur: seq<Entry>, mode: KeyMode)
    requires Ordered(prev) && Ordered(cur)
    ensures var c := DiffOf(prev, cur, mode);
            (forall k :: k in c.added <==> exists e :: e in cur && e.ident !in IdentsOf(prev) && e.key == k)
            && (forall k :: k in c.removed <==> exists e :: e in prev && e.ident !in IdentsOf(cur) && e.key == k)
            && (forall ch :: ch in c.changed
                  <==> exists p, e :: p in prev && e in cur && p.ident == e.ident && !SameState(p.state, e.state, mode)
                                      && ch == PairChange(e.key, p.state, e.state, p.key))
  {
    forall k
      ensures k in Added(prev, cur) <==> exists e :: e in cur && e.ident !in IdentsOf(prev) && e.key == k
    {
      AddedMember(prev, cur, k);
    }
    forall k
      ensures k in Added(cur, prev) <==> exists e :: e in prev && e.ident !in IdentsOf(cur) && e.key == k
    {
      AddedMember(cur, prev, k);
    }
    forall ch
      ensures ch in Changed(prev, cur, mode)
         <==> exists p, e :: p in prev && e in cur && p.ident == e.ident && !SameState(p.state, e.state, mode)
                             && ch == PairChange(e.key, p.state, e.state, p.key)
    {
      ChangedMember(prev, cur, mode, ch);
    }
  }

  // ---- identities are injective

  /** A topic whose endpoints each have their own GUID, whose text has no `#`, and whose pairs each have their own ends. */
  ghost predicate DistinctEnds(t: TopicSummary) {
    var es := t.writers + t.readers;
    (forall e, f :: e in es && f in es && e.guid == f.guid ==> e == f)
    && (forall e :: e in es ==> '#' !in e.guid)
    && (forall p :: p in t.pairs ==> p.writer in t.writers && p.reader in t.readers)
    && (forall i, j :: 0 <= i < j < |t.pairs| ==>
          t.pairs[i].writer.guid != t.pairs[j].writer.guid || t.pairs[i].reader.guid != t.pairs[j].reader.guid)
  }

  /** No pair of one of the topics is matched by the identity of a pair of the other. */
  ghost predicate Apart(t: TopicSummary, u: TopicSummary, mode: KeyMode) {
    forall p, q :: p in t.pairs && q in u.pairs ==> EntryOf(t, p, mode).ident != EntryOf(u, q, mode).ident
  }

  ghost predicate AllDistinctEnds(topics: seq<TopicSummary>) {
    forall t :: t in topics ==> DistinctEnds(t)
  }

  /** Every pair of the snapshot has its own identity. */
  ghost predicate Distinct(topics: seq<TopicSummary>, mode: KeyMode) {
    AllDistinctEnds(topics) && forall i, j :: 0 <= i < j < |topics| ==> Apart(topics[i], topics[j], mode)
  }

  lemma HashMeansNode(t: TopicSummary, e: Endpoint)
    requires '#' !in e.guid
    ensures '#' in Identity(t, e) <==> e.nodeName != ""
  {
    if e.nodeName == "" {
      assert forall c :: c in "guid:" + e.guid ==> c in "guid:" || c in e.guid;
    } else {
      assert Identity(t, e)[|e.nodeName|] == '#';
    }
  }

  lemma NoHash(n: nat)
    ensures '#' !in Dec(n)
  {
    DecIsDigits(n);
    assert forall c :: c in Dec(n) ==> IsDigit(c);
  }

  /** How many endpoints of its node on the topic have a smaller GUID. */
  function Place(t: TopicSummary, e: Endpoint): nat {
    CountLess(NodeGuids(t.writers + t.readers, e.nodeName), e.guid)
  }

  /** The endpoints are in the same place of the same node, or of no node and one GUID. */
  predicate SamePlace(t: TopicSummary, e: Endpoint, u: TopicSummary, f: Endpoint) {
    e.nodeName == f.nodeName && if e.nodeName == "" then e.guid == f.guid else Place(t, e) == Place(u, f)
  }

  lemma SamePlaceIff(t: TopicSummary, e: Endpoint, u: TopicSummary, f: Endpoint)
    requires '#' !in e.guid && '#' !in f.guid
    ensures Identity(t, e) == Identity(u, f) <==> SamePlace(t, e, u, f)
  {
    HashMeansNode(t, e);
    HashMeansNode(u, f);
    if Identity(t, e) == Identity(u, f) {
      if e.nodeName == "" {
        assert e.guid == Identity(t, e)[5..] == Identity(u, f)[5..] == f.guid;
      } else {
        NoHash(Place(t, e));
        NoHash(Place(u, f));
        SplitAtLast(e.nodeName, f.nodeName, Dec(Place(t, e)), Dec(Place(u, f)), '#');
        DecInjective(Place(t, e), Place(u, f));
      }
    }
  }

  /** Two endpoints of a topic share an identity only if they are one. */
  lemma IdentityInjective(t: TopicSummary, a: Endpoint, b: Endpoint)
    requires DistinctEnds(t) && a in t.writers + t.readers && b in t.writers + t.readers
    requires Identity(t, a) == Identity(t, b)
    ensures a.guid == b.guid
  {
    var es := t.writers + t.readers;
    SamePlaceIff(t, a, t, b);
    if a.nodeName != "" {
      ListedGuid(es, a);
      ListedGuid(es, b);
      RankInjective(NodeGuids(es, a.nodeName), a.guid, b.guid);
    }
  }

  lemma PairIdentInjective(t: TopicSummary, i: nat, j: nat, mode: KeyMode)
    requires DistinctEnds(t) && i < j < |t.pairs|
    ensures EntryOf(t, t.pairs[i], mode).ident != EntryOf(t, t.pairs[j], mode).ident
  {
    var p, q := t.pairs[i], t.pairs[j];
    assert p in t.pairs && q in t.pairs;
    if mode.ByNode? && NodeIdent(t, p) == NodeIdent(t, q) {
      IdentityInjective(t, p.writer, q.writer);
      IdentityInjective(t, p.reader, q.reader);
    }
  }

  // ---- one entry a pair

  function PairCount(topics: seq<TopicSummary>): nat {
    if topics == [] then 0 else PairCount(topics[..|topics| - 1]) + |topics[|topics| - 1].pairs|
  }

  ghost predicate PairEntry(topics: seq<TopicSummary>, mode: KeyMode, e: Entry) {
    exists t, p :: t in topics && p in t.pairs && e == EntryOf(t, p, mode)
  }

  ghost predicate AmongFirst(t: TopicSummary, mode: KeyMode, n: nat, e: Entry)
    requires n <= |t.pairs|
  {
    exists i :: 0 <= i < n && e == EntryOf(t, t.pairs[i], mode)
  }

  /** The identities of the first `n` pairs of a topic. */
  function IdentsOfPairs(t: TopicSummary, mode: KeyMode, n: nat): set<Ident>
    requires n <= |t.pairs|
  {
    set i | 0 <= i < n :: EntryOf(t, t.pairs[i], mode).ident
  }

  lemma NextIdent(t: TopicSummary, mode: KeyMode, n: nat)
    requires 0 < n <= |t.pairs| && DistinctEnds(t)
    ensures var id := EntryOf(t, t.pairs[n - 1], mode).ident;
            IdentsOfPairs(t, mode, n) == IdentsOfPairs(t, mode, n - 1) + {id} && id !in IdentsOfPairs(t, mode, n - 1)
  {
    hide EntryOf, DistinctEnds;
    forall i | 0 <= i < n - 1
      ensures EntryOf(t, t.pairs[i], mode).ident != EntryOf(t, t.pairs[n - 1], mode).ident
    {
      PairIdentInjective(t, i, n - 1, mode);
    }
  }

  lemma {:induction false} IdentCount(t: TopicSummary, mode: KeyMode, n: nat)
    requires n <= |t.pairs| && DistinctEnds(t)
    ensures |IdentsOfPairs(t, mode, n)| == n
  {
    if n == 0 {
      assert IdentsOfPairs(t, mode, 0) == {};
    } else {
      IdentCount(t, mode, n - 1);
      NextIdent(t, mode, n);
    }
  }

  lemma {:induction false} PutPairsIdents(es: seq<Entry>, t: TopicSummary, mode: KeyMode, n: nat)
    requires n <= |t.pairs| && Ordered(es) && DistinctEnds(t)
    ensures var r := PutPairs(es, t, mode, n); Ordered(r) && IdentsOf(r) == IdentsOf(es) + IdentsOfPairs(t, mode, n)
  {
    hide EntryOf, DistinctEnds, Ordered, Put, IdentsOf;
    if n > 0 {
      hide IdentsOfPairs;
      PutPairsIdents(es, t, mode, n - 1);
      NextIdent(t, mode, n);
      PutIdents(PutPairs(es, t, mode, n - 1), EntryOf(t, t.pairs[n - 1], mode));
    } else {
      assert IdentsOfPairs(t, mode, 0) == {};
    }
  }

  /** Entries with an identity of the topic's pairs give way to them, and the others stay. */
  lemma {:induction false} PutPairsMember(es: seq<Entry>, t: TopicSummary, mode: KeyMode, n: nat)
    requires n <= |t.pairs| && Ordered(es) && DistinctEnds(t)
    ensures var r := PutPairs(es, t, mode, n);
            Ordered(r) && IdentsOf(r) == IdentsOf(es) + IdentsOfPairs(t, mode, n)
            && forall e :: e in r <==> AmongFirst(t, mode, n, e) || (e in es && e.ident !in IdentsOfPairs(t, mode, n))
  {
    hide EntryOf, DistinctEnds, Ordered, Put, IdentLess, KeyOf, StateOf, IdentsOf;
    PutPairsIdents(es, t, mode, n);
    if n > 0 {
      PutPairsMember(es, t, mode, n - 1);
      var before, last := PutPairs(es, t, mode, n - 1), EntryOf(t, t.pairs[n - 1], mode);
      NextIdent(t, mode, n);
      PutMember(before, last);
      forall e | AmongFirst(t, mode, n - 1, e)
        ensures e.ident != last.ident
      {
        assert e.ident in IdentsOfPairs(t, mode, n - 1);
      }
      hide IdentsOfPairs;
      assert AmongFirst(t, mode, n, last);
    } else {
      assert IdentsOfPairs(t, mode, 0) == {};
    }
  }

  lemma AllPairs(t: TopicSummary, mode: KeyMode, e: Entry)
    ensures AmongFirst(t, mode, |t.pairs|, e) <==> exists p :: p in t.pairs && e == EntryOf(t, p, mode)
    ensures AmongFirst(t, mode, |t.pairs|, e) ==> e.ident in IdentsOfPairs(t, mode, |t.pairs|)
  {
    hide EntryOf;
  }

  lemma {:induction false} KeyedIdents(topics: seq<TopicSummary>, mode: KeyMode)
    requires AllDistinctEnds(topics)
    ensures Ordered(Keyed(topics, mode))
    ensures forall t, p :: t in topics && p in t.pairs ==> EntryOf(t, p, mode).ident in IdentsOf(Keyed(topics, mode))
    ensures forall e :: e in Keyed(topics, mode) ==> PairEntry(topics, mode, e)
  {
    if topics != [] {
      hide EntryOf, DistinctEnds, Ordered, PutPairs;
      var init, t := topics[..|topics| - 1], topics[|topics| - 1];
      assert topics == init + [t];
      KeyedIdents(init, mode);
      PutPairsMember(Keyed(init, mode), t, mode, |t.pairs|);
      KeyedSnoc(init, t, mode);
      hide IdentsOfPairs, IdentsOf, Keyed, AmongFirst;
      forall e {
        AllPairs(t, mode, e);
      }
      forall p | p in t.pairs
        ensures EntryOf(t, p, mode).ident in IdentsOfPairs(t, mode, |t.pairs|)
      {
        AllPairs(t, mode, EntryOf(t, p, mode));
      }
    }
  }

  /** A new topic's pairs are none of the keyed ones exactly when no earlier topic shares an identity with it. */
  lemma NewTopic(init: seq<TopicSummary>, t: TopicSummary, mode: KeyMode)
    requires AllDistinctEnds(init + [t])
    ensures IdentsOf(Keyed(init, mode)) !! IdentsOfPairs(t, mode, |t.pairs|)
       <==> forall i :: 0 <= i < |init| ==> Apart(init[i], t, mode)
  {
    hide EntryOf, DistinctEnds;
    assert forall u :: u in init ==> u in init + [t];
    KeyedIdents(init, mode);
    hide Keyed, Ordered;
    var pairs := IdentsOfPairs(t, mode, |t.pairs|);
    if IdentsOf(Keyed(init, mode)) !! pairs {
      forall i, p, q | 0 <= i < |init| && p in init[i].pairs && q in t.pairs
        ensures EntryOf(init[i], p, mode).ident != EntryOf(t, q, mode).ident
      {
        AllPairs(t, mode, EntryOf(t, q, mode));
        assert EntryOf(init[i], p, mode).ident in IdentsOf(Keyed(init, mode));
      }
    } else {
      var id :| id in IdentsOf(Keyed(init, mode)) && id in pairs;
      var e :| e in Keyed(init, mode) && e.ident == id;
      var u, p :| u in init && p in u.pairs && e == EntryOf(u, p, mode);
      var k :| 0 <= k < |t.pairs| && EntryOf(t, t.pairs[k], mode).ident == id;
      var i :| 0 <= i < |init| && init[i] == u;
      assert t.pairs[k] in t.pairs && !Apart(u, t, mode);
    }
  }

  lemma DistinctSnoc(init: seq<TopicSummary>, t: TopicSummary, mode: KeyMode)
    ensures AllDistinctEnds(init + [t]) <==> AllDistinctEnds(init) && DistinctEnds(t)
    ensures Distinct(init + [t], mode)
       <==> Distinct(init, mode) && DistinctEnds(t) && forall i :: 0 <= i < |init| ==> Apart(init[i], t, mode)
  {
    hide DistinctEnds, Apart;
    var topics := init + [t];
    assert topics[|init|] == t && init == topics[..|init|];
    assert forall i :: 0 <= i < |init| ==> topics[i] == init[i];
  }

  lemma UnionSize<T>(a: set<T>, b: set<T>)
    ensures |a + b| <= |a| + |b| && (|a + b| == |a| + |b| <==> a !! b)
  {
    assert |a + b| == |a| + |b| - |a * b|;
    if a !! b {
      assert a * b == {};
    } else {
      var x :| x in a && x in b;
      assert x in a * b;
    }
  }

  lemma OneMoreCount(init: seq<TopicSummary>, t: TopicSummary, mode: KeyMode)
    requires AllDistinctEnds(init + [t])
    ensures var n := |Keyed(init, mode)| + |t.pairs|;
            |Keyed(init + [t], mode)| <= n
            && (|Keyed(init + [t], mode)| == n <==> forall i :: 0 <= i < |init| ==> Apart(init[i], t, mode))
  {
    DistinctSnoc(init, t, mode);
    KeyedSnoc(init, t, mode);
    hide *;
    var before := Keyed(init, mode);
    KeyedIdents(init, mode);
    PutPairsMember(before, t, mode, |t.pairs|);
    OrderedSize(before);
    OrderedSize(PutPairs(before, t, mode, |t.pairs|));
    IdentCount(t, mode, |t.pairs|);
    UnionSize(IdentsOf(before), IdentsOfPairs(t, mode, |t.pairs|));
    NewTopic(init, t, mode);
  }

  lemma KeyedSnoc(init: seq<TopicSummary>, t: TopicSummary, mode: KeyMode)
    ensures Keyed(init + [t], mode) == PutPairs(Keyed(init, mode), t, mode, |t.pairs|)
  {
    hide PutPairs;
    assert (init + [t])[..|init|] == init;
  }

  /** The keyed map has an entry for every pair if and only if the pairs have their own identities. */
  lemma {:induction false} OneEntryAPairIff(topics: seq<TopicSummary>, mode: KeyMode)
    requires AllDistinctEnds(topics)
    ensures |Keyed(topics, mode)| <= PairCount(topics)
    ensures |Keyed(topics, mode)| == PairCount(topics) <==> Distinct(topics, mode)
  {
    if topics != [] {
      hide DistinctEnds, Distinct, Apart, AllDistinctEnds, Keyed;
      var init, t := topics[..|topics| - 1], topics[|topics| - 1];
      assert topics == init + [t];
      DistinctSnoc(init, t, mode);
      OneEntryAPairIff(init, mode);
      OneMoreCount(init, t, mode);
    } else {
      assert Keyed([], mode) == [];
    }
  }

  /** No pair hides another: the keyed map holds exactly the entries of the snapshot's pairs. */
  lemma {:induction false} OneEntryAPair(topics: seq<TopicSummary>, mode: KeyMode)
    requires Distinct(topics, mode)
    ensures Ordered(Keyed(topics, mode)) && |Keyed(topics, mode)| == PairCount(topics)
    ensures forall e :: e in Keyed(topics, mode) <==> PairEntry(topics, mode, e)
  {
    OneEntryAPairIff(topics, mode);
    KeyedIdents(topics, mode);
    hide EntryOf, DistinctEnds, Distinct, Ordered, PairCount, Apart, PairEntry;
    forall e | PairEntry(topics, mode, e)
      ensures e in Keyed(topics, mode)
    {
      PairIsKeyed(topics, mode, e);
    }
  }

  lemma {:induction false} PairIsKeyed(topics: seq<TopicSummary>, mode: KeyMode, e: Entry)
    requires Distinct(topics, mode) && PairEntry(topics, mode, e)
    ensures e in Keyed(topics, mode)
  {
    hide EntryOf, DistinctEnds, Ordered, PutPairs, PairCount, Apart;
    var init, t := topics[..|topics| - 1], topics[|topics| - 1];
    assert topics == init + [t];
    DistinctSnoc(init, t, mode);
    assert AllDistinctEnds(topics) && AllDistinctEnds(init);
    NewTopic(init, t, mode);
    KeyedIdents(init, mode);
    PutPairsMember(Keyed(init, mode), t, mode, |t.pairs|);
    AllPairs(t, mode, e);
    hide IdentsOfPairs;
    if !AmongFirst(t, mode, |t.pairs|, e) {
      PairIsKeyed(init, mode, e);
      assert e.ident in IdentsOf(Keyed(init, mode));
    }
  }

  /**
   * Two pairs have one identity if and only if they are on topics of one display name and join the same
   * GUIDs, or, under the node key, endpoints in the same places of the same nodes.
   */
  lemma SharedIdentityIff(t: TopicSummary, p: Pair, u: TopicSummary, q: Pair, mode: KeyMode)
    requires DistinctEnds(t) && DistinctEnds(u) && p in t.pairs && q in u.pairs
    ensures EntryOf(t, p, mode).ident == EntryOf(u, q, mode).ident
       <==> t.displayTopic == u.displayTopic
            && if mode.ByGuid? then p.writer.guid == q.writer.guid && p.reader.guid == q.reader.guid
               else SamePlace(t, p.writer, u, q.writer) && SamePlace(t, p.reader, u, q.reader)
  {
    assert p.writer in t.writers + t.readers && p.reader in t.writers + t.readers;
    assert q.writer in u.writers + u.readers && q.reader in u.writers + u.readers;
    SamePlaceIff(t, p.writer, u, q.writer);
    SamePlaceIff(t, p.reader, u, q.reader);
    hide SamePlace, Identity;
  }

  // ---- a node that calls its own service

  function EndOfNode(isWriter: bool, guid: string): Endpoint {
    BLANK_ENDPOINT.(isWriter := isWriter, guid := guid, nodeName := "n")
  }

  /** One of its two topics: from the endpoint `w` of the node to its endpoint `r`. */
  function OwnTopic(ddsTopic: string, direction: GroupDirection, w: string, r: string): (t: TopicSummary)
    ensures |t.pairs| == 1
  {
    TopicSummary(ddsTopic, "add", "Add", Service, "add", direction, [EndOfNode(true, w)], [EndOfNode(false, r)],
                 [Pair(EndOfNode(true, w), EndOfNode(false, r), Verdict(ViaSHM, Certain, NO_LOCATOR, false, [], []),
                       UNMEASURED)], [])
  }

  const SELF_CALL := [OwnTopic("rq/addRequest", GroupDirection.ToServer, "a", "b"),
                      OwnTopic("rr/addReply", GroupDirection.ToClient, "c", "d")]

  lemma OwnIdent(ddsTopic: string, direction: GroupDirection, w: string, r: string)
    requires Less(w, r) && !Less(r, w) && !Less(w, w) && !Less(r, r)
    ensures var t := OwnTopic(ddsTopic, direction, w, r); NodeIdent(t, t.pairs[0]) == Ident("add", "n#0", "n#1")
  {
    var t := OwnTopic(ddsTopic, direction, w, r);
    var es := t.writers + t.readers;
    assert es[..1] == [EndOfNode(true, w)] && es[..1][..0] == [];
    assert NodeGuids(es[..1][..0], "n") == [];
    assert NodeGuids(es[..1], "n") == [] + [w];
    assert NodeGuids(es, "n") == [w] + [r] == [w, r];
    assert [w, r][1..] == [r] && [r][1..] == [];
    assert CountLess([r], w) == 0 && CountLess([r], r) == 0;
    assert CountLess([w, r], w) == 0 && CountLess([w, r], r) == 1;
    assert Dec(0) == "0" && Dec(1) == "1";
  }

  lemma OwnEnds(ddsTopic: string, direction: GroupDirection, w: string, r: string)
    requires w != r && '#' !in w && '#' !in r
    ensures DistinctEnds(OwnTopic(ddsTopic, direction, w, r))
  {
  }

  lemma OneTopic(t: TopicSummary)
    requires |t.pairs| == 1
    ensures PairCount([t]) == 1 && Keyed([t], ByNode) == [EntryOf(t, t.pairs[0], ByNode)]
  {
    hide EntryOf;
    assert [t][..0] == [];
    assert Keyed([t], ByNode) == PutPairs([], t, ByNode, 1);
    assert PutPairs([], t, ByNode, 0) == [];
  }

  lemma OneMoreTopic(t: TopicSummary, u: TopicSummary)
    requires |t.pairs| == |u.pairs| == 1 && NodeIdent(t, t.pairs[0]) == NodeIdent(u, u.pairs[0])
    ensures PairCount([t, u]) == 2 && |Keyed([t, u], ByNode)| == 1
  {
    hide NodeIdent, KeyOf, StateOf;
    OneTopic(t);
    var e, f := EntryOf(t, t.pairs[0], ByNode), EntryOf(u, u.pairs[0], ByNode);
    assert [t, u][..1] == [t];
    assert Keyed([t, u], ByNode) == PutPairs([e], u, ByNode, 1);
    assert PutPairs([e], u, ByNode, 0) == [e];
    IdentOrder(f.ident, f.ident, f.ident);
    assert Put([e], f) == [f] + [e][1..];
  }

  /** Its request and its reply have one identity under the node key, so one entry stands for both. */
  lemma SelfCallHidesAPair()
    ensures AllDistinctEnds(SELF_CALL) && PairCount(SELF_CALL) == 2 && |Keyed(SELF_CALL, ByNode)| == 1
  {
    hide DistinctEnds, OwnTopic, Put, Keyed, PairCount, NodeIdent;
    OwnEnds("rq/addRequest", GroupDirection.ToServer, "a", "b");
    OwnEnds("rr/addReply", GroupDirection.ToClient, "c", "d");
    OwnIdent("rq/addRequest", GroupDirection.ToServer, "a", "b");
    OwnIdent("rr/addReply", GroupDirection.ToClient, "c", "d");
    OneMoreTopic(SELF_CALL[0], SELF_CALL[1]);
  }

  // ---- a restart

  /** The GUIDs of one node on one topic: renamed, in whatever listed order, without changing which of two is smaller. */
  ghost predicate NodeRestarted(before: seq<string>, after: seq<string>, rename: map<string, string>) {
    (forall g :: g in before ==> g in rename)
    && multiset(after) == multiset(Renamed(before, rename))
    && (forall g, h :: g in before && h in before ==> (Less(g, h) <==> Less(rename[g], rename[h])))
  }

  function Renamed(guids: seq<string>, rename: map<string, string>): (r: seq<string>)
    ensures |r| == |guids|
  {
    seq(|guids|, i requires 0 <= i < |guids| => if guids[i] in rename then rename[guids[i]] else guids[i])
  }

  ghost predicate EndRestarted(before: Endpoint, after: Endpoint, rename: map<string, string>) {
    before.nodeName != "" && after.nodeName == before.nodeName
    && before.guid in rename && after.guid == rename[before.guid]
  }

  /** The same two named nodes talk the same way, whatever the port numbers. */
  ghost predicate PairRestarted(before: Pair, after: Pair, rename: map<string, string>) {
    EndRestarted(before.writer, after.writer, rename) && EndRestarted(before.reader, after.reader, rename)
    && SameState(StateOf(before), StateOf(after), ByNode)
  }

  ghost predicate TopicRestarted(before: TopicSummary, after: TopicSummary, rename: map<string, string>) {
    after.displayTopic == before.displayTopic
    && (forall p :: p in before.pairs ==> exists q :: q in after.pairs && PairRestarted(p, q, rename))
    && (forall q :: q in after.pairs ==> exists p :: p in before.pairs && PairRestarted(p, q, rename))
    && (forall n :: NodeRestarted(NodeGuids(before.writers + before.readers, n),
                                  NodeGuids(after.writers + after.readers, n), rename))
  }

  /** The same topics, pairs and endpoints, each list in whatever order the new GUIDs put it, under new GUIDs and ports. */
  ghost predicate Restarted(before: seq<TopicSummary>, after: seq<TopicSummary>, rename: map<string, string>) {
    (forall t :: t in before ==> exists u :: u in after && TopicRestarted(t, u, rename))
    && (forall u :: u in after ==> exists t :: t in before && TopicRestarted(t, u, rename))
  }

  lemma RankSurvives(before: seq<string>, after: seq<string>, rename: map<string, string>, g: string)
    requires NodeRestarted(before, after, rename) && g in before
    ensures CountLess(before, g) == CountLess(after, rename[g])
  {
    CountLessPermutation(after, Renamed(before, rename), rename[g]);
    RankPreserved(before, Renamed(before, rename), g, rename[g]);
  }

  lemma IdentitySurvives(before: TopicSummary, after: TopicSummary, rename: map<string, string>, e: Endpoint, f: Endpoint)
    requires TopicRestarted(before, after, rename) && EndRestarted(e, f, rename) && e in before.writers + before.readers
    ensures Identity(before, e) == Identity(after, f)
  {
    ListedGuid(before.writers + before.readers, e);
    RankSurvives(NodeGuids(before.writers + before.readers, e.nodeName),
                 NodeGuids(after.writers + after.readers, e.nodeName), rename, e.guid);
  }

  lemma PairSurvives(t: TopicSummary, u: TopicSummary, rename: map<string, string>, p: Pair, q: Pair)
    requires TopicRestarted(t, u, rename) && PairRestarted(p, q, rename)
    requires p.writer in t.writers && p.reader in t.readers
    ensures EntryOf(t, p, ByNode).ident == EntryOf(u, q, ByNode).ident
    ensures SameState(EntryOf(t, p, ByNode).state, EntryOf(u, q, ByNode).state, ByNode)
  {
    IdentitySurvives(t, u, rename, p.writer, q.writer);
    IdentitySurvives(t, u, rename, p.reader, q.reader);
  }

  ghost predicate SamePair(a: Entry, b: Entry) {
    a.ident == b.ident && SameState(a.state, b.state, ByNode)
  }

  lemma NextPair(t: TopicSummary, u: TopicSummary, rename: map<string, string>, p: Pair) returns (q: Pair)
    requires TopicRestarted(t, u, rename) && DistinctEnds(t) && p in t.pairs
    ensures q in u.pairs && SamePair(EntryOf(t, p, ByNode), EntryOf(u, q, ByNode))
  {
    hide NodeRestarted, SameState, EntryOf, PairRestarted;
    q :| q in u.pairs && PairRestarted(p, q, rename);
    PairSurvives(t, u, rename, p, q);
  }

  lemma PreviousPair(t: TopicSummary, u: TopicSummary, rename: map<string, string>, q: Pair) returns (p: Pair)
    requires TopicRestarted(t, u, rename) && DistinctEnds(t) && q in u.pairs
    ensures p in t.pairs && SamePair(EntryOf(t, p, ByNode), EntryOf(u, q, ByNode))
  {
    hide NodeRestarted, SameState, EntryOf, PairRestarted;
    p :| p in t.pairs && PairRestarted(p, q, rename);
    PairSurvives(t, u, rename, p, q);
  }

  lemma IsPairEntry(topics: seq<TopicSummary>, mode: KeyMode, e: Entry)
    requires Distinct(topics, mode)
    ensures e in Keyed(topics, mode) <==> PairEntry(topics, mode, e)
  {
    OneEntryAPair(topics, mode);
  }

  lemma PairBehind(topics: seq<TopicSummary>, mode: KeyMode, e: Entry) returns (t: TopicSummary, p: Pair)
    requires AllDistinctEnds(topics) && PairEntry(topics, mode, e)
    ensures t in topics && p in t.pairs && e == EntryOf(t, p, mode) && DistinctEnds(t)
  {
    hide EntryOf;
    t, p :| t in topics && p in t.pairs && e == EntryOf(t, p, mode);
    hide DistinctEnds;
  }

  /** Every entry before has a counterpart after. */
  lemma EntrySurvives(before: seq<TopicSummary>, after: seq<TopicSummary>, rename: map<string, string>, e: Entry)
    returns (f: Entry)
    requires Distinct(before, ByNode) && Distinct(after, ByNode) && Restarted(before, after, rename) && e in Keyed(before, ByNode)
    ensures f in Keyed(after, ByNode) && SamePair(e, f)
  {
    hide Keyed, EntryOf, DistinctEnds, TopicRestarted, SamePair, Apart;
    IsPairEntry(before, ByNode, e);
    var t, p := PairBehind(before, ByNode, e);
    var u :| u in after && TopicRestarted(t, u, rename);
    var q := NextPair(t, u, rename, p);
    f := EntryOf(u, q, ByNode);
    IsPairEntry(after, ByNode, f);
  }

  /** Every entry after had a counterpart before. */
  lemma EntryWasThere(before: seq<TopicSummary>, after: seq<TopicSummary>, rename: map<string, string>, f: Entry)
    returns (e: Entry)
    requires Distinct(before, ByNode) && Distinct(after, ByNode) && Restarted(before, after, rename) && f in Keyed(after, ByNode)
    ensures e in Keyed(before, ByNode) && SamePair(e, f)
  {
    hide Keyed, EntryOf, DistinctEnds, TopicRestarted, SamePair, Apart;
    IsPairEntry(after, ByNode, f);
    var u, q := PairBehind(after, ByNode, f);
    var t :| t in before && TopicRestarted(t, u, rename);
    assert DistinctEnds(t);
    hide Distinct;
    var p := PreviousPair(t, u, rename, q);
    e := EntryOf(t, p, ByNode);
    IsPairEntry(before, ByNode, e);
  }

  lemma {:induction false} NothingAdded(prev: seq<Entry>, cur: seq<Entry>)
    requires forall e :: e in cur ==> e.ident in IdentsOf(prev)
    ensures Added(prev, cur) == []
  {
    if cur != [] {
      FindSome(prev, cur[|cur| - 1].ident);
      NothingAdded(prev, cur[..|cur| - 1]);
    }
  }

  lemma {:induction false} NothingChanged(prev: seq<Entry>, cur: seq<Entry>)
    requires Ordered(prev) && forall e :: e in cur ==> exists p :: p in prev && SamePair(p, e)
    ensures Changed(prev, cur, ByNode) == []
  {
    if cur != [] {
      var e := cur[|cur| - 1];
      assert e in cur;
      var p :| p in prev && SamePair(p, e);
      FindOrdered(prev, p);
      var init := cur[..|cur| - 1];
      forall x | x in init
        ensures exists p :: p in prev && SamePair(p, x)
      {
        assert x in cur;
      }
      NothingChanged(prev, init);
    }
  }

  /** Two keyed maps that match the same pairs in the same states. */
  ghost predicate SameMaps(a: seq<Entry>, b: seq<Entry>) {
    (forall e :: e in a ==> exists f :: f in b && SamePair(e, f)) && (forall f :: f in b ==> exists e :: e in a && SamePair(e, f))
  }

  lemma NothingToReport(a: seq<Entry>, b: seq<Entry>)
    requires Ordered(a) && SameMaps(a, b)
    ensures DiffOf(a, b, ByNode) == Changes([], [], [])
  {
    hide SameState;
    NothingAdded(a, b);
    NothingAdded(b, a);
    NothingChanged(a, b);
  }

  /** After a restart of named nodes the node-keyed comparison is empty. */
  lemma RestartIsSilent(before: seq<TopicSummary>, after: seq<TopicSummary>, rename: map<string, string>)
    requires Distinct(before, ByNode) && Distinct(after, ByNode) && Restarted(before, after, rename)
    ensures DiffOf(Keyed(before, ByNode), Keyed(after, ByNode), ByNode) == Changes([], [], [])
  {
    OneEntryAPair(before, ByNode);
    var a, b := Keyed(before, ByNode), Keyed(after, ByNode);
    hide Keyed, Distinct, Restarted, SamePair, Ordered;
    forall e | e in a
      ensures exists f :: f in b && SamePair(e, f)
    {
      var f := EntrySurvives(before, after, rename, e);
    }
    forall f | f in b
      ensures exists e :: e in a && SamePair(e, f)
    {
      var e := EntryWasThere(before, after, rename, f);
    }
    NothingToReport(a, b);
  }

  // ---- a restart that leaves the topics in their order

  ghost predicate RestartedInOrder(before: seq<TopicSummary>, after: seq<TopicSummary>, rename: map<string, string>) {
    |after| == |before| && forall i :: 0 <= i < |before| ==> TopicRestarted(before[i], after[i], rename)
  }

  /** The identities a restarted topic puts into the map. */
  lemma SameIdents(t: TopicSummary, u: TopicSummary, rename: map<string, string>)
    requires TopicRestarted(t, u, rename) && DistinctEnds(t)
    ensures IdentsOfPairs(t, ByNode, |t.pairs|) == IdentsOfPairs(u, ByNode, |u.pairs|)
  {
    hide TopicRestarted, DistinctEnds, EntryOf;
    forall i | 0 <= i < |t.pairs|
      ensures EntryOf(t, t.pairs[i], ByNode).ident in IdentsOfPairs(u, ByNode, |u.pairs|)
    {
      var q := NextPair(t, u, rename, t.pairs[i]);
      AllPairs(u, ByNode, EntryOf(u, q, ByNode));
    }
    forall j | 0 <= j < |u.pairs|
      ensures EntryOf(u, u.pairs[j], ByNode).ident in IdentsOfPairs(t, ByNode, |t.pairs|)
    {
      var p := PreviousPair(t, u, rename, u.pairs[j]);
      AllPairs(t, ByNode, EntryOf(t, p, ByNode));
    }
  }

  /** One entry of the map after a topic has its counterpart after the restarted topic. */
  lemma NextEntry(a: seq<Entry>, b: seq<Entry>, t: TopicSummary, u: TopicSummary, rename: map<string, string>, e: Entry)
    returns (f: Entry)
    requires Ordered(a) && Ordered(b) && SameMaps(a, b)
    requires TopicRestarted(t, u, rename) && DistinctEnds(t) && DistinctEnds(u)
    requires e in PutPairs(a, t, ByNode, |t.pairs|)
    ensures f in PutPairs(b, u, ByNode, |u.pairs|) && SamePair(e, f)
  {
    hide TopicRestarted, DistinctEnds, EntryOf, PutPairs, Ordered, SameState;
    SameIdents(t, u, rename);
    PutPairsMember(a, t, ByNode, |t.pairs|);
    PutPairsMember(b, u, ByNode, |u.pairs|);
    hide IdentsOfPairs, IdentsOf;
    if AmongFirst(t, ByNode, |t.pairs|, e) {
      var i :| 0 <= i < |t.pairs| && e == EntryOf(t, t.pairs[i], ByNode);
      var q := NextPair(t, u, rename, t.pairs[i]);
      f := EntryOf(u, q, ByNode);
      AllPairs(u, ByNode, f);
    } else {
      f :| f in b && SamePair(e, f);
    }
  }

  lemma PreviousEntry(a: seq<Entry>, b: seq<Entry>, t: TopicSummary, u: TopicSummary, rename: map<string, string>, f: Entry)
    returns (e: Entry)
    requires Ordered(a) && Ordered(b) && SameMaps(a, b)
    requires TopicRestarted(t, u, rename) && DistinctEnds(t) && DistinctEnds(u)
    requires f in PutPairs(b, u, ByNode, |u.pairs|)
    ensures e in PutPairs(a, t, ByNode, |t.pairs|) && SamePair(e, f)
  {
    hide TopicRestarted, DistinctEnds, EntryOf, PutPairs, Ordered, SameState;
    SameIdents(t, u, rename);
    PutPairsMember(a, t, ByNode, |t.pairs|);
    PutPairsMember(b, u, ByNode, |u.pairs|);
    hide IdentsOfPairs, IdentsOf;
    if AmongFirst(u, ByNode, |u.pairs|, f) {
      var j :| 0 <= j < |u.pairs| && f == EntryOf(u, u.pairs[j], ByNode);
      var p := PreviousPair(t, u, rename, u.pairs[j]);
      e := EntryOf(t, p, ByNode);
      AllPairs(t, ByNode, e);
    } else {
      e :| e in a && SamePair(e, f);
    }
  }

  lemma {:induction false} SameKeyedMaps(before: seq<TopicSummary>, after: seq<TopicSummary>, rename: map<string, string>)
    requires AllDistinctEnds(before) && AllDistinctEnds(after) && RestartedInOrder(before, after, rename)
    ensures Ordered(Keyed(before, ByNode)) && Ordered(Keyed(after, ByNode))
    ensures SameMaps(Keyed(before, ByNode), Keyed(after, ByNode))
  {
    hide TopicRestarted, DistinctEnds, PutPairs, Ordered, SamePair;
    KeyedIdents(before, ByNode);
    KeyedIdents(after, ByNode);
    if before != [] {
      var n := |before| - 1;
      var t, u := before[n], after[n];
      SameKeyedMaps(before[..n], after[..n], rename);
      var a, b := Keyed(before[..n], ByNode), Keyed(after[..n], ByNode);
      forall e | e in PutPairs(a, t, ByNode, |t.pairs|)
        ensures exists f :: f in PutPairs(b, u, ByNode, |u.pairs|) && SamePair(e, f)
      {
        var f := NextEntry(a, b, t, u, rename, e);
      }
      forall f | f in PutPairs(b, u, ByNode, |u.pairs|)
        ensures exists e :: e in PutPairs(a, t, ByNode, |t.pairs|) && SamePair(e, f)
      {
        var e := PreviousEntry(a, b, t, u, rename, f);
      }
    }
  }

  /** With the topics in one order the comparison is empty even when pairs of different topics share an identity. */
  lemma RestartInOrderIsSilent(before: seq<TopicSummary>, after: seq<TopicSummary>, rename: map<string, string>)
    requires AllDistinctEnds(before) && AllDistinctEnds(after) && RestartedInOrder(before, after, rename)
    ensures DiffOf(Keyed(before, ByNode), Keyed(after, ByNode), ByNode) == Changes([], [], [])
  {
    hide Keyed, SameMaps, Ordered, RestartedInOrder, AllDistinctEnds;
    SameKeyedMaps(before, after, rename);
    NothingToReport(Keyed(before, ByNode), Keyed(after, ByNode));
  }
}
