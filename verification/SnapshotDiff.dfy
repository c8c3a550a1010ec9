/** What changed between two snapshots whose pairs are matched under either key (decision.cpp). */
module SnapshotDiff {
  import opened Text
  import opened Model
  import opened Snapshot
  import opened Ranks
  import opened OrderedPairs

  // ---- the identity of an endpoint under the node key

  /** The GUIDs `node` has among `es`, in listed order. */
  function NodeGuids(es: seq<Endpoint>, node: string): seq<string> {
    if es == [] then []
    else NodeGuids(es[..|es| - 1], node) + (if es[|es| - 1].nodeName == node then [es[|es| - 1].guid] else [])
  }

  /** `<node>#<n>`, n being how many endpoints of the node on the topic have a smaller GUID; `guid:<guid>` without a node. */
  function Identity(t: TopicSummary, e: Endpoint): string {
    if e.nodeName == "" then "guid:" + e.guid
    else e.nodeName + "#" + Dec(CountLess(NodeGuids(t.writers + t.readers, e.nodeName), e.guid))
  }

  function NodeIdent(t: TopicSummary, p: Pair): Ident {
    Ident(t.displayTopic, Identity(t, p.writer), Identity(t, p.reader))
  }

  function EntryOf(t: TopicSummary, p: Pair, mode: KeyMode): Entry {
    Entry(if mode.ByNode? then NodeIdent(t, p) else KeyOf(t, p).Id(), KeyOf(t, p), StateOf(p))
  }

  function PutPairs(es: seq<Entry>, t: TopicSummary, mode: KeyMode, n: nat): seq<Entry>
    requires n <= |t.pairs|
  {
    if n == 0 then es else Put(PutPairs(es, t, mode, n - 1), EntryOf(t, t.pairs[n - 1], mode))
  }

  /** The map the comparison of a snapshot works on. */
  function Keyed(topics: seq<TopicSummary>, mode: KeyMode): seq<Entry> {
    if topics == [] then []
    else
      var t := topics[|topics| - 1];
      PutPairs(Keyed(topics[..|topics| - 1], mode), t, mode, |t.pairs|)
  }

  ghost predicate Grouped(es: seq<Endpoint>, byNode: map<string, seq<string>>) {
    forall n :: (n in byNode <==> n != "" && NodeGuids(es, n) != []) && (n in byNode ==> byNode[n] == NodeGuids(es, n))
  }

  ghost predicate Sorted(es: seq<Endpoint>, byNode: map<string, seq<string>>) {
    forall n :: (n in byNode <==> n != "" && NodeGuids(es, n) != []) && (n in byNode ==> byNode[n] == Sort(NodeGuids(es, n)))
  }

  method GroupByNode(es: seq<Endpoint>) returns (byNode: map<string, seq<string>>)
    ensures Sorted(es, byNode)
  {
    byNode := map[];
    for i := 0 to |es|
      invariant Grouped(es[..i], byNode)
    {
      var e := es[i];
      assert es[..i + 1][..i] == es[..i];
      if e.nodeName != "" {
        byNode := byNode[e.nodeName := (if e.nodeName in byNode then byNode[e.nodeName] else []) + [e.guid]];
      }
    }
    assert es[..|es|] == es;
    byNode := map n | n in byNode :: Sort(byNode[n]);
  }

  lemma {:induction false} ListedGuid(es: seq<Endpoint>, e: Endpoint)
    requires e in es
    ensures e.guid in NodeGuids(es, e.nodeName)
  {
    var init, last := es[..|es| - 1], es[|es| - 1];
    assert es == init + [last];
    if e != last {
      ListedGuid(init, e);
    }
  }

  /** The position found in the sorted list is the rank Identity() speaks of. */
  method IdentityIn(byNode: map<string, seq<string>>, t: TopicSummary, e: Endpoint) returns (id: string)
    requires Sorted(t.writers + t.readers, byNode) && e in t.writers + t.readers
    ensures id == Identity(t, e)
  {
    if e.nodeName == "" {
      return "guid:" + e.guid;
    }
    ListedGuid(t.writers + t.readers, e);
    PlaceIsRank(NodeGuids(t.writers + t.readers, e.nodeName), e.guid);
    var place := IndexOf(byNode[e.nodeName], e.guid);
    return e.nodeName + "#" + Dec(place);
  }

  /** Adds the pairs of one topic to the keyed map. */
  method AddKeyed(before: seq<Entry>, t: TopicSummary) returns (out: seq<Entry>)
    requires forall p :: p in t.pairs ==> p.writer in t.writers && p.reader in t.readers
    ensures out == PutPairs(before, t, ByNode, |t.pairs|)
  {
    var byNode := GroupByNode(t.writers + t.readers);
    hide Identity, Sorted, Put;
    out := before;
    for j := 0 to |t.pairs|
      invariant out == PutPairs(before, t, ByNode, j)
    {
      var p := t.pairs[j];
      var w := IdentityIn(byNode, t, p.writer);
      var r := IdentityIn(byNode, t, p.reader);
      out := Put(out, Entry(Ident(t.displayTopic, w, r), KeyOf(t, p), StateOf(p)));
    }
  }

  method NodeKeyed(topics: seq<TopicSummary>) returns (out: seq<Entry>)
    requires PairsListed(topics)
    ensures out == Keyed(topics, ByNode)
  {
    out := [];
    for i := 0 to |topics|
      invariant out == Keyed(topics[..i], ByNode)
    {
      assert topics[..i + 1][..i] == topics[..i];
      assert topics[i] in topics;
      out := AddKeyed(out, topics[i]);
    }
    assert topics[..|topics|] == topics;
  }

  method PairStates(topics: seq<TopicSummary>) returns (out: seq<Entry>)
    ensures out == Keyed(topics, ByGuid)
  {
    out := [];
    for i := 0 to |topics|
      invariant out == Keyed(topics[..i], ByGuid)
    {
      var t := topics[i];
      assert topics[..i + 1][..i] == topics[..i];
      ghost var before := out;
      for j := 0 to |t.pairs|
        invariant out == PutPairs(before, t, ByGuid, j)
      {
        var p := t.pairs[j];
        var key := KeyOf(t, p);
        out := Put(out, Entry(key.Id(), key, StateOf(p)));
      }
    }
    assert topics[..|topics|] == topics;
  }

  // ---- the comparison

  datatype PairChange = PairChange(key: PairKey, from: PairState, to: PairState, beforeKey: PairKey)

  datatype Changes = Changes(added: seq<PairKey>, removed: seq<PairKey>, changed: seq<PairChange>)

  function StripPort(l: Locator): Locator {
    l.(port := 0)
  }

  function Strip(s: PairState): PairState {
    s.(locator := StripPort(s.locator),
       measuredLocators :=
         seq(|s.measuredLocators|, i requires 0 <= i < |s.measuredLocators| => StripPort(s.measuredLocators[i])))
  }

  /** PairState equality; a restart renumbers ports, so the node key leaves them out. */
  predicate SameState(a: PairState, b: PairState, mode: KeyMode) {
    if mode.ByNode? then Strip(a) == Strip(b) else a == b
  }

  function Added(prev: seq<Entry>, cur: seq<Entry>): seq<PairKey> {
    if cur == [] then []
    else
      var e := cur[|cur| - 1];
      Added(prev, cur[..|cur| - 1]) + (if Find(prev, e.ident).None? then [e.key] else [])
  }

  function Changed(prev: seq<Entry>, cur: seq<Entry>, mode: KeyMode): seq<PairChange> {
    if cur == [] then []
    else
      var e := cur[|cur| - 1];
      var p := Find(prev, e.ident);
      Changed(prev, cur[..|cur| - 1], mode)
      + (if p.Some? && !SameState(p.value.state, e.state, mode)
         then [PairChange(e.key, p.value.state, e.state, p.value.key)] else [])
  }

  /** Removed pairs are the pairs added the other way round. */
  function DiffOf(prev: seq<Entry>, cur: seq<Entry>, mode: KeyMode): Changes {
    Changes(Added(prev, cur), Added(cur, prev), Changed(prev, cur, mode))
  }

  method Diff(prev: seq<Entry>, cur: seq<Entry>, mode: KeyMode) returns (c: Changes)
    ensures c == DiffOf(prev, cur, mode)
  {
    var added, removed, changed := [], [], [];
    for i := 0 to |cur|
      invariant added == Added(prev, cur[..i]) && changed == Changed(prev, cur[..i], mode)
    {
      var e := cur[i];
      assert cur[..i + 1][..i] == cur[..i];
      var it := Find(prev, e.ident);
      if it.None? {
        added := added + [e.key];
      } else if !SameState(it.value.state, e.state, mode) {
        changed := changed + [PairChange(e.key, it.value.state, e.state, it.value.key)];
      }
    }
    for i := 0 to |prev|
      invariant removed == Added(cur, prev[..i])
    {
      assert prev[..i + 1][..i] == prev[..i];
      if Find(cur, prev[i].ident).None? {
        removed := removed + [prev[i].key];
      }
    }
    assert cur[..|cur|] == cur && prev[..|prev|] == prev;
    c := Changes(added, removed, changed);
  }

  method DiffSnapshots(before: seq<TopicSummary>, after: seq<TopicSummary>, mode: KeyMode) returns (c: Changes)
    requires PairsListed(before) && PairsListed(after)
    ensures c == DiffOf(Keyed(before, mode), Keyed(after, mode), mode)
  {
    if mode.ByGuid? {
      var prev := PairStates(before);
      var cur := PairStates(after);
      c := Diff(prev, cur, mode);
    } else {
      var prev := NodeKeyed(before);
      var cur := NodeKeyed(after);
      c := Diff(prev, cur, mode);
    }
  }

  // ---- the keyed pairs are an ordered map

  lemma {:induction false} PutPairsOrdered(es: seq<Entry>, t: TopicSummary, mode: KeyMode, n: nat)
    requires n <= |t.pairs| && Ordered(es)
    ensures Ordered(PutPairs(es, t, mode, n))
  {
    hide EntryOf, Put, Ordered;
    if n > 0 {
      PutPairsOrdered(es, t, mode, n - 1);
      PutMember(PutPairs(es, t, mode, n - 1), EntryOf(t, t.pairs[n - 1], mode));
    }
  }

  lemma {:induction false} KeyedOrdered(topics: seq<TopicSummary>, mode: KeyMode)
    ensures Ordered(Keyed(topics, mode))
  {
    if topics != [] {
      var t := topics[|topics| - 1];
      KeyedOrdered(topics[..|topics| - 1], mode);
      PutPairsOrdered(Keyed(topics[..|topics| - 1], mode), t, mode, |t.pairs|);
    }
  }
}
