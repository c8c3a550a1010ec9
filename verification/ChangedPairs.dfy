/** Which pairs a comparison lists, and as what, over the pairs' own fields (decision.cpp). */
module ChangedPairs {
  import opened Model
  import opened Snapshot
  import opened OrderedPairs
  import opened SnapshotDiff
  import opened DiffLaws

  // ---- what a comparison looks at

  /** A restart renumbers ports, so only the GUID key compares them. */
  ghost predicate SameLocator(a: Locator, b: Locator, mode: KeyMode) {
    a.kind == b.kind && a.address == b.address && (mode.ByGuid? ==> a.port == b.port)
  }

  /** Transport, confidence, measured transports, selected locator, measured locators and warnings are the same. */
  ghost predicate LooksSame(p: Pair, q: Pair, mode: KeyMode) {
    p.verdict.transport == q.verdict.transport
    && p.verdict.confidence == q.verdict.confidence
    && p.measured.transports == q.measured.transports
    && SameLocator(p.verdict.locator, q.verdict.locator, mode)
    && |p.measured.locators| == |q.measured.locators|
    && (forall i :: 0 <= i < |p.measured.locators| ==>
          SameLocator(p.measured.locators[i].locator, q.measured.locators[i].locator, mode))
    && p.verdict.warnings == q.verdict.warnings
  }

  lemma SameStateIff(p: Pair, q: Pair, mode: KeyMode)
    ensures SameState(StateOf(p), StateOf(q), mode) <==> LooksSame(p, q, mode)
  {
    if mode.ByGuid? {
      SameByGuid(p, q);
    } else {
      SameByNode(p, q);
    }
  }

  lemma SameByGuid(p: Pair, q: Pair)
    ensures StateOf(p) == StateOf(q) <==> LooksSame(p, q, ByGuid)
  {
    var a, b := StateOf(p).measuredLocators, StateOf(q).measuredLocators;
    if a == b {
      forall i | 0 <= i < |a|
        ensures p.measured.locators[i].locator == q.measured.locators[i].locator
      {
        assert a[i] == b[i];
      }
    }
    if LooksSame(p, q, ByGuid) {
      assert a == b;
    }
  }

  lemma SameByNode(p: Pair, q: Pair)
    ensures Strip(StateOf(p)) == Strip(StateOf(q)) <==> LooksSame(p, q, ByNode)
  {
    var a, b := Strip(StateOf(p)).measuredLocators, Strip(StateOf(q)).measuredLocators;
    if a == b {
      forall i | 0 <= i < |a|
        ensures SameLocator(p.measured.locators[i].locator, q.measured.locators[i].locator, ByNode)
      {
        assert a[i] == b[i];
      }
    }
    if LooksSame(p, q, ByNode) {
      assert a == b;
    }
  }

  /** The state of a pair as it is listed. */
  ghost predicate StateIs(s: PairState, p: Pair) {
    s.transport == p.verdict.transport && s.confidence == p.verdict.confidence && s.measured == p.measured.transports
    && s.locator == p.verdict.locator && s.warnings == p.verdict.warnings
    && |s.measuredLocators| == |p.measured.locators|
    && forall i :: 0 <= i < |p.measured.locators| ==> s.measuredLocators[i] == p.measured.locators[i].locator
  }

  // ---- which pairs are one

  /** A pair and the topic it is listed under. */
  datatype Listed = Listed(t: TopicSummary, p: Pair)

  function Listing(topics: seq<TopicSummary>): seq<Listed> {
    if topics == [] then [] else Listing(topics[..|topics| - 1]) + FirstPairs(topics[|topics| - 1], |topics[|topics| - 1].pairs|)
  }

  function FirstPairs(t: TopicSummary, n: nat): (ls: seq<Listed>)
    requires n <= |t.pairs|
    ensures |ls| == n
  {
    seq(n, i requires 0 <= i < n => Listed(t, t.pairs[i]))
  }

  /** One display name and one pair of GUIDs, or under the node key, endpoints in the same places of the same nodes. */
  ghost predicate OnePair(a: Listed, b: Listed, mode: KeyMode) {
    a.t.displayTopic == b.t.displayTopic
    && if mode.ByGuid? then a.p.writer.guid == b.p.writer.guid && a.p.reader.guid == b.p.reader.guid
       else SamePlace(a.t, a.p.writer, b.t, b.p.writer) && SamePlace(a.t, a.p.reader, b.t, b.p.reader)
  }

  ghost predicate KeyIs(k: PairKey, l: Listed) {
    k.topic == l.t.displayTopic && k.writerGuid == l.p.writer.guid && k.readerGuid == l.p.reader.guid
    && k.writerNode == l.p.writer.nodeName && k.readerNode == l.p.reader.nodeName
  }

  /** GUID texts have no `#`, which the node key counts on. */
  ghost predicate HashFree(ls: seq<Listed>, mode: KeyMode) {
    mode.ByNode? ==> forall l :: l in ls ==> '#' !in l.p.writer.guid && '#' !in l.p.reader.guid
  }

  function At(l: Listed, mode: KeyMode): Entry {
    EntryOf(l.t, l.p, mode)
  }

  lemma OnePairIff(a: Listed, b: Listed, mode: KeyMode)
    requires HashFree([a, b], mode)
    ensures At(a, mode).ident == At(b, mode).ident <==> OnePair(a, b, mode)
  {
    assert a in [a, b] && b in [a, b];
    if mode.ByNode? {
      SamePlaceIff(a.t, a.p.writer, b.t, b.p.writer);
      SamePlaceIff(a.t, a.p.reader, b.t, b.p.reader);
    }
    hide SamePlace, Identity;
  }

  /** No later pair of the listing is the same one. */
  ghost predicate Last(ls: seq<Listed>, mode: KeyMode, k: int) {
    0 <= k < |ls| && forall l :: k < l < |ls| ==> !OnePair(ls[k], ls[l], mode)
  }

  // ---- the keyed map of a listing

  function PutAll(ls: seq<Listed>, mode: KeyMode): seq<Entry> {
    if ls == [] then [] else Put(PutAll(ls[..|ls| - 1], mode), At(ls[|ls| - 1], mode))
  }

  lemma {:induction false} PutPairsIsPutAll(ls: seq<Listed>, t: TopicSummary, mode: KeyMode, n: nat)
    requires n <= |t.pairs|
    ensures PutPairs(PutAll(ls, mode), t, mode, n) == PutAll(ls + FirstPairs(t, n), mode)
  {
    hide Put, EntryOf;
    if n == 0 {
      assert ls + FirstPairs(t, 0) == ls;
    } else {
      PutPairsIsPutAll(ls, t, mode, n - 1);
      PutOneMore(ls + FirstPairs(t, n - 1), Listed(t, t.pairs[n - 1]), mode);
      assert ls + FirstPairs(t, n) == ls + FirstPairs(t, n - 1) + [Listed(t, t.pairs[n - 1])];
      hide PutAll;
    }
  }

  lemma PutOneMore(ls: seq<Listed>, l: Listed, mode: KeyMode)
    ensures PutAll(ls + [l], mode) == Put(PutAll(ls, mode), At(l, mode))
  {
    hide Put, At;
    assert (ls + [l])[..|ls|] == ls;
  }

  lemma {:induction false} KeyedIsPutAll(topics: seq<TopicSummary>, mode: KeyMode)
    ensures Keyed(topics, mode) == PutAll(Listing(topics), mode)
  {
    if topics != [] {
      var init, t := topics[..|topics| - 1], topics[|topics| - 1];
      KeyedIsPutAll(init, mode);
      PutPairsIsPutAll(Listing(init), t, mode, |t.pairs|);
      hide PutPairs, PutAll;
    }
  }

  ghost predicate SameAt(ls: seq<Listed>, mode: KeyMode, k: int, e: Entry) {
    0 <= k < |ls| && e == At(ls[k], mode)
  }

  lemma HashFreePair(ls: seq<Listed>, a: Listed, b: Listed, mode: KeyMode)
    requires HashFree(ls, mode) && a in ls && b in ls
    ensures HashFree([a, b], mode)
  {
  }

  ghost predicate Held(ls: seq<Listed>, mode: KeyMode, e: Entry) {
    exists k :: Last(ls, mode, k) && SameAt(ls, mode, k, e)
  }

  lemma LastSnoc(init: seq<Listed>, last: Listed, mode: KeyMode, k: int)
    ensures Last(init + [last], mode, k) <==> k == |init| || (Last(init, mode, k) && !OnePair(init[k], last, mode))
  {
    hide OnePair;
    var ls := init + [last];
    if Last(ls, mode, k) && k < |init| {
      assert !OnePair(ls[k], ls[|init|], mode);
      forall l | k < l < |init|
        ensures !OnePair(init[k], init[l], mode)
      {
        assert ls[l] == init[l];
      }
    }
  }

  lemma HeldSnoc(init: seq<Listed>, last: Listed, mode: KeyMode, e: Entry)
    requires HashFree(init + [last], mode)
    ensures Held(init + [last], mode, e) <==> e == At(last, mode) || (Held(init, mode, e) && e.ident != At(last, mode).ident)
  {
    var ls := init + [last];
    forall k
      ensures Last(ls, mode, k) <==> k == |init| || (Last(init, mode, k) && !OnePair(init[k], last, mode))
    {
      LastSnoc(init, last, mode, k);
    }
    forall k | 0 <= k < |init|
      ensures At(init[k], mode).ident == At(last, mode).ident <==> OnePair(init[k], last, mode)
    {
      assert ls[k] in ls && ls[|init|] in ls;
      HashFreePair(ls, init[k], last, mode);
      OnePairIff(init[k], last, mode);
    }
    hide At, OnePair, HashFree, Last;
    if Held(ls, mode, e) {
      var k :| Last(ls, mode, k) && SameAt(ls, mode, k, e);
      assert k != |init| ==> SameAt(init, mode, k, e);
    }
    if Held(init, mode, e) && e.ident != At(last, mode).ident {
      var k :| Last(init, mode, k) && SameAt(init, mode, k, e);
      assert SameAt(ls, mode, k, e);
    }
    assert SameAt(ls, mode, |init|, At(last, mode));
  }

  /** The map holds, of the pairs that are one, the last listed. */
  lemma {:induction false} MapHoldsTheLast(ls: seq<Listed>, mode: KeyMode)
    requires HashFree(ls, mode)
    ensures Ordered(PutAll(ls, mode)) && forall e :: e in PutAll(ls, mode) <==> Held(ls, mode, e)
  {
    if ls != [] {
      var init, last := ls[..|ls| - 1], ls[|ls| - 1];
      assert ls == init + [last];
      MapHoldsTheLast(init, mode);
      PutMember(PutAll(init, mode), At(last, mode));
      hide At, Held, Put, Ordered, HashFree;
      forall e
        ensures Held(ls, mode, e) <==> e == At(last, mode) || (Held(init, mode, e) && e.ident != At(last, mode).ident)
      {
        HeldSnoc(init, last, mode, e);
      }
    }
  }

  ghost predicate HasIdent(ls: seq<Listed>, mode: KeyMode, id: Ident) {
    exists k :: 0 <= k < |ls| && At(ls[k], mode).ident == id
  }

  lemma HasIdentSnoc(ls: seq<Listed>, l: Listed, mode: KeyMode, id: Ident)
    ensures HasIdent(ls + [l], mode, id) <==> HasIdent(ls, mode, id) || At(l, mode).ident == id
  {
    hide At;
    var all := ls + [l];
    assert all[|ls|] == l;
    if k :| 0 <= k < |ls| && At(ls[k], mode).ident == id {
      assert all[k] == ls[k];
    }
    if k :| 0 <= k < |all| && At(all[k], mode).ident == id {
      assert k < |ls| ==> all[k] == ls[k];
    }
  }

  lemma {:induction false} IdentsOfListing(ls: seq<Listed>, mode: KeyMode)
    ensures Ordered(PutAll(ls, mode))
    ensures forall id :: id in IdentsOf(PutAll(ls, mode)) <==> HasIdent(ls, mode, id)
  {
    if ls != [] {
      var init, l := ls[..|ls| - 1], ls[|ls| - 1];
      assert ls == init + [l];
      PutOneMore(init, l, mode);
      hide *;
      IdentsOfListing(init, mode);
      PutIdents(PutAll(init, mode), At(l, mode));
      forall id
        ensures id in IdentsOf(PutAll(ls, mode)) <==> HasIdent(ls, mode, id)
      {
        HasIdentSnoc(init, l, mode, id);
      }
    }
  }

  // ---- the lists

  ghost predicate Unlisted(l: Listed, ls: seq<Listed>, mode: KeyMode) {
    forall k :: 0 <= k < |ls| ==> !OnePair(ls[k], l, mode)
  }

  /** The last listed of the pairs that are one, and none of the other side is. */
  ghost predicate OnlyHere(ls: seq<Listed>, others: seq<Listed>, mode: KeyMode, key: PairKey) {
    exists k :: Last(ls, mode, k) && Unlisted(ls[k], others, mode) && KeyIs(key, ls[k])
  }

  /** The two sides' last listed pairs are one and look different. */
  ghost predicate Differs(ls: seq<Listed>, ms: seq<Listed>, mode: KeyMode, k: int, l: int) {
    Last(ls, mode, k) && Last(ms, mode, l) && OnePair(ls[k], ms[l], mode) && !LooksSame(ls[k].p, ms[l].p, mode)
  }

  ghost predicate Change(ch: PairChange, from: Listed, to: Listed) {
    KeyIs(ch.key, to) && KeyIs(ch.beforeKey, from) && StateIs(ch.from, from.p) && StateIs(ch.to, to.p)
  }

  ghost predicate ChangedInto(ls: seq<Listed>, ms: seq<Listed>, mode: KeyMode, ch: PairChange) {
    exists k, l :: Differs(ls, ms, mode, k, l) && Change(ch, ls[k], ms[l])
  }

  lemma EntryIs(l: Listed, mode: KeyMode)
    ensures forall k :: KeyIs(k, l) <==> k == At(l, mode).key
    ensures forall s :: StateIs(s, l.p) <==> s == At(l, mode).state
  {
    forall s | StateIs(s, l.p)
      ensures s == StateOf(l.p)
    {
      assert s.measuredLocators == StateOf(l.p).measuredLocators;
    }
  }

  lemma UnlistedIff(l: Listed, ls: seq<Listed>, mode: KeyMode)
    requires HashFree(ls + [l], mode)
    ensures Unlisted(l, ls, mode) <==> At(l, mode).ident !in IdentsOf(PutAll(ls, mode))
  {
    IdentsOfListing(ls, mode);
    forall k | 0 <= k < |ls|
      ensures At(ls[k], mode).ident == At(l, mode).ident <==> OnePair(ls[k], l, mode)
    {
      assert (ls + [l])[k] in ls + [l] && (ls + [l])[|ls|] in ls + [l];
      HashFreePair(ls + [l], ls[k], l, mode);
      OnePairIff(ls[k], l, mode);
    }
    hide At, OnePair, IdentsOf, PutAll, HashFree;
  }

  lemma OneIsIn(ls: seq<Listed>, ms: seq<Listed>, k: nat, mode: KeyMode)
    requires HashFree(ls, mode) && HashFree(ms, mode) && k < |ms|
    ensures HashFree(ms + [ms[k]], mode) && HashFree(ls + [ms[k]], mode)
  {
  }

  lemma OnlyHereIff(ls: seq<Listed>, others: seq<Listed>, mode: KeyMode, key: PairKey)
    requires HashFree(ls, mode) && HashFree(others, mode)
    ensures key in Added(PutAll(others, mode), PutAll(ls, mode)) <==> OnlyHere(ls, others, mode, key)
  {
    var prev, cur := PutAll(others, mode), PutAll(ls, mode);
    AddedMember(prev, cur, key);
    MapHoldsTheLast(ls, mode);
    hide At, Unlisted, KeyIs, Last, PutAll, HashFree, IdentsOf, Added, Ordered, Held;
    if key in Added(prev, cur) {
      var e :| e in cur && e.ident !in IdentsOf(prev) && e.key == key;
      var k := HeldAt(ls, mode, e);
      OnlyHereAt(ls, others, mode, key, k);
    }
    if OnlyHere(ls, others, mode, key) {
      var k :| Last(ls, mode, k) && Unlisted(ls[k], others, mode) && KeyIs(key, ls[k]);
      OnlyHereAt(ls, others, mode, key, k);
      IsHeld(ls, mode, k);
    }
  }

  lemma OnlyHereAt(ls: seq<Listed>, others: seq<Listed>, mode: KeyMode, key: PairKey, k: int)
    requires HashFree(ls, mode) && HashFree(others, mode) && Last(ls, mode, k)
    ensures 0 <= k < |ls|
    ensures Unlisted(ls[k], others, mode) && KeyIs(key, ls[k])
       <==> At(ls[k], mode).ident !in IdentsOf(PutAll(others, mode)) && key == At(ls[k], mode).key
  {
    OneIsIn(others, ls, k, mode);
    UnlistedIff(ls[k], others, mode);
    EntryIs(ls[k], mode);
    hide At, Unlisted, KeyIs, PutAll, HashFree, IdentsOf, StateIs;
  }

  lemma IsHeld(ls: seq<Listed>, mode: KeyMode, k: int)
    requires Last(ls, mode, k)
    ensures 0 <= k < |ls| && Held(ls, mode, At(ls[k], mode))
  {
    hide At;
    assert SameAt(ls, mode, k, At(ls[k], mode));
  }

  lemma TwoAreIn(ls: seq<Listed>, ms: seq<Listed>, k: nat, l: nat, mode: KeyMode)
    requires HashFree(ls, mode) && HashFree(ms, mode) && k < |ls| && l < |ms|
    ensures HashFree([ls[k], ms[l]], mode)
  {
  }

  lemma DiffersIff(ls: seq<Listed>, ms: seq<Listed>, mode: KeyMode, ch: PairChange)
    requires HashFree(ls, mode) && HashFree(ms, mode)
    ensures ch in Changed(PutAll(ls, mode), PutAll(ms, mode), mode) <==> ChangedInto(ls, ms, mode, ch)
  {
    var prev, cur := PutAll(ls, mode), PutAll(ms, mode);
    MapHoldsTheLast(ls, mode);
    MapHoldsTheLast(ms, mode);
    ChangedMember(prev, cur, mode, ch);
    hide Last, PutAll, Changed, Ordered, Held;
    if ch in Changed(prev, cur, mode) {
      var p, e :| p in prev && e in cur && p.ident == e.ident && !SameState(p.state, e.state, mode)
                  && ch == PairChange(e.key, p.state, e.state, p.key);
      var k := HeldAt(ls, mode, p);
      var l := HeldAt(ms, mode, e);
      ChangeIs(ls, ms, mode, ch, k, l);
    }
    if k, l :| Differs(ls, ms, mode, k, l) && Change(ch, ls[k], ms[l]) {
      ListedChange(ls, ms, mode, ch, k, l);
    }
  }

  lemma HeldAt(ls: seq<Listed>, mode: KeyMode, e: Entry) returns (k: int)
    requires Held(ls, mode, e)
    ensures Last(ls, mode, k) && e == At(ls[k], mode)
  {
    k :| Last(ls, mode, k) && SameAt(ls, mode, k, e);
  }

  lemma ChangeIs(ls: seq<Listed>, ms: seq<Listed>, mode: KeyMode, ch: PairChange, k: int, l: int)
    requires HashFree(ls, mode) && HashFree(ms, mode) && Last(ls, mode, k) && Last(ms, mode, l)
    ensures Differs(ls, ms, mode, k, l) && Change(ch, ls[k], ms[l])
       <==> var p, e := At(ls[k], mode), At(ms[l], mode);
            p.ident == e.ident && !SameState(p.state, e.state, mode) && ch == PairChange(e.key, p.state, e.state, p.key)
  {
    TwoAreIn(ls, ms, k, l, mode);
    OnePairIff(ls[k], ms[l], mode);
    SameStateIff(ls[k].p, ms[l].p, mode);
    EntryIs(ls[k], mode);
    EntryIs(ms[l], mode);
    hide OnePair, LooksSame, SameState, KeyIs, StateIs, KeyOf, StateOf, HashFree;
  }

  lemma ListedChange(ls: seq<Listed>, ms: seq<Listed>, mode: KeyMode, ch: PairChange, k: int, l: int)
    requires HashFree(ls, mode) && HashFree(ms, mode) && Differs(ls, ms, mode, k, l) && Change(ch, ls[k], ms[l])
    ensures var p, e := At(ls[k], mode), At(ms[l], mode);
            Held(ls, mode, p) && Held(ms, mode, e) && p.ident == e.ident && !SameState(p.state, e.state, mode)
            && ch == PairChange(e.key, p.state, e.state, p.key)
  {
    assert Last(ls, mode, k) && Last(ms, mode, l);
    ChangeIs(ls, ms, mode, ch, k, l);
    hide At, Last, Change;
    assert SameAt(ls, mode, k, At(ls[k], mode)) && SameAt(ms, mode, l, At(ms[l], mode));
  }

  /**
   * The comparison of two snapshots, of any topics and pairs: of the pairs that are one, the last listed is compared; it is
   * added or removed when the other side lists none, and changed exactly when the two differ in what a comparison looks at.
   */
  lemma ComparisonIs(before: seq<TopicSummary>, after: seq<TopicSummary>, mode: KeyMode)
    requires HashFree(Listing(before), mode) && HashFree(Listing(after), mode)
    ensures var c, ls, ms := DiffOf(Keyed(before, mode), Keyed(after, mode), mode), Listing(before), Listing(after);
            (forall key :: key in c.added <==> OnlyHere(ms, ls, mode, key))
            && (forall key :: key in c.removed <==> OnlyHere(ls, ms, mode, key))
            && (forall ch :: ch in c.changed <==> ChangedInto(ls, ms, mode, ch))
  {
    KeyedIsPutAll(before, mode);
    KeyedIsPutAll(after, mode);
    hide *;
    var ls, ms := Listing(before), Listing(after);
    var c := DiffOf(Keyed(before, mode), Keyed(after, mode), mode);
    DiffIs(Keyed(before, mode), Keyed(after, mode), mode);
    forall key
      ensures key in c.added <==> OnlyHere(ms, ls, mode, key)
    {
      OnlyHereIff(ms, ls, mode, key);
    }
    forall key
      ensures key in c.removed <==> OnlyHere(ls, ms, mode, key)
    {
      OnlyHereIff(ls, ms, mode, key);
    }
    forall ch
      ensures ch in c.changed <==> ChangedInto(ls, ms, mode, ch)
    {
      DiffersIff(ls, ms, mode, ch);
    }
  }

  lemma DiffIs(prev: seq<Entry>, cur: seq<Entry>, mode: KeyMode)
    ensures var c := DiffOf(prev, cur, mode);
            c.added == Added(prev, cur) && c.removed == Added(cur, prev) && c.changed == Changed(prev, cur, mode)
  {
  }
}
