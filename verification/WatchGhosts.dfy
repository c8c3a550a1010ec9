/** The ghost rows of --watch over a whole run: exactly the pairs of the last frames that are gone now, each once. */
module WatchGhosts {
  import opened Model
  import opened Snapshot
  import opened SnapshotDiff
  import opened Watching
  import opened WatchHistory

  // ---- the rows as a set

  lemma {:induction false} WithoutMember(gs: seq<Ghost>, ids: set<Ident>)
    ensures forall g :: g in Without(gs, ids) <==> g in gs && g.id !in ids
  {
    if gs != [] {
      assert gs == gs[..|gs| - 1] + [gs[|gs| - 1]];
      WithoutMember(gs[..|gs| - 1], ids);
    }
  }

  /** The row of a pair the frame lists. */
  ghost predicate Row(topics: seq<TopicSummary>, g: Ghost) {
    exists t, p :: t in topics && p in t.pairs && g == GhostOf(t, p)
  }

  lemma {:induction false} TopicGhostsMember(t: TopicSummary, n: nat, ids: set<Ident>, g: Ghost)
    requires n <= |t.pairs|
    ensures g in TopicGhosts(t, n, ids) <==> g.id in ids && exists i :: 0 <= i < n && g == GhostOf(t, t.pairs[i])
  {
    if n > 0 {
      TopicGhostsMember(t, n - 1, ids, g);
      hide GhostOf;
    }
  }

  lemma RowSnoc(init: seq<TopicSummary>, t: TopicSummary, g: Ghost)
    ensures Row(init + [t], g) <==> Row(init, g) || exists i :: 0 <= i < |t.pairs| && g == GhostOf(t, t.pairs[i])
  {
    hide GhostOf;
    assert t in init + [t] && forall u :: u in init + [t] <==> u in init || u == t;
    assert (exists i :: 0 <= i < |t.pairs| && g == GhostOf(t, t.pairs[i])) <==> exists p :: p in t.pairs && g == GhostOf(t, p);
  }

  lemma {:induction false} NewGhostsMember(topics: seq<TopicSummary>, ids: set<Ident>, g: Ghost)
    ensures g in NewGhosts(topics, ids) <==> g.id in ids && Row(topics, g)
  {
    if topics != [] {
      var init, t := topics[..|topics| - 1], topics[|topics| - 1];
      assert topics == init + [t];
      hide GhostOf, TopicGhosts, Row;
      NewGhostsMember(init, ids, g);
      TopicGhostsMember(t, |t.pairs|, ids, g);
      RowSnoc(init, t, g);
    }
  }

  /** Every removed pair was listed by the frame before, so each becomes a row. */
  lemma NewGhostIds(topics: seq<TopicSummary>, ids: set<Ident>)
    requires ids <= Seen(topics).Keys
    ensures GhostIds(NewGhosts(topics, ids)) == ids
  {
    KeyedLists(topics);
    forall id
      ensures id in GhostIds(NewGhosts(topics, ids)) <==> id in ids
    {
      if id in ids {
        assert Lists(topics, id);
        var t, p :| t in topics && p in t.pairs && KeyOf(t, p).Id() == id;
        NewGhostsMember(topics, ids, GhostOf(t, p));
        assert GhostOf(t, p) in NewGhosts(topics, ids);
      }
      if id in GhostIds(NewGhosts(topics, ids)) {
        var g :| g in NewGhosts(topics, ids) && g.id == id;
        NewGhostsMember(topics, ids, g);
      }
    }
  }

  lemma HauntedMember(gs: seq<Ghost>, ttl: map<Ident, int>, topics: seq<TopicSummary>, c: Changes, g: Ghost)
    ensures g in Haunted(gs, ttl, topics, c)
       <==> g.id !in IdsOf(c.added)
            && ((g in gs && g.id !in Expired(ttl) && g.id !in IdsOf(c.removed))
                || g in NewGhosts(topics, IdsOf(c.removed)))
  {
    var left := Without(gs, Expired(ttl));
    var gone := IdsOf(c.removed);
    WithoutMember(gs, Expired(ttl));
    WithoutMember(left, gone);
    WithoutMember(left, IdsOf(c.added));
    WithoutMember(Without(left, gone) + NewGhosts(topics, gone), IdsOf(c.added));
    assert c.removed == [] ==> gone == {};
    NewGhostsMember(topics, gone, g);
    hide Expired, NewGhosts, IdsOf, Without;
  }

  lemma HauntedIds(gs: seq<Ghost>, ttl: map<Ident, int>, topics: seq<TopicSummary>, c: Changes)
    requires GhostIds(gs) == ttl.Keys && GhostIds(NewGhosts(topics, IdsOf(c.removed))) == IdsOf(c.removed)
    ensures GhostIds(Haunted(gs, ttl, topics, c)) == HauntedTtl(ttl, topics, c).Keys
  {
    hide Haunted, NewGhosts, IdsOf;
    var haunted, rows := Haunted(gs, ttl, topics, c), NewGhosts(topics, IdsOf(c.removed));
    assert HauntedTtl(ttl, topics, c).Keys == ttl.Keys - Expired(ttl) + IdsOf(c.removed) - IdsOf(c.added);
    forall id
      ensures id in GhostIds(haunted) <==> id in ttl.Keys - Expired(ttl) + IdsOf(c.removed) - IdsOf(c.added)
    {
      if id in GhostIds(haunted) {
        var g :| g in haunted && g.id == id;
        HauntedMember(gs, ttl, topics, c, g);
      }
      if id in ttl.Keys - Expired(ttl) + IdsOf(c.removed) - IdsOf(c.added) {
        var g: Ghost :| g.id == id && (if id in IdsOf(c.removed) then g in rows else g in gs);
        HauntedMember(gs, ttl, topics, c, g);
        assert g in haunted;
      }
    }
  }

  // ---- each row once

  ghost predicate Unrepeated(gs: seq<Ghost>) {
    forall i, j :: 0 <= i < j < |gs| ==> gs[i].id != gs[j].id
  }

  lemma JoinUnrepeated(a: seq<Ghost>, b: seq<Ghost>)
    requires Unrepeated(a) && Unrepeated(b) && forall x, y :: x in a && y in b ==> x.id != y.id
    ensures Unrepeated(a + b)
  {
  }

  lemma {:induction false} WithoutUnrepeated(gs: seq<Ghost>, ids: set<Ident>)
    requires Unrepeated(gs)
    ensures Unrepeated(Without(gs, ids))
  {
    if gs != [] {
      var init, last := gs[..|gs| - 1], gs[|gs| - 1];
      WithoutUnrepeated(init, ids);
      WithoutMember(init, ids);
      assert forall x :: x in init ==> x.id != last.id;
    }
  }

  /** No two pairs of the frame share topic and GUIDs. */
  ghost predicate OwnIds(topics: seq<TopicSummary>) {
    (forall t, i, j :: t in topics && 0 <= i < j < |t.pairs| ==> GhostOf(t, t.pairs[i]).id != GhostOf(t, t.pairs[j]).id)
    && (forall a, b, p, q :: 0 <= a < b < |topics| && p in topics[a].pairs && q in topics[b].pairs ==>
          GhostOf(topics[a], p).id != GhostOf(topics[b], q).id)
  }

  lemma {:induction false} TopicUnrepeated(t: TopicSummary, n: nat, ids: set<Ident>)
    requires n <= |t.pairs|
    requires forall i, j :: 0 <= i < j < n ==> GhostOf(t, t.pairs[i]).id != GhostOf(t, t.pairs[j]).id
    ensures Unrepeated(TopicGhosts(t, n, ids))
  {
    if n > 0 {
      TopicUnrepeated(t, n - 1, ids);
      var init, g := TopicGhosts(t, n - 1, ids), GhostOf(t, t.pairs[n - 1]);
      forall x | x in init
        ensures x.id != g.id
      {
        TopicGhostsMember(t, n - 1, ids, x);
      }
      JoinUnrepeated(init, [g]);
    }
  }

  lemma {:induction false} NewUnrepeated(topics: seq<TopicSummary>, ids: set<Ident>)
    requires OwnIds(topics)
    ensures Unrepeated(NewGhosts(topics, ids))
  {
    if topics != [] {
      var n := |topics| - 1;
      var init, t := topics[..n], topics[n];
      assert t in topics && forall u :: u in init ==> u in topics;
      NewUnrepeated(init, ids);
      TopicUnrepeated(t, |t.pairs|, ids);
      var a, b := NewGhosts(init, ids), TopicGhosts(t, |t.pairs|, ids);
      forall x, y | x in a && y in b
        ensures x.id != y.id
      {
        TopicsDiffer(topics, ids, x, y);
      }
      hide OwnIds, Unrepeated, GhostOf;
      JoinUnrepeated(a, b);
    }
  }

  lemma TopicsDiffer(topics: seq<TopicSummary>, ids: set<Ident>, x: Ghost, y: Ghost)
    requires topics != [] && OwnIds(topics) && x in NewGhosts(topics[..|topics| - 1], ids)
    requires var t := topics[|topics| - 1]; y in TopicGhosts(t, |t.pairs|, ids)
    ensures x.id != y.id
  {
    hide *;
    var n := |topics| - 1;
    var k, p := ListedPair(topics[..n], ids, x);
    var q := ListedPairOf(topics[n], ids, y);
    PairsDiffer(topics, k, n, p, q);
  }

  /** The pair behind a new row. */
  lemma ListedPair(topics: seq<TopicSummary>, ids: set<Ident>, g: Ghost) returns (k: nat, p: Pair)
    requires g in NewGhosts(topics, ids)
    ensures k < |topics| && p in topics[k].pairs && g == GhostOf(topics[k], p)
  {
    NewGhostsMember(topics, ids, g);
    hide NewGhosts, GhostOf;
    var u;
    u, p :| u in topics && p in u.pairs && g == GhostOf(u, p);
    k :| k < |topics| && topics[k] == u;
  }

  lemma ListedPairOf(t: TopicSummary, ids: set<Ident>, g: Ghost) returns (p: Pair)
    requires g in TopicGhosts(t, |t.pairs|, ids)
    ensures p in t.pairs && g == GhostOf(t, p)
  {
    TopicGhostsMember(t, |t.pairs|, ids, g);
    hide TopicGhosts, GhostOf;
    var i :| 0 <= i < |t.pairs| && g == GhostOf(t, t.pairs[i]);
    p := t.pairs[i];
  }

  lemma PairsDiffer(topics: seq<TopicSummary>, a: nat, b: nat, p: Pair, q: Pair)
    requires OwnIds(topics) && a < b < |topics| && p in topics[a].pairs && q in topics[b].pairs
    ensures GhostOf(topics[a], p).id != GhostOf(topics[b], q).id
  {
  }

  lemma HauntedUnrepeated(gs: seq<Ghost>, ttl: map<Ident, int>, topics: seq<TopicSummary>, c: Changes)
    requires Unrepeated(gs) && OwnIds(topics)
    ensures Unrepeated(Haunted(gs, ttl, topics, c))
  {
    var left := Without(gs, Expired(ttl));
    var gone := IdsOf(c.removed);
    WithoutUnrepeated(gs, Expired(ttl));
    var all := left;
    if c.removed != [] {
      var a, b := Without(left, gone), NewGhosts(topics, gone);
      WithoutUnrepeated(left, gone);
      NewUnrepeated(topics, gone);
      WithoutMember(left, gone);
      forall x, y | x in a && y in b
        ensures x.id != y.id
      {
        NewGhostsMember(topics, gone, y);
      }
      JoinUnrepeated(a, b);
      all := a + b;
    }
    WithoutUnrepeated(all, IdsOf(c.added));
  }

  // ---- how long each row stays

  ghost predicate TtlExact(frames: seq<seq<TopicSummary>>, n: nat, ttl: map<Ident, int>)
    requires n < |frames|
  {
    forall id :: TtlIs(LastSeen(frames, n, id, HOLD_FRAMES), ttl, id)
  }

  ghost predicate TtlIs(trace: Trace, ttl: map<Ident, int>, id: Ident) {
    (id in ttl <==> trace.Gone?) && (id in ttl ==> ttl[id] == trace.ttl)
  }

  lemma TtlStep(frames: seq<seq<TopicSummary>>, n: nat, ttl: map<Ident, int>, c: Changes)
    requires 0 < n < |frames| && TtlExact(frames, n - 1, ttl)
    requires ChangesAre(c, Seen(frames[n - 1]), Seen(frames[n]))
    ensures TtlExact(frames, n, HauntedTtl(ttl, frames[n - 1], c))
  {
    NewGhostIds(frames[n - 1], IdsOf(c.removed));
    hide Seen, IdsOf, NewGhosts, ChangedIds;
    forall id
      ensures TtlIs(LastSeen(frames, n, id, HOLD_FRAMES), HauntedTtl(ttl, frames[n - 1], c), id)
    {
      LastSeenAges(frames, n - 1, id, HOLD_FRAMES);
      assert TtlIs(LastSeen(frames, n - 1, id, HOLD_FRAMES), ttl, id);
    }
  }

  /** Every row is that of the frame that last had the pair. */
  ghost predicate RowsExact(frames: seq<seq<TopicSummary>>, n: nat, gs: seq<Ghost>)
    requires n < |frames|
  {
    forall g :: g in gs ==> RowOf(frames, LastSeen(frames, n, g.id, HOLD_FRAMES), g)
  }

  ghost predicate RowOf(frames: seq<seq<TopicSummary>>, trace: Trace, g: Ghost) {
    trace.Gone? && trace.at < |frames| && Row(frames[trace.at], g)
  }

  lemma RowsStep(frames: seq<seq<TopicSummary>>, n: nat, ttl: map<Ident, int>, gs: seq<Ghost>, c: Changes)
    requires 0 < n < |frames| && TtlExact(frames, n - 1, ttl) && RowsExact(frames, n - 1, gs)
    requires ChangesAre(c, Seen(frames[n - 1]), Seen(frames[n]))
    ensures RowsExact(frames, n, Haunted(gs, ttl, frames[n - 1], c))
  {
    hide Seen, IdsOf, NewGhosts, ChangedIds, Haunted, Row;
    forall g | g in Haunted(gs, ttl, frames[n - 1], c)
      ensures RowOf(frames, LastSeen(frames, n, g.id, HOLD_FRAMES), g)
    {
      HauntedMember(gs, ttl, frames[n - 1], c, g);
      NewGhostsMember(frames[n - 1], IdsOf(c.removed), g);
      LastSeenAges(frames, n - 1, g.id, HOLD_FRAMES);
      assert TtlIs(LastSeen(frames, n - 1, g.id, HOLD_FRAMES), ttl, g.id);
    }
  }

  ghost predicate GhostsExact(frames: seq<seq<TopicSummary>>, n: nat, w: Watch)
    requires n < |frames|
  {
    GhostIds(w.ghosts) == w.ghostTtl.Keys && Unrepeated(w.ghosts)
    && TtlExact(frames, n, w.ghostTtl) && RowsExact(frames, n, w.ghosts)
  }

  lemma {:induction false} GhostsAreKept(frames: seq<seq<TopicSummary>>, n: nat)
    requires n < |frames| && forall k :: 0 <= k <= n ==> OwnIds(frames[k])
    ensures GhostsExact(frames, n, After(frames, n))
  {
    hide Keyed, Seen, Marked, MarkedTtl, HauntedTtl, Haunted, ChangesAre, DiffOf, OwnIds, GhostIds, TtlExact, RowsExact,
      Unrepeated;
    if n == 0 {
      FirstFrameHasNone(frames, INITIAL, NO_CHANGES);
    } else {
      GhostsAreKept(frames, n - 1);
      Kept(frames, n - 1);
      ChangeSets(frames[n - 1], frames[n]);
      var w := After(frames, n - 1);
      var c := ChangesFrom(w, Keyed(frames[n], ByGuid));
      TtlStep(frames, n, w.ghostTtl, c);
      RowsStep(frames, n, w.ghostTtl, w.ghosts, c);
      RemovedRows(c, frames[n - 1], frames[n]);
      HauntedIds(w.ghosts, w.ghostTtl, frames[n - 1], c);
      HauntedUnrepeated(w.ghosts, w.ghostTtl, frames[n - 1], c);
    }
  }

  lemma RemovedRows(c: Changes, before: seq<TopicSummary>, after: seq<TopicSummary>)
    requires ChangesAre(c, Seen(before), Seen(after))
    ensures GhostIds(NewGhosts(before, IdsOf(c.removed))) == IdsOf(c.removed)
  {
    NewGhostIds(before, IdsOf(c.removed));
  }

  lemma FirstFrameHasNone(frames: seq<seq<TopicSummary>>, w: Watch, c: Changes)
    requires frames != [] && w == INITIAL && c == NO_CHANGES
    ensures Haunted(w.ghosts, w.ghostTtl, w.lastTopics, c) == [] && HauntedTtl(w.ghostTtl, w.lastTopics, c) == map[]
    ensures GhostIds([]) == {} && Unrepeated([]) && TtlExact(frames, 0, map[]) && RowsExact(frames, 0, [])
  {
    NoGhosts(w.lastTopics, map[]);
    assert IdsOf(c.added) == {};
  }

  /**
   * At every frame the ghosts are exactly the pairs that are absent now and were present in one
   * of the three frames before, each in one row and with the pair as the last such frame had it.
   */
  lemma GhostsAreExact(frames: seq<seq<TopicSummary>>, n: nat, id: Ident)
    requires n < |frames| && forall k :: 0 <= k <= n ==> OwnIds(frames[k])
    ensures var w := After(frames, n);
            Unrepeated(w.ghosts) && GhostIds(w.ghosts) == w.ghostTtl.Keys
            && (id in GhostIds(w.ghosts)
                <==> id !in Seen(frames[n]) && exists j :: 0 <= j < n && n - 3 <= j && id in Seen(frames[j]))
            && (forall g :: g in w.ghosts && g.id == id ==>
                  exists j :: 0 <= j < n && Row(frames[j], g) && forall i :: j < i <= n ==> id !in Seen(frames[i]))
  {
    GhostsAreKept(frames, n);
    var w := After(frames, n);
    hide Seen, OwnIds, GhostIds, Unrepeated, After, Row;
    LastSeenIsTheLatest(frames, n, id, HOLD_FRAMES);
    assert TtlIs(LastSeen(frames, n, id, HOLD_FRAMES), w.ghostTtl, id);
    hide LastSeen;
    forall g | g in w.ghosts && g.id == id
      ensures exists j :: 0 <= j < n && Row(frames[j], g) && forall i :: j < i <= n ==> id !in Seen(frames[i])
    {
      assert RowOf(frames, LastSeen(frames, n, id, HOLD_FRAMES), g);
    }
  }
}
