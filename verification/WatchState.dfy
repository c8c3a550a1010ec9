/** The highlights of --watch, frame by frame (render_table.cpp, WatchState). */
module Watching {
  import opened Model
  import opened Snapshot
  import opened OrderedPairs
  import opened SnapshotDiff
  import Text

  const HOLD_FRAMES := 3

  datatype Mark = Plus | Tilde

  /** A removed pair, as it was last listed. */
  datatype Ghost = Ghost(id: Ident, displayType: string, pair: Pair)

  const NO_CHANGES := Changes([], [], [])

  /** The fields of a WatchState. */
  datatype Watch = Watch(
    last: seq<Entry>, lastTopics: seq<TopicSummary>, havePrevious: bool,
    markTtl: map<Ident, int>, marks: map<Ident, Mark>, ghostTtl: map<Ident, int>, ghosts: seq<Ghost>)

  const INITIAL := Watch([], [], false, map[], map[], map[], [])

  function IdsOf(keys: seq<PairKey>): set<Ident> {
    set k | k in keys :: k.Id()
  }

  function ChangedIds(changed: seq<PairChange>): set<Ident> {
    set c | c in changed :: c.key.Id()
  }

  function Expired(ttl: map<Ident, int>): set<Ident> {
    set id | id in ttl && ttl[id] <= 1
  }

  function Aged(ttl: map<Ident, int>): map<Ident, int> {
    map id | id in ttl && ttl[id] > 1 :: ttl[id] - 1
  }

  function SetAll<V>(m: map<Ident, V>, ids: set<Ident>, v: V): map<Ident, V> {
    m + map id | id in ids :: v
  }

  /** erase(remove_if(...)) */
  function Without(ghosts: seq<Ghost>, ids: set<Ident>): seq<Ghost> {
    if ghosts == [] then []
    else
      var g := ghosts[|ghosts| - 1];
      Without(ghosts[..|ghosts| - 1], ids) + (if g.id in ids then [] else [g])
  }

  function GhostOf(t: TopicSummary, p: Pair): Ghost {
    Ghost(KeyOf(t, p).Id(), t.displayType, p)
  }

  function TopicGhosts(t: TopicSummary, n: nat, removed: set<Ident>): seq<Ghost>
    requires n <= |t.pairs|
  {
    if n == 0 then []
    else
      var g := GhostOf(t, t.pairs[n - 1]);
      TopicGhosts(t, n - 1, removed) + (if g.id in removed then [g] else [])
  }

  /** The removed pairs as the kept frame listed them. */
  function NewGhosts(topics: seq<TopicSummary>, removed: set<Ident>): seq<Ghost> {
    if topics == [] then []
    else
      var t := topics[|topics| - 1];
      NewGhosts(topics[..|topics| - 1], removed) + TopicGhosts(t, |t.pairs|, removed)
  }

  function GhostIds(ghosts: seq<Ghost>): set<Ident> {
    set g | g in ghosts :: g.id
  }

  /** The changes diff() writes into the frame. */
  function ChangesFrom(w: Watch, current: seq<Entry>): Changes {
    if w.havePrevious then DiffOf(w.last, current, ByGuid) else NO_CHANGES
  }

  function MarkedTtl(ttl: map<Ident, int>, c: Changes): map<Ident, int> {
    SetAll(SetAll(Aged(ttl), IdsOf(c.added), HOLD_FRAMES), ChangedIds(c.changed), HOLD_FRAMES)
  }

  function Marked(marks: map<Ident, Mark>, ttl: map<Ident, int>, c: Changes): map<Ident, Mark> {
    SetAll(SetAll(marks - Expired(ttl), IdsOf(c.added), Plus), ChangedIds(c.changed), Tilde)
  }

  function Haunted(ghosts: seq<Ghost>, ttl: map<Ident, int>, lastTopics: seq<TopicSummary>, c: Changes): seq<Ghost> {
    var left := Without(ghosts, Expired(ttl));
    var gone := IdsOf(c.removed);
    Without(if c.removed == [] then left else Without(left, gone) + NewGhosts(lastTopics, gone), IdsOf(c.added))
  }

  function HauntedTtl(ttl: map<Ident, int>, lastTopics: seq<TopicSummary>, c: Changes): map<Ident, int> {
    SetAll(Aged(ttl), GhostIds(NewGhosts(lastTopics, IdsOf(c.removed))), HOLD_FRAMES) - IdsOf(c.added)
  }

  /** diff() */
  function Compared(w: Watch, c: Changes): Watch {
    w.(markTtl := MarkedTtl(w.markTtl, c), marks := Marked(w.marks, w.markTtl, c),
       ghostTtl := HauntedTtl(w.ghostTtl, w.lastTopics, c), ghosts := Haunted(w.ghosts, w.ghostTtl, w.lastTopics, c))
  }

  /** diff() of a frame, then keep(). */
  function Step(w: Watch, topics: seq<TopicSummary>): Watch {
    var current := Keyed(topics, ByGuid);
    Compared(w, ChangesFrom(w, current)).(last := current, lastTopics := topics, havePrevious := true)
  }

  class WatchState {
    var lastRendered: seq<Entry>
    var lastSnapshot: seq<TopicSummary>
    var havePrevious: bool
    var markTtl: map<Ident, int>
    var ghostTtl: map<Ident, int>
    var marks: map<Ident, Mark>
    var ghosts: seq<Ghost>
    var current: seq<Entry>

    ghost function View(): Watch
      reads this
    {
      Watch(lastRendered, lastSnapshot, havePrevious, markTtl, marks, ghostTtl, ghosts)
    }

    constructor ()
      ensures View() == INITIAL
    {
      lastRendered, lastSnapshot, havePrevious, current := [], [], false, [];
      markTtl, ghostTtl, marks, ghosts := map[], map[], map[], [];
    }

    method AgeMarks()
      modifies `markTtl, `marks
      ensures markTtl == Aged(old(markTtl)) && marks == old(marks) - Expired(old(markTtl))
    {
      ghost var ttl, was := markTtl, marks;
      var rest := markTtl.Keys;
      while rest != {}
        invariant rest <= ttl.Keys
        invariant markTtl.Keys == ttl.Keys - (Expired(ttl) - rest)
        invariant forall id :: id in markTtl ==> markTtl[id] == if id in rest then ttl[id] else ttl[id] - 1
        invariant marks == was - (Expired(ttl) - rest)
        decreases rest
      {
        var id :| id in rest;
        rest := rest - {id};
        var left := markTtl[id] - 1;
        if left <= 0 {
          marks, markTtl := marks - {id}, markTtl - {id};
        } else {
          markTtl := markTtl[id := left];
        }
      }
    }

    method DropGhost(id: Ident)
      modifies `ghosts
      ensures ghosts == Without(old(ghosts), {id})
    {
      ghost var was := ghosts;
      var all, kept := ghosts, [];
      for i := 0 to |all|
        invariant kept == Without(all[..i], {id}) && ghosts == was
      {
        assert all[..i + 1][..i] == all[..i];
        if all[i].id != id {
          kept := kept + [all[i]];
        }
      }
      assert all[..|all|] == all;
      ghosts := kept;
    }

    method AgeGhosts()
      modifies `ghostTtl, `ghosts
      ensures ghostTtl == Aged(old(ghostTtl)) && ghosts == Without(old(ghosts), Expired(old(ghostTtl)))
    {
      ghost var ttl, was := ghostTtl, ghosts;
      var rest := ghostTtl.Keys;
      WithoutNone(was);
      assert Expired(ttl) - rest == {};
      while rest != {}
        invariant rest <= ttl.Keys
        invariant ghostTtl.Keys == ttl.Keys - (Expired(ttl) - rest)
        invariant forall id :: id in ghostTtl ==> ghostTtl[id] == if id in rest then ttl[id] else ttl[id] - 1
        invariant ghosts == Without(was, Expired(ttl) - rest)
        decreases rest
      {
        var id :| id in rest;
        ghost var before := Expired(ttl) - rest;
        rest := rest - {id};
        var left := ghostTtl[id] - 1;
        if left <= 0 {
          DropGhost(id);
          WithoutTwice(was, before, {id});
          assert before + {id} == Expired(ttl) - rest;
          ghostTtl := ghostTtl - {id};
        } else {
          assert before == Expired(ttl) - rest;
          ghostTtl := ghostTtl[id := left];
        }
      }
      assert Expired(ttl) - rest == Expired(ttl);
    }

    method MarkAdded(added: seq<PairKey>)
      modifies `marks, `markTtl
      ensures marks == SetAll(old(marks), IdsOf(added), Plus)
      ensures markTtl == SetAll(old(markTtl), IdsOf(added), HOLD_FRAMES)
    {
      SetNone(marks, Plus);
      SetNone(markTtl, HOLD_FRAMES);
      hide SetAll;
      assert IdsOf(added[..0]) == {};
      hide IdsOf;
      for i := 0 to |added|
        invariant marks == SetAll(old(marks), IdsOf(added[..i]), Plus)
        invariant markTtl == SetAll(old(markTtl), IdsOf(added[..i]), HOLD_FRAMES)
      {
        var id := added[i].Id();
        IdsSnoc(added, i);
        SetOneMore(old(marks), IdsOf(added[..i]), id, Plus);
        SetOneMore(old(markTtl), IdsOf(added[..i]), id, HOLD_FRAMES);
        marks, markTtl := marks[id := Plus], markTtl[id := HOLD_FRAMES];
      }
      assert added[..|added|] == added;
    }

    method MarkChanged(changed: seq<PairChange>)
      modifies `marks, `markTtl
      ensures marks == SetAll(old(marks), ChangedIds(changed), Tilde)
      ensures markTtl == SetAll(old(markTtl), ChangedIds(changed), HOLD_FRAMES)
    {
      SetNone(marks, Tilde);
      SetNone(markTtl, HOLD_FRAMES);
      hide SetAll;
      assert ChangedIds(changed[..0]) == {};
      hide ChangedIds;
      for i := 0 to |changed|
        invariant marks == SetAll(old(marks), ChangedIds(changed[..i]), Tilde)
        invariant markTtl == SetAll(old(markTtl), ChangedIds(changed[..i]), HOLD_FRAMES)
      {
        var id := changed[i].key.Id();
        ChangedSnoc(changed, i);
        SetOneMore(old(marks), ChangedIds(changed[..i]), id, Tilde);
        SetOneMore(old(markTtl), ChangedIds(changed[..i]), id, HOLD_FRAMES);
        marks, markTtl := marks[id := Tilde], markTtl[id := HOLD_FRAMES];
      }
      assert changed[..|changed|] == changed;
    }

    /** A pair of one topic that is gone becomes a ghost. */
    method PushGhosts(t: TopicSummary, gone: set<Ident>)
      modifies `ghosts, `ghostTtl
      ensures ghosts == old(ghosts) + TopicGhosts(t, |t.pairs|, gone)
      ensures ghostTtl == SetAll(old(ghostTtl), GhostIds(TopicGhosts(t, |t.pairs|, gone)), HOLD_FRAMES)
    {
      SetNone(ghostTtl, HOLD_FRAMES);
      hide SetAll;
      assert GhostIds([]) == {};
      for i := 0 to |t.pairs|
        invariant ghosts == old(ghosts) + TopicGhosts(t, i, gone)
        invariant ghostTtl == SetAll(old(ghostTtl), GhostIds(TopicGhosts(t, i, gone)), HOLD_FRAMES)
      {
        var g := GhostOf(t, t.pairs[i]);
        assert g.id !in gone ==> TopicGhosts(t, i + 1, gone) == TopicGhosts(t, i, gone);
        if g.id in gone {
          IdsOneMore(TopicGhosts(t, i, gone), g);
          SetOneMore(old(ghostTtl), GhostIds(TopicGhosts(t, i, gone)), g.id, HOLD_FRAMES);
          ghosts, ghostTtl := ghosts + [g], ghostTtl[g.id := HOLD_FRAMES];
        }
      }
    }

    method PushAllGhosts(gone: set<Ident>)
      modifies `ghosts, `ghostTtl
      ensures ghosts == old(ghosts) + NewGhosts(lastSnapshot, gone)
      ensures ghostTtl == SetAll(old(ghostTtl), GhostIds(NewGhosts(lastSnapshot, gone)), HOLD_FRAMES)
    {
      SetNone(ghostTtl, HOLD_FRAMES);
      assert GhostIds([]) == {};
      assert NewGhosts(lastSnapshot[..0], gone) == [];
      hide *;
      for i := 0 to |lastSnapshot|
        invariant ghosts == old(ghosts) + NewGhosts(lastSnapshot[..i], gone)
        invariant ghostTtl == SetAll(old(ghostTtl), GhostIds(NewGhosts(lastSnapshot[..i], gone)), HOLD_FRAMES)
      {
        var t := lastSnapshot[i];
        NextNewGhosts(lastSnapshot, i, gone);
        SetBoth(old(ghostTtl), NewGhosts(lastSnapshot[..i], gone), TopicGhosts(t, |t.pairs|, gone));
        ghost var before := ghosts;
        PushGhosts(t, gone);
        Text.Joined(old(ghosts), NewGhosts(lastSnapshot[..i], gone), TopicGhosts(t, |t.pairs|, gone));
        assert ghosts == before + TopicGhosts(t, |t.pairs|, gone);
      }
      assert lastSnapshot[..|lastSnapshot|] == lastSnapshot;
    }

    method AddGhosts(removed: seq<PairKey>)
      modifies `ghosts, `ghostTtl
      ensures var gone, rows := IdsOf(removed), NewGhosts(lastSnapshot, IdsOf(removed));
              ghosts == Without(old(ghosts), gone) + rows && ghostTtl == SetAll(old(ghostTtl), GhostIds(rows), HOLD_FRAMES)
    {
      hide SetAll, Without, IdsOf, GhostIds, NewGhosts;
      DropGhosts(removed);
      PushAllGhosts(IdsOf(removed));
    }

    method DropGhosts(keys: seq<PairKey>)
      modifies `ghosts
      ensures ghosts == Without(old(ghosts), IdsOf(keys))
    {
      WithoutNone(ghosts);
      assert IdsOf(keys[..0]) == {};
      hide IdsOf;
      for i := 0 to |keys|
        invariant ghosts == Without(old(ghosts), IdsOf(keys[..i]))
      {
        IdsSnoc(keys, i);
        WithoutTwice(old(ghosts), IdsOf(keys[..i]), {keys[i].Id()});
        DropGhost(keys[i].Id());
      }
      assert keys[..|keys|] == keys;
    }

    method Diff(topics: seq<TopicSummary>) returns (changes: Changes)
      modifies this
      ensures current == Keyed(topics, ByGuid) && changes == ChangesFrom(old(View()), current)
      ensures View() == Compared(old(View()), changes)
    {
      hide Aged, Expired, SetAll, Without, NewGhosts, IdsOf, ChangedIds, GhostIds;
      current := PairStates(topics);
      changes := NO_CHANGES;
      if havePrevious {
        changes := SnapshotDiff.Diff(lastRendered, current, ByGuid);
      }
      AgeMarks();
      AgeGhosts();
      MarkAdded(changes.added);
      MarkChanged(changes.changed);
      NoGhosts(lastSnapshot, ghostTtl);
      if changes.removed != [] {
        AddGhosts(changes.removed);
      }
      DropGhosts(changes.added);
      ghostTtl := ghostTtl - IdsOf(changes.added);
    }

    method Keep(topics: seq<TopicSummary>)
      modifies this
      ensures View() == old(View()).(last := old(current), lastTopics := topics, havePrevious := true)
    {
      lastRendered, lastSnapshot, havePrevious := current, topics, true;
    }

    /** One frame of --watch. */
    method Frame(topics: seq<TopicSummary>) returns (changes: Changes)
      modifies this
      ensures changes == ChangesFrom(old(View()), Keyed(topics, ByGuid)) && View() == Step(old(View()), topics)
    {
      changes := Diff(topics);
      Keep(topics);
    }
  }

  lemma SetNone<V>(m: map<Ident, V>, v: V)
    ensures SetAll(m, {}, v) == m
  {
  }

  lemma SetOneMore<V>(m: map<Ident, V>, ids: set<Ident>, id: Ident, v: V)
    ensures SetAll(m, ids + {id}, v) == SetAll(m, ids, v)[id := v]
  {
  }

  lemma IdsSnoc(keys: seq<PairKey>, i: nat)
    requires i < |keys|
    ensures IdsOf(keys[..i + 1]) == IdsOf(keys[..i]) + {keys[i].Id()}
  {
    assert keys[..i + 1] == keys[..i] + [keys[i]];
  }

  lemma ChangedSnoc(changed: seq<PairChange>, i: nat)
    requires i < |changed|
    ensures ChangedIds(changed[..i + 1]) == ChangedIds(changed[..i]) + {changed[i].key.Id()}
  {
    assert changed[..i + 1] == changed[..i] + [changed[i]];
  }

  lemma IdsOneMore(ghosts: seq<Ghost>, g: Ghost)
    ensures GhostIds(ghosts + [g]) == GhostIds(ghosts) + {g.id}
  {
    assert forall x :: x in ghosts + [g] <==> x in ghosts || x == g;
  }

  lemma NextNewGhosts(topics: seq<TopicSummary>, i: nat, gone: set<Ident>)
    requires i < |topics|
    ensures NewGhosts(topics[..i + 1], gone) == NewGhosts(topics[..i], gone) + TopicGhosts(topics[i], |topics[i].pairs|, gone)
  {
    assert topics[..i + 1][..i] == topics[..i];
  }

  lemma SetBoth(m: map<Ident, int>, a: seq<Ghost>, b: seq<Ghost>)
    ensures SetAll(m, GhostIds(a + b), HOLD_FRAMES) == SetAll(SetAll(m, GhostIds(a), HOLD_FRAMES), GhostIds(b), HOLD_FRAMES)
  {
    assert forall x :: x in a + b <==> x in a || x in b;
    assert GhostIds(a + b) == GhostIds(a) + GhostIds(b);
    hide GhostIds;
    SetUnion(m, GhostIds(a), GhostIds(b), HOLD_FRAMES);
  }

  lemma SetUnion<V>(m: map<Ident, V>, a: set<Ident>, b: set<Ident>, v: V)
    ensures SetAll(m, a + b, v) == SetAll(SetAll(m, a, v), b, v)
  {
  }

  lemma {:induction false} WithoutNone(ghosts: seq<Ghost>)
    ensures Without(ghosts, {}) == ghosts
  {
    if ghosts != [] {
      WithoutNone(ghosts[..|ghosts| - 1]);
    }
  }

  lemma {:induction false} WithoutTwice(ghosts: seq<Ghost>, a: set<Ident>, b: set<Ident>)
    ensures Without(Without(ghosts, a), b) == Without(ghosts, a + b)
  {
    if ghosts != [] {
      var init, g := ghosts[..|ghosts| - 1], ghosts[|ghosts| - 1];
      WithoutTwice(init, a, b);
      if g.id in a {
        assert Without(ghosts, a) == Without(init, a);
      } else {
        var r := Without(init, a) + [g];
        assert r[..|r| - 1] == Without(init, a);
      }
    }
  }

  lemma {:induction false} NoTopicGhosts(t: TopicSummary, n: nat)
    requires n <= |t.pairs|
    ensures TopicGhosts(t, n, {}) == []
  {
    if n > 0 {
      NoTopicGhosts(t, n - 1);
    }
  }

  /** Without a removed pair there is nothing to add. */
  lemma {:induction false} NoGhosts(topics: seq<TopicSummary>, ttl: map<Ident, int>)
    ensures NewGhosts(topics, IdsOf([])) == [] && SetAll(ttl, GhostIds([]), HOLD_FRAMES) == ttl
  {
    assert IdsOf([]) == {};
    if topics != [] {
      NoGhosts(topics[..|topics| - 1], ttl);
      NoTopicGhosts(topics[|topics| - 1], |topics[|topics| - 1].pairs|);
    }
  }
}
