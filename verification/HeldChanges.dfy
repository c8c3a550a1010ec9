/** The marks and ghosts the viewer holds on a live stream (web/model.js), against those of --watch. */
module HeldChanges {
  import opened Model
  import opened Snapshot
  import opened SnapshotDiff
  import opened Watching
  import opened WatchHistory
  import G = WatchGhosts

  /** The hold state, keyed by pair; the viewer has the key text in its place (KeyTexts). */
  datatype Hold = Hold(marks: map<Ident, Held>, ghosts: map<Ident, int>)

  const NOTHING := Hold(map[], map[])

  function MarksOf(c: Changes): map<Ident, Mark> {
    SetAll(SetAll(map[], IdsOf(c.added), Plus), ChangedIds(c.changed), Tilde)
  }

  function AgedMarks(marks: map<Ident, Held>): map<Ident, Held> {
    map id | id in marks && marks[id].Held? && marks[id].ttl > 1 :: Held(marks[id].mark, marks[id].ttl - 1)
  }

  /** A frame's changes on top of what is held. */
  function HeldAfter(prev: Hold, c: Changes): Hold {
    var now, gone := MarksOf(c), IdsOf(c.removed);
    Hold((AgedMarks(prev.marks) + map id | id in now :: Held(now[id], HOLD_FRAMES)) - gone,
         SetAll(Aged(prev.ghosts) - now.Keys, gone, HOLD_FRAMES))
  }

  method AgeMarks(held: map<Ident, Held>) returns (marks: map<Ident, Held>)
    ensures marks == AgedMarks(held)
  {
    marks := map[];
    var rest := held.Keys;
    while rest != {}
      invariant rest <= held.Keys
      invariant forall id :: id in marks <==> id in AgedMarks(held) && id !in rest
      invariant forall id :: id in marks ==> marks[id] == AgedMarks(held)[id]
      decreases rest
    {
      var id :| id in rest;
      rest := rest - {id};
      if held[id].Held? && held[id].ttl > 1 {
        marks := marks[id := Held(held[id].mark, held[id].ttl - 1)];
      }
    }
  }

  method AgeGhosts(held: map<Ident, int>) returns (ghosts: map<Ident, int>)
    ensures ghosts == Aged(held)
  {
    ghosts := map[];
    var rest := held.Keys;
    while rest != {}
      invariant rest <= held.Keys
      invariant forall id :: id in ghosts <==> id in Aged(held) && id !in rest
      invariant forall id :: id in ghosts ==> ghosts[id] == Aged(held)[id]
      decreases rest
    {
      var id :| id in rest;
      rest := rest - {id};
      if held[id] > 1 {
        ghosts := ghosts[id := held[id] - 1];
      }
    }
  }

  /** decorations(): the marks and the removed pairs of a `changes` object. */
  method Decorations(c: Changes) returns (marks: map<Ident, Mark>)
    ensures marks == MarksOf(c)
  {
    marks := map[];
    SetNone(marks, Plus);
    assert IdsOf(c.added[..0]) == {} && ChangedIds(c.changed[..0]) == {};
    hide SetAll, IdsOf, ChangedIds;
    for i := 0 to |c.added|
      invariant marks == SetAll(map[], IdsOf(c.added[..i]), Plus)
    {
      var id := c.added[i].Id();
      IdsSnoc(c.added, i);
      SetOneMore(map[], IdsOf(c.added[..i]), id, Plus);
      marks := marks[id := Plus];
    }
    assert c.added[..|c.added|] == c.added;
    ghost var first := marks;
    SetNone(first, Tilde);
    for i := 0 to |c.changed|
      invariant marks == SetAll(first, ChangedIds(c.changed[..i]), Tilde)
    {
      var id := c.changed[i].key.Id();
      ChangedSnoc(c.changed, i);
      SetOneMore(first, ChangedIds(c.changed[..i]), id, Tilde);
      marks := marks[id := Tilde];
    }
    assert c.changed[..|c.changed|] == c.changed;
  }

  method HoldChanges(prev: Option<Hold>, c: Changes) returns (h: Hold)
    ensures h == HeldAfter(if prev.Some? then prev.value else NOTHING, c)
  {
    ghost var before := if prev.Some? then prev.value else NOTHING;
    var marks: map<Ident, Held>, ghosts: map<Ident, int> := map[], map[];
    if prev.Some? {
      marks := AgeMarks(prev.value.marks);
      ghosts := AgeGhosts(prev.value.ghosts);
    }
    assert marks == AgedMarks(before.marks) && ghosts == Aged(before.ghosts);
    var now := Decorations(c);
    marks, ghosts := PutMarks(marks, ghosts, now);
    marks, ghosts := PutGhosts(marks, ghosts, c.removed);
    h := Hold(marks, ghosts);
  }

  method PutMarks(marks: map<Ident, Held>, ghosts: map<Ident, int>, now: map<Ident, Mark>)
    returns (marks': map<Ident, Held>, ghosts': map<Ident, int>)
    ensures marks' == marks + (map id | id in now :: Held(now[id], HOLD_FRAMES)) && ghosts' == ghosts - now.Keys
  {
    marks', ghosts' := marks, ghosts;
    var rest := now.Keys;
    while rest != {}
      invariant rest <= now.Keys
      invariant marks' == marks + (map id | id in now && id !in rest :: Held(now[id], HOLD_FRAMES))
      invariant ghosts' == ghosts - (now.Keys - rest)
      decreases rest
    {
      var id :| id in rest;
      rest := rest - {id};
      marks', ghosts' := marks'[id := Held(now[id], HOLD_FRAMES)], ghosts' - {id};
    }
  }

  lemma SubtractOneMore(m: map<Ident, Held>, ids: set<Ident>, id: Ident)
    ensures m - (ids + {id}) == (m - ids) - {id}
  {
  }

  lemma SubtractNone(m: map<Ident, Held>)
    ensures m - {} == m
  {
  }

  method PutGhosts(marks: map<Ident, Held>, ghosts: map<Ident, int>, removed: seq<PairKey>)
    returns (marks': map<Ident, Held>, ghosts': map<Ident, int>)
    ensures marks' == marks - IdsOf(removed) && ghosts' == SetAll(ghosts, IdsOf(removed), HOLD_FRAMES)
  {
    marks', ghosts' := marks, ghosts;
    SetNone(ghosts, HOLD_FRAMES);
    assert IdsOf(removed[..0]) == {};
    SubtractNone(marks);
    hide SetAll, IdsOf;
    for i := 0 to |removed|
      invariant marks' == marks - IdsOf(removed[..i]) && ghosts' == SetAll(ghosts, IdsOf(removed[..i]), HOLD_FRAMES)
    {
      var id := removed[i].Id();
      IdsSnoc(removed, i);
      SetOneMore(ghosts, IdsOf(removed[..i]), id, HOLD_FRAMES);
      SubtractOneMore(marks, IdsOf(removed[..i]), id);
      marks', ghosts' := marks' - {id}, ghosts'[id := HOLD_FRAMES];
    }
    assert removed[..|removed|] == removed;
  }

  // ---- the viewer on the stream of --watch --json

  /** What the viewer holds after frame n, given the changes the tool wrote into every frame. */
  function HeldAt(frames: seq<seq<TopicSummary>>, n: nat): Hold
    requires n < |frames|
  {
    var c := if n == 0 then ChangesFrom(INITIAL, Keyed(frames[0], ByGuid))
             else ChangesFrom(After(frames, n - 1), Keyed(frames[n], ByGuid));
    HeldAfter(if n == 0 then NOTHING else HeldAt(frames, n - 1), c)
  }

  function MarkHeld(marks: map<Ident, Held>, id: Ident): Held {
    if id in marks then marks[id] else NotHeld
  }

  /** The mark the viewer holds is the tool's mark, where the pair is present. */
  ghost predicate MarkAgrees(w: Watch, h: Hold, present: set<Ident>, id: Ident)
    requires w.marks.Keys == w.markTtl.Keys
  {
    (id in h.marks ==> h.marks[id].Held?)
    && MarkHeld(h.marks, id) == if id in present then MarkOf(w.marks, w.markTtl, id) else NotHeld
  }

  /** The same ghosts, none of them present, and the same marks on the pairs that are present. */
  ghost predicate Agree(w: Watch, h: Hold, present: set<Ident>) {
    w.marks.Keys == w.markTtl.Keys && h.ghosts == w.ghostTtl && h.ghosts.Keys !! present
    && forall id :: MarkAgrees(w, h, present, id)
  }

  lemma NothingWatched(w: Watch, c: Changes)
    requires w == INITIAL && c == NO_CHANGES
    ensures Compared(w, c).marks.Keys == {} == Compared(w, c).markTtl.Keys && Compared(w, c).ghostTtl.Keys == {}
  {
    assert IdsOf(c.added) == {} && ChangedIds(c.changed) == {};
    NoGhosts(w.lastTopics, w.ghostTtl);
    assert MarkedTtl(w.markTtl, c).Keys == {};
    hide MarkedTtl, HauntedTtl, Haunted;
    SameKeys(w.marks, w.markTtl, c);
  }

  lemma NothingHeld(h: Hold, c: Changes)
    requires h == NOTHING && c == NO_CHANGES
    ensures HeldAfter(h, c).marks.Keys == {} && HeldAfter(h, c).ghosts.Keys == {}
  {
    assert IdsOf(c.added) == {} && IdsOf(c.removed) == {} && ChangedIds(c.changed) == {};
    assert MarksOf(c).Keys == {};
  }

  lemma NothingYet(w: Watch, h: Hold, present: set<Ident>)
    requires w.marks.Keys == {} == w.markTtl.Keys && w.ghostTtl.Keys == {} && h.marks.Keys == {} && h.ghosts.Keys == {}
    ensures Agree(w, h, present)
  {
    assert h.ghosts == w.ghostTtl;
  }

  lemma GhostsAgree(w: Watch, ghosts: map<Ident, int>, c: Changes, p: map<Ident, PairState>, q: map<Ident, PairState>)
    requires ChangesAre(c, p, q) && ghosts == w.ghostTtl && ghosts.Keys !! p.Keys
    requires GhostIds(NewGhosts(w.lastTopics, IdsOf(c.removed))) == IdsOf(c.removed)
    ensures var ghosts' := SetAll(Aged(ghosts) - MarksOf(c).Keys, IdsOf(c.removed), HOLD_FRAMES);
            ghosts' == Compared(w, c).ghostTtl && ghosts'.Keys !! q.Keys
  {
    hide IdsOf, ChangedIds, NewGhosts, GhostIds, Marked, MarkedTtl, Haunted;
    MarkKeys(c);
    hide MarksOf;
    SetApart(Aged(ghosts), IdsOf(c.added), ChangedIds(c.changed), IdsOf(c.removed));
  }

  lemma MarkKeys(c: Changes)
    ensures MarksOf(c).Keys == IdsOf(c.added) + ChangedIds(c.changed)
  {
    hide IdsOf, ChangedIds;
  }

  lemma SetApart(m: map<Ident, int>, added: set<Ident>, changed: set<Ident>, removed: set<Ident>)
    requires added !! removed && m.Keys !! changed
    ensures SetAll(m - (added + changed), removed, HOLD_FRAMES) == SetAll(m, removed, HOLD_FRAMES) - added
    ensures SetAll(m - (added + changed), removed, HOLD_FRAMES).Keys == m.Keys - added + removed
  {
    assert m - (added + changed) == m - added;
  }

  /** What a frame does to the mark the viewer holds for one pair. */
  lemma HeldMarkMoves(h: Hold, c: Changes, p: map<Ident, PairState>, q: map<Ident, PairState>, id: Ident)
    requires ChangesAre(c, p, q) && (id in h.marks ==> h.marks[id].Held?)
    ensures MarkHeld(HeldAfter(h, c).marks, id)
         == if id in p.Keys - q.Keys then NotHeld
            else if EventOf(p, q, id).Some? then Held(EventOf(p, q, id).value, HOLD_FRAMES)
            else if id in h.marks && h.marks[id].ttl > 1 then Held(h.marks[id].mark, h.marks[id].ttl - 1)
            else NotHeld
  {
    hide IdsOf, ChangedIds;
  }

  lemma MarksAgree(w: Watch, h: Hold, c: Changes, p: map<Ident, PairState>, q: map<Ident, PairState>, id: Ident)
    requires ChangesAre(c, p, q) && w.marks.Keys == w.markTtl.Keys && MarkAgrees(w, h, p.Keys, id)
    ensures Compared(w, c).marks.Keys == Compared(w, c).markTtl.Keys
    ensures MarkAgrees(Compared(w, c), HeldAfter(h, c), q.Keys, id)
  {
    SameKeys(w.marks, w.markTtl, c);
    assert id in HeldAfter(h, c).marks ==> HeldAfter(h, c).marks[id].Held?;
    HeldMarkMoves(h, c, p, q, id);
    MarkStep(w.marks, w.markTtl, c, p, q, id);
    hide IdsOf, ChangedIds, HauntedTtl, Haunted, Marked, MarkedTtl, HeldAfter;
  }

  lemma AgreeStep(before: seq<TopicSummary>, after: seq<TopicSummary>, w: Watch, h: Hold, c: Changes)
    requires ChangesAre(c, Seen(before), Seen(after)) && Agree(w, h, Seen(before).Keys) && w.lastTopics == before
    ensures Agree(Compared(w, c), HeldAfter(h, c), Seen(after).Keys)
  {
    G.RemovedRows(c, before, after);
    GhostsAgree(w, h.ghosts, c, Seen(before), Seen(after));
    hide Seen, ChangesAre, Marked, MarkedTtl, Haunted, HauntedTtl, MarksOf, SetAll, Aged, AgedMarks, MarkAgrees;
    SameKeys(w.marks, w.markTtl, c);
    forall id
      ensures MarkAgrees(Compared(w, c), HeldAfter(h, c), Seen(after).Keys, id)
    {
      MarksAgree(w, h, c, Seen(before), Seen(after), id);
    }
  }

  /** Keeping the frame changes neither marks nor ghosts. */
  lemma StillAgree(w: Watch, w': Watch, h: Hold, present: set<Ident>)
    requires Agree(w, h, present)
    requires w'.marks == w.marks && w'.markTtl == w.markTtl && w'.ghostTtl == w.ghostTtl
    ensures Agree(w', h, present)
  {
    assert forall id :: MarkAgrees(w', h, present, id) <==> MarkAgrees(w, h, present, id);
  }

  /**
   * At every frame of a stream the viewer holds the ghosts of --watch, and on the pairs present
   * in the frame its marks, with the same time left; no ghost is a present pair.
   */
  lemma {:induction false} ViewerHoldsTheSame(frames: seq<seq<TopicSummary>>, n: nat)
    requires n < |frames|
    ensures Agree(After(frames, n), HeldAt(frames, n), Seen(frames[n]).Keys)
  {
    hide Keyed, Seen, DiffOf, ChangesAre, HeldAfter, MarkedTtl, Marked, HauntedTtl, Haunted, Agree;
    if n == 0 {
      NothingWatched(INITIAL, NO_CHANGES);
      NothingHeld(NOTHING, NO_CHANGES);
      NothingYet(Compared(INITIAL, NO_CHANGES), HeldAfter(NOTHING, NO_CHANGES), Seen(frames[0]).Keys);
      StillAgree(Compared(INITIAL, NO_CHANGES), After(frames, 0), HeldAt(frames, 0), Seen(frames[0]).Keys);
    } else {
      ViewerHoldsTheSame(frames, n - 1);
      Kept(frames, n - 1);
      ChangeSets(frames[n - 1], frames[n]);
      var w := After(frames, n - 1);
      var c := ChangesFrom(w, Keyed(frames[n], ByGuid));
      AgreeStep(frames[n - 1], frames[n], w, HeldAt(frames, n - 1), c);
      StillAgree(Compared(w, c), After(frames, n), HeldAt(frames, n), Seen(frames[n]).Keys);
    }
  }
}
