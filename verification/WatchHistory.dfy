/** What --watch highlights over a whole run: marks and ghosts as a function of the last frames. */
module WatchHistory {
  import opened Model
  import opened Snapshot
  import opened OrderedPairs
  import opened SnapshotDiff
  import opened Watching
  import L = DiffLaws

  // ---- what the frames showed

  function StateIn(es: seq<Entry>, id: Ident): PairState
    requires id in IdentsOf(es)
  {
    L.FindSome(es, id);
    Find(es, id).value.state
  }

  /** The pairs of a frame and their states. */
  function Seen(topics: seq<TopicSummary>): map<Ident, PairState> {
    var es := Keyed(topics, ByGuid);
    map id | id in IdentsOf(es) :: StateIn(es, id)
  }

  /** What happened to a pair that is present at frame n: it appeared, or its state changed. */
  function Event(frames: seq<seq<TopicSummary>>, n: nat, id: Ident): Option<Mark>
    requires n < |frames|
  {
    if n == 0 || id !in Seen(frames[n]) then None
    else if id !in Seen(frames[n - 1]) then Some(Plus)
    else if Seen(frames[n - 1])[id] != Seen(frames[n])[id] then Some(Tilde)
    else None
  }

  datatype Held = NotHeld | Held(mark: Mark, ttl: int)

  datatype Trace = Forgotten | Gone(ttl: int, at: nat)

  /** The latest event of the last `hold` frames, and for how many frames it still shows. */
  function HeldMark(frames: seq<seq<TopicSummary>>, n: nat, id: Ident, hold: nat): Held
    requires n < |frames|
  {
    if hold == 0 || n == 0 then NotHeld
    else if Event(frames, n, id).Some? then Held(Event(frames, n, id).value, hold)
    else HeldMark(frames, n - 1, id, hold - 1)
  }

  /** The frame that last had a pair now absent, if one of the `hold` frames before did, and the time left. */
  function LastSeen(frames: seq<seq<TopicSummary>>, n: nat, id: Ident, hold: nat): Trace
    requires n < |frames|
  {
    if hold == 0 || n == 0 || id in Seen(frames[n]) then Forgotten
    else if id in Seen(frames[n - 1]) then Gone(hold, n - 1)
    else LastSeen(frames, n - 1, id, hold - 1)
  }

  ghost predicate NoEvents(frames: seq<seq<TopicSummary>>, lo: int, hi: nat, id: Ident)
    requires hi < |frames|
  {
    forall j :: 0 <= j <= hi && lo < j ==> Event(frames, j, id) == None
  }

  /** What is held is the event of some frame of the last `hold`, with none after it; or there was none. */
  ghost predicate LatestEvent(frames: seq<seq<TopicSummary>>, n: nat, id: Ident, hold: nat, held: Held)
    requires n < |frames|
  {
    match held
    case Held(m, ttl) =>
      1 <= ttl <= hold && 1 <= n - (hold - ttl)
      && Event(frames, n - (hold - ttl), id) == Some(m) && NoEvents(frames, n - (hold - ttl), n, id)
    case NotHeld => NoEvents(frames, n - hold, n, id)
  }

  lemma {:induction false} HeldMarkIsTheLatest(frames: seq<seq<TopicSummary>>, n: nat, id: Ident, hold: nat)
    requires n < |frames|
    ensures LatestEvent(frames, n, id, hold, HeldMark(frames, n, id, hold))
  {
    hide Event, NoEvents;
    if hold == 0 || n == 0 {
      NoEventsYet(frames, n, n - hold, id);
    } else if Event(frames, n, id).Some? {
      NoEventsYet(frames, n, n, id);
    } else {
      HeldMarkIsTheLatest(frames, n - 1, id, hold - 1);
      var held := HeldMark(frames, n - 1, id, hold - 1);
      MoreNoEvents(frames, if held.Held? then n - (hold - held.ttl) else n - hold, n, id);
    }
  }

  lemma NoEventsYet(frames: seq<seq<TopicSummary>>, n: nat, lo: int, id: Ident)
    requires n < |frames| && (n == 0 || n <= lo)
    ensures NoEvents(frames, lo, n, id)
  {
    assert Event(frames, 0, id) == None;
  }

  lemma MoreNoEvents(frames: seq<seq<TopicSummary>>, lo: int, n: nat, id: Ident)
    requires 0 < n < |frames| && Event(frames, n, id).None? && NoEvents(frames, lo, n - 1, id)
    ensures NoEvents(frames, lo, n, id)
  {
    hide Event;
  }

  lemma {:induction false} LastSeenIsTheLatest(frames: seq<seq<TopicSummary>>, n: nat, id: Ident, hold: nat)
    requires n < |frames|
    ensures match LastSeen(frames, n, id, hold)
            case Gone(ttl, j) =>
              1 <= ttl <= hold && j == n - 1 - (hold - ttl) && id in Seen(frames[j])
              && forall i :: j < i <= n ==> id !in Seen(frames[i])
            case Forgotten => id in Seen(frames[n]) || forall j :: 0 <= j < n && n - hold <= j ==> id !in Seen(frames[j])
  {
    hide Seen;
    if hold > 0 && n > 0 && id !in Seen(frames[n]) && id !in Seen(frames[n - 1]) {
      LastSeenIsTheLatest(frames, n - 1, id, hold - 1);
    }
  }

  /** A frame later everything held has one frame less to go. */
  lemma {:induction false} HeldMarkAges(frames: seq<seq<TopicSummary>>, n: nat, id: Ident, hold: nat)
    requires n < |frames| && hold > 0
    ensures HeldMark(frames, n, id, hold - 1)
         == match HeldMark(frames, n, id, hold)
            case Held(m, ttl) => if ttl > 1 then Held(m, ttl - 1) else NotHeld
            case NotHeld => NotHeld
  {
    hide Event;
    if n > 0 && hold > 1 && Event(frames, n, id).None? {
      HeldMarkAges(frames, n - 1, id, hold - 1);
    } else if n > 0 && hold == 1 && Event(frames, n, id).None? {
      assert HeldMark(frames, n - 1, id, 0) == NotHeld;
    }
  }

  lemma {:induction false} LastSeenAges(frames: seq<seq<TopicSummary>>, n: nat, id: Ident, hold: nat)
    requires n < |frames| && hold > 0
    ensures LastSeen(frames, n, id, hold - 1)
         == match LastSeen(frames, n, id, hold)
            case Gone(ttl, j) => if ttl > 1 then Gone(ttl - 1, j) else Forgotten
            case Forgotten => Forgotten
  {
    hide Seen;
    if n > 0 && hold > 1 && id !in Seen(frames[n]) && id !in Seen(frames[n - 1]) {
      LastSeenAges(frames, n - 1, id, hold - 1);
    } else if n > 0 && hold == 1 && id !in Seen(frames[n]) && id !in Seen(frames[n - 1]) {
      assert LastSeen(frames, n - 1, id, 0) == Forgotten;
    }
  }

  // ---- the changes of a frame as sets of pairs

  ghost predicate ListsFirst(t: TopicSummary, n: nat, id: Ident)
    requires n <= |t.pairs|
  {
    exists i :: 0 <= i < n && KeyOf(t, t.pairs[i]).Id() == id
  }

  ghost predicate KeyedByGuid(es: seq<Entry>) {
    Ordered(es) && forall e :: e in es ==> e.key.Id() == e.ident
  }

  lemma PutKeyed(es: seq<Entry>, e: Entry)
    requires KeyedByGuid(es) && e.key.Id() == e.ident
    ensures KeyedByGuid(Put(es, e)) && IdentsOf(Put(es, e)) == IdentsOf(es) + {e.ident}
  {
    PutMember(es, e);
    PutIdents(es, e);
    hide Put, Ordered, IdentsOf;
  }

  lemma {:induction false} PutPairsIds(es: seq<Entry>, t: TopicSummary, n: nat)
    requires n <= |t.pairs| && KeyedByGuid(es)
    ensures KeyedByGuid(PutPairs(es, t, ByGuid, n))
    ensures forall id :: id in IdentsOf(PutPairs(es, t, ByGuid, n)) <==> id in IdentsOf(es) || ListsFirst(t, n, id)
  {
    hide KeyedByGuid, IdentsOf, Put, StateOf;
    if n > 0 {
      PutPairsIds(es, t, n - 1);
      PutKeyed(PutPairs(es, t, ByGuid, n - 1), EntryOf(t, t.pairs[n - 1], ByGuid));
      hide KeyOf;
      assert forall id :: ListsFirst(t, n, id) <==> ListsFirst(t, n - 1, id) || id == KeyOf(t, t.pairs[n - 1]).Id();
    }
  }

  ghost predicate Lists(topics: seq<TopicSummary>, id: Ident) {
    exists t, p :: t in topics && p in t.pairs && KeyOf(t, p).Id() == id
  }

  /** The GUID-keyed map has a pair exactly when the frame lists it. */
  lemma {:induction false} KeyedLists(topics: seq<TopicSummary>)
    ensures KeyedByGuid(Keyed(topics, ByGuid))
    ensures forall id :: id in IdentsOf(Keyed(topics, ByGuid)) <==> Lists(topics, id)
  {
    if topics != [] {
      var init, t := topics[..|topics| - 1], topics[|topics| - 1];
      assert topics == init + [t];
      KeyedLists(init);
      PutPairsIds(Keyed(init, ByGuid), t, |t.pairs|);
      hide KeyedByGuid, IdentsOf, PutPairs, KeyOf;
      forall id
        ensures id in IdentsOf(Keyed(topics, ByGuid)) <==> Lists(topics, id)
      {
        assert ListsFirst(t, |t.pairs|, id) <==> Lists([t], id);
      }
    }
  }

  lemma AddedIds(prev: seq<Entry>, cur: seq<Entry>)
    requires forall e :: e in cur ==> e.key.Id() == e.ident
    ensures IdsOf(Added(prev, cur)) == IdentsOf(cur) - IdentsOf(prev)
  {
    forall id
      ensures id in IdsOf(Added(prev, cur)) <==> id in IdentsOf(cur) - IdentsOf(prev)
    {
      if id in IdsOf(Added(prev, cur)) {
        var k :| k in Added(prev, cur) && k.Id() == id;
        L.AddedMember(prev, cur, k);
      }
      if id in IdentsOf(cur) - IdentsOf(prev) {
        var e :| e in cur && e.ident == id;
        L.AddedMember(prev, cur, e.key);
      }
    }
  }

  lemma ChangedIdsAre(prev: seq<Entry>, cur: seq<Entry>, id: Ident)
    requires Ordered(prev) && Ordered(cur) && forall e :: e in cur ==> e.key.Id() == e.ident
    ensures id in ChangedIds(Changed(prev, cur, ByGuid))
       <==> id in IdentsOf(prev) && id in IdentsOf(cur) && StateIn(prev, id) != StateIn(cur, id)
  {
    if id in ChangedIds(Changed(prev, cur, ByGuid)) {
      var c :| c in Changed(prev, cur, ByGuid) && c.key.Id() == id;
      L.ChangedMember(prev, cur, ByGuid, c);
      var p, e :| p in prev && e in cur && p.ident == e.ident && !SameState(p.state, e.state, ByGuid)
                  && c == PairChange(e.key, p.state, e.state, p.key);
      FindOrdered(prev, p);
      FindOrdered(cur, e);
    }
    if id in IdentsOf(prev) && id in IdentsOf(cur) && StateIn(prev, id) != StateIn(cur, id) {
      var p, e :| p in prev && e in cur && p.ident == id && e.ident == id;
      FindOrdered(prev, p);
      FindOrdered(cur, e);
      var c := PairChange(e.key, p.state, e.state, p.key);
      L.ChangedMember(prev, cur, ByGuid, c);
      assert c in Changed(prev, cur, ByGuid) && c.key.Id() == id;
    }
  }

  lemma SeenKeyed(topics: seq<TopicSummary>)
    ensures KeyedByGuid(Keyed(topics, ByGuid)) && Seen(topics).Keys == IdentsOf(Keyed(topics, ByGuid))
    ensures forall id :: id in Seen(topics) ==> Seen(topics)[id] == StateIn(Keyed(topics, ByGuid), id)
  {
    KeyedLists(topics);
    hide Keyed, KeyedByGuid, IdentsOf, StateIn;
  }

  lemma AddedSeen(before: seq<TopicSummary>, after: seq<TopicSummary>)
    ensures IdsOf(Added(Keyed(before, ByGuid), Keyed(after, ByGuid))) == Seen(after).Keys - Seen(before).Keys
  {
    SeenKeyed(before);
    SeenKeyed(after);
    hide Keyed, Seen, Added, IdsOf, IdentsOf, Ordered;
    AddedIds(Keyed(before, ByGuid), Keyed(after, ByGuid));
  }

  lemma ChangedSeen(before: seq<TopicSummary>, after: seq<TopicSummary>, id: Ident)
    ensures id in ChangedIds(Changed(Keyed(before, ByGuid), Keyed(after, ByGuid), ByGuid))
       <==> id in Seen(before) && id in Seen(after) && Seen(before)[id] != Seen(after)[id]
  {
    SeenKeyed(before);
    SeenKeyed(after);
    hide Keyed, Seen, Changed, ChangedIds, IdentsOf, StateIn, Ordered;
    ChangedIdsAre(Keyed(before, ByGuid), Keyed(after, ByGuid), id);
  }

  lemma ChangeSets(before: seq<TopicSummary>, after: seq<TopicSummary>)
    ensures ChangesAre(DiffOf(Keyed(before, ByGuid), Keyed(after, ByGuid), ByGuid), Seen(before), Seen(after))
  {
    hide Keyed, Seen, Added, Changed, IdsOf, ChangedIds;
    AddedSeen(before, after);
    AddedSeen(after, before);
    forall id {
      ChangedSeen(before, after, id);
    }
  }

  // ---- runs

  /** The watch state after frame n was rendered and kept. */
  function After(frames: seq<seq<TopicSummary>>, n: nat): Watch
    requires n < |frames|
  {
    Step(if n == 0 then INITIAL else After(frames, n - 1), frames[n])
  }

  lemma {:induction false} Kept(frames: seq<seq<TopicSummary>>, n: nat)
    requires n < |frames|
    ensures var w := After(frames, n); w.havePrevious && w.last == Keyed(frames[n], ByGuid) && w.lastTopics == frames[n]
  {
  }

  /** What a frame does to the mark of one pair. */
  ghost predicate MarkMoves(before: Held, event: Option<Mark>, after: Held) {
    after == if event.Some? then Held(event.value, HOLD_FRAMES)
             else if before.Held? && before.ttl > 1 then Held(before.mark, before.ttl - 1)
             else NotHeld
  }

  function MarkOf(marks: map<Ident, Mark>, ttl: map<Ident, int>, id: Ident): Held
    requires marks.Keys == ttl.Keys
  {
    if id in marks then Held(marks[id], ttl[id]) else NotHeld
  }

  ghost predicate ChangesAre(c: Changes, p: map<Ident, PairState>, q: map<Ident, PairState>) {
    IdsOf(c.added) == q.Keys - p.Keys && IdsOf(c.removed) == p.Keys - q.Keys
    && forall id :: id in ChangedIds(c.changed) <==> id in p && id in q && p[id] != q[id]
  }

  function EventOf(p: map<Ident, PairState>, q: map<Ident, PairState>, id: Ident): Option<Mark> {
    if id !in q then None else if id !in p then Some(Plus) else if p[id] != q[id] then Some(Tilde) else None
  }

  lemma SameKeys(marks: map<Ident, Mark>, ttl: map<Ident, int>, c: Changes)
    requires marks.Keys == ttl.Keys
    ensures Marked(marks, ttl, c).Keys == MarkedTtl(ttl, c).Keys
  {
  }

  lemma MarkStep(marks: map<Ident, Mark>, ttl: map<Ident, int>, c: Changes,
                 p: map<Ident, PairState>, q: map<Ident, PairState>, id: Ident)
    requires marks.Keys == ttl.Keys && ChangesAre(c, p, q)
    ensures Marked(marks, ttl, c).Keys == MarkedTtl(ttl, c).Keys
    ensures MarkMoves(MarkOf(marks, ttl, id), EventOf(p, q, id), MarkOf(Marked(marks, ttl, c), MarkedTtl(ttl, c), id))
  {
    hide IdsOf, ChangedIds;
    assert Marked(marks, ttl, c).Keys == MarkedTtl(ttl, c).Keys;
  }

  ghost predicate MarksExact(frames: seq<seq<TopicSummary>>, n: nat, marks: map<Ident, Mark>, ttl: map<Ident, int>)
    requires n < |frames|
  {
    marks.Keys == ttl.Keys && forall id :: MarkOf(marks, ttl, id) == HeldMark(frames, n, id, HOLD_FRAMES)
  }

  /** At every frame each pair carries the mark of its latest appearance or change within the last three frames. */
  lemma {:induction false} MarksAreExact(frames: seq<seq<TopicSummary>>, n: nat)
    requires n < |frames|
    ensures MarksExact(frames, n, After(frames, n).marks, After(frames, n).markTtl)
  {
    hide Keyed, Marked, MarkedTtl, HauntedTtl, Haunted, MarksExact, ChangesAre, DiffOf;
    if n == 0 {
      FirstFrameMarksNothing(frames, INITIAL, NO_CHANGES);
    } else {
      MarksAreExact(frames, n - 1);
      Kept(frames, n - 1);
      ChangeSets(frames[n - 1], frames[n]);
      var w := After(frames, n - 1);
      MarksStep(frames, n, w.marks, w.markTtl, ChangesFrom(w, Keyed(frames[n], ByGuid)));
    }
  }

  /**
   * A pair is marked exactly when it appeared or changed within the last three frames, with the
   * mark of the latest such frame, and for as many more frames as are left of three.
   */
  lemma MarkIsTheLatestEvent(frames: seq<seq<TopicSummary>>, n: nat, id: Ident)
    requires n < |frames|
    ensures var w := After(frames, n);
            w.marks.Keys == w.markTtl.Keys && LatestEvent(frames, n, id, 3, MarkOf(w.marks, w.markTtl, id))
  {
    MarksAreExact(frames, n);
    HeldMarkIsTheLatest(frames, n, id, HOLD_FRAMES);
    hide After, LatestEvent, HeldMark, MarkOf;
    assert MarkOf(After(frames, n).marks, After(frames, n).markTtl, id) == HeldMark(frames, n, id, HOLD_FRAMES);
  }

  lemma FirstFrameMarksNothing(frames: seq<seq<TopicSummary>>, w: Watch, c: Changes)
    requires frames != [] && w == INITIAL && c == NO_CHANGES
    ensures MarksExact(frames, 0, Marked(w.marks, w.markTtl, c), MarkedTtl(w.markTtl, c))
  {
    assert IdsOf(c.added) == {} && ChangedIds(c.changed) == {};
  }

  lemma MarksStep(frames: seq<seq<TopicSummary>>, n: nat, marks: map<Ident, Mark>, ttl: map<Ident, int>, c: Changes)
    requires 0 < n < |frames| && MarksExact(frames, n - 1, marks, ttl)
    requires ChangesAre(c, Seen(frames[n - 1]), Seen(frames[n]))
    ensures MarksExact(frames, n, Marked(marks, ttl, c), MarkedTtl(ttl, c))
  {
    SameKeys(marks, ttl, c);
    hide Marked, MarkedTtl, HeldMark, MarkOf, ChangesAre, Seen;
    forall id
      ensures MarkOf(Marked(marks, ttl, c), MarkedTtl(ttl, c), id) == HeldMark(frames, n, id, HOLD_FRAMES)
    {
      MarkStepAt(frames, n, marks, ttl, c, id);
    }
  }

  lemma MarkStepAt(frames: seq<seq<TopicSummary>>, n: nat, marks: map<Ident, Mark>, ttl: map<Ident, int>, c: Changes, id: Ident)
    requires 0 < n < |frames| && marks.Keys == ttl.Keys
    requires MarkOf(marks, ttl, id) == HeldMark(frames, n - 1, id, HOLD_FRAMES)
    requires ChangesAre(c, Seen(frames[n - 1]), Seen(frames[n]))
    ensures Marked(marks, ttl, c).Keys == MarkedTtl(ttl, c).Keys
    ensures MarkOf(Marked(marks, ttl, c), MarkedTtl(ttl, c), id) == HeldMark(frames, n, id, HOLD_FRAMES)
  {
    hide Seen, ChangesAre, MarkOf, Marked, MarkedTtl;
    MarkStep(marks, ttl, c, Seen(frames[n - 1]), Seen(frames[n]), id);
    assert EventOf(Seen(frames[n - 1]), Seen(frames[n]), id) == Event(frames, n, id);
    hide Event, EventOf;
    HeldMarkAges(frames, n - 1, id, HOLD_FRAMES);
  }
}
