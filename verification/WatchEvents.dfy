/** What --watch highlights, over the fields of the pairs that the frames list (render_table.cpp). */
module WatchEvents {
  import opened Model
  import opened Snapshot
  import opened OrderedPairs
  import opened SnapshotDiff
  import opened Watching
  import opened WatchHistory
  import opened C = ChangedPairs
  import G = WatchGhosts

  ghost predicate IsOf(l: Listed, id: Ident) {
    l.t.displayTopic == id.topic && l.p.writer.guid == id.writer && l.p.reader.guid == id.reader
  }

  ghost predicate Shows(topics: seq<TopicSummary>, id: Ident) {
    exists k :: 0 <= k < |Listing(topics)| && IsOf(Listing(topics)[k], id)
  }

  /** The last of the frame's pairs on that topic between these GUIDs. */
  ghost predicate LastShown(ls: seq<Listed>, id: Ident, k: int) {
    0 <= k < |ls| && IsOf(ls[k], id) && forall l :: k < l < |ls| ==> !IsOf(ls[l], id)
  }

  lemma IsOfIff(l: Listed, id: Ident)
    ensures At(l, ByGuid).ident == id <==> IsOf(l, id)
  {
  }

  lemma SeenIff(topics: seq<TopicSummary>, id: Ident)
    ensures id in Seen(topics) <==> Shows(topics, id)
  {
    KeyedIsPutAll(topics, ByGuid);
    IdentsOfListing(Listing(topics), ByGuid);
    hide Keyed, PutAll, Listing, At, IsOf, IdentsOf;
    forall l: Listed
      ensures At(l, ByGuid).ident == id <==> IsOf(l, id)
    {
      IsOfIff(l, id);
    }
  }

  lemma LastIsLast(ls: seq<Listed>, id: Ident, k: int)
    requires LastShown(ls, id, k)
    ensures Last(ls, ByGuid, k)
  {
  }

  /** The state of a frame's pair is that of the last listed. */
  lemma SeenIs(topics: seq<TopicSummary>, id: Ident, k: int)
    requires LastShown(Listing(topics), id, k)
    ensures id in Seen(topics) && Seen(topics)[id] == StateOf(Listing(topics)[k].p)
  {
    var ls, e := Listing(topics), At(Listing(topics)[k], ByGuid);
    LastIsLast(ls, id, k);
    IsHeld(ls, ByGuid, k);
    MapHoldsTheLast(ls, ByGuid);
    KeyedIsPutAll(topics, ByGuid);
    hide PutAll, Keyed, Listing, C.Held, Last, Ordered;
    assert e in Keyed(topics, ByGuid) && e.ident == id && e.state == StateOf(ls[k].p);
    FindOrdered(Keyed(topics, ByGuid), e);
  }

  lemma {:induction false} SomeLast(ls: seq<Listed>, id: Ident)
    requires exists k :: 0 <= k < |ls| && IsOf(ls[k], id)
    ensures exists k :: LastShown(ls, id, k)
  {
    hide IsOf;
    var n := |ls| - 1;
    if IsOf(ls[n], id) {
      assert LastShown(ls, id, n);
    } else {
      var k :| 0 <= k < |ls| && IsOf(ls[k], id);
      assert IsOf(ls[..n][k], id);
      SomeLast(ls[..n], id);
      var l :| LastShown(ls[..n], id, l);
      assert forall m :: 0 <= m < n ==> ls[..n][m] == ls[m];
      assert LastShown(ls, id, l);
    }
  }

  /** The two frames show the pair, and its last listed forms differ in what a comparison looks at. */
  ghost predicate Changes(before: seq<Listed>, after: seq<Listed>, id: Ident) {
    exists k, l :: LastShown(before, id, k) && LastShown(after, id, l) && !LooksSame(before[k].p, after[l].p, ByGuid)
  }

  lemma ChangesIff(before: seq<TopicSummary>, after: seq<TopicSummary>, id: Ident)
    requires Shows(before, id) && Shows(after, id)
    ensures id in Seen(before) && id in Seen(after)
    ensures Seen(before)[id] != Seen(after)[id] <==> Changes(Listing(before), Listing(after), id)
  {
    var ls, ms := Listing(before), Listing(after);
    SomeLast(ls, id);
    SomeLast(ms, id);
    hide IsOf, Listing, Seen, LooksSame, StateOf;
    var k :| LastShown(ls, id, k);
    var l :| LastShown(ms, id, l);
    SeenIs(before, id, k);
    SeenIs(after, id, l);
    SameStateIff(ls[k].p, ms[l].p, ByGuid);
    if Changes(ls, ms, id) {
      var i, j :| LastShown(ls, id, i) && LastShown(ms, id, j) && !LooksSame(ls[i].p, ms[j].p, ByGuid);
      assert i == k && j == l;
    }
  }

  /** Plus: the pair appeared since the frame before. Tilde: it was there and looks different. */
  lemma EventIff(frames: seq<seq<TopicSummary>>, n: nat, id: Ident)
    requires n < |frames|
    ensures Event(frames, n, id) == Some(Plus) <==> n > 0 && Shows(frames[n], id) && !Shows(frames[n - 1], id)
    ensures Event(frames, n, id) == Some(Tilde) <==> n > 0 && Changes(Listing(frames[n - 1]), Listing(frames[n]), id)
  {
    SeenIff(frames[n], id);
    if n > 0 {
      SeenIff(frames[n - 1], id);
      hide Seen, Listing, Shows, IsOf, LooksSame;
      if Shows(frames[n - 1], id) && Shows(frames[n], id) {
        ChangesIff(frames[n - 1], frames[n], id);
      } else {
        NoChange(frames[n - 1], frames[n], id);
      }
    }
  }

  lemma NoChange(before: seq<TopicSummary>, after: seq<TopicSummary>, id: Ident)
    requires !Shows(before, id) || !Shows(after, id)
    ensures !Changes(Listing(before), Listing(after), id)
  {
    hide IsOf, Listing;
  }

  // ---- ghosts

  /** The frame lists the pair, and under that type. */
  ghost predicate WasListed(topics: seq<TopicSummary>, g: Ghost) {
    exists k :: 0 <= k < |Listing(topics)| && IsOf(Listing(topics)[k], g.id)
                && g.pair == Listing(topics)[k].p && g.displayType == Listing(topics)[k].t.displayType
  }

  lemma {:induction false} InListing(topics: seq<TopicSummary>, t: TopicSummary, p: Pair)
    requires t in topics && p in t.pairs
    ensures Listed(t, p) in Listing(topics)
  {
    var init, last := topics[..|topics| - 1], topics[|topics| - 1];
    if t == last {
      var i :| 0 <= i < |t.pairs| && t.pairs[i] == p;
      assert FirstPairs(t, |t.pairs|)[i] == Listed(t, p);
    } else {
      assert topics == init + [last];
      InListing(init, t, p);
    }
  }

  lemma RowWasListed(topics: seq<TopicSummary>, g: Ghost)
    requires G.Row(topics, g)
    ensures WasListed(topics, g)
  {
    var t, p :| t in topics && p in t.pairs && g == GhostOf(t, p);
    InListing(topics, t, p);
    var k :| 0 <= k < |Listing(topics)| && Listing(topics)[k] == Listed(t, p);
    assert IsOf(Listing(topics)[k], g.id);
  }

  /** The ghosts are the pairs gone within the last three frames, each as the last frame to have it listed it. */
  lemma GhostsWereListed(frames: seq<seq<TopicSummary>>, n: nat, id: Ident)
    requires n < |frames| && forall k :: 0 <= k <= n ==> G.OwnIds(frames[k])
    ensures var gone := After(frames, n).ghosts;
            ((exists g :: g in gone && g.id == id)
             <==> !Shows(frames[n], id) && exists j :: 0 <= j < n && n - 3 <= j && Shows(frames[j], id))
            && (forall g :: g in gone && g.id == id ==>
                  exists j :: 0 <= j < n && WasListed(frames[j], g) && forall i :: j < i <= n ==> !Shows(frames[i], id))
  {
    G.GhostsAreExact(frames, n, id);
    hide Seen, G.OwnIds, After, G.Row, Shows, WasListed, G.Unrepeated;
    var gone := After(frames, n).ghosts;
    assert id in GhostIds(gone) <==> exists g :: g in gone && g.id == id;
    forall i | 0 <= i <= n
      ensures id in Seen(frames[i]) <==> Shows(frames[i], id)
    {
      SeenIff(frames[i], id);
    }
    forall g | g in gone && g.id == id
      ensures exists j :: 0 <= j < n && WasListed(frames[j], g) && forall i :: j < i <= n ==> !Shows(frames[i], id)
    {
      var j :| 0 <= j < n && G.Row(frames[j], g) && forall i :: j < i <= n ==> id !in Seen(frames[i]);
      RowWasListed(frames[j], g);
    }
  }
}
