/** What the companion links are: a forest, told by both ends, whatever the endpoint order (decision.cpp). */
module CompanionForest {
  import opened Model
  import opened BufferCompanions

  /** Linking twice changes nothing. */
  lemma LinkingIsIdempotent(es: seq<Endpoint>)
    ensures Linked(Linked(es)) == Linked(es)
  {
    var fs := Linked(es);
    hide Parent;
    assert SameButLinks(es, fs) by {
      hide CompanionsOf;
    }
    forall i | 0 <= i < |es|
      ensures LinkedOne(fs, i, |es|) == LinkedOne(es, i, |es|)
    {
      SameParent(es, fs, i);
      SameCompanions(es, fs, i, |es|);
      assert fs[i] == LinkedOne(es, i, |es|);
      hide CompanionsOf;
    }
    assert Linked(fs) == fs;
  }

  lemma CompanionsSnoc(es: seq<Endpoint>, p: nat, n: nat)
    requires p < |es| && n < |es|
    ensures CompanionsOf(es, p, 0) == []
    ensures CompanionsOf(es, p, n + 1) == CompanionsOf(es, p, n) + (if Parent(es, n) == Some(p) then [es[n].guid] else [])
  {
    hide Parent, Candidate;
  }

  lemma {:induction false} SameCompanions(es: seq<Endpoint>, fs: seq<Endpoint>, p: nat, n: nat)
    requires SameButLinks(es, fs) && p < |es| && n <= |es|
    ensures CompanionsOf(fs, p, n) == CompanionsOf(es, p, n)
  {
    hide CompanionsOf, Parent, Candidate;
    CompanionsSnoc(es, p, if n > 0 then n - 1 else 0);
    CompanionsSnoc(fs, p, if n > 0 then n - 1 else 0);
    if n > 0 {
      SameCompanions(es, fs, p, n - 1);
      SameParent(es, fs, n - 1);
      assert fs[n - 1].guid == es[n - 1].guid;
    }
  }

  // ---- a forest

  /** A link drops the suffix from the topic, so following links never comes back. */
  lemma {:induction false} LinksShorten(es: seq<Endpoint>, path: seq<nat>)
    requires path != [] && forall k :: 0 <= k < |path| ==> path[k] < |es|
    requires forall k :: 0 <= k < |path| - 1 ==> Parent(es, path[k]) == Some(path[k + 1])
    ensures |es[path[0]].ddsTopic| == |es[path[|path| - 1]].ddsTopic| + |SUFFIX| * (|path| - 1)
    ensures |path| > 1 ==> path[0] != path[|path| - 1]
  {
    if |path| > 1 {
      var rest := path[1..];
      assert forall k :: 0 <= k < |rest| ==> rest[k] == path[k + 1];
      LinksShorten(es, rest);
      assert Parent(es, path[0]) == Some(rest[0]);
      assert Candidate(es[rest[0]], es[path[0]]);
    }
  }

  // ---- both ends agree

  ghost predicate OwnGuids(es: seq<Endpoint>) {
    (forall i, j :: 0 <= i < j < |es| ==> es[i].guid != es[j].guid) && forall i :: 0 <= i < |es| ==> es[i].guid != ""
  }

  function Times(s: seq<string>, x: string): nat {
    if s == [] then 0 else Times(s[..|s| - 1], x) + (if s[|s| - 1] == x then 1 else 0)
  }

  lemma TimesSnoc(s: seq<string>, y: string, x: string)
    ensures Times(s + [y], x) == Times(s, x) + (if y == x then 1 else 0)
  {
    assert (s + [y])[..|s|] == s;
  }

  lemma {:induction false} CompanionListedOnce(es: seq<Endpoint>, p: nat, c: nat, n: nat)
    requires OwnGuids(es) && p < |es| && c < |es| && n <= |es|
    ensures Times(CompanionsOf(es, p, n), es[c].guid) == if c < n && Parent(es, c) == Some(p) then 1 else 0
  {
    hide Parent, Candidate, IsCompanionTopic, NextKey;
    if n > 0 {
      CompanionListedOnce(es, p, c, n - 1);
      assert n - 1 != c ==> es[n - 1].guid != es[c].guid;
      var before := CompanionsOf(es, p, n - 1);
      TimesSnoc(before, es[n - 1].guid, es[c].guid);
      assert Parent(es, n - 1) != Some(p) ==> CompanionsOf(es, p, n) == before;
    }
  }

  /** A companion names its one parent exactly when the parent lists it, and then lists it once. */
  lemma BothEndsAgree(es: seq<Endpoint>, p: nat, c: nat)
    requires OwnGuids(es) && p < |es| && c < |es|
    ensures var l := Linked(es);
            l[c].bufferParent == l[p].guid <==> Times(l[p].bufferCompanions, l[c].guid) == 1
    ensures var l := Linked(es);
            l[c].bufferParent != l[p].guid <==> Times(l[p].bufferCompanions, l[c].guid) == 0
  {
    CompanionListedOnce(es, p, c, |es|);
    var parent := Parent(es, c);
    hide Parent, CompanionsOf;
    var l := Linked(es);
    assert l[c] == LinkedOne(es, c, |es|) && l[p] == LinkedOne(es, p, |es|);
    assert parent.Some? && parent.value != p ==> es[parent.value].guid != es[p].guid;
  }

  // ---- endpoint order

  /** Endpoints are told apart by their GUID bytes, and a participant by the first twelve of them. */
  ghost predicate OwnBytes(es: seq<Endpoint>) {
    (forall i, j :: 0 <= i < j < |es| ==> es[i].guidBytes != es[j].guidBytes)
    && (forall i, j :: 0 <= i < |es| && 0 <= j < |es| && es[i].participant == es[j].participant ==>
          es[i].guidBytes[..12] == es[j].guidBytes[..12])
  }

  lemma KeyOneToOne(a: nat, b: nat, c: nat, x: nat, y: nat, z: nat)
    requires a < 256 && b < 256 && c < 256 && x < 256 && y < 256 && z < 256
    requires a * 0x10000 + b * 0x100 + c == x * 0x10000 + y * 0x100 + z
    ensures a == x && b == y && c == z
  {
  }

  /** No two candidates of one companion have the key before it. */
  lemma OneNext(es: seq<Endpoint>, c: nat, p: nat, q: nat)
    requires OwnBytes(es) && c < |es| && p < |es| && q < |es|
    requires Candidate(es[p], es[c]) && Candidate(es[q], es[c]) && NextKey(es[p], es[c]) && NextKey(es[q], es[c])
    ensures p == q
  {
    var g, h := es[p].guidBytes, es[q].guidBytes;
    KeyOneToOne(g[12], g[13], g[14], h[12], h[13], h[14]);
    assert g[..12] == h[..12];
    assert forall i :: 0 <= i < 12 ==> g[i] == g[..12][i] == h[..12][i] == h[i];
    assert g == h;
  }

  /** The parent by the set of the other endpoints alone: the only candidate, or the one with the key before. */
  ghost predicate IsParent(es: seq<Endpoint>, c: nat, p: nat)
    requires c < |es| && p < |es|
  {
    p != c && Candidate(es[p], es[c])
    && (NextKey(es[p], es[c]) || forall q :: 0 <= q < |es| && q != c && Candidate(es[q], es[c]) ==> q == p)
  }

  lemma {:induction false} CandidatesComplete(es: seq<Endpoint>, c: nat, n: nat, p: nat)
    requires c < |es| && n <= |es| && p < n && p != c && Candidate(es[p], es[c])
    ensures p in Candidates(es, c, n)
  {
    if p < n - 1 {
      CandidatesComplete(es, c, n - 1, p);
    }
  }

  lemma {:induction false} CandidatesRise(es: seq<Endpoint>, c: nat, n: nat)
    requires c < |es| && n <= |es|
    ensures forall i, j :: 0 <= i < j < |Candidates(es, c, n)| ==> Candidates(es, c, n)[i] != Candidates(es, c, n)[j]
  {
    if n > 0 {
      CandidatesRise(es, c, n - 1);
      assert Listed(Candidates(es, c, n - 1), n - 1);
      hide Candidate;
    }
  }

  lemma ParentIff(es: seq<Endpoint>, c: nat, p: nat)
    requires OwnBytes(es) && c < |es| && p < |es|
    ensures Parent(es, c) == Some(p) <==> IsParent(es, c, p)
  {
    var ps := Candidates(es, c, |es|);
    CandidatesRise(es, c, |es|);
    if IsParent(es, c, p) {
      CandidatesComplete(es, c, |es|, p);
      OnlyOrNext(es, c, p);
    }
    if Parent(es, c) == Some(p) && |ps| == 1 {
      forall q | 0 <= q < |es| && q != c && Candidate(es[q], es[c])
        ensures q == p
      {
        CandidatesComplete(es, c, |es|, q);
      }
    }
  }

  lemma OnlyOrNext(es: seq<Endpoint>, c: nat, p: nat)
    requires OwnBytes(es) && c < |es| && p < |es| && IsParent(es, c, p) && p in Candidates(es, c, |es|)
    ensures Parent(es, c) == Some(p)
  {
    var ps := Candidates(es, c, |es|);
    CandidatesRise(es, c, |es|);
    if |ps| > 1 {
      var k :| 0 <= k < |ps| && ps[k] == p;
      var other := ps[if k == 0 then 1 else 0];
      assert other != p && Candidate(es[other], es[c]);
      assert NextKey(es[p], es[c]);
      var first := FirstNext(es, c, ps);
      assert first.Some?;
      var l :| 0 <= l < |ps| && ps[l] == first.value;
      OneNext(es, c, p, first.value);
    }
  }

  /** fs is es in another order: endpoint i stands at at[i]. */
  ghost predicate Reordered(es: seq<Endpoint>, fs: seq<Endpoint>, at: seq<nat>) {
    |fs| == |es| == |at|
    && (forall i :: 0 <= i < |at| ==> at[i] < |fs| && fs[at[i]] == es[i])
    && (forall k: nat :: k < |fs| ==> k in at)
  }

  lemma SameBytes(es: seq<Endpoint>, fs: seq<Endpoint>, at: seq<nat>)
    requires Reordered(es, fs, at) && OwnBytes(es)
    ensures OwnBytes(fs)
  {
    forall i: nat, j: nat | i < j < |fs|
      ensures fs[i].guidBytes != fs[j].guidBytes
    {
      assert i in at && j in at;
      var a :| 0 <= a < |at| && at[a] == i;
      var b :| 0 <= b < |at| && at[b] == j;
      assert es[a].guidBytes != es[b].guidBytes;
    }
    forall i: nat, j: nat | i < |fs| && j < |fs| && fs[i].participant == fs[j].participant
      ensures fs[i].guidBytes[..12] == fs[j].guidBytes[..12]
    {
      assert i in at && j in at;
      var a :| 0 <= a < |at| && at[a] == i;
      var b :| 0 <= b < |at| && at[b] == j;
      assert es[a].participant == es[b].participant;
    }
  }

  lemma PlacesDiffer(es: seq<Endpoint>, fs: seq<Endpoint>, at: seq<nat>, a: nat, b: nat)
    requires Reordered(es, fs, at) && OwnBytes(es) && a < |es| && b < |es|
    ensures at[a] == at[b] <==> a == b
  {
    assert a != b ==> es[a].guidBytes != es[b].guidBytes;
  }

  lemma SameParenthood(es: seq<Endpoint>, fs: seq<Endpoint>, at: seq<nat>, c: nat, p: nat)
    requires Reordered(es, fs, at) && OwnBytes(es) && c < |es| && p < |es|
    ensures IsParent(es, c, p) <==> IsParent(fs, at[c], at[p])
  {
    PlacesDiffer(es, fs, at, p, c);
    hide Candidate, NextKey, OwnBytes;
    if IsParent(es, c, p) && !NextKey(es[p], es[c]) {
      forall q: nat | q < |fs| && q != at[c] && Candidate(fs[q], fs[at[c]])
        ensures q == at[p]
      {
        assert q in at;
        var b :| 0 <= b < |at| && at[b] == q;
        assert b != c && Candidate(es[b], es[c]);
      }
    }
    if IsParent(fs, at[c], at[p]) && !NextKey(es[p], es[c]) {
      forall q: nat | q < |es| && q != c && Candidate(es[q], es[c])
        ensures q == p
      {
        PlacesDiffer(es, fs, at, q, c);
        PlacesDiffer(es, fs, at, q, p);
        assert fs[at[q]] == es[q] && fs[at[c]] == es[c];
      }
    }
  }

  lemma SameParents(es: seq<Endpoint>, fs: seq<Endpoint>, at: seq<nat>, c: nat, p: nat)
    requires Reordered(es, fs, at) && OwnBytes(es) && c < |es| && p < |es|
    ensures Parent(es, c) == Some(p) <==> Parent(fs, at[c]) == Some(at[p])
  {
    SameBytes(es, fs, at);
    SameParenthood(es, fs, at, c, p);
    ParentIff(es, c, p);
    ParentIff(fs, at[c], at[p]);
  }

  /** The same endpoints in another order name the same parents. */
  lemma OrderDoesNotMatter(es: seq<Endpoint>, fs: seq<Endpoint>, at: seq<nat>, c: nat)
    requires Reordered(es, fs, at) && OwnBytes(es) && c < |es|
    ensures Linked(fs)[at[c]].bufferParent == Linked(es)[c].bufferParent
  {
    assert Linked(fs)[at[c]] == LinkedOne(fs, at[c], |fs|) && Linked(es)[c] == LinkedOne(es, c, |es|);
    var mine, theirs := Parent(es, c), Parent(fs, at[c]);
    hide Parent, OwnBytes, CompanionsOf;
    if mine.Some? {
      SameParents(es, fs, at, c, mine.value);
    } else if theirs.Some? {
      assert theirs.value in at;
      var p :| 0 <= p < |at| && at[p] == theirs.value;
      SameParents(es, fs, at, c, p);
    }
  }
}
