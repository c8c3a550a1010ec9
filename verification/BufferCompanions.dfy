/** Native-buffer companions: which endpoint belongs to which (decision.cpp, link_buffer_companions). */
module BufferCompanions {
  import opened Model

  const SUFFIX := "/_buf_cpu"

  predicate IsCompanionTopic(topic: string) {
    |topic| > |SUFFIX| && topic[|topic| - |SUFFIX|..] == SUFFIX
  }

  /** The three bytes of the entity id before the kind, as one number. */
  function EntityKey(e: Endpoint): nat {
    e.guidBytes[12] as int * 0x10000 + e.guidBytes[13] as int * 0x100 + e.guidBytes[14] as int
  }

  predicate Candidate(p: Endpoint, c: Endpoint) {
    IsCompanionTopic(c.ddsTopic)
    && p.isWriter == c.isWriter && p.participant == c.participant && p.ddsType == c.ddsType
    && p.ddsTopic == c.ddsTopic[..|c.ddsTopic| - |SUFFIX|]
  }

  /** The companion is created right after its parent, both numbered from one counter. */
  predicate NextKey(p: Endpoint, c: Endpoint) {
    EntityKey(p) + 1 == EntityKey(c) && p.guidBytes[15] == c.guidBytes[15]
  }

  ghost predicate Listed(ps: seq<nat>, n: nat) {
    forall k :: 0 <= k < |ps| ==> ps[k] < n
  }

  /** The candidates among the first n endpoints, in order. */
  function Candidates(es: seq<Endpoint>, c: nat, n: nat): (ps: seq<nat>)
    requires c < |es| && n <= |es|
    ensures Listed(ps, n)
    ensures forall k :: 0 <= k < |ps| ==> ps[k] != c && Candidate(es[ps[k]], es[c])
  {
    if n == 0 then []
    else Candidates(es, c, n - 1) + (if n - 1 != c && Candidate(es[n - 1], es[c]) then [n - 1] else [])
  }

  /** The first candidate with the key before the companion's. */
  function FirstNext(es: seq<Endpoint>, c: nat, ps: seq<nat>): (r: Option<nat>)
    requires c < |es| && Listed(ps, |es|)
    ensures r.Some? ==> r.value in ps && NextKey(es[r.value], es[c])
    ensures r.None? ==> forall k :: 0 <= k < |ps| ==> !NextKey(es[ps[k]], es[c])
  {
    if ps == [] then None
    else if NextKey(es[ps[0]], es[c]) then Some(ps[0])
    else
      var r := FirstNext(es, c, ps[1..]);
      assert forall k :: 0 < k < |ps| ==> ps[k] == ps[1..][k - 1];
      r
  }

  function Parent(es: seq<Endpoint>, c: nat): (r: Option<nat>)
    requires c < |es|
    ensures r.Some? ==> r.value < |es| && r.value != c && Candidate(es[r.value], es[c])
  {
    var ps := Candidates(es, c, |es|);
    if |ps| == 1 then Some(ps[0]) else FirstNext(es, c, ps)
  }

  /** The companions among the first n endpoints that have parent p. */
  function CompanionsOf(es: seq<Endpoint>, p: nat, n: nat): seq<string>
    requires p < |es| && n <= |es|
  {
    if n == 0 then []
    else CompanionsOf(es, p, n - 1) + (if Parent(es, n - 1) == Some(p) then [es[n - 1].guid] else [])
  }

  function LinkedOne(es: seq<Endpoint>, i: nat, n: nat): Endpoint
    requires i < |es| && n <= |es|
  {
    es[i].(bufferParent := if i < n && Parent(es, i).Some? then es[Parent(es, i).value].guid else "",
           bufferCompanions := CompanionsOf(es, i, n))
  }

  /** The endpoints once the first n were linked. */
  function LinkedFirst(es: seq<Endpoint>, n: nat): (r: seq<Endpoint>)
    requires n <= |es|
    ensures |r| == |es|
  {
    seq(|es|, i requires 0 <= i < |es| => LinkedOne(es, i, n))
  }

  function Linked(es: seq<Endpoint>): (r: seq<Endpoint>)
    ensures |r| == |es|
  {
    LinkedFirst(es, |es|)
  }

  /** Two listings that differ in their links only. */
  ghost predicate SameButLinks(es: seq<Endpoint>, fs: seq<Endpoint>) {
    |es| == |fs| && forall i :: 0 <= i < |es| ==>
      fs[i] == es[i].(bufferParent := fs[i].bufferParent, bufferCompanions := fs[i].bufferCompanions)
  }

  lemma {:induction false} SameCandidates(es: seq<Endpoint>, fs: seq<Endpoint>, c: nat, n: nat)
    requires SameButLinks(es, fs) && c < |es| && n <= |es|
    ensures Candidates(fs, c, n) == Candidates(es, c, n)
  {
    if n > 0 {
      SameCandidates(es, fs, c, n - 1);
      assert fs[n - 1] == es[n - 1].(bufferParent := fs[n - 1].bufferParent, bufferCompanions := fs[n - 1].bufferCompanions);
      assert Candidate(fs[n - 1], fs[c]) == Candidate(es[n - 1], es[c]);
      hide Candidate;
    }
  }

  lemma {:induction false} SameFirstNext(es: seq<Endpoint>, fs: seq<Endpoint>, c: nat, ps: seq<nat>)
    requires SameButLinks(es, fs) && c < |es| && Listed(ps, |es|)
    ensures FirstNext(fs, c, ps) == FirstNext(es, c, ps)
  {
    if ps != [] {
      SameFirstNext(es, fs, c, ps[1..]);
    }
  }

  lemma SameParent(es: seq<Endpoint>, fs: seq<Endpoint>, c: nat)
    requires SameButLinks(es, fs) && c < |es|
    ensures Parent(fs, c) == Parent(es, c)
  {
    SameCandidates(es, fs, c, |es|);
    SameFirstNext(es, fs, c, Candidates(es, c, |es|));
  }

  // ---- in place

  /** The endpoints once the first n were linked. */
  ghost predicate LinkedTo(fs: seq<Endpoint>, es: seq<Endpoint>, n: nat)
    requires n <= |es| == |fs|
  {
    forall k :: 0 <= k < |es| ==> fs[k] == LinkedOne(es, k, n)
  }

  lemma LinkStep(es: seq<Endpoint>, c: nat, k: nat)
    requires c < |es| && k < |es|
    ensures LinkedOne(es, k, c + 1)
         == LinkedOne(es, k, c).(
              bufferParent := if k == c && Parent(es, c).Some? then es[Parent(es, c).value].guid
                              else LinkedOne(es, k, c).bufferParent,
              bufferCompanions := LinkedOne(es, k, c).bufferCompanions
                                  + (if Parent(es, c) == Some(k) then [es[c].guid] else []))
  {
    hide Parent;
  }

  lemma LinkedButLinks(es: seq<Endpoint>, fs: seq<Endpoint>, n: nat)
    requires n <= |es| == |fs| && LinkedTo(fs, es, n)
    ensures SameButLinks(es, fs)
  {
    hide Parent, CompanionsOf;
  }

  /** Links of an earlier pass go. */
  method Unlink(a: array<Endpoint>)
    modifies a
    ensures LinkedTo(a[..], old(a[..]), 0)
  {
    ghost var es := a[..];
    hide Parent, Candidate;
    for i := 0 to a.Length
      invariant forall k :: 0 <= k < a.Length ==> a[k] == if k < i then LinkedOne(es, k, 0) else es[k]
    {
      a[i] := a[i].(bufferParent := "", bufferCompanions := []);
    }
  }

  method LinkBufferCompanions(a: array<Endpoint>)
    modifies a
    ensures a[..] == Linked(old(a[..]))
  {
    ghost var es := a[..];
    hide Parent, Candidate, LinkedOne;
    Unlink(a);
    for c := 0 to a.Length
      invariant LinkedTo(a[..], es, c)
    {
      LinkedButLinks(es, a[..], c);
      SameParent(es, a[..], c);
      var parent := FindParent(a, c);
      Link(a, es, c, parent);
    }
    assert a[..] == Linked(es);
  }

  /** Both ends of one link, written one after the other. */
  function WithLink(s: seq<Endpoint>, c: nat, parent: Option<nat>): (r: seq<Endpoint>)
    requires c < |s| && (parent.Some? ==> parent.value < |s|)
    ensures |r| == |s|
  {
    if parent.None? then s
    else
      var s1 := s[c := s[c].(bufferParent := s[parent.value].guid)];
      s1[parent.value := s1[parent.value].(bufferCompanions := s1[parent.value].bufferCompanions + [s1[c].guid])]
  }

  lemma WithLinkIsNext(fs: seq<Endpoint>, es: seq<Endpoint>, c: nat, parent: Option<nat>)
    requires c < |es| == |fs| && LinkedTo(fs, es, c) && Parent(es, c) == parent
    ensures LinkedTo(WithLink(fs, c, parent), es, c + 1)
  {
    assert forall k :: 0 <= k < |es| ==> fs[k].guid == es[k].guid;
    hide LinkedOne, Parent;
    forall k | 0 <= k < |es|
      ensures WithLink(fs, c, parent)[k] == LinkedOne(es, k, c + 1)
    {
      LinkStep(es, c, k);
      assert fs[k] == LinkedOne(es, k, c);
    }
  }

  /** The links of one companion. */
  method Link(a: array<Endpoint>, ghost es: seq<Endpoint>, c: nat, parent: Option<nat>)
    requires c < a.Length == |es| && LinkedTo(a[..], es, c) && Parent(es, c) == parent
    modifies a
    ensures LinkedTo(a[..], es, c + 1)
  {
    WithLinkIsNext(a[..], es, c, parent);
    hide LinkedTo, Parent;
    ghost var before := a[..];
    if parent.Some? {
      a[c] := a[c].(bufferParent := a[parent.value].guid);
      a[parent.value] := a[parent.value].(bufferCompanions := a[parent.value].bufferCompanions + [a[c].guid]);
    }
    assert a[..] == WithLink(before, c, parent);
  }

  method FindParent(a: array<Endpoint>, c: nat) returns (parent: Option<nat>)
    requires c < a.Length
    ensures parent == Parent(a[..], c)
  {
    ghost var es := a[..];
    var e := a[c];
    if !IsCompanionTopic(e.ddsTopic) {
      NoCandidates(es, c, |es|);
      return None;
    }
    var candidates := FindCandidates(a, c);
    if |candidates| == 1 {
      return Some(candidates[0]);
    }
    assert candidates[0..] == candidates;
    for k := 0 to |candidates|
      invariant FirstNext(es, c, candidates) == FirstNext(es, c, candidates[k..])
    {
      assert candidates[k..][1..] == candidates[k + 1..];
      if NextKey(a[candidates[k]], e) {
        return Some(candidates[k]);
      }
    }
    parent := None;
  }

  method FindCandidates(a: array<Endpoint>, c: nat) returns (candidates: seq<nat>)
    requires c < a.Length && IsCompanionTopic(a[c].ddsTopic)
    ensures candidates == Candidates(a[..], c, a.Length)
  {
    var e := a[c];
    var parentTopic := e.ddsTopic[..|e.ddsTopic| - |SUFFIX|];
    candidates := [];
    for p := 0 to a.Length
      invariant candidates == Candidates(a[..], c, p)
    {
      if p != c && a[p].isWriter == e.isWriter && a[p].participant == e.participant && a[p].ddsType == e.ddsType
         && a[p].ddsTopic == parentTopic {
        candidates := candidates + [p];
      }
    }
  }

  lemma {:induction false} NoCandidates(es: seq<Endpoint>, c: nat, n: nat)
    requires c < |es| && n <= |es| && !IsCompanionTopic(es[c].ddsTopic)
    ensures Candidates(es, c, n) == []
  {
    if n > 0 {
      assert !Candidate(es[n - 1], es[c]);
      hide Candidate, IsCompanionTopic;
      NoCandidates(es, c, n - 1);
    }
  }
}
