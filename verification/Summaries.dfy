/** From endpoints to topics and their pairs, and the --node filter (decision.cpp). */
module Summaries {
  import opened Model
  import opened Snapshot
  import opened Decision
  import opened BufferCompanions
  import DR = DisplayRows

  // ---- the native-buffer codes

  function BufferCodes(es: seq<Endpoint>): seq<Code> {
    (if exists i :: 0 <= i < |es| && es[i].bufferCompanions != [] then [BufferCompanionFolded] else [])
    + (if exists i :: 0 <= i < |es| && es[i].bufferParent != "" then [BufferCompanion] else [])
    + (if exists i :: 0 <= i < |es| && es[i].bufferParent == "" && IsCompanionTopic(es[i].ddsTopic)
       then [BufferCompanionUnmatched] else [])
  }

  function UnmatchedReasons(writers: seq<Endpoint>, readers: seq<Endpoint>, pairs: seq<Pair>): seq<Code> {
    (if writers == [] then [NoMatchingWriter] else []) + (if readers == [] then [NoMatchingReader] else [])
    + (if pairs == [] then BufferCodes(writers + readers) else [])
  }

  // ---- summarize()

  function PairOf(glob: Glob, w: Endpoint, r: Endpoint): Pair {
    var v := Decide(glob, w, r);
    Pair(w, r, v.(reasons := v.reasons + BufferCodes([w, r])), UNMEASURED)
  }

  function PairsWith(glob: Glob, w: Endpoint, rs: seq<Endpoint>): seq<Pair> {
    if rs == [] then [] else PairsWith(glob, w, rs[..|rs| - 1]) + [PairOf(glob, w, rs[|rs| - 1])]
  }

  function AllPairs(glob: Glob, ws: seq<Endpoint>, rs: seq<Endpoint>): seq<Pair> {
    if ws == [] then [] else AllPairs(glob, ws[..|ws| - 1], rs) + PairsWith(glob, ws[|ws| - 1], rs)
  }

  method PairUp(glob: Glob, ws: seq<Endpoint>, rs: seq<Endpoint>) returns (pairs: seq<Pair>)
    ensures pairs == AllPairs(glob, ws, rs)
  {
    hide AllPairs, PairsWith, PairOf;
    pairs := [];
    NoPairs(glob, ws, rs);
    for i := 0 to |ws|
      invariant pairs == AllPairs(glob, ws[..i], rs)
    {
      ghost var before := pairs;
      NoPairsWith(glob, ws[i], rs);
      for j := 0 to |rs|
        invariant pairs == before + PairsWith(glob, ws[i], rs[..j])
      {
        OneMorePair(glob, ws[i], rs, j);
        pairs := pairs + [PairOf(glob, ws[i], rs[j])];
      }
      assert rs[..|rs|] == rs;
      OneMoreWriter(glob, ws, rs, i);
    }
    assert ws[..|ws|] == ws;
  }

  lemma NoPairs(glob: Glob, ws: seq<Endpoint>, rs: seq<Endpoint>)
    ensures AllPairs(glob, ws[..0], rs) == []
  {
  }

  lemma NoPairsWith(glob: Glob, w: Endpoint, rs: seq<Endpoint>)
    ensures PairsWith(glob, w, rs[..0]) == []
  {
  }

  lemma OneMorePair(glob: Glob, w: Endpoint, rs: seq<Endpoint>, j: nat)
    requires j < |rs|
    ensures PairsWith(glob, w, rs[..j + 1]) == PairsWith(glob, w, rs[..j]) + [PairOf(glob, w, rs[j])]
  {
    assert rs[..j + 1][..j] == rs[..j];
  }

  lemma OneMoreWriter(glob: Glob, ws: seq<Endpoint>, rs: seq<Endpoint>, i: nat)
    requires i < |ws|
    ensures AllPairs(glob, ws[..i + 1], rs) == AllPairs(glob, ws[..i], rs) + PairsWith(glob, ws[i], rs)
  {
    assert ws[..i + 1][..i] == ws[..i];
  }

  /** A pair for every writer and every reader, and no other. */
  ghost predicate Product(ws: seq<Endpoint>, rs: seq<Endpoint>, pairs: seq<Pair>) {
    (forall p :: p in pairs ==> p.writer in ws && p.reader in rs)
    && forall w, r :: w in ws && r in rs ==> HasPair(pairs, w, r)
  }

  ghost predicate HasPair(pairs: seq<Pair>, w: Endpoint, r: Endpoint) {
    exists p :: p in pairs && p.writer == w && p.reader == r
  }

  lemma {:induction false} PairsWithMember(glob: Glob, w: Endpoint, rs: seq<Endpoint>, p: Pair)
    ensures p in PairsWith(glob, w, rs) <==> exists r :: r in rs && p == PairOf(glob, w, r)
  {
    hide PairOf;
    if rs != [] {
      PairsWithMember(glob, w, rs[..|rs| - 1], p);
      assert rs == rs[..|rs| - 1] + [rs[|rs| - 1]];
    }
  }

  lemma {:induction false} AllPairsMember(glob: Glob, ws: seq<Endpoint>, rs: seq<Endpoint>, p: Pair)
    ensures p in AllPairs(glob, ws, rs) <==> exists w, r :: w in ws && r in rs && p == PairOf(glob, w, r)
  {
    hide PairOf, PairsWith;
    if ws != [] {
      AllPairsMember(glob, ws[..|ws| - 1], rs, p);
      PairsWithMember(glob, ws[|ws| - 1], rs, p);
      assert ws == ws[..|ws| - 1] + [ws[|ws| - 1]];
    }
  }

  /** The pairs of a topic are its writers times its readers, whatever their types. */
  lemma AllPairsAreTheProduct(glob: Glob, ws: seq<Endpoint>, rs: seq<Endpoint>)
    ensures Product(ws, rs, AllPairs(glob, ws, rs))
  {
    var pairs := AllPairs(glob, ws, rs);
    forall p | p in pairs
      ensures p.writer in ws && p.reader in rs
    {
      AllPairsMember(glob, ws, rs, p);
    }
    forall w, r | w in ws && r in rs
      ensures HasPair(pairs, w, r)
    {
      AllPairsMember(glob, ws, rs, PairOf(glob, w, r));
      assert PairOf(glob, w, r) in pairs;
    }
  }

  /** The endpoints of one topic and kind, in discovery order. */
  function EndsOn(es: seq<Endpoint>, topic: string, writers: bool): seq<Endpoint> {
    if es == [] then []
    else
      var e := es[|es| - 1];
      EndsOn(es[..|es| - 1], topic, writers) + (if e.ddsTopic == topic && e.isWriter == writers then [e] else [])
  }

  type Groups = map<string, (seq<Endpoint>, seq<Endpoint>)>

  /** A topic is there when it has an endpoint, with exactly its endpoints. */
  ghost predicate GroupIs(es: seq<Endpoint>, byTopic: Groups, t: string) {
    (t in byTopic <==> EndsOn(es, t, true) != [] || EndsOn(es, t, false) != [])
    && (t in byTopic ==> byTopic[t] == (EndsOn(es, t, true), EndsOn(es, t, false)))
  }

  ghost predicate GroupedAs(es: seq<Endpoint>, byTopic: Groups) {
    forall t: string :: GroupIs(es, byTopic, t)
  }

  function Grow(byTopic: Groups, e: Endpoint): Groups {
    var g := if e.ddsTopic in byTopic then byTopic[e.ddsTopic] else ([], []);
    byTopic[e.ddsTopic := if e.isWriter then (g.0 + [e], g.1) else (g.0, g.1 + [e])]
  }

  lemma EndsOnSnoc(es: seq<Endpoint>, e: Endpoint, t: string, w: bool)
    ensures EndsOn(es + [e], t, w) == EndsOn(es, t, w) + (if e.ddsTopic == t && e.isWriter == w then [e] else [])
  {
    assert (es + [e])[..|es|] == es;
  }

  lemma GrowKeeps(es: seq<Endpoint>, byTopic: Groups, e: Endpoint, t: string)
    requires GroupIs(es, byTopic, t)
    ensures GroupIs(es + [e], Grow(byTopic, e), t)
  {
    EndsOnSnoc(es, e, t, true);
    EndsOnSnoc(es, e, t, false);
    hide EndsOn;
    assert EndsOn(es, t, true) + [] == EndsOn(es, t, true) && EndsOn(es, t, false) + [] == EndsOn(es, t, false);
  }

  method GroupByTopic(es: seq<Endpoint>) returns (byTopic: Groups)
    ensures GroupedAs(es, byTopic)
  {
    byTopic := map[];
    assert GroupedAs([], byTopic);
    for i := 0 to |es|
      invariant GroupedAs(es[..i], byTopic)
    {
      hide GroupIs;
      ghost var before, seen := byTopic, es[..i + 1];
      assert seen == es[..i] + [es[i]];
      byTopic := Grow(byTopic, es[i]);
      forall t: string
        ensures GroupIs(seen, byTopic, t)
      {
        GrowKeeps(es[..i], before, es[i], t);
      }
    }
    assert es[..|es|] == es;
  }

  /** A topic before classification, shown under the name and type its endpoints are shown under. */
  ghost predicate Summarized(es: seq<Endpoint>, display: string -> (string, string), glob: Glob, t: TopicSummary) {
    t.writers == EndsOn(es, t.ddsTopic, true) && t.readers == EndsOn(es, t.ddsTopic, false)
    && (t.writers != [] || t.readers != [])
    && (t.displayTopic, t.displayType) == display(t.ddsTopic)
    && t.pairs == AllPairs(glob, t.writers, t.readers)
    && t.unmatchedReasons == UnmatchedReasons(t.writers, t.readers, t.pairs)
  }

  ghost predicate TopicsOnce(out: seq<TopicSummary>) {
    forall i, j :: 0 <= i < j < |out| ==> out[i].ddsTopic != out[j].ddsTopic
  }

  ghost predicate TopicOf(out: seq<TopicSummary>, topic: string) {
    exists t :: t in out && t.ddsTopic == topic
  }

  method Summarize(es: seq<Endpoint>, display: string -> (string, string), glob: Glob) returns (out: seq<TopicSummary>)
    ensures forall t :: t in out ==> Summarized(es, display, glob, t)
    ensures TopicsOnce(out)
    ensures forall e :: e in es ==> TopicOf(out, e.ddsTopic)
  {
    hide Summarized, GroupIs, EndsOn;
    var byTopic := GroupByTopic(es);
    out := [];
    var rest := byTopic.Keys;
    while rest != {}
      invariant rest <= byTopic.Keys
      invariant forall t :: t in out ==> Summarized(es, display, glob, t)
      invariant forall t :: t in out ==> t.ddsTopic in byTopic.Keys - rest
      invariant forall k :: k in byTopic.Keys - rest ==> TopicOf(out, k)
      invariant TopicsOnce(out)
      decreases rest
    {
      var k :| k in rest;
      GroupAt(es, byTopic, k);
      var t := SummarizeTopic(es, display, glob, k, byTopic[k].0, byTopic[k].1);
      TopicOfSnoc(out, t);
      rest := rest - {k};
      out := out + [t];
    }
    forall e | e in es
      ensures TopicOf(out, e.ddsTopic)
    {
      ListedOnItsTopic(es, e);
      HasGroup(es, byTopic, e.ddsTopic, e.isWriter);
      assert e.ddsTopic in byTopic.Keys - rest;
    }
  }

  lemma TopicOfSnoc(out: seq<TopicSummary>, t: TopicSummary)
    ensures forall k :: TopicOf(out + [t], k) <==> TopicOf(out, k) || k == t.ddsTopic
  {
    assert forall x :: x in out + [t] <==> x in out || x == t;
  }

  lemma GroupAt(es: seq<Endpoint>, byTopic: Groups, k: string)
    requires GroupedAs(es, byTopic) && k in byTopic
    ensures byTopic[k] == (EndsOn(es, k, true), EndsOn(es, k, false)) && (byTopic[k].0 != [] || byTopic[k].1 != [])
  {
    assert GroupIs(es, byTopic, k);
  }

  lemma HasGroup(es: seq<Endpoint>, byTopic: Groups, k: string, w: bool)
    requires GroupedAs(es, byTopic) && EndsOn(es, k, w) != []
    ensures k in byTopic
  {
    assert GroupIs(es, byTopic, k);
  }

  lemma {:induction false} ListedOnItsTopic(es: seq<Endpoint>, e: Endpoint)
    requires e in es
    ensures e in EndsOn(es, e.ddsTopic, e.isWriter)
  {
    var init, last := es[..|es| - 1], es[|es| - 1];
    assert es == init + [last];
    if e != last {
      ListedOnItsTopic(init, e);
    }
  }

  lemma SummarizedFields(es: seq<Endpoint>, display: string -> (string, string), glob: Glob, t: TopicSummary)
    requires t.writers == EndsOn(es, t.ddsTopic, true) && t.readers == EndsOn(es, t.ddsTopic, false)
    requires t.writers != [] || t.readers != []
    requires (t.displayTopic, t.displayType) == display(t.ddsTopic)
    requires t.pairs == AllPairs(glob, t.writers, t.readers)
    requires t.unmatchedReasons == UnmatchedReasons(t.writers, t.readers, t.pairs)
    ensures Summarized(es, display, glob, t)
  {
  }

  method SummarizeTopic(ghost es: seq<Endpoint>, display: string -> (string, string), glob: Glob,
                        topic: string, writers: seq<Endpoint>, readers: seq<Endpoint>)
    returns (t: TopicSummary)
    requires writers == EndsOn(es, topic, true) && readers == EndsOn(es, topic, false) && (writers != [] || readers != [])
    ensures Summarized(es, display, glob, t) && t.ddsTopic == topic
  {
    hide *;
    var pairs := PairUp(glob, writers, readers);
    var reasons := Reasons(writers, readers, pairs);
    var (name, shown) := display(topic);
    t := TopicSummary(topic, name, shown, OtherTopic, "", NoDirection, writers, readers, pairs, reasons);
    assert Summarized(es, display, glob, t) by {
      SummarizedFields(es, display, glob, t);
    }
  }

  /** What the topic has no pair for, if it has none. */
  method Reasons(writers: seq<Endpoint>, readers: seq<Endpoint>, pairs: seq<Pair>) returns (reasons: seq<Code>)
    ensures reasons == UnmatchedReasons(writers, readers, pairs)
  {
    hide BufferCodes;
    reasons := [];
    if writers == [] {
      reasons := reasons + [NoMatchingWriter];
    }
    if readers == [] {
      reasons := reasons + [NoMatchingReader];
    }
    if pairs == [] {
      reasons := reasons + BufferCodes(writers + readers);
    }
  }

  // ---- the --node filter

  function Matching(t: TopicSummary, matches: Endpoint -> bool): set<Endpoint> {
    set e | e in t.writers + t.readers && matches(e)
  }

  function KeptPairs(pairs: seq<Pair>, matching: set<Endpoint>): seq<Pair> {
    if pairs == [] then []
    else
      var p := pairs[|pairs| - 1];
      KeptPairs(pairs[..|pairs| - 1], matching) + (if p.writer in matching || p.reader in matching then [p] else [])
  }

  function Kept(pairs: seq<Pair>, matching: set<Endpoint>): set<Endpoint> {
    if pairs == [] then matching
    else
      var p := pairs[|pairs| - 1];
      Kept(pairs[..|pairs| - 1], matching) + (if p.writer in matching || p.reader in matching then {p.writer, p.reader} else {})
  }

  function Pruned(es: seq<Endpoint>, keep: set<Endpoint>): seq<Endpoint> {
    if es == [] then []
    else Pruned(es[..|es| - 1], keep) + (if es[|es| - 1] in keep then [es[|es| - 1]] else [])
  }

  function KeepOf(t: TopicSummary, matches: Endpoint -> bool): set<Endpoint> {
    Kept(t.pairs, Matching(t, matches))
  }

  /** A topic as the filter leaves it. */
  function FilteredTopic(t: TopicSummary, matches: Endpoint -> bool): TopicSummary {
    var keep, pairs := KeepOf(t, matches), KeptPairs(t.pairs, Matching(t, matches));
    var ws, rs := Pruned(t.writers, keep), Pruned(t.readers, keep);
    t.(writers := ws, readers := rs, pairs := pairs, unmatchedReasons := UnmatchedReasons(ws, rs, pairs))
  }

  function Filtered(topics: seq<TopicSummary>, matches: Endpoint -> bool): seq<TopicSummary> {
    if topics == [] then []
    else
      var t := topics[|topics| - 1];
      Filtered(topics[..|topics| - 1], matches) + (if KeepOf(t, matches) == {} then [] else [FilteredTopic(t, matches)])
  }

  method FilterByNode(topics: seq<TopicSummary>, matches: Endpoint -> bool) returns (out: seq<TopicSummary>)
    ensures out == Filtered(topics, matches)
  {
    out := [];
    for i := 0 to |topics|
      invariant out == Filtered(topics[..i], matches)
    {
      var t := topics[i];
      assert topics[..i + 1][..i] == topics[..i];
      var matching := Matching(t, matches);
      var keep, pairs := KeepPairs(t.pairs, matching);
      if keep == {} {
        continue;
      }
      var ws, rs := Pruned(t.writers, keep), Pruned(t.readers, keep);
      out := out + [t.(writers := ws, readers := rs, pairs := pairs, unmatchedReasons := UnmatchedReasons(ws, rs, pairs))];
    }
    assert topics[..|topics|] == topics;
  }

  method KeepPairs(all: seq<Pair>, matching: set<Endpoint>) returns (keep: set<Endpoint>, pairs: seq<Pair>)
    ensures keep == Kept(all, matching) && pairs == KeptPairs(all, matching)
  {
    keep, pairs := matching, [];
    for i := 0 to |all|
      invariant keep == Kept(all[..i], matching) && pairs == KeptPairs(all[..i], matching)
    {
      var p := all[i];
      assert all[..i + 1][..i] == all[..i];
      if p.writer in matching || p.reader in matching {
        keep := keep + {p.writer, p.reader};
        pairs := pairs + [p];
      }
    }
    assert all[..|all|] == all;
  }

  // ---- what the filter keeps

  lemma PrunedSnoc(es: seq<Endpoint>, e: Endpoint, keep: set<Endpoint>)
    ensures Pruned(es + [e], keep) == Pruned(es, keep) + (if e in keep then [e] else [])
  {
    assert (es + [e])[..|es|] == es;
  }

  lemma {:induction false} PrunedAre(es: seq<Endpoint>, keep: set<Endpoint>)
    ensures forall e :: e in Pruned(es, keep) <==> e in es && e in keep
  {
    if es != [] {
      hide Pruned;
      var init, e := es[..|es| - 1], es[|es| - 1];
      assert es == init + [e];
      PrunedAre(init, keep);
      PrunedSnoc(init, e, keep);
    }
  }

  lemma {:induction false} PrunedTwice(es: seq<Endpoint>, keep: set<Endpoint>)
    ensures Pruned(Pruned(es, keep), keep) == Pruned(es, keep)
  {
    if es != [] {
      hide Pruned;
      var init, e := es[..|es| - 1], es[|es| - 1];
      assert es == init + [e];
      PrunedTwice(init, keep);
      PrunedSnoc(init, e, keep);
      PrunedSnoc(Pruned(init, keep), e, keep);
      if e !in keep {
        assert Pruned(es, keep) == Pruned(init, keep);
      }
    }
  }

  lemma PrunedMember(es: seq<Endpoint>, keep: set<Endpoint>)
    ensures forall e :: e in Pruned(es, keep) <==> e in es && e in keep
    ensures Pruned(Pruned(es, keep), keep) == Pruned(es, keep)
  {
    hide *;
    PrunedAre(es, keep);
    PrunedTwice(es, keep);
  }

  lemma KeptSnoc(pairs: seq<Pair>, p: Pair, matching: set<Endpoint>)
    ensures var in' := p.writer in matching || p.reader in matching;
            KeptPairs(pairs + [p], matching) == KeptPairs(pairs, matching) + (if in' then [p] else [])
            && Kept(pairs + [p], matching) == Kept(pairs, matching) + (if in' then {p.writer, p.reader} else {})
  {
    assert (pairs + [p])[..|pairs|] == pairs;
  }

  lemma {:induction false} KeptPairsAre(pairs: seq<Pair>, matching: set<Endpoint>)
    ensures forall p :: p in KeptPairs(pairs, matching) <==> p in pairs && (p.writer in matching || p.reader in matching)
  {
    if pairs != [] {
      hide KeptPairs, Kept;
      var init, p := pairs[..|pairs| - 1], pairs[|pairs| - 1];
      assert pairs == init + [p];
      KeptPairsAre(init, matching);
      KeptSnoc(init, p, matching);
    }
  }

  lemma {:induction false} KeptPairsTwice(pairs: seq<Pair>, matching: set<Endpoint>)
    ensures KeptPairs(KeptPairs(pairs, matching), matching) == KeptPairs(pairs, matching)
  {
    if pairs != [] {
      hide KeptPairs, Kept;
      var init, p := pairs[..|pairs| - 1], pairs[|pairs| - 1];
      assert pairs == init + [p];
      KeptPairsTwice(init, matching);
      KeptSnoc(init, p, matching);
      KeptSnoc(KeptPairs(init, matching), p, matching);
      if !(p.writer in matching || p.reader in matching) {
        assert KeptPairs(pairs, matching) == KeptPairs(init, matching);
      }
    }
  }

  lemma {:induction false} KeptTwice(pairs: seq<Pair>, matching: set<Endpoint>)
    ensures Kept(KeptPairs(pairs, matching), matching) == Kept(pairs, matching)
  {
    if pairs != [] {
      hide KeptPairs, Kept;
      var init, p := pairs[..|pairs| - 1], pairs[|pairs| - 1];
      assert pairs == init + [p];
      KeptTwice(init, matching);
      KeptSnoc(init, p, matching);
      KeptSnoc(KeptPairs(init, matching), p, matching);
      if !(p.writer in matching || p.reader in matching) {
        assert KeptPairs(pairs, matching) == KeptPairs(init, matching);
      }
    }
  }

  lemma KeptPairsMember(pairs: seq<Pair>, matching: set<Endpoint>)
    ensures forall p :: p in KeptPairs(pairs, matching) <==> p in pairs && (p.writer in matching || p.reader in matching)
    ensures KeptPairs(KeptPairs(pairs, matching), matching) == KeptPairs(pairs, matching)
    ensures Kept(KeptPairs(pairs, matching), matching) == Kept(pairs, matching)
  {
    hide *;
    KeptPairsAre(pairs, matching);
    KeptPairsTwice(pairs, matching);
    KeptTwice(pairs, matching);
  }

  lemma {:induction false} KeptMember(pairs: seq<Pair>, matching: set<Endpoint>)
    ensures forall e :: e in Kept(pairs, matching)
                   <==> e in matching || exists p :: p in KeptPairs(pairs, matching) && (e == p.writer || e == p.reader)
  {
    if pairs != [] {
      KeptMember(pairs[..|pairs| - 1], matching);
      var init, p := pairs[..|pairs| - 1], pairs[|pairs| - 1];
      assert forall q :: q in KeptPairs(pairs, matching)
                    <==> q in KeptPairs(init, matching) || (q == p && (p.writer in matching || p.reader in matching));
    }
  }

  /** The endpoints of a filtered topic that match are those that matched before. */
  lemma SameMatching(t: TopicSummary, matches: Endpoint -> bool)
    ensures Matching(FilteredTopic(t, matches), matches) == Matching(t, matches)
  {
    var keep := KeepOf(t, matches);
    PrunedMember(t.writers, keep);
    PrunedMember(t.readers, keep);
    KeptMember(t.pairs, Matching(t, matches));
    hide Pruned, Kept, KeptPairs, UnmatchedReasons;
  }

  lemma TopicFilteredTwice(t: TopicSummary, matches: Endpoint -> bool)
    ensures KeepOf(FilteredTopic(t, matches), matches) == KeepOf(t, matches)
    ensures FilteredTopic(FilteredTopic(t, matches), matches) == FilteredTopic(t, matches)
  {
    SameMatching(t, matches);
    KeptPairsMember(t.pairs, Matching(t, matches));
    PrunedMember(t.writers, KeepOf(t, matches));
    PrunedMember(t.readers, KeepOf(t, matches));
    hide Pruned, Kept, KeptPairs, UnmatchedReasons, Matching;
  }

  lemma FilteredSnoc(topics: seq<TopicSummary>, t: TopicSummary, matches: Endpoint -> bool)
    ensures Filtered(topics + [t], matches)
         == Filtered(topics, matches) + (if KeepOf(t, matches) == {} then [] else [FilteredTopic(t, matches)])
  {
    assert (topics + [t])[..|topics|] == topics;
  }

  /** Filtering twice by the same nodes changes nothing. */
  lemma {:induction false} FilterIsIdempotent(topics: seq<TopicSummary>, matches: Endpoint -> bool)
    ensures Filtered(Filtered(topics, matches), matches) == Filtered(topics, matches)
  {
    hide FilteredTopic, KeepOf;
    if topics != [] {
      var init, t := topics[..|topics| - 1], topics[|topics| - 1];
      FilterIsIdempotent(init, matches);
      TopicFilteredTwice(t, matches);
      FilteredSnoc(Filtered(init, matches), FilteredTopic(t, matches), matches);
      assert KeepOf(t, matches) == {} ==> Filtered(topics, matches) == Filtered(init, matches);
    }
  }

  ghost predicate InAPair(pairs: seq<Pair>, e: Endpoint, writers: bool) {
    exists j :: 0 <= j < |pairs| && e == if writers then pairs[j].writer else pairs[j].reader
  }

  /** Writers and readers are told apart by their kind. */
  ghost predicate Sided(t: TopicSummary) {
    (forall w :: w in t.writers ==> w.isWriter) && (forall r :: r in t.readers ==> !r.isWriter)
  }

  lemma KeptIsPaired(t: TopicSummary, matches: Endpoint -> bool, e: Endpoint, other: Endpoint)
    requires Product(t.writers, t.readers, t.pairs) && Sided(t) && e in KeepOf(t, matches)
    requires if e.isWriter then e in t.writers && other in t.readers else e in t.readers && other in t.writers
    ensures InAPair(KeptPairs(t.pairs, Matching(t, matches)), e, e.isWriter)
  {
    var matching := Matching(t, matches);
    var kept := KeptPairs(t.pairs, matching);
    KeptPairsMember(t.pairs, matching);
    KeptMember(t.pairs, matching);
    hide Kept, KeptPairs, Matching;
    assert e in matching ==> if e.isWriter then HasPair(t.pairs, e, other) else HasPair(t.pairs, other, e);
    var p :| p in kept && (if e.isWriter then p.writer == e else p.reader == e);
    var j :| 0 <= j < |kept| && kept[j] == p;
  }

  /**
   * The pairs left are those with a matching end; and a topic whose pairs are writers times readers
   * is left with every endpoint in a pair, or with one side empty: never with both sides and no pair.
   */
  lemma FilteredPairs(t: TopicSummary, matches: Endpoint -> bool)
    requires Product(t.writers, t.readers, t.pairs)
    ensures var pairs := FilteredTopic(t, matches).pairs;
            forall p :: p in pairs <==> p in t.pairs && (matches(p.writer) || matches(p.reader))
  {
    KeptPairsMember(t.pairs, Matching(t, matches));
    hide KeptPairs, KeepOf, Pruned, UnmatchedReasons;
    forall p | p in t.pairs
      ensures (p.writer in Matching(t, matches) <==> matches(p.writer))
              && (p.reader in Matching(t, matches) <==> matches(p.reader))
    {
      assert p.writer in t.writers && p.reader in t.readers;
    }
  }

  lemma FilteredEnds(t: TopicSummary, matches: Endpoint -> bool)
    ensures var f := FilteredTopic(t, matches);
            (forall w :: w in f.writers ==> w in t.writers && w in KeepOf(t, matches))
            && (forall r :: r in f.readers ==> r in t.readers && r in KeepOf(t, matches))
            && f.pairs == KeptPairs(t.pairs, Matching(t, matches))
  {
    PrunedMember(t.writers, KeepOf(t, matches));
    PrunedMember(t.readers, KeepOf(t, matches));
    hide KeepOf, Pruned, KeptPairs, UnmatchedReasons;
  }

  /** An end that is kept is in a kept pair, if the topic has any end on the other side. */
  lemma KeptEnd(t: TopicSummary, matches: Endpoint -> bool, e: Endpoint)
    requires Product(t.writers, t.readers, t.pairs) && Sided(t)
    requires var f := FilteredTopic(t, matches);
             if e.isWriter then e in f.writers && t.readers != [] else e in f.readers && t.writers != []
    ensures InAPair(FilteredTopic(t, matches).pairs, e, e.isWriter)
  {
    FilteredEnds(t, matches);
    hide FilteredTopic, KeepOf, KeptPairs, Matching, InAPair, Product;
    KeptIsPaired(t, matches, e, if e.isWriter then t.readers[0] else t.writers[0]);
  }

  lemma CoveredBy(f: TopicSummary)
    requires f.pairs == [] ==> f.writers == [] || f.readers == []
    requires f.pairs != [] ==> forall w :: w in f.writers ==> InAPair(f.pairs, w, true)
    requires f.pairs != [] ==> forall r :: r in f.readers ==> InAPair(f.pairs, r, false)
    ensures DR.Covered(f)
  {
  }

  lemma BothSides(t: TopicSummary, pairs: seq<Pair>)
    requires Product(t.writers, t.readers, t.pairs) && pairs != [] && forall p :: p in pairs ==> p in t.pairs
    ensures t.writers != [] && t.readers != []
  {
    assert pairs[0] in pairs;
    assert pairs[0].writer in t.writers && pairs[0].reader in t.readers;
  }

  lemma KeptPairsAreOld(t: TopicSummary, matches: Endpoint -> bool)
    ensures forall p :: p in FilteredTopic(t, matches).pairs ==> p in t.pairs
  {
    KeptPairsMember(t.pairs, Matching(t, matches));
    hide KeptPairs, KeepOf, Pruned, UnmatchedReasons, Matching;
  }

  lemma FilterKeepsCovered(t: TopicSummary, matches: Endpoint -> bool)
    requires Product(t.writers, t.readers, t.pairs) && Sided(t)
    ensures var f := FilteredTopic(t, matches);
            DR.Covered(f) && (forall p :: p in f.pairs <==> p in t.pairs && (matches(p.writer) || matches(p.reader)))
  {
    var f := FilteredTopic(t, matches);
    FilteredEnds(t, matches);
    FilteredPairs(t, matches);
    KeptPairsAreOld(t, matches);
    hide FilteredTopic, KeepOf, KeptPairs, Matching, Product, DR.Covered;
    if f.pairs != [] {
      BothSides(t, f.pairs);
    }
    forall w | w in f.writers && t.readers != []
      ensures InAPair(f.pairs, w, true)
    {
      KeptEnd(t, matches, w);
    }
    forall r | r in f.readers && t.writers != []
      ensures InAPair(f.pairs, r, false)
    {
      KeptEnd(t, matches, r);
    }
    assert f.writers != [] ==> f.writers[0] in f.writers;
    assert f.readers != [] ==> f.readers[0] in f.readers;
    CoveredBy(f);
  }

  /** What summarize() makes is covered to begin with. */
  lemma SummarizedIsCovered(es: seq<Endpoint>, display: string -> (string, string), glob: Glob, t: TopicSummary)
    requires Summarized(es, display, glob, t)
    ensures Product(t.writers, t.readers, t.pairs) && Sided(t) && DR.Covered(t)
  {
    AllPairsAreTheProduct(glob, t.writers, t.readers);
    SidesOn(es, t.ddsTopic, true);
    SidesOn(es, t.ddsTopic, false);
    hide AllPairs, EndsOn, UnmatchedReasons;
    forall w, r | w in t.writers && r in t.readers
      ensures InAPair(t.pairs, w, true) && InAPair(t.pairs, r, false)
    {
      assert HasPair(t.pairs, w, r);
      var p :| p in t.pairs && p.writer == w && p.reader == r;
      var j :| 0 <= j < |t.pairs| && t.pairs[j] == p;
    }
    assert t.pairs == [] || t.pairs[0] in t.pairs;
    assert t.writers == [] || t.writers[0] in t.writers;
    assert t.readers == [] || t.readers[0] in t.readers;
  }

  lemma {:induction false} SidesOn(es: seq<Endpoint>, topic: string, writers: bool)
    ensures forall e :: e in EndsOn(es, topic, writers) ==> e.isWriter == writers
  {
    if es != [] {
      SidesOn(es[..|es| - 1], topic, writers);
    }
  }
}
