/** What a summarized pair and a topic without pairs say, over the endpoints' fields (decision.cpp). */
module SummaryLaws {
  import opened Model
  import opened Snapshot
  import opened Decision
  import opened BufferCompanions
  import opened Summaries
  import D = DecisionLaws

  // ---- companion topics

  lemma CompanionTopicIff(topic: string)
    ensures IsCompanionTopic(topic) <==> exists base: string :: base != "" && topic == base + "/_buf_cpu"
  {
    if IsCompanionTopic(topic) {
      var base := topic[..|topic| - 9];
      assert topic == base + topic[|topic| - 9..];
    }
  }

  /** Writer or reader alike, of one participant and type, on the companion topic of the other's. */
  lemma CandidateIff(p: Endpoint, c: Endpoint)
    ensures Candidate(p, c)
       <==> p.isWriter == c.isWriter && p.participant == c.participant && p.ddsType == c.ddsType
            && p.ddsTopic != "" && c.ddsTopic == p.ddsTopic + "/_buf_cpu"
  {
    if Candidate(p, c) {
      assert c.ddsTopic == c.ddsTopic[..|c.ddsTopic| - 9] + c.ddsTopic[|c.ddsTopic| - 9..];
    }
  }

  /** One more in the last byte of the key, carried over the bytes that are full, and the same kind. */
  lemma NextKeyIff(p: Endpoint, c: Endpoint)
    ensures var a, b := p.guidBytes, c.guidBytes;
            NextKey(p, c)
            <==> a[15] == b[15]
                 && ((a[14] as int + 1 == b[14] as int && a[13] == b[13] && a[12] == b[12])
                     || (a[14] == 255 && b[14] == 0 && a[13] as int + 1 == b[13] as int && a[12] == b[12])
                     || (a[14] == 255 && b[14] == 0 && a[13] == 255 && b[13] == 0 && a[12] as int + 1 == b[12] as int))
  {
  }

  // ---- reasons

  /** What a native-buffer code says of the endpoints. */
  ghost predicate BufferReason(es: seq<Endpoint>, c: Code) {
    match c
    case BufferCompanionFolded => exists e :: e in es && |e.bufferCompanions| > 0
    case BufferCompanion => exists e :: e in es && e.bufferParent != ""
    case BufferCompanionUnmatched => exists e :: e in es && e.bufferParent == "" && IsCompanionTopic(e.ddsTopic)
    case _ => false
  }

  lemma BufferCodesIff(es: seq<Endpoint>, c: Code)
    ensures c in BufferCodes(es) <==> BufferReason(es, c)
  {
    hide IsCompanionTopic;
    assert forall e :: e in es <==> exists i :: 0 <= i < |es| && es[i] == e;
  }

  /** A pair has the verdict of its endpoints, with the native-buffer codes among the reasons. */
  lemma PairIs(glob: Glob, w: Endpoint, r: Endpoint, c: Code)
    ensures var p, v := PairOf(glob, w, r), Decide(glob, w, r);
            p.writer == w && p.reader == r && p.measured == UNMEASURED
            && p.verdict == v.(reasons := p.verdict.reasons)
            && (c in p.verdict.reasons <==> D.Reason(glob, w, r, c) || BufferReason([w, r], c))
  {
    D.ReasonIff(glob, w, r, c);
    BufferCodesIff([w, r], c);
    hide Decide, D.Reason, BufferReason, BufferCodes;
  }

  /** Which side of a topic is empty, and of a topic without pairs what the buffer codes say. */
  lemma UnmatchedIff(ws: seq<Endpoint>, rs: seq<Endpoint>, pairs: seq<Pair>, c: Code)
    ensures c in UnmatchedReasons(ws, rs, pairs)
       <==> (c.NoMatchingWriter? && |ws| == 0) || (c.NoMatchingReader? && |rs| == 0)
            || (|pairs| == 0 && BufferReason(ws + rs, c))
  {
    BufferCodesIff(ws + rs, c);
    hide BufferReason, BufferCodes;
  }

  // ---- the node filter

  /** The endpoint is of a matching node and listed, or a partner of one that is. */
  ghost predicate Stays(t: TopicSummary, matches: Endpoint -> bool, e: Endpoint) {
    (matches(e) && (e in t.writers || e in t.readers))
    || exists p :: p in t.pairs && (e == p.writer || e == p.reader) && Chosen(t, matches, p)
  }

  /** One of its ends is listed and of a matching node. */
  ghost predicate Chosen(t: TopicSummary, matches: Endpoint -> bool, p: Pair) {
    (matches(p.writer) && (p.writer in t.writers || p.writer in t.readers))
    || (matches(p.reader) && (p.reader in t.writers || p.reader in t.readers))
  }

  lemma StaysIff(t: TopicSummary, matches: Endpoint -> bool, e: Endpoint)
    ensures e in KeepOf(t, matches) <==> Stays(t, matches, e)
    ensures forall p :: p in KeptPairs(t.pairs, Matching(t, matches)) <==> p in t.pairs && Chosen(t, matches, p)
  {
    KeptMember(t.pairs, Matching(t, matches));
    KeptPairsMember(t.pairs, Matching(t, matches));
    assert forall x :: x in Matching(t, matches) <==> matches(x) && (x in t.writers || x in t.readers);
    hide Matching, Kept, KeptPairs;
  }

  /** What the filter leaves of a topic: the pairs with a matching end, their ends, and what is then to say of it. */
  lemma FilteredIff(t: TopicSummary, matches: Endpoint -> bool, e: Endpoint, p: Pair, c: Code)
    ensures var f := FilteredTopic(t, matches);
            (e in f.writers <==> e in t.writers && Stays(t, matches, e))
            && (e in f.readers <==> e in t.readers && Stays(t, matches, e))
            && (p in f.pairs <==> p in t.pairs && Chosen(t, matches, p))
            && (c in f.unmatchedReasons
                <==> (c.NoMatchingWriter? && f.writers == []) || (c.NoMatchingReader? && f.readers == [])
                     || (f.pairs == [] && BufferReason(f.writers + f.readers, c)))
            && f == t.(writers := f.writers, readers := f.readers, pairs := f.pairs, unmatchedReasons := f.unmatchedReasons)
  {
    StaysIff(t, matches, e);
    var f := FilteredTopic(t, matches);
    PrunedMember(t.writers, KeepOf(t, matches));
    PrunedMember(t.readers, KeepOf(t, matches));
    UnmatchedIff(f.writers, f.readers, f.pairs, c);
    hide KeepOf, KeptPairs, Stays, Chosen, BufferReason, UnmatchedReasons, Pruned;
  }
}
