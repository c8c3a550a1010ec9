/** The documents the viewer reads, and the identity it gives every pair (web/model.js). */
module Documents {
  import opened Text
  import opened Model
  import opened Ranks

  /** A number of a document; NaN is null, absent or not finite. */
  datatype Num = NaN | Val(v: real)

  datatype Latency = Latency(mean: Num, samples: Num)

  /** A transport text: one of the seven known names, or any other. */
  datatype DocTransport = Known(t: Transport) | Unrecognised(text: string)

  datatype DocMeasured = DocMeasured(
    transports: seq<DocTransport>, locators: seq<Locator>, deliveredPerS: Num,
    latency: Option<Latency>, lost: Option<Num>)

  datatype DocEndpoint = DocEndpoint(guid: string, node: string)

  datatype DocPair = DocPair(
    writerGuid: string, readerGuid: string, writerNode: string, readerNode: string,
    transport: DocTransport, confidence: Confidence, locator: Option<Locator>, warnings: seq<Code>,
    measured: Option<DocMeasured>)

  datatype DocTopic = DocTopic(topic: string, writers: seq<DocEndpoint>, readers: seq<DocEndpoint>, pairs: seq<DocPair>)

  datatype Doc = Doc(observedAt: string, changed: bool, topics: seq<DocTopic>)

  function KeyOf(t: DocTopic, p: DocPair): PairKey {
    PairKey(t.topic, p.writerGuid, p.readerGuid, p.writerNode, p.readerNode)
  }

  function KeyId(k: Ident): string {
    k.topic + "|" + k.writer + "|" + k.reader
  }

  /** The GUIDs a node has among `es`, in listed order. */
  function NodeGuids(es: seq<DocEndpoint>, node: string): seq<string> {
    if es == [] then []
    else NodeGuids(es[..|es| - 1], node) + (if es[|es| - 1].node == node then [es[|es| - 1].guid] else [])
  }

  function Position(i: int): string {
    if i < 0 then "-1" else Dec(i)
  }

  /** What a restart leaves of an endpoint: its node and its place among the GUIDs the node has there; the GUID if nameless. */
  function Identity(t: DocTopic, guid: string, node: string): string {
    if node == "" then "guid:" + guid
    else node + "#" + Position(IndexOf(Sort(NodeGuids(t.writers + t.readers, node)), guid))
  }

  function IdentOf(t: DocTopic, p: DocPair, key: KeyMode): Ident {
    if key.ByGuid? then KeyOf(t, p).Id()
    else Ident(t.topic, Identity(t, p.writerGuid, p.writerNode), Identity(t, p.readerGuid, p.readerNode))
  }

  /** One pair of a document with the key it has and the identity it is matched by. */
  datatype Called = Called(pair: DocPair, actual: PairKey, ident: Ident)

  function TopicCalls(t: DocTopic, key: KeyMode, n: nat): (cs: seq<Called>)
    requires n <= |t.pairs|
  {
    if n == 0 then []
    else TopicCalls(t, key, n - 1) + [Called(t.pairs[n - 1], KeyOf(t, t.pairs[n - 1]), IdentOf(t, t.pairs[n - 1], key))]
  }

  /** The calls forEachIdent() makes, in order. */
  function Calls(topics: seq<DocTopic>, key: KeyMode): seq<Called> {
    if topics == [] then []
    else
      var t := topics[|topics| - 1];
      Calls(topics[..|topics| - 1], key) + TopicCalls(t, key, |t.pairs|)
  }

  /** The node has an endpoint on the topic; a name that has none makes the lookup of its GUIDs throw. */
  predicate NodeListed(t: DocTopic, node: string) {
    node == "" || NodeGuids(t.writers + t.readers, node) != []
  }

  predicate PairResolved(t: DocTopic, p: DocPair) {
    NodeListed(t, p.writerNode) && NodeListed(t, p.readerNode)
  }

  predicate TopicResolved(t: DocTopic) {
    forall p :: p in t.pairs ==> PairResolved(t, p)
  }

  /** The identities of a document can be told: every pair names nodes that are listed on its topic. */
  predicate Resolved(d: Doc) {
    forall t :: t in d.topics ==> TopicResolved(t)
  }

  ghost predicate Grouped(es: seq<DocEndpoint>, byNode: map<string, seq<string>>) {
    forall n :: (n in byNode <==> n != "" && NodeGuids(es, n) != []) && (n in byNode ==> byNode[n] == NodeGuids(es, n))
  }

  method GroupByNode(es: seq<DocEndpoint>) returns (byNode: map<string, seq<string>>)
    ensures Grouped(es, byNode)
  {
    byNode := map[];
    for i := 0 to |es|
      invariant Grouped(es[..i], byNode)
    {
      var ep := es[i];
      assert es[..i + 1][..i] == es[..i];
      if ep.node != "" {
        byNode := byNode[ep.node := (if ep.node in byNode then byNode[ep.node] else []) + [ep.guid]];
      }
    }
    assert es[..|es|] == es;
  }

  /** None is the exception. */
  method IdentityIn(byNode: map<string, seq<string>>, t: DocTopic, guid: string, node: string)
    returns (id: Option<string>)
    requires Grouped(t.writers + t.readers, byNode)
    ensures id == if NodeListed(t, node) then Some(Identity(t, guid, node)) else None
  {
    if node == "" {
      return Some("guid:" + guid);
    }
    if node !in byNode {
      return None;
    }
    return Some(node + "#" + Position(IndexOf(Sort(byNode[node]), guid)));
  }

  /** The calls for the pairs of one topic. */
  method TopicIdents(t: DocTopic, key: KeyMode) returns (r: Option<seq<Called>>)
    ensures r == if key.ByNode? && !TopicResolved(t) then None else Some(TopicCalls(t, key, |t.pairs|))
  {
    var byNode := GroupByNode(t.writers + t.readers);
    hide NodeListed, Identity, Grouped;
    var calls: seq<Called> := [];
    for j := 0 to |t.pairs|
      invariant calls == TopicCalls(t, key, j)
      invariant key.ByNode? ==> forall k :: 0 <= k < j ==> PairResolved(t, t.pairs[k])
    {
      var p := t.pairs[j];
      var actual := KeyOf(t, p);
      var ident := actual.Id();
      if key.ByNode? {
        var writer := IdentityIn(byNode, t, p.writerGuid, p.writerNode);
        var reader := IdentityIn(byNode, t, p.readerGuid, p.readerNode);
        if writer.None? || reader.None? {
          assert p in t.pairs && !PairResolved(t, p);
          return None;
        }
        ident := Ident(t.topic, writer.value, reader.value);
      }
      calls := calls + [Called(p, actual, ident)];
    }
    r := Some(calls);
  }

  method ForEachIdent(d: Doc, key: KeyMode) returns (r: Option<seq<Called>>)
    ensures r == if key.ByNode? && !Resolved(d) then None else Some(Calls(d.topics, key))
  {
    hide TopicResolved, TopicCalls;
    var calls: seq<Called> := [];
    for i := 0 to |d.topics|
      invariant calls == Calls(d.topics[..i], key)
      invariant key.ByNode? ==> forall k :: 0 <= k < i ==> TopicResolved(d.topics[k])
    {
      var t := d.topics[i];
      assert d.topics[..i + 1][..i] == d.topics[..i];
      var more := TopicIdents(t, key);
      if more.None? {
        assert t in d.topics && !TopicResolved(t);
        return None;
      }
      calls := calls + more.value;
    }
    assert d.topics[..|d.topics|] == d.topics;
    r := Some(calls);
  }
}
