/** The viewer's comparison of two documents, and that it lists what the command-line tool lists (web/model.js). */
module DocumentDiff {
  import opened Model
  import opened Documents
  import O = OrderedPairs

  // ---- what is compared

  datatype DocState = DocState(
    transport: DocTransport, confidence: Confidence, measured: seq<DocTransport>, locator: Option<Locator>,
    measuredLocators: seq<Locator>, warnings: seq<Code>)

  function DocStateOf(p: DocPair): DocState {
    DocState(p.transport, p.confidence,
             if p.measured.Some? then p.measured.value.transports else [],
             p.locator,
             if p.measured.Some? then p.measured.value.locators else [],
             p.warnings)
  }

  predicate SameLocator(a: Option<Locator>, b: Option<Locator>, ignorePorts: bool) {
    if a.None? || b.None? then a == b
    else a.value.kind == b.value.kind && a.value.address == b.value.address && (ignorePorts || a.value.port == b.value.port)
  }

  predicate SameDocState(a: DocState, b: DocState, ignorePorts: bool) {
    a.transport == b.transport && a.confidence == b.confidence
    && |a.measured| == |b.measured| && (forall i :: 0 <= i < |a.measured| ==> a.measured[i] == b.measured[i])
    && SameLocator(a.locator, b.locator, ignorePorts)
    && |a.measuredLocators| == |b.measuredLocators|
    && (forall i :: 0 <= i < |a.measuredLocators| ==>
          SameLocator(Some(a.measuredLocators[i]), Some(b.measuredLocators[i]), ignorePorts))
    && |a.warnings| == |b.warnings| && (forall i :: 0 <= i < |a.warnings| ==> a.warnings[i] == b.warnings[i])
  }

  datatype DocEntry = DocEntry(ident: Ident, key: PairKey, state: DocState)

  function EntriesOf(calls: seq<Called>): (es: seq<DocEntry>)
    ensures |es| == |calls|
  {
    seq(|calls|, i requires 0 <= i < |calls| => DocEntry(calls[i].ident, calls[i].actual, DocStateOf(calls[i].pair)))
  }

  /** A stable sort puts a new last entry after every entry that does not come later. */
  function PutAfter(es: seq<DocEntry>, e: DocEntry): seq<DocEntry> {
    if es == [] || O.IdentLess(e.ident, es[0].ident) then [e] + es else [es[0]] + PutAfter(es[1..], e)
  }

  function StableSort(es: seq<DocEntry>): seq<DocEntry> {
    if es == [] then [] else PutAfter(StableSort(es[..|es| - 1]), es[|es| - 1])
  }

  function DocKeyed(d: Doc, key: KeyMode): seq<DocEntry> {
    StableSort(EntriesOf(Calls(d.topics, key)))
  }

  method KeyedPairs(d: Doc, key: KeyMode) returns (r: Option<seq<DocEntry>>)
    ensures r == if key.ByNode? && !Resolved(d) then None else Some(DocKeyed(d, key))
  {
    hide Resolved;
    var made := ForEachIdent(d, key);
    if made.None? {
      return None;
    }
    var calls, out := made.value, [];
    for i := 0 to |calls|
      invariant out == EntriesOf(calls)[..i]
    {
      out := out + [DocEntry(calls[i].ident, calls[i].actual, DocStateOf(calls[i].pair))];
    }
    assert EntriesOf(calls)[..|calls|] == EntriesOf(calls);
    r := Some(StableSort(out));
  }

  // ---- the comparison

  /** A JavaScript Map: keys in the order they were first set, and the value last set under each. */
  datatype JsMap = JsMap(order: seq<string>, at: map<string, DocEntry>) {
    function Set(id: string, e: DocEntry): JsMap {
      JsMap(if id in at then order else order + [id], at[id := e])
    }
  }

  function MapOf(es: seq<DocEntry>): JsMap {
    if es == [] then JsMap([], map[])
    else MapOf(es[..|es| - 1]).Set(KeyId(es[|es| - 1].ident), es[|es| - 1])
  }

  datatype DocChange = DocChange(key: PairKey, from: DocState, to: DocState, writerGuid: string, readerGuid: string)

  datatype DocChanges = DocChanges(added: seq<PairKey>, removed: seq<PairKey>, changed: seq<DocChange>)

  function AddedOf(prev: map<string, DocEntry>, cur: seq<DocEntry>): seq<PairKey> {
    if cur == [] then []
    else
      var e := cur[|cur| - 1];
      AddedOf(prev, cur[..|cur| - 1]) + (if KeyId(e.ident) !in prev then [e.key] else [])
  }

  function ChangedOf(prev: map<string, DocEntry>, cur: seq<DocEntry>, ignorePorts: bool): seq<DocChange> {
    if cur == [] then []
    else
      var e := cur[|cur| - 1];
      ChangedOf(prev, cur[..|cur| - 1], ignorePorts)
      + (if KeyId(e.ident) in prev && !SameDocState(prev[KeyId(e.ident)].state, e.state, ignorePorts)
         then [ChangeOf(prev[KeyId(e.ident)], e)] else [])
  }

  function ChangeOf(p: DocEntry, e: DocEntry): DocChange {
    DocChange(e.key, p.state, e.state, p.key.writerGuid, p.key.readerGuid)
  }

  function RemovedOf(prev: JsMap, n: nat, seen: set<string>): seq<PairKey>
    requires n <= |prev.order| && forall id :: id in prev.order ==> id in prev.at
  {
    if n == 0 then []
    else RemovedOf(prev, n - 1, seen) + (if prev.order[n - 1] !in seen then [prev.at[prev.order[n - 1]].key] else [])
  }

  function Seen(cur: seq<DocEntry>): set<string> {
    set e | e in cur :: KeyId(e.ident)
  }

  lemma {:induction false} MapOfClosed(es: seq<DocEntry>)
    ensures forall id :: id in MapOf(es).order <==> id in MapOf(es).at
  {
    if es != [] {
      MapOfClosed(es[..|es| - 1]);
    }
  }

  function DocDiffOf(before: Doc, after: Doc, key: KeyMode): DocChanges {
    var prev, cur := MapOf(DocKeyed(before, key)), DocKeyed(after, key);
    MapOfClosed(DocKeyed(before, key));
    DocChanges(AddedOf(prev.at, cur), RemovedOf(prev, |prev.order|, Seen(cur)), ChangedOf(prev.at, cur, key.ByNode?))
  }

  method NewMap(es: seq<DocEntry>) returns (m: JsMap)
    ensures m == MapOf(es)
  {
    m := JsMap([], map[]);
    for i := 0 to |es|
      invariant m == MapOf(es[..i])
    {
      assert es[..i + 1][..i] == es[..i];
      m := m.Set(KeyId(es[i].ident), es[i]);
    }
    assert es[..|es|] == es;
  }

  /** The loop over the after document's pairs. */
  method Compare(prev: map<string, DocEntry>, cur: seq<DocEntry>, ignorePorts: bool)
    returns (added: seq<PairKey>, changed: seq<DocChange>, seen: set<string>)
    ensures added == AddedOf(prev, cur) && changed == ChangedOf(prev, cur, ignorePorts) && seen == Seen(cur)
  {
    hide KeyId, SameDocState;
    added, changed, seen := [], [], {};
    for i := 0 to |cur|
      invariant added == AddedOf(prev, cur[..i]) && changed == ChangedOf(prev, cur[..i], ignorePorts)
      invariant seen == Seen(cur[..i])
    {
      assert cur[..i + 1][..i] == cur[..i];
      SeenSnoc(cur[..i], cur[i]);
      assert cur[..i + 1] == cur[..i] + [cur[i]];
      hide Seen;
      var e := cur[i];
      var id := KeyId(e.ident);
      seen := seen + {id};
      if id !in prev {
        added := added + [e.key];
      } else if !SameDocState(prev[id].state, e.state, ignorePorts) {
        changed := changed + [ChangeOf(prev[id], e)];
      }
    }
    assert cur[..|cur|] == cur;
  }

  lemma SeenSnoc(cur: seq<DocEntry>, e: DocEntry)
    ensures Seen(cur + [e]) == Seen(cur) + {KeyId(e.ident)}
  {
    hide KeyId;
    assert forall x :: x in cur + [e] <==> x in cur || x == e;
  }

  method DiffDocuments(before: Doc, after: Doc, key: KeyMode) returns (r: Option<DocChanges>)
    ensures r == if key.ByNode? && !(Resolved(before) && Resolved(after)) then None else Some(DocDiffOf(before, after, key))
  {
    hide DocKeyed, MapOf, AddedOf, ChangedOf, Seen, Resolved;
    var earlier := KeyedPairs(before, key);
    if earlier.None? {
      return None;
    }
    var prev := NewMap(earlier.value);
    MapOfClosed(earlier.value);
    var cur := KeyedPairs(after, key);
    if cur.None? {
      return None;
    }
    var added, changed, seen := Compare(prev.at, cur.value, key.ByNode?);
    var removed := [];
    for i := 0 to |prev.order|
      invariant removed == RemovedOf(prev, i, seen)
    {
      if prev.order[i] !in seen {
        removed := removed + [prev.at[prev.order[i]].key];
      }
    }
    r := Some(DocChanges(added, removed, changed));
  }
}
