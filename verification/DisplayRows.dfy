/** The table rows: a row a plain topic, and a row a service or action group between two participants (decision.cpp). */
module DisplayRows {
  import opened Model
  import opened Snapshot
  import opened OrderedPairs

  datatype PairRef = PairRef(topic: nat, pair: nat)

  datatype EndRef = EndRef(topic: nat, writers: bool, at: nat)

  /** A row; topics, pairs and endpoints are told by their places. The sort key is (name, requester, replier). */
  datatype Row = Row(
    kind: TopicKind, key: Ident, topic: Option<nat>, client: Option<Endpoint>, server: Option<Endpoint>,
    toServer: seq<PairRef>, toClient: seq<PairRef>,
    members: seq<nat>, unpairedMembers: seq<nat>, unpairedEndpoints: seq<EndRef>)

  predicate Grouped(t: TopicSummary) {
    t.kind == Service || t.kind == Action
  }

  function ParticipantOf(e: Option<Endpoint>): string {
    if e.Some? then e.value.participant else ""
  }

  function GroupKey(t: TopicSummary, client: Option<Endpoint>, server: Option<Endpoint>): Ident {
    Ident(t.group, ParticipantOf(client), ParticipantOf(server))
  }

  function ToServer(t: TopicSummary): bool {
    t.direction == GroupDirection.ToServer
  }

  function ClientOf(t: TopicSummary, p: Pair): Endpoint {
    if ToServer(t) then p.writer else p.reader
  }

  function ServerOf(t: TopicSummary, p: Pair): Endpoint {
    if ToServer(t) then p.reader else p.writer
  }

  function EndAt(t: TopicSummary, writers: bool, at: nat): Endpoint
    requires at < |if writers then t.writers else t.readers|
  {
    if writers then t.writers[at] else t.readers[at]
  }

  /** The key of an unpaired endpoint's half-open row. */
  function HalfKey(t: TopicSummary, e: Endpoint): Ident {
    var isClient := if ToServer(t) then e.isWriter else !e.isWriter;
    GroupKey(t, if isClient then Some(e) else None, if isClient then None else Some(e))
  }

  // ---- what the rows hold

  datatype Item =
    | PlainItem(topic: nat, kind: TopicKind, key: Ident)
    | PairItem(ref: PairRef, toServer: bool, key: Ident)
    | EndItem(end: EndRef, key: Ident)

  function PairItems(refs: seq<PairRef>, toServer: bool, key: Ident): multiset<Item> {
    if refs == [] then multiset{}
    else PairItems(refs[..|refs| - 1], toServer, key) + multiset{PairItem(refs[|refs| - 1], toServer, key)}
  }

  function EndItems(ends: seq<EndRef>, key: Ident): multiset<Item> {
    if ends == [] then multiset{} else EndItems(ends[..|ends| - 1], key) + multiset{EndItem(ends[|ends| - 1], key)}
  }

  function ItemsOf(r: Row): multiset<Item> {
    (if r.topic.Some? then multiset{PlainItem(r.topic.value, r.kind, r.key)} else multiset{})
    + PairItems(r.toServer, true, r.key) + PairItems(r.toClient, false, r.key) + EndItems(r.unpairedEndpoints, r.key)
  }

  function Items(rows: seq<Row>): multiset<Item> {
    if rows == [] then multiset{} else Items(rows[..|rows| - 1]) + ItemsOf(rows[|rows| - 1])
  }

  /** A row's member topics are those of its pairs and endpoints, each once, and its two ends are those of its key. */
  ghost predicate RowSound(r: Row) {
    (forall m: nat :: m in r.members <==> HasTopic(r, m))
    && (forall m: nat ::
          m in r.unpairedMembers <==> exists k :: 0 <= k < |r.unpairedEndpoints| && r.unpairedEndpoints[k].topic == m)
    && Distinct(r.members) && Distinct(r.unpairedMembers)
    && (r.topic.None? ==> r.key.writer == ParticipantOf(r.client) && r.key.reader == ParticipantOf(r.server))
  }

  ghost predicate HasTopic(r: Row, m: nat) {
    r.topic == Some(m)
    || (exists k :: 0 <= k < |r.toServer| && r.toServer[k].topic == m)
    || (exists k :: 0 <= k < |r.toClient| && r.toClient[k].topic == m)
    || (exists k :: 0 <= k < |r.unpairedEndpoints| && r.unpairedEndpoints[k].topic == m)
  }

  ghost predicate Distinct(s: seq<nat>) {
    forall i, j :: 0 <= i < j < |s| ==> s[i] != s[j]
  }

  ghost predicate RowsSound(rows: seq<Row>) {
    forall r :: r in rows ==> RowSound(r)
  }

  // ---- the order inside a row

  /** Where something is listed: its topic, the side of the topic, and the place there. */
  type Place = (nat, nat, nat)

  predicate Before(a: Place, b: Place) {
    a.0 < b.0 || (a.0 == b.0 && (a.1 < b.1 || (a.1 == b.1 && a.2 < b.2)))
  }

  function PairPlace(ref: PairRef): Place {
    (ref.topic, 0, ref.pair)
  }

  /** The writers of a topic come before its readers. */
  function Side(writers: bool): nat {
    if writers then 0 else 1
  }

  function EndPlace(end: EndRef): Place {
    (end.topic, Side(end.writers), end.at)
  }

  function PairPlaces(refs: seq<PairRef>): seq<Place> {
    seq(|refs|, i requires 0 <= i < |refs| => PairPlace(refs[i]))
  }

  function EndPlaces(ends: seq<EndRef>): seq<Place> {
    seq(|ends|, i requires 0 <= i < |ends| => EndPlace(ends[i]))
  }

  ghost predicate Rising(s: seq<Place>, bound: Place) {
    (forall i, j :: 0 <= i < j < |s| ==> Before(s[i], s[j])) && forall i :: 0 <= i < |s| ==> Before(s[i], bound)
  }

  ghost predicate MembersRise(members: seq<nat>, bound: Place) {
    (forall i, j :: 0 <= i < j < |members| ==> members[i] < members[j])
    && forall i :: 0 <= i < |members| ==> members[i] <= bound.0
  }

  /** What a row holds is in listed order, and all of it listed before `bound`. */
  ghost predicate InOrder(r: Row, bound: Place) {
    Rising(PairPlaces(r.toServer), bound) && Rising(PairPlaces(r.toClient), bound)
    && Rising(EndPlaces(r.unpairedEndpoints), bound) && MembersRise(r.members, bound)
  }

  /** A group row holds something, and is of its first member's kind; a plain row holds its topic only. */
  ghost predicate OfItsKind(ts: seq<TopicSummary>, r: Row) {
    if r.topic.None? then r.members != [] && r.members[0] < |ts| && ts[r.members[0]].kind == r.kind
    else r.toServer == [] && r.toClient == [] && r.unpairedEndpoints == []
  }

  ghost predicate Listed(ts: seq<TopicSummary>, rows: seq<Row>, bound: Place) {
    forall r :: r in rows ==> InOrder(r, bound) && OfItsKind(ts, r)
  }

  /** Row `at` has just been opened for a topic of that kind, or was there; the others are as they were. */
  ghost predicate ListedBut(ts: seq<TopicSummary>, rows: seq<Row>, bound: Place, at: nat, kind: TopicKind)
    requires at < |rows|
  {
    (forall k :: 0 <= k < |rows| ==> InOrder(rows[k], bound) && (k != at ==> OfItsKind(ts, rows[k])))
    && (OfItsKind(ts, rows[at]) || (rows[at].members == [] && rows[at].kind == kind))
  }

  lemma RisingSnoc(s: seq<Place>, p: Place, bound: Place)
    requires Rising(s, p) && Before(p, bound)
    ensures Rising(s + [p], bound)
  {
  }

  lemma Later(r: Row, a: Place, b: Place)
    requires InOrder(r, a) && (a == b || Before(a, b))
    ensures InOrder(r, b)
  {
  }

  lemma ListedLater(ts: seq<TopicSummary>, rows: seq<Row>, a: Place, b: Place)
    requires Listed(ts, rows, a) && (a == b || Before(a, b))
    ensures Listed(ts, rows, b)
  {
    hide InOrder, OfItsKind, Before;
    forall r | r in rows
      ensures InOrder(r, b)
    {
      Later(r, a, b);
    }
  }

  /** One more pair, listed after everything in the row. */
  lemma WithPairInOrder(r: Row, ref: PairRef, toServer: bool)
    requires InOrder(r, PairPlace(ref))
    ensures InOrder(WithPair(r, ref, toServer), (ref.topic, 0, ref.pair + 1))
  {
    var p, bound := PairPlace(ref), (ref.topic, 0, ref.pair + 1);
    assert PairPlaces(r.toServer + [ref]) == PairPlaces(r.toServer) + [p];
    assert PairPlaces(r.toClient + [ref]) == PairPlaces(r.toClient) + [p];
    RisingSnoc(PairPlaces(r.toServer), p, bound);
    RisingSnoc(PairPlaces(r.toClient), p, bound);
    Later(r, p, bound);
  }

  lemma WithEndInOrder(r: Row, end: EndRef)
    requires InOrder(r, EndPlace(end))
    ensures InOrder(WithEnd(r, end), (end.topic, EndPlace(end).1, end.at + 1))
  {
    var p, bound := EndPlace(end), (end.topic, EndPlace(end).1, end.at + 1);
    assert EndPlaces(r.unpairedEndpoints + [end]) == EndPlaces(r.unpairedEndpoints) + [p];
    RisingSnoc(EndPlaces(r.unpairedEndpoints), p, bound);
    Later(r, p, bound);
  }

  /** The row opened or found gets what it was asked for. */
  lemma ReplaceListed(ts: seq<TopicSummary>, rows: seq<Row>, at: nat, r: Row, i: nat, a: Place, b: Place)
    requires at < |rows| && i < |ts| && ListedBut(ts, rows, a, at, ts[i].kind) && (a == b || Before(a, b))
    requires rows[at].topic.None? && InOrder(r, b)
    requires r.topic == rows[at].topic && r.kind == rows[at].kind && r.members == Added(rows[at].members, i)
    ensures Listed(ts, rows[at := r], b)
  {
    hide InOrder, Before;
    forall k | 0 <= k < |rows|
      ensures InOrder(rows[k], b)
    {
      Later(rows[k], a, b);
    }
  }

  // ---- what they should hold: every plain topic, every pair of a group topic, and the endpoints of those without pairs

  function ItemOfTopic(ts: seq<TopicSummary>, i: nat): Item
    requires i < |ts|
  {
    PlainItem(i, ts[i].kind, Ident(ts[i].displayTopic, "", ""))
  }

  function ItemOfPair(ts: seq<TopicSummary>, i: nat, j: nat): Item
    requires i < |ts| && j < |ts[i].pairs|
  {
    var t, p := ts[i], ts[i].pairs[j];
    PairItem(PairRef(i, j), ToServer(t), GroupKey(t, Some(ClientOf(t, p)), Some(ServerOf(t, p))))
  }

  function ItemOfEnd(ts: seq<TopicSummary>, i: nat, writers: bool, at: nat): Item
    requires i < |ts| && at < |if writers then ts[i].writers else ts[i].readers|
  {
    EndItem(EndRef(i, writers, at), HalfKey(ts[i], EndAt(ts[i], writers, at)))
  }

  function PairsExpected(ts: seq<TopicSummary>, i: nat, n: nat): multiset<Item>
    requires i < |ts| && n <= |ts[i].pairs|
  {
    if n == 0 then multiset{} else PairsExpected(ts, i, n - 1) + multiset{ItemOfPair(ts, i, n - 1)}
  }

  function EndsExpected(ts: seq<TopicSummary>, i: nat, writers: bool, n: nat): multiset<Item>
    requires i < |ts| && n <= |if writers then ts[i].writers else ts[i].readers|
  {
    if n == 0 then multiset{} else EndsExpected(ts, i, writers, n - 1) + multiset{ItemOfEnd(ts, i, writers, n - 1)}
  }

  function TopicExpected(ts: seq<TopicSummary>, i: nat): multiset<Item>
    requires i < |ts|
  {
    var t := ts[i];
    if !Grouped(t) then multiset{ItemOfTopic(ts, i)}
    else if t.pairs != [] then PairsExpected(ts, i, |t.pairs|)
    else EndsExpected(ts, i, true, |t.writers|) + EndsExpected(ts, i, false, |t.readers|)
  }

  function Expected(ts: seq<TopicSummary>, n: nat): multiset<Item>
    requires n <= |ts|
  {
    if n == 0 then multiset{} else Expected(ts, n - 1) + TopicExpected(ts, n - 1)
  }

  // ---- the rows under way

  /** The index finds the one group row of every key. */
  ghost predicate Indexed(rows: seq<Row>, index: map<Ident, nat>) {
    (forall k :: k in index ==> index[k] < |rows| && rows[index[k]].topic.None? && rows[index[k]].key == k)
    && (forall i :: 0 <= i < |rows| && rows[i].topic.None? ==> rows[i].key in index && index[rows[i].key] == i)
  }

  function Added(members: seq<nat>, t: nat): seq<nat> {
    if t in members then members else members + [t]
  }

  lemma {:induction false} ReplaceItems(rows: seq<Row>, at: nat, r: Row, extra: multiset<Item>)
    requires at < |rows| && ItemsOf(r) == ItemsOf(rows[at]) + extra
    ensures Items(rows[at := r]) == Items(rows) + extra
  {
    hide ItemsOf;
    var n := |rows| - 1;
    if at < n {
      ReplaceItems(rows[..n], at, r, extra);
      assert rows[at := r][..n] == rows[..n][at := r];
    } else {
      assert rows[at := r][..n] == rows[..n];
    }
  }

  lemma AppendItems(rows: seq<Row>, r: Row)
    ensures Items(rows + [r]) == Items(rows) + ItemsOf(r)
  {
    hide ItemsOf;
    assert (rows + [r])[..|rows|] == rows;
  }

  lemma NothingYet(r: Row)
    requires r.topic.None? && r.toServer == [] && r.toClient == [] && r.unpairedEndpoints == []
    ensures ItemsOf(r) == multiset{}
  {
  }

  lemma AppendIndexed(rows: seq<Row>, index: map<Ident, nat>, r: Row)
    requires Indexed(rows, index) && r.topic.None? && r.key !in index
    ensures Indexed(rows + [r], index[r.key := |rows|])
  {
  }

  /** A row with one more pair, on the side of its topic's direction. */
  function WithPair(r: Row, ref: PairRef, toServer: bool): Row {
    if toServer then r.(members := Added(r.members, ref.topic), toServer := r.toServer + [ref])
    else r.(members := Added(r.members, ref.topic), toClient := r.toClient + [ref])
  }

  function WithEnd(r: Row, end: EndRef): Row {
    r.(members := Added(r.members, end.topic), unpairedMembers := Added(r.unpairedMembers, end.topic),
       unpairedEndpoints := r.unpairedEndpoints + [end])
  }

  lemma WithPairItems(r: Row, ref: PairRef, toServer: bool)
    ensures ItemsOf(WithPair(r, ref, toServer)) == ItemsOf(r) + multiset{PairItem(ref, toServer, r.key)}
  {
    assert (r.toServer + [ref])[..|r.toServer|] == r.toServer;
    assert (r.toClient + [ref])[..|r.toClient|] == r.toClient;
  }

  lemma {:induction false} RefsSnoc(refs: seq<PairRef>, ref: PairRef, m: nat)
    ensures (exists k :: 0 <= k < |refs + [ref]| && (refs + [ref])[k].topic == m)
       <==> ref.topic == m || exists k :: 0 <= k < |refs| && refs[k].topic == m
  {
    var more := refs + [ref];
    assert more[|refs|] == ref && forall k :: 0 <= k < |refs| ==> more[k] == refs[k];
  }

  lemma WithPairSound(r: Row, ref: PairRef, toServer: bool)
    requires RowSound(r)
    ensures RowSound(WithPair(r, ref, toServer))
  {
    var more := WithPair(r, ref, toServer);
    forall m: nat
      ensures m in more.members <==> HasTopic(more, m)
    {
      RefsSnoc(r.toServer, ref, m);
      RefsSnoc(r.toClient, ref, m);
      assert m in r.members <==> HasTopic(r, m);
    }
  }

  lemma WithEndSound(r: Row, end: EndRef)
    requires RowSound(r)
    ensures RowSound(WithEnd(r, end))
  {
    var more := WithEnd(r, end);
    var n := |r.unpairedEndpoints|;
    assert more.unpairedEndpoints[n] == end && forall k :: 0 <= k < n ==> more.unpairedEndpoints[k] == r.unpairedEndpoints[k];
    forall m: nat
      ensures m in more.members <==> HasTopic(more, m)
      ensures m in more.unpairedMembers
         <==> exists k :: 0 <= k < |more.unpairedEndpoints| && more.unpairedEndpoints[k].topic == m
    {
      assert m in r.members <==> HasTopic(r, m);
    }
  }

  lemma WithEndItems(r: Row, end: EndRef)
    ensures ItemsOf(WithEnd(r, end)) == ItemsOf(r) + multiset{EndItem(end, r.key)}
  {
    assert (r.unpairedEndpoints + [end])[..|r.unpairedEndpoints|] == r.unpairedEndpoints;
  }

  /** row_for(): the row of a group between two participants, opened when it is not there yet. */
  method RowFor(ghost ts: seq<TopicSummary>, ghost bound: Place, rows: seq<Row>, index: map<Ident, nat>,
                t: TopicSummary, client: Option<Endpoint>, server: Option<Endpoint>)
    returns (rows': seq<Row>, index': map<Ident, nat>, at: nat)
    requires Indexed(rows, index) && RowsSound(rows) && Listed(ts, rows, bound)
    ensures RowsSound(rows') && Indexed(rows', index') && at < |rows'| && ListedBut(ts, rows', bound, at, t.kind)
    ensures at < |rows'| && rows'[at].topic.None? && rows'[at].key == GroupKey(t, client, server)
    ensures Items(rows') == Items(rows)
  {
    hide Items, ItemsOf, OfItsKind, InOrder;
    var key := GroupKey(t, client, server);
    rows', index' := rows, index;
    if key !in index {
      var row := Row(t.kind, key, None, client, server, [], [], [], [], []);
      AppendItems(rows, row);
      NothingYet(row);
      AppendIndexed(rows, index, row);
      assert RowSound(row);
      EmptyInOrder(row, bound);
      index' := index[key := |rows|];
      rows' := rows + [row];
    }
    at := index'[key];
  }

  lemma EmptyInOrder(r: Row, bound: Place)
    requires r.toServer == [] && r.toClient == [] && r.unpairedEndpoints == [] && r.members == []
    ensures InOrder(r, bound)
  {
  }

  lemma ReplaceIndexed(rows: seq<Row>, index: map<Ident, nat>, at: nat, r: Row)
    requires Indexed(rows, index) && at < |rows| && rows[at].topic.None? && r.topic.None? && r.key == rows[at].key
    ensures Indexed(rows[at := r], index)
  {
  }

  method PutPair(rows: seq<Row>, index: map<Ident, nat>, ts: seq<TopicSummary>, i: nat, j: nat)
    returns (rows': seq<Row>, index': map<Ident, nat>)
    requires Indexed(rows, index) && RowsSound(rows) && i < |ts| && j < |ts[i].pairs| && Listed(ts, rows, (i, 0, j))
    ensures RowsSound(rows') && Indexed(rows', index') && Items(rows') == Items(rows) + multiset{ItemOfPair(ts, i, j)}
    ensures Listed(ts, rows', (i, 0, j + 1))
  {
    hide Items, ItemsOf, Indexed, RowSound, InOrder, OfItsKind, Listed;
    var t, p := ts[i], ts[i].pairs[j];
    var at;
    rows', index', at := RowFor(ts, (i, 0, j), rows, index, t, Some(ClientOf(t, p)), Some(ServerOf(t, p)));
    var row := rows'[at];
    var more := row.(members := Added(row.members, i));
    if ToServer(t) {
      more := more.(toServer := row.toServer + [PairRef(i, j)]);
    } else {
      more := more.(toClient := row.toClient + [PairRef(i, j)]);
    }
    assert more == WithPair(row, PairRef(i, j), ToServer(t));
    WithPairItems(row, PairRef(i, j), ToServer(t));
    WithPairSound(row, PairRef(i, j), ToServer(t));
    WithPairInOrder(row, PairRef(i, j), ToServer(t));
    ReplaceListed(ts, rows', at, more, i, (i, 0, j), (i, 0, j + 1));
    ReplaceIndexed(rows', index', at, more);
    ReplaceItems(rows', at, more, multiset{ItemOfPair(ts, i, j)});
    rows' := rows'[at := more];
  }

  method PutEnd(rows: seq<Row>, index: map<Ident, nat>, ts: seq<TopicSummary>, i: nat, writers: bool, at: nat)
    returns (rows': seq<Row>, index': map<Ident, nat>)
    requires Indexed(rows, index) && RowsSound(rows) && i < |ts| && at < |if writers then ts[i].writers else ts[i].readers|
    requires Listed(ts, rows, (i, Side(writers), at))
    ensures RowsSound(rows') && Indexed(rows', index') && Items(rows') == Items(rows) + multiset{ItemOfEnd(ts, i, writers, at)}
    ensures Listed(ts, rows', (i, Side(writers), at + 1))
  {
    hide Items, ItemsOf, Indexed, RowSound, InOrder, OfItsKind, Listed;
    var t, e := ts[i], EndAt(ts[i], writers, at);
    var isClient := if ToServer(t) then e.isWriter else !e.isWriter;
    var place;
    rows', index', place := RowFor(ts, (i, Side(writers), at), rows, index, t,
                                   if isClient then Some(e) else None, if isClient then None else Some(e));
    var row := rows'[place];
    var more := row.(members := Added(row.members, i), unpairedMembers := Added(row.unpairedMembers, i),
                     unpairedEndpoints := row.unpairedEndpoints + [EndRef(i, writers, at)]);
    assert more == WithEnd(row, EndRef(i, writers, at));
    WithEndItems(row, EndRef(i, writers, at));
    WithEndSound(row, EndRef(i, writers, at));
    WithEndInOrder(row, EndRef(i, writers, at));
    ReplaceListed(ts, rows', place, more, i, (i, Side(writers), at), (i, Side(writers), at + 1));
    ReplaceIndexed(rows', index', place, more);
    ReplaceItems(rows', place, more, multiset{ItemOfEnd(ts, i, writers, at)});
    rows' := rows'[place := more];
  }

  function PlainRow(ts: seq<TopicSummary>, i: nat): Row
    requires i < |ts|
  {
    Row(ts[i].kind, Ident(ts[i].displayTopic, "", ""), Some(i), None, None, [], [], [i], [], [])
  }

  lemma PlainRowHolds(ts: seq<TopicSummary>, i: nat)
    requires i < |ts|
    ensures ItemsOf(PlainRow(ts, i)) == multiset{ItemOfTopic(ts, i)}
  {
  }

  lemma PlainRowSound(ts: seq<TopicSummary>, i: nat)
    requires i < |ts|
    ensures RowSound(PlainRow(ts, i)) && InOrder(PlainRow(ts, i), (i + 1, 0, 0)) && OfItsKind(ts, PlainRow(ts, i))
  {
  }

  method PutPlain(rows: seq<Row>, index: map<Ident, nat>, ts: seq<TopicSummary>, i: nat) returns (rows': seq<Row>)
    requires Indexed(rows, index) && RowsSound(rows) && i < |ts| && !Grouped(ts[i]) && Listed(ts, rows, (i, 0, 0))
    ensures RowsSound(rows') && Indexed(rows', index) && Items(rows') == Items(rows) + TopicExpected(ts, i)
    ensures Listed(ts, rows', (i + 1, 0, 0))
  {
    hide Items, ItemsOf, RowSound, InOrder;
    var row := Row(ts[i].kind, Ident(ts[i].displayTopic, "", ""), Some(i), None, None, [], [], [i], [], []);
    assert row == PlainRow(ts, i);
    AppendItems(rows, row);
    PlainRowHolds(ts, i);
    PlainRowSound(ts, i);
    ListedLater(ts, rows, (i, 0, 0), (i + 1, 0, 0));
    rows' := rows + [row];
  }

  method PutPairs(rows: seq<Row>, index: map<Ident, nat>, ts: seq<TopicSummary>, i: nat)
    returns (rows': seq<Row>, index': map<Ident, nat>)
    requires Indexed(rows, index) && RowsSound(rows) && i < |ts| && Listed(ts, rows, (i, 0, 0))
    ensures RowsSound(rows') && Indexed(rows', index') && Items(rows') == Items(rows) + PairsExpected(ts, i, |ts[i].pairs|)
    ensures Listed(ts, rows', (i + 1, 0, 0))
  {
    hide Items, Indexed, ItemOfPair, RowsSound, Listed;
    rows', index' := rows, index;
    for j := 0 to |ts[i].pairs|
      invariant RowsSound(rows') && Indexed(rows', index') && Items(rows') == Items(rows) + PairsExpected(ts, i, j)
      invariant Listed(ts, rows', (i, 0, j))
    {
      rows', index' := PutPair(rows', index', ts, i, j);
    }
    ListedLater(ts, rows', (i, 0, |ts[i].pairs|), (i + 1, 0, 0));
  }

  method PutEnds(rows: seq<Row>, index: map<Ident, nat>, ts: seq<TopicSummary>, i: nat, writers: bool)
    returns (rows': seq<Row>, index': map<Ident, nat>)
    requires Indexed(rows, index) && RowsSound(rows) && i < |ts| && Listed(ts, rows, (i, Side(writers), 0))
    ensures RowsSound(rows') && Indexed(rows', index') && Listed(ts, rows', (i, Side(writers) + 1, 0))
    ensures Items(rows') == Items(rows) + EndsExpected(ts, i, writers, |if writers then ts[i].writers else ts[i].readers|)
  {
    hide Items, Indexed, ItemOfEnd, RowsSound, Listed;
    rows', index' := rows, index;
    for k := 0 to |if writers then ts[i].writers else ts[i].readers|
      invariant RowsSound(rows') && Indexed(rows', index') && Items(rows') == Items(rows) + EndsExpected(ts, i, writers, k)
      invariant Listed(ts, rows', (i, Side(writers), k))
    {
      rows', index' := PutEnd(rows', index', ts, i, writers, k);
    }
    var n := |if writers then ts[i].writers else ts[i].readers|;
    ListedLater(ts, rows', (i, Side(writers), n), (i, Side(writers) + 1, 0));
  }

  method PutTopic(rows: seq<Row>, index: map<Ident, nat>, ts: seq<TopicSummary>, i: nat)
    returns (rows': seq<Row>, index': map<Ident, nat>)
    requires Indexed(rows, index) && RowsSound(rows) && i < |ts| && Listed(ts, rows, (i, 0, 0))
    ensures RowsSound(rows') && Indexed(rows', index') && Items(rows') == Items(rows) + TopicExpected(ts, i)
    ensures Listed(ts, rows', (i + 1, 0, 0))
  {
    hide Items, Indexed, PairsExpected, EndsExpected, RowsSound, Listed;
    rows', index' := rows, index;
    if !Grouped(ts[i]) {
      rows' := PutPlain(rows, index, ts, i);
    } else if ts[i].pairs != [] {
      rows', index' := PutPairs(rows, index, ts, i);
    } else {
      rows', index' := PutEnds(rows, index, ts, i, true);
      rows', index' := PutEnds(rows', index', ts, i, false);
      ListedLater(ts, rows', (i, 2, 0), (i + 1, 0, 0));
    }
  }

  // ---- the order

  function InsertRow(rows: seq<Row>, r: Row): seq<Row> {
    if rows == [] || IdentLess(r.key, rows[0].key) then [r] + rows else [rows[0]] + InsertRow(rows[1..], r)
  }

  function SortRows(rows: seq<Row>): seq<Row> {
    if rows == [] then [] else InsertRow(SortRows(rows[..|rows| - 1]), rows[|rows| - 1])
  }

  predicate SortedRows(rows: seq<Row>) {
    forall i, j :: 0 <= i < j < |rows| ==> !IdentLess(rows[j].key, rows[i].key)
  }

  lemma {:induction false} InsertIsPermutation(rows: seq<Row>, r: Row)
    ensures multiset(InsertRow(rows, r)) == multiset(rows) + multiset{r}
  {
    if rows != [] && !IdentLess(r.key, rows[0].key) {
      InsertIsPermutation(rows[1..], r);
      assert rows == [rows[0]] + rows[1..];
    }
  }

  lemma {:induction false} InsertSorted(rows: seq<Row>, r: Row)
    requires SortedRows(rows)
    ensures SortedRows(InsertRow(rows, r))
  {
    if rows == [] {
    } else if IdentLess(r.key, rows[0].key) {
      forall k | 0 <= k < |rows|
        ensures !IdentLess(rows[k].key, r.key)
      {
        IdentOrder(rows[k].key, r.key, rows[0].key);
        NotBoth(r.key, rows[0].key);
      }
    } else {
      var rest := InsertRow(rows[1..], r);
      InsertSorted(rows[1..], r);
      InsertIsPermutation(rows[1..], r);
      forall k | 0 <= k < |rest|
        ensures !IdentLess(rest[k].key, rows[0].key)
      {
        assert rest[k] in multiset(rest);
        assert rest[k] == r || rest[k] in rows[1..];
      }
    }
  }

  lemma {:induction false} SortIsSortedPermutation(rows: seq<Row>)
    ensures SortedRows(SortRows(rows)) && multiset(SortRows(rows)) == multiset(rows)
  {
    if rows != [] {
      hide SortedRows, InsertRow;
      var init := rows[..|rows| - 1];
      SortIsSortedPermutation(init);
      InsertSorted(SortRows(init), rows[|rows| - 1]);
      InsertIsPermutation(SortRows(init), rows[|rows| - 1]);
      assert rows == init + [rows[|rows| - 1]];
    }
  }

  /** The rows of one key, in order. */
  function OfKey(rows: seq<Row>, key: Ident): seq<Row> {
    if rows == [] then [] else (if rows[0].key == key then [rows[0]] else []) + OfKey(rows[1..], key)
  }

  lemma {:induction false} NoneOfKey(rows: seq<Row>, key: Ident)
    requires forall r :: r in rows ==> r.key != key
    ensures OfKey(rows, key) == []
  {
    if rows != [] {
      NoneOfKey(rows[1..], key);
    }
  }

  lemma {:induction false} OfKeySnoc(rows: seq<Row>, r: Row, key: Ident)
    ensures OfKey(rows + [r], key) == OfKey(rows, key) + (if r.key == key then [r] else [])
  {
    if rows != [] {
      assert (rows + [r])[1..] == rows[1..] + [r];
      OfKeySnoc(rows[1..], r, key);
    }
  }

  /** A row goes in behind those of its key. */
  lemma {:induction false} InsertIsStable(rows: seq<Row>, r: Row, key: Ident)
    requires SortedRows(rows)
    ensures OfKey(InsertRow(rows, r), key) == OfKey(rows, key) + (if r.key == key then [r] else [])
  {
    if rows == [] {
    } else if IdentLess(r.key, rows[0].key) {
      assert ([r] + rows)[1..] == rows;
      if r.key == key {
        forall x | x in rows
          ensures x.key != key
        {
          IdentOrder(r.key, rows[0].key, x.key);
        }
        NoneOfKey(rows, key);
      }
    } else {
      InsertIsStable(rows[1..], r, key);
      assert ([rows[0]] + InsertRow(rows[1..], r))[1..] == InsertRow(rows[1..], r);
    }
  }

  /** Rows of one key, as the topics of one name have, stay in the order they were made in. */
  lemma {:induction false} SortIsStable(rows: seq<Row>, key: Ident)
    ensures OfKey(SortRows(rows), key) == OfKey(rows, key)
  {
    if rows != [] {
      var init, last := rows[..|rows| - 1], rows[|rows| - 1];
      SortIsStable(init, key);
      SortIsSortedPermutation(init);
      InsertIsStable(SortRows(init), last, key);
      OfKeySnoc(init, last, key);
      assert rows == init + [last];
    }
  }

  lemma {:induction false} InsertItems(rows: seq<Row>, r: Row)
    ensures Items(InsertRow(rows, r)) == Items(rows) + ItemsOf(r)
  {
    hide ItemsOf;
    if rows == [] || IdentLess(r.key, rows[0].key) {
      PrependItems(r, rows);
    } else {
      InsertItems(rows[1..], r);
      PrependItems(rows[0], InsertRow(rows[1..], r));
      PrependItems(rows[0], rows[1..]);
      assert [rows[0]] + rows[1..] == rows;
    }
  }

  lemma {:induction false} PrependItems(r: Row, rows: seq<Row>)
    ensures Items([r] + rows) == ItemsOf(r) + Items(rows)
  {
    hide ItemsOf;
    if rows != [] {
      PrependItems(r, rows[..|rows| - 1]);
      assert ([r] + rows)[..|rows|] == [r] + rows[..|rows| - 1];
    } else {
      assert ([r] + rows)[..0] == [];
    }
  }

  lemma {:induction false} SortItems(rows: seq<Row>)
    ensures Items(SortRows(rows)) == Items(rows)
  {
    hide ItemsOf;
    if rows != [] {
      SortItems(rows[..|rows| - 1]);
      InsertItems(SortRows(rows[..|rows| - 1]), rows[|rows| - 1]);
    }
  }

  /** No two group rows share group and participants. */
  ghost predicate UniqueGroups(rows: seq<Row>) {
    forall i, j :: 0 <= i < j < |rows| && rows[i].topic.None? && rows[j].topic.None? ==> rows[i].key != rows[j].key
  }

  ghost predicate NoGroup(rows: seq<Row>, key: Ident) {
    forall r :: r in rows && r.topic.None? ==> r.key != key
  }

  lemma {:induction false} InsertUnique(rows: seq<Row>, r: Row)
    requires UniqueGroups(rows) && (r.topic.None? ==> NoGroup(rows, r.key))
    ensures UniqueGroups(InsertRow(rows, r))
  {
    if rows != [] && !IdentLess(r.key, rows[0].key) {
      InsertUnique(rows[1..], r);
      InsertIsPermutation(rows[1..], r);
      var rest := InsertRow(rows[1..], r);
      forall k | 0 <= k < |rest| && rows[0].topic.None? && rest[k].topic.None?
        ensures rest[k].key != rows[0].key
      {
        assert rest[k] in multiset(rest);
        assert rest[k] == r || rest[k] in rows[1..];
        assert rows[0] in rows;
      }
    }
  }

  lemma {:induction false} SortUnique(rows: seq<Row>)
    requires UniqueGroups(rows)
    ensures UniqueGroups(SortRows(rows))
  {
    if rows != [] {
      var init, r := rows[..|rows| - 1], rows[|rows| - 1];
      SortUnique(init);
      SortIsSortedPermutation(init);
      forall x | x in SortRows(init) && x.topic.None? && r.topic.None?
        ensures x.key != r.key
      {
        assert x in multiset(SortRows(init));
        assert x in init;
      }
      InsertUnique(SortRows(init), r);
    }
  }

  lemma SortSound(rows: seq<Row>)
    requires RowsSound(rows)
    ensures RowsSound(SortRows(rows))
  {
    hide RowSound;
    SortIsSortedPermutation(rows);
    forall r | r in SortRows(rows)
      ensures RowSound(r)
    {
      assert r in multiset(SortRows(rows));
      assert r in rows;
    }
  }

  lemma SortListed(ts: seq<TopicSummary>, rows: seq<Row>, bound: Place)
    requires Listed(ts, rows, bound)
    ensures Listed(ts, SortRows(rows), bound)
  {
    hide InOrder, OfItsKind;
    SortIsSortedPermutation(rows);
    forall r | r in SortRows(rows)
      ensures InOrder(r, bound) && OfItsKind(ts, r)
    {
      assert r in multiset(SortRows(rows));
      assert r in rows;
    }
  }

  /** The rows in order, holding every item due exactly once, each row in listed order and none empty. */
  method DisplayRows(ts: seq<TopicSummary>) returns (rows: seq<Row>)
    ensures Items(rows) == Expected(ts, |ts|) && UniqueGroups(rows) && SortedRows(rows) && RowsSound(rows)
    ensures Listed(ts, rows, (|ts|, 0, 0))
  {
    rows := [];
    var index: map<Ident, nat> := map[];
    for i := 0 to |ts|
      invariant RowsSound(rows) && Indexed(rows, index) && Items(rows) == Expected(ts, i) && Listed(ts, rows, (i, 0, 0))
    {
      hide Items, Indexed, TopicExpected, RowsSound, Listed;
      rows, index := PutTopic(rows, index, ts, i);
    }
    assert UniqueGroups(rows);
    hide Items, Indexed, TopicExpected, UniqueGroups, SortedRows, RowsSound, Listed;
    SortItems(rows);
    SortUnique(rows);
    SortIsSortedPermutation(rows);
    SortSound(rows);
    SortListed(ts, rows, (|ts|, 0, 0));
    rows := SortRows(rows);
  }

  // ---- each item due is there once, and nothing else

  ghost predicate Due(ts: seq<TopicSummary>, item: Item) {
    match item
    case PlainItem(i, _, _) => i < |ts| && !Grouped(ts[i]) && item == ItemOfTopic(ts, i)
    case PairItem(ref, _, _) =>
      ref.topic < |ts| && Grouped(ts[ref.topic]) && ref.pair < |ts[ref.topic].pairs|
      && item == ItemOfPair(ts, ref.topic, ref.pair)
    case EndItem(end, _) =>
      end.topic < |ts| && Grouped(ts[end.topic]) && ts[end.topic].pairs == []
      && end.at < |if end.writers then ts[end.topic].writers else ts[end.topic].readers|
      && item == ItemOfEnd(ts, end.topic, end.writers, end.at)
  }

  function TopicOf(item: Item): nat {
    match item
    case PlainItem(i, _, _) => i
    case PairItem(ref, _, _) => ref.topic
    case EndItem(end, _) => end.topic
  }

  lemma {:induction false} PairsOnce(ts: seq<TopicSummary>, i: nat, n: nat, item: Item)
    requires i < |ts| && n <= |ts[i].pairs|
    ensures PairsExpected(ts, i, n)[item]
         == if item.PairItem? && item.ref.topic == i && item.ref.pair < n && item == ItemOfPair(ts, i, item.ref.pair)
            then 1 else 0
  {
    hide GroupKey, ClientOf, ServerOf, ToServer;
    if n > 0 {
      PairsOnce(ts, i, n - 1, item);
    }
  }

  lemma ItemOfEndIsOf(ts: seq<TopicSummary>, i: nat, writers: bool, at: nat)
    requires i < |ts| && at < |if writers then ts[i].writers else ts[i].readers|
    ensures var item := ItemOfEnd(ts, i, writers, at); item.EndItem? && item.end == EndRef(i, writers, at)
  {
  }

  lemma {:induction false} EndsOnce(ts: seq<TopicSummary>, i: nat, writers: bool, n: nat, item: Item)
    requires i < |ts| && n <= |if writers then ts[i].writers else ts[i].readers|
    ensures EndsExpected(ts, i, writers, n)[item]
         == if item.EndItem? && item.end.topic == i && item.end.writers == writers && item.end.at < n
               && item == ItemOfEnd(ts, i, writers, item.end.at) then 1 else 0
  {
    hide ItemOfEnd;
    if n > 0 {
      EndsOnce(ts, i, writers, n - 1, item);
      ItemOfEndIsOf(ts, i, writers, n - 1);
    }
  }

  lemma ItemOfTopicIsOf(ts: seq<TopicSummary>, i: nat)
    requires i < |ts|
    ensures var item := ItemOfTopic(ts, i); item.PlainItem? && item.topic == i
  {
  }

  lemma TopicOnce(ts: seq<TopicSummary>, i: nat, item: Item)
    requires i < |ts|
    ensures TopicExpected(ts, i)[item] == if Due(ts, item) && TopicOf(item) == i then 1 else 0
  {
    hide PairsExpected, EndsExpected, ItemOfPair, ItemOfEnd, Grouped;
    if !Grouped(ts[i]) {
      ItemOfTopicIsOf(ts, i);
      hide ItemOfTopic;
    } else if ts[i].pairs != [] {
      PairsOnce(ts, i, |ts[i].pairs|, item);
    } else {
      EndsOnce(ts, i, true, |ts[i].writers|, item);
      EndsOnce(ts, i, false, |ts[i].readers|, item);
    }
  }

  lemma {:induction false} ExpectedOnce(ts: seq<TopicSummary>, n: nat, item: Item)
    requires n <= |ts|
    ensures Expected(ts, n)[item] == if Due(ts, item) && TopicOf(item) < n then 1 else 0
  {
    hide Due, TopicExpected;
    if n > 0 {
      ExpectedOnce(ts, n - 1, item);
      TopicOnce(ts, n - 1, item);
    }
  }

  /**
   * Every pair of a service or action topic is in the rows once, in the direction of its topic
   * and under its group and its two participants; every plain topic is one row; nothing else is there.
   */
  lemma RowsHoldWhatIsDue(ts: seq<TopicSummary>, rows: seq<Row>, item: Item)
    requires Items(rows) == Expected(ts, |ts|)
    ensures Items(rows)[item] == if Due(ts, item) then 1 else 0
  {
    ExpectedOnce(ts, |ts|, item);
    hide Items, Expected;
    DueInside(ts, item);
  }

  lemma DueInside(ts: seq<TopicSummary>, item: Item)
    ensures Due(ts, item) ==> TopicOf(item) < |ts|
  {
  }

  // ---- endpoints

  /** A topic has no pair only when one side is empty, and with pairs every endpoint is in one. */
  ghost predicate Covered(t: TopicSummary) {
    (t.pairs == [] ==> t.writers == [] || t.readers == [])
    && (t.pairs != [] ==>
          (forall w :: w in t.writers ==> exists j :: 0 <= j < |t.pairs| && t.pairs[j].writer == w)
          && (forall r :: r in t.readers ==> exists j :: 0 <= j < |t.pairs| && t.pairs[j].reader == r))
  }

  /** Every endpoint of a group topic is shown: as an end of a pair, or on its own. */
  lemma EveryEndpointIsShown(ts: seq<TopicSummary>, i: nat, writers: bool, at: nat)
    requires i < |ts| && Grouped(ts[i]) && Covered(ts[i]) && at < |if writers then ts[i].writers else ts[i].readers|
    ensures var e := EndAt(ts[i], writers, at);
            Due(ts, ItemOfEnd(ts, i, writers, at))
            || exists j :: 0 <= j < |ts[i].pairs| && Due(ts, ItemOfPair(ts, i, j))
                           && e == if writers then ts[i].pairs[j].writer else ts[i].pairs[j].reader
  {
    var t, e := ts[i], EndAt(ts[i], writers, at);
    if t.pairs != [] {
      if writers {
        assert e in t.writers;
        var j :| 0 <= j < |t.pairs| && t.pairs[j].writer == e;
        assert Due(ts, ItemOfPair(ts, i, j));
      } else {
        assert e in t.readers;
        var j :| 0 <= j < |t.pairs| && t.pairs[j].reader == e;
        assert Due(ts, ItemOfPair(ts, i, j));
      }
    }
  }

  // ---- the rows an endpoint is in

  /** What display_rows() makes of these topics. */
  ghost predicate Shown(ts: seq<TopicSummary>, rows: seq<Row>) {
    Items(rows) == Expected(ts, |ts|) && UniqueGroups(rows) && Listed(ts, rows, (|ts|, 0, 0))
  }

  /** The writer or reader of a pair. */
  function EndOf(p: Pair, writers: bool): Endpoint {
    if writers then p.writer else p.reader
  }

  /** The item is a pair of topic i with `e` as its end on that side, or `e` on its own. */
  ghost predicate ItemOf(ts: seq<TopicSummary>, i: nat, writers: bool, e: Endpoint, item: Item)
    requires i < |ts|
  {
    match item
    case PlainItem(_, _, _) => false
    case PairItem(ref, _, _) => ref.topic == i && ref.pair < |ts[i].pairs| && EndOf(ts[i].pairs[ref.pair], writers) == e
    case EndItem(end, _) =>
      end.topic == i && end.writers == writers && end.at < |if writers then ts[i].writers else ts[i].readers|
      && EndAt(ts[i], writers, end.at) == e
  }

  ghost predicate HoldsEnd(ts: seq<TopicSummary>, r: Row, i: nat, writers: bool, e: Endpoint)
    requires i < |ts|
  {
    exists item :: item in ItemsOf(r) && ItemOf(ts, i, writers, e, item)
  }

  ghost predicate InOneRow(ts: seq<TopicSummary>, rows: seq<Row>, i: nat, writers: bool, e: Endpoint)
    requires i < |ts|
  {
    (exists n :: 0 <= n < |rows| && HoldsEnd(ts, rows[n], i, writers, e))
    && forall m, n :: 0 <= m < |rows| && 0 <= n < |rows| ==>
         HoldsEnd(ts, rows[m], i, writers, e) && HoldsEnd(ts, rows[n], i, writers, e) ==> m == n
  }

  /** All pairs of `e` have their other ends in one participant; a topic without pairs has no other ends. */
  ghost predicate OnePartner(t: TopicSummary, writers: bool, e: Endpoint) {
    forall j, k :: 0 <= j < |t.pairs| && 0 <= k < |t.pairs| ==>
      EndOf(t.pairs[j], writers) == e && EndOf(t.pairs[k], writers) == e ==>
      EndOf(t.pairs[j], !writers).participant == EndOf(t.pairs[k], !writers).participant
  }

  lemma {:induction false} InSomeRow(rows: seq<Row>, item: Item)
    ensures item in Items(rows) <==> exists n :: 0 <= n < |rows| && item in ItemsOf(rows[n])
  {
    hide ItemsOf;
    if rows != [] {
      var init := rows[..|rows| - 1];
      InSomeRow(init, item);
      assert forall n :: 0 <= n < |init| ==> init[n] == rows[n];
    }
  }

  lemma {:induction false} PairItemKeys(refs: seq<PairRef>, toServer: bool, key: Ident, item: Item)
    requires item in PairItems(refs, toServer, key)
    ensures refs != [] && item.PairItem? && item.key == key
  {
    if item in PairItems(refs[..|refs| - 1], toServer, key) {
      PairItemKeys(refs[..|refs| - 1], toServer, key, item);
    }
  }

  lemma {:induction false} EndItemKeys(ends: seq<EndRef>, key: Ident, item: Item)
    requires item in EndItems(ends, key)
    ensures ends != [] && item.EndItem? && item.key == key
  {
    if item in EndItems(ends[..|ends| - 1], key) {
      EndItemKeys(ends[..|ends| - 1], key, item);
    }
  }

  /** A pair or an endpoint on its own is in a group row, under the row's key. */
  lemma GroupItem(ts: seq<TopicSummary>, r: Row, item: Item)
    requires item in ItemsOf(r) && !item.PlainItem? && OfItsKind(ts, r)
    ensures r.topic.None? && item.key == r.key
  {
    if item in PairItems(r.toServer, true, r.key) {
      PairItemKeys(r.toServer, true, r.key, item);
    } else if item in PairItems(r.toClient, false, r.key) {
      PairItemKeys(r.toClient, false, r.key, item);
    } else {
      EndItemKeys(r.unpairedEndpoints, r.key, item);
    }
  }

  /** Two items under one key are in one row. */
  lemma SameKeySameRow(ts: seq<TopicSummary>, rows: seq<Row>, m: nat, n: nat, x: Item, y: Item)
    requires Shown(ts, rows) && m < |rows| && n < |rows| && x in ItemsOf(rows[m]) && y in ItemsOf(rows[n])
    requires !x.PlainItem? && !y.PlainItem? && x.key == y.key
    ensures m == n
  {
    hide ItemsOf, Items, Expected;
    assert rows[m] in rows && rows[n] in rows;
    GroupItem(ts, rows[m], x);
    GroupItem(ts, rows[n], y);
  }

  lemma ItemIsDue(ts: seq<TopicSummary>, rows: seq<Row>, n: nat, item: Item)
    requires Shown(ts, rows) && n < |rows| && item in ItemsOf(rows[n])
    ensures Due(ts, item)
  {
    hide ItemsOf, Items, Expected, Due, Listed, UniqueGroups;
    InSomeRow(rows, item);
    RowsHoldWhatIsDue(ts, rows, item);
  }

  lemma DueIsInARow(ts: seq<TopicSummary>, rows: seq<Row>, item: Item) returns (n: nat)
    requires Shown(ts, rows) && Due(ts, item)
    ensures n < |rows| && item in ItemsOf(rows[n])
  {
    hide ItemsOf, Items, Expected, Due, Listed, UniqueGroups;
    RowsHoldWhatIsDue(ts, rows, item);
    InSomeRow(rows, item);
    n :| 0 <= n < |rows| && item in ItemsOf(rows[n]);
  }

  /** Two pairs of one endpoint are under one key exactly when their other ends share a participant. */
  lemma SameKeyIff(ts: seq<TopicSummary>, i: nat, j: nat, k: nat, writers: bool)
    requires i < |ts| && j < |ts[i].pairs| && k < |ts[i].pairs|
    requires EndOf(ts[i].pairs[j], writers) == EndOf(ts[i].pairs[k], writers)
    ensures ItemOfPair(ts, i, j).key == ItemOfPair(ts, i, k).key
       <==> EndOf(ts[i].pairs[j], !writers).participant == EndOf(ts[i].pairs[k], !writers).participant
  {
  }

  /** All items of an endpoint are under one key when it has one partner. */
  lemma OnePartnerOneKey(ts: seq<TopicSummary>, i: nat, writers: bool, e: Endpoint, x: Item, y: Item)
    requires i < |ts| && OnePartner(ts[i], writers, e) && Due(ts, x) && Due(ts, y)
    requires ItemOf(ts, i, writers, e, x) && ItemOf(ts, i, writers, e, y)
    ensures x.key == y.key
  {
    if ts[i].pairs != [] {
      SameKeyIff(ts, i, x.ref.pair, y.ref.pair, writers);
    }
  }

  lemma PairIsHeld(ts: seq<TopicSummary>, rows: seq<Row>, i: nat, j: nat, writers: bool) returns (n: nat)
    requires Shown(ts, rows) && i < |ts| && Grouped(ts[i]) && j < |ts[i].pairs|
    ensures n < |rows| && ItemOfPair(ts, i, j) in ItemsOf(rows[n])
    ensures HoldsEnd(ts, rows[n], i, writers, EndOf(ts[i].pairs[j], writers))
  {
    assert Due(ts, ItemOfPair(ts, i, j));
    assert ItemOf(ts, i, writers, EndOf(ts[i].pairs[j], writers), ItemOfPair(ts, i, j));
    hide ItemsOf, Shown;
    n := DueIsInARow(ts, rows, ItemOfPair(ts, i, j));
  }

  lemma EndpointIsHeld(ts: seq<TopicSummary>, rows: seq<Row>, i: nat, writers: bool, at: nat) returns (n: nat)
    requires Shown(ts, rows) && i < |ts| && Grouped(ts[i]) && Covered(ts[i])
    requires at < |if writers then ts[i].writers else ts[i].readers|
    ensures n < |rows| && HoldsEnd(ts, rows[n], i, writers, EndAt(ts[i], writers, at))
  {
    EveryEndpointIsShown(ts, i, writers, at);
    var e := EndAt(ts[i], writers, at);
    hide ItemsOf, Shown, Covered;
    if ts[i].pairs == [] {
      var item := ItemOfEnd(ts, i, writers, at);
      assert ItemOf(ts, i, writers, e, item);
      n := DueIsInARow(ts, rows, item);
    } else {
      var j :| 0 <= j < |ts[i].pairs| && e == EndOf(ts[i].pairs[j], writers);
      n := PairIsHeld(ts, rows, i, j, writers);
    }
  }

  /**
   * Of a service or action topic, a writer or reader is in exactly one row if and only if the
   * other ends of all its pairs share a participant, as they do when it has no pair.
   */
  lemma EndpointInOneRowIff(ts: seq<TopicSummary>, rows: seq<Row>, i: nat, writers: bool, at: nat)
    requires Shown(ts, rows) && i < |ts| && Grouped(ts[i]) && Covered(ts[i])
    requires at < |if writers then ts[i].writers else ts[i].readers|
    ensures var e := EndAt(ts[i], writers, at); InOneRow(ts, rows, i, writers, e) <==> OnePartner(ts[i], writers, e)
  {
    hide Shown, Covered, HoldsEnd, EndOf;
    var e := EndAt(ts[i], writers, at);
    var held := EndpointIsHeld(ts, rows, i, writers, at);
    if OnePartner(ts[i], writers, e) {
      forall m, n | 0 <= m < |rows| && 0 <= n < |rows|
                    && HoldsEnd(ts, rows[m], i, writers, e) && HoldsEnd(ts, rows[n], i, writers, e)
        ensures m == n
      {
        OnePartnerOneRow(ts, rows, i, writers, e, m, n);
      }
    }
    if InOneRow(ts, rows, i, writers, e) {
      forall j, k | 0 <= j < |ts[i].pairs| && 0 <= k < |ts[i].pairs|
                    && EndOf(ts[i].pairs[j], writers) == e && EndOf(ts[i].pairs[k], writers) == e
        ensures EndOf(ts[i].pairs[j], !writers).participant == EndOf(ts[i].pairs[k], !writers).participant
      {
        OneRowOnePartner(ts, rows, i, writers, e, j, k);
      }
    }
  }

  lemma OnePartnerOneRow(ts: seq<TopicSummary>, rows: seq<Row>, i: nat, writers: bool, e: Endpoint, m: nat, n: nat)
    requires Shown(ts, rows) && i < |ts| && OnePartner(ts[i], writers, e) && m < |rows| && n < |rows|
    requires HoldsEnd(ts, rows[m], i, writers, e) && HoldsEnd(ts, rows[n], i, writers, e)
    ensures m == n
  {
    hide Shown, ItemsOf, OnePartner, Due;
    var x :| x in ItemsOf(rows[m]) && ItemOf(ts, i, writers, e, x);
    var y :| y in ItemsOf(rows[n]) && ItemOf(ts, i, writers, e, y);
    ItemIsDue(ts, rows, m, x);
    ItemIsDue(ts, rows, n, y);
    OnePartnerOneKey(ts, i, writers, e, x, y);
    SameKeySameRow(ts, rows, m, n, x, y);
  }

  lemma OneRowOnePartner(ts: seq<TopicSummary>, rows: seq<Row>, i: nat, writers: bool, e: Endpoint, j: nat, k: nat)
    requires Shown(ts, rows) && i < |ts| && Grouped(ts[i]) && InOneRow(ts, rows, i, writers, e)
    requires j < |ts[i].pairs| && k < |ts[i].pairs|
    requires EndOf(ts[i].pairs[j], writers) == e == EndOf(ts[i].pairs[k], writers)
    ensures EndOf(ts[i].pairs[j], !writers).participant == EndOf(ts[i].pairs[k], !writers).participant
  {
    hide Shown, ItemsOf, HoldsEnd, ItemOfPair;
    var m := PairIsHeld(ts, rows, i, j, writers);
    var n := PairIsHeld(ts, rows, i, k, writers);
    PairItemOfPair(ts, i, j);
    PairItemOfPair(ts, i, k);
    RowKey(ts, rows, m, ItemOfPair(ts, i, j));
    RowKey(ts, rows, n, ItemOfPair(ts, i, k));
    SameKeyIff(ts, i, j, k, writers);
  }

  lemma PairItemOfPair(ts: seq<TopicSummary>, i: nat, j: nat)
    requires i < |ts| && j < |ts[i].pairs|
    ensures ItemOfPair(ts, i, j).PairItem?
  {
  }

  lemma RowKey(ts: seq<TopicSummary>, rows: seq<Row>, n: nat, item: Item)
    requires Shown(ts, rows) && n < |rows| && item in ItemsOf(rows[n]) && !item.PlainItem?
    ensures item.key == rows[n].key
  {
    hide ItemsOf, Items, Expected;
    assert rows[n] in rows;
    GroupItem(ts, rows[n], item);
  }

  // ---- who the client is

  lemma {:induction false} PairListed(refs: seq<PairRef>, toServer: bool, key: Ident, k: nat)
    requires k < |refs|
    ensures PairItem(refs[k], toServer, key) in PairItems(refs, toServer, key)
  {
    if k < |refs| - 1 {
      PairListed(refs[..|refs| - 1], toServer, key, k);
    }
  }

  lemma {:induction false} EndListed(ends: seq<EndRef>, key: Ident, k: nat)
    requires k < |ends|
    ensures EndItem(ends[k], key) in EndItems(ends, key)
  {
    if k < |ends| - 1 {
      EndListed(ends[..|ends| - 1], key, k);
    }
  }

  lemma PairInside(r: Row, toServer: bool, item: Item)
    requires item in PairItems(if toServer then r.toServer else r.toClient, toServer, r.key)
    ensures item in ItemsOf(r)
  {
    hide PairItems, EndItems;
  }

  /** Requests go to the server: their writers are the clients. Of every other topic of a group the readers are. */
  lemma PairsOfARow(ts: seq<TopicSummary>, rows: seq<Row>, n: nat, toServer: bool, k: nat)
    requires Shown(ts, rows) && n < |rows| && k < |if toServer then rows[n].toServer else rows[n].toClient|
    ensures var row, ref := rows[n], (if toServer then rows[n].toServer else rows[n].toClient)[k];
            ref.topic < |ts| && ref.pair < |ts[ref.topic].pairs|
            && var t := ts[ref.topic]; var p := t.pairs[ref.pair];
               t.kind in {Service, Action} && row.key.topic == t.group
               && (toServer <==> t.direction == GroupDirection.ToServer)
               && if toServer then row.key.writer == p.writer.participant && row.key.reader == p.reader.participant
                  else row.key.writer == p.reader.participant && row.key.reader == p.writer.participant
  {
    var row := rows[n];
    var refs := if toServer then row.toServer else row.toClient;
    PairListed(refs, toServer, row.key, k);
    PairInside(row, toServer, PairItem(refs[k], toServer, row.key));
    hide Shown, ItemsOf, PairItems;
    ItemIsDue(ts, rows, n, PairItem(refs[k], toServer, row.key));
  }

  /** An endpoint without a pair: alone in a row of its group, as a client if it writes requests or reads anything else. */
  lemma EndsOfARow(ts: seq<TopicSummary>, rows: seq<Row>, n: nat, k: nat)
    requires Shown(ts, rows) && n < |rows| && k < |rows[n].unpairedEndpoints|
    ensures var row, end := rows[n], rows[n].unpairedEndpoints[k];
            end.topic < |ts|
            && var t := ts[end.topic]; var side := if end.writers then t.writers else t.readers;
               t.kind in {Service, Action} && t.pairs == [] && end.at < |side| && row.key.topic == t.group
               && if side[end.at].isWriter <==> t.direction == GroupDirection.ToServer
                  then row.key.writer == side[end.at].participant && row.key.reader == ""
                  else row.key.writer == "" && row.key.reader == side[end.at].participant
  {
    var row := rows[n];
    EndListed(row.unpairedEndpoints, row.key, k);
    assert EndItem(row.unpairedEndpoints[k], row.key) in ItemsOf(row);
    hide Shown, ItemsOf;
    ItemIsDue(ts, rows, n, EndItem(row.unpairedEndpoints[k], row.key));
  }

  // ---- a client of one service that two participants offer

  function Peer(isWriter: bool, guid: string, participant: string): Endpoint {
    BLANK_ENDPOINT.(isWriter := isWriter, guid := guid, participant := participant, ddsTopic := "rq/addRequest")
  }

  const CLIENT := Peer(true, "c", "A")
  const SERVERS := [Peer(false, "s", "B"), Peer(false, "t", "C")]
  const VERDICT := Verdict(ViaUDPv4, Certain, NO_LOCATOR, false, [], [])
  const CALLS := TopicSummary(
    "rq/addRequest", "add", "Add", Service, "add", GroupDirection.ToServer, [CLIENT], SERVERS,
    [Pair(CLIENT, SERVERS[0], VERDICT, UNMEASURED), Pair(CLIENT, SERVERS[1], VERDICT, UNMEASURED)], [])

  /** Its request writer is in two rows. */
  lemma ClientOfTwoServers(rows: seq<Row>)
    requires Shown([CALLS], rows)
    ensures !InOneRow([CALLS], rows, 0, true, CLIENT)
    ensures exists m, n :: 0 <= m < n < |rows| && HoldsEnd([CALLS], rows[m], 0, true, CLIENT)
                           && HoldsEnd([CALLS], rows[n], 0, true, CLIENT)
  {
    var ts, t := [CALLS], CALLS;
    assert t.pairs[0].writer == CLIENT && t.pairs[0].reader == SERVERS[0] && t.pairs[1].reader == SERVERS[1];
    assert Covered(t);
    assert EndOf(t.pairs[0], false).participant == "B" && EndOf(t.pairs[1], false).participant == "C";
    assert !OnePartner(t, true, CLIENT);
    hide Shown, ItemsOf, Covered, OnePartner;
    EndpointInOneRowIff(ts, rows, 0, true, 0);
    var held := EndpointIsHeld(ts, rows, 0, true, 0);
    var m, n :| 0 <= m < |rows| && 0 <= n < |rows| && HoldsEnd(ts, rows[m], 0, true, CLIENT)
                && HoldsEnd(ts, rows[n], 0, true, CLIENT) && m != n;
    if n < m {
      assert HoldsEnd(ts, rows[n], 0, true, CLIENT) && HoldsEnd(ts, rows[m], 0, true, CLIENT);
    }
  }
}
