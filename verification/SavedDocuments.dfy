/** Writing a snapshot's topics as a JSON tree and reading them back (render_json.cpp, parse_json.cpp). */
module SavedDocuments {
  import opened Model
  import opened Snapshot
  import opened GuidText

  /** The object keys that are read back, one constructor a spelling. */
  datatype Key =
    | SchemaVersion | Topics
    | Topic | DdsTopic | DisplayType | UnmatchedReasons | Kind | Group | Direction | Writers | Readers | Pairs
    | GuidKey | Participant | Node | DdsType
    | WriterGuid | ReaderGuid | TransportKey | ConfidenceKey | LocatorKey | Reasons | Warnings | Measured
    | LocatorKindKey | Address | Port | Multicast
    | Available | Transports | Locators | Packets | Bytes | Delivered

  /** A JSON value; a reason or warning text is kept as the code it spells. */
  datatype Json =
    | Null | Bool(b: bool) | Int(n: nat) | Real(r: real) | Str(s: string) | CodeText(c: Code)
    | Arr(items: seq<Json>) | Obj(fields: map<Key, Json>)

  // ---- enumerations

  function KindText(k: LocatorKind): string {
    match k
    case UDPv4 => "UDPv4" case UDPv6 => "UDPv6" case TCPv4 => "TCPv4" case TCPv6 => "TCPv6" case SHM => "SHM"
    case Invalid => "INVALID"
  }

  function KindFrom(s: string): Option<LocatorKind> {
    if s == "UDPv4" then Some(UDPv4) else if s == "UDPv6" then Some(UDPv6)
    else if s == "TCPv4" then Some(TCPv4) else if s == "TCPv6" then Some(TCPv6)
    else if s == "SHM" then Some(SHM) else if s == "INVALID" then Some(Invalid) else None
  }

  function TransportText(t: Transport): string {
    match t
    case ViaUDPv4 => "UDPv4" case ViaUDPv6 => "UDPv6" case ViaTCPv4 => "TCPv4" case ViaTCPv6 => "TCPv6"
    case ViaSHM => "SHM" case DataSharing => "DATA_SHARING" case NoTransport => "NONE"
  }

  function TransportFrom(s: string): Option<Transport> {
    if s == "UDPv4" then Some(ViaUDPv4) else if s == "UDPv6" then Some(ViaUDPv6)
    else if s == "TCPv4" then Some(ViaTCPv4) else if s == "TCPv6" then Some(ViaTCPv6)
    else if s == "SHM" then Some(ViaSHM) else if s == "DATA_SHARING" then Some(DataSharing)
    else if s == "NONE" then Some(NoTransport) else None
  }

  function ConfidenceText(c: Confidence): string {
    if c == Certain then "certain" else "likely"
  }

  function ConfidenceFrom(s: string): Option<Confidence> {
    if s == "certain" then Some(Certain) else if s == "likely" then Some(Likely) else None
  }

  function TopicKindText(k: TopicKind): string {
    match k
    case PlainTopic => "topic" case Service => "service" case Action => "action" case OtherTopic => "other"
  }

  function TopicKindFrom(s: string): Option<TopicKind> {
    if s == "topic" then Some(PlainTopic) else if s == "service" then Some(Service)
    else if s == "action" then Some(Action) else if s == "other" then Some(OtherTopic) else None
  }

  function DirectionText(d: GroupDirection): string {
    match d
    case ToServer => "to_server" case ToClient => "to_client" case NoDirection => ""
  }

  function DirectionFrom(s: string): Option<GroupDirection> {
    if s == "" then Some(NoDirection) else if s == "to_server" then Some(ToServer)
    else if s == "to_client" then Some(ToClient) else None
  }

  // ---- writing

  function JsonArray<T>(xs: seq<T>, f: T -> Json): Json {
    Arr(seq(|xs|, i requires 0 <= i < |xs| => f(xs[i])))
  }

  function LocatorJson(l: Locator): Json {
    Obj(map[LocatorKindKey := Str(KindText(l.kind)), Address := Str(l.address), Port := Int(l.port)])
  }

  function SelectedLocatorJson(v: Verdict): Json {
    if v.locator.kind == Invalid then Null
    else Obj(LocatorJson(v.locator).fields[Multicast := Bool(v.locatorMulticast)])
  }

  function MeasuredLocatorJson(m: MeasuredLocator): Json {
    Obj(LocatorJson(m.locator).fields[Packets := Int(m.packets)][Bytes := Real(m.bytes)])
  }

  function TransportJson(t: Transport): Json {
    Str(TransportText(t))
  }

  function CodeJson(c: Code): Json {
    CodeText(c)
  }

  function MeasurementJson(m: Measurement): Json {
    Obj(map[Available := Bool(m.available), Transports := JsonArray(m.transports, TransportJson),
            Locators := JsonArray(m.locators, MeasuredLocatorJson), Packets := Int(m.packets), Bytes := Real(m.bytes),
            Delivered := Bool(m.delivered)])
  }

  function EndpointJson(e: Endpoint): Json {
    Obj(map[GuidKey := Str(e.guid), Participant := Str(e.participant), Node := Str(e.nodeName),
            DdsTopic := Str(e.ddsTopic), DdsType := Str(e.ddsType)])
  }

  function PairJson(p: Pair): Json {
    Obj(map[WriterGuid := Str(p.writer.guid), ReaderGuid := Str(p.reader.guid),
            TransportKey := TransportJson(p.verdict.transport), ConfidenceKey := Str(ConfidenceText(p.verdict.confidence)),
            LocatorKey := SelectedLocatorJson(p.verdict), Reasons := JsonArray(p.verdict.reasons, CodeJson),
            Warnings := JsonArray(p.verdict.warnings, CodeJson), Measured := MeasurementJson(p.measured)])
  }

  function TopicJson(t: TopicSummary): Json {
    Obj(map[Topic := Str(t.displayTopic), DdsTopic := Str(t.ddsTopic), DisplayType := Str(t.displayType),
            UnmatchedReasons := JsonArray(t.unmatchedReasons, CodeJson),
            Kind := Str(TopicKindText(t.kind)), Group := Str(t.group), Direction := Str(DirectionText(t.direction)),
            Writers := JsonArray(t.writers, EndpointJson), Readers := JsonArray(t.readers, EndpointJson),
            Pairs := JsonArray(t.pairs, PairJson)])
  }

  function Document(topics: seq<TopicSummary>): Json {
    Obj(map[SchemaVersion := Int(1), Topics := JsonArray(topics, TopicJson)])
  }

  // ---- reading: None is a document the tool refuses

  function At(j: Json, key: Key): Option<Json> {
    if j.Obj? && key in j.fields then Some(j.fields[key]) else None
  }

  function StrAt(j: Json, key: Key): Option<string> {
    match At(j, key) case Some(Str(s)) => Some(s) case _ => None
  }

  function IntAt(j: Json, key: Key): Option<nat> {
    match At(j, key) case Some(Int(n)) => Some(n) case _ => None
  }

  function RealAt(j: Json, key: Key): Option<real> {
    match At(j, key) case Some(Real(r)) => Some(r) case _ => None
  }

  function BoolAt(j: Json, key: Key): Option<bool> {
    match At(j, key) case Some(Bool(b)) => Some(b) case _ => None
  }

  function Each<T>(items: seq<Json>, f: Json -> Option<T>): Option<seq<T>> {
    if items == [] then Some([])
    else
      match (Each(items[..|items| - 1], f), f(items[|items| - 1]))
      case (Some(xs), Some(x)) => Some(xs + [x])
      case _ => None
  }

  function ArrayAt<T>(j: Json, key: Key, f: Json -> Option<T>): Option<seq<T>> {
    match At(j, key) case Some(Arr(items)) => Each(items, f) case _ => None
  }

  function LocatorFrom(j: Json): Option<Locator> {
    match (StrAt(j, LocatorKindKey), StrAt(j, Address), IntAt(j, Port))
    case (Some(k), Some(a), Some(n)) => if KindFrom(k).Some? then Some(Locator(KindFrom(k).value, a, n)) else None
    case _ => None
  }

  /** `packets` and `bytes` may be absent. */
  function MeasuredLocatorFrom(j: Json): Option<MeasuredLocator> {
    if LocatorFrom(j).None? then None
    else
      var packets := if At(j, Packets).None? then Some(0) else IntAt(j, Packets);
      var bytes := if At(j, Bytes).None? then Some(0.0) else RealAt(j, Bytes);
      if packets.None? || bytes.None? then None
      else Some(MeasuredLocator(LocatorFrom(j).value, packets.value, bytes.value))
  }

  function TransportIn(j: Json): Option<Transport> {
    if j.Str? then TransportFrom(j.s) else None
  }

  function CodeIn(j: Json): Option<Code> {
    if j.CodeText? then Some(j.c) else None
  }

  function MeasurementFrom(j: Json): Option<Measurement> {
    match (BoolAt(j, Available), ArrayAt(j, Transports, TransportIn), ArrayAt(j, Locators, MeasuredLocatorFrom),
           IntAt(j, Packets), RealAt(j, Bytes), BoolAt(j, Delivered))
    case (Some(a), Some(ts), Some(ls), Some(n), Some(b), Some(d)) => Some(Measurement(a, ts, ls, n, b, d))
    case _ => None
  }

  const UNKNOWN_NODE_NAME := "_NODE_NAMESPACE_UNKNOWN_/_NODE_NAME_UNKNOWN_"

  function NormalizedNodeName(name: string): string {
    if name == UNKNOWN_NODE_NAME then "" else name
  }

  function EndpointFrom(j: Json, isWriter: bool): Option<Endpoint> {
    match (StrAt(j, GuidKey), StrAt(j, Participant), StrAt(j, Node), StrAt(j, DdsTopic), StrAt(j, DdsType))
    case (Some(g), Some(p), Some(n), Some(t), Some(y)) =>
      Some(BLANK_ENDPOINT.(isWriter := isWriter, guid := g, guidBytes := BytesFrom(g, 0, []), participant := p,
                  nodeName := NormalizedNodeName(n), ddsTopic := t, ddsType := y))
    case _ => None
  }

  function WriterFrom(j: Json): Option<Endpoint> {
    EndpointFrom(j, true)
  }

  function ReaderFrom(j: Json): Option<Endpoint> {
    EndpointFrom(j, false)
  }

  type Ends = (seq<Endpoint>, seq<Endpoint>)

  function EndsFrom(j: Json): Option<Ends> {
    match (ArrayAt(j, Writers, WriterFrom), ArrayAt(j, Readers, ReaderFrom))
    case (Some(ws), Some(rs)) => Some((ws, rs))
    case _ => None
  }

  /** by_guid: the last endpoint of a GUID wins. */
  function Index(byGuid: map<string, Endpoint>, es: seq<Endpoint>): map<string, Endpoint> {
    if es == [] then byGuid
    else Index(byGuid, es[..|es| - 1])[es[|es| - 1].guid := es[|es| - 1]]
  }

  function IndexAll(ends: seq<Ends>): map<string, Endpoint> {
    if ends == [] then map[]
    else
      var e := ends[|ends| - 1];
      Index(Index(IndexAll(ends[..|ends| - 1]), e.0), e.1)
  }

  function VerdictFrom(j: Json): Option<Verdict> {
    match (StrAt(j, TransportKey), StrAt(j, ConfidenceKey), At(j, LocatorKey),
           ArrayAt(j, Reasons, CodeIn), ArrayAt(j, Warnings, CodeIn))
    case (Some(t), Some(c), Some(l), Some(rs), Some(ws)) =>
      var locator := if l.Obj? then LocatorFrom(l) else Some(NO_LOCATOR);
      var multicast := if At(l, Multicast).None? then Some(false) else BoolAt(l, Multicast);
      if TransportFrom(t).None? || ConfidenceFrom(c).None? || locator.None? || multicast.None? then None
      else Some(Verdict(TransportFrom(t).value, ConfidenceFrom(c).value, locator.value, multicast.value, rs, ws))
    case _ => None
  }

  function PairFrom(j: Json, byGuid: map<string, Endpoint>): Option<Pair> {
    match (StrAt(j, WriterGuid), StrAt(j, ReaderGuid), VerdictFrom(j), At(j, Measured))
    case (Some(w), Some(r), Some(v), Some(m)) =>
      if w in byGuid && r in byGuid && MeasurementFrom(m).Some?
      then Some(Pair(byGuid[w], byGuid[r], v, MeasurementFrom(m).value)) else None
    case _ => None
  }

  /** Kind, group and direction, and whether they were there and known: without them the topics are classified anew. */
  function ClassFrom(j: Json): Option<(TopicKind, string, GroupDirection, bool)> {
    if At(j, Kind).None? || At(j, Direction).None? then Some((OtherTopic, "", NoDirection, false))
    else
      var group := if At(j, Group).None? then Some("") else StrAt(j, Group);
      match (StrAt(j, Kind), StrAt(j, Direction), group)
      case (Some(k), Some(d), Some(g)) =>
        var kind, direction := TopicKindFrom(k), DirectionFrom(d);
        Some((if kind.Some? then kind.value else OtherTopic, g, if direction.Some? then direction.value else NoDirection,
              kind.Some? && direction.Some?))
      case _ => None
  }

  /** A topic, and whether it came classified. */
  function TopicFrom(j: Json, ends: Ends, byGuid: map<string, Endpoint>): Option<(TopicSummary, bool)> {
    match (StrAt(j, Topic), StrAt(j, DdsTopic), StrAt(j, DisplayType), ArrayAt(j, UnmatchedReasons, CodeIn),
           ArrayAt(j, Pairs, x => PairFrom(x, byGuid)))
    case (Some(t), Some(d), Some(y), Some(u), Some(ps)) =>
      var c := ClassFrom(j);
      if c.None? then None
      else Some((TopicSummary(d, t, y, c.value.0, c.value.1, c.value.2, ends.0, ends.1, ps, u), c.value.3))
    case _ => None
  }

  function TopicsFrom(items: seq<Json>, ends: seq<Ends>, byGuid: map<string, Endpoint>): Option<seq<(TopicSummary, bool)>>
    requires |items| == |ends|
  {
    if items == [] then Some([])
    else
      var n := |items| - 1;
      match (TopicsFrom(items[..n], ends[..n], byGuid), TopicFrom(items[n], ends[n], byGuid))
      case (Some(ts), Some(t)) => Some(ts + [t])
      case _ => None
  }

  /** The endpoints of every topic, and the index of them all. */
  method ReadEnds(items: seq<Json>) returns (r: Option<seq<Ends>>, byGuid: map<string, Endpoint>)
    ensures r == Each(items, EndsFrom) && (r.Some? ==> |r.value| == |items| && byGuid == IndexAll(r.value))
  {
    hide EndsFrom, Index;
    var ends: seq<Ends> := [];
    byGuid := map[];
    for i := 0 to |items|
      invariant Each(items[..i], EndsFrom) == Some(ends) && byGuid == IndexAll(ends) && |ends| == i
    {
      assert items[..i + 1][..i] == items[..i];
      var e := EndsFrom(items[i]);
      if e.None? {
        EachStops(items, EndsFrom, i);
        return None, byGuid;
      }
      assert (ends + [e.value])[..i] == ends;
      byGuid := AddEndpoints(byGuid, e.value.0);
      byGuid := AddEndpoints(byGuid, e.value.1);
      ends := ends + [e.value];
    }
    assert items[..|items|] == items;
    r := Some(ends);
  }

  method ReadEach(items: seq<Json>, ends: seq<Ends>, byGuid: map<string, Endpoint>)
    returns (r: Option<seq<(TopicSummary, bool)>>)
    requires |items| == |ends|
    ensures r == TopicsFrom(items, ends, byGuid)
  {
    hide TopicFrom;
    var topics: seq<(TopicSummary, bool)> := [];
    for i := 0 to |items|
      invariant TopicsFrom(items[..i], ends[..i], byGuid) == Some(topics)
    {
      assert items[..i + 1][..i] == items[..i] && ends[..i + 1][..i] == ends[..i];
      var t := TopicFrom(items[i], ends[i], byGuid);
      if t.None? {
        TopicsStop(items, ends, byGuid, i);
        return None;
      }
      topics := topics + [t.value];
    }
    assert items[..|items|] == items && ends[..|ends|] == ends;
    r := Some(topics);
  }

  /** snapshot(): all endpoints first, then the topics, whose pairs name endpoints by GUID. */
  method ReadTopics(doc: Json) returns (r: Option<seq<(TopicSummary, bool)>>)
    ensures r == TopicsOf(doc)
  {
    if !doc.Obj? || IntAt(doc, SchemaVersion) != Some(1) || At(doc, Topics).None? || !doc.fields[Topics].Arr? {
      return None;
    }
    hide Each, IndexAll, TopicsFrom;
    var ends, byGuid := ReadEnds(doc.fields[Topics].items);
    if ends.None? {
      return None;
    }
    r := ReadEach(doc.fields[Topics].items, ends.value, byGuid);
  }

  method AddEndpoints(byGuid: map<string, Endpoint>, es: seq<Endpoint>) returns (r: map<string, Endpoint>)
    ensures r == Index(byGuid, es)
  {
    r := byGuid;
    for i := 0 to |es|
      invariant r == Index(byGuid, es[..i])
    {
      assert es[..i + 1][..i] == es[..i];
      r := r[es[i].guid := es[i]];
    }
    assert es[..|es|] == es;
  }

  function TopicsOf(doc: Json): Option<seq<(TopicSummary, bool)>> {
    if !doc.Obj? || IntAt(doc, SchemaVersion) != Some(1) || At(doc, Topics).None? || !doc.fields[Topics].Arr? then None
    else
      var items := doc.fields[Topics].items;
      var ends := Each(items, EndsFrom);
      EachLength(items, EndsFrom);
      if ends.None? then None else TopicsFrom(items, ends.value, IndexAll(ends.value))
  }

  lemma {:induction false} EachLength<T>(items: seq<Json>, f: Json -> Option<T>)
    ensures Each(items, f).Some? ==> |Each(items, f).value| == |items|
  {
    if items != [] {
      EachLength(items[..|items| - 1], f);
    }
  }

  lemma {:induction false} EachStops<T>(items: seq<Json>, f: Json -> Option<T>, i: nat)
    requires i < |items| && f(items[i]).None?
    ensures Each(items, f).None?
  {
    if i < |items| - 1 {
      EachStops(items[..|items| - 1], f, i);
    }
  }

  lemma {:induction false} TopicsStop(items: seq<Json>, ends: seq<Ends>, byGuid: map<string, Endpoint>, i: nat)
    requires |items| == |ends| && i < |items| && TopicFrom(items[i], ends[i], byGuid).None?
    ensures TopicsFrom(items, ends, byGuid).None?
  {
    hide TopicFrom;
    var n := |items| - 1;
    if i < n {
      TopicsStop(items[..n], ends[..n], byGuid, i);
    }
  }
}
