/** The shared-memory bookkeeping of one observation (main.cpp, collect()). */
module Collect {
  import opened Model
  import opened Decision
  import opened ShmScan

  /** Which endpoints a port set is about. */
  datatype Role =
    | NodeRole    // of an observed node on the tool's host
    | ProofRole   // ... through a reader that is not the one of ros_discovery_info
    | LocalRole   // on the tool's host, the tool's own included
    | OwnRole     // of the tool

  /**
   * What one observation starts from. `ownLocks` are the port locks the tool's process holds,
   * `inView` the GUIDs of the endpoints the view options keep.
   */
  datatype Observation = Observation(
    endpoints: seq<Endpoint>, ownPrefixes: set<string>, localHost: HostId,
    ownLocks: set<nat>, directory: Directory, inView: set<string>)
  {
    predicate Own(e: Endpoint) {
      e.participant in ownPrefixes
    }

    predicate Kept(e: Endpoint) {
      !Own(e) && e.guid in inView
    }

    predicate Plays(role: Role, e: Endpoint) {
      match role
      case NodeRole => !Own(e) && e.hostId == localHost
      case ProofRole => !Own(e) && e.hostId == localHost && (e.isWriter || e.ddsTopic != "ros_discovery_info")
      case LocalRole => e.hostId == localHost
      case OwnRole => Own(e)
    }

    /** Participant `p` announces `port` through an endpoint of that role. */
    ghost predicate Announces(role: Role, p: string, port: nat) {
      exists e :: e in endpoints && Plays(role, e) && e.participant == p && port in ShmPortsOf(e.unicast)
    }

    ghost predicate OwnPort(port: nat) {
      port in ownLocks || exists p :: Announces(OwnRole, p, port)
    }

    ghost predicate OtherHost(p: string) {
      exists e :: e in endpoints && !Own(e) && e.hostId != localHost && e.participant == p
    }
  }

  type PortSets = map<string, set<nat>>

  predicate In(m: PortSets, p: string, port: nat) {
    p in m && port in m[p]
  }

  predicate NoEmptySet(m: PortSets) {
    forall p :: p in m ==> m[p] != {}
  }

  function AddPorts(m: PortSets, p: string, ports: set<nat>): (r: PortSets)
    ensures forall q, port :: In(r, q, port) <==> In(m, q, port) || (q == p && port in ports)
    ensures NoEmptySet(m) ==> NoEmptySet(r)
  {
    if ports == {} then m else m[p := (if p in m then m[p] else {}) + ports]
  }

  /** The port sets of collect(): the tool's, the nodes', and those of each participant. */
  datatype PortBook = PortBook(
    own: set<nat>, node: set<nat>, byParticipant: PortSets, proof: PortSets, all: PortSets, otherHosts: set<string>)

  ghost predicate OwnFor(o: Observation, ports: set<nat>) {
    forall port :: port in ports <==> o.OwnPort(port)
  }

  ghost predicate NodesFor(o: Observation, ports: set<nat>) {
    forall port :: port in ports <==> exists p :: o.Announces(NodeRole, p, port)
  }

  ghost predicate SetsFor(o: Observation, role: Role, m: PortSets) {
    forall p, port :: In(m, p, port) <==> o.Announces(role, p, port)
  }

  ghost predicate Booked(o: Observation, book: PortBook) {
    OwnFor(o, book.own) && NodesFor(o, book.node)
    && SetsFor(o, NodeRole, book.byParticipant) && SetsFor(o, ProofRole, book.proof) && SetsFor(o, LocalRole, book.all)
    && (forall p :: p in book.otherHosts <==> o.OtherHost(p))
    && NoEmptySet(book.byParticipant)
  }

  method BookPorts(o: Observation) returns (book: PortBook)
    ensures Booked(o, book)
  {
    book := PortBook(o.ownLocks, {}, map[], map[], map[], {});
    for i := 0 to |o.endpoints|
      invariant Booked(o.(endpoints := o.endpoints[..i]), book)
    {
      book := BookEndpoint(o.(endpoints := o.endpoints[..i]), o.endpoints[i], book);
      assert o.endpoints[..i + 1] == o.endpoints[..i] + [o.endpoints[i]];
    }
    assert o.(endpoints := o.endpoints[..|o.endpoints|]) == o;
  }

  lemma AnnouncesSnoc(o: Observation, e: Endpoint, role: Role, p: string, port: nat)
    ensures o.(endpoints := o.endpoints + [e]).Announces(role, p, port)
       <==> o.Announces(role, p, port) || (o.Plays(role, e) && e.participant == p && port in ShmPortsOf(e.unicast))
  {
    var o' := o.(endpoints := o.endpoints + [e]);
    assert e in o'.endpoints;
    assert forall x :: x in o'.endpoints <==> x in o.endpoints || x == e;
    assert o'.Plays(role, e) == o.Plays(role, e);
    if o.Announces(role, p, port) {
      var x :| x in o.endpoints && o.Plays(role, x) && x.participant == p && port in ShmPortsOf(x.unicast);
      assert x in o'.endpoints && o'.Plays(role, x);
    }
    if o'.Announces(role, p, port) {
      var x :| x in o'.endpoints && o'.Plays(role, x) && x.participant == p && port in ShmPortsOf(x.unicast);
      assert o.Plays(role, x);
    }
  }

  lemma SomeoneAnnouncesSnoc(o: Observation, e: Endpoint, role: Role, port: nat)
    ensures (exists p :: o.(endpoints := o.endpoints + [e]).Announces(role, p, port))
       <==> (exists p :: o.Announces(role, p, port)) || (o.Plays(role, e) && port in ShmPortsOf(e.unicast))
  {
    var o' := o.(endpoints := o.endpoints + [e]);
    if p :| o.Announces(role, p, port) {
      AnnouncesSnoc(o, e, role, p, port);
    }
    if p :| o'.Announces(role, p, port) {
      AnnouncesSnoc(o, e, role, p, port);
    }
    AnnouncesSnoc(o, e, role, e.participant, port);
  }

  lemma OtherHostSnoc(o: Observation, e: Endpoint)
    ensures forall p :: o.(endpoints := o.endpoints + [e]).OtherHost(p)
                   <==> o.OtherHost(p) || (!o.Own(e) && e.hostId != o.localHost && e.participant == p)
  {
    var o' := o.(endpoints := o.endpoints + [e]);
    assert e in o'.endpoints;
    assert forall x :: x in o'.endpoints <==> x in o.endpoints || x == e;
    assert forall x :: o'.Own(x) == o.Own(x);
  }

  lemma SetsSnoc(o: Observation, e: Endpoint, role: Role, m: PortSets, m': PortSets)
    requires SetsFor(o, role, m)
    requires m' == if o.Plays(role, e) then AddPorts(m, e.participant, ShmPortsOf(e.unicast)) else m
    ensures SetsFor(o.(endpoints := o.endpoints + [e]), role, m')
  {
    hide AddPorts, ShmPortsOf, In;
    forall p, port ensures In(m', p, port) <==> o.(endpoints := o.endpoints + [e]).Announces(role, p, port) {
      AnnouncesSnoc(o, e, role, p, port);
    }
  }

  lemma NodesSnoc(o: Observation, e: Endpoint, ports: set<nat>, ports': set<nat>)
    requires NodesFor(o, ports) && ports' == if o.Plays(NodeRole, e) then ports + ShmPortsOf(e.unicast) else ports
    ensures NodesFor(o.(endpoints := o.endpoints + [e]), ports')
  {
    hide ShmPortsOf;
    forall port ensures port in ports' <==> exists p :: o.(endpoints := o.endpoints + [e]).Announces(NodeRole, p, port) {
      SomeoneAnnouncesSnoc(o, e, NodeRole, port);
    }
  }

  lemma OwnSnoc(o: Observation, e: Endpoint, ports: set<nat>, ports': set<nat>)
    requires OwnFor(o, ports) && ports' == if o.Own(e) then ports + ShmPortsOf(e.unicast) else ports
    ensures OwnFor(o.(endpoints := o.endpoints + [e]), ports')
  {
    hide ShmPortsOf;
    forall port ensures port in ports' <==> o.(endpoints := o.endpoints + [e]).OwnPort(port) {
      SomeoneAnnouncesSnoc(o, e, OwnRole, port);
    }
  }

  method BookEndpoint(o: Observation, e: Endpoint, book: PortBook) returns (book': PortBook)
    requires Booked(o, book)
    ensures Booked(o.(endpoints := o.endpoints + [e]), book')
  {
    var ports, p := ShmPortsOf(e.unicast), e.participant;
    book' := book;
    if e.hostId == o.localHost {
      book' := book'.(all := AddPorts(book'.all, p, ports));
    }
    if o.Own(e) {
      book' := book'.(own := book'.own + ports);
    } else if e.hostId == o.localHost {
      book' := book'.(node := book'.node + ports, byParticipant := AddPorts(book'.byParticipant, p, ports));
      if e.isWriter || e.ddsTopic != "ros_discovery_info" {
        book' := book'.(proof := AddPorts(book'.proof, p, ports));
      }
    } else {
      book' := book'.(otherHosts := book'.otherHosts + {p});
    }
    hide ShmPortsOf, AddPorts, OwnFor, NodesFor, SetsFor;
    OwnSnoc(o, e, book.own, book'.own);
    NodesSnoc(o, e, book.node, book'.node);
    SetsSnoc(o, e, NodeRole, book.byParticipant, book'.byParticipant);
    SetsSnoc(o, e, ProofRole, book.proof, book'.proof);
    SetsSnoc(o, e, LocalRole, book.all, book'.all);
    OtherHostSnoc(o, e);
  }

  // ---- how many participants announce a port

  function Announcers(m: PortSets, port: nat): set<string> {
    set p | p in m && port in m[p]
  }

  /** `counts` is the number of announcers of every port with at least one. */
  ghost predicate Counted(m: PortSets, counts: map<nat, nat>) {
    forall port ::
      (port in counts <==> Announcers(m, port) != {}) && (port in counts ==> counts[port] == |Announcers(m, port)|)
  }

  method CountAnnouncers(m: PortSets) returns (counts: map<nat, nat>)
    ensures Counted(m, counts)
  {
    counts := map[];
    var rest := m.Keys;
    ghost var done: PortSets := map[];
    while rest != {}
      invariant done == map p | p in m && p !in rest :: m[p]
      invariant rest <= m.Keys
      invariant Counted(done, counts)
      decreases rest
    {
      var p :| p in rest;
      rest := rest - {p};
      counts := CountPorts(done, p, m[p], counts);
      done := done[p := m[p]];
    }
    assert done == m;
  }

  lemma CountedStep(done: PortSets, p: string, ports: set<nat>, port: nat, counts: map<nat, nat>)
    requires p !in done && port !in ports && Counted(done[p := ports], counts)
    ensures Counted(done[p := ports + {port}], counts[port := (if port in counts then counts[port] else 0) + 1])
  {
    var before, after := done[p := ports], done[p := ports + {port}];
    assert Announcers(after, port) == Announcers(before, port) + {p} && p !in Announcers(before, port);
    forall q | q != port
      ensures Announcers(after, q) == Announcers(before, q)
    {
    }
  }

  method CountPorts(ghost done: PortSets, ghost p: string, ports: set<nat>, counts: map<nat, nat>)
    returns (counts': map<nat, nat>)
    requires p !in done && Counted(done, counts)
    ensures Counted(done[p := ports], counts')
  {
    counts' := counts;
    var rest := ports;
    assert forall q :: Announcers(done[p := {}], q) == Announcers(done, q);
    assert ports - rest == {};
    while rest != {}
      invariant rest <= ports
      invariant Counted(done[p := ports - rest], counts')
      decreases rest
    {
      var port :| port in rest;
      CountedStep(done, p, ports - rest, port, counts');
      assert (ports - rest) + {port} == ports - (rest - {port});
      counts' := counts'[port := (if port in counts' then counts'[port] else 0) + 1];
      rest := rest - {port};
    }
    assert ports - rest == ports;
  }

  // ---- the endpoints the view keeps, and their segments

  function KeptOf(o: Observation, es: seq<Endpoint>): seq<Endpoint> {
    if es == [] then []
    else KeptOf(o, es[..|es| - 1]) + (if o.Kept(es[|es| - 1]) then [es[|es| - 1]] else [])
  }

  lemma {:induction false} KeptMember(o: Observation, es: seq<Endpoint>, e: Endpoint)
    ensures e in KeptOf(o, es) <==> e in es && o.Kept(e)
  {
    if es != [] {
      KeptMember(o, es[..|es| - 1], e);
      assert es == es[..|es| - 1] + [es[|es| - 1]];
    }
  }

  /** `names` maps the segment names of the writers (or readers) among `es` to their GUIDs. */
  ghost predicate Named(es: seq<Endpoint>, isWriter: bool, names: map<string, string>) {
    (forall e :: e in es && e.isWriter == isWriter ==> SegmentName(e.guidBytes) in names)
    && (forall n :: n in names ==>
          exists e :: e in es && e.isWriter == isWriter && SegmentName(e.guidBytes) == n && e.guid == names[n])
  }

  method NameSegments(kept: seq<Endpoint>) returns (writers: map<string, string>, readers: map<string, string>)
    ensures Named(kept, true, writers) && Named(kept, false, readers)
  {
    writers, readers := map[], map[];
    for i := 0 to |kept|
      invariant Named(kept[..i], true, writers) && Named(kept[..i], false, readers)
    {
      var e := kept[i];
      assert kept[..i + 1] == kept[..i] + [e];
      ghost var writers0, readers0 := writers, readers;
      var name := DatasharingSegmentName(e.guidBytes);
      if e.isWriter {
        writers := writers[name := e.guid];
      } else {
        readers := readers[name := e.guid];
      }
      NamedSnoc(kept[..i], e, true, writers0, writers);
      NamedSnoc(kept[..i], e, false, readers0, readers);
    }
    assert kept[..|kept|] == kept;
  }

  lemma NamedSnoc(es: seq<Endpoint>, e: Endpoint, isWriter: bool, names: map<string, string>, names': map<string, string>)
    requires Named(es, isWriter, names)
    requires names' == if e.isWriter == isWriter then names[SegmentName(e.guidBytes) := e.guid] else names
    ensures Named(es + [e], isWriter, names')
  {
    hide SegmentName;
    assert e in es + [e];
    forall n | n in names'
      ensures exists x :: x in es + [e] && x.isWriter == isWriter && SegmentName(x.guidBytes) == n && x.guid == names'[n]
    {
      if e.isWriter != isWriter || n != SegmentName(e.guidBytes) {
        var x :| x in es && x.isWriter == isWriter && SegmentName(x.guidBytes) == n && x.guid == names[n];
        assert x in es + [e];
      }
    }
  }

  // ---- the observation as a whole

  /** Everything the scan and the bookkeeping found out. */
  datatype Evidence = Evidence(book: PortBook, input: ScanInput, info: ShmInfo, counts: map<nat, nat>)

  ghost predicate Gathered(o: Observation, ev: Evidence) {
    Booked(o, ev.book) && Counted(ev.book.byParticipant, ev.counts)
    && ev.input.nodePorts == ev.book.node && ev.input.ownPorts == ev.book.own
    && ev.input.otherHostParticipants == |ev.book.otherHosts|
    && Named(KeptOf(o, o.endpoints), true, ev.input.writers) && Named(KeptOf(o, o.endpoints), false, ev.input.readers)
    && (o.directory.NotListed? ==> ev.info == NO_SCAN)
    && (o.directory.Listed? ==> Scanned(o.directory.entries, ev.input, ev.info))
  }

  function PortsIn(m: PortSets, p: string): set<nat> {
    if p in m then m[p] else {}
  }

  /** A kept endpoint with what the evidence says about it. */
  function Probed(o: Observation, ev: Evidence, e: Endpoint): Endpoint {
    var history := if e.guid in ev.info.historyByWriter then Some(ev.info.historyByWriter[e.guid]) else e.datasharingHistory;
    var here := if e.isWriter then history.Some? else e.guid in ev.info.notificationReaders;
    var segment :=
      if ev.info.listed && e.hostId == o.localHost && e.qos.dataSharing != Off
      then if here then Visible else NotVisible
      else e.segmentVisibility;
    var probed := e.(datasharingHistory := history, segmentVisibility := segment);
    if e.participant in ev.book.byParticipant then
      var ports := ev.book.byParticipant[e.participant];
      probed.(participantShmPorts := ports,
              participantShmVisibility := VisibilityOf(ports, PortsIn(ev.book.proof, e.participant), ev.info, ev.counts))
    else probed
  }

  method Keep(o: Observation) returns (kept: seq<Endpoint>)
    ensures kept == KeptOf(o, o.endpoints)
  {
    kept := [];
    for i := 0 to |o.endpoints|
      invariant kept == KeptOf(o, o.endpoints[..i])
    {
      assert o.endpoints[..i + 1][..i] == o.endpoints[..i];
      if o.Kept(o.endpoints[i]) {
        kept := kept + [o.endpoints[i]];
      }
    }
    assert o.endpoints[..|o.endpoints|] == o.endpoints;
  }

  method Gather(o: Observation, kept: seq<Endpoint>) returns (ev: Evidence)
    requires kept == KeptOf(o, o.endpoints)
    ensures Gathered(o, ev)
  {
    var book := BookPorts(o);
    var writers, readers := NameSegments(kept);
    var input := ScanInput(book.node, book.own, |book.otherHosts|, writers, readers);
    var info := ScanShm(o.directory, input);
    var counts := CountAnnouncers(book.byParticipant);
    ev := Evidence(book, input, info, counts);
  }

  method Probe(o: Observation, ev: Evidence, e: Endpoint) returns (e': Endpoint)
    ensures e' == Probed(o, ev, e)
  {
    var book, info := ev.book, ev.info;
    e' := e;
    if e.guid in info.historyByWriter {
      e' := e'.(datasharingHistory := Some(info.historyByWriter[e.guid]));
    }
    if info.listed && e.hostId == o.localHost && e.qos.dataSharing != Off {
      var here := if e.isWriter then e'.datasharingHistory.Some? else e.guid in info.notificationReaders;
      e' := e'.(segmentVisibility := if here then Visible else NotVisible);
    }
    if e.participant in book.byParticipant {
      var ports := book.byParticipant[e.participant];
      var v := ParticipantShmVisibility(ports, PortsIn(book.proof, e.participant), info, ev.counts);
      e' := e'.(participantShmPorts := ports, participantShmVisibility := v);
    }
  }

  /** The kept endpoints in discovery order, each probed against the evidence of the whole observation. */
  method Observe(o: Observation) returns (out: seq<Endpoint>, ev: Evidence)
    ensures Gathered(o, ev)
    ensures |out| == |KeptOf(o, o.endpoints)|
    ensures forall i :: 0 <= i < |out| ==> out[i] == Probed(o, ev, KeptOf(o, o.endpoints)[i])
  {
    hide Gathered, Probed, KeptOf;
    var kept := Keep(o);
    ev := Gather(o, kept);
    out := [];
    for i := 0 to |kept|
      invariant |out| == i
      invariant forall j :: 0 <= j < i ==> out[j] == Probed(o, ev, kept[j])
    {
      var e := Probe(o, ev, kept[i]);
      out := out + [e];
    }
  }
}
