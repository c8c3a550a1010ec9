/**
 * Soundness of the IPC-namespace inference: in every world that behaves as Fast DDS and the
 * kernel do, a pair reported as split really is in two namespaces.
 */
module IpcSplit {
  import opened Text
  import opened Model
  import opened Decision
  import opened ShmScan
  import opened Collect

  /**
   * What is really there: the IPC namespace of every participant (discovered or not), the SHM
   * ports each listens on, and the namespace of the tool.
   */
  datatype World = World(space: string -> nat, listens: (string, nat) -> bool, toolSpace: nat)

  /** A directory entry that is the port file of `n`. */
  ghost predicate PortFile(e: DirEntry, n: nat) {
    e.regular && (e.name == "fastrtps_port" + Dec(n) || e.name == "fastdds_port" + Dec(n))
  }

  /** Who announces a unicast SHM port listens there, and nobody else of its namespace does. */
  ghost predicate PortsAreExclusive(w: World, o: Observation) {
    (forall e, n :: e in o.endpoints && n in ShmPortsOf(e.unicast) ==> w.listens(e.participant, n))
    && OneListener(w)
  }

  ghost predicate OneListener(w: World) {
    forall p, q, n :: w.listens(p, n) && w.listens(q, n) && w.space(p) == w.space(q) ==> p == q
  }

  /** The tool's participants live in its namespace, and it holds the locks of their ports only. */
  ghost predicate ToolIsHere(w: World, o: Observation) {
    (forall p :: p in o.ownPrefixes ==> w.space(p) == w.toolSpace)
    && (forall n :: n in o.ownLocks ==> exists p :: p in o.ownPrefixes && w.listens(p, n))
  }

  /**
   * A held lock is a listener's, and a listener here has a lock file. Nothing is assumed about a
   * free or unreadable lock: the process may have died since, or before its endpoints were lost.
   */
  ghost predicate LocksAreTruthful(w: World, entries: seq<DirEntry>) {
    (forall e, n :: e in entries && PortFile(e, n) && e.lock == Held ==>
        exists p :: w.space(p) == w.toolSpace && w.listens(p, n))
    && (forall p, n :: w.space(p) == w.toolSpace && w.listens(p, n) ==>
          exists e :: e in entries && PortFile(e, n) && e.lock != Missing)
  }

  /**
   * A port some node announces beyond its ros_discovery_info reader is held here by a
   * participant that announces it with the tool's host id.
   */
  ghost predicate ProofPortsAreAnnounced(w: World, o: Observation) {
    forall p, q, n :: o.Announces(ProofRole, p, n) && w.space(q) == w.toolSpace && w.listens(q, n) ==>
      o.Announces(LocalRole, q, n)
  }

  /** An endpoint with data-sharing has its segment in the /dev/shm of its own namespace, and only there. */
  ghost predicate SegmentsAreLocal(w: World, o: Observation, entries: seq<DirEntry>) {
    forall x :: x in o.endpoints && x.hostId == o.localHost && DatasharingAnnounced(x) ==>
      ((exists e :: e in entries && e.regular && e.name == SegmentName(x.guidBytes)) <==> w.space(x.participant) == w.toolSpace)
  }

  /** Every endpoint has its own GUID. */
  ghost predicate DistinctGuids(es: seq<Endpoint>) {
    forall x, y :: x in es && y in es && (x.guid == y.guid || x.guidBytes == y.guidBytes) ==> x == y
  }

  /** Endpoints as discovery delivers them: not probed yet. */
  ghost predicate Raw(o: Observation) {
    forall e :: e in o.endpoints ==>
      e.participantShmPorts == {} && e.participantShmVisibility.Unprobed? && e.segmentVisibility.Unprobed?
      && e.datasharingHistory.None?
  }

  ghost predicate Behaves(w: World, o: Observation) {
    PortsAreExclusive(w, o) && ToolIsHere(w, o) && ProofPortsAreAnnounced(w, o)
    && (o.directory.Listed? ==> LocksAreTruthful(w, o.directory.entries) && SegmentsAreLocal(w, o, o.directory.entries))
  }

  // ---- ports

  lemma StatesOfPort(entries: seq<DirEntry>, n: nat, lock: LockState)
    ensures lock in States(entries, Dec(n)) <==> exists e :: e in entries && PortFile(e, n) && e.lock == lock
  {
    StatesSource(entries, Dec(n), lock);
    forall e | e in entries
      ensures PortText(e) == Some(Dec(n)) <==> PortFile(e, n)
    {
      if PortText(e) == Some(Dec(n)) {
        PortFileNames(e, n);
      }
      if PortFile(e, n) {
        PortFileRecognised(e, n);
      }
    }
  }

  /** A port of the tool's own is listened on in the tool's namespace, by the tool. */
  lemma OwnPortHere(w: World, o: Observation, n: nat)
    requires Behaves(w, o) && o.OwnPort(n)
    ensures exists p :: p in o.ownPrefixes && w.space(p) == w.toolSpace && w.listens(p, n)
  {
    if n !in o.ownLocks {
      var p :| o.Announces(OwnRole, p, n);
      assert p in o.ownPrefixes && w.listens(p, n);
    }
  }

  /** A missing port that is not undecided is not listened on by any node in the tool's namespace. */
  lemma MissingMeansElsewhere(w: World, o: Observation, p: string, n: nat)
    requires Behaves(w, o) && o.directory.Listed? && p !in o.ownPrefixes && w.listens(p, n)
    requires o.OwnPort(n) || (Held !in States(o.directory.entries, Dec(n)) && Free !in States(o.directory.entries, Dec(n))
                              && UnknownLock !in States(o.directory.entries, Dec(n)))
    ensures w.space(p) != w.toolSpace
  {
    if w.space(p) == w.toolSpace {
      if o.OwnPort(n) {
        OwnPortHere(w, o, n);
      } else {
        var e :| e in o.directory.entries && PortFile(e, n) && e.lock != Missing;
        StatesOfPort(o.directory.entries, n, e.lock);
      }
    }
  }

  /** A held proof port that only `p` announces is `p`'s own. */
  lemma LonelyHeldPortIsHere(w: World, o: Observation, ev: Evidence, p: string, n: nat)
    requires Behaves(w, o) && Gathered(o, ev) && o.directory.Listed?
    requires o.Announces(ProofRole, p, n) && !o.OwnPort(n) && Held in States(o.directory.entries, Dec(n))
    requires Alone(ev.counts, n)
    ensures w.space(p) == w.toolSpace
  {
    hide Scanned, Named, States;
    StatesOfPort(o.directory.entries, n, Held);
    var q :| w.space(q) == w.toolSpace && w.listens(q, n);
    assert o.Announces(LocalRole, q, n);
    assert !o.Announces(OwnRole, q, n);
    assert o.Announces(NodeRole, q, n) && o.Announces(NodeRole, p, n);
    assert In(ev.book.byParticipant, q, n) && In(ev.book.byParticipant, p, n);
    var s := Announcers(ev.book.byParticipant, n);
    assert p in s && q in s && |s| <= 1;
    if p != q {
      TwoMembers(s, p, q);
    }
  }

  lemma TwoMembers(s: set<string>, p: string, q: string)
    requires p in s && q in s && p != q
    ensures |s| >= 2
  {
    assert q in s - {p} && s == (s - {p}) + {p};
    assert |s - {p}| >= 1;
  }

  ghost predicate Locates(w: World, p: string, v: ShmVisibility) {
    (v.Visible? ==> w.space(p) == w.toolSpace) && (v.NotVisible? ==> w.space(p) != w.toolSpace)
  }

  lemma BookedPort(w: World, o: Observation, ev: Evidence, p: string, n: nat)
    requires PortsAreExclusive(w, o) && Booked(o, ev.book) && In(ev.book.byParticipant, p, n)
    ensures p !in o.ownPrefixes && w.listens(p, n) && n in ev.book.node
  {
    assert o.Announces(NodeRole, p, n);
  }

  lemma NotVisibleIsSound(w: World, o: Observation, ev: Evidence, p: string, n: nat)
    requires Behaves(w, o) && Gathered(o, ev) && In(ev.book.byParticipant, p, n)
    requires n in ev.info.missingPorts && n !in ev.info.unknownPorts
    ensures w.space(p) != w.toolSpace
  {
    MissingIsDecided(o, ev, n);
    hide Scanned, Counted, Named, States, In;
    BookedPort(w, o, ev, p, n);
    hide Booked;
    MissingMeansElsewhere(w, o, p, n);
  }

  /** A missing port that is not undecided is the tool's own, or no lock of it tells of a listener. */
  lemma MissingIsDecided(o: Observation, ev: Evidence, n: nat)
    requires Gathered(o, ev) && n in ev.info.missingPorts && n !in ev.info.unknownPorts
    ensures o.directory.Listed? && (n in ev.book.own <==> o.OwnPort(n))
    ensures o.OwnPort(n) || (Held !in States(o.directory.entries, Dec(n)) && Free !in States(o.directory.entries, Dec(n))
                             && UnknownLock !in States(o.directory.entries, Dec(n)))
  {
    hide Counted, Named, States;
  }

  lemma VisibleIsSound(w: World, o: Observation, ev: Evidence, p: string, n: nat)
    requires Behaves(w, o) && Gathered(o, ev) && In(ev.book.byParticipant, p, n) && In(ev.book.proof, p, n)
    requires n in ev.info.checkedPorts && n !in ev.info.missingPorts && Alone(ev.counts, n)
    ensures w.space(p) == w.toolSpace
  {
    BookedPort(w, o, ev, p, n);
    LonelyHeldPortIsHere(w, o, ev, p, n);
  }

  /** Visible is the tool's namespace, NotVisible is another one. */
  lemma VisibilityIsSound(w: World, o: Observation, ev: Evidence, p: string)
    requires Behaves(w, o) && Gathered(o, ev) && p in ev.book.byParticipant
    ensures Locates(w, p, VisibilityOf(ev.book.byParticipant[p], PortsIn(ev.book.proof, p), ev.info, ev.counts))
  {
    hide Behaves, Gathered;
    var ports, proof := ev.book.byParticipant[p], PortsIn(ev.book.proof, p);
    if n :| n in ports && n in ev.info.checkedPorts && n in ev.info.missingPorts && n !in ev.info.unknownPorts {
      NotVisibleIsSound(w, o, ev, p, n);
    } else if VisibilityOf(ports, proof, ev.info, ev.counts).Visible? {
      var n :| n in ports && n in proof && Alone(ev.counts, n);
      VisibleIsSound(w, o, ev, p, n);
    }
  }

  // ---- segments

  /** A kept endpoint's segment is found exactly when a file of its name is listed. */
  lemma SegmentFound(o: Observation, ev: Evidence, x: Endpoint)
    requires Gathered(o, ev) && DistinctGuids(o.endpoints) && o.directory.Listed? && x in o.endpoints && o.Kept(x)
    ensures (if x.isWriter then x.guid in ev.info.historyByWriter else x.guid in ev.info.notificationReaders)
       <==> exists e :: e in o.directory.entries && e.regular && e.name == SegmentName(x.guidBytes)
  {
    hide Booked, Counted, Named, KeptOf, SegmentName, HistoryHere, NotificationHere;
    forall e ensures e in KeptOf(o, o.endpoints) <==> e in o.endpoints && o.Kept(e) {
      KeptMember(o, o.endpoints, e);
    }
    SegmentListed(o.directory.entries, ev.input, KeptOf(o, o.endpoints), x);
  }

  lemma SegmentListed(entries: seq<DirEntry>, input: ScanInput, kept: seq<Endpoint>, x: Endpoint)
    requires DistinctGuids(kept) && x in kept && Named(kept, true, input.writers) && Named(kept, false, input.readers)
    ensures (if x.isWriter then HistoryHere(entries, input, x.guid) else NotificationHere(entries, input, x.guid))
       <==> exists e :: e in entries && e.regular && e.name == SegmentName(x.guidBytes)
  {
    hide SegmentName, Named;
    NameOwner(kept, x, true, input.writers);
    NameOwner(kept, x, false, input.readers);
    if e :| e in entries && e.regular && e.name == SegmentName(x.guidBytes) {
      SegmentRecognised(e, x.guidBytes);
      assert x.isWriter ==> HistoryHere(entries, input, x.guid);
      assert !x.isWriter ==> NotificationHere(entries, input, x.guid);
    }
  }

  /** The segment maps name an endpoint under its own segment name only. */
  lemma NameOwner(es: seq<Endpoint>, x: Endpoint, isWriter: bool, names: map<string, string>)
    requires DistinctGuids(es) && Named(es, isWriter, names) && x in es
    ensures SegmentName(x.guidBytes) in names <==> x.isWriter == isWriter
    ensures forall n :: n in names && names[n] == x.guid ==> n == SegmentName(x.guidBytes)
    ensures x.isWriter == isWriter ==> names[SegmentName(x.guidBytes)] == x.guid
  {
    var name := SegmentName(x.guidBytes);
    if name in names {
      var y :| y in es && y.isWriter == isWriter && SegmentName(y.guidBytes) == name && y.guid == names[name];
      SegmentNameInjective(x.guidBytes, y.guidBytes);
    }
  }

  lemma SegmentVisibilityIsSound(w: World, o: Observation, ev: Evidence, x: Endpoint)
    requires Behaves(w, o) && Gathered(o, ev) && DistinctGuids(o.endpoints) && Raw(o)
    requires x in o.endpoints && o.Kept(x) && DatasharingAnnounced(x)
    ensures Locates(w, x.participant, Probed(o, ev, x).segmentVisibility)
  {
    hide Booked, Counted, Named, DistinctGuids, PortsAreExclusive, ToolIsHere, ProofPortsAreAnnounced, LocksAreTruthful,
      VisibilityOf;
    if o.directory.Listed? {
      SegmentFound(o, ev, x);
      ScanListed(o.directory.entries, ev.input, ev.info);
    }
    hide Scanned;
  }

  lemma ScanListed(entries: seq<DirEntry>, input: ScanInput, info: ShmInfo)
    requires Scanned(entries, input, info)
    ensures info.listed
  {
  }

  // ---- the verdict

  /** What an endpoint shows is true of its participant. */
  ghost predicate Shows(w: World, x: Endpoint) {
    (forall n :: n in ShmPorts(x) ==> w.listens(x.participant, n))
    && Locates(w, x.participant, x.participantShmVisibility)
    && (DatasharingAnnounced(x) ==> Locates(w, x.participant, x.segmentVisibility))
  }

  lemma ProbedPort(w: World, o: Observation, ev: Evidence, x: Endpoint, n: nat)
    requires PortsAreExclusive(w, o) && Booked(o, ev.book) && Raw(o) && x in o.endpoints
    requires n in ShmPorts(Probed(o, ev, x))
    ensures w.listens(x.participant, n)
  {
    if n !in ShmPortsOf(x.unicast) {
      BookedPort(w, o, ev, x.participant, n);
    }
  }

  lemma ProbedShows(w: World, o: Observation, ev: Evidence, x: Endpoint)
    requires Behaves(w, o) && Gathered(o, ev) && DistinctGuids(o.endpoints) && Raw(o) && x in o.endpoints && o.Kept(x)
    ensures Shows(w, Probed(o, ev, x))
  {
    hide Booked, Counted, Named, Scanned, ToolIsHere, ProofPortsAreAnnounced, LocksAreTruthful, SegmentsAreLocal,
      PortsAreExclusive;
    var x' := Probed(o, ev, x);
    forall n | n in ShmPorts(x')
      ensures w.listens(x.participant, n)
    {
      ProbedPort(w, o, ev, x, n);
    }
    if x.participant in ev.book.byParticipant {
      VisibilityIsSound(w, o, ev, x.participant);
    }
    if DatasharingAnnounced(x) {
      SegmentVisibilityIsSound(w, o, ev, x);
    }
  }

  lemma EvidenceIsSound(w: World, writer: Endpoint, reader: Endpoint)
    requires OneListener(w) && Shows(w, writer) && Shows(w, reader)
    requires SplitEvidence(writer, reader)
    ensures w.space(writer.participant) != w.space(reader.participant)
  {
    if n :| n in ShmPorts(writer) * ShmPorts(reader) {
      assert w.listens(writer.participant, n) && w.listens(reader.participant, n);
    }
  }

  /** Whatever decide() reports as split between two observed endpoints is split in the world. */
  lemma SplitIsSound(w: World, o: Observation, ev: Evidence, glob: Glob, writer: Endpoint, reader: Endpoint)
    requires Behaves(w, o) && Gathered(o, ev) && DistinctGuids(o.endpoints) && Raw(o)
    requires writer in o.endpoints && o.Kept(writer) && reader in o.endpoints && o.Kept(reader)
    requires ShmIpcNamespaceSplit in Decide(glob, Probed(o, ev, writer), Probed(o, ev, reader)).warnings
    ensures w.space(writer.participant) != w.space(reader.participant)
  {
    hide Decide, Gathered, QosIncompatibilities, TypesUnmatched, SplitEvidence, Shows, VisibilityOf;
    var w', r' := Probed(o, ev, writer), Probed(o, ev, reader);
    SplitReportedIff(glob, w', r');
    ProbedShows(w, o, ev, writer);
    ProbedShows(w, o, ev, reader);
    EvidenceIsSound(w, w', r');
  }

  lemma HeldPortIsNotOwn(o: Observation, ev: Evidence, p: string, n: nat)
    requires Gathered(o, ev) && In(ev.book.byParticipant, p, n)
    requires n in ev.info.checkedPorts && n !in ev.info.missingPorts
    ensures !o.OwnPort(n)
  {
    hide Counted, Named;
    assert n in ev.book.node;
  }

  lemma LocalIsNode(o: Observation, book: PortBook, q: string, n: nat)
    requires Booked(o, book) && !o.OwnPort(n)
    ensures In(book.byParticipant, q, n) <==> In(book.all, q, n)
  {
    assert !o.Announces(OwnRole, q, n);
    assert o.Announces(NodeRole, q, n) <==> o.Announces(LocalRole, q, n);
  }

  lemma OwnAnnouncersOfAHeldPort(o: Observation, ev: Evidence, all: map<nat, nat>, p: string, n: nat)
    requires Gathered(o, ev) && Counted(ev.book.all, all) && In(ev.book.byParticipant, p, n)
    requires n in ev.info.checkedPorts && n !in ev.info.missingPorts
    ensures Alone(ev.counts, n) == Alone(all, n)
  {
    HeldPortIsNotOwn(o, ev, p, n);
    hide Booked, Scanned, Named, Counted, In, Alone;
    forall q ensures In(ev.book.byParticipant, q, n) <==> In(ev.book.all, q, n) {
      LocalIsNode(o, ev.book, q, n);
    }
    SameAlone(ev.book.byParticipant, ev.counts, ev.book.all, all, n);
  }

  lemma SameAlone(a: PortSets, counts: map<nat, nat>, b: PortSets, counts': map<nat, nat>, n: nat)
    requires Counted(a, counts) && Counted(b, counts') && forall q :: In(a, q, n) <==> In(b, q, n)
    ensures Alone(counts, n) == Alone(counts', n)
  {
    assert forall q :: q in Announcers(a, n) <==> In(a, q, n);
    assert forall q :: q in Announcers(b, n) <==> In(b, q, n);
    assert Announcers(a, n) == Announcers(b, n);
  }

  /** Counting announcers over the nodes only, or over every local participant, decides the same. */
  lemma OwnAnnouncersDoNotMatter(o: Observation, ev: Evidence, all: map<nat, nat>, p: string)
    requires Gathered(o, ev) && Counted(ev.book.all, all) && p in ev.book.byParticipant
    ensures VisibilityOf(ev.book.byParticipant[p], PortsIn(ev.book.proof, p), ev.info, ev.counts)
         == VisibilityOf(ev.book.byParticipant[p], PortsIn(ev.book.proof, p), ev.info, all)
  {
    var ports, proof := ev.book.byParticipant[p], PortsIn(ev.book.proof, p);
    forall n | n in ports && n in ev.info.checkedPorts && n !in ev.info.missingPorts
      ensures Alone(ev.counts, n) == Alone(all, n)
    {
      OwnAnnouncersOfAHeldPort(o, ev, all, p, n);
    }
    VisibilityReadsCountsOfHeldPorts(ports, proof, ev.info, ev.counts, all);
  }

  lemma VisibilityReadsCountsOfHeldPorts(ports: set<nat>, proof: set<nat>, info: ShmInfo, a: map<nat, nat>, b: map<nat, nat>)
    requires forall n :: n in ports && n in info.checkedPorts && n !in info.missingPorts ==> Alone(a, n) == Alone(b, n)
    ensures VisibilityOf(ports, proof, info, a) == VisibilityOf(ports, proof, info, b)
  {
  }
}
