/** What the IPC-namespace inference finds, said of the announcements and the listing alone, and that it misses no clear case. */
module IpcCompleteness {
  import opened Text
  import opened Model
  import opened Decision
  import opened ShmScan
  import opened Collect
  import opened IpcSplit

  // ---- what is announced

  /** The endpoint announces a unicast SHM locator with this port. */
  ghost predicate Offers(e: Endpoint, n: nat) {
    exists l :: l in e.unicast && l.kind == SHM && l.port == n
  }

  /** An endpoint of another process than the tool's, on the tool's host. */
  ghost predicate Neighbour(o: Observation, e: Endpoint, p: string) {
    e in o.endpoints && e.participant == p && p !in o.ownPrefixes && e.hostId == o.localHost
  }

  /**
   * Whose ports count: those of the nodes on the tool's host; for a proof, not those of readers of ros_discovery_info,
   * with which a node meets the tool's; the tool's own by announcement or lock.
   */
  lemma AnnouncedIff(o: Observation, p: string, n: nat)
    ensures o.Announces(NodeRole, p, n) <==> exists e :: Neighbour(o, e, p) && Offers(e, n)
    ensures o.Announces(ProofRole, p, n)
       <==> exists e :: Neighbour(o, e, p) && Offers(e, n) && !(!e.isWriter && e.ddsTopic == "ros_discovery_info")
    ensures o.OwnPort(n) <==> n in o.ownLocks || exists e :: e in o.endpoints && e.participant in o.ownPrefixes && Offers(e, n)
    ensures o.OtherHost(p)
       <==> p !in o.ownPrefixes && exists e :: e in o.endpoints && e.participant == p && e.hostId != o.localHost
  {
    forall e: Endpoint
      ensures n in ShmPortsOf(e.unicast) <==> Offers(e, n)
    {
    }
    hide ShmPortsOf, Offers;
    if e :| e in o.endpoints && e.participant in o.ownPrefixes && Offers(e, n) {
      assert o.Announces(OwnRole, e.participant, n);
    }
  }

  /** The endpoints that are probed and listed are those in view of other processes than the tool's, in order. */
  lemma {:induction false} KeptIff(o: Observation, es: seq<Endpoint>, e: Endpoint)
    ensures e in KeptOf(o, es) <==> e in es && e.participant !in o.ownPrefixes && e.guid in o.inView
  {
    if es != [] {
      KeptIff(o, es[..|es| - 1], e);
      assert es == es[..|es| - 1] + [es[|es| - 1]];
    }
  }

  // ---- what the listing says of a port

  /** A port file of `n` is locked by a running process. */
  ghost predicate Locked(o: Observation, n: nat) {
    o.directory.Listed? && exists e :: e in o.directory.entries && PortFile(e, n) && e.lock == Held
  }

  /** Port `n` is the tool's own, or no port file of it tells of a process, running or dead. */
  ghost predicate Absent(o: Observation, n: nat) {
    o.directory.Listed? && (o.OwnPort(n) || forall e :: e in o.directory.entries && PortFile(e, n) ==> e.lock == Missing)
  }

  /** No other node participant announces the port. */
  ghost predicate OnlyBy(o: Observation, p: string, n: nat) {
    forall q :: o.Announces(NodeRole, q, n) ==> q == p
  }

  /** All ports of the participant are locked, none is the tool's, and one that proves something is its alone. */
  ghost predicate SeenHere(o: Observation, p: string) {
    (forall n :: o.Announces(NodeRole, p, n) ==> Locked(o, n) && !o.OwnPort(n))
    && exists n :: o.Announces(ProofRole, p, n) && OnlyBy(o, p, n)
  }

  ghost predicate SeenElsewhere(o: Observation, p: string) {
    exists n :: o.Announces(NodeRole, p, n) && Absent(o, n)
  }

  lemma NodePort(o: Observation, ev: Evidence, p: string, n: nat)
    requires Gathered(o, ev) && o.directory.Listed? && o.Announces(NodeRole, p, n)
    ensures n in ev.info.checkedPorts && (n in ev.info.missingPorts <==> o.OwnPort(n) || !Locked(o, n))
    ensures n in ev.info.missingPorts && n !in ev.info.unknownPorts <==> Absent(o, n)
  {
    hide Counted, Named, States;
    assert n in ev.book.node;
    var entries := o.directory.entries;
    StatesOfPort(entries, n, Held);
    StatesOfPort(entries, n, Free);
    StatesOfPort(entries, n, UnknownLock);
    AllMissing(entries, n);
    hide PortFile;
  }

  lemma AllMissing(entries: seq<DirEntry>, n: nat)
    ensures (forall e :: e in entries && PortFile(e, n) ==> e.lock == Missing)
       <==> (forall e :: e in entries && PortFile(e, n) ==> e.lock != Held && e.lock != Free && e.lock != UnknownLock)
  {
    hide PortFile;
  }

  lemma AloneIff(o: Observation, ev: Evidence, p: string, n: nat)
    requires Gathered(o, ev) && o.Announces(NodeRole, p, n)
    ensures Alone(ev.counts, n) <==> OnlyBy(o, p, n)
  {
    hide Scanned, Named;
    var all := Announcers(ev.book.byParticipant, n);
    forall q
      ensures q in all <==> o.Announces(NodeRole, q, n)
    {
      assert In(ev.book.byParticipant, q, n) <==> o.Announces(NodeRole, q, n);
    }
    hide Booked;
    assert p in all && ev.counts[n] == |all|;
    if Alone(ev.counts, n) {
      forall q | q in all
        ensures q == p
      {
        if q != p {
          TwoMembers(all, p, q);
        }
      }
    }
    assert OnlyBy(o, p, n) ==> all == {p};
  }

  lemma ProofIsNode(o: Observation, p: string, n: nat)
    requires o.Announces(ProofRole, p, n)
    ensures o.Announces(NodeRole, p, n)
  {
    var e :| e in o.endpoints && o.Plays(ProofRole, e) && e.participant == p && n in ShmPortsOf(e.unicast);
    assert o.Plays(NodeRole, e);
  }

  /** The ports of a participant as the bookkeeping has them. */
  lemma BookedPorts(o: Observation, ev: Evidence, p: string, n: nat)
    requires Booked(o, ev.book)
    ensures p in ev.book.byParticipant && n in ev.book.byParticipant[p] <==> o.Announces(NodeRole, p, n)
    ensures n in PortsIn(ev.book.proof, p) <==> o.Announces(ProofRole, p, n)
    ensures p in ev.book.byParticipant ==> ev.book.byParticipant[p] != {}
  {
    assert In(ev.book.byParticipant, p, n) <==> o.Announces(NodeRole, p, n);
    assert In(ev.book.proof, p, n) <==> o.Announces(ProofRole, p, n);
  }

  // ---- what is found of a participant

  /** Everything the verdict reads of a port a participant announces. */
  ghost predicate PortTold(o: Observation, ev: Evidence, p: string, n: nat) {
    (p in ev.book.byParticipant && n in ev.book.byParticipant[p] <==> o.Announces(NodeRole, p, n))
    && (n in PortsIn(ev.book.proof, p) <==> o.Announces(ProofRole, p, n))
    && (o.Announces(ProofRole, p, n) ==> o.Announces(NodeRole, p, n))
    && (n in ev.info.checkedPorts ==> o.directory.Listed?)
    && (o.Announces(NodeRole, p, n) ==>
          (Alone(ev.counts, n) <==> OnlyBy(o, p, n))
          && (n in ev.info.checkedPorts <==> o.directory.Listed?)
          && (n in ev.info.checkedPorts && n !in ev.info.missingPorts <==> Locked(o, n) && !o.OwnPort(n))
          && (n in ev.info.checkedPorts && n in ev.info.missingPorts && n !in ev.info.unknownPorts <==> Absent(o, n)))
  }

  lemma PortIsTold(o: Observation, ev: Evidence, p: string, n: nat)
    requires Gathered(o, ev)
    ensures PortTold(o, ev, p, n)
  {
    BookedPorts(o, ev, p, n);
    if o.Announces(ProofRole, p, n) {
      ProofIsNode(o, p, n);
    }
    if o.Announces(NodeRole, p, n) {
      AloneIff(o, ev, p, n);
      if o.directory.Listed? {
        NodePort(o, ev, p, n);
      }
    }
    hide Booked, Scanned, Counted, Named, Alone, OnlyBy;
  }

  lemma NoEmptyBook(o: Observation, ev: Evidence, p: string) returns (n: nat)
    requires Booked(o, ev.book) && p in ev.book.byParticipant
    ensures n in ev.book.byParticipant[p]
  {
    n :| n in ev.book.byParticipant[p];
  }

  lemma NotVisibleIff(o: Observation, ev: Evidence, p: string)
    requires p in ev.book.byParticipant && forall n :: PortTold(o, ev, p, n)
    ensures VisibilityOf(ev.book.byParticipant[p], PortsIn(ev.book.proof, p), ev.info, ev.counts).NotVisible?
       <==> SeenElsewhere(o, p)
  {
    hide Alone, OnlyBy, Locked, Absent;
    if n :| o.Announces(NodeRole, p, n) && Absent(o, n) {
      assert PortTold(o, ev, p, n);
    }
    if n :| n in ev.book.byParticipant[p] && n in ev.info.checkedPorts && n in ev.info.missingPorts
            && n !in ev.info.unknownPorts {
      assert PortTold(o, ev, p, n);
    }
  }

  /** Every port is held. */
  ghost predicate AllHeld(ev: Evidence, p: string)
    requires p in ev.book.byParticipant
  {
    forall n :: n in ev.book.byParticipant[p] ==> n in ev.info.checkedPorts && n !in ev.info.missingPorts
  }

  ghost predicate OneProves(ev: Evidence, p: string)
    requires p in ev.book.byParticipant
  {
    exists n :: n in ev.book.byParticipant[p] && n in PortsIn(ev.book.proof, p) && Alone(ev.counts, n)
  }

  lemma AllHeldIff(o: Observation, ev: Evidence, p: string)
    requires p in ev.book.byParticipant && forall n :: PortTold(o, ev, p, n)
    ensures AllHeld(ev, p) <==> forall n :: o.Announces(NodeRole, p, n) ==> Locked(o, n) && !o.OwnPort(n)
  {
    hide Alone, OnlyBy, Locked, Absent;
    if AllHeld(ev, p) {
      forall n | o.Announces(NodeRole, p, n)
        ensures Locked(o, n) && !o.OwnPort(n)
      {
        assert PortTold(o, ev, p, n);
      }
    }
    if forall n :: o.Announces(NodeRole, p, n) ==> Locked(o, n) && !o.OwnPort(n) {
      forall n | n in ev.book.byParticipant[p]
        ensures n in ev.info.checkedPorts && n !in ev.info.missingPorts
      {
        assert PortTold(o, ev, p, n);
      }
    }
  }

  lemma OneProvesIff(o: Observation, ev: Evidence, p: string)
    requires p in ev.book.byParticipant && forall n :: PortTold(o, ev, p, n)
    ensures OneProves(ev, p) <==> exists n :: o.Announces(ProofRole, p, n) && OnlyBy(o, p, n)
  {
    hide Alone, OnlyBy, Locked, Absent;
    if n :| o.Announces(ProofRole, p, n) && OnlyBy(o, p, n) {
      assert PortTold(o, ev, p, n);
    }
    if n :| n in ev.book.byParticipant[p] && n in PortsIn(ev.book.proof, p) && Alone(ev.counts, n) {
      assert PortTold(o, ev, p, n);
    }
  }

  lemma VisibleIff(ev: Evidence, p: string)
    requires p in ev.book.byParticipant
    ensures VisibilityOf(ev.book.byParticipant[p], PortsIn(ev.book.proof, p), ev.info, ev.counts).Visible?
       <==> AllHeld(ev, p) && OneProves(ev, p)
  {
    hide Alone;
  }

  lemma VerdictIff(o: Observation, ev: Evidence, p: string)
    requires p in ev.book.byParticipant && forall n :: PortTold(o, ev, p, n)
    ensures var v := VisibilityOf(ev.book.byParticipant[p], PortsIn(ev.book.proof, p), ev.info, ev.counts);
            (v.Visible? <==> SeenHere(o, p)) && (v.NotVisible? <==> SeenElsewhere(o, p))
  {
    NotVisibleIff(o, ev, p);
    VisibleIff(ev, p);
    AllHeldIff(o, ev, p);
    OneProvesIff(o, ev, p);
    hide VisibilityOf, PortTold, AllHeld, OneProves, SeenElsewhere, OnlyBy, Locked;
  }

  lemma NotBooked(o: Observation, ev: Evidence, p: string)
    requires p !in ev.book.byParticipant && forall n :: PortTold(o, ev, p, n)
    ensures !SeenHere(o, p) && !SeenElsewhere(o, p)
  {
    hide Alone, OnlyBy, Locked, Absent;
    forall n
      ensures !o.Announces(NodeRole, p, n) && !o.Announces(ProofRole, p, n)
    {
      assert PortTold(o, ev, p, n);
    }
  }

  lemma ProbedVisibility(o: Observation, ev: Evidence, x: Endpoint)
    requires Raw(o) && x in o.endpoints
    ensures var p := x.participant;
            Probed(o, ev, x).participantShmVisibility
            == if p in ev.book.byParticipant
               then VisibilityOf(ev.book.byParticipant[p], PortsIn(ev.book.proof, p), ev.info, ev.counts) else Unprobed
  {
    hide VisibilityOf;
  }

  /**
   * The visibility of an endpoint's participant: here when it is seen here, elsewhere when one of its
   * ports is absent, undecided in all other cases.
   */
  lemma VisibilityIff(o: Observation, ev: Evidence, x: Endpoint)
    requires Gathered(o, ev) && Raw(o) && x in o.endpoints
    ensures var v := Probed(o, ev, x).participantShmVisibility;
            (v.Visible? <==> SeenHere(o, x.participant)) && (v.NotVisible? <==> SeenElsewhere(o, x.participant))
  {
    hide *;
    var p := x.participant;
    forall n
      ensures PortTold(o, ev, p, n)
    {
      PortIsTold(o, ev, p, n);
    }
    ProbedVisibility(o, ev, x);
    if p in ev.book.byParticipant {
      VerdictIff(o, ev, p);
    } else {
      NotBooked(o, ev, p);
    }
  }

  /** The ports an endpoint shows: its own unicast ones, and those its participant announces as a node here. */
  lemma ShownPorts(o: Observation, ev: Evidence, x: Endpoint, n: nat)
    requires Gathered(o, ev) && Raw(o) && x in o.endpoints
    ensures n in ShmPorts(Probed(o, ev, x)) <==> n in ShmPortsOf(x.unicast) || o.Announces(NodeRole, x.participant, n)
  {
    BookedPorts(o, ev, x.participant, n);
    hide VisibilityOf, Booked, Scanned, Counted, Named;
  }

  /** The endpoint's data-sharing segment file is listed. */
  ghost predicate HasSegment(o: Observation, x: Endpoint) {
    o.directory.Listed? && exists e :: e in o.directory.entries && e.regular && e.name == SegmentName(x.guidBytes)
  }

  lemma SegmentIff(o: Observation, ev: Evidence, x: Endpoint)
    requires Gathered(o, ev) && Raw(o) && DistinctGuids(o.endpoints) && x in o.endpoints && o.Kept(x)
    ensures var v, looked := Probed(o, ev, x).segmentVisibility,
                             o.directory.Listed? && x.hostId == o.localHost && x.qos.dataSharing != Off;
            (v.Visible? <==> looked && HasSegment(o, x)) && (v.NotVisible? <==> looked && !HasSegment(o, x))
  {
    hide Booked, Counted, Named, DistinctGuids, VisibilityOf;
    if o.directory.Listed? {
      SegmentFound(o, ev, x);
      ScanListed(o.directory.entries, ev.input, ev.info);
    }
    hide Scanned, SegmentName;
  }

  // ---- no clear case is missed

  /** A participant of the tool's namespace whose ports are locked, one of them announced by no other node, is seen here. */
  lemma HereIsSeen(w: World, o: Observation, p: string, n: nat)
    requires Behaves(w, o) && w.space(p) == w.toolSpace && forall m :: o.Announces(NodeRole, p, m) ==> Locked(o, m)
    requires o.Announces(ProofRole, p, n) && OnlyBy(o, p, n)
    ensures SeenHere(o, p)
  {
    hide Locked, OnlyBy;
    forall m | o.Announces(NodeRole, p, m)
      ensures !o.OwnPort(m)
    {
      NodeListens(w, o, p, m);
      if o.OwnPort(m) {
        OwnPortHere(w, o, m);
      }
    }
  }

  lemma NodeListens(w: World, o: Observation, p: string, n: nat)
    requires PortsAreExclusive(w, o) && o.Announces(NodeRole, p, n)
    ensures w.listens(p, n) && p !in o.ownPrefixes
  {
  }

  /** A port that nobody here listens on, and no dead process either has left, shows its announcer elsewhere. */
  lemma ThereIsSeen(w: World, o: Observation, p: string, n: nat)
    requires Behaves(w, o) && o.directory.Listed? && o.Announces(NodeRole, p, n)
    requires forall q :: w.space(q) == w.toolSpace ==> !w.listens(q, n)
    requires forall e :: e in o.directory.entries && PortFile(e, n) ==> e.lock == Held || e.lock == Missing
    ensures SeenElsewhere(o, p)
  {
    hide PortFile;
    forall e | e in o.directory.entries && PortFile(e, n)
      ensures e.lock == Missing
    {
      NotHeld(w, o.directory.entries, e, n);
    }
    assert Absent(o, n);
  }

  lemma NotHeld(w: World, entries: seq<DirEntry>, e: DirEntry, n: nat)
    requires LocksAreTruthful(w, entries) && e in entries && PortFile(e, n)
    requires forall q :: w.space(q) == w.toolSpace ==> !w.listens(q, n)
    ensures e.lock != Held
  {
  }

  // ---- when a pair is reported as split

  ghost predicate ShowsPort(o: Observation, x: Endpoint, n: nat) {
    n in ShmPortsOf(x.unicast) || o.Announces(NodeRole, x.participant, n)
  }

  ghost predicate LooksForSegment(o: Observation, x: Endpoint) {
    o.directory.Listed? && x.hostId == o.localHost && x.qos.dataSharing != Off
  }

  /** One end here and the other elsewhere, by ports. */
  ghost predicate OneHere(o: Observation, a: Endpoint, b: Endpoint) {
    (SeenHere(o, a.participant) && SeenElsewhere(o, b.participant))
    || (SeenElsewhere(o, a.participant) && SeenHere(o, b.participant))
  }

  /** The announcements and the listing tell the two ends apart. */
  ghost predicate ToldApart(o: Observation, a: Endpoint, b: Endpoint) {
    a.participant != b.participant
    && ((HasKind(a, SHM) && HasKind(b, SHM) && ((exists n :: ShowsPort(o, a, n) && ShowsPort(o, b, n)) || OneHere(o, a, b)))
        || (DatasharingPair(a, b) && LooksForSegment(o, a) && LooksForSegment(o, b) && HasSegment(o, a) != HasSegment(o, b)))
  }

  lemma EvidenceIff(o: Observation, ev: Evidence, a: Endpoint, b: Endpoint)
    requires Gathered(o, ev) && Raw(o) && DistinctGuids(o.endpoints)
    requires a in o.endpoints && o.Kept(a) && b in o.endpoints && o.Kept(b)
    ensures SplitEvidence(Probed(o, ev, a), Probed(o, ev, b)) <==> ToldApart(o, a, b)
  {
    OneSidedPorts(o, ev, a, b);
    OneSidedSegments(o, ev, a, b);
    PortsMeet(o, ev, a, b);
    SameFields(o, ev, a);
    SameFields(o, ev, b);
    SameSharing(o, ev, a, b);
    hide Gathered, Raw, Probed, HasSegment, DistinctGuids, ShmPorts, HasKind, ShowsPort, DatasharingPair, OneSided, OneHere,
      LooksForSegment;
  }

  lemma OneSidedPorts(o: Observation, ev: Evidence, a: Endpoint, b: Endpoint)
    requires Gathered(o, ev) && Raw(o) && a in o.endpoints && b in o.endpoints
    ensures OneSided(Probed(o, ev, a).participantShmVisibility, Probed(o, ev, b).participantShmVisibility) <==> OneHere(o, a, b)
  {
    VisibilityIff(o, ev, a);
    VisibilityIff(o, ev, b);
    hide Gathered, Raw, Probed, SeenHere, SeenElsewhere;
  }

  lemma OneSidedSegments(o: Observation, ev: Evidence, a: Endpoint, b: Endpoint)
    requires Gathered(o, ev) && Raw(o) && DistinctGuids(o.endpoints)
    requires a in o.endpoints && o.Kept(a) && b in o.endpoints && o.Kept(b)
    ensures OneSided(Probed(o, ev, a).segmentVisibility, Probed(o, ev, b).segmentVisibility)
       <==> LooksForSegment(o, a) && LooksForSegment(o, b) && HasSegment(o, a) != HasSegment(o, b)
  {
    SegmentIff(o, ev, a);
    SegmentIff(o, ev, b);
    hide Gathered, Raw, Probed, HasSegment, DistinctGuids;
  }

  /** Probing leaves what was announced. */
  lemma SameFields(o: Observation, ev: Evidence, x: Endpoint)
    ensures var x' := Probed(o, ev, x);
            x'.qos == x.qos && x'.participant == x.participant && x'.unicast == x.unicast && x'.multicast == x.multicast
            && x'.hostId == x.hostId && x'.ddsType == x.ddsType && x'.typeInformationHash == x.typeInformationHash
            && x'.typeInformationMinimalHash == x.typeInformationMinimalHash
    ensures HasKind(Probed(o, ev, x), SHM) <==> HasKind(x, SHM)
  {
    hide VisibilityOf;
  }

  lemma SameSharing(o: Observation, ev: Evidence, a: Endpoint, b: Endpoint)
    ensures DatasharingPair(Probed(o, ev, a), Probed(o, ev, b)) <==> DatasharingPair(a, b)
    ensures DatasharingPair(a, b) ==> a.qos.dataSharing != Off && b.qos.dataSharing != Off
  {
    SameFields(o, ev, a);
    SameFields(o, ev, b);
    hide Probed, HasKind;
  }

  lemma PortsMeet(o: Observation, ev: Evidence, a: Endpoint, b: Endpoint)
    requires Gathered(o, ev) && Raw(o) && a in o.endpoints && b in o.endpoints
    ensures ShmPorts(Probed(o, ev, a)) * ShmPorts(Probed(o, ev, b)) != {}
       <==> exists n :: ShowsPort(o, a, n) && ShowsPort(o, b, n)
  {
    hide Gathered, Raw, Probed, ShmPorts;
    forall n
      ensures n in ShmPorts(Probed(o, ev, a)) <==> ShowsPort(o, a, n)
      ensures n in ShmPorts(Probed(o, ev, b)) <==> ShowsPort(o, b, n)
    {
      ShownPorts(o, ev, a, n);
      ShownPorts(o, ev, b, n);
    }
    hide ShowsPort;
    assert forall n :: n in ShmPorts(Probed(o, ev, a)) * ShmPorts(Probed(o, ev, b)) <==> ShowsPort(o, a, n) && ShowsPort(o, b, n);
  }

  /** Of two ends that Fast DDS matches on one host, a split is reported exactly when they are told apart. */
  lemma SplitIff(o: Observation, ev: Evidence, glob: Glob, a: Endpoint, b: Endpoint)
    requires Gathered(o, ev) && Raw(o) && DistinctGuids(o.endpoints)
    requires a in o.endpoints && o.Kept(a) && b in o.endpoints && o.Kept(b)
    ensures ShmIpcNamespaceSplit in Decide(glob, Probed(o, ev, a), Probed(o, ev, b)).warnings
       <==> !TypesUnmatched(a, b) && QosIncompatibilities(glob, a, b) == [] && a.hostId == b.hostId && ToldApart(o, a, b)
  {
    SplitReportedIff(glob, Probed(o, ev, a), Probed(o, ev, b));
    EvidenceIff(o, ev, a, b);
    SameMatch(o, ev, glob, a, b);
    hide *;
  }

  lemma SameMatch(o: Observation, ev: Evidence, glob: Glob, a: Endpoint, b: Endpoint)
    ensures var a', b' := Probed(o, ev, a), Probed(o, ev, b);
            (TypesUnmatched(a', b') <==> TypesUnmatched(a, b)) && a'.hostId == a.hostId && b'.hostId == b.hostId
            && QosIncompatibilities(glob, a', b') == QosIncompatibilities(glob, a, b)
  {
    SameFields(o, ev, a);
    SameFields(o, ev, b);
    hide Probed, HasKind;
    SameQosMatch(glob, a, b, Probed(o, ev, a), Probed(o, ev, b));
    hide QosIncompatibilities;
  }

  lemma SameQosMatch(glob: Glob, a: Endpoint, b: Endpoint, a': Endpoint, b': Endpoint)
    requires a'.qos == a.qos && b'.qos == b.qos
    ensures QosIncompatibilities(glob, a', b') == QosIncompatibilities(glob, a, b)
  {
    hide PartitionsMatch, DurabilityRank, LivelinessRank;
  }

  /** What a participant of the tool's namespace shows when it is well. */
  ghost predicate ClearlyHere(w: World, o: Observation, p: string) {
    w.space(p) == w.toolSpace && (forall n :: o.Announces(NodeRole, p, n) ==> Locked(o, n))
    && exists n :: o.Announces(ProofRole, p, n) && OnlyBy(o, p, n)
  }

  /** What one of another namespace shows when no dead process has left a port file of its. */
  ghost predicate ClearlyThere(w: World, o: Observation, p: string) {
    w.space(p) != w.toolSpace && o.directory.Listed?
    && exists n :: o.Announces(NodeRole, p, n) && (forall q :: w.space(q) == w.toolSpace ==> !w.listens(q, n))
                   && forall e :: e in o.directory.entries && PortFile(e, n) ==> e.lock == Held || e.lock == Missing
  }

  lemma ClearIsSeen(w: World, o: Observation, p: string)
    requires Behaves(w, o)
    ensures ClearlyHere(w, o, p) ==> SeenHere(o, p)
    ensures ClearlyThere(w, o, p) ==> SeenElsewhere(o, p)
  {
    hide Behaves, Locked, OnlyBy, PortFile, SeenHere, SeenElsewhere;
    if ClearlyHere(w, o, p) {
      var n :| o.Announces(ProofRole, p, n) && OnlyBy(o, p, n);
      HereIsSeen(w, o, p, n);
    }
    if ClearlyThere(w, o, p) {
      var n :| o.Announces(NodeRole, p, n) && (forall q :: w.space(q) == w.toolSpace ==> !w.listens(q, n))
               && forall e :: e in o.directory.entries && PortFile(e, n) ==> e.lock == Held || e.lock == Missing;
      ThereIsSeen(w, o, p, n);
    }
  }

  /** In a world that behaves, a pair with SHM on both sides, one end clearly here and the other elsewhere, is reported. */
  lemma SplitIsComplete(w: World, o: Observation, ev: Evidence, glob: Glob, a: Endpoint, b: Endpoint)
    requires Behaves(w, o) && Gathered(o, ev) && DistinctGuids(o.endpoints) && Raw(o)
    requires a in o.endpoints && o.Kept(a) && b in o.endpoints && o.Kept(b)
    requires !TypesUnmatched(a, b) && QosIncompatibilities(glob, a, b) == [] && a.hostId == b.hostId
    requires HasKind(a, SHM) && HasKind(b, SHM)
    requires (ClearlyHere(w, o, a.participant) && ClearlyThere(w, o, b.participant))
             || (ClearlyThere(w, o, a.participant) && ClearlyHere(w, o, b.participant))
    ensures ShmIpcNamespaceSplit in Decide(glob, Probed(o, ev, a), Probed(o, ev, b)).warnings
  {
    assert a.participant != b.participant;
    ClearIsSeen(w, o, a.participant);
    ClearIsSeen(w, o, b.participant);
    hide ClearlyHere, ClearlyThere, SeenHere, SeenElsewhere, Behaves;
    assert OneHere(o, a, b);
    SplitIff(o, ev, glob, a, b);
    hide Gathered, Decide, Probed, QosIncompatibilities, TypesUnmatched;
  }

  // ---- the lock of a port

  /** The port file of `n` listed last has this lock state. */
  ghost predicate LastLock(entries: seq<DirEntry>, n: nat, lock: LockState) {
    exists i :: 0 <= i < |entries| && PortFile(entries[i], n) && entries[i].lock == lock
                && forall j :: i < j < |entries| ==> !PortFile(entries[j], n)
  }

  lemma {:induction false} LastState(entries: seq<DirEntry>, n: nat, lock: LockState)
    ensures var s := States(entries, Dec(n)); s != [] && s[|s| - 1] == lock <==> LastLock(entries, n, lock)
  {
    hide PortFile, PortText;
    if entries != [] {
      var init, e := entries[..|entries| - 1], entries[|entries| - 1];
      LastState(init, n, lock);
      PortFileText(e, n);
      LastLockSnoc(init, e, n, lock);
      assert entries == init + [e];
      hide LastLock;
    }
  }

  lemma PortFileText(e: DirEntry, n: nat)
    ensures PortText(e) == Some(Dec(n)) <==> PortFile(e, n)
  {
    if PortText(e) == Some(Dec(n)) {
      PortFileNames(e, n);
    }
    if PortFile(e, n) {
      PortFileRecognised(e, n);
    }
  }

  lemma LastLockSnoc(init: seq<DirEntry>, e: DirEntry, n: nat, lock: LockState)
    ensures LastLock(init + [e], n, lock) <==> if PortFile(e, n) then e.lock == lock else LastLock(init, n, lock)
  {
    hide PortFile;
    var es := init + [e];
    assert es[|init|] == e && forall i :: 0 <= i < |init| ==> es[i] == init[i];
    if PortFile(e, n) && e.lock == lock {
      assert PortFile(es[|init|], n);
    }
    if !PortFile(e, n) && LastLock(init, n, lock) {
      var i :| 0 <= i < |init| && PortFile(init[i], n) && init[i].lock == lock
               && forall j :: i < j < |init| ==> !PortFile(init[j], n);
      assert PortFile(es[i], n);
    }
    if !PortFile(e, n) && LastLock(es, n, lock) {
      var i :| 0 <= i < |es| && PortFile(es[i], n) && es[i].lock == lock && forall j :: i < j < |es| ==> !PortFile(es[j], n);
      assert PortFile(init[i], n);
    }
  }

  /** What the report says of the lock of a node's port. */
  lemma PortLockIff(o: Observation, ev: Evidence, n: nat)
    requires Gathered(o, ev) && o.directory.Listed? && n in ev.book.node
    ensures n in ev.info.portLocks
    ensures var lock, entries := ev.info.portLocks[n], o.directory.entries;
            (lock == LockOwn <==> o.OwnPort(n))
            && (lock == LockHeld <==> !o.OwnPort(n) && LastLock(entries, n, Held))
            && (lock == LockStale <==> !o.OwnPort(n) && LastLock(entries, n, Free))
            && (lock == LockUnknown <==> !o.OwnPort(n) && LastLock(entries, n, UnknownLock))
            && (lock == LockAbsent <==>
                  !o.OwnPort(n) && (LastLock(entries, n, Missing) || forall e :: e in entries ==> !PortFile(e, n)))
  {
    var entries := o.directory.entries;
    LastState(entries, n, Held);
    LastState(entries, n, Free);
    LastState(entries, n, UnknownLock);
    LastState(entries, n, Missing);
    NoState(entries, n);
    hide Counted, Named, States, LastLock, PortFile;
  }

  lemma {:induction false} NoState(entries: seq<DirEntry>, n: nat)
    ensures States(entries, Dec(n)) == [] <==> forall e :: e in entries ==> !PortFile(e, n)
  {
    hide PortFile, PortText;
    if entries != [] {
      var init, e := entries[..|entries| - 1], entries[|entries| - 1];
      NoState(init, n);
      PortFileText(e, n);
      assert entries == init + [e];
    }
  }

  /** The scan vouches for the nodes when the port of every one is locked here and none is on another host. */
  lemma NodesVisibleIff(o: Observation, ev: Evidence)
    requires Gathered(o, ev) && o.directory.Listed?
    ensures ev.info.nodesVisible
       <==> (forall p, n :: o.Announces(NodeRole, p, n) ==> Locked(o, n) && !o.OwnPort(n)) && forall p :: !o.OtherHost(p)
  {
    forall p, n | o.Announces(NodeRole, p, n)
      ensures n in ev.info.missingPorts <==> o.OwnPort(n) || !Locked(o, n)
    {
      NodePort(o, ev, p, n);
    }
    hide Locked, PortMissing, PortUndecided, States, Counted, Named;
    if ev.info.missingPorts != [] {
      var n := ev.info.missingPorts[0];
      assert n in ev.info.missingPorts && n in ev.book.node;
      var p :| o.Announces(NodeRole, p, n);
    }
    if ev.book.otherHosts != {} {
      var p :| p in ev.book.otherHosts;
    }
  }
}
