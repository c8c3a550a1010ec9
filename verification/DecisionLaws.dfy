/** When decide() gives which transport, locator, confidence, reasons and warnings (decision.cpp), over the endpoints. */
module DecisionLaws {
  import opened Model
  import opened Decision

  // ---- which pairs Fast DDS matches

  const DURABILITIES := ["VOLATILE", "TRANSIENT_LOCAL", "TRANSIENT", "PERSISTENT"]
  const LIVELINESSES := ["AUTOMATIC", "MANUAL_BY_PARTICIPANT", "MANUAL_BY_TOPIC"]

  /** Both are known values, and the offered one is the weaker. */
  ghost predicate Weaker(offered: string, requested: string, values: seq<string>) {
    exists i, j :: 0 <= i < j < |values| && values[i] == offered && values[j] == requested
  }

  /** The offered duration is the longer. */
  ghost predicate Longer(offered: Duration, requested: Duration) {
    match (offered, requested)
    case (_, Infinite) => false
    case (Infinite, Seconds(_)) => true
    case (Seconds(a), Seconds(b)) => a > b
  }

  /** A partition name of the list, where no name at all is the empty one. */
  ghost predicate InPartition(names: seq<string>, p: string) {
    p in names || (|names| == 0 && p == "")
  }

  /** What the writer offers is not what the reader requests. */
  ghost predicate Refused(glob: Glob, w: Qos, r: Qos, policy: string) {
    match policy
    case "reliability" => w.reliability == "BEST_EFFORT" && r.reliability == "RELIABLE"
    case "durability" => Weaker(w.durability, r.durability, DURABILITIES)
    case "deadline" => Longer(w.deadline, r.deadline)
    case "liveliness" => Weaker(w.liveliness, r.liveliness, LIVELINESSES) || Longer(w.livelinessLease, r.livelinessLease)
    case "ownership" => w.ownership != r.ownership
    case "partition" =>
      forall a, b :: InPartition(w.partitions, a) && InPartition(r.partitions, b) ==> a != b && !glob(a, b) && !glob(b, a)
    case _ => false
  }

  function OneIf<T>(b: bool, x: T): seq<T> {
    if b then [x] else []
  }

  lemma WeakerIff(offered: string, requested: string)
    ensures Weaker(offered, requested, DURABILITIES)
       <==> 0 <= DurabilityRank(offered) < DurabilityRank(requested)
    ensures Weaker(offered, requested, LIVELINESSES)
       <==> 0 <= LivelinessRank(offered) < LivelinessRank(requested)
  {
    var i, j := DurabilityRank(offered), DurabilityRank(requested);
    if 0 <= i < j {
      assert DURABILITIES[i] == offered && DURABILITIES[j] == requested;
    }
    var k, l := LivelinessRank(offered), LivelinessRank(requested);
    if 0 <= k < l {
      assert LIVELINESSES[k] == offered && LIVELINESSES[l] == requested;
    }
  }

  lemma PartitionsIff(glob: Glob, w: seq<string>, r: seq<string>)
    ensures PartitionsMatch(glob, w, r)
       <==> exists a, b :: InPartition(w, a) && InPartition(r, b) && (a == b || glob(a, b) || glob(b, a))
  {
    forall p
      ensures (p in PartitionNames(w) <==> InPartition(w, p)) && (p in PartitionNames(r) <==> InPartition(r, p))
    {
    }
    hide InPartition, PartitionNames;
  }

  /** The refused policies are reported, each once and in this order. */
  lemma PolicyIff(glob: Glob, w: Endpoint, r: Endpoint)
    ensures QosIncompatibilities(glob, w, r)
         == OneIf(Refused(glob, w.qos, r.qos, "reliability"), "reliability")
            + OneIf(Refused(glob, w.qos, r.qos, "durability"), "durability")
            + OneIf(Refused(glob, w.qos, r.qos, "deadline"), "deadline")
            + OneIf(Refused(glob, w.qos, r.qos, "liveliness"), "liveliness")
            + OneIf(Refused(glob, w.qos, r.qos, "ownership"), "ownership")
            + OneIf(Refused(glob, w.qos, r.qos, "partition"), "partition")
  {
    WeakerIff(w.qos.durability, r.qos.durability);
    WeakerIff(w.qos.liveliness, r.qos.liveliness);
    PartitionsIff(glob, w.qos.partitions, r.qos.partitions);
    hide PartitionsMatch, DurabilityRank, LivelinessRank, Weaker, InPartition;
  }

  ghost predicate Compatible(glob: Glob, w: Qos, r: Qos) {
    forall policy :: !Refused(glob, w, r, policy)
  }

  lemma CompatibleIff(glob: Glob, w: Endpoint, r: Endpoint)
    ensures QosIncompatibilities(glob, w, r) == [] <==> Compatible(glob, w.qos, r.qos)
    ensures forall policy :: policy in QosIncompatibilities(glob, w, r) <==> Refused(glob, w.qos, r.qos, policy)
  {
    PolicyIff(glob, w, r);
    KnownPolicies(glob, w.qos, r.qos);
    hide QosIncompatibilities, Refused;
    if QosIncompatibilities(glob, w, r) != [] {
      assert QosIncompatibilities(glob, w, r)[0] in QosIncompatibilities(glob, w, r);
    }
  }

  lemma KnownPolicies(glob: Glob, w: Qos, r: Qos)
    ensures forall policy :: Refused(glob, w, r, policy) ==>
              policy in ["reliability", "durability", "deadline", "liveliness", "ownership", "partition"]
  {
  }

  ghost predicate InformationAnnounced(e: Endpoint) {
    !(e.typeInformationHash == "" && e.typeInformationMinimalHash == "")
  }

  /** One type: by what both announce of it, complete or minimal, and by name when one of them announces nothing. */
  ghost predicate SameType(w: Endpoint, r: Endpoint) {
    if InformationAnnounced(w) && InformationAnnounced(r) then
      (w.typeInformationHash == r.typeInformationHash != "")
      || (w.typeInformationMinimalHash == r.typeInformationMinimalHash != "")
    else w.ddsType == r.ddsType
  }

  lemma SameTypeIff(w: Endpoint, r: Endpoint)
    ensures SameType(w, r) <==> !TypesUnmatched(w, r)
  {
  }

  ghost predicate Matched(glob: Glob, w: Endpoint, r: Endpoint) {
    SameType(w, r) && Compatible(glob, w.qos, r.qos)
  }

  // ---- what could carry a pair

  ghost predicate Announces(e: Endpoint, kind: LocatorKind) {
    exists l :: (l in e.unicast || l in e.multicast) && l.kind == kind
  }

  ghost predicate BothShm(w: Endpoint, r: Endpoint) {
    Announces(w, SHM) && Announces(r, SHM)
  }

  lemma AnnouncesIff(e: Endpoint, kind: LocatorKind)
    ensures HasKind(e, kind) <==> Announces(e, kind)
  {
    assert forall l :: l in e.unicast + e.multicast <==> l in e.unicast || l in e.multicast;
  }

  /** Both have data-sharing on, and no two lists of domains without a common one. */
  ghost predicate Sharing(w: Qos, r: Qos) {
    w.dataSharing in {On, Auto} && r.dataSharing in {On, Auto}
    && (|w.dataSharingDomains| > 0 && |r.dataSharingDomains| > 0 ==>
          exists d :: d in w.dataSharingDomains && d in r.dataSharingDomains)
  }

  lemma SharingIff(w: Endpoint, r: Endpoint)
    ensures DatasharingPair(w, r) <==> Sharing(w.qos, r.qos)
  {
  }

  /** Data-sharing carries the pair. */
  ghost predicate SharesMemory(glob: Glob, w: Endpoint, r: Endpoint) {
    Matched(glob, w, r) && w.hostId == r.hostId && Sharing(w.qos, r.qos) && !SplitEvidence(w, r)
  }

  /** A SHM transport carries it. */
  ghost predicate UsesShm(glob: Glob, w: Endpoint, r: Endpoint) {
    Matched(glob, w, r) && w.hostId == r.hostId && !Sharing(w.qos, r.qos) && BothShm(w, r) && !SplitEvidence(w, r)
  }

  /** Memory cannot carry it. */
  ghost predicate OverNetwork(glob: Glob, w: Endpoint, r: Endpoint) {
    Matched(glob, w, r) && (w.hostId != r.hostId || (!Sharing(w.qos, r.qos) && !BothShm(w, r)))
  }

  ghost predicate Reaches(w: Endpoint, l: Locator) {
    l.kind in {UDPv4, UDPv6, TCPv4, TCPv6} && Announces(w, l.kind)
  }

  /** The reader's locators in the order they are tried. */
  function LocatorsOf(r: Endpoint): seq<Locator> {
    r.unicast + r.multicast
  }

  /** The first of the reader's locators that the writer reaches. */
  ghost predicate Reached(w: Endpoint, r: Endpoint, k: nat) {
    k < |LocatorsOf(r)| && Reaches(w, LocatorsOf(r)[k]) && forall j :: 0 <= j < k ==> !Reaches(w, LocatorsOf(r)[j])
  }

  ghost predicate Unreached(w: Endpoint, r: Endpoint) {
    forall k :: 0 <= k < |LocatorsOf(r)| ==> !Reaches(w, LocatorsOf(r)[k])
  }

  /** An older Fast DDS hid the other locators of a participant on this host, and only one side has SHM. */
  ghost predicate Hidden(w: Endpoint, r: Endpoint) {
    w.hostId == r.hostId && (w.sameHostLocatorsFiltered || r.sameHostLocatorsFiltered)
    && !(Announces(w, SHM) <==> Announces(r, SHM))
  }

  /** The transport of that name. */
  ghost predicate Names(t: Transport, kind: LocatorKind) {
    (t == ViaUDPv4 && kind == UDPv4) || (t == ViaUDPv6 && kind == UDPv6) || (t == ViaTCPv4 && kind == TCPv4)
    || (t == ViaTCPv6 && kind == TCPv6)
  }

  lemma {:induction false} FirstReachableIs(w: Endpoint, ls: seq<Locator>)
    ensures var l := FirstReachable(w, ls);
            if l.None? then forall k :: 0 <= k < |ls| ==> !Reaches(w, ls[k])
            else exists k :: 0 <= k < |ls| && l.value == ls[k] && Reaches(w, ls[k])
                             && forall j :: 0 <= j < k ==> !Reaches(w, ls[j])
  {
    if ls != [] {
      AnnouncesIff(w, ls[0].kind);
      hide HasKind, Announces;
      FirstReachableIs(w, ls[1..]);
      var l := FirstReachable(w, ls);
      if Reaches(w, ls[0]) {
        assert l.value == ls[0];
      } else if l.Some? {
        var k :| 0 <= k < |ls| - 1 && l.value == ls[1..][k] && Reaches(w, ls[1..][k])
                 && forall j :: 0 <= j < k ==> !Reaches(w, ls[1..][j]);
        assert l.value == ls[k + 1];
        forall j | 0 <= j < k + 1
          ensures !Reaches(w, ls[j])
        {
          assert j > 0 ==> ls[j] == ls[1..][j - 1];
        }
      } else {
        forall k | 0 <= k < |ls|
          ensures !Reaches(w, ls[k])
        {
          assert k > 0 ==> ls[k] == ls[1..][k - 1];
        }
      }
    }
  }

  /** A network verdict: the reader's first locator reached, by its kind; UDPv4 behind hidden locators; else nothing. */
  ghost predicate NetworkVerdict(w: Endpoint, r: Endpoint, v: Verdict) {
    if Unreached(w, r) then
      v.locator == NO_LOCATOR && !v.locatorMulticast
      && if Hidden(w, r) then v.transport == ViaUDPv4 && v.confidence == Likely
         else v.transport == NoTransport && v.confidence == Certain
    else
      v.confidence == Certain && Names(v.transport, v.locator.kind)
      && exists k: nat :: Reached(w, r, k) && v.locator == LocatorsOf(r)[k] && (v.locatorMulticast <==> k >= |r.unicast|)
  }

  /** What the two walks find, of the unicast locators first. */
  lemma Picked(w: Endpoint, r: Endpoint) returns (k: nat)
    ensures var u, m := FirstReachable(w, r.unicast), FirstReachable(w, r.multicast);
            if u.Some? then Reached(w, r, k) && u.value == LocatorsOf(r)[k] && k < |r.unicast|
            else if m.Some? then Reached(w, r, k) && m.value == LocatorsOf(r)[k] && k >= |r.unicast|
            else Unreached(w, r)
  {
    FirstReachableIs(w, r.unicast);
    FirstReachableIs(w, r.multicast);
    hide Reaches, FirstReachable;
    var u, m := FirstReachable(w, r.unicast), FirstReachable(w, r.multicast);
    if u.Some? {
      k :| k < |r.unicast| && u.value == r.unicast[k] && Reaches(w, r.unicast[k])
           && forall j :: 0 <= j < k ==> !Reaches(w, r.unicast[j]);
    } else if m.Some? {
      var l :| 0 <= l < |r.multicast| && m.value == r.multicast[l] && Reaches(w, r.multicast[l])
               && forall j :: 0 <= j < l ==> !Reaches(w, r.multicast[j]);
      k := |r.unicast| + l;
      forall j | 0 <= j < k
        ensures !Reaches(w, LocatorsOf(r)[j])
      {
        assert LocatorsOf(r)[j] == if j < |r.unicast| then r.unicast[j] else r.multicast[j - |r.unicast|];
      }
    } else {
      k := 0;
      forall j | 0 <= j < |LocatorsOf(r)|
        ensures !Reaches(w, LocatorsOf(r)[j])
      {
        assert LocatorsOf(r)[j] == if j < |r.unicast| then r.unicast[j] else r.multicast[j - |r.unicast|];
      }
    }
  }

  lemma ReachedNotUn(w: Endpoint, r: Endpoint, k: nat)
    requires Reached(w, r, k)
    ensures !Unreached(w, r) && LocatorsOf(r)[k].kind in {UDPv4, UDPv6, TCPv4, TCPv6}
  {
  }

  lemma NetworkIs(w: Endpoint, r: Endpoint, reasons: seq<Code>, warnings: seq<Code>)
    ensures NetworkVerdict(w, r, DecideNetwork(w, r, reasons, warnings))
  {
    var k := Picked(w, r);
    AnnouncesIff(w, SHM);
    AnnouncesIff(r, SHM);
    hide HasKind, Announces, FirstReachable, Reached, Unreached;
    if FirstReachable(w, r.unicast).Some? || FirstReachable(w, r.multicast).Some? {
      ReachedNotUn(w, r, k);
      assert Reached(w, r, k);
    }
  }

  // ---- the verdict

  /** The reader's first SHM locator. */
  ghost predicate FirstShm(r: Endpoint, l: Locator) {
    exists k :: 0 <= k < |LocatorsOf(r)| && LocatorsOf(r)[k] == l && l.kind == SHM
                && forall j :: 0 <= j < k ==> LocatorsOf(r)[j].kind != SHM
  }

  lemma {:induction false} FirstOfKindIs(ls: seq<Locator>, kind: LocatorKind)
    ensures var l := FirstOfKind(ls, kind);
            if l.None? then forall k :: 0 <= k < |ls| ==> ls[k].kind != kind
            else l.value.kind == kind
                 && exists k :: 0 <= k < |ls| && l.value == ls[k] && forall j :: 0 <= j < k ==> ls[j].kind != kind
  {
    if ls != [] && ls[0].kind != kind {
      FirstOfKindIs(ls[1..], kind);
      var l := FirstOfKind(ls[1..], kind);
      if l.Some? {
        var k :| 0 <= k < |ls| - 1 && l.value == ls[1..][k] && forall j :: 0 <= j < k ==> ls[1..][j].kind != kind;
        assert l.value == ls[k + 1];
        forall j | 0 <= j < k + 1
          ensures ls[j].kind != kind
        {
          assert j > 0 ==> ls[j] == ls[1..][j - 1];
        }
      } else {
        forall k | 0 <= k < |ls|
          ensures ls[k].kind != kind
        {
          assert k > 0 ==> ls[k] == ls[1..][k - 1];
        }
      }
    }
  }

  lemma ShmLocator(r: Endpoint)
    requires Announces(r, SHM)
    ensures var l := FirstOfKind(r.unicast + r.multicast, SHM); l.Some? && FirstShm(r, l.value)
  {
    FirstOfKindIs(r.unicast + r.multicast, SHM);
    hide FirstOfKind;
    var l :| (l in r.unicast || l in r.multicast) && l.kind == SHM;
    assert l in r.unicast + r.multicast;
    var ls, first := LocatorsOf(r), FirstOfKind(r.unicast + r.multicast, SHM);
    var k :| 0 <= k < |ls| && first.value == ls[k] && forall j :: 0 <= j < k ==> ls[j].kind != SHM;
    assert ls[k] == first.value;
  }

  ghost predicate NoVerdict(v: Verdict) {
    v.transport == NoTransport && v.confidence == Certain && v.locator == NO_LOCATOR && !v.locatorMulticast
  }

  /** The part of a verdict that is not reasons and warnings. */
  ghost predicate CarriedAs(glob: Glob, w: Endpoint, r: Endpoint, v: Verdict) {
    if SharesMemory(glob, w, r) then
      v.transport == DataSharing && v.confidence == Likely && v.locator == NO_LOCATOR && !v.locatorMulticast
    else if UsesShm(glob, w, r) then
      v.transport == ViaSHM && v.confidence == Certain && FirstShm(r, v.locator) && !v.locatorMulticast
    else if OverNetwork(glob, w, r) then NetworkVerdict(w, r, v)
    else NoVerdict(v)
  }

  /** Memory is split or not, as decide_same_type() looks at it. */
  lemma SharingVerdict(w: Endpoint, r: Endpoint, reasons: seq<Code>, warnings: seq<Code>)
    requires Sharing(w.qos, r.qos)
    ensures var v := DecideDatasharing(w, r, reasons, warnings);
            if SplitEvidence(w, r) then NoVerdict(v)
            else v.transport == DataSharing && v.confidence == Likely && v.locator == NO_LOCATOR && !v.locatorMulticast
  {
    SharingIff(w, r);
    hide HasKind, DatasharingPair, ShmPorts, Sharing;
  }

  lemma ShmVerdict(w: Endpoint, r: Endpoint, reasons: seq<Code>, warnings: seq<Code>)
    requires !Sharing(w.qos, r.qos) && BothShm(w, r)
    ensures var v := DecideShm(w, r, reasons, warnings);
            if SplitEvidence(w, r) then NoVerdict(v)
            else v.transport == ViaSHM && v.confidence == Certain && FirstShm(r, v.locator) && !v.locatorMulticast
  {
    SharingIff(w, r);
    AnnouncesIff(w, SHM);
    AnnouncesIff(r, SHM);
    ShmLocator(r);
    hide HasKind, DatasharingPair, ShmPorts, Sharing, Announces, FirstOfKind, FirstShm;
  }

  lemma SameTypeVerdict(glob: Glob, w: Endpoint, r: Endpoint)
    requires SameType(w, r)
    ensures CarriedAs(glob, w, r, DecideSameType(glob, w, r))
  {
    CompatibleIff(glob, w, r);
    SharingIff(w, r);
    AnnouncesIff(w, SHM);
    AnnouncesIff(r, SHM);
    hide QosIncompatibilities, DatasharingPair, HasKind, Sharing, Announces, Compatible, SplitEvidence, IpAddresses,
      DecideNetwork, DecideShm, DecideDatasharing, DatasharingReasons, NetworkVerdict, FirstShm, SameType;
    forall reasons, warnings: seq<Code>
      ensures NetworkVerdict(w, r, DecideNetwork(w, r, reasons, warnings))
    {
      NetworkIs(w, r, reasons, warnings);
    }
    if Sharing(w.qos, r.qos) {
      forall reasons, warnings: seq<Code> {
        SharingVerdict(w, r, reasons, warnings);
      }
    } else if BothShm(w, r) {
      forall reasons, warnings: seq<Code> {
        ShmVerdict(w, r, reasons, warnings);
      }
    }
  }

  /** What decide() predicts for a pair, over its QoS, hosts and announced locators. */
  lemma VerdictIs(glob: Glob, w: Endpoint, r: Endpoint)
    ensures CarriedAs(glob, w, r, Decide(glob, w, r))
  {
    SameTypeIff(w, r);
    hide SameType, TypesUnmatched, DecideSameType, Compatible, Sharing, BothShm, SplitEvidence, IntraProcessPair, ReplaceCode,
      FirstShm, Reached, Unreached, Hidden;
    if SameType(w, r) {
      SameTypeVerdict(glob, w, r);
    }
  }

  /** When each transport is given. */
  lemma TransportIff(glob: Glob, w: Endpoint, r: Endpoint)
    ensures var v := Decide(glob, w, r);
            (v.transport == DataSharing <==> SharesMemory(glob, w, r))
            && (v.transport == ViaSHM <==> UsesShm(glob, w, r))
            && (v.transport == NoTransport <==>
                  !SharesMemory(glob, w, r) && !UsesShm(glob, w, r)
                  && (OverNetwork(glob, w, r) ==> Unreached(w, r) && !Hidden(w, r)))
            && (v.transport == ViaUDPv4 && v.locator == NO_LOCATOR <==>
                  OverNetwork(glob, w, r) && Unreached(w, r) && Hidden(w, r))
            && (v.confidence == Likely <==> v.transport == DataSharing || (v.transport == ViaUDPv4 && v.locator == NO_LOCATOR))
  {
    VerdictIs(glob, w, r);
    hide Decide, Compatible, Sharing, BothShm, SplitEvidence, FirstShm, Unreached, Hidden, Reached, SameType;
  }

  // ---- reasons and warnings

  /** Two endpoints of one process: an eProsima prefix and the bytes of host, process and its random value. */
  ghost predicate OneProcess(w: Endpoint, r: Endpoint) {
    w.guidBytes[0] == 1 && w.guidBytes[1] == 15 && forall i :: 0 <= i < 8 ==> w.guidBytes[i] == r.guidBytes[i]
  }

  lemma OneProcessIff(w: Endpoint, r: Endpoint)
    ensures IntraProcessPair(w, r) <==> OneProcess(w, r)
  {
    if IntraProcessPair(w, r) {
      forall i | 0 <= i < 8
        ensures w.guidBytes[i] == r.guidBytes[i]
      {
        assert w.guidBytes[..8][i] == r.guidBytes[..8][i];
      }
      assert w.guidBytes[..2][0] == 1 && w.guidBytes[..2][1] == 15;
    }
  }

  ghost predicate ListsDomains(q: Qos) {
    |q.dataSharingDomains| > 0
  }

  ghost predicate SharingOn(q: Qos) {
    q.dataSharing in {On, Auto}
  }

  /** Why data-sharing does or does not apply on one host. */
  ghost predicate SharingReason(w: Qos, r: Qos, c: Code) {
    match c
    case DatasharingDisabledWriter => w.dataSharing == Off
    case DatasharingDisabledReader => w.dataSharing != Off && r.dataSharing == Off
    case DatasharingQosUnknown =>
      w.dataSharing != Off && r.dataSharing != Off && (w.dataSharing == UnknownSharing || r.dataSharing == UnknownSharing)
    case DatasharingDomainIdsMismatch => SharingOn(w) && SharingOn(r) && !Sharing(w, r)
    case DatasharingQosEnabledBoth => Sharing(w, r)
    case DatasharingDomainIdsMatch => Sharing(w, r) && ListsDomains(w) && ListsDomains(r)
    case DatasharingDomainIdsUnknown => Sharing(w, r) && !(ListsDomains(w) && ListsDomains(r))
    case _ => false
  }

  lemma SharingReasonsAre(w: Endpoint, r: Endpoint, c: Code)
    ensures c in DatasharingReasons(w, r) <==> SharingReason(w.qos, r.qos, c)
  {
    SharingIff(w, r);
  }

  /** What shows two participants in two namespaces. */
  ghost predicate SplitReason(w: Endpoint, r: Endpoint, c: Code) {
    w.participant != r.participant
    && match c
       case ShmPortCollision => BothShm(w, r) && exists n :: n in ShmPorts(w) && n in ShmPorts(r)
       case ShmReaderPortNotVisible =>
         BothShm(w, r) && w.participantShmVisibility == Visible && r.participantShmVisibility == NotVisible
       case ShmWriterPortNotVisible =>
         BothShm(w, r) && w.participantShmVisibility == NotVisible && r.participantShmVisibility == Visible
       case DatasharingReaderSegmentNotVisible =>
         Sharing(w.qos, r.qos) && w.segmentVisibility == Visible && r.segmentVisibility == NotVisible
       case DatasharingWriterSegmentNotVisible =>
         Sharing(w.qos, r.qos) && w.segmentVisibility == NotVisible && r.segmentVisibility == Visible
       case _ => false
  }

  ghost predicate HostReason(w: Endpoint, r: Endpoint, c: Code) {
    match c
    case SameHostGuid => w.hostId == r.hostId
    case DifferentHost => w.hostId != r.hostId
    case ShmLocatorsIgnoredAcrossHosts => w.hostId != r.hostId && BothShm(w, r)
    case _ => false
  }

  /** What a pair on one host says of its SHM locators. */
  ghost predicate ShmReason(glob: Glob, w: Endpoint, r: Endpoint, c: Code) {
    match c
    case BothShmLocators => BothShm(w, r) && !SharesMemory(glob, w, r)
    case WriterNoShmLocator => !Sharing(w.qos, r.qos) && !Announces(w, SHM)
    case ReaderNoShmLocator => !Sharing(w.qos, r.qos) && !Announces(r, SHM)
    case _ => false
  }

  ghost predicate NetworkReason(w: Endpoint, r: Endpoint, c: Code) {
    match c
    case CommonLocator(kind) => exists k: nat :: Reached(w, r, k) && LocatorsOf(r)[k].kind == kind
    case SameHostLocatorsHidden => Unreached(w, r) && Hidden(w, r)
    case NoCommonTransport => Unreached(w, r) && !Hidden(w, r)
    case _ => false
  }

  /** Why a matched pair is carried as it is, before a look at the processes. */
  ghost predicate OwnReason(glob: Glob, w: Endpoint, r: Endpoint, c: Code) {
    HostReason(w, r, c)
    || (w.hostId == r.hostId && (SharingReason(w.qos, r.qos, c) || ShmReason(glob, w, r, c)))
    || (w.hostId == r.hostId && (Sharing(w.qos, r.qos) || BothShm(w, r)) && SplitReason(w, r, c))
    || (OverNetwork(glob, w, r) && NetworkReason(w, r, c))
    || (c.DatasharingUnverifiedByTraffic? && SharesMemory(glob, w, r))
  }

  ghost predicate Reason(glob: Glob, w: Endpoint, r: Endpoint, c: Code) {
    if !SameType(w, r) then c == if w.ddsType == r.ddsType then TypeInformationMismatch else TypeNameMismatch
    else if c.TypeNamesDifferSameType? then w.ddsType != r.ddsType
    else if !Compatible(glob, w.qos, r.qos) then c.QosIncompatiblePolicy? && Refused(glob, w.qos, r.qos, c.policy)
    else if c.IntraProcess? then OneProcess(w, r)
    else OwnReason(glob, w, r, c) && !(c.DatasharingUnverifiedByTraffic? && OneProcess(w, r))
  }

  ghost predicate Addressed(e: Endpoint, a: string) {
    exists l :: l in e.unicast && l.kind in {UDPv4, UDPv6, TCPv4, TCPv6} && l.address == a
  }

  ghost predicate Warning(glob: Glob, w: Endpoint, r: Endpoint, c: Code) {
    match c
    case TypeHashMismatch => w.ddsType == r.ddsType && w.typeHash != r.typeHash && w.typeHash != "" && r.typeHash != ""
    case QosIncompatible => SameType(w, r) && !Compatible(glob, w.qos, r.qos)
    case HostIdMatchButIpDiffers =>
      Matched(glob, w, r) && w.hostId == r.hostId && (exists a :: Addressed(w, a)) && (exists a :: Addressed(r, a))
      && forall a :: !(Addressed(w, a) && Addressed(r, a))
    case ShmIpcNamespaceSplit => Matched(glob, w, r) && w.hostId == r.hostId && SplitEvidence(w, r)
    case _ => false
  }

  lemma {:induction false} Replaced(codes: seq<Code>, from: Code, to: Code, c: Code)
    requires from != to && multiset(codes)[from] <= 1
    ensures c in ReplaceCode(codes, from, to) <==> c == to || (c in codes && c != from)
  {
    if codes != [] {
      assert codes == [codes[0]] + codes[1..];
      if codes[0] != from {
        Replaced(codes[1..], from, to, c);
      } else {
        assert multiset(codes[1..])[from] == 0;
      }
    }
  }

  lemma IpcReasonsAre(w: Endpoint, r: Endpoint, c: Code)
    requires BothShm(w, r)
    ensures c in IpcSplitReasons(w, r)
       <==> SplitReason(w, r, c) && c in {ShmPortCollision, ShmReaderPortNotVisible, ShmWriterPortNotVisible}
  {
    hide ShmPorts, Announces, Sharing;
    assert ShmPorts(w) * ShmPorts(r) != {} <==> exists n :: n in ShmPorts(w) && n in ShmPorts(r) by {
      if n :| n in ShmPorts(w) && n in ShmPorts(r) {
        assert n in ShmPorts(w) * ShmPorts(r);
      }
    }
  }

  lemma SegmentReasonsAre(w: Endpoint, r: Endpoint, c: Code)
    requires Sharing(w.qos, r.qos)
    ensures c in DatasharingSplitReasons(w, r)
       <==> SplitReason(w, r, c) && c in {DatasharingReaderSegmentNotVisible, DatasharingWriterSegmentNotVisible}
  {
    hide ShmPorts, Announces, Sharing;
  }

  lemma NetworkReasonsAre(w: Endpoint, r: Endpoint, reasons: seq<Code>, warnings: seq<Code>, c: Code)
    ensures var v := DecideNetwork(w, r, reasons, warnings);
            v.warnings == warnings && |v.reasons| == |reasons| + 1 && v.reasons[..|reasons|] == reasons
            && (c == v.reasons[|reasons|] <==> NetworkReason(w, r, c))
  {
    var k := Picked(w, r);
    AnnouncesIff(w, SHM);
    AnnouncesIff(r, SHM);
    hide HasKind, Announces, FirstReachable, Unreached;
    if FirstReachable(w, r.unicast).Some? || FirstReachable(w, r.multicast).Some? {
      ReachedNotUn(w, r, k);
      forall l: nat | Reached(w, r, l)
        ensures l == k
      {
      }
    } else {
      forall l: nat
        ensures !Reached(w, r, l)
      {
        if Reached(w, r, l) {
          ReachedNotUn(w, r, l);
        }
      }
    }
  }

  ghost predicate IpDiffers(w: Endpoint, r: Endpoint) {
    (exists a :: Addressed(w, a)) && (exists a :: Addressed(r, a)) && forall a :: !(Addressed(w, a) && Addressed(r, a))
  }

  lemma AddressesAre(e: Endpoint, a: string)
    ensures a in IpAddresses(e) <==> Addressed(e, a)
  {
  }

  lemma IpDiffersIff(w: Endpoint, r: Endpoint)
    ensures IpAddresses(w) != {} && IpAddresses(r) != {} && IpAddresses(w) * IpAddresses(r) == {} <==> IpDiffers(w, r)
  {
    hide IpAddresses, Addressed;
    forall a
      ensures (a in IpAddresses(w) <==> Addressed(w, a)) && (a in IpAddresses(r) <==> Addressed(r, a))
    {
      AddressesAre(w, a);
      AddressesAre(r, a);
    }
    if IpAddresses(w) != {} {
      var a :| a in IpAddresses(w);
    }
    if IpAddresses(r) != {} {
      var a :| a in IpAddresses(r);
    }
    if IpAddresses(w) * IpAddresses(r) != {} {
      var a :| a in IpAddresses(w) * IpAddresses(r);
    }
    assert forall a :: Addressed(w, a) && Addressed(r, a) ==> a in IpAddresses(w) * IpAddresses(r);
  }

  /** The branch a matched pair takes. */
  lemma BranchIs(glob: Glob, w: Endpoint, r: Endpoint)
    requires Compatible(glob, w.qos, r.qos)
    ensures var v := DecideSameType(glob, w, r);
            var reasons, warnings := [SameHostGuid] + DatasharingReasons(w, r), OneIf(IpDiffers(w, r), HostIdMatchButIpDiffers);
            if w.hostId != r.hostId then
              v == DecideNetwork(w, r, [DifferentHost] + OneIf(BothShm(w, r), ShmLocatorsIgnoredAcrossHosts), [])
            else if Sharing(w.qos, r.qos) then v == DecideDatasharing(w, r, reasons, warnings)
            else if BothShm(w, r) then v == DecideShm(w, r, reasons + [BothShmLocators], warnings)
            else v == DecideNetwork(w, r, reasons + OneIf(!Announces(w, SHM), WriterNoShmLocator)
                                          + OneIf(!Announces(r, SHM), ReaderNoShmLocator), warnings)
  {
    CompatibleIff(glob, w, r);
    SharingIff(w, r);
    AnnouncesIff(w, SHM);
    AnnouncesIff(r, SHM);
    IpDiffersIff(w, r);
    hide QosIncompatibilities, DatasharingPair, HasKind, Sharing, Announces, Compatible, IpAddresses, IpDiffers,
      DecideNetwork, DecideShm, DecideDatasharing, DatasharingReasons;
  }

  /** The reasons that a pair of two hosts, or one that memory cannot carry, can have. */
  lemma OwnOnNetwork(glob: Glob, w: Endpoint, r: Endpoint, c: Code)
    requires OverNetwork(glob, w, r)
    ensures OwnReason(glob, w, r, c)
       <==> HostReason(w, r, c) || NetworkReason(w, r, c)
            || (w.hostId == r.hostId && (SharingReason(w.qos, r.qos, c) || ShmReason(glob, w, r, c)))
  {
    hide HostReason, NetworkReason, SharingReason, ShmReason, SplitReason, SplitEvidence, Sharing, BothShm, Compatible, SameType;
  }

  lemma Apart(glob: Glob, w: Endpoint, r: Endpoint, c: Code)
    requires Matched(glob, w, r) && w.hostId != r.hostId
    ensures c in DecideSameType(glob, w, r).reasons <==> OwnReason(glob, w, r, c)
    ensures DecideSameType(glob, w, r).warnings == []
  {
    BranchIs(glob, w, r);
    OwnOnNetwork(glob, w, r, c);
    var before := [DifferentHost] + OneIf(BothShm(w, r), ShmLocatorsIgnoredAcrossHosts);
    HostIs(w, r, c);
    NetworkReasonsAre(w, r, before, [], c);
    var v := DecideNetwork(w, r, before, []);
    assert v.reasons == before + [v.reasons[|before|]];
    hide *;
  }

  lemma Together(glob: Glob, w: Endpoint, r: Endpoint, c: Code)
    requires Matched(glob, w, r) && w.hostId == r.hostId && !Sharing(w.qos, r.qos) && !BothShm(w, r)
    ensures c in DecideSameType(glob, w, r).reasons <==> OwnReason(glob, w, r, c)
    ensures DecideSameType(glob, w, r).warnings == OneIf(IpDiffers(w, r), HostIdMatchButIpDiffers)
  {
    assert Compatible(glob, w.qos, r.qos) && OverNetwork(glob, w, r);
    hide *;
    BranchIs(glob, w, r);
    OwnOnNetwork(glob, w, r, c);
    ShmReasonsAre(glob, w, r, c);
    SharingReasonsAre(w, r, c);
    HostIs(w, r, c);
    var writers, readers := OneIf(!Announces(w, SHM), WriterNoShmLocator), OneIf(!Announces(r, SHM), ReaderNoShmLocator);
    var before := [SameHostGuid] + DatasharingReasons(w, r) + writers + readers;
    assert c in before <==> c == SameHostGuid || c in DatasharingReasons(w, r) || c in writers + readers;
    NetworkReasonsAre(w, r, before, OneIf(IpDiffers(w, r), HostIdMatchButIpDiffers), c);
    Last(DecideSameType(glob, w, r).reasons, before);
  }

  lemma Last(codes: seq<Code>, before: seq<Code>)
    requires |codes| == |before| + 1 && codes[..|before|] == before
    ensures codes == before + [codes[|before|]]
  {
  }

  lemma HostIs(w: Endpoint, r: Endpoint, c: Code)
    ensures if w.hostId == r.hostId then HostReason(w, r, c) <==> c == SameHostGuid
            else HostReason(w, r, c) <==> c in [DifferentHost] + OneIf(BothShm(w, r), ShmLocatorsIgnoredAcrossHosts)
  {
    hide BothShm;
  }

  lemma ShmReasonsAre(glob: Glob, w: Endpoint, r: Endpoint, c: Code)
    requires !Sharing(w.qos, r.qos) && !BothShm(w, r)
    ensures c in OneIf(!Announces(w, SHM), WriterNoShmLocator) + OneIf(!Announces(r, SHM), ReaderNoShmLocator)
       <==> ShmReason(glob, w, r, c)
  {
    hide Announces, Sharing, SharesMemory;
  }

  /** The reasons found are empty when there is no evidence. */
  lemma SplitListed(w: Endpoint, r: Endpoint)
    requires Sharing(w.qos, r.qos) || BothShm(w, r)
    ensures var split := (if BothShm(w, r) then IpcSplitReasons(w, r) else [])
                         + (if Sharing(w.qos, r.qos) then DatasharingSplitReasons(w, r) else []);
            split != [] <==> SplitEvidence(w, r)
  {
    SharingIff(w, r);
    AnnouncesIff(w, SHM);
    AnnouncesIff(r, SHM);
    hide HasKind, DatasharingPair, Sharing, Announces, ShmPorts;
  }

  /** Each of them is a reason for a split. */
  lemma SplitReasonsAre(w: Endpoint, r: Endpoint, c: Code)
    requires Sharing(w.qos, r.qos) || BothShm(w, r)
    ensures var split := (if BothShm(w, r) then IpcSplitReasons(w, r) else [])
                         + (if Sharing(w.qos, r.qos) then DatasharingSplitReasons(w, r) else []);
            c in split <==> SplitReason(w, r, c)
  {
    if BothShm(w, r) {
      IpcReasonsAre(w, r, c);
    }
    if Sharing(w.qos, r.qos) {
      SegmentReasonsAre(w, r, c);
    }
    SplitReasonKinds(w, r, c);
    hide *;
  }

  lemma SplitReasonKinds(w: Endpoint, r: Endpoint, c: Code)
    ensures SplitReason(w, r, c) ==>
              (c in {ShmPortCollision, ShmReaderPortNotVisible, ShmWriterPortNotVisible} && BothShm(w, r))
              || (c in {DatasharingReaderSegmentNotVisible, DatasharingWriterSegmentNotVisible} && Sharing(w.qos, r.qos))
  {
  }

  /** The list of a pair that data-sharing carries or would carry. */
  lemma SharingList(w: Endpoint, r: Endpoint, reasons: seq<Code>, warnings: seq<Code>)
    requires Sharing(w.qos, r.qos)
    ensures var split := (if BothShm(w, r) then IpcSplitReasons(w, r) else [])
                         + (if Sharing(w.qos, r.qos) then DatasharingSplitReasons(w, r) else []);
            var v := DecideDatasharing(w, r, reasons, warnings);
            v.warnings == warnings + OneIf(SplitEvidence(w, r), ShmIpcNamespaceSplit)
            && v.reasons == if SplitEvidence(w, r) then reasons + OneIf(BothShm(w, r), BothShmLocators) + split
                            else reasons + [DatasharingUnverifiedByTraffic]
  {
    SplitListed(w, r);
    SharingIff(w, r);
    AnnouncesIff(w, SHM);
    AnnouncesIff(r, SHM);
    hide HasKind, DatasharingPair, Sharing, Announces, ShmPorts, SplitEvidence, IpcSplitReasons, DatasharingSplitReasons;
  }

  /** The reasons that a pair whose data-sharing applies can have. */
  lemma OwnBySharing(glob: Glob, w: Endpoint, r: Endpoint, c: Code)
    requires Matched(glob, w, r) && w.hostId == r.hostId && Sharing(w.qos, r.qos)
    ensures OwnReason(glob, w, r, c)
       <==> c == SameHostGuid || SharingReason(w.qos, r.qos, c) || SplitReason(w, r, c)
            || c in if SplitEvidence(w, r) then OneIf(BothShm(w, r), BothShmLocators) else [DatasharingUnverifiedByTraffic]
  {
    hide NetworkReason, SharingReason, SplitReason, SplitEvidence, Sharing, BothShm, Compatible, SameType;
  }

  lemma BySharing(glob: Glob, w: Endpoint, r: Endpoint, c: Code)
    requires Matched(glob, w, r) && w.hostId == r.hostId && Sharing(w.qos, r.qos)
    ensures c in DecideSameType(glob, w, r).reasons <==> OwnReason(glob, w, r, c)
    ensures var v := DecideSameType(glob, w, r);
            v.warnings == OneIf(IpDiffers(w, r), HostIdMatchButIpDiffers) + OneIf(SplitEvidence(w, r), ShmIpcNamespaceSplit)
  {
    BranchIs(glob, w, r);
    SharingList(w, r, [SameHostGuid] + DatasharingReasons(w, r), OneIf(IpDiffers(w, r), HostIdMatchButIpDiffers));
    SplitListed(w, r);
    SplitReasonsAre(w, r, c);
    SharingReasonsAre(w, r, c);
    OwnBySharing(glob, w, r, c);
    hide *;
  }

  lemma ShmList(w: Endpoint, r: Endpoint, reasons: seq<Code>, warnings: seq<Code>)
    requires !Sharing(w.qos, r.qos) && BothShm(w, r)
    ensures var v := DecideShm(w, r, reasons, warnings);
            v.warnings == warnings + OneIf(SplitEvidence(w, r), ShmIpcNamespaceSplit)
            && v.reasons == reasons + IpcSplitReasons(w, r)
  {
    SplitListed(w, r);
    hide HasKind, DatasharingPair, Sharing, Announces, ShmPorts, SplitEvidence, IpcSplitReasons, FirstOfKind;
  }

  /** The reasons that a pair only SHM could carry can have. */
  lemma OwnByShm(glob: Glob, w: Endpoint, r: Endpoint, c: Code)
    requires Matched(glob, w, r) && w.hostId == r.hostId && !Sharing(w.qos, r.qos) && BothShm(w, r)
    ensures OwnReason(glob, w, r, c)
       <==> c == SameHostGuid || c == BothShmLocators || SharingReason(w.qos, r.qos, c) || SplitReason(w, r, c)
  {
    hide NetworkReason, SharingReason, SplitReason, SplitEvidence, Sharing, Announces, Compatible, SameType;
  }

  lemma ByShm(glob: Glob, w: Endpoint, r: Endpoint, c: Code)
    requires Matched(glob, w, r) && w.hostId == r.hostId && !Sharing(w.qos, r.qos) && BothShm(w, r)
    ensures c in DecideSameType(glob, w, r).reasons <==> OwnReason(glob, w, r, c)
    ensures var v := DecideSameType(glob, w, r);
            v.warnings == OneIf(IpDiffers(w, r), HostIdMatchButIpDiffers) + OneIf(SplitEvidence(w, r), ShmIpcNamespaceSplit)
  {
    assert Compatible(glob, w.qos, r.qos);
    hide *;
    BranchIs(glob, w, r);
    var own, split := DatasharingReasons(w, r), IpcSplitReasons(w, r);
    ShmList(w, r, [SameHostGuid] + own + [BothShmLocators], OneIf(IpDiffers(w, r), HostIdMatchButIpDiffers));
    assert c in [SameHostGuid] + own + [BothShmLocators] + split
      <==> c == SameHostGuid || c in own || c == BothShmLocators || c in split;
    SplitReasonsAre(w, r, c);
    SharingReasonsAre(w, r, c);
    OwnByShm(glob, w, r, c);
  }

  /** The reasons and warnings of a matched pair before a look at the processes. */
  lemma MatchedReasons(glob: Glob, w: Endpoint, r: Endpoint, c: Code)
    requires Matched(glob, w, r)
    ensures c in DecideSameType(glob, w, r).reasons <==> OwnReason(glob, w, r, c)
    ensures var v := DecideSameType(glob, w, r);
            v.warnings == OneIf(w.hostId == r.hostId && IpDiffers(w, r), HostIdMatchButIpDiffers)
                          + OneIf(w.hostId == r.hostId && (Sharing(w.qos, r.qos) || BothShm(w, r)) && SplitEvidence(w, r),
                                  ShmIpcNamespaceSplit)
  {
    hide DecideSameType, Compatible, Announces, Sharing, BothShm, OwnReason, IpDiffers, SplitEvidence, SameType;
    if w.hostId == r.hostId && Sharing(w.qos, r.qos) {
      BySharing(glob, w, r, c);
    } else if w.hostId == r.hostId && BothShm(w, r) {
      ByShm(glob, w, r, c);
    } else if w.hostId == r.hostId {
      Together(glob, w, r, c);
    } else {
      Apart(glob, w, r, c);
    }
  }

  lemma OnceAtTheEnd(codes: seq<Code>, c: Code)
    requires c !in codes
    ensures multiset(codes + [c])[c] <= 1
  {
    assert multiset(codes)[c] == 0;
    assert multiset(codes + [c]) == multiset(codes) + multiset{c};
  }

  /** Traffic can leave data-sharing unverified in one place of the list. */
  lemma UnverifiedOnce(glob: Glob, w: Endpoint, r: Endpoint)
    requires Matched(glob, w, r)
    ensures multiset(DecideSameType(glob, w, r).reasons)[DatasharingUnverifiedByTraffic] <= 1
  {
    var u := DatasharingUnverifiedByTraffic;
    var own := DatasharingReasons(w, r);
    MatchedReasons(glob, w, r, u);
    UnverifiedIsShared(glob, w, r);
    SharingReasonsAre(w, r, u);
    NoSharingReason(w.qos, r.qos);
    if SharesMemory(glob, w, r) {
      BranchIs(glob, w, r);
      SharingList(w, r, [SameHostGuid] + own, OneIf(IpDiffers(w, r), HostIdMatchButIpDiffers));
      OnceAtTheEnd([SameHostGuid] + own, u);
    }
    hide OwnReason, DecideSameType, DecideDatasharing, SharingReason, DatasharingReasons, Compatible, Sharing, SplitEvidence,
      BothShm, IpDiffers, SameType, Announces, SplitReason, IpcSplitReasons, DatasharingSplitReasons, DecideNetwork, DecideShm;
  }

  lemma NoSharingReason(w: Qos, r: Qos)
    ensures !SharingReason(w, r, DatasharingUnverifiedByTraffic)
  {
  }

  lemma UnverifiedIsShared(glob: Glob, w: Endpoint, r: Endpoint)
    ensures OwnReason(glob, w, r, DatasharingUnverifiedByTraffic) <==> SharesMemory(glob, w, r)
  {
    hide Sharing, BothShm, SharesMemory, OverNetwork, Announces;
  }

  /** Appending the code for two type names, and putting the process for the traffic. */
  lemma Retold(codes: seq<Code>, differ: bool, c: Code)
    requires multiset(codes)[DatasharingUnverifiedByTraffic] <= 1
    ensures var named := if differ then codes + [TypeNamesDifferSameType] else codes;
            (c in named <==> c in codes || (differ && c.TypeNamesDifferSameType?))
            && (c in ReplaceCode(named, DatasharingUnverifiedByTraffic, IntraProcess)
                <==> c.IntraProcess? || (c in named && !c.DatasharingUnverifiedByTraffic?))
  {
    var named := if differ then codes + [TypeNamesDifferSameType] else codes;
    assert multiset(named)[DatasharingUnverifiedByTraffic] == multiset(codes)[DatasharingUnverifiedByTraffic];
    Replaced(named, DatasharingUnverifiedByTraffic, IntraProcess, c);
  }

  lemma MatchedReasonIff(glob: Glob, w: Endpoint, r: Endpoint, c: Code)
    requires Matched(glob, w, r)
    ensures c in Decide(glob, w, r).reasons
       <==> if c.TypeNamesDifferSameType? then w.ddsType != r.ddsType
            else if c.IntraProcess? then OneProcess(w, r)
            else OwnReason(glob, w, r, c) && !(c.DatasharingUnverifiedByTraffic? && OneProcess(w, r))
  {
    SameTypeIff(w, r);
    OneProcessIff(w, r);
    MatchedReasons(glob, w, r, c);
    UnverifiedOnce(glob, w, r);
    NotItsOwn(glob, w, r);
    assert QosIncompatible !in DecideSameType(glob, w, r).warnings by {
      hide DecideSameType, SameType, Compatible, IpDiffers, SplitEvidence, Sharing, BothShm;
    }
    Retold(DecideSameType(glob, w, r).reasons, w.ddsType != r.ddsType, c);
    hide OwnReason, DecideSameType, SameType, Compatible, OneProcess, IntraProcessPair, ReplaceCode, TypesUnmatched, OneIf;
  }

  lemma NotItsOwn(glob: Glob, w: Endpoint, r: Endpoint)
    ensures !OwnReason(glob, w, r, TypeNamesDifferSameType) && !OwnReason(glob, w, r, IntraProcess)
  {
    hide Sharing, BothShm, SharesMemory, OverNetwork, Announces;
  }

  lemma IncompatibleReasonIff(glob: Glob, w: Endpoint, r: Endpoint, c: Code)
    requires SameType(w, r) && !Compatible(glob, w.qos, r.qos)
    ensures c in Decide(glob, w, r).reasons
       <==> (c.TypeNamesDifferSameType? && w.ddsType != r.ddsType)
            || (c.QosIncompatiblePolicy? && Refused(glob, w.qos, r.qos, c.policy))
  {
    SameTypeIff(w, r);
    CompatibleIff(glob, w, r);
    var v := DecideSameType(glob, w, r);
    assert v.warnings == [QosIncompatible];
    var policies := QosIncompatibilities(glob, w, r);
    if c.QosIncompatiblePolicy? && c.policy in policies {
      var i :| 0 <= i < |policies| && policies[i] == c.policy;
      assert v.reasons[i] == c;
    }
    hide DecideSameType, SameType, Compatible, IntraProcessPair, ReplaceCode, TypesUnmatched, Refused, QosIncompatibilities;
  }

  /** The reasons of decide(), each over the fields of the endpoints. */
  lemma ReasonIff(glob: Glob, w: Endpoint, r: Endpoint, c: Code)
    ensures c in Decide(glob, w, r).reasons <==> Reason(glob, w, r, c)
  {
    SameTypeIff(w, r);
    if Matched(glob, w, r) {
      MatchedReasonIff(glob, w, r, c);
    } else if SameType(w, r) {
      IncompatibleReasonIff(glob, w, r, c);
    }
    hide OwnReason, DecideSameType, SameType, Compatible, OneProcess, IntraProcessPair, ReplaceCode, TypesUnmatched, Refused;
  }

  lemma SameTypeWarnings(glob: Glob, w: Endpoint, r: Endpoint, c: Code)
    requires SameType(w, r)
    ensures c in DecideSameType(glob, w, r).warnings <==> !c.TypeHashMismatch? && Warning(glob, w, r, c)
  {
    CompatibleIff(glob, w, r);
    if Matched(glob, w, r) {
      MatchedReasons(glob, w, r, c);
      hide OwnReason, SameType, Compatible, SplitEvidence, DecideSameType, Sharing, BothShm;
      SplitNeedsShm(w, r);
    } else {
      assert DecideSameType(glob, w, r).warnings == [QosIncompatible];
      hide SameType, Compatible, SplitEvidence, DecideSameType, Sharing, BothShm;
    }
  }

  lemma SplitNeedsShm(w: Endpoint, r: Endpoint)
    ensures SplitEvidence(w, r) ==> Sharing(w.qos, r.qos) || BothShm(w, r)
  {
    SharingIff(w, r);
    AnnouncesIff(w, SHM);
    AnnouncesIff(r, SHM);
    hide HasKind, DatasharingPair, Sharing, Announces;
  }

  /** The warnings of decide(), each over the fields of the endpoints. */
  lemma WarningIff(glob: Glob, w: Endpoint, r: Endpoint, c: Code)
    ensures c in Decide(glob, w, r).warnings <==> Warning(glob, w, r, c)
  {
    SameTypeIff(w, r);
    if SameType(w, r) {
      SameTypeWarnings(glob, w, r, c);
    }
    hide SameType, DecideSameType, Compatible, IntraProcessPair, ReplaceCode, TypesUnmatched, SplitEvidence, IpDiffers;
  }

  /** Evidence of a split is a reason for one. */
  lemma SplitHasReason(w: Endpoint, r: Endpoint)
    ensures Sharing(w.qos, r.qos) || BothShm(w, r) ==> (SplitEvidence(w, r) <==> exists c :: SplitReason(w, r, c))
  {
    SharingIff(w, r);
    AnnouncesIff(w, SHM);
    AnnouncesIff(r, SHM);
    hide HasKind, DatasharingPair, Sharing, Announces, ShmPorts;
    if SplitEvidence(w, r) {
      if BothShm(w, r) && ShmPorts(w) * ShmPorts(r) != {} {
        var n :| n in ShmPorts(w) * ShmPorts(r);
        assert SplitReason(w, r, ShmPortCollision);
      } else if BothShm(w, r) && OneSided(w.participantShmVisibility, r.participantShmVisibility) {
        assert SplitReason(w, r, ShmReaderPortNotVisible) || SplitReason(w, r, ShmWriterPortNotVisible);
      } else {
        assert SplitReason(w, r, DatasharingReaderSegmentNotVisible) || SplitReason(w, r, DatasharingWriterSegmentNotVisible);
      }
    }
    if c :| SplitReason(w, r, c) {
      if c.ShmPortCollision? {
        var n :| n in ShmPorts(w) && n in ShmPorts(r);
        assert n in ShmPorts(w) * ShmPorts(r);
      }
    }
  }

  /** The split is warned of exactly when the reasons say what shows it. */
  lemma SplitIsExplained(glob: Glob, w: Endpoint, r: Endpoint)
    ensures ShmIpcNamespaceSplit in Decide(glob, w, r).warnings
       <==> exists c :: c in Decide(glob, w, r).reasons && SplitReason(w, r, c)
  {
    WarningIff(glob, w, r, ShmIpcNamespaceSplit);
    SplitHasReason(w, r);
    SplitNeedsShm(w, r);
    hide Decide, Compatible, SameType, Sharing, BothShm, SplitEvidence;
    if c :| c in Decide(glob, w, r).reasons && SplitReason(w, r, c) {
      ReasonIff(glob, w, r, c);
      SplitReasonKinds(w, r, c);
      hide SplitReason;
    }
    if Warning(glob, w, r, ShmIpcNamespaceSplit) {
      var c :| SplitReason(w, r, c);
      SplitReasonKinds(w, r, c);
      ReasonIff(glob, w, r, c);
    }
  }
}
