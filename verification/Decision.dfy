/** The transport prediction for one pair (decision.cpp). */
module Decision {
  import opened Model

  /** `fnmatch(pattern, name)`: library behaviour, a parameter of the model. */
  type Glob = (string, string) -> bool

  predicate HasKind(e: Endpoint, kind: LocatorKind) {
    exists l :: l in e.unicast + e.multicast && l.kind == kind
  }

  /** The first locator of `kind` in announced order. */
  function FirstOfKind(ls: seq<Locator>, kind: LocatorKind): Option<Locator> {
    if ls == [] then None
    else if ls[0].kind == kind then Some(ls[0])
    else FirstOfKind(ls[1..], kind)
  }

  predicate IsNetwork(kind: LocatorKind) {
    kind.UDPv4? || kind.UDPv6? || kind.TCPv4? || kind.TCPv6?
  }

  function IpAddresses(e: Endpoint): set<string> {
    set l | l in e.unicast && IsNetwork(l.kind) :: l.address
  }

  function TransportFor(kind: LocatorKind): Transport {
    match kind
    case UDPv4 => ViaUDPv4
    case UDPv6 => ViaUDPv6
    case TCPv4 => ViaTCPv4
    case TCPv6 => ViaTCPv6
    case SHM => ViaSHM
    case Invalid => NoTransport
  }

  /** Of the network locators `ls`, the earliest of a kind the writer has too. */
  function FirstReachable(writer: Endpoint, ls: seq<Locator>): Option<Locator> {
    if ls == [] then None
    else if IsNetwork(ls[0].kind) && HasKind(writer, ls[0].kind) then Some(ls[0])
    else FirstReachable(writer, ls[1..])
  }

  function DurabilityRank(d: string): int {
    if d == "VOLATILE" then 0
    else if d == "TRANSIENT_LOCAL" then 1
    else if d == "TRANSIENT" then 2
    else if d == "PERSISTENT" then 3
    else -1
  }

  function LivelinessRank(l: string): int {
    if l == "AUTOMATIC" then 0
    else if l == "MANUAL_BY_PARTICIPANT" then 1
    else if l == "MANUAL_BY_TOPIC" then 2
    else -1
  }

  /** No partition is the one without a name. */
  function PartitionNames(ps: seq<string>): seq<string> {
    if ps == [] then [""] else ps
  }

  predicate PartitionsMatch(glob: Glob, w: seq<string>, r: seq<string>) {
    exists a, b :: a in PartitionNames(w) && b in PartitionNames(r) && (a == b || glob(a, b) || glob(b, a))
  }

  function QosIncompatibilities(glob: Glob, writer: Endpoint, reader: Endpoint): seq<string> {
    var w, r := writer.qos, reader.qos;
    var below := (x: int, y: int) => x >= 0 && y >= 0 && x < y;
    (if w.reliability == "BEST_EFFORT" && r.reliability == "RELIABLE" then ["reliability"] else [])
    + (if below(DurabilityRank(w.durability), DurabilityRank(r.durability)) then ["durability"] else [])
    + (if w.deadline.Exceeds(r.deadline) then ["deadline"] else [])
    + (if below(LivelinessRank(w.liveliness), LivelinessRank(r.liveliness))
        || w.livelinessLease.Exceeds(r.livelinessLease) then ["liveliness"] else [])
    + (if w.ownership != r.ownership then ["ownership"] else [])
    + (if !PartitionsMatch(glob, w.partitions, r.partitions) then ["partition"] else [])
  }

  /** The SHM unicast ports among `ls`. */
  function ShmPortsOf(ls: seq<Locator>): set<nat> {
    set l | l in ls && l.kind == SHM :: l.port
  }

  function ShmPorts(e: Endpoint): set<nat> {
    e.participantShmPorts + ShmPortsOf(e.unicast)
  }

  function IpcSplitReasons(writer: Endpoint, reader: Endpoint): seq<Code> {
    if writer.participant == reader.participant then []
    else
      (if ShmPorts(writer) * ShmPorts(reader) != {} then [ShmPortCollision] else [])
      + NotVisibleReason(writer.participantShmVisibility, reader.participantShmVisibility,
                         ShmReaderPortNotVisible, ShmWriterPortNotVisible)
  }

  function DatasharingSplitReasons(writer: Endpoint, reader: Endpoint): seq<Code> {
    if writer.participant == reader.participant then []
    else NotVisibleReason(writer.segmentVisibility, reader.segmentVisibility,
                          DatasharingReaderSegmentNotVisible, DatasharingWriterSegmentNotVisible)
  }

  function NotVisibleReason(w: ShmVisibility, r: ShmVisibility, readerHidden: Code, writerHidden: Code): seq<Code> {
    if w.Visible? && r.NotVisible? then [readerHidden]
    else if w.NotVisible? && r.Visible? then [writerHidden]
    else []
  }

  function Split(reasons: seq<Code>, warnings: seq<Code>): Verdict {
    Verdict(NoTransport, Certain, NO_LOCATOR, false, reasons, warnings + [ShmIpcNamespaceSplit])
  }

  predicate DatasharingAnnounced(e: Endpoint) {
    e.qos.dataSharing.On? || e.qos.dataSharing.Auto?
  }

  predicate DomainsDisagree(writer: Endpoint, reader: Endpoint) {
    var a, b := writer.qos.dataSharingDomains, reader.qos.dataSharingDomains;
    a != [] && b != [] && forall x :: x in a ==> x !in b
  }

  /** Both endpoints would be delivered by data-sharing. */
  predicate DatasharingPair(writer: Endpoint, reader: Endpoint) {
    DatasharingAnnounced(writer) && DatasharingAnnounced(reader) && !DomainsDisagree(writer, reader)
  }

  /** Why data-sharing does or does not apply to a same-host pair. */
  function DatasharingReasons(writer: Endpoint, reader: Endpoint): seq<Code> {
    var wd, rd := writer.qos.dataSharing, reader.qos.dataSharing;
    if wd.Off? then [DatasharingDisabledWriter]
    else if rd.Off? then [DatasharingDisabledReader]
    else if wd.UnknownSharing? || rd.UnknownSharing? then [DatasharingQosUnknown]
    else if DomainsDisagree(writer, reader) then [DatasharingDomainIdsMismatch]
    else [DatasharingQosEnabledBoth,
          if writer.qos.dataSharingDomains != [] && reader.qos.dataSharingDomains != []
          then DatasharingDomainIdsMatch else DatasharingDomainIdsUnknown]
  }

  /** A same-host pair whose data-sharing QoS agree. */
  function DecideDatasharing(writer: Endpoint, reader: Endpoint, reasons: seq<Code>, warnings: seq<Code>): Verdict {
    var bothShm := HasKind(writer, SHM) && HasKind(reader, SHM);
    var split := (if bothShm then IpcSplitReasons(writer, reader) else []) + DatasharingSplitReasons(writer, reader);
    if split != [] then
      Split(reasons + (if bothShm then [BothShmLocators] else []) + split, warnings)
    else
      Verdict(DataSharing, Likely, NO_LOCATOR, false, reasons + [DatasharingUnverifiedByTraffic], warnings)
  }

  /** A same-host pair in which both sides announce a SHM locator and data-sharing does not apply. */
  function DecideShm(writer: Endpoint, reader: Endpoint, reasons: seq<Code>, warnings: seq<Code>): Verdict {
    var split := IpcSplitReasons(writer, reader);
    if split != [] then Split(reasons + split, warnings)
    else
      var l := FirstOfKind(reader.unicast + reader.multicast, SHM);
      Verdict(ViaSHM, Certain, if l.Some? then l.value else NO_LOCATOR, false, reasons, warnings)
  }

  function DecideNetwork(writer: Endpoint, reader: Endpoint, reasons: seq<Code>, warnings: seq<Code>): Verdict {
    var unicast, multicast := FirstReachable(writer, reader.unicast), FirstReachable(writer, reader.multicast);
    var hidden := writer.hostId == reader.hostId
      && (writer.sameHostLocatorsFiltered || reader.sameHostLocatorsFiltered)
      && HasKind(writer, SHM) != HasKind(reader, SHM);
    if unicast.Some? || multicast.Some? then
      var l := if unicast.Some? then unicast.value else multicast.value;
      Verdict(TransportFor(l.kind), Certain, l, unicast.None?, reasons + [CommonLocator(l.kind)], warnings)
    else if hidden then
      Verdict(ViaUDPv4, Likely, NO_LOCATOR, false, reasons + [SameHostLocatorsHidden], warnings)
    else
      Verdict(NoTransport, Certain, NO_LOCATOR, false, reasons + [NoCommonTransport], warnings)
  }

  /** decide() without its look at the types. */
  function DecideSameType(glob: Glob, writer: Endpoint, reader: Endpoint): Verdict {
    var incompatible := QosIncompatibilities(glob, writer, reader);
    var wShm, rShm := HasKind(writer, SHM), HasKind(reader, SHM);
    if incompatible != [] then
      Verdict(NoTransport, Certain, NO_LOCATOR, false,
              seq(|incompatible|, i requires 0 <= i < |incompatible| => QosIncompatiblePolicy(incompatible[i])),
              [QosIncompatible])
    else if writer.hostId != reader.hostId then
      DecideNetwork(writer, reader,
                    [DifferentHost] + (if wShm && rShm then [ShmLocatorsIgnoredAcrossHosts] else []), [])
    else
      var wip, rip := IpAddresses(writer), IpAddresses(reader);
      var warnings := if wip != {} && rip != {} && wip * rip == {} then [HostIdMatchButIpDiffers] else [];
      var reasons := [SameHostGuid] + DatasharingReasons(writer, reader);
      if DatasharingPair(writer, reader) then DecideDatasharing(writer, reader, reasons, warnings)
      else if wShm && rShm then DecideShm(writer, reader, reasons + [BothShmLocators], warnings)
      else
        DecideNetwork(writer, reader,
                      reasons + (if wShm then [] else [WriterNoShmLocator])
                      + (if rShm then [] else [ReaderNoShmLocator]), warnings)
  }

  predicate IntraProcessPair(writer: Endpoint, reader: Endpoint) {
    writer.guidBytes[..2] == [0x01, 0x0f] && writer.guidBytes[..8] == reader.guidBytes[..8]
  }

  datatype TypeMatch = UnknownMatch | Same | Different

  function TypeInformationMatch(writer: Endpoint, reader: Endpoint): TypeMatch {
    var announced := (e: Endpoint) => e.typeInformationHash != "" || e.typeInformationMinimalHash != "";
    var equal := (a: string, b: string) => a != "" && a == b;
    if !announced(writer) || !announced(reader) then UnknownMatch
    else if equal(writer.typeInformationHash, reader.typeInformationHash)
      || equal(writer.typeInformationMinimalHash, reader.typeInformationMinimalHash) then Same
    else Different
  }

  /** Fast DDS never matches the two: on TypeInformation when both announce it, else on the names. */
  predicate TypesUnmatched(writer: Endpoint, reader: Endpoint) {
    var m := TypeInformationMatch(writer, reader);
    m.Different? || (m.UnknownMatch? && writer.ddsType != reader.ddsType)
  }

  /** Replace the first `from` by `to`, or append `to`. */
  function ReplaceCode(codes: seq<Code>, from: Code, to: Code): seq<Code> {
    if codes == [] then [to]
    else if codes[0] == from then [to] + codes[1..]
    else [codes[0]] + ReplaceCode(codes[1..], from, to)
  }

  function Decide(glob: Glob, writer: Endpoint, reader: Endpoint): Verdict {
    var namesDiffer := writer.ddsType != reader.ddsType;
    var hashes := if !namesDiffer && writer.typeHash != "" && reader.typeHash != "" && writer.typeHash != reader.typeHash
                  then [TypeHashMismatch] else [];
    if TypesUnmatched(writer, reader) then
      Verdict(NoTransport, Certain, NO_LOCATOR, false,
              [if namesDiffer then TypeNameMismatch else TypeInformationMismatch], hashes)
    else
      var v := DecideSameType(glob, writer, reader);
      var named := if namesDiffer then v.reasons + [TypeNamesDifferSameType] else v.reasons;
      var reasons := if IntraProcessPair(writer, reader) && QosIncompatible !in v.warnings
                     then ReplaceCode(named, DatasharingUnverifiedByTraffic, IntraProcess) else named;
      v.(reasons := reasons, warnings := v.warnings + hashes)
  }

  // ---- when a pair is reported as split

  /** What each side of a pair shows about its IPC namespace. */
  ghost predicate SplitEvidence(writer: Endpoint, reader: Endpoint) {
    writer.participant != reader.participant
    && ((HasKind(writer, SHM) && HasKind(reader, SHM)
         && (ShmPorts(writer) * ShmPorts(reader) != {}
             || OneSided(writer.participantShmVisibility, reader.participantShmVisibility)))
        || (DatasharingPair(writer, reader) && OneSided(writer.segmentVisibility, reader.segmentVisibility)))
  }

  ghost predicate OneSided(a: ShmVisibility, b: ShmVisibility) {
    (a.Visible? && b.NotVisible?) || (a.NotVisible? && b.Visible?)
  }

  /** A pair is reported as split exactly when Fast DDS matches it on one host and there is evidence for it. */
  lemma SplitReportedIff(glob: Glob, w: Endpoint, r: Endpoint)
    ensures ShmIpcNamespaceSplit in Decide(glob, w, r).warnings
       <==> (!TypesUnmatched(w, r) && QosIncompatibilities(glob, w, r) == [] && w.hostId == r.hostId
             && SplitEvidence(w, r))
    ensures ShmIpcNamespaceSplit in Decide(glob, w, r).warnings ==> Decide(glob, w, r).transport == NoTransport
  {
    SameTypeSplitIff(glob, w, r);
    hide DecideSameType, QosIncompatibilities, SplitEvidence, TypesUnmatched, IntraProcessPair, ReplaceCode;
  }

  lemma SameTypeSplitIff(glob: Glob, w: Endpoint, r: Endpoint)
    ensures var v := DecideSameType(glob, w, r);
            (ShmIpcNamespaceSplit in v.warnings
             <==> QosIncompatibilities(glob, w, r) == [] && w.hostId == r.hostId && SplitEvidence(w, r))
            && (ShmIpcNamespaceSplit in v.warnings ==> v.transport == NoTransport)
  {
    hide QosIncompatibilities, IpAddresses, FirstReachable, FirstOfKind;
  }
}
