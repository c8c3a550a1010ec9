/** The data discovery delivers and the verdict about a writer/reader pair (model.hpp). */
module Model {
  import opened Text

  datatype Option<+T> = None | Some(value: T)

  type Guid = g: seq<Byte> | |g| == 16 witness seq(16, _ => 0)
  type HostId = h: seq<Byte> | |h| == 4 witness [0, 0, 0, 0]

  datatype LocatorKind = Invalid | UDPv4 | UDPv6 | TCPv4 | TCPv6 | SHM

  datatype Locator = Locator(kind: LocatorKind, address: string, port: nat)

  const NO_LOCATOR := Locator(Invalid, "", 0)

  datatype DataSharingKind = UnknownSharing | Off | On | Auto

  /** A duration; Infinite is "no limit". */
  datatype Duration = Infinite | Seconds(s: real) {
    predicate Exceeds(other: Duration) {
      !other.Infinite? && (Infinite? || s > other.s)
    }
  }

  datatype Qos = Qos(
    reliability: string, durability: string,
    dataSharing: DataSharingKind, dataSharingDomains: seq<nat>,
    deadline: Duration, liveliness: string, livelinessLease: Duration,
    ownership: string, partitions: seq<string>)

  datatype ShmVisibility = Unprobed | Visible | NotVisible

  datatype Endpoint = Endpoint(
    isWriter: bool, guid: string, guidBytes: Guid, hostId: HostId, participant: string,
    ddsTopic: string, ddsType: string, typeHash: string,
    typeInformationHash: string, typeInformationMinimalHash: string, nodeName: string,
    unicast: seq<Locator>, multicast: seq<Locator>, qos: Qos,
    sameHostLocatorsFiltered: bool,
    datasharingHistory: Option<nat>,
    participantShmPorts: set<nat>, participantShmVisibility: ShmVisibility,
    segmentVisibility: ShmVisibility,
    bufferParent: string, bufferCompanions: seq<string>)

  /** An endpoint as constructed, before anything is put into it. */
  const BLANK_ENDPOINT := Endpoint(
    false, "", [0, 0, 0, 0, 0, 0, 0, 0, 0, 0, 0, 0, 0, 0, 0, 0], [0, 0, 0, 0], "", "", "", "", "", "", "", [], [],
    Qos("", "", UnknownSharing, [], Infinite, "", Infinite, "", []),
    false, None, {}, Unprobed, Unprobed, "", [])

  datatype Transport = ViaUDPv4 | ViaUDPv6 | ViaTCPv4 | ViaTCPv6 | ViaSHM | DataSharing | NoTransport

  datatype Confidence = Certain | Likely

  /** The machine-readable reason and warning codes decide() and summarize() emit. */
  datatype Code =
    | QosIncompatiblePolicy(policy: string) | QosIncompatible
    | TypeNameMismatch | TypeInformationMismatch | TypeHashMismatch | TypeNamesDifferSameType
    | SameHostGuid | DifferentHost | HostIdMatchButIpDiffers
    | DatasharingDisabledWriter | DatasharingDisabledReader | DatasharingQosUnknown
    | DatasharingDomainIdsMismatch | DatasharingDomainIdsMatch | DatasharingDomainIdsUnknown
    | DatasharingQosEnabledBoth | DatasharingUnverifiedByTraffic | IntraProcess
    | BothShmLocators | WriterNoShmLocator | ReaderNoShmLocator | ShmLocatorsIgnoredAcrossHosts
    | ShmIpcNamespaceSplit | ShmPortCollision | ShmReaderPortNotVisible | ShmWriterPortNotVisible
    | DatasharingReaderSegmentNotVisible | DatasharingWriterSegmentNotVisible
    | CommonLocator(kind: LocatorKind) | SameHostLocatorsHidden | NoCommonTransport
    | NoMatchingWriter | NoMatchingReader
    | BufferCompanionFolded | BufferCompanion | BufferCompanionUnmatched
    | OtherCode(text: string)

  datatype Verdict = Verdict(
    transport: Transport, confidence: Confidence, locator: Locator, locatorMulticast: bool,
    reasons: seq<Code>, warnings: seq<Code>)

  /** The pair a `changes` object or a TTL map names; two keys are one pair when their Ident agrees. */
  datatype PairKey = PairKey(topic: string, writerGuid: string, readerGuid: string, writerNode: string, readerNode: string) {
    function Id(): Ident {
      Ident(topic, writerGuid, readerGuid)
    }
  }

  datatype Ident = Ident(topic: string, writer: string, reader: string)

  /** How the pairs of two snapshots are matched. */
  datatype KeyMode = ByGuid | ByNode
}
