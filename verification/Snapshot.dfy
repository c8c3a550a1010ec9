/** A snapshot: the topics with their endpoints and pairs, and the part of a pair a comparison looks at (model.hpp). */
module Snapshot {
  import opened Model

  datatype MeasuredLocator = MeasuredLocator(locator: Locator, packets: nat, bytes: real)

  datatype Measurement = Measurement(
    available: bool, transports: seq<Transport>, locators: seq<MeasuredLocator>, packets: nat, bytes: real,
    delivered: bool)

  const UNMEASURED := Measurement(false, [], [], 0, 0.0, false)

  datatype Pair = Pair(writer: Endpoint, reader: Endpoint, verdict: Verdict, measured: Measurement)

  datatype TopicKind = PlainTopic | Service | Action | OtherTopic

  datatype GroupDirection = NoDirection | ToServer | ToClient

  datatype TopicSummary = TopicSummary(
    ddsTopic: string, displayTopic: string, displayType: string,
    kind: TopicKind, group: string, direction: GroupDirection,
    writers: seq<Endpoint>, readers: seq<Endpoint>, pairs: seq<Pair>, unmatchedReasons: seq<Code>)

  /** What two snapshots are compared by, pair by pair. */
  datatype PairState = PairState(
    transport: Transport, confidence: Confidence, measured: seq<Transport>, locator: Locator,
    measuredLocators: seq<Locator>, warnings: seq<Code>)

  function KeyOf(t: TopicSummary, p: Pair): PairKey {
    PairKey(t.displayTopic, p.writer.guid, p.reader.guid, p.writer.nodeName, p.reader.nodeName)
  }

  function LocatorsOf(ms: seq<MeasuredLocator>): (ls: seq<Locator>)
    ensures |ls| == |ms|
  {
    seq(|ms|, i requires 0 <= i < |ms| => ms[i].locator)
  }

  function StateOf(p: Pair): PairState {
    PairState(p.verdict.transport, p.verdict.confidence, p.measured.transports, p.verdict.locator,
              LocatorsOf(p.measured.locators), p.verdict.warnings)
  }

  /** Every pair joins a listed writer and a listed reader of its topic. */
  ghost predicate PairsListed(topics: seq<TopicSummary>) {
    forall t, p :: t in topics && p in t.pairs ==> p.writer in t.writers && p.reader in t.readers
  }
}
