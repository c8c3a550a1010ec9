# Transport model

A Dafny model of the deterministic engines of the Fast DDS transport viewer: the command-line
tool `transport_viz` (C++), its web viewer (JavaScript) and the live server (Python). Discovery,
rendering and page code are not modelled; what they deliver are inputs.

Every algorithm that updates state keeps that form here: a class with the source's fields, or a
method with the source's loop, proved against a function on values. The theorems are about those
functions, over all inputs and all runs.

| file | what it models |
|---|---|
| `Text`, `Ranks` | number and hexadecimal texts, byte order of strings, place in a sorted list |
| `Model`, `Snapshot`, `Documents` | endpoints, verdicts, topics and pairs; the viewer's documents and identities |
| `Decision`, `DecisionLaws` | the verdict for a pair, and when each part of it is given |
| `ShmScan`, `Collect`, `IpcSplit`, `IpcCompleteness` | the scan of `/dev/shm`, the port bookkeeping, and soundness and completeness of the namespace inference |
| `Recording`, `RecordedValues`, `RecordingStore`, `FrameValues` | per-frame values of a recording, read back from the documents, the growable arrays that hold them, losses and latencies of single frames |
| `HistoryBound`, `LiveHistory`, `LiveScreen`, `LiveViewer` | the bounded live history as a protocol of atomic steps between awaits, what it shows, and the objects that run it |
| `OrderedPairs`, `SnapshotDiff`, `DiffLaws`, `ChangedPairs` | comparing snapshots by GUID or by node |
| `DocumentDiff`, `KeyTexts`, `DocumentAgreement` | the viewer's comparison, when key texts tell pairs apart, and that both comparisons agree |
| `WatchState`, `WatchHistory`, `WatchGhosts`, `WatchEvents`, `HeldChanges` | highlighting of `--watch` over whole runs, and the viewer's hold |
| `RateWindow`, `RateObserver` | the sliding rate window and the sequence gaps |
| `MeasurablePairs` | counting pairs by process groups |
| `LineSplitter`, `StreamNumbering` | chunked line splitting; the numbered stream and its connections |
| `BufferCompanions`, `CompanionForest` | companion endpoints and their parents |
| `Summaries`, `SummaryLaws`, `DisplayRows` | topics and pairs, the node filter, the rows of the table |
| `Csv`, `VisibleText` | the CSV output and its reader; cutting a line to the terminal width |
| `GuidText`, `SavedDocuments`, `SavedRoundTrip` | GUID texts, writing and reading back a document |

Assumptions a reader should know. `IpcSplit` reasons about any world in which a participant
listens on the unicast SHM ports it announces, one participant per port and namespace; a held lock
belongs to a listener of the tool's namespace and every listener there has a lock file; a held
proof port is announced by its holder with the tool's host id; a data-sharing endpoint has its
segment in its own namespace. A free or unreadable lock means nothing. `RateObserver` assumes
source seconds do not go back within a pair. Identity theorems assume distinct GUIDs on a topic.

Where the code differs from what is written about it, the model follows the code:

- A pair whose transport the viewer does not know disappears at the first compaction of a
  recording (`Recording.UnknownTransportIsLost`); `Recording.DroppedFromScratch` says exactly when.
  The run theorems of the live history are therefore about documents with known transports.
- Under the node key a pair whose node lists no endpoint makes the viewer throw (`web/model.js:558`), in
  the live history after the frame was kept, so that the recording lacks it (`Recording.UnlistedNodeThrows`,
  `LiveHistory.UnlistedFrameIsLost`). `Documents.ForEachIdent` says exactly when; the run theorems are about
  documents that can be added under the key in use.
- A resume read overtaken by a pause and a new frame puts the wrong index under the screen
  (`LiveHistory.MislabelIsReachable`); `LiveHistory.LabelKeptIff` says it is the only way.
- `showFrame` says the newest request wins (`web/app.js:832`). A request for the frame already shown
  does not withdraw the wanted read of another (`LiveHistory.OlderRequestWins`);
  `LiveHistory.NewestRequestWinsIff` says it wins in all other cases, and in no more.
- `decision.hpp:91` promises each service or action endpoint one row; pairs have one, but an
  endpoint with partners in two participants is in two (`DisplayRows.ClientOfTwoServers`);
  `DisplayRows.EndpointInOneRowIff` says exactly when it is in one.
- Two pairs can share a key text when names contain `|` (`KeyTexts.KeyIdCollision`);
  `KeyTexts.KeyIdUniqueIff` and `KeyTexts.NodeKeyUniqueIff` say exactly when not, and keys by GUIDs never do.
- Under the node key a node that calls its own service has one entry for its request and its reply
  (`DiffLaws.SelfCallHidesAPair`); `DiffLaws.OneEntryAPairIff` says exactly when no pair hides another.
- A restarted server is not always noticed (`StreamNumbering.UnseenRestart`);
  `StreamNumbering.RestartNoticed` says exactly when it is.

## Model

| member | source | states |
|---|---|---|
| IpcSplit.SplitIsSound | src/fastdds_transport_viz/src/decision.cpp:434-480 | In every world in which unicast SHM ports are listened on by their announcers alone per namespace, held locks are listeners', held proof ports are announced and segments are local, a pair for which `decide` warns `shm-ipc-namespace-split` lives in two IPC namespaces |
| Decision.SplitReportedIff | src/fastdds_transport_viz/src/decision.cpp:202-246 | `decide` warns of a split if and only if the types match, the QoS are compatible, the host is one, the participants differ and there is one-sided or colliding evidence; and the transport is then NONE |
| Decision.SameTypeSplitIff | src/fastdds_transport_viz/src/decision.cpp:315-348 | The same equivalence for two endpoints already known to carry one type, whatever the data-sharing branch |
| IpcSplit.EvidenceIsSound | src/fastdds_transport_viz/src/decision.cpp:202-225 | A port announced by both sides, or one side visible and the other not, excludes a common namespace |
| IpcSplit.VisibilityIsSound | src/fastdds_transport_viz/src/shm_info.cpp:222-250 | Visible means the tool's own namespace, NotVisible another one, for every participant with booked ports |
| IpcSplit.NotVisibleIsSound | src/fastdds_transport_viz/src/shm_info.cpp:234-240 | One missing port that is not undecided puts its announcer elsewhere |
| IpcSplit.VisibleIsSound | src/fastdds_transport_viz/src/shm_info.cpp:241-247 | One held proof port announced by one participant alone puts that participant here |
| IpcSplit.SegmentVisibilityIsSound | src/fastdds_transport_viz/src/main.cpp:705-722 | The data-sharing segment visibility of a kept endpoint locates its participant in the same sense |
| IpcSplit.SegmentFound | src/fastdds_transport_viz/src/main.cpp:693-710 | The scan attributes a segment to a kept endpoint exactly when a regular file of that endpoint's segment name is listed |
| IpcSplit.OwnAnnouncersDoNotMatter | src/fastdds_transport_viz/src/main.cpp:731-739 | Counting announcers over the nodes only or over every local participant decides the same visibility |
| IpcCompleteness.VisibilityIff | src/fastdds_transport_viz/src/shm_info.cpp:222-250 | A participant comes out Visible if and only if all its ports are locked and none is the tool's, and one of those that prove something no other node participant announces; NotVisible if and only if one of its ports is the tool's or has no port file that tells of a process |
| IpcCompleteness.SegmentIff | src/fastdds_transport_viz/src/main.cpp:705-722 | A kept endpoint's segment is Visible or NotVisible exactly when the directory was listed, the endpoint is on the tool's host and has data-sharing not off, by whether a file of its segment name is listed |
| IpcCompleteness.SplitIff | src/fastdds_transport_viz/src/decision.cpp:434-480 | The split warning of two probed endpoints is given if and only if they match on one host and the announcements and the listing tell them apart |
| IpcCompleteness.SplitIsComplete | src/fastdds_transport_viz/src/decision.cpp:202-246 | The converse of soundness: in a world that behaves, of two matched endpoints with SHM, one of a participant in the tool's namespace that announces a proof port alone, the other of one elsewhere with a port that nobody here listens to and no dead process left a lock on, the split is reported |
| IpcCompleteness.PortLockIff | src/fastdds_transport_viz/src/shm_info.cpp:186-204 | Each of the five lock states of a node port by the lock of its last listed port file, own ports apart |
| IpcCompleteness.NodesVisibleIff | src/fastdds_transport_viz/src/shm_info.cpp:205-206 | The nodes are visible if and only if every announced node port is locked and not the tool's, and no participant is on another host |
| IpcCompleteness.AnnouncedIff | src/fastdds_transport_viz/src/main.cpp:626-664 | Which announcements count, over the endpoints' fields: the nodes' on the tool's host, for a proof without those of readers of `ros_discovery_info`, and the tool's own by announcement or lock |
| IpcCompleteness.KeptIff | src/fastdds_transport_viz/src/main.cpp:664-681 | The endpoints probed are those in view that are not the tool's |
| DecisionLaws.PolicyIff | src/fastdds_transport_viz/src/decision.cpp:158-191 | Each of the six policies is refused exactly when the offered value is weaker than the requested one, in the order of the list |
| DecisionLaws.VerdictIs | src/fastdds_transport_viz/src/decision.cpp:258-392 | Transport, confidence, locator and multicast flag of every pair over QoS, hosts and announced locators: data-sharing, the reader's first SHM locator, the first locator of the reader, unicast before multicast, of a network kind the writer has too, UDPv4 behind hidden locators, or nothing |
| DecisionLaws.TransportIff | src/fastdds_transport_viz/src/decision.cpp:258-392 | DATA_SHARING, SHM, NONE and UDPv4 without a locator, each if and only if, and when the confidence is only likely |
| DecisionLaws.ReasonIff | src/fastdds_transport_viz/src/decision.cpp:258-482 | Every reason code is given if and only if what it says holds of the two endpoints |
| DecisionLaws.WarningIff | src/fastdds_transport_viz/src/decision.cpp:258-482 | Every warning code is given if and only if what it warns of holds |
| DecisionLaws.SplitIsExplained | src/fastdds_transport_viz/src/decision.cpp:206-246 | The split is warned of if and only if a reason names what shows it |
| ShmScan.SegmentNameInjective | src/fastdds_transport_viz/src/shm_info.cpp:100-112 | Two GUIDs never share a data-sharing segment name, although the entity id is written without zero padding |
| ShmScan.SegmentSpelled | src/fastdds_transport_viz/src/shm_info.cpp:100-112 | Where each byte of the prefix stands in the segment name, in two digits, with dots and then an underscore; the entity id behind it, unpadded |
| ShmScan.DatasharingSegmentName | src/fastdds_transport_viz/src/shm_info.cpp:100-112 | The buffer filled step by step is the segment name |
| ShmScan.SegmentRecognised | src/fastdds_transport_viz/src/shm_info.cpp:138-164 | A regular file named like an endpoint's segment is classified as data-sharing, never as a port, a segment or a lock |
| ShmScan.PortFileRecognised | src/fastdds_transport_viz/src/shm_info.cpp:138-159 | Either spelling of a port file is read back as exactly that number's text |
| ShmScan.PortFileNames | src/fastdds_transport_viz/src/shm_info.cpp:138-159 | No other file name is taken for that port |
| ShmScan.ReadDirectory | src/fastdds_transport_viz/src/shm_info.cpp:138-180 | After the listing the held, undecided and last-seen lock states of every number text, and the segments of every endpoint, are those of the entries read |
| ShmScan.ScanShm | src/fastdds_transport_viz/src/shm_info.cpp:114-220 | Checked, missing and unknown ports in ascending order, lock states, overall visibility and attributed segments, each by an if-and-only-if over the listing; an unlisted directory gives the empty result |
| ShmScan.CheckPorts | src/fastdds_transport_viz/src/shm_info.cpp:186-204 | Which node ports are checked, missing and undecided, each once and in ascending order, and in which lock state each is |
| ShmScan.ParticipantShmVisibility | src/fastdds_transport_viz/src/shm_info.cpp:222-250 | The flag loop with its early return gives the order-free verdict over the whole port set |
| Collect.BookPorts | src/fastdds_transport_viz/src/main.cpp:626-664 | Own, node, per-participant, proof and all-participant port sets hold a port exactly when some endpoint of that role announces it |
| Collect.CountAnnouncers | src/fastdds_transport_viz/src/main.cpp:699-704 | The count of every port is the number of participants announcing it, and ports without one are absent |
| Collect.NameSegments | src/fastdds_transport_viz/src/main.cpp:693-696 | The two name maps hold every kept writer's and reader's segment name and nothing else |
| Collect.Gather | src/fastdds_transport_viz/src/main.cpp:626-704 | Bookkeeping, naming, scan and counting of one observation fit together |
| Collect.Probe | src/fastdds_transport_viz/src/main.cpp:705-729 | What the evidence says of one kept endpoint |
| Collect.Observe | src/fastdds_transport_viz/src/main.cpp:680-730 | Every kept endpoint, in discovery order, probed against the evidence of the whole observation |
| Recording.CompactionRefinesScratch | web/replay.js:124-146 | After any interleaving of `addFrame` and `dropFrames` over documents with known transports on which `addFrame` does not throw, the recording equals the one built from scratch from the kept documents |
| Recording.UnlistedNodeThrows | web/model.js:556-560 | A concrete document that is added under the GUID key and thrown at under the node key, since its pair names a node without an endpoint |
| Recording.DroppedFromScratch | web/replay.js:282-301 | Compaction gives the recording of the kept frames if and only if every pair of a kept frame is in some kept frame under a transport the viewer knows |
| Recording.KnownFramesCompact | web/replay.js:282-301 | Frames with known transports compact without loss |
| Recording.UnknownTransportIsLost | web/replay.js:69-71 | A concrete recording whose pair with an unknown transport is lost by the first compaction |
| Recording.AddedToScratch | web/replay.js:123-146 | Appending a frame to the recording of some frames is the recording of all of them |
| RecordedValues.RecordingReads | web/replay.js:123-146 | Read back over the documents: a recording has a series for each pair text listed in some frame; in each frame it holds the transport's place among the seven and the hash of the real key of the last listed pair of that text, and delivered rate, latency mean, samples and lost count of the last one that has each, absent where none has |
| RecordedValues.HashValues | web/replay.js:73-78 | The hash is FNV-1a, by its offset basis and a published value |
| RecordingStore.RecordingStore.constructor | web/replay.js:87-93 | A new store holds the recording of no frames |
| RecordingStore.RecordingStore.AddFrame | web/replay.js:123-146 | On growable arrays: every array stays `capacity` long and reads absent past the last frame, and the recording held becomes the old one with the frame added |
| RecordingStore.RecordingStore.DropFrames | web/replay.js:282-301 | In place: the arrays keep their length, the freed tail reads absent, dead series go, and the recording held is the old one without the oldest frames |
| RecordingStore.RecordingStore.GrowAll | web/replay.js:109-119 | Growing every array changes no value that is read |
| RecordingStore.Series.constructor | web/replay.js:95-107 | A new series reads absent in every slot |
| RecordingStore.Series.Grow | web/replay.js:80-85 | Each array keeps its values and reads absent beyond them |
| RecordingStore.Series.Shift | web/replay.js:293-297 | The copy within each array and the reset of its tail, for the six arrays together |
| RecordingStore.Series.Write | web/replay.js:136-143 | One pair of a frame goes into one slot; what is not measured stays as it was |
| RecordingStore.ShiftArray | web/replay.js:294-297 | The in-place copy and fill of one array |
| Documents.ForEachIdent | web/model.js:548-567 | The calls made are one for every pair in listed order, with its key and its identity under the chosen key; it throws if and only if the key is the node key and a pair names a node that lists no endpoint on its topic |
| FrameValues.FrameLoss | web/replay.js:180-190 | Every entry is the difference of two cumulative counts, the count itself after a restart, or absent |
| FrameValues.FrameLatency | web/replay.js:158-178 | Every entry is the share of the frame in a cumulative mean, the mean itself after a restart, or absent |
| FrameValues.ContinuesIff | web/replay.js:155-156 | In the recording of any frames counters go on from the frame before if and only if that frame's document lists the series with a known transport and a text of topic and GUIDs of the same hash |
| FrameValues.RestartStartsOver | web/replay.js:148-156 | Otherwise the frame shows its own cumulative loss and mean: no value is taken across a restart |
| FrameValues.LossTelescopes | web/replay.js:180-190 | Over a stretch of continuing frames the losses add up to the last cumulative count |
| FrameValues.LatencyTelescopes | web/replay.js:158-178 | Over a stretch the latencies weighted by their new samples add up to last mean times last samples |
| FrameValues.LossNotNegative | web/replay.js:187-187 | No frame loses a negative number of packets, wherever counters restart |
| FrameValues.CompactionKeepsFrameValues | web/replay.js:287-301 | Dropping frames changes the values of no kept frame but the new first one |
| FrameValues.CompactionRestartsTheFirst | web/replay.js:155-156 | ... and that one shows its own cumulative values |
| HistoryBound.DropCount | web/replay.js:265-280 | The loop, which terminates, returns the count the bound is proved about |
| HistoryBound.BatchIff | web/replay.js:272-276 | A batch is a tenth of the frames left, rounded up, at least one and never the newest |
| HistoryBound.DropSuffices | web/replay.js:265-280 | The newest frame stays, and the kept bytes fit unless it is the only one |
| HistoryBound.DropOvershoot | web/replay.js:265-280 | Any smaller sufficient count is less than the last batch of a tenth away |
| HistoryBound.DropCountBound | web/replay.js:265-280 | Both bounds from the first frame on, and nothing goes from a history that fits |
| LiveHistory.LiveRecordingIsExact | web/app.js:585-651 | In every run of frames, completed reads, pauses, resumes, moves, rekeyings and other loads, whenever live and not scanning the recording is the one built from scratch from the kept frames; the bytes are their sum and within the bound, the newest frame apart |
| LiveHistory.KeptAreTheNewestReceived | web/app.js:584-599 | No frame is lost: the kept frames are the newest of all received, whatever was being read when they came |
| LiveHistory.StepSound | web/app.js:585-694 | Every step keeps the invariant: byte sum, at most one wanted scan and one wanted frame read, a wanted scan having read exactly the frames before the one it waits for, recordings aligned with the frames |
| LiveHistory.InitSound | web/app.js:524-533 | The invariant holds of a page before its first frame |
| LiveHistory.ShowsTheFrameNowThere | web/app.js:833-857 | A wanted frame read shows the document of the frame now at its index, even across trims |
| LiveHistory.LabelKeptIff | web/app.js:674-694 | A step leaves the shown index right if and only if it is not a resume read overtaken by frames |
| LiveHistory.ResumeLabel | web/app.js:684-694 | A resume read is labelled right exactly when the recording has not grown since, which holds while following |
| LiveHistory.MislabelIsReachable | web/app.js:667-694 | A concrete run (resume, pause, new frame, read completes) that ends with the wrong index shown |
| LiveHistory.NewestRequestWinsIff | web/app.js:832-857 | In every state of the protocol and for every frame asked for: in all runs of completing reads that follow, in any order, a scan's end among them unless it trims or resumes, the frame is on screen whenever no frame read is wanted any more, if and only if it was not on screen when asked for or no read of another frame was wanted |
| LiveHistory.UnlistedFrameIsLost | web/app.js:584-592 | Under the node key a frame that names an unlisted node is kept, but the recording of a live history that is not being scanned is then not that of the kept frames, whatever the throw leaves in it |
| LiveHistory.OlderRequestWins | web/app.js:832-848 | A concrete run from the empty page (two frames shown, the first asked for, then the second, which is on screen, then the read completes) that ends with the first on screen |
| LiveScreen.ShowsOrReads | web/app.js:608-694 | In every run, whenever live and not scanning, the index is a kept frame and that frame is on screen or being read; while following it is the newest, and no read of another is wanted |
| LiveScreen.ScreenIsRight | web/app.js:608-694 | In every run in which no frame overtakes a resume read, once no frame read is wanted a live page that is not scanning has the received frame at its index on screen, and the newest one while following |
| LiveScreen.PausedArrival | web/app.js:635-651 | A frame that arrives while paused moves nothing unless it trims; a trim moves index and shown frame by the frames dropped, leaves the screen alone, and asks for the oldest frame left when the one at the index is gone |
| LiveScreen.TrimIs | web/app.js:635-651 | So does any trim, at the end of a scan too; while following nothing is asked for |
| LiveScreen.KeptFrameStays | web/app.js:643-650 | A trim that keeps the shown frame leaves its document on screen, the same blob under its new index, and the index on it if it was |
| LiveScreen.FlagsIff | web/app.js:635-694 | Following starts with Resume and stops with Pause or a move on a live page, and with nothing else; the note of a dropped frame is set exactly by a trim of a paused page that drops the frame at the index, and cleared by those three |
| LiveScreen.OutdatesIff | web/app.js:601-615 | A scan under way is outdated by another load, the first frame of a history, and Match by over at least two frames, and by nothing else |
| LiveScreen.MoveStops | web/app.js:976-980 | After a move on a live page nothing follows, in any run without Resume |
| LiveViewer.LiveViewer.constructor | web/app.js:524-533 | The objects start in the initial state of the protocol, which satisfies its invariant |
| LiveViewer.LiveViewer.AppendFrame | web/app.js:584-599 | A received frame takes the objects through the protocol's step and keeps its invariant |
| LiveViewer.LiveViewer.Complete | web/app.js:612-633 | So does the completion of any unfinished read, stale or not |
| LiveViewer.LiveViewer.TrimHistory | web/app.js:635-651 | Dropping the oldest frames moves blobs, bytes, recording and both indices together |
| LiveViewer.LiveViewer.RescanLive | web/app.js:608-633 | A new scan outdates every read under way |
| LiveViewer.LiveViewer.ScanFrom | web/app.js:618-633 | One turn of the scan: the next read, or its end |
| LiveViewer.LiveViewer.StartHistory | web/app.js:601-606 | A history starts over from the frames kept so far |
| LiveViewer.LiveViewer.StopReplay | web/app.js:753-761 | Any other load outdates scans and reads |
| LiveViewer.LiveViewer.ShowFrame | web/app.js:832-848 | The frame is read again unless it is on screen |
| LiveViewer.LiveViewer.ShowNewest | web/app.js:653-665 | The frame drawn is taken for the newest of the recording |
| LiveViewer.LiveViewer.PauseLive | web/app.js:667-672 | Following stops |
| LiveViewer.LiveViewer.ResumeLive | web/app.js:674-694 | Following starts again with a read of the newest frame |
| LiveViewer.LiveViewer.GoTo | web/app.js:976-980 | A move on the timeline pauses and keeps the invariant |
| LiveViewer.LiveViewer.Rekey | web/app.js:1013-1021 | Match by starts a scan under the other key, and keeps the invariant if the kept frames can be added under it |
| LiveViewer.LiveViewer.LoadOther | web/app.js:753-761 | Another load ends the history and keeps the invariant |
| DiffLaws.RestartIsSilent | src/fastdds_transport_viz/src/decision.cpp:1686-1764 | If the after snapshot is the before snapshot with GUIDs renamed so that the order within each node and topic stays, all ends named, ports and the order of every list arbitrary, the node-keyed comparison is empty |
| DiffLaws.RestartInOrderIsSilent | src/fastdds_transport_viz/src/decision.cpp:1686-1764 | So it is with the topics in the same order, even when pairs of different topics share an identity |
| DiffLaws.DiffIsAPartition | src/fastdds_transport_viz/src/decision.cpp:1666-1764 | Every after pair is added, changed or unchanged, every before pair removed, changed or unchanged, and added less removed is the difference of the sizes |
| DiffLaws.DiffListsAreExact | src/fastdds_transport_viz/src/decision.cpp:1749-1762 | Each list holds exactly the pairs it is for; a change carries both states and both keys |
| ChangedPairs.ComparisonIs | src/fastdds_transport_viz/src/decision.cpp:1736-1764 | For any two snapshots and either key, over the pairs' own fields: of the pairs that are one the last listed counts; it is added or removed exactly when the other side lists none, and changed exactly when transport, confidence, measured transports, selected locator, measured locators or warnings differ |
| ChangedPairs.SameStateIff | src/fastdds_transport_viz/src/decision.cpp:1641-1653 | What a comparison looks at, field by field; under the node key without the ports |
| DiffLaws.OneEntryAPair | src/fastdds_transport_viz/src/decision.cpp:1691-1717 | When every pair has its own identity the keyed map holds exactly the entries of the snapshot's pairs, one each |
| DiffLaws.OneEntryAPairIff | src/fastdds_transport_viz/src/decision.cpp:1691-1717 | The keyed map has as many entries as there are pairs if and only if no two topics have pairs of one identity |
| DiffLaws.SharedIdentityIff | src/fastdds_transport_viz/src/decision.cpp:1705-1712 | Two pairs have one identity if and only if their topics have one display name and they join the same GUIDs, or under the node key endpoints in the same places of the same nodes |
| DiffLaws.SelfCallHidesAPair | src/fastdds_transport_viz/src/decision.cpp:1691-1717 | A concrete node that calls its own service: two pairs, one entry under the node key |
| DiffLaws.IdentityInjective | src/fastdds_transport_viz/src/decision.cpp:1705-1710 | Two endpoints of a topic share an identity only if they are one |
| SnapshotDiff.NodeKeyed | src/fastdds_transport_viz/src/decision.cpp:1691-1717 | Grouping, sorting and looking up positions gives the map keyed by how many GUIDs of the node come before |
| SnapshotDiff.PairStates | src/fastdds_transport_viz/src/decision.cpp:1655-1664 | The map keyed by GUIDs, in key order |
| SnapshotDiff.Diff | src/fastdds_transport_viz/src/decision.cpp:1666-1684 | The two loops give the three lists the partition is proved about |
| SnapshotDiff.DiffSnapshots | src/fastdds_transport_viz/src/decision.cpp:1736-1764 | Either key compares the two keyed maps, the node key ignoring ports |
| DocumentAgreement.SameLists | web/model.js:569-590 | On documents that describe two snapshots the viewer lists the same added, removed and changed pairs as the command-line tool, in the same order, whenever the key texts tell the matched identities apart |
| DocumentAgreement.GuidTextsApart | web/model.js:501-502 | Under the GUID key they always do |
| DocumentAgreement.NodeNamesApart | web/model.js:501-502 | Under the node key they do when each pair's names meet the exact condition of `KeyTexts.NodeKeyUniqueIff` |
| DocumentAgreement.StateDescribed | web/model.js:506-516 | A document pair that gives a pair's fields has its state |
| DocumentAgreement.KeyedAgree | web/model.js:541-546 | The viewer's sorted list is the tool's ordered map |
| DocumentAgreement.StatesAgree | web/model.js:518-531 | The viewer calls two states the same exactly when the tool does, under either key |
| DocumentDiff.DiffDocuments | web/model.js:574-590 | The Map and Set loops give the comparison the agreement is proved about; it throws exactly when a document cannot be keyed |
| DocumentDiff.KeyedPairs | web/model.js:541-546 | The list sorted stably by identity; it throws exactly when the identities cannot be told |
| KeyTexts.KeyIdUniqueIff | web/model.js:501-502 | A key's text is that of no other key if and only if none of its three parts contains a vertical bar |
| KeyTexts.GuidKeysTellApart | web/model.js:501-502 | Keys by the GUID texts the tool writes have different texts, whatever the topics are called |
| KeyTexts.NodeKeyUniqueIff | web/model.js:501-502 | Among all keys the viewer makes under the node key a pair's text is its own if and only if neither the topic nor the name of the writer's node, its last character apart, has a bar, no bar inside the name of the reader's node comes after a text that ends like an identity, that name of the writer's node is not an identity and a bar, and, for a writer without a node, no identity stands between bars in the topic |
| KeyTexts.BarFreeToldApart | web/model.js:501-502 | Names without a vertical bar meet it |
| KeyTexts.IdentityIsSpelled | web/model.js:556-560 | The identities the condition is about are those the viewer makes |
| KeyTexts.KeyIdCollision | web/model.js:501-502 | Two concrete topics whose pairs share a key text under the node key: the name of the writer's node has a bar in it, and the other topic's name ends in that bar and what comes before it |
| Watching.WatchState.constructor | src/fastdds_transport_viz/src/render_table.cpp:206-212 | A new state has no previous frame, no mark and no ghost |
| Watching.WatchState.Diff | src/fastdds_transport_viz/src/render_table.cpp:206-255 | One frame takes marks, ghosts and both lifetimes to the state the run theorems are about |
| Watching.WatchState.Keep | src/fastdds_transport_viz/src/render_table.cpp:257-262 | The frame becomes the previous one |
| Watching.WatchState.Frame | src/fastdds_transport_viz/src/render_table.cpp:206-262 | Both together are one step of the run, and return its changes |
| Watching.WatchState.AgeMarks | src/fastdds_transport_viz/src/render_table.cpp:220-222 | Exactly the marks on their last frame go, the others have a frame less |
| Watching.WatchState.AgeGhosts | src/fastdds_transport_viz/src/render_table.cpp:223-225 | The same for ghosts and their rows |
| Watching.WatchState.AddGhosts | src/fastdds_transport_viz/src/render_table.cpp:234-249 | Removed pairs become rows as the previous frame listed them, replacing earlier ones |
| WatchHistory.MarkIsTheLatestEvent | src/fastdds_transport_viz/src/render_table.cpp:206-233 | At every frame of every run a pair is marked exactly when it appeared or changed within the last three frames, with the latest such mark; mark keys equal lifetime keys |
| WatchHistory.MarksAreExact | src/fastdds_transport_viz/src/render_table.cpp:219-233 | Mark and remaining lifetime as a function of the frames alone |
| WatchHistory.ChangeSets | src/fastdds_transport_viz/src/decision.cpp:1666-1684 | The lists written into a frame are the set differences and state changes of the two frames |
| WatchGhosts.GhostsAreExact | src/fastdds_transport_viz/src/render_table.cpp:223-253 | The ghosts are exactly the pairs of the last three frames that are gone now, each once, in the form of the last frame that had them; ghost keys equal lifetime keys |
| WatchEvents.EventIff | src/fastdds_transport_viz/src/render_table.cpp:196-233 | What counts as an event, over the fields of the listed pairs: plus if and only if the pair is listed and was not the frame before, tilde if and only if it was and its last listed forms differ in what a comparison looks at |
| WatchEvents.GhostsWereListed | src/fastdds_transport_viz/src/render_table.cpp:223-253 | The ghosts are the pairs not listed now but within the last three frames, each with the pair and type under which the last frame to list it did |
| HeldChanges.ViewerHoldsTheSame | web/model.js:639-654 | On the stream of `--watch --json` the viewer holds the same ghosts, and the same marks with the same time left on every pair present; no ghost is present |
| HeldChanges.HoldChanges | web/model.js:643-654 | The held state after a frame |
| HeldChanges.Decorations | web/model.js:624-637 | The marks of one `changes` object |
| RateObserver.RateObserver.Snapshot | src/fastdds_transport_viz/src/stats_observer.cpp:502-543 | With the sliding window every pair's reduced window counts the samples of the five seconds that the newest sample ends, with the least and greatest of their timestamps: the naive window over all samples ever taken; while nothing was pruned the windows and gaps are those of all samples |
| RateObserver.RateObserver.Take | src/fastdds_transport_viz/src/stats_observer.cpp:316-356 | Whatever pair a sample is of, all per-second slots stay exact |
| RateObserver.RateObserver.Prune | src/fastdds_transport_viz/src/stats_observer.cpp:454-470 | Seconds before the window go, every window from there on stays exact |
| RateObserver.RateObserver.Drain | src/fastdds_transport_viz/src/stats_observer.cpp:315-357 | Samples of all pairs in any interleaving, then a prune |
| RateObserver.RateObserver.SetRateWindow | src/fastdds_transport_viz/src/stats_observer.cpp:446-452 | Switching the window keeps the slots exact |
| RateObserver.RateObserver.constructor | src/fastdds_transport_viz/include/fastdds_transport_viz/stats_observer.hpp:57-57 | Nothing taken, nothing pruned, not sliding; the window is five seconds |
| RateWindow.WindowIsCountMinMax | src/fastdds_transport_viz/src/stats_observer.cpp:520-530 | The naive window is the count of the samples in it and the least and greatest of their timestamps |
| RateWindow.TakeKeepsExact | src/fastdds_transport_viz/src/stats_observer.cpp:339-344 | Taking a sample keeps the slots of its own and every other pair exact |
| RateWindow.PruneKeepsExact | src/fastdds_transport_viz/src/stats_observer.cpp:460-464 | What pruning leaves reduces to the window |
| RateWindow.TookNumberReduced | src/fastdds_transport_viz/src/stats_observer.cpp:345-354 | Count and bounds of the sequence numbers are kept in any order of seconds |
| RateWindow.GapsAreTheMissing | src/fastdds_transport_viz/src/stats_observer.cpp:531-543 | The gaps are the numbers between the least and greatest that never arrived, less repeated arrivals, in any order |
| MeasurablePairs.CountMeasurablePairs | src/fastdds_transport_viz/src/decision.cpp:1473-1511 | For every list of endpoints the count is at most the number of pairs on one topic, outside the tool, that are not intra-process, and equal to it if and only if the ends of a pair share a group key only in one process; no subtraction goes below zero |
| MeasurablePairs.OwnGuidsSuffice | src/fastdds_transport_viz/src/decision.cpp:1480-1489 | ... as they do when endpoints have their own GUIDs and no GUID text has eight characters |
| MeasurablePairs.GroupsCountPairs | src/fastdds_transport_viz/src/decision.cpp:1476-1510 | Each group holds exactly its ends, and the groups' sum is the number of pairs between groups |
| MeasurablePairs.KeyIsProcess | src/fastdds_transport_viz/src/decision.cpp:394-402 | Two endpoints share a group key exactly when they are an intra-process pair, in either direction |
| MeasurablePairs.CountedLeaving | src/fastdds_transport_viz/src/decision.cpp:1492-1508 | One endpoint more adds a pair with every opposite end outside its group, and no group outgrows its topic |
| LineSplitting.ReadLines | web/app.js:793-815 | Any way of cutting a file into chunks gives the lines of the whole file |
| LineSplitting.LineSplitter.constructor | web/replay.js:25-27 | A new splitter has seen nothing |
| LineSplitting.LineSplitter.Push | web/replay.js:36-50 | A chunk returns the lines it ends, with their ranges in the file |
| LineSplitting.LineSplitter.Finish | web/replay.js:51-56 | The rest is the last line of a file without a final newline |
| LineSplitting.LineRanges | web/replay.js:20-24 | Each line is the file between its bounds without a newline; ranges are ordered, disjoint and one newline apart, up to the end of the file |
| LineSplitting.LinesAddUp | web/replay.js:20-24 | Lines, newlines and what follows the last newline are the file again |
| StreamNumbering.NumberingIsConserved | web/serve.py:271-299 | In every run, over any number of servers with slow, lost and new connections, the documents taken of the current server rise, are the pushed ones of their numbers, and with the skipped ones are all from where counting went on to the last; a status closes the source only after the final document |
| StreamNumbering.OneServer | web/serve.py:271-299 | With one server no restart is seen, taken and skipped documents make up first to last, and a closed source has taken the final document |
| StreamNumbering.StepKeeps | web/serve.py:282-299 | Every step keeps what is on the way: rising numbers, then at most one status after the final document |
| StreamNumbering.RestartNoticed | web/replay.js:242-263 | In every run a new server is counted as a restart, once, if and only if the first document heard from it has a lower number than the last heard before it; with the same number that document is dropped as a resend, with a higher one the numbers between count as skipped |
| StreamNumbering.UnseenRestart | web/replay.js:255-263 | A concrete run: two servers of one document each; no restart is counted and the document of the second is dropped |
| StreamNumbering.Stream.constructor | web/serve.py:48-52 | No document and no number yet |
| StreamNumbering.Stream.Push | web/serve.py:54-58 | The newest document replaces the last under the next number |
| StreamNumbering.Stream.End | web/serve.py:60-63 | The message is kept beside the last document |
| StreamNumbering.Stream.Wait | web/serve.py:65-69 | Number, document and message belong to one moment |
| StreamNumbering.EventHandler.constructor | web/serve.py:282-282 | A connection starts having sent nothing |
| StreamNumbering.EventHandler.ServeOnce | web/serve.py:284-297 | One turn of the loop is the protocol's step |
| StreamNumbering.StreamIds.constructor | web/replay.js:251-253 | No id seen |
| StreamNumbering.StreamIds.TrackId | web/replay.js:255-263 | New, duplicate or restart, and the two counters, as in the protocol |
| BufferCompanions.LinkBufferCompanions | src/fastdds_transport_viz/src/decision.cpp:523-558 | In place: every endpoint ends up with the one parent the candidate rule gives and the companions that have it as parent, in endpoint order |
| CompanionForest.LinksShorten | src/fastdds_transport_viz/src/decision.cpp:485-497 | Following links drops the suffix once per link and never returns |
| CompanionForest.BothEndsAgree | src/fastdds_transport_viz/src/decision.cpp:553-556 | A companion names its parent exactly when the parent lists it, and then once |
| CompanionForest.LinkingIsIdempotent | src/fastdds_transport_viz/src/decision.cpp:523-528 | Linking a second time changes nothing |
| CompanionForest.ParentIff | src/fastdds_transport_viz/src/decision.cpp:533-552 | The parent is the only candidate, or the candidate with the key before: a property of the set of endpoints |
| CompanionForest.OrderDoesNotMatter | src/fastdds_transport_viz/src/decision.cpp:523-558 | The same endpoints in another order name the same parents |
| SummaryLaws.CandidateIff | src/fastdds_transport_viz/src/decision.cpp:533-542 | A candidate for a parent is of the same kind, participant and type, and its topic with `/_buf_cpu` behind it is the companion's |
| SummaryLaws.NextKeyIff | src/fastdds_transport_viz/src/decision.cpp:543-552 | The key before: one less in the last of the three bytes, borrowed across bytes that are zero, with the kind byte the same |
| Csv.RoundTrip | src/fastdds_transport_viz/src/render_csv.cpp:19-32 | A reader of section 2 of RFC 4180 with LF record ends gets back exactly the rows and cells, commas, quotes, CR and LF in cells included |
| Csv.AsItIsIff | src/fastdds_transport_viz/src/render_csv.cpp:19-32 | A field is written as it is if and only if it has no comma, double quote, CR or LF; any other stands between quotes |
| Csv.Field | src/fastdds_transport_viz/src/render_csv.cpp:19-32 | The loop quotes and doubles as the reader's partner does |
| Csv.Row | src/fastdds_transport_viz/src/render_csv.cpp:63-69 | Cells, separators and the record end |
| Csv.RenderCsv | src/fastdds_transport_viz/src/render_csv.cpp:72-105 | The whole output reads as the header, unless left out, and one record for every pair in listed order |
| DisplayRows.DisplayRows | src/fastdds_transport_viz/src/decision.cpp:745-814 | The rows hold exactly the items due, group keys are unique, the rows are sorted; no group row is empty, each is of its first member's kind, and its pairs, endpoints and members are those of what it holds, in listed order |
| DisplayRows.RowsHoldWhatIsDue | src/fastdds_transport_viz/src/decision.cpp:770-803 | Every pair of a service or action topic is in one row and direction under its group and participants, once; plain topics map one to one; nothing else is there |
| DisplayRows.EveryEndpointIsShown | src/fastdds_transport_viz/src/decision.cpp:789-802 | Every endpoint of a group topic is an end of a pair in the rows or stands on its own |
| DisplayRows.PairsOfARow | src/fastdds_transport_viz/src/decision.cpp:781-787 | The writers of topics to the server are the clients of their row, of all other topics of a group the readers are: each listed pair is of a group topic of that direction, with its two participants in the row's key |
| DisplayRows.EndsOfARow | src/fastdds_transport_viz/src/decision.cpp:789-802 | An endpoint without a pair is alone in a row of its group, as client or as server by the same rule |
| DisplayRows.EndpointInOneRowIff | src/fastdds_transport_viz/include/fastdds_transport_viz/decision.hpp:88-94 | In rows that show the topics, a writer or reader of a service or action topic is an end of items in exactly one row if and only if the other ends of all its pairs share a participant |
| DisplayRows.ClientOfTwoServers | src/fastdds_transport_viz/include/fastdds_transport_viz/decision.hpp:88-94 | A concrete request topic whose client is in two rows of every such list of rows |
| DisplayRows.SortIsSortedPermutation | src/fastdds_transport_viz/src/decision.cpp:810-812 | Sorting permutes and orders by group name and participants |
| DisplayRows.SortIsStable | src/fastdds_transport_viz/src/decision.cpp:810-812 | ... and leaves rows of one key in the order they were made in |
| Summaries.Summarize | src/fastdds_transport_viz/src/decision.cpp:560-610 | One topic for every DDS topic with an endpoint, holding exactly its endpoints and all their pairs |
| Summaries.PairUp | src/fastdds_transport_viz/src/decision.cpp:579-590 | The nested loop lists writers times readers with their verdicts and buffer codes |
| Summaries.AllPairsAreTheProduct | src/fastdds_transport_viz/src/decision.cpp:579-590 | A pair for every writer and every reader and no other, whatever their types |
| SummaryLaws.PairIs | src/fastdds_transport_viz/src/decision.cpp:579-590 | A summarized pair has the verdict of its endpoints; a reason is given if and only if it holds of them or is a native-buffer code that does |
| SummaryLaws.UnmatchedIff | src/fastdds_transport_viz/src/decision.cpp:591-602 | Each reason of a topic that lacks pairs, by which side is empty and what its endpoints' buffer links say |
| Summaries.SummarizedIsCovered | src/fastdds_transport_viz/src/decision.cpp:792-793 | A summarized topic has every endpoint in a pair, or one side empty |
| Summaries.FilterByNode | src/fastdds_transport_viz/src/decision.cpp:816-865 | The loop over topics gives the filter the laws are about |
| SummaryLaws.FilteredIff | src/fastdds_transport_viz/src/decision.cpp:816-865 | What the filter leaves of a topic: the pairs with an end of a matching node, the matching endpoints and their partners, and the reasons that then hold |
| Summaries.FilterIsIdempotent | src/fastdds_transport_viz/src/decision.cpp:816-865 | Filtering twice by the same nodes changes nothing |
| Summaries.FilterKeepsCovered | src/fastdds_transport_viz/src/decision.cpp:830-848 | The pairs left are those with a matching end, and no topic is left with both sides but no pair |
| VisibleText.VisibleWidth | src/fastdds_transport_viz/src/render_table.cpp:43-54 | The columns of a byte string outside escape sequences |
| VisibleText.TruncateVisible | src/fastdds_transport_viz/src/render_table.cpp:56-75 | A line that fits is unchanged; any other is cut where the last column begins |
| VisibleText.CutIsExact | src/fastdds_transport_viz/src/render_table.cpp:56-75 | A cut line is exactly as wide as asked for, the ellipsis and the reset sequence included, and ends outside any escape sequence |
| VisibleText.OneCut | src/fastdds_transport_viz/src/render_table.cpp:62-73 | There is one place to cut |
| GuidText.GuidBytes | src/fastdds_transport_viz/src/parse_json.cpp:105-120 | The index loop reads what the round trip is about, zeros for any other form |
| GuidText.GuidRoundTrip | src/fastdds_transport_viz/src/discovery_observer.cpp:26-39 | Reading a GUID's text gives the sixteen bytes back |
| GuidText.GuidStringInjective | src/fastdds_transport_viz/src/discovery_observer.cpp:26-39 | Two GUIDs never share a text |
| GuidText.GuidSpelled | src/fastdds_transport_viz/src/discovery_observer.cpp:26-39 | Two digits a byte, a bar after the twelfth and dots after the others |
| GuidText.GuidStringForm | src/fastdds_transport_viz/src/discovery_observer.cpp:26-39 | A GUID text has one vertical bar, no `#` and 47 characters, as other comparisons need |
| SavedDocuments.ReadTopics | src/fastdds_transport_viz/src/parse_json.cpp:410-532 | Endpoints first, then topics whose pairs are looked up by GUID; any refused part refuses the document |
| SavedRoundTrip.DocumentReads | src/fastdds_transport_viz/src/parse_json.cpp:425-532 | Reading a written document gives every topic back, each pair resolved to its own endpoints, classified as written |
| SavedRoundTrip.EnumsRead | src/fastdds_transport_viz/src/parse_json.cpp:28-81 | The five spellings are inverted |
| SavedRoundTrip.NodeNameReads | src/fastdds_transport_viz/src/parse_json.cpp:155-170 | An endpoint reads back with its name, or without one if the name is the placeholder of an unknown node |
| SavedRoundTrip.VerdictReads | src/fastdds_transport_viz/src/render_json.cpp:34-44 | A verdict survives; without a locator it reads back with the empty one |
| SavedRoundTrip.MeasurementReads | src/fastdds_transport_viz/src/render_json.cpp:174-187 | The compared part of a measurement survives |
| SavedRoundTrip.SameKeyed | src/fastdds_transport_viz/src/render_json.cpp:129-217 | The keyed pair states are those of the snapshot, under either key |
| SavedRoundTrip.SavedComparesEqual | src/fastdds_transport_viz/src/parse_json.cpp:410-532 | Comparing a snapshot with its saved document, in either direction and under either key, gives no change |
| SavedRoundTrip.GuidBytesSurvive | src/fastdds_transport_viz/src/parse_json.cpp:159-165 | An endpoint's GUID bytes are those its text spells |

## Left out

Not modelled:

- DDS participants, listeners, CDR, file locks, directory reads, sockets, clocks: their results are inputs.
- The measured verdict (`apply_stats`), its wording and the per-topic sums; every statistic other than the latency part of one drain.
- Topic classification, member labels, group types, host labels, reason texts, legends, colours and layout.
- Pages that load a file or a recording: chunked scans with their skipped lines, slider timers, the mode without a history, and the key selector of a comparison (`web/app.js:1076-1079`), which changes the key without a scan.
- Text syntax of JSON, UTF-16 order against byte order, Float32 rounding of delivered rates, wrap-around of unsigned counters that would need more than 2^64 samples.
- Timeouts and keep-alive comments of the event stream, and several viewers of one server.
- Byte totals, stale counts and capacity warnings of the shared-memory report, and its per-participant port list.

Stated weaker than the code does it:

- DecisionLaws.PolicyIff: partition patterns match by a given predicate instead of `fnmatch`.
- DecisionLaws.ReasonIff: codes are values instead of texts; each is given or not, without its place in the list.
- ShmScan.ScanShm: the two visibility warnings and all byte counts are absent.
- IpcSplit.SplitIsSound: endpoints come unprobed and with distinct GUIDs, as discovery delivers them.
- Collect.Observe: which endpoints the view options keep is given as a set of GUIDs.
- LiveHistory.LiveRecordingIsExact: over documents with known transports that can be added under the key in use, kept ones also under a key that Match by changes to (see above for the others); a recording is a value here; the arrays it is kept in are proved separately in `RecordingStore`.
- RecordingStore.RecordingStore.AddFrame: of a document at which it throws, the half-added frame is not modelled.
- FrameValues.LatencyTelescopes: over exact reals, without rounding.
- SnapshotDiff.PairStates: when two pairs have one GUID key, the map keeps the node names of the first key; the model has those of the last, also in ChangedPairs.ComparisonIs.
- DocumentAgreement.SameLists: for pairs with identities of their own; on others the viewer lists each pair and the tool one.
- Watching.WatchState.Diff: ghosts carry the pair and its type; their labels and the summary line are left out.
- HeldChanges.Decorations: the previous state of a change and the pair shown for a ghost are left out.
- HeldChanges.ViewerHoldsTheSame: keyed by pairs instead of their key texts, for a page that follows the stream from its first frame; the previous states of a change and the topic of a ghost are left out.
- RateObserver.RateObserver.Snapshot: models the drain and the reduction as one step, without the thread that drains in between; once the window has been pruned, gaps are not claimed exact, since late seconds are merged into the last slot.
- StreamNumbering.NumberingIsConserved: one viewer.
- StreamNumbering.Stream.Wait: what it returns, not when it wakes up or gives up waiting.
- BufferCompanions.LinkBufferCompanions: endpoints are told apart by their place instead of their address.
- Summaries.Summarize: topics in no particular order and not yet classified; display names are a given function of the DDS topic.
- Summaries.FilterByNode: endpoints are compared by value instead of by address.
- DisplayRows.DisplayRows: the type text of a row and which of several endpoints of a participant opens it are not stated; the stable sort is modelled as insertion.
- Csv.RenderCsv: the texts of the cells are given by a function; number spelling and host labels are left out.
- VisibleText.VisibleWidth: bytes are counted as the code counts them; combining and wide characters are not told apart there either.
- SavedRoundTrip.MeasurementReads: the fields no comparison reads (latency, reliability, totals) are left out.
- SavedDocuments.ReadTopics: error texts, re-classification of old documents, and the endpoint and measurement fields no comparison reads (QoS, locators, hashes, latency, reliability, totals) are left out.
