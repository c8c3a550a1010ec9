/**
 * The live history as a protocol (web/app.js): frames arrive while kept frames are being read
 * again, one await at a time, and every unfinished read may complete at any later moment.
 */
module LiveHistory {
  import opened Model
  import opened Documents
  import opened Recording
  import opened HistoryBound

  /** The kept text of a frame: the document it parses to, and its bytes. */
  datatype Blob = Blob(doc: Doc, size: nat)

  /** A read that has not completed. `serial` is the arrival number of the frame it is about. */
  datatype Read =
    | ScanRead(token: nat, rec: Rec, j: nat, blob: Blob)
    | ShowRead(token: nat, i: nat, blob: Blob, serial: nat)
    | ResumeRead(token: nat, n: nat, blob: Blob, serial: nat)

  /** `dropped` counts the frames trimmed so far: blobs[i] is the frame that arrived as number dropped + i. */
  datatype State = State(
    limit: nat, following: bool, blobs: seq<Blob>, bytes: int, trimmed: bool, shownDropped: bool, scanning: bool,
    key: KeyMode, live: bool, rec: Rec, index: int, shown: int, token: nat, showToken: nat,
    pending: seq<Read>, dropped: nat, screen: Option<nat>)

  const NO_REC := Scratch(ByNode, [])

  function Init(limit: nat, key: KeyMode): State {
    State(limit, true, [], 0, false, false, false, key, false, NO_REC, 0, -1, 0, 0, [], 0, None)
  }

  function SizesOf(blobs: seq<Blob>): (s: seq<nat>)
    ensures |s| == |blobs|
  {
    seq(|blobs|, i requires 0 <= i < |blobs| => blobs[i].size)
  }

  function FrameOf(b: Blob): Frame {
    Frame(b.doc, 0, b.size)
  }

  function FramesOf(blobs: seq<Blob>): (f: seq<Frame>)
    ensures |f| == |blobs|
  {
    seq(|blobs|, i requires 0 <= i < |blobs| => FrameOf(blobs[i]))
  }

  // ---- the handlers

  /** showFrame(i): the frame's text is read again unless it is on screen already. */
  function ShowFrame(s: State, i: int): State {
    if !s.live || i < 0 || i >= s.rec.Frames() || i >= |s.blobs| then s
    else if i == s.shown then s.(index := i)
    else s.(index := i, showToken := s.showToken + 1,
            pending := s.pending + [ShowRead(s.showToken + 1, i, s.blobs[i], s.dropped + i)])
  }

  /** showNewest(): frame `serial` is drawn, and taken for the newest of the recording. */
  function ShowNewest(s: State, serial: nat): State {
    s.(showToken := s.showToken + 1, index := s.rec.Frames() - 1, shown := s.rec.Frames() - 1, screen := Some(serial))
  }

  function PauseLive(s: State): State {
    s.(following := false, shownDropped := false)
  }

  function ResumeLive(s: State): State {
    var s1 := s.(following := true, shownDropped := false);
    var n := s.rec.Frames();
    if !s.live || s.scanning || n == 0 || n > |s.blobs| then s1
    else s1.(showToken := s.showToken + 1,
             pending := s.pending + [ResumeRead(s.showToken + 1, n, s.blobs[n - 1], s.dropped + n - 1)])
  }

  /** The oldest n frames go, the indices move with the rest. */
  function Trimmed(s: State, n: nat): State
    requires s.rec.Aligned() && n <= |s.blobs|
  {
    var shown := if s.shown >= 0 then ShiftIndex(s.shown, n) else (-1, true);
    s.(rec := Dropped(s.rec, n), blobs := s.blobs[n..], bytes := s.bytes - Sum(SizesOf(s.blobs[..n])),
       trimmed := true, showToken := s.showToken + 1, dropped := s.dropped + n,
       index := ShiftIndex(s.index, n).0, shown := if shown.1 then -1 else shown.0)
  }

  /** What a trim puts on screen: nothing yet while following, else the frame at the index. */
  function ShowAfterTrim(s: State, wantDropped: bool): State {
    if s.following then s
    else
      var s1 := if wantDropped then s.(shownDropped := true) else s;
      if s1.shown != s1.index then ShowFrame(s1, s1.index) else s1
  }

  /** Gives up the oldest frames, if the bytes ask for it, and moves the indices with the rest. */
  function TrimHistory(s: State): State
    requires s.rec.Aligned()
  {
    var n := DropCountOf(SizesOf(s.blobs), s.limit);
    if s.bytes <= s.limit || n == 0 then s else ShowAfterTrim(Trimmed(s, n), ShiftIndex(s.index, n).1)
  }

  /** What the end of a scan puts on screen. */
  function ShowAfterScan(s: State): State {
    if s.following then ResumeLive(s)
    else
      var last := s.rec.Frames() - 1;
      var index := if s.index < last then s.index else last;
      ShowFrame(s.(index := index, shown := -1), index)
  }

  /** The end of a scan: its recording becomes the one shown. */
  function FinishScan(s: State, rec: Rec): State
    requires rec.Aligned()
  {
    ShowAfterScan(TrimHistory(s.(scanning := false, rec := rec)))
  }

  /** The scan's loop from frame j on: the next kept frame is read, or the scan ends. */
  function ScanFrom(s: State, token: nat, rec: Rec, j: nat): State
    requires rec.Aligned()
  {
    if j < |s.blobs| then s.(pending := s.pending + [ScanRead(token, rec, j, s.blobs[j])])
    else FinishScan(s, rec)
  }

  function Scanning(s: State): State {
    s.(token := s.token + 1, showToken := s.showToken + 1, scanning := true)
  }

  function RescanLive(s: State): State {
    ScanFrom(Scanning(s), s.token + 1, Scratch(s.key, []), 0)
  }

  function StopReplay(s: State): State {
    s.(token := s.token + 1, showToken := s.showToken + 1, live := false, rec := NO_REC, shown := -1, index := 0,
       scanning := false)
  }

  function StartHistory(s: State): State {
    RescanLive(StopReplay(s).(live := true, rec := Scratch(s.key, [])))
  }

  function AppendFrame(s: State, b: Blob): State
    requires s.rec.Aligned()
  {
    var s1 := s.(blobs := s.blobs + [b], bytes := s.bytes + b.size);
    if !s.live then StartHistory(s1)
    else if s.scanning then s1
    else
      var s2 := TrimHistory(s1.(rec := Added(s.rec, FrameOf(b))));
      if s2.following then ShowNewest(s2, s.dropped + |s.blobs|) else s2
  }

  /** What a completed read does: a stale one is ignored. */
  function Arrived(s: State, r: Read): State
    requires r.ScanRead? ==> r.rec.Aligned()
  {
    match r
    case ScanRead(token, rec, j, blob) =>
      if token != s.token then s else ScanFrom(s, token, Added(rec, FrameOf(blob)), j + 1)
    case ShowRead(token, i, blob, serial) =>
      if token != s.showToken then s else s.(index := i, shown := i, screen := Some(serial))
    case ResumeRead(token, n, blob, serial) =>
      if token != s.showToken then s else ShowNewest(s, serial)
  }

  function Without(s: State, k: nat): State
    requires k < |s.pending|
  {
    s.(pending := s.pending[..k] + s.pending[k + 1..])
  }

  /** Any of the reads under way completes. */
  function Complete(s: State, k: nat): State
    requires k < |s.pending| && (s.pending[k].ScanRead? ==> s.pending[k].rec.Aligned())
  {
    Arrived(Without(s, k), s.pending[k])
  }

  /** A move on the timeline stops following. */
  function GoTo(s: State, i: int): State {
    ShowFrame(if s.live then PauseLive(s) else s, i)
  }

  /** Match by: under a new key all kept frames have to be scanned anew. */
  function Rekey(s: State, key: KeyMode): State {
    if !s.live || s.rec.Frames() < 2 then s else RescanLive(s.(key := key))
  }

  /** Another document is opened. */
  function LoadOther(s: State): State {
    StopReplay(s).(screen := None)
  }

  datatype Event =
    | Receive(blob: Blob) | Completed(k: nat) | Pause | Resume | Move(i: int) | MatchBy(key: KeyMode) | Load

  /** A document that can be added under the key, and whose pairs a compaction keeps. */
  predicate Usable(d: Doc, key: KeyMode) {
    KnownTransports(d) && Readable(d, key)
  }

  predicate AllUsable(blobs: seq<Blob>, key: KeyMode) {
    forall b :: b in blobs ==> Usable(b.doc, key)
  }

  /** Frames can be added under the key in use; Match by, which reads the kept frames again, needs those under its own. */
  ghost predicate Enabled(s: State, e: Event) {
    match e
    case Receive(b) => Usable(b.doc, s.key)
    case Completed(k) => k < |s.pending|
    case MatchBy(key) => s.live && s.rec.Frames() >= 2 ==> AllUsable(s.blobs, key)
    case _ => true
  }

  function Step(s: State, e: Event): State
    requires s.rec.Aligned() && forall k :: 0 <= k < |s.pending| && s.pending[k].ScanRead? ==> s.pending[k].rec.Aligned()
  {
    match e
    case Receive(b) => AppendFrame(s, b)
    case Completed(k) => if k < |s.pending| then Complete(s, k) else s
    case Pause => PauseLive(s)
    case Resume => ResumeLive(s)
    case Move(i) => GoTo(s, i)
    case MatchBy(key) => Rekey(s, key)
    case Load => LoadOther(s)
  }

  // ---- what every run keeps

  /** A scan still wanted has read exactly the kept frames before the one it waits for. */
  ghost predicate ScanOk(s: State, r: Read)
    requires r.ScanRead?
  {
    r.rec.Aligned() && r.token <= s.token
    && (r.token == s.token ==>
          s.scanning && r.j < |s.blobs| && r.blob == s.blobs[r.j] && r.rec == Scratch(s.key, FramesOf(s.blobs[..r.j])))
  }

  /** A frame read still wanted is about the frame now at its index. */
  ghost predicate ShowOk(s: State, r: Read)
    requires !r.ScanRead?
  {
    r.token <= s.showToken
    && (r.token == s.showToken ==>
          s.live && s.rec.Frames() <= |s.blobs|
          && (r.ShowRead? ==> r.i < s.rec.Frames() && r.blob == s.blobs[r.i] && r.serial == s.dropped + r.i)
          && (r.ResumeRead? ==> !s.scanning && 0 < r.n <= s.rec.Frames() && r.blob == s.blobs[r.n - 1]
                                && r.serial == s.dropped + r.n - 1))
  }

  ghost predicate ReadOk(s: State, r: Read) {
    if r.ScanRead? then ScanOk(s, r) else ShowOk(s, r)
  }

  ghost predicate Wanted(s: State, r: Read) {
    r.token == if r.ScanRead? then s.token else s.showToken
  }

  /** At most one scan and at most one frame read are still wanted. */
  ghost predicate OneOfAKind(s: State) {
    forall k, l :: 0 <= k < l < |s.pending| && Wanted(s, s.pending[k]) && Wanted(s, s.pending[l]) ==>
      s.pending[k].ScanRead? != s.pending[l].ScanRead?
  }

  /** The recording is the one of the kept frames; while they are being read again, of the first of them. */
  ghost predicate RecOk(s: State) {
    s.rec.Aligned() && s.rec.Frames() <= |s.blobs|
    && s.rec == Scratch(s.rec.key, FramesOf(s.blobs[..s.rec.Frames()]))
    && (s.live && !s.scanning ==> s.rec == Scratch(s.key, FramesOf(s.blobs)))
    && (!s.live ==> s.rec.Frames() == 0 && !s.scanning)
  }

  /** What holds even between the statements of one handler. */
  ghost predicate Sound(s: State) {
    s.bytes == Sum(SizesOf(s.blobs))
    && AllUsable(s.blobs, s.key)
    && RecOk(s)
    && -1 <= s.shown < s.rec.Frames()
    && (forall k :: 0 <= k < |s.pending| ==> ReadOk(s, s.pending[k]))
    && OneOfAKind(s)
  }

  ghost predicate ScanAlive(s: State) {
    s.scanning ==> exists k :: 0 <= k < |s.pending| && s.pending[k].ScanRead? && Wanted(s, s.pending[k])
  }

  /** The history fits its bound, the newest frame apart. */
  ghost predicate Bounded(s: State) {
    s.live && !s.scanning ==> s.bytes <= s.limit || |s.blobs| == 1
  }

  /** While following, the read that resumes is about the newest frame. */
  ghost predicate ResumesNewest(s: State) {
    forall k :: 0 <= k < |s.pending| && s.pending[k].ResumeRead? && Wanted(s, s.pending[k]) && s.following ==>
      s.pending[k].n == s.rec.Frames()
  }

  ghost predicate Inv(s: State) {
    Sound(s) && ScanAlive(s) && Bounded(s) && ResumesNewest(s)
  }

  // ---- sequences of blobs

  lemma BlobsSnoc(blobs: seq<Blob>, b: Blob)
    ensures SizesOf(blobs + [b]) == SizesOf(blobs) + [b.size]
    ensures FramesOf(blobs + [b]) == FramesOf(blobs) + [FrameOf(b)]
    ensures Sum(SizesOf(blobs + [b])) == Sum(SizesOf(blobs)) + b.size
  {
    SumSnoc(SizesOf(blobs), b.size);
  }

  lemma BlobsSplit(blobs: seq<Blob>, n: nat)
    requires n <= |blobs|
    ensures SizesOf(blobs)[n..] == SizesOf(blobs[n..]) && SizesOf(blobs)[..n] == SizesOf(blobs[..n])
    ensures FramesOf(blobs)[n..] == FramesOf(blobs[n..]) && FramesOf(blobs)[..n] == FramesOf(blobs[..n])
    ensures Sum(SizesOf(blobs)) == Sum(SizesOf(blobs[..n])) + Sum(SizesOf(blobs[n..]))
  {
    SumSplit(SizesOf(blobs), n);
  }

  lemma KnownBlobs(blobs: seq<Blob>, key: KeyMode)
    requires AllUsable(blobs, key)
    ensures forall f :: f in FramesOf(blobs) ==> KnownTransports(f.doc)
  {
  }

  // ---- the handlers keep it

  /** A new frame read supersedes the wanted one. */
  lemma NewShow(s: State, s': State, r: Read)
    requires Sound(s) && !r.ScanRead? && ShowOk(s', r) && Wanted(s', r)
    requires s' == s.(following := s'.following, shownDropped := s'.shownDropped, index := s'.index, shown := s'.shown,
                      showToken := s.showToken + 1, pending := s.pending + [r])
    requires -1 <= s'.shown < s'.rec.Frames()
    ensures Sound(s') && (ScanAlive(s) ==> ScanAlive(s')) && (Bounded(s) ==> Bounded(s'))
    ensures (r.ResumeRead? ==> r.n == s'.rec.Frames()) ==> ResumesNewest(s')
  {
    hide Scratch, Usable, RecOk;
    assert RecOk(s') by {
      SameRec(s, s');
    }
    forall k | 0 <= k < |s'.pending|
      ensures ReadOk(s', s'.pending[k]) && (k < |s.pending| ==> Wanted(s', s'.pending[k]) ==> s'.pending[k].ScanRead?)
    {
      assert k < |s.pending| ==> s'.pending[k] == s.pending[k] && ReadOk(s, s.pending[k]);
    }
    if ScanAlive(s) && s.scanning {
      var k :| 0 <= k < |s.pending| && s.pending[k].ScanRead? && Wanted(s, s.pending[k]);
      assert s'.pending[k] == s.pending[k];
    }
  }

  lemma SameRec(s: State, s': State)
    requires RecOk(s) && s'.rec == s.rec && s'.blobs == s.blobs
    requires s'.live == s.live && s'.scanning == s.scanning && s'.key == s.key
    ensures RecOk(s')
  {
  }

  lemma SameButIndex(s: State, s': State)
    requires Sound(s) && s' == s.(index := s'.index)
    ensures Sound(s') && (ScanAlive(s) ==> ScanAlive(s')) && (Bounded(s) ==> Bounded(s'))
    ensures ResumesNewest(s) ==> ResumesNewest(s')
  {
    hide Scratch;
  }

  lemma ShowFrameSound(s: State, i: int)
    requires Sound(s)
    ensures var s' := ShowFrame(s, i);
            Sound(s') && (ScanAlive(s) ==> ScanAlive(s')) && (Bounded(s) ==> Bounded(s'))
            && (ResumesNewest(s) ==> ResumesNewest(s'))
  {
    hide Scratch, Usable, ReadOk;
    var s' := ShowFrame(s, i);
    if s' != s {
      if i == s.shown {
        SameButIndex(s, s');
      } else {
        var r := ShowRead(s.showToken + 1, i, s.blobs[i], s.dropped + i);
        NewShow(s, s', r);
      }
    }
  }

  lemma ShowNewestSound(s: State, serial: nat)
    requires Sound(s) && s.live
    ensures var s' := ShowNewest(s, serial);
            Sound(s') && (ScanAlive(s) ==> ScanAlive(s')) && (Bounded(s) ==> Bounded(s')) && ResumesNewest(s')
  {
    hide Scratch;
  }

  lemma ResumeSound(s: State)
    requires Sound(s)
    ensures var s' := ResumeLive(s);
            Sound(s') && (ScanAlive(s) ==> ScanAlive(s')) && (Bounded(s) ==> Bounded(s')) && ResumesNewest(s')
  {
    hide Scratch;
    var s' := ResumeLive(s);
  }

  lemma TrimmedRec(s: State, n: nat)
    requires Sound(s) && s.live && !s.scanning && n <= |s.blobs|
    ensures var s' := Trimmed(s, n); s'.bytes == Sum(SizesOf(s'.blobs)) && RecOk(s')
  {
    BlobsSplit(s.blobs, n);
    KnownBlobs(s.blobs, s.key);
    KnownFramesCompact(s.key, FramesOf(s.blobs), n);
    hide Dropped, Scratch;
    var s' := Trimmed(s, n);
    assert s'.blobs[..|s'.blobs|] == s'.blobs;
  }

  lemma TrimmedSound(s: State, n: nat)
    requires Sound(s) && s.live && !s.scanning && 0 < n < |s.blobs|
    ensures var s' := Trimmed(s, n); Sound(s') && ScanAlive(s') && ResumesNewest(s')
  {
    TrimmedRec(s, n);
    hide Dropped, Scratch, Usable;
  }

  lemma BlobsSum(s: State)
    requires Sound(s)
    ensures |SizesOf(s.blobs)| == |s.blobs| && s.bytes == Sum(SizesOf(s.blobs))
  {
  }

  /** The oldest frames that dropCount() says go. */
  lemma OldestDropped(s: State, n: nat)
    requires Sound(s) && s.live && !s.scanning && n == DropCountOf(SizesOf(s.blobs), s.limit) && n > 0
    ensures var s1 := Trimmed(s, n);
            n < |s.blobs| && Sound(s1) && ScanAlive(s1) && Bounded(s1) && ResumesNewest(s1)
            && s1.dropped + |s1.blobs| == s.dropped + |s.blobs|
  {
    DropCountBound(SizesOf(s.blobs), s.limit);
    BlobsSum(s);
    BlobsSplit(s.blobs, n);
    TrimmedSound(s, n);
    hide Dropped, Scratch, Usable, DropCountOf, Sound, SizesOf, Sum, ScanAlive, ResumesNewest, ShiftIndex;
  }

  lemma ShowAfterTrimSound(s: State, wantDropped: bool)
    requires Sound(s) && ScanAlive(s) && Bounded(s) && ResumesNewest(s)
    ensures var s' := ShowAfterTrim(s, wantDropped);
            Sound(s') && ScanAlive(s') && Bounded(s') && ResumesNewest(s')
  {
    hide Sound, ScanAlive, Bounded, ResumesNewest, ShowFrame;
    if !s.following {
      var s1 := if wantDropped then s.(shownDropped := true) else s;
      SameButFlag(s, s1);
      ShowFrameSound(s1, s1.index);
    }
  }

  lemma ShowAfterTrimKeeps(s: State, wantDropped: bool)
    ensures var s' := ShowAfterTrim(s, wantDropped);
            s'.blobs == s.blobs && s'.dropped == s.dropped && s'.limit == s.limit
            && s'.live == s.live && s'.scanning == s.scanning && s'.following == s.following && s'.rec == s.rec
  {
  }

  lemma TrimSound(s: State)
    requires Sound(s) && s.live && !s.scanning
    ensures var s' := TrimHistory(s);
            Sound(s') && ScanAlive(s') && Bounded(s') && s'.live && !s'.scanning && s'.following == s.following
            && s'.dropped + |s'.blobs| == s.dropped + |s.blobs|
            && (ResumesNewest(s) ==> ResumesNewest(s'))
  {
    var n := DropCountOf(SizesOf(s.blobs), s.limit);
    if s.bytes > s.limit && n > 0 {
      OldestDropped(s, n);
      ShowAfterTrimSound(Trimmed(s, n), ShiftIndex(s.index, n).1);
      ShowAfterTrimKeeps(Trimmed(s, n), ShiftIndex(s.index, n).1);
      hide ShowAfterTrim, Sound, DropCountOf, ScanAlive, Bounded, ResumesNewest, SizesOf, Dropped, Sum, ShiftIndex;
    } else {
      NothingToDrop(s);
      hide Sound, DropCountOf, ResumesNewest, SizesOf;
    }
  }

  lemma NothingToDrop(s: State)
    requires Sound(s) && s.live && !s.scanning
    requires s.bytes <= s.limit || DropCountOf(SizesOf(s.blobs), s.limit) == 0
    ensures ScanAlive(s) && Bounded(s)
  {
    DropCountBound(SizesOf(s.blobs), s.limit);
    BlobsSum(s);
    BlobsSplit(s.blobs, 0);
    assert s.blobs[0..] == s.blobs;
    hide DropCountOf, Sound, SizesOf, Sum;
  }

  lemma ShowAfterScanSound(s: State)
    requires Sound(s) && ScanAlive(s) && Bounded(s) && (!s.following ==> ResumesNewest(s))
    ensures Inv(ShowAfterScan(s))
  {
    hide Sound, ScanAlive, Bounded, ResumesNewest, ShowFrame, ResumeLive;
    if s.following {
      ResumeSound(s);
    } else {
      var index := if s.index < s.rec.Frames() - 1 then s.index else s.rec.Frames() - 1;
      var s1 := s.(index := index, shown := -1);
      NoneShownSound(s, s1);
      ShowFrameSound(s1, index);
    }
  }

  /** Nothing resumes unless the viewer follows. */
  lemma NothingResumes(s: State)
    requires !s.following
    ensures ResumesNewest(s)
  {
  }

  lemma FinishScanSound(s: State, rec: Rec)
    requires Sound(s.(scanning := false, rec := rec)) && s.live
    ensures Inv(FinishScan(s, rec))
  {
    var s0 := s.(scanning := false, rec := rec);
    assert s0.rec.Aligned();
    hide RecOk, ReadOk, OneOfAKind, Usable, TrimHistory, ShowAfterScan, Inv;
    TrimSound(s0);
    var s1 := TrimHistory(s0);
    if !s1.following {
      NothingResumes(s1);
    }
    ShowAfterScanSound(s1);
  }

  lemma NoneShownSound(s: State, s': State)
    requires Sound(s) && s' == s.(index := s'.index, shown := -1)
    ensures Sound(s') && (ScanAlive(s) ==> ScanAlive(s')) && (Bounded(s) ==> Bounded(s'))
    ensures ResumesNewest(s) ==> ResumesNewest(s')
  {
    hide Scratch;
  }

  /** The flags of the header do not matter. */
  lemma SameButFlag(s: State, s': State)
    requires s' == s.(shownDropped := s'.shownDropped) && Sound(s)
    ensures Sound(s') && (ScanAlive(s) ==> ScanAlive(s')) && (Bounded(s) ==> Bounded(s'))
    ensures ResumesNewest(s) ==> ResumesNewest(s')
  {
    hide Scratch;
  }

  /** No scan read is wanted: the one that was has just completed, or the token has moved on. */
  ghost predicate NoScan(s: State) {
    forall k :: 0 <= k < |s.pending| && s.pending[k].ScanRead? ==> !Wanted(s, s.pending[k])
  }

  ghost predicate NoShow(s: State) {
    forall k :: 0 <= k < |s.pending| && !s.pending[k].ScanRead? ==> !Wanted(s, s.pending[k])
  }

  lemma NextReadSound(s: State, r: Read)
    requires Sound(s) && NoScan(s) && s.live && s.scanning && ResumesNewest(s)
    requires r.ScanRead? && Wanted(s, r) && ScanOk(s, r)
    ensures Inv(s.(pending := s.pending + [r]))
  {
    hide RecOk, Scratch, Usable;
    var s' := s.(pending := s.pending + [r]);
    assert RecOk(s') by {
      SameRec(s, s');
    }
    assert s'.pending[|s.pending|] == r;
    forall k | 0 <= k < |s'.pending|
      ensures ReadOk(s', s'.pending[k]) && (k < |s.pending| ==> s'.pending[k] == s.pending[k])
    {
      assert k < |s.pending| ==> ReadOk(s, s.pending[k]);
    }
  }

  lemma ScanFromSound(s: State, rec: Rec, j: nat)
    requires Sound(s) && NoScan(s) && s.live && s.scanning && ResumesNewest(s)
    requires j <= |s.blobs| && rec == Scratch(s.key, FramesOf(s.blobs[..j]))
    ensures Inv(ScanFrom(s, s.token, rec, j))
  {
    if j < |s.blobs| {
      hide Scratch, RecOk, OneOfAKind, Inv, FinishScan;
      NextReadSound(s, ScanRead(s.token, rec, j, s.blobs[j]));
    } else {
      assert s.blobs[..j] == s.blobs;
      ScannedSound(s, rec);
      hide Scratch, Sound, Inv, FinishScan;
      FinishScanSound(s, rec);
    }
  }

  /** Every kept frame has been read. */
  lemma ScannedSound(s: State, rec: Rec)
    requires Sound(s) && NoScan(s) && s.live && s.scanning && rec == Scratch(s.key, FramesOf(s.blobs))
    ensures Sound(s.(scanning := false, rec := rec))
  {
    assert rec.key == s.key;
    hide Scratch, Usable;
    var s0 := s.(scanning := false, rec := rec);
    assert s0.rec.Frames() == |s0.blobs| && s0.blobs[..s0.rec.Frames()] == s0.blobs;
    forall k | 0 <= k < |s.pending|
      ensures ReadOk(s0, s.pending[k])
    {
      assert ReadOk(s, s.pending[k]);
    }
  }

  /** Every read is stale once both tokens have moved on. */
  ghost predicate Stale(s: State) {
    forall k :: 0 <= k < |s.pending| ==>
      if s.pending[k].ScanRead? then s.pending[k].rec.Aligned() && s.pending[k].token < s.token
      else s.pending[k].token < s.showToken
  }

  lemma RescanSound(s: State)
    requires s.live && s.bytes == Sum(SizesOf(s.blobs)) && AllUsable(s.blobs, s.key)
    requires RecOk(Scanning(s)) && -1 <= s.shown < s.rec.Frames() && Stale(Scanning(s))
    ensures Inv(RescanLive(s))
  {
    var s1 := Scanning(s);
    assert s1.blobs[..0] == [];
    assert Sound(s1) && NoScan(s1) && ResumesNewest(s1) by {
      hide Scratch, Usable, RecOk;
    }
    assert FramesOf(s1.blobs[..0]) == [];
    hide Scratch, Usable, ScanFrom, RecOk, FramesOf;
    ScanFromSound(s1, Scratch(s.key, []), 0);
  }

  lemma BumpedIsStale(s: State, s': State)
    requires Sound(s) && s'.pending == s.pending && s'.token > s.token && s'.showToken > s.showToken
    ensures Stale(s')
  {
    hide Scratch, Usable, RecOk;
    assert forall k :: 0 <= k < |s.pending| ==> ReadOk(s, s.pending[k]);
  }

  lemma RekeySound(s: State, key: KeyMode)
    requires Inv(s) && Enabled(s, MatchBy(key))
    ensures Inv(Rekey(s, key))
  {
    if s.live && s.rec.Frames() >= 2 {
      var s1 := s.(key := key);
      BumpedIsStale(s, Scanning(s1));
      hide Scratch, Usable, ScanFrom;
      RescanSound(s1);
    }
  }

  lemma StopSound(s: State)
    requires Sound(s)
    ensures Inv(StopReplay(s))
  {
    var s' := StopReplay(s);
    BumpedIsStale(s, s');
    assert s'.blobs[..0] == [];
    assert RecOk(s');
    hide Scratch, Usable, RecOk;
  }

  lemma StartSound(s: State)
    requires Sound(s)
    ensures Inv(StartHistory(s))
  {
    StopSound(s);
    var s1 := StopReplay(s);
    var s2 := s1.(live := true, rec := Scratch(s.key, []));
    BumpedIsStale(s1, Scanning(s2));
    assert s2.blobs[..0] == [];
    assert RecOk(Scanning(s2));
    hide Scratch, Usable, RecOk, RescanLive;
    RescanSound(s2);
  }

  // ---- arriving frames

  lemma ArrivedBlob(s: State, b: Blob)
    requires Sound(s) && Usable(b.doc, s.key)
    ensures var s1 := s.(blobs := s.blobs + [b], bytes := s.bytes + b.size);
            s1.bytes == Sum(SizesOf(s1.blobs)) && AllUsable(s1.blobs, s1.key)
            && s1.blobs[..s.rec.Frames()] == s.blobs[..s.rec.Frames()]
  {
    BlobsSnoc(s.blobs, b);
  }

  /** A frame that arrives during a scan, or before the history starts, waits among the blobs. */
  lemma WaitingSound(s: State, b: Blob)
    requires Sound(s) && Usable(b.doc, s.key) && (s.live ==> s.scanning)
    ensures var s1 := s.(blobs := s.blobs + [b], bytes := s.bytes + b.size);
            Sound(s1) && (ScanAlive(s) ==> ScanAlive(s1)) && Bounded(s1) && (s.live ==> ResumesNewest(s1))
  {
    ArrivedBlob(s, b);
    var s1 := s.(blobs := s.blobs + [b], bytes := s.bytes + b.size);
    hide Scratch, Usable;
    forall k | 0 <= k < |s.pending|
      ensures ReadOk(s1, s1.pending[k])
    {
      assert ReadOk(s, s.pending[k]);
      if s.pending[k].ScanRead? && Wanted(s, s.pending[k]) {
        assert s1.blobs[..s.pending[k].j] == s.blobs[..s.pending[k].j];
      }
    }
  }

  lemma AddedSound(s: State, b: Blob)
    requires Sound(s) && s.live && !s.scanning && Usable(b.doc, s.key)
    ensures Sound(s.(blobs := s.blobs + [b], bytes := s.bytes + b.size, rec := Added(s.rec, FrameOf(b))))
  {
    ArrivedBlob(s, b);
    BlobsSnoc(s.blobs, b);
    AddedToScratch(s.key, FramesOf(s.blobs), FrameOf(b));
    hide Scratch, Usable, Added;
    var s1 := s.(blobs := s.blobs + [b], bytes := s.bytes + b.size, rec := Added(s.rec, FrameOf(b)));
    assert s1.blobs[..|s1.blobs|] == s1.blobs && s1.rec.Frames() == s.rec.Frames() + 1;
    forall k | 0 <= k < |s.pending|
      ensures ReadOk(s1, s1.pending[k])
    {
      assert ReadOk(s, s.pending[k]);
    }
  }

  lemma AlignedRec(s: State)
    requires Sound(s)
    ensures s.rec.Aligned()
  {
  }

  lemma AppendSound(s: State, b: Blob)
    requires Inv(s) && Usable(b.doc, s.key)
    ensures Inv(AppendFrame(s, b))
  {
    hide Sound, Bounded, ResumesNewest, ScanAlive, StartHistory, TrimHistory, Added, ShowNewest;
    AlignedRec(s);
    var s1 := s.(blobs := s.blobs + [b], bytes := s.bytes + b.size);
    if !s.live {
      WaitingSound(s, b);
      StartSound(s1);
    } else if s.scanning {
      WaitingSound(s, b);
    } else {
      AddedSound(s, b);
      GrownSound(s, b);
    }
  }

  /**
   * A frame at which addFrame() throws has been kept, but the recording still counts the frames it had:
   * whatever else the throw leaves in it, it is not the recording of the kept frames.
   */
  lemma UnlistedFrameIsLost(s: State, size: nat, rec: Rec)
    requires Inv(s) && s.live && !s.scanning && s.key.ByNode? && rec.Frames() == s.rec.Frames()
    ensures var b := Blob(UNLISTED, size);
            var s' := s.(blobs := s.blobs + [b], bytes := s.bytes + size, rec := rec);
            !Enabled(s, Receive(b)) && b in s'.blobs && !RecOk(s')
  {
    UnlistedNodeThrows();
  }

  lemma GrownSound(s: State, b: Blob)
    requires s.live && !s.scanning && s.rec.Aligned()
    requires Sound(s.(blobs := s.blobs + [b], bytes := s.bytes + b.size, rec := Added(s.rec, FrameOf(b))))
    ensures Inv(AppendFrame(s, b))
  {
    hide Scratch, Usable, Added, TrimHistory, RecOk, ReadOk;
    var s2 := s.(blobs := s.blobs + [b], bytes := s.bytes + b.size, rec := Added(s.rec, FrameOf(b)));
    TrimSound(s2);
    var s3 := TrimHistory(s2);
    if s3.following {
      ShowNewestSound(s3, s.dropped + |s.blobs|);
    } else {
      assert ResumesNewest(s2);
    }
  }

  // ---- completed reads

  lemma RemovedSound(s: State, k: nat)
    requires Sound(s) && k < |s.pending|
    ensures var s1 := Without(s, k);
            Sound(s1) && (ResumesNewest(s) ==> ResumesNewest(s1)) && (Bounded(s) ==> Bounded(s1))
            && (!(s.pending[k].ScanRead? && Wanted(s, s.pending[k])) && ScanAlive(s) ==> ScanAlive(s1))
            && (s.pending[k].ScanRead? && Wanted(s, s.pending[k]) ==> NoScan(s1))
            && (!s.pending[k].ScanRead? && Wanted(s, s.pending[k]) ==> NoShow(s1))
  {
    RemovedReads(s, k);
    RemovedWanted(s, k);
    hide Scratch, Usable, AllUsable, RecOk, ReadOk, ScanAlive, NoScan, NoShow;
    var s1 := Without(s, k);
    assert RecOk(s1) by {
      SameRec(s, s1);
    }
    forall l | 0 <= l < |s1.pending|
      ensures ReadOk(s1, s1.pending[l])
    {
      SameRead(s, s1, s1.pending[l]);
    }
  }

  /** The wanted reads that are left. */
  lemma RemovedWanted(s: State, k: nat)
    requires OneOfAKind(s) && k < |s.pending|
    ensures var s1 := Without(s, k);
            (!(s.pending[k].ScanRead? && Wanted(s, s.pending[k])) && ScanAlive(s) ==> ScanAlive(s1))
            && (s.pending[k].ScanRead? && Wanted(s, s.pending[k]) ==> NoScan(s1))
            && (!s.pending[k].ScanRead? && Wanted(s, s.pending[k]) ==> NoShow(s1))
  {
    var s1 := Without(s, k);
    RemovedReads(s, k);
    if l :| 0 <= l < |s.pending| && l != k && s.pending[l].ScanRead? && Wanted(s, s.pending[l]) {
      assert s1.pending[if l < k then l else l - 1] == s.pending[l];
    }
  }

  lemma RemovedReads(s: State, k: nat)
    requires k < |s.pending|
    ensures var rest := s.pending[..k] + s.pending[k + 1..];
            forall l :: 0 <= l < |rest| ==> rest[l] == s.pending[if l < k then l else l + 1]
  {
  }

  lemma SameRead(s: State, s': State, r: Read)
    requires ReadOk(s, r) && s' == s.(pending := s'.pending)
    ensures ReadOk(s', r)
  {
  }

  lemma CompleteSound(s: State, k: nat)
    requires Inv(s) && k < |s.pending|
    ensures Inv(Complete(s, k))
  {
    var s1, r := Without(s, k), s.pending[k];
    RemovedSound(s, k);
    CompletedAligned(s, k);
    if r.ScanRead? && Wanted(s, r) {
      ScannedReadSound(s, k);
    } else {
      ShowReadInRange(s, k);
      hide RecOk, ReadOk, Scratch, AllUsable, Without;
      if Wanted(s, r) && r.ResumeRead? {
        ShowNewestSound(s1, r.serial);
      }
    }
  }

  lemma ShowReadInRange(s: State, k: nat)
    requires Sound(s) && k < |s.pending|
    ensures var r := s.pending[k];
            !r.ScanRead? && Wanted(s, r) ==> s.live && (r.ShowRead? ==> r.i < s.rec.Frames())
  {
    assert ReadOk(s, s.pending[k]);
  }

  lemma CompletedAligned(s: State, k: nat)
    requires Sound(s) && k < |s.pending|
    ensures s.pending[k].ScanRead? ==> s.pending[k].rec.Aligned()
  {
    assert ReadOk(s, s.pending[k]);
  }

  lemma ScannedReadSound(s: State, k: nat)
    requires Inv(s) && k < |s.pending| && s.pending[k].ScanRead? && Wanted(s, s.pending[k]) && s.pending[k].rec.Aligned()
    ensures Inv(Complete(s, k))
  {
    var s1, r := Without(s, k), s.pending[k];
    RemovedSound(s, k);
    assert ReadOk(s, r);
    BlobsSnoc(s.blobs[..r.j], r.blob);
    assert s.blobs[..r.j + 1] == s.blobs[..r.j] + [r.blob];
    AddedToScratch(s.key, FramesOf(s.blobs[..r.j]), FrameOf(r.blob));
    hide Scratch, AllUsable, Added, ScanFrom, ReadOk;
    ScanFromSound(s1, Added(r.rec, FrameOf(r.blob)), r.j + 1);
  }

  /** Every step keeps the invariant. */
  lemma StepSound(s: State, e: Event)
    requires Inv(s) && Enabled(s, e)
    ensures Inv(Step(s, e))
  {
    hide Scratch, Usable, RecOk, ReadOk, AppendFrame, Complete, ResumeLive, ShowFrame, Rekey;
    match e {
      case Receive(b) => AppendSound(s, b);
      case Completed(k) => CompleteSound(s, k);
      case Pause => PauseSound(s);
      case Resume => ResumeSound(s);
      case Move(i) =>
        PauseSound(s);
        ShowFrameSound(if s.live then PauseLive(s) else s, i);
      case MatchBy(key) => RekeySound(s, key);
      case Load =>
        StopSound(s);
        ScreenSound(StopReplay(s), None);
    }
  }

  lemma PauseSound(s: State)
    requires Inv(s)
    ensures Inv(PauseLive(s))
  {
    hide Scratch, Usable;
  }

  lemma ScreenSound(s: State, screen: Option<nat>)
    requires Inv(s)
    ensures Inv(s.(screen := screen))
  {
    hide Scratch, Usable;
  }

  // ---- whole runs

  lemma InitSound(limit: nat, key: KeyMode)
    ensures Inv(Init(limit, key))
  {
    assert Init(limit, key).blobs[..0] == [];
  }

  ghost predicate Runs(s: State, es: seq<Event>)
    requires Inv(s)
    decreases |es|
  {
    es == [] || (Enabled(s, es[0]) && (StepSound(s, es[0]); Runs(Step(s, es[0]), es[1..])))
  }

  ghost function Run(s: State, es: seq<Event>): (s': State)
    requires Inv(s) && Runs(s, es)
    ensures Inv(s')
    decreases |es|
  {
    if es == [] then s
    else
      StepSound(s, es[0]);
      Run(Step(s, es[0]), es[1..])
  }

  /** The frames received, in order of arrival. */
  function Received(es: seq<Event>): seq<Blob> {
    if es == [] then [] else (if es[0].Receive? then [es[0].blob] else []) + Received(es[1..])
  }

  /** `s'` keeps the newest of the frames `s` kept and `more`. */
  ghost predicate Keeps(s: State, more: seq<Blob>, s': State) {
    s'.limit == s.limit
    && s.dropped <= s'.dropped <= s.dropped + |s.blobs| + |more|
    && s'.blobs == (s.blobs + more)[s'.dropped - s.dropped..]
  }

  lemma TrimKeeps(s: State)
    requires s.rec.Aligned()
    ensures Keeps(s, [], TrimHistory(s))
  {
    var n := DropCountOf(SizesOf(s.blobs), s.limit);
    if s.bytes > s.limit && n > 0 {
      ShowAfterTrimKeeps(Trimmed(s, n), ShiftIndex(s.index, n).1);
    }
    hide DropCountOf, Dropped, ShiftIndex, ShowAfterTrim;
    assert s.blobs + [] == s.blobs == s.blobs[0..];
  }

  lemma FinishKeeps(s: State, rec: Rec)
    requires rec.Aligned()
    ensures Keeps(s, [], FinishScan(s, rec))
  {
    var s0 := s.(scanning := false, rec := rec);
    TrimKeeps(s0);
    ShowAfterScanKeeps(TrimHistory(s0));
    hide TrimHistory, ShowAfterScan, Keeps, Rec.Aligned;
    KeepsByFields(s0, s, [], TrimHistory(s0), FinishScan(s, rec));
  }

  lemma ShowAfterScanKeeps(s: State)
    ensures var s' := ShowAfterScan(s); s'.limit == s.limit && s'.dropped == s.dropped && s'.blobs == s.blobs
  {
  }

  /** Keeping is about the bound and the blobs only. */
  lemma KeepsByFields(s: State, s': State, more: seq<Blob>, t: State, t': State)
    requires Keeps(s, more, t)
    requires s'.limit == s.limit && s'.dropped == s.dropped && s'.blobs == s.blobs
    requires t'.limit == t.limit && t'.dropped == t.dropped && t'.blobs == t.blobs
    ensures Keeps(s', more, t')
  {
  }

  lemma ScanFromKeeps(s: State, token: nat, rec: Rec, j: nat)
    requires rec.Aligned()
    ensures Keeps(s, [], ScanFrom(s, token, rec, j))
  {
    FinishKeeps(s, rec);
    hide FinishScan;
    assert s.blobs + [] == s.blobs == s.blobs[0..];
  }

  lemma RescanKeeps(s: State)
    ensures Keeps(s, [], RescanLive(s))
  {
    ScanFromKeeps(Scanning(s), s.token + 1, Scratch(s.key, []), 0);
    hide ScanFrom, Scratch;
  }

  /** A frame that arrives is the newest of the kept ones. */
  lemma ArrivalKeeps(s: State, b: Blob, s1: State, s2: State)
    requires s1.limit == s.limit && s1.dropped == s.dropped && s1.blobs == s.blobs + [b] && Keeps(s1, [], s2)
    ensures Keeps(s, [b], s2)
  {
    assert s1.blobs + [] == s.blobs + [b];
  }

  lemma AppendKeeps(s: State, b: Blob)
    requires s.rec.Aligned()
    ensures Keeps(s, [b], AppendFrame(s, b))
  {
    hide RescanLive, TrimHistory, Scratch, Added, Keeps, ShowNewest;
    var s1 := s.(blobs := s.blobs + [b], bytes := s.bytes + b.size);
    if !s.live {
      var s2 := StopReplay(s1).(live := true, rec := Scratch(s.key, []));
      RescanKeeps(s2);
      ArrivalKeeps(s, b, s2, RescanLive(s2));
    } else if s.scanning {
      UnmovedKeeps(s1, s1);
      ArrivalKeeps(s, b, s1, s1);
    } else {
      var s2 := s1.(rec := Added(s.rec, FrameOf(b)));
      TrimKeeps(s2);
      ShowNewestKeeps(TrimHistory(s2), s.dropped + |s.blobs|);
      KeepsByFields(s2, s2, [], TrimHistory(s2), AppendFrame(s, b));
      ArrivalKeeps(s, b, s2, AppendFrame(s, b));
    }
  }

  lemma ShowNewestKeeps(s: State, serial: nat)
    ensures var s' := ShowNewest(s, serial); s'.limit == s.limit && s'.dropped == s.dropped && s'.blobs == s.blobs
  {
  }

  lemma CompleteKeeps(s: State, k: nat)
    requires k < |s.pending| && (s.pending[k].ScanRead? ==> s.pending[k].rec.Aligned())
    ensures Keeps(s, [], Complete(s, k))
  {
    hide ScanFrom, Scratch, Added, Keeps, ShowNewest;
    var s1, r := Without(s, k), s.pending[k];
    if r.ScanRead? && r.token == s.token {
      var s2 := ScanFrom(s1, r.token, Added(r.rec, FrameOf(r.blob)), r.j + 1);
      ScanFromKeeps(s1, r.token, Added(r.rec, FrameOf(r.blob)), r.j + 1);
      KeepsByFields(s1, s, [], s2, Complete(s, k));
    } else {
      if r.ResumeRead? {
        ShowNewestKeeps(s1, r.serial);
      }
      UnmovedKeeps(s, Complete(s, k));
    }
  }

  /** The reader's own moves leave the frames alone. */
  lemma ControlKeeps(s: State, e: Event)
    requires Inv(s) && !e.Receive? && !e.Completed? && !e.MatchBy?
    ensures Keeps(s, [], Step(s, e))
  {
    UnmovedKeeps(s, Step(s, e));
    hide Keeps, Inv, Scratch;
  }

  lemma RekeyKeeps(s: State, key: KeyMode)
    ensures Keeps(s, [], Rekey(s, key))
  {
    UnmovedKeeps(s, s);
    RescanKeeps(s.(key := key));
    KeyDoesNotKeep(s, key, RescanLive(s.(key := key)));
    hide Keeps, RescanLive;
  }

  lemma StepKeeps(s: State, e: Event)
    requires Inv(s) && Enabled(s, e)
    ensures Keeps(s, if e.Receive? then [e.blob] else [], Step(s, e))
  {
    hide AppendFrame, Complete, Rekey, Keeps, Sound, ScanAlive, ResumesNewest, Bounded, Scratch;
    AlignedRec(s);
    match e {
      case Receive(b) => AppendKeeps(s, b);
      case Completed(k) =>
        CompletedAligned(s, k);
        CompleteKeeps(s, k);
      case MatchBy(key) => RekeyKeeps(s, key);
      case _ => ControlKeeps(s, e);
    }
  }

  lemma UnmovedKeeps(s: State, s': State)
    requires s'.blobs == s.blobs && s'.dropped == s.dropped && s'.limit == s.limit
    ensures Keeps(s, [], s')
  {
    assert s.blobs + [] == s.blobs == s.blobs[0..];
  }

  lemma KeyDoesNotKeep(s: State, key: KeyMode, s': State)
    requires Keeps(s.(key := key), [], s')
    ensures Keeps(s, [], s')
  {
  }

  lemma KeepsTransitive(s: State, a: seq<Blob>, s1: State, b: seq<Blob>, s2: State)
    requires Keeps(s, a, s1) && Keeps(s1, b, s2)
    ensures Keeps(s, a + b, s2)
  {
    var d := s1.dropped - s.dropped;
    assert (s.blobs + a)[d..] + b == (s.blobs + (a + b))[d..];
  }

  /** No frame is lost: the kept frames are the newest of those received, whatever was being read when they came. */
  lemma {:induction false} KeptAreTheNewestReceived(s: State, es: seq<Event>)
    requires Inv(s) && Runs(s, es)
    ensures Keeps(s, Received(es), Run(s, es))
    decreases |es|
  {
    if es == [] {
      assert s.blobs + [] == s.blobs == s.blobs[0..];
    } else {
      hide Step, Inv, Keeps, Enabled;
      var e := es[0];
      StepSound(s, e);
      StepKeeps(s, e);
      KeptAreTheNewestReceived(Step(s, e), es[1..]);
      KeepsTransitive(s, if e.Receive? then [e.blob] else [], Step(s, e), Received(es[1..]), Run(Step(s, e), es[1..]));
    }
  }

  /**
   * In every run, whenever the history is live and not being read, its recording is the one
   * built from scratch from the newest of the frames received.
   */
  lemma LiveRecordingIsExact(limit: nat, key: KeyMode, es: seq<Event>)
    requires Inv(Init(limit, key)) && Runs(Init(limit, key), es)
    ensures var s := Run(Init(limit, key), es);
            s.dropped <= |Received(es)| && s.blobs == Received(es)[s.dropped..]
            && s.bytes == Sum(SizesOf(s.blobs))
            && (s.live && !s.scanning ==> s.rec == Scratch(s.key, FramesOf(s.blobs)) && (s.bytes <= limit || |s.blobs| == 1))
  {
    KeptAreTheNewestReceived(Init(limit, key), es);
    assert [] + Received(es) == Received(es);
  }

  // ---- what is on screen

  /** The frame the timeline says is on screen is on screen. */
  ghost predicate Labelled(s: State) {
    s.shown >= 0 ==> s.screen == Some(s.dropped + s.shown)
  }

  /** A frame read that is still wanted shows the document of the blob now at its index, even across trims. */
  lemma ShowsTheFrameNowThere(s: State, k: nat)
    requires Inv(s) && k < |s.pending| && s.pending[k].ShowRead? && Wanted(s, s.pending[k])
    ensures var s', r := Complete(s, k), s.pending[k];
            s'.index == s'.shown == r.i < |s'.blobs| && r.blob == s'.blobs[r.i]
            && s'.screen == Some(s'.dropped + r.i) && Labelled(s')
  {
    assert ReadOk(s, s.pending[k]);
  }

  /** The read that resumes is labelled right exactly when no frame has arrived since it began. */
  lemma ResumeLabel(s: State, k: nat)
    requires Inv(s) && k < |s.pending| && s.pending[k].ResumeRead? && Wanted(s, s.pending[k])
    ensures Labelled(Complete(s, k)) <==> s.rec.Frames() == s.pending[k].n
    ensures s.following ==> s.rec.Frames() == s.pending[k].n
  {
    assert ReadOk(s, s.pending[k]);
  }

  /** The event that can put a wrong frame number under the screen: a resume read that frames have overtaken. */
  ghost predicate Overtaken(s: State, e: Event) {
    e.Completed? && e.k < |s.pending| && s.pending[e.k].ResumeRead? && Wanted(s, s.pending[e.k])
    && s.rec.Frames() != s.pending[e.k].n
  }

  lemma ShowLabelled(s: State, wantDropped: bool)
    requires Labelled(s)
    ensures Labelled(ShowAfterTrim(s, wantDropped)) && Labelled(ShowAfterScan(s))
  {
  }

  lemma TrimLabelled(s: State)
    requires s.rec.Aligned() && Labelled(s)
    ensures Labelled(TrimHistory(s))
  {
    var n := DropCountOf(SizesOf(s.blobs), s.limit);
    if s.bytes > s.limit && n > 0 {
      ShowLabelled(Trimmed(s, n), ShiftIndex(s.index, n).1);
    }
    hide ShowAfterTrim, DropCountOf, Dropped, SizesOf, Sum;
  }

  lemma FinishLabelled(s: State, rec: Rec)
    requires rec.Aligned() && Labelled(s)
    ensures Labelled(FinishScan(s, rec))
  {
    var s0 := s.(scanning := false, rec := rec);
    TrimLabelled(s0);
    ShowLabelled(TrimHistory(s0), false);
    hide TrimHistory, ShowAfterScan;
  }

  lemma ScanFromLabelled(s: State, token: nat, rec: Rec, j: nat)
    requires rec.Aligned() && Labelled(s)
    ensures Labelled(ScanFrom(s, token, rec, j))
  {
    FinishLabelled(s, rec);
    hide FinishScan;
  }

  lemma AppendLabelled(s: State, b: Blob)
    requires Inv(s) && Usable(b.doc, s.key) && Labelled(s)
    ensures Labelled(AppendFrame(s, b))
  {
    var s1 := s.(blobs := s.blobs + [b], bytes := s.bytes + b.size);
    hide ScanFrom, TrimHistory, Scratch, Added, Usable, RecOk, ReadOk, ResumesNewest, ScanAlive;
    if !s.live {
      var s2 := Scanning(StopReplay(s1).(live := true, rec := Scratch(s.key, [])));
      ScanFromLabelled(s2, s2.token, Scratch(s.key, []), 0);
    } else if !s.scanning {
      TrimmedFrameLabelled(s, b);
    }
  }

  lemma TrimmedFrameLabelled(s: State, b: Blob)
    requires Inv(s) && Usable(b.doc, s.key) && Labelled(s) && s.live && !s.scanning
    ensures var s1 := s.(blobs := s.blobs + [b], bytes := s.bytes + b.size, rec := Added(s.rec, FrameOf(b)));
            Labelled(TrimHistory(s1)) && TrimHistory(s1).dropped + TrimHistory(s1).rec.Frames() == s.dropped + |s.blobs| + 1
  {
    var s1 := s.(blobs := s.blobs + [b], bytes := s.bytes + b.size, rec := Added(s.rec, FrameOf(b)));
    AddedSound(s, b);
    hide Added, Usable;
    TrimLabelled(s1);
    TrimSound(s1);
    hide TrimHistory;
  }

  /** The label stays right at every step but one: Pause after Resume, and a frame before its read completes. */
  lemma LabelKeptIff(s: State, e: Event)
    requires Inv(s) && Enabled(s, e) && Labelled(s)
    ensures Labelled(Step(s, e)) <==> !Overtaken(s, e)
  {
    hide AppendFrame, Complete, RescanLive, Scratch, RecOk, OneOfAKind, ScanAlive, ResumesNewest, Bounded;
    match e {
      case Receive(b) => AppendLabelled(s, b);
      case Completed(k) => CompleteLabelled(s, k);
      case MatchBy(key) => RescanLabelled(s.(key := key));
      case _ =>
    }
  }

  lemma RescanLabelled(s: State)
    requires Labelled(s)
    ensures Labelled(RescanLive(s))
  {
    ScanFromLabelled(Scanning(s), s.token + 1, Scratch(s.key, []), 0);
    hide ScanFrom, Scratch;
  }

  lemma CompleteLabelled(s: State, k: nat)
    requires Inv(s) && k < |s.pending| && Labelled(s)
    ensures Labelled(Complete(s, k)) <==> !Overtaken(s, Completed(k))
  {
    var r := s.pending[k];
    CompletedAligned(s, k);
    if !Wanted(s, r) {
      hide Inv;
    } else if r.ScanRead? {
      hide Inv, ScanFrom, Added;
      ScanFromLabelled(Without(s, k), r.token, Added(r.rec, FrameOf(r.blob)), r.j + 1);
    } else if r.ResumeRead? {
      ResumeLabel(s, k);
      hide Inv;
    } else {
      ShowsTheFrameNowThere(s, k);
      hide Inv;
    }
  }

  // ---- which request wins

  /** The index a frame read puts on screen when it completes. */
  function Showing(s: State, r: Read): int
    requires !r.ScanRead?
  {
    if r.ShowRead? then r.i else s.rec.Frames() - 1
  }

  ghost predicate WantedFrame(s: State, k: nat)
    requires k < |s.pending|
  {
    !s.pending[k].ScanRead? && Wanted(s, s.pending[k])
  }

  /** A read that puts another frame on screen is still wanted. */
  ghost predicate WantsOther(s: State, i: int) {
    exists k :: 0 <= k < |s.pending| && WantedFrame(s, k) && Showing(s, s.pending[k]) != i
  }

  /** The read of the last kept frame, with which a scan ends. */
  ghost predicate EndsScan(s: State, r: Read) {
    r.ScanRead? && Wanted(s, r) && r.j + 1 == |s.blobs|
  }

  /** A trim would leave all kept frames. */
  predicate FitsBound(s: State) {
    s.bytes <= s.limit || DropCountOf(SizesOf(s.blobs), s.limit) == 0
  }

  /**
   * No request and no frame comes in: reads complete, in any order. A scan may end as long as that
   * neither trims, which renumbers the frames, nor resumes, which asks for the newest.
   */
  ghost predicate QuietStep(s: State, e: Event) {
    e.Completed? && e.k < |s.pending| && (EndsScan(s, s.pending[e.k]) ==> !s.following && FitsBound(s))
  }

  ghost predicate Quiet(s: State, es: seq<Event>)
    requires Inv(s) && Runs(s, es)
    decreases |es|
  {
    es == [] || (QuietStep(s, es[0]) && (StepSound(s, es[0]); Quiet(Step(s, es[0]), es[1..])))
  }

  /** Frame i is asked for: it is on screen, or the read that brings it there is wanted, and no other read is. */
  ghost predicate Wins(s: State, i: int) {
    0 <= s.index == i < s.rec.Frames() && !WantsOther(s, i) && (s.shown == i || !NoShow(s))
  }

  lemma QuietStepWins(s: State, e: Event, i: int)
    requires Inv(s) && Wins(s, i) && QuietStep(s, e)
    ensures Wins(Step(s, e), i)
  {
    var k, r := e.k, s.pending[e.k];
    if !Wanted(s, r) {
      StaleWins(s, k, i);
    } else if r.ScanRead? {
      ScanReadWins(s, k, i);
    } else {
      FrameReadWins(s, k, i);
    }
  }

  lemma StaleWins(s: State, k: nat, i: int)
    requires Inv(s) && Wins(s, i) && k < |s.pending| && !Wanted(s, s.pending[k])
    ensures Wins(Step(s, Completed(k)), i)
  {
    RemovedWins(s, k, i);
    hide Inv, WantsOther, NoShow;
  }

  lemma FrameReadWins(s: State, k: nat, i: int)
    requires Inv(s) && Wins(s, i) && k < |s.pending| && WantedFrame(s, k)
    ensures Wins(Step(s, Completed(k)), i)
  {
    var s1 := Without(s, k);
    assert Showing(s, s.pending[k]) == i;
    RemovedWins(s, k, i);
    BumpedWins(s, s1, i);
    ReadInRange(s, k);
    FrameReadDone(s, k);
    hide Inv, WantsOther, NoShow, Step, Without;
    if s.pending[k].ResumeRead? {
      NoneWanted(ShowNewest(s1, s.pending[k].serial), i);
    }
  }

  lemma FrameReadDone(s: State, k: nat)
    requires Inv(s) && k < |s.pending| && WantedFrame(s, k)
    ensures var s1, r := Without(s, k), s.pending[k];
            Step(s, Completed(k))
            == if r.ShowRead? then s1.(index := r.i, shown := r.i, screen := Some(r.serial)) else ShowNewest(s1, r.serial)
  {
    hide Inv;
  }

  /** A wanted frame read shows a frame of the recording. */
  lemma ReadInRange(s: State, k: nat)
    requires Inv(s) && k < |s.pending| && WantedFrame(s, k)
    ensures 0 <= Showing(s, s.pending[k]) < s.rec.Frames()
  {
    assert ReadOk(s, s.pending[k]);
  }

  lemma NoneWanted(s: State, i: int)
    requires NoShow(s)
    ensures !WantsOther(s, i)
  {
  }

  lemma ScanReadWins(s: State, k: nat, i: int)
    requires Inv(s) && Wins(s, i) && QuietStep(s, Completed(k)) && s.pending[k].ScanRead? && Wanted(s, s.pending[k])
    ensures Wins(Step(s, Completed(k)), i)
  {
    var r := s.pending[k];
    var s1, rec := Without(s, k), Added(r.rec, FrameOf(r.blob));
    assert ReadOk(s, r);
    RemovedWins(s, k, i);
    if r.j + 1 < |s.blobs| {
      hide Inv, ReadOk;
      MorePendingWins(s1, ScanRead(r.token, rec, r.j + 1, s.blobs[r.j + 1]), i);
    } else {
      assert s.live && s.rec.Frames() <= |s.blobs| == rec.Frames();
      OldTokens(s);
      OlderReads(s, k);
      hide Inv, ReadOk, Added, FrameOf;
      ScanEndWins(s1, rec, i);
    }
  }

  lemma OlderReads(s: State, k: nat)
    requires k < |s.pending| && TokensPast(s)
    ensures TokensPast(Without(s, k))
  {
  }

  /** No frame read is ahead of the token. */
  ghost predicate TokensPast(s: State) {
    forall k :: 0 <= k < |s.pending| && !s.pending[k].ScanRead? ==> s.pending[k].token <= s.showToken
  }

  lemma OldTokens(s: State)
    requires Inv(s)
    ensures TokensPast(s)
  {
    forall k | 0 <= k < |s.pending| && !s.pending[k].ScanRead?
      ensures s.pending[k].token <= s.showToken
    {
      assert ReadOk(s, s.pending[k]);
    }
  }

  /** The end of a scan that leaves the frames asks for the frame at the index again, and outdates all other frame reads. */
  lemma ScanEndWins(s: State, rec: Rec, i: int)
    requires s.live && !s.following && FitsBound(s) && TokensPast(s)
    requires rec.Aligned() && 0 <= i == s.index < |s.blobs| == rec.Frames()
    ensures Wins(FinishScan(s, rec), i)
  {
    var s0 := s.(scanning := false, rec := rec, shown := -1);
    assert TrimHistory(s.(scanning := false, rec := rec)) == s.(scanning := false, rec := rec);
    assert FinishScan(s, rec) == ShowFrame(s0, i);
    hide FinishScan, FitsBound;
    NewRequestWins(s0, i);
  }

  lemma NewRequestWins(s: State, i: int)
    requires s.live && 0 <= i < s.rec.Frames() <= |s.blobs| && i != s.shown && TokensPast(s)
    ensures Wins(ShowFrame(s, i), i)
  {
    var s' := ShowFrame(s, i);
    assert s'.pending[|s.pending|] == ShowRead(s'.showToken, i, s.blobs[i], s.dropped + i);
    assert forall k :: 0 <= k < |s.pending| ==> s'.pending[k] == s.pending[k] && !WantedFrame(s', k);
    assert WantedFrame(s', |s.pending|);
  }

  lemma SomeWanted(s: State) returns (k: nat)
    requires !NoShow(s)
    ensures k < |s.pending| && WantedFrame(s, k)
  {
    hide Wanted;
    k :| k < |s.pending| && !s.pending[k].ScanRead? && Wanted(s, s.pending[k]);
  }

  /** A read that has completed is no longer wanted; the others are as before. */
  lemma RemovedWins(s: State, k: nat, i: int)
    requires Inv(s) && Wins(s, i) && k < |s.pending|
    ensures var s1 := Without(s, k);
            !WantsOther(s1, i) && (WantedFrame(s, k) || s1.shown == i || !NoShow(s1))
  {
    hide Inv;
    var s1 := Without(s, k);
    forall l | 0 <= l < |s1.pending| && WantedFrame(s1, l)
      ensures Showing(s1, s1.pending[l]) == i
    {
      var m := if l < k then l else l + 1;
      assert s1.pending[l] == s.pending[m] && WantedFrame(s, m);
    }
    if !NoShow(s) && !WantedFrame(s, k) {
      var m := SomeWanted(s);
      var l := if m < k then m else m - 1;
      assert s1.pending[l] == s.pending[m] && WantedFrame(s1, l);
    }
  }

  lemma MorePendingWins(s: State, r: Read, i: int)
    requires r.ScanRead? && !WantsOther(s, i)
    ensures var s1 := s.(pending := s.pending + [r]);
            !WantsOther(s1, i) && (!NoShow(s) ==> !NoShow(s1))
  {
    var s1 := s.(pending := s.pending + [r]);
    forall l | 0 <= l < |s1.pending| && WantedFrame(s1, l)
      ensures Showing(s1, s1.pending[l]) == i
    {
      assert s1.pending[l] == s.pending[l] && WantedFrame(s, l);
    }
    if !NoShow(s) {
      var m := SomeWanted(s);
      assert s1.pending[m] == s.pending[m] && WantedFrame(s1, m);
    }
  }

  /** Once the token has moved on no frame read is wanted. */
  lemma BumpedWins(s: State, s1: State, i: int)
    requires Inv(s) && s1.showToken == s.showToken && forall r :: r in s1.pending ==> r in s.pending
    ensures NoShow(s1.(showToken := s1.showToken + 1))
  {
    OldTokens(s);
    hide Inv;
    forall l | 0 <= l < |s1.pending|
      ensures s1.pending[l] in s.pending
    {
      assert s1.pending[l] in s1.pending;
    }
  }

  lemma {:induction false} QuietRunWins(s: State, es: seq<Event>, i: int)
    requires Inv(s) && Runs(s, es) && Quiet(s, es) && Wins(s, i)
    ensures Wins(Run(s, es), i)
    decreases |es|
  {
    if es != [] {
      hide Inv, Step, Wins, QuietStep, Enabled;
      StepSound(s, es[0]);
      QuietStepWins(s, es[0], i);
      QuietRunWins(Step(s, es[0]), es[1..], i);
    }
  }

  lemma AskedWins(s: State, i: int)
    requires Inv(s) && s.live && 0 <= i < s.rec.Frames() && (i != s.shown || !WantsOther(s, i))
    ensures Wins(ShowFrame(s, i), i)
  {
    var s' := ShowFrame(s, i);
    OldTokens(s);
    assert s.rec.Frames() <= |s.blobs|;
    hide Inv;
    if i != s.shown {
      NewRequestWins(s, i);
    } else {
      assert forall k :: 0 <= k < |s.pending| ==> WantedFrame(s', k) == WantedFrame(s, k);
    }
  }

  /** The read of another frame completes, and that frame is on screen for good. */
  lemma OtherFrameWins(s: State, k: nat)
    requires Inv(s) && k < |s.pending| && WantedFrame(s, k)
    ensures Enabled(s, Completed(k)) && QuietStep(s, Completed(k))
    ensures var s' := Step(s, Completed(k)); NoShow(s') && s'.shown == Showing(s, s.pending[k])
  {
    RemovedWanted(s, k);
    BumpedWins(s, Without(s, k), 0);
    hide Inv, OneOfAKind, ScanAlive, NoScan;
  }

  lemma ShowFrameInv(s: State, i: int)
    requires Inv(s)
    ensures Inv(ShowFrame(s, i))
  {
    ShowFrameSound(s, i);
    hide ShowFrame, Sound, ScanAlive, Bounded, ResumesNewest;
  }

  lemma OneMoreRuns(s: State, e: Event)
    requires Inv(s) && Enabled(s, e)
    ensures Runs(s, [e]) && Inv(Step(s, e)) && Run(s, [e]) == Step(s, e)
    ensures QuietStep(s, e) ==> Quiet(s, [e])
  {
    StepSound(s, e);
    hide Inv, Step, Enabled, QuietStep;
    assert [e][1..] == [];
    assert Runs(Step(s, e), []) && Quiet(Step(s, e), []);
  }

  lemma StillOther(s: State, i: int) returns (k: nat)
    requires i == s.shown && WantsOther(s, i)
    ensures var s1 := ShowFrame(s, i); k < |s1.pending| && WantedFrame(s1, k) && Showing(s1, s1.pending[k]) != i
  {
    k :| k < |s.pending| && WantedFrame(s, k) && Showing(s, s.pending[k]) != i;
  }

  /** The frame on screen is asked for while another is still wanted there: the read of that one completes. */
  lemma OtherRun(s: State, i: int) returns (es: seq<Event>)
    requires Inv(s) && s.live && 0 <= i < s.rec.Frames() && i == s.shown && WantsOther(s, i)
    ensures var s1 := ShowFrame(s, i);
            Inv(s1) && Runs(s1, es) && Quiet(s1, es) && NoShow(Run(s1, es)) && Run(s1, es).shown != i
  {
    ShowFrameInv(s, i);
    var k := StillOther(s, i);
    hide *;
    var s1 := ShowFrame(s, i);
    OtherFrameWins(s1, k);
    OneMoreRuns(s1, Completed(k));
    es := [Completed(k)];
  }

  /**
   * "The newest request wins" if and only if the frame asked for is not the one on screen, or no read
   * that puts another frame there is wanted: then, and only then, frame i is on screen whenever, after
   * completed reads and no other request, no frame read is wanted any more.
   */
  lemma NewestRequestWinsIff(s: State, i: int)
    requires Inv(s) && s.live && 0 <= i < s.rec.Frames()
    ensures Inv(ShowFrame(s, i))
    ensures var s1 := ShowFrame(s, i);
            (forall es :: Runs(s1, es) && Quiet(s1, es) && NoShow(Run(s1, es)) ==> Run(s1, es).shown == i)
            <==> (i != s.shown || !WantsOther(s, i))
  {
    ShowFrameInv(s, i);
    var s1 := ShowFrame(s, i);
    if i != s.shown || !WantsOther(s, i) {
      AskedWins(s, i);
      forall es | Runs(s1, es) && Quiet(s1, es) && NoShow(Run(s1, es))
        ensures Run(s1, es).shown == i
      {
        QuietRunWins(s1, es, i);
      }
    } else {
      hide Inv, Runs, Quiet, Run, Step, Enabled, QuietStep;
      var es := OtherRun(s, i);
      assert Runs(s1, es) && Quiet(s1, es) && NoShow(Run(s1, es)) && Run(s1, es).shown != i;
    }
  }

  const BLANK := Blob(Doc("", false, []), 1)

  function Blanks(n: nat): (blobs: seq<Blob>)
    ensures |blobs| == n
  {
    seq(n, _ => BLANK)
  }

  /** A live history of n such frames that is not being read. */
  function BlankHistory(limit: nat, key: KeyMode, n: nat, following: bool, index: int, shown: int, showToken: nat,
                    pending: seq<Read>, screen: Option<nat>): State {
    State(limit, following, Blanks(n), n, false, false, false, key, true, Scratch(key, FramesOf(Blanks(n))),
          index, shown, 2, showToken, pending, 0, screen)
  }

  lemma FirstFrame(limit: nat, key: KeyMode)
    requires limit >= 2
    ensures var s := Step(Init(limit, key), Receive(BLANK));
            s.pending == [ScanRead(2, Scratch(key, []), 0, BLANK)]
            && Step(s, Completed(0)) == BlankHistory(limit, key, 1, true, 0, -1, 3, [ResumeRead(3, 1, BLANK, 0)], None)
  {
    var s := Step(Init(limit, key), Receive(BLANK));
    assert s.blobs == [BLANK] == Blanks(1) && s.pending == [ScanRead(2, Scratch(key, []), 0, BLANK)];
    AddedToScratch(key, [], FrameOf(BLANK));
    assert [] + [FrameOf(BLANK)] == FramesOf(Blanks(1));
  }

  /** A run that ends mislabelled: Resume has begun to read the only frame, Pause, a second frame, the read completes. */
  lemma MislabelIsReachable(limit: nat, key: KeyMode)
    requires limit >= 2
    ensures var s1 := AppendFrame(Init(limit, key), BLANK);
            |s1.pending| == 1 && s1.pending[0].ScanRead? && s1.pending[0].rec.Aligned()
            && var s2 := Complete(s1, 0);
               s2.rec.Aligned() && |s2.pending| == 1 && s2.pending[0].ResumeRead?
               && var s3 := PauseLive(s2);
                  var s4 := AppendFrame(s3, BLANK);
                  |s4.pending| == 1 && s4.pending[0].ResumeRead?
                  && Complete(s4, 0).shown == 1 && Complete(s4, 0).screen == Some(0)
  {
    var s1 := AppendFrame(Init(limit, key), BLANK);
    FirstFrame(limit, key);
    ReceiveIsAppend(limit, key);
    CompleteIsStep(s1, 0);
    var s2 := BlankHistory(limit, key, 1, true, 0, -1, 3, [ResumeRead(3, 1, BLANK, 0)], None);
    assert Complete(s1, 0) == s2;
    hide Init, AppendFrame, Complete, Step;
    OvertakenRead(limit, key);
  }

  lemma ReceiveIsAppend(limit: nat, key: KeyMode)
    ensures Step(Init(limit, key), Receive(BLANK)) == AppendFrame(Init(limit, key), BLANK)
  {
    hide AppendFrame, Init;
  }

  lemma CompleteIsStep(s: State, k: nat)
    requires s.rec.Aligned() && (forall l :: 0 <= l < |s.pending| && s.pending[l].ScanRead? ==> s.pending[l].rec.Aligned())
    requires k < |s.pending|
    ensures Step(s, Completed(k)) == Complete(s, k)
  {
    hide Complete;
  }

  /** While the only frame is read again, Pause, and a second frame: the read is labelled as the second. */
  lemma OvertakenRead(limit: nat, key: KeyMode)
    requires limit >= 2
    ensures var s3 := PauseLive(BlankHistory(limit, key, 1, true, 0, -1, 3, [ResumeRead(3, 1, BLANK, 0)], None));
            s3.rec.Aligned() && var s4 := AppendFrame(s3, BLANK);
            |s4.pending| == 1 && s4.pending[0].ResumeRead?
            && Complete(s4, 0).shown == 1 && Complete(s4, 0).screen == Some(0)
  {
    hide Scratch, FramesOf;
  }

  lemma SecondFrame(limit: nat, key: KeyMode)
    requires limit >= 2
    ensures Step(BlankHistory(limit, key, 1, true, 0, 0, 4, [], Some(0)), Receive(BLANK))
         == BlankHistory(limit, key, 2, true, 1, 1, 5, [], Some(1))
  {
    AddedToScratch(key, FramesOf(Blanks(1)), FrameOf(BLANK));
    assert Blanks(1) + [BLANK] == Blanks(2) && FramesOf(Blanks(1)) + [FrameOf(BLANK)] == FramesOf(Blanks(2));
  }

  lemma Resumed(limit: nat, key: KeyMode)
    ensures Step(BlankHistory(limit, key, 1, true, 0, -1, 3, [ResumeRead(3, 1, BLANK, 0)], None), Completed(0))
         == BlankHistory(limit, key, 1, true, 0, 0, 4, [], Some(0))
  {
    hide Scratch;
  }

  lemma AskedTwice(limit: nat, key: KeyMode)
    ensures var s4 := BlankHistory(limit, key, 2, true, 1, 1, 5, [], Some(1));
            var s5 := BlankHistory(limit, key, 2, false, 0, 1, 6, [ShowRead(6, 0, BLANK, 0)], Some(1));
            var s6 := BlankHistory(limit, key, 2, false, 1, 1, 6, [ShowRead(6, 0, BLANK, 0)], Some(1));
            var s7 := BlankHistory(limit, key, 2, false, 0, 0, 6, [], Some(0));
            Step(s4, Move(0)) == s5 && Step(s5, Move(1)) == s6 && Step(s6, Completed(0)) == s7
  {
    hide Scratch;
  }

  /** The states of a run, one after the other. */
  ghost predicate Path(ss: seq<State>, es: seq<Event>) {
    |ss| == |es| + 1 && Inv(ss[0])
    && forall k :: 0 <= k < |es| && Inv(ss[k]) ==> Enabled(ss[k], es[k]) && ss[k + 1] == Step(ss[k], es[k])
  }

  lemma {:induction false} PathRuns(ss: seq<State>, es: seq<Event>)
    requires Path(ss, es)
    ensures Runs(ss[0], es) && Run(ss[0], es) == ss[|es|]
    decreases |es|
  {
    hide Inv, Step, Enabled;
    if es != [] {
      StepSound(ss[0], es[0]);
      PathRuns(ss[1..], es[1..]);
    }
  }

  const TWICE: seq<Event> := [Receive(BLANK), Completed(0), Completed(0), Receive(BLANK), Move(0), Move(1), Completed(0)]

  /** The states it goes through. */
  function TwicePath(limit: nat, key: KeyMode): (ss: seq<State>)
    ensures |ss| == 8
  {
    [Init(limit, key), AppendFrame(Init(limit, key), BLANK),
     BlankHistory(limit, key, 1, true, 0, -1, 3, [ResumeRead(3, 1, BLANK, 0)], None),
     BlankHistory(limit, key, 1, true, 0, 0, 4, [], Some(0)),
     BlankHistory(limit, key, 2, true, 1, 1, 5, [], Some(1)),
     BlankHistory(limit, key, 2, false, 0, 1, 6, [ShowRead(6, 0, BLANK, 0)], Some(1)),
     BlankHistory(limit, key, 2, false, 1, 1, 6, [ShowRead(6, 0, BLANK, 0)], Some(1)),
     BlankHistory(limit, key, 2, false, 0, 0, 6, [], Some(0))]
  }

  lemma TwiceEnabled(limit: nat, key: KeyMode, k: nat)
    requires limit >= 2 && k < 7
    ensures Enabled(TwicePath(limit, key)[k], TWICE[k])
  {
    hide Step, Scratch;
    FirstFrame(limit, key);
  }

  lemma TwiceSteps(limit: nat, key: KeyMode, k: nat)
    requires limit >= 2 && k < 7 && Inv(TwicePath(limit, key)[k])
    ensures TwicePath(limit, key)[k + 1] == Step(TwicePath(limit, key)[k], TWICE[k])
  {
    ReceiveIsAppend(limit, key);
    hide Inv, Step, BlankHistory, AppendFrame, Init, Scratch;
    if k < 4 {
      FirstFrame(limit, key);
      SecondFrame(limit, key);
      Resumed(limit, key);
    } else {
      AskedTwice(limit, key);
    }
  }

  /**
   * A run in which the older request wins: two frames are shown as they arrive, the first is asked for
   * again, then the second, which is on screen; the read of the first completes, and that one stays.
   */
  lemma OlderRequestWins(limit: nat, key: KeyMode)
    requires limit >= 2
    ensures Inv(Init(limit, key)) && Runs(Init(limit, key), TWICE)
    ensures var s := Run(Init(limit, key), TWICE); s.pending == [] && s.live && s.rec.Frames() == 2 && s.shown == 0 == s.index
  {
    hide Inv, Runs, Run, Scratch, Step, Enabled;
    var ss := TwicePath(limit, key);
    assert ss[0] == Init(limit, key);
    InitSound(limit, key);
    assert ss[7] == BlankHistory(limit, key, 2, false, 0, 0, 6, [], Some(0));
    hide TwicePath, Init;
    forall k | 0 <= k < 7 && Inv(ss[k])
      ensures Enabled(ss[k], TWICE[k]) && ss[k + 1] == Step(ss[k], TWICE[k])
    {
      TwiceEnabled(limit, key, k);
      TwiceSteps(limit, key, k);
    }
    PathRuns(ss, TWICE);
  }
}
