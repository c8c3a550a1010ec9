/** What a live page shows (web/app.js): the frame its timeline points at, in every run and across trims. */
module LiveScreen {
  import opened Model
  import opened Recording
  import opened HistoryBound
  import opened LiveHistory

  // ---- the frame the timeline points at

  /** A frame read that is wanted brings the frame at the index; while following, the newest. */
  ghost predicate Reading(s: State, k: nat) {
    k < |s.pending| && WantedFrame(s, k)
    && if s.following then s.pending[k].ResumeRead?
       else s.pending[k].ShowRead? ==> s.pending[k].i == s.index
  }

  ghost predicate BeingRead(s: State) {
    exists k: nat :: Reading(s, k)
  }

  ghost predicate InPlace(s: State) {
    s.shown == s.index && (s.following ==> s.index == s.rec.Frames() - 1)
  }

  ghost predicate IndexOk(s: State) {
    0 <= s.index && (s.index == 0 || s.index < s.rec.Frames())
  }

  /** Nothing but the newest frame is wanted while following. */
  ghost predicate NewestOnly(s: State) {
    s.following ==> forall k :: 0 <= k < |s.pending| && WantedFrame(s, k) ==> s.pending[k].ResumeRead?
  }

  /** Unless the kept frames are being read, the frame at the index is on screen or on its way. */
  ghost predicate Settled(s: State) {
    IndexOk(s) && (s.live ==> s.blobs != [])
    && (s.live && !s.scanning ==> (InPlace(s) || BeingRead(s)) && NewestOnly(s))
  }

  lemma AllFrames(s: State)
    requires Sound(s)
    ensures s.rec.Aligned() && s.rec.Frames() <= |s.blobs| && (s.live && !s.scanning ==> s.rec.Frames() == |s.blobs|)
    ensures s.shown < s.rec.Frames()
  {
  }

  lemma AskedIsRead(s: State, i: int)
    requires s.live && !s.following && 0 <= i < s.rec.Frames() <= |s.blobs|
    ensures var s' := ShowFrame(s, i); s'.index == i && (InPlace(s') || BeingRead(s'))
  {
    if i != s.shown {
      assert Reading(ShowFrame(s, i), |s.pending|);
    }
  }

  lemma ResumedIsRead(s: State)
    requires s.live && !s.scanning && 0 < s.rec.Frames() <= |s.blobs| && TokensPast(s)
    ensures BeingRead(ResumeLive(s)) && NewestOnly(ResumeLive(s))
  {
    assert Reading(ResumeLive(s), |s.pending|);
  }

  lemma SoundTokens(s: State)
    requires Sound(s)
    ensures TokensPast(s)
  {
    forall k | 0 <= k < |s.pending| && !s.pending[k].ScanRead?
      ensures s.pending[k].token <= s.showToken
    {
      assert ReadOk(s, s.pending[k]);
    }
  }

  // ---- across a trim

  /** `s'` is `s` without its oldest n frames, the frame at the index on screen or asked for unless the newest is shown next. */
  ghost predicate TrimmedTo(s: State, n: int, s': State) {
    0 < n < |s.blobs|
    && s'.blobs == s.blobs[n..] && s'.dropped == s.dropped + n && s'.rec.Frames() == s.rec.Frames() - n
    && s'.index == (if s.index < n then 0 else s.index - n)
    && s'.shown == (if s.shown < n then -1 else s.shown - n)
    && s'.screen == s.screen && s'.following == s.following && s'.live == s.live && s'.scanning == s.scanning
    && s'.shownDropped == (s.shownDropped || (!s.following && s.index < n))
    && (!s.following && s'.shown != s'.index ==>
          0 <= s'.index < |s'.blobs| && 0 < |s'.pending|
          && s'.pending[|s'.pending| - 1] == ShowRead(s'.showToken, s'.index, s'.blobs[s'.index], s'.dropped + s'.index))
  }

  lemma TrimmedMoves(s: State, s': State)
    requires TrimmedTo(s, s'.dropped - s.dropped, s')
    ensures s'.dropped > s.dropped
  {
  }

  lemma TrimmedIs(s: State, n: nat)
    requires Sound(s) && s.live && !s.scanning && n == DropCountOf(SizesOf(s.blobs), s.limit) && n > 0 && IndexOk(s)
    ensures var s1 := Trimmed(s, n);
            0 < n < |s.blobs| && s1.blobs == s.blobs[n..] && s1.dropped == s.dropped + n
            && s1.rec.Frames() == s.rec.Frames() - n
            && s1.index == (if s.index < n then 0 else s.index - n)
            && s1.shown == (if s.shown < n then -1 else s.shown - n)
            && s1.screen == s.screen && s1.following == s.following && s1.live == s.live && s1.scanning == s.scanning
            && s1.shownDropped == s.shownDropped && 0 <= s1.index < s1.rec.Frames() == |s1.blobs|
  {
    OldestDropped(s, n);
    AllFrames(s);
    AllFrames(Trimmed(s, n));
    hide Sound, Dropped, DropCountOf, SizesOf, ScanAlive, Bounded, ResumesNewest, Sum;
  }

  /** What a trim puts on screen changes neither the frames nor the indices. */
  lemma AskedAfterTrim(s: State, wantDropped: bool)
    requires s.live && 0 <= s.index < s.rec.Frames() == |s.blobs|
    ensures var s' := ShowAfterTrim(s, wantDropped);
            s' == s.(shownDropped := s.shownDropped || (!s.following && wantDropped),
                     showToken := s'.showToken, pending := s'.pending)
            && (!s.following && s.shown != s.index ==>
                  0 < |s'.pending|
                  && s'.pending[|s'.pending| - 1] == ShowRead(s'.showToken, s.index, s.blobs[s.index], s.dropped + s.index))
  {
  }

  lemma TrimUnfolds(s: State)
    requires s.rec.Aligned()
    ensures var n := DropCountOf(SizesOf(s.blobs), s.limit);
            TrimHistory(s) == if s.bytes <= s.limit || n == 0 then s else ShowAfterTrim(Trimmed(s, n), s.index < n)
  {
    hide Dropped, DropCountOf, SizesOf, Trimmed, ShowAfterTrim;
  }

  /** A trim moves the index and the frame on screen with the frames, and leaves the screen alone. */
  lemma TrimIs(s: State)
    requires Sound(s) && s.live && !s.scanning && IndexOk(s)
    ensures TrimHistory(s) == s || TrimmedTo(s, TrimHistory(s).dropped - s.dropped, TrimHistory(s))
  {
    hide Sound, Dropped, DropCountOf, SizesOf, Trimmed, ShowAfterTrim, TrimHistory, Rec.Frames, Rec.Aligned, IndexOk;
    AlignedRec(s);
    TrimUnfolds(s);
    var n := DropCountOf(SizesOf(s.blobs), s.limit);
    if s.bytes > s.limit && n > 0 {
      TrimmedIs(s, n);
      AskedAfterTrim(Trimmed(s, n), s.index < n);
    }
  }

  lemma TrimSettles(s: State)
    requires Sound(s) && s.live && !s.scanning && IndexOk(s) && s.blobs != []
    ensures var s' := TrimHistory(s);
            s'.live && !s'.scanning && s'.following == s.following && 0 <= s'.index < s'.rec.Frames() == |s'.blobs|
            && (!s.following && (InPlace(s) || BeingRead(s)) ==> InPlace(s') || BeingRead(s'))
  {
    TrimIs(s);
    AllFrames(s);
    hide Sound, TrimHistory;
    var s' := TrimHistory(s);
    if s' != s && !s.following && s'.shown != s'.index {
      assert Reading(s', |s'.pending| - 1);
    }
  }

  lemma FinishSettles(s: State, rec: Rec)
    requires Sound(s.(scanning := false, rec := rec)) && s.live && s.blobs != [] && IndexOk(s) && s.rec.Frames() <= rec.Frames()
    ensures Settled(FinishScan(s, rec))
  {
    var s0 := s.(scanning := false, rec := rec);
    AllFrames(s0);
    TrimSettles(s0);
    TrimSound(s0);
    var s1 := TrimHistory(s0);
    SoundTokens(s1);
    hide Sound, TrimHistory, BeingRead, TokensPast, NewestOnly;
    if s1.following {
      ResumedIsRead(s1);
    } else {
      AskedIsRead(s1.(shown := -1), s1.index);
      NoNewest(FinishScan(s, rec));
    }
  }

  lemma NoNewest(s: State)
    requires !s.following
    ensures NewestOnly(s)
  {
  }

  // ---- every event

  /** A scan that has begun will show a frame at its end. */
  lemma RescanSettles(s: State)
    requires s.live && s.blobs != [] && IndexOk(s)
    ensures Settled(RescanLive(s)) && RescanLive(s).scanning
  {
  }

  /** A frame arrives on a live page that reads none. */
  function Grown(s: State, b: Blob): State
    requires s.rec.Aligned()
  {
    s.(blobs := s.blobs + [b], bytes := s.bytes + b.size, rec := Added(s.rec, FrameOf(b)))
  }

  lemma GrownIs(s: State, b: Blob)
    requires Inv(s) && s.live && !s.scanning && Usable(b.doc, s.key)
    ensures s.rec.Aligned() && Sound(Grown(s, b)) && Grown(s, b).rec.Frames() == s.rec.Frames() + 1 == |s.blobs| + 1
    ensures var s2 := TrimHistory(Grown(s, b));
            AppendFrame(s, b) == if s2.following then ShowNewest(s2, s.dropped + |s.blobs|) else s2
  {
    AllFrames(s);
    GrownIsSound(s, b);
    AppendIs(s, b);
    AllFrames(Grown(s, b));
    hide Inv, Sound, TrimHistory, Added, Rec.Aligned, Rec.Frames, Usable, AppendFrame, ShowNewest;
  }

  lemma GrownIsSound(s: State, b: Blob)
    requires Sound(s) && s.live && !s.scanning && Usable(b.doc, s.key) && s.rec.Aligned()
    ensures Sound(Grown(s, b))
  {
    AddedSound(s, b);
    hide Sound, Added, Usable;
  }

  lemma AppendIs(s: State, b: Blob)
    requires s.live && !s.scanning && s.rec.Aligned()
    ensures var s2 := TrimHistory(Grown(s, b));
            AppendFrame(s, b) == if s2.following then ShowNewest(s2, s.dropped + |s.blobs|) else s2
  {
    hide TrimHistory, Added, Rec.Aligned, Rec.Frames, ShowNewest;
  }

  lemma GrownSettles(s: State, b: Blob)
    requires Inv(s) && Settled(s) && s.live && !s.scanning && Usable(b.doc, s.key)
    ensures Settled(AppendFrame(s, b))
  {
    GrownIs(s, b);
    hide Inv, Sound, TrimHistory, AppendFrame, Usable, InPlace, BeingRead, NewestOnly, Added, ShowNewest;
    var s2 := Grown(s, b);
    GrownInPlace(s, s2);
    TrimSettles(s2);
    TrimSound(s2);
    hide Grown;
    if TrimHistory(s2).following {
      NewestSettles(TrimHistory(s2), s.dropped + |s.blobs|);
    } else {
      NoNewest(TrimHistory(s2));
    }
  }

  lemma GrownInPlace(s: State, s': State)
    requires s' == s.(blobs := s'.blobs, bytes := s'.bytes, rec := s'.rec)
    ensures !s.following && (InPlace(s) || BeingRead(s)) ==> InPlace(s') || BeingRead(s')
  {
    if k: nat :| Reading(s, k) {
      assert !s.following ==> Reading(s', k);
    }
  }

  lemma NewestSettles(s: State, serial: nat)
    requires Sound(s) && s.live && !s.scanning && s.blobs != []
    ensures Settled(ShowNewest(s, serial))
  {
    AllFrames(s);
    SoundTokens(s);
    hide Sound;
  }

  lemma AppendSettles(s: State, b: Blob)
    requires Inv(s) && Settled(s) && Usable(b.doc, s.key)
    ensures Settled(AppendFrame(s, b))
  {
    if s.live && !s.scanning {
      GrownSettles(s, b);
    } else {
      AlignedRec(s);
      hide Inv, Scratch;
      if !s.live {
        var s1 := s.(blobs := s.blobs + [b], bytes := s.bytes + b.size);
        RescanSettles(StopReplay(s1).(live := true, rec := Scratch(s.key, [])));
        hide RescanLive, Settled;
      }
    }
  }

  /** The last kept frame has been read. */
  lemma ScanEndSettles(s: State, k: nat)
    requires Inv(s) && Settled(s) && k < |s.pending| && s.pending[k].ScanRead? && Wanted(s, s.pending[k])
    requires s.pending[k].rec.Aligned() && s.pending[k].j + 1 >= |s.blobs|
    ensures Settled(Complete(s, k))
  {
    var s1, r := Without(s, k), s.pending[k];
    RemovedSound(s, k);
    assert ReadOk(s, r);
    BlobsSnoc(s.blobs[..r.j], r.blob);
    assert s.blobs == s.blobs[..r.j] + [r.blob];
    AddedToScratch(s.key, FramesOf(s.blobs[..r.j]), FrameOf(r.blob));
    AllFrames(s);
    var rec := Added(r.rec, FrameOf(r.blob));
    hide Scratch, AllUsable, Added, ReadOk, RecOk, FinishScan;
    ScannedSound(s1, rec);
    FinishSettles(s1, rec);
    assert Complete(s, k) == FinishScan(s1, rec);
  }

  lemma ShownSettles(s: State, k: nat)
    requires Inv(s) && Settled(s) && k < |s.pending| && WantedFrame(s, k)
    ensures Settled(Complete(s, k))
  {
    FrameReadDone(s, k);
    RemovedSound(s, k);
    RemovedWanted(s, k);
    ShowReadInRange(s, k);
    ReadInRange(s, k);
    var s1, r := Without(s, k), s.pending[k];
    hide Inv, Sound, OneOfAKind;
    if r.ResumeRead? && !s.scanning {
      AllFrames(s1);
      NewestSettles(s1, r.serial);
    }
  }

  lemma StaleSettles(s: State, k: nat)
    requires Inv(s) && Settled(s) && k < |s.pending| && !Wanted(s, s.pending[k])
    ensures Settled(Complete(s, k))
  {
    var s1 := Without(s, k);
    CompletedAligned(s, k);
    RemovedReads(s, k);
    hide Inv;
    if l: nat :| Reading(s, l) {
      assert Reading(s1, if l < k then l else l - 1);
    }
  }

  lemma CompleteSettles(s: State, k: nat)
    requires Inv(s) && Settled(s) && k < |s.pending|
    ensures Settled(Complete(s, k))
  {
    CompletedAligned(s, k);
    var r := s.pending[k];
    if !Wanted(s, r) {
      StaleSettles(s, k);
    } else if !r.ScanRead? {
      ShownSettles(s, k);
    } else if r.j + 1 >= |s.blobs| {
      ScanEndSettles(s, k);
    } else {
      assert ReadOk(s, r);
      hide Inv, ReadOk, Added;
    }
  }

  lemma MoveSettles(s: State, i: int)
    requires Inv(s) && Settled(s)
    ensures Settled(PauseLive(s)) && Settled(GoTo(s, i))
  {
    AllFrames(s);
    hide Inv, Sound;
    var s1 := PauseLive(s);
    if k: nat :| Reading(s, k) {
      assert Reading(s1, k);
    }
    if s.live && 0 <= i < s.rec.Frames() {
      AskedIsRead(s1, i);
    }
  }

  lemma ResumeSettles(s: State)
    requires Inv(s) && Settled(s)
    ensures Settled(ResumeLive(s))
  {
    AllFrames(s);
    SoundTokens(s);
    hide Inv, Sound;
    if s.live && !s.scanning {
      ResumedIsRead(s);
      hide BeingRead;
    }
  }

  /** Every step keeps the page settled. */
  lemma StepSettles(s: State, e: Event)
    requires Inv(s) && Settled(s) && Enabled(s, e)
    ensures Settled(Step(s, e))
  {
    match e {
      case Receive(b) => AppendSettles(s, b);
      case Completed(k) => CompleteSettles(s, k);
      case Pause => MoveSettles(s, 0);
      case Move(i) => MoveSettles(s, i);
      case Resume => ResumeSettles(s);
      case MatchBy(key) =>
        if s.live && s.rec.Frames() >= 2 {
          RescanSettles(s.(key := key));
        }
      case Load =>
    }
  }

  /**
   * A frame that arrives while paused: without a trim nothing else moves; a trim moves the index and the frame on screen
   * with the frames, leaves the screen alone, and asks for the oldest frame left when the one at the index is gone.
   */
  lemma PausedArrival(s: State, b: Blob)
    requires Inv(s) && Settled(s) && Usable(b.doc, s.key) && s.live && !s.scanning && !s.following
    ensures var s' := Step(s, Receive(b));
            if s'.dropped == s.dropped then s' == s.(blobs := s.blobs + [b], bytes := s'.bytes, rec := s'.rec)
            else TrimmedTo(Grown(s, b), s'.dropped - s.dropped, s')
  {
    hide Inv, Sound, TrimHistory, AppendFrame, Usable, InPlace, BeingRead, NewestOnly, Added, TrimmedTo, ShowNewest, Rec.Aligned;
    GrownIs(s, b);
    TrimFlags(Grown(s, b));
    TrimIs(Grown(s, b));
    if TrimHistory(Grown(s, b)) != Grown(s, b) {
      TrimmedMoves(Grown(s, b), TrimHistory(Grown(s, b)));
    }
  }

  /** A trim that keeps the frame on screen keeps its document there, and the timeline on it. */
  lemma KeptFrameStays(s: State, n: int, s': State)
    requires TrimmedTo(s, n, s') && n <= s.shown < |s.blobs|
    ensures s'.shown == s.shown - n && s'.screen == s.screen && s'.blobs[s'.shown] == s.blobs[s.shown]
    ensures s.index == s.shown ==> s'.index == s'.shown
    ensures Labelled(s) <==> Labelled(s')
  {
  }

  // ---- following

  lemma TrimFlags(s: State)
    requires s.rec.Aligned()
    ensures var s' := TrimHistory(s);
            s'.following == s.following
            && s'.shownDropped == (s.shownDropped || (!s.following && s'.dropped > s.dropped && s.index < s'.dropped - s.dropped))
  {
    hide DropCountOf, Dropped, SizesOf, Sum;
  }

  ghost predicate FlagOk(s: State) {
    s.following ==> !s.shownDropped
  }

  /** The flags after anything but Pause, Resume and a move. */
  ghost predicate FlagsAfter(s: State, s': State) {
    s'.following == s.following && FlagOk(s')
    && s'.shownDropped == (s.shownDropped || (!s.following && s'.dropped > s.dropped && s.index < s'.dropped - s.dropped))
  }

  lemma FinishFlags(s: State, rec: Rec)
    requires rec.Aligned() && FlagOk(s)
    ensures FlagsAfter(s, FinishScan(s, rec))
  {
    TrimFlags(s.(scanning := false, rec := rec));
    ShowAfterScanKeeps(TrimHistory(s.(scanning := false, rec := rec)));
    hide TrimHistory;
  }

  lemma ScanFromFlags(s: State, token: nat, rec: Rec, j: nat)
    requires rec.Aligned() && FlagOk(s)
    ensures FlagsAfter(s, ScanFrom(s, token, rec, j))
  {
    FinishFlags(s, rec);
    hide FinishScan;
  }

  lemma RescanFlags(s: State)
    requires FlagOk(s)
    ensures FlagsAfter(s, RescanLive(s)) && (s.blobs != [] ==> RescanLive(s).dropped == s.dropped)
  {
    ScanFromFlags(Scanning(s), s.token + 1, Scratch(s.key, []), 0);
    hide FinishScan, Scratch;
  }

  lemma AppendFlags(s: State, b: Blob)
    requires s.rec.Aligned() && FlagOk(s)
    ensures FlagsAfter(s, AppendFrame(s, b))
  {
    hide RescanLive, TrimHistory, Scratch, Added;
    var s1 := s.(blobs := s.blobs + [b], bytes := s.bytes + b.size);
    if !s.live {
      RescanFlags(StopReplay(s1).(live := true, rec := Scratch(s.key, [])));
    } else if !s.scanning {
      TrimFlags(s1.(rec := Added(s.rec, FrameOf(b))));
    }
  }

  lemma CompleteFlags(s: State, k: nat)
    requires k < |s.pending| && (s.pending[k].ScanRead? ==> s.pending[k].rec.Aligned()) && FlagOk(s)
    ensures FlagsAfter(s, Complete(s, k))
  {
    hide ScanFrom, Added;
    var s1, r := Without(s, k), s.pending[k];
    if r.ScanRead? && r.token == s.token {
      ScanFromFlags(s1, r.token, Added(r.rec, FrameOf(r.blob)), r.j + 1);
    }
  }

  /**
   * Resume follows; Pause and a move on the timeline of a live page stop it; nothing else does either. The same three
   * clear the note that the frame on screen was dropped; a trim of a paused page that drops the frame at the index sets it.
   */
  lemma FlagsIff(s: State, e: Event)
    requires Inv(s) && Enabled(s, e) && FlagOk(s)
    ensures var s' := Step(s, e);
            FlagOk(s')
            && (s'.following <==> e.Resume? || (s.following && !e.Pause? && !(e.Move? && s.live)))
            && (s'.shownDropped <==> !e.Resume? && !e.Pause? && !(e.Move? && s.live)
                                     && (s.shownDropped
                                         || (!s.following && s'.dropped > s.dropped && s.index < s'.dropped - s.dropped)))
  {
    AlignedRec(s);
    hide Inv, AppendFrame, Complete, RescanLive, ShowFrame;
    match e {
      case Receive(b) => AppendFlags(s, b);
      case Completed(k) =>
        CompletedAligned(s, k);
        CompleteFlags(s, k);
      case Resume => ResumeFlags(s);
      case Move(i) => MoveFlags(s, i);
      case MatchBy(key) => RescanFlags(s.(key := key));
      case _ =>
    }
  }

  lemma ResumeFlags(s: State)
    ensures var s' := ResumeLive(s); s'.following && !s'.shownDropped
  {
  }

  lemma MoveFlags(s: State, i: int)
    ensures var s' := GoTo(s, i);
            s'.dropped == s.dropped && s'.following == (s.following && !s.live) && s'.shownDropped == (s.shownDropped && !s.live)
  {
  }

  // ---- scans

  lemma FinishToken(s: State, rec: Rec)
    requires rec.Aligned()
    ensures FinishScan(s, rec).token == s.token
  {
    TrimToken(s.(scanning := false, rec := rec));
    hide TrimHistory;
  }

  lemma ScanFromToken(s: State, token: nat, rec: Rec, j: nat)
    requires rec.Aligned()
    ensures ScanFrom(s, token, rec, j).token == s.token
  {
    FinishToken(s, rec);
    hide FinishScan;
  }

  lemma RescanToken(s: State)
    ensures RescanLive(s).token == s.token + 1
  {
    ScanFromToken(Scanning(s), s.token + 1, Scratch(s.key, []), 0);
    hide ScanFrom, Scratch;
  }

  lemma AppendToken(s: State, b: Blob)
    requires s.rec.Aligned()
    ensures AppendFrame(s, b).token > s.token <==> !s.live
    ensures AppendFrame(s, b).token >= s.token
  {
    hide RescanLive, TrimHistory, Scratch, Added;
    var s1 := s.(blobs := s.blobs + [b], bytes := s.bytes + b.size);
    if !s.live {
      RescanToken(StopReplay(s1).(live := true, rec := Scratch(s.key, [])));
    } else if !s.scanning {
      TrimToken(s1.(rec := Added(s.rec, FrameOf(b))));
    }
  }

  lemma TrimToken(s: State)
    requires s.rec.Aligned()
    ensures TrimHistory(s).token == s.token
  {
    hide Dropped, DropCountOf, SizesOf, Sum;
  }

  lemma CompleteToken(s: State, k: nat)
    requires k < |s.pending| && (s.pending[k].ScanRead? ==> s.pending[k].rec.Aligned())
    ensures Complete(s, k).token == s.token
  {
    hide ScanFrom, Added;
    var s1, r := Without(s, k), s.pending[k];
    if r.ScanRead? && r.token == s.token {
      ScanFromToken(s1, r.token, Added(r.rec, FrameOf(r.blob)), r.j + 1);
    }
  }

  /** A scan is outdated by another load, the first frame of a history, and Match by over at least two frames; by nothing else. */
  lemma OutdatesIff(s: State, e: Event)
    requires Inv(s) && Enabled(s, e)
    ensures Step(s, e).token > s.token
       <==> e.Load? || (e.Receive? && !s.live) || (e.MatchBy? && s.live && s.rec.Frames() >= 2)
    ensures Step(s, e).token >= s.token
  {
    AlignedRec(s);
    hide Inv, AppendFrame, Complete, RescanLive, ShowFrame;
    match e {
      case Receive(b) => AppendToken(s, b);
      case Completed(k) =>
        CompletedAligned(s, k);
        CompleteToken(s, k);
      case Move(i) => ShownToken(PauseLive(s), s, i);
      case MatchBy(key) => RescanToken(s.(key := key));
      case _ =>
    }
  }

  lemma ShownToken(s: State, t: State, i: int)
    ensures ShowFrame(s, i).token == s.token && ShowFrame(t, i).token == t.token
  {
  }

  // ---- whole runs

  lemma {:induction false} RunSettles(s: State, es: seq<Event>)
    requires Inv(s) && Settled(s) && Runs(s, es)
    ensures Settled(LiveHistory.Run(s, es))
    decreases |es|
  {
    if es != [] {
      hide Inv, Step, Settled, Enabled;
      StepSound(s, es[0]);
      StepSettles(s, es[0]);
      RunSettles(Step(s, es[0]), es[1..]);
    }
  }

  lemma {:induction false} RunFlags(s: State, es: seq<Event>)
    requires Inv(s) && FlagOk(s) && Runs(s, es)
    ensures FlagOk(LiveHistory.Run(s, es))
    ensures Resume !in es && !s.following ==> !LiveHistory.Run(s, es).following
    ensures (forall e :: e in es ==> !e.Pause? && !e.Move?) && s.following ==> LiveHistory.Run(s, es).following
    decreases |es|
  {
    if es != [] {
      hide Inv, Step, Enabled, FlagOk;
      var s1 := Step(s, es[0]);
      StepSound(s, es[0]);
      FlagsIff(s, es[0]);
      RunFlags(s1, es[1..]);
      assert forall e :: e in es[1..] ==> e in es;
      assert es[0] in es;
    }
  }

  /** From a move on a live page on nothing follows, whatever arrives, until Resume. */
  lemma MoveStops(s: State, i: int, es: seq<Event>)
    requires Inv(s) && FlagOk(s) && s.live && Runs(s, [Move(i)] + es) && Resume !in es
    ensures !LiveHistory.Run(s, [Move(i)] + es).following
  {
    StepSound(s, Move(i));
    FlagsIff(s, Move(i));
    hide Inv, Step, Enabled, FlagOk;
    assert ([Move(i)] + es)[1..] == es;
    RunFlags(Step(s, Move(i)), es);
  }

  /** Whatever came before, a live page that reads no kept frames shows the frame at its index or is reading it. */
  lemma ShowsOrReads(limit: nat, key: KeyMode, es: seq<Event>)
    requires Inv(Init(limit, key)) && Runs(Init(limit, key), es)
    ensures var s := LiveHistory.Run(Init(limit, key), es);
            FlagOk(s) && (s.live && !s.scanning ==> 0 <= s.index < |s.blobs| && (InPlace(s) || BeingRead(s)) && NewestOnly(s))
  {
    RunSettles(Init(limit, key), es);
    RunFlags(Init(limit, key), es);
    AllFrames(LiveHistory.Run(Init(limit, key), es));
    hide Inv, LiveHistory.Run, Runs, BeingRead, InPlace, NewestOnly;
  }

  /** No resume read of the run is overtaken by a frame. */
  ghost predicate NeverOvertaken(s: State, es: seq<Event>)
    requires Inv(s) && Runs(s, es)
    decreases |es|
  {
    es == [] || (!Overtaken(s, es[0]) && (StepSound(s, es[0]); NeverOvertaken(Step(s, es[0]), es[1..])))
  }

  lemma {:induction false} RunLabelled(s: State, es: seq<Event>)
    requires Inv(s) && Labelled(s) && Runs(s, es) && NeverOvertaken(s, es)
    ensures Labelled(LiveHistory.Run(s, es))
    decreases |es|
  {
    if es != [] {
      hide Inv, Step, Labelled, Enabled, Overtaken;
      StepSound(s, es[0]);
      LabelKeptIff(s, es[0]);
      RunLabelled(Step(s, es[0]), es[1..]);
    }
  }

  /**
   * Once its reads are done, a live page has on screen the frame its timeline points at, and the newest one received
   * while it follows: in every run, whatever was trimmed, unless a frame overtook a read of Resume.
   */
  lemma ScreenIsRight(limit: nat, key: KeyMode, es: seq<Event>)
    requires Inv(Init(limit, key)) && Runs(Init(limit, key), es) && NeverOvertaken(Init(limit, key), es)
    ensures var s, all := LiveHistory.Run(Init(limit, key), es), Received(es);
            s.live && !s.scanning && NoShow(s) ==>
              0 <= s.index < |s.blobs| && s.dropped + s.index < |all| && s.screen == Some(s.dropped + s.index)
              && all[s.dropped + s.index] == s.blobs[s.index]
              && (s.following ==> s.dropped + s.index == |all| - 1)
  {
    ShowsOrReads(limit, key, es);
    RunLabelled(Init(limit, key), es);
    LiveRecordingIsExact(limit, key, es);
    AllFrames(LiveHistory.Run(Init(limit, key), es));
    hide Inv, LiveHistory.Run, Runs, NeverOvertaken, Received, Init, NewestOnly, IndexOk, Scratch, FramesOf, SizesOf, Sum;
  }
}
