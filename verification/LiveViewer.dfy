/** The viewer's objects `live` and `replay`, changed by every handler and every completed read (web/app.js). */
module LiveViewer {
  import opened Model
  import opened Recording
  import opened HistoryBound
  import H = LiveHistory

  class LiveViewer {
    // live
    const limit: nat
    var following: bool
    var blobs: seq<H.Blob>
    var bytes: int
    var trimmed: bool
    var shownDropped: bool
    var scanning: bool
    // replay
    var live: bool
    var rec: Rec
    var index: int
    var shown: int
    var token: nat
    var showToken: nat
    // state.key, and the reads under way
    var key: KeyMode
    var pending: seq<H.Read>
    // not in the source: the arrival number of blobs[0], and of the frame drawn
    var dropped: nat
    var screen: Option<nat>

    ghost function View(): H.State
      reads this
    {
      H.State(limit, following, blobs, bytes, trimmed, shownDropped, scanning, key, live, rec, index, shown,
              token, showToken, pending, dropped, screen)
    }

    constructor (limit: nat, key: KeyMode)
      ensures View() == H.Init(limit, key) && H.Inv(View())
    {
      this.limit, this.key := limit, key;
      following, blobs, bytes, trimmed, shownDropped, scanning := true, [], 0, false, false, false;
      live, rec, index, shown, token, showToken := false, H.NO_REC, 0, -1, 0, 0;
      pending, dropped, screen := [], 0, None;
      new;
      H.InitSound(limit, key);
    }

    method ShowFrame(i: int)
      modifies this
      ensures View() == H.ShowFrame(old(View()), i)
    {
      if !live || i < 0 || i >= rec.Frames() || i >= |blobs| {
        return;
      }
      index := i;
      if i == shown {
        return;
      }
      showToken := showToken + 1;
      pending := pending + [H.ShowRead(showToken, i, blobs[i], dropped + i)];
    }

    /** A document is drawn as the newest frame. */
    method ShowNewest(serial: nat)
      modifies this
      ensures View() == H.ShowNewest(old(View()), serial)
    {
      showToken := showToken + 1;
      index, shown, screen := rec.Frames() - 1, rec.Frames() - 1, Some(serial);
    }

    method PauseLive()
      modifies this
      ensures View() == H.PauseLive(old(View()))
    {
      following, shownDropped := false, false;
    }

    method ResumeLive()
      modifies this
      ensures View() == H.ResumeLive(old(View()))
    {
      following, shownDropped := true, false;
      if !live {
        return;
      }
      var n := rec.Frames();
      if scanning || n == 0 || n > |blobs| {
        return;
      }
      showToken := showToken + 1;
      pending := pending + [H.ResumeRead(showToken, n, blobs[n - 1], dropped + n - 1)];
    }

    method DropOldest(n: nat)
      requires n <= |blobs|
      modifies `blobs, `bytes, `dropped, `trimmed
      ensures var s := old(View());
              View() == s.(blobs := s.blobs[n..], bytes := s.bytes - Sum(H.SizesOf(s.blobs[..n])),
                           trimmed := true, dropped := s.dropped + n)
    {
      hide Sum, H.SizesOf;
      bytes := bytes - Sum(H.SizesOf(blobs[..n]));
      blobs, dropped, trimmed := blobs[n..], dropped + n, true;
    }

    /** The marks move with the frames; a dropped one moves to the oldest kept frame, or is off the screen. */
    method ShiftMarks(n: nat) returns (wantDropped: bool)
      modifies `showToken, `index, `shown
      ensures var s := old(View());
              var moved := if s.shown >= 0 then ShiftIndex(s.shown, n) else (-1, true);
              View() == s.(showToken := s.showToken + 1, index := ShiftIndex(s.index, n).0,
                           shown := if moved.1 then -1 else moved.0)
              && wantDropped == ShiftIndex(s.index, n).1
    {
      hide ShiftIndex;
      var want := ShiftIndex(index, n);
      var newShown := if shown >= 0 then ShiftIndex(shown, n) else (-1, true);
      showToken, index, shown := showToken + 1, want.0, if newShown.1 then -1 else newShown.0;
      wantDropped := want.1;
    }

    method Trim(n: nat) returns (wantDropped: bool)
      requires rec.Aligned() && n <= |blobs|
      modifies this
      ensures View() == H.Trimmed(old(View()), n) && wantDropped == ShiftIndex(old(index), n).1
    {
      hide Dropped, Sum, H.SizesOf, ShiftIndex;
      rec := Dropped(rec, n);
      DropOldest(n);
      wantDropped := ShiftMarks(n);
    }

    method TrimHistory()
      requires rec.Aligned()
      modifies this
      ensures View() == H.TrimHistory(old(View()))
    {
      hide H.ShowFrame, Dropped, DropCountOf, Sum, H.SizesOf, ShiftIndex, H.Trimmed;
      if bytes <= limit {
        return;
      }
      var n := DropCount(H.SizesOf(blobs), limit);
      if n == 0 {
        return;
      }
      var wantDropped := Trim(n);
      if following {
        return;
      }
      if wantDropped {
        shownDropped := true;
      }
      if shown != index {
        ShowFrame(index);
      }
    }

    /** The scan's loop from frame j on, up to its next await or its end. */
    method ScanFrom(scan: nat, scanned: Rec, j: nat)
      requires scanned.Aligned()
      modifies this
      ensures View() == H.ScanFrom(old(View()), scan, scanned, j)
    {
      hide H.FinishScan;
      if j < |blobs| {
        pending := pending + [H.ScanRead(scan, scanned, j, blobs[j])];
        return;
      }
      FinishScan(scanned);
    }

    /** After the loop. */
    method FinishScan(scanned: Rec)
      requires scanned.Aligned()
      modifies this
      ensures View() == H.FinishScan(old(View()), scanned)
    {
      hide H.TrimHistory, H.ShowAfterScan;
      scanning, rec := false, scanned;
      TrimHistory();
      ShowAfterScan();
    }

    method ShowAfterScan()
      modifies this
      ensures View() == H.ShowAfterScan(old(View()))
    {
      hide H.ResumeLive, H.ShowFrame;
      if following {
        ResumeLive();
        return;
      }
      var last := rec.Frames() - 1;
      index := if index < last then index else last;
      shown := -1;
      ShowFrame(index);
    }

    method RescanLive()
      modifies this
      ensures View() == H.RescanLive(old(View()))
    {
      hide H.ScanFrom, Scratch;
      token, showToken, scanning := token + 1, showToken + 1, true;
      ScanFrom(token, Scratch(key, []), 0);
    }

    method StopReplay()
      modifies this
      ensures View() == H.StopReplay(old(View()))
    {
      token, showToken := token + 1, showToken + 1;
      live, rec, shown, index := false, H.NO_REC, -1, 0;
      scanning := false;
    }

    method StartHistory()
      modifies this
      ensures View() == H.StartHistory(old(View()))
    {
      StopReplay();
      live, rec := true, Scratch(key, []);
      RescanLive();
    }

    // ---- the events of a page

    /** A document event: the frame is kept, and shown at once while following. */
    method AppendFrame(b: H.Blob)
      requires H.Inv(View()) && H.Usable(b.doc, key)
      modifies this
      ensures View() == H.AppendFrame(old(View()), b) && H.Inv(View())
    {
      H.AppendSound(View(), b);
      Append(b);
    }

    method Append(b: H.Blob)
      requires rec.Aligned()
      modifies this
      ensures View() == H.AppendFrame(old(View()), b)
    {
      hide H.StartHistory, H.TrimHistory, H.ShowNewest, Scratch, Added;
      var serial := dropped + |blobs|;
      blobs, bytes := blobs + [b], bytes + b.size;
      if !live {
        StartHistory();
      } else if !scanning {
        rec := Added(rec, H.FrameOf(b));
        TrimHistory();
        if following {
          ShowNewest(serial);
        }
      }
    }

    method Arrive(r: H.Read)
      requires r.ScanRead? ==> r.rec.Aligned()
      modifies this
      ensures View() == H.Arrived(old(View()), r)
    {
      hide H.ScanFrom, Added, Scratch;
      match r {
        case ScanRead(scan, scanned, j, blob) =>
          if scan == token {
            ScanFrom(scan, Added(scanned, H.FrameOf(blob)), j + 1);
          }
        case ShowRead(show, i, blob, serial) =>
          if show == showToken {
            index, shown, screen := i, i, Some(serial);
          }
        case ResumeRead(show, n, blob, serial) =>
          if show == showToken {
            ShowNewest(serial);
          }
      }
    }

    /** Any of the unfinished reads completes. */
    method Complete(k: nat)
      requires H.Inv(View()) && k < |pending|
      modifies this
      ensures View() == H.Complete(old(View()), k) && H.Inv(View())
    {
      H.CompleteSound(View(), k);
      var r := pending[k];
      assert H.ReadOk(View(), r);
      hide H.Inv, H.Arrived;
      pending := pending[..k] + pending[k + 1..];
      Arrive(r);
    }

    method GoTo(i: int)
      requires H.Inv(View())
      modifies this
      ensures View() == H.GoTo(old(View()), i) && H.Inv(View())
    {
      H.StepSound(View(), H.Move(i));
      hide H.Inv, H.ShowFrame, H.PauseLive;
      if live {
        PauseLive();
      }
      ShowFrame(i);
    }

    method Rekey(newKey: KeyMode)
      requires H.Inv(View())
      modifies this
      ensures View() == H.Rekey(old(View()), newKey)
      ensures old(H.Enabled(View(), H.MatchBy(newKey))) ==> H.Inv(View())
    {
      if H.Enabled(View(), H.MatchBy(newKey)) {
        H.RekeySound(View(), newKey);
      }
      if live && rec.Frames() >= 2 {
        key := newKey;
        RescanLive();
      }
    }

    method LoadOther()
      requires H.Inv(View())
      modifies this
      ensures View() == H.LoadOther(old(View())) && H.Inv(View())
    {
      H.StopSound(View());
      H.ScreenSound(H.StopReplay(View()), None);
      hide H.Inv, H.StopReplay;
      StopReplay();
      screen := None;
    }
  }
}
