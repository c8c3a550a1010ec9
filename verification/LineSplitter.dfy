/** Splitting a file read in chunks into lines with their byte ranges (web/replay.js). */
module LineSplitting {
  import opened Text
  import opened Model

  const NEWLINE: Byte := 10

  type Bytes = seq<Byte>

  /** A line and its byte range in the file; `end` excludes the newline. */
  datatype Line = Line(start: nat, end: nat, bytes: Bytes)

  // ---- the lines of a file, read byte by byte

  /** Where the line under way starts. */
  function Tail(s: Bytes): (t: nat)
    ensures t <= |s|
  {
    if s == [] then 0 else if s[|s| - 1] == NEWLINE then |s| else Tail(s[..|s| - 1])
  }

  /** The lines ended by a newline. */
  function Ended(s: Bytes): seq<Line> {
    if s == [] then []
    else
      var init := s[..|s| - 1];
      Ended(init) + (if s[|s| - 1] == NEWLINE then [Line(Tail(init), |init|, init[Tail(init)..])] else [])
  }

  /** All lines: a last one without a newline counts, an empty one after the last newline does not. */
  function Lines(s: Bytes): seq<Line> {
    Ended(s) + (if Tail(s) < |s| then [Line(Tail(s), |s|, s[Tail(s)..])] else [])
  }

  /** The first newline at or after `from`, or -1. */
  function IndexOfNewline(s: Bytes, from: nat): (i: int)
    requires from <= |s|
    ensures i == -1 ==> NEWLINE !in s[from..]
    ensures i != -1 ==> from <= i < |s| && s[i] == NEWLINE && NEWLINE !in s[from..i]
    decreases |s| - from
  {
    if from == |s| then -1
    else if s[from] == NEWLINE then from
    else
      var i := IndexOfNewline(s, from + 1);
      assert s[from..] == [s[from]] + s[from + 1..];
      assert i != -1 ==> s[from..i] == [s[from]] + s[from + 1..i];
      i
  }

  lemma {:induction false} NoNewline(s: Bytes, t: Bytes)
    requires NEWLINE !in t
    ensures Tail(s + t) == Tail(s) && Ended(s + t) == Ended(s)
  {
    if t == [] {
      assert s + t == s;
    } else {
      var init := t[..|t| - 1];
      assert (s + t)[..|s + t| - 1] == s + init;
      NoNewline(s, init);
    }
  }

  lemma NewlineEnds(s: Bytes)
    ensures Tail(s + [NEWLINE]) == |s| + 1
    ensures Ended(s + [NEWLINE]) == Ended(s) + [Line(Tail(s), |s|, s[Tail(s)..])]
  {
    assert (s + [NEWLINE])[..|s|] == s;
  }

  // ---- the splitter

  class LineSplitter {
    var carry: Option<Bytes>
    var carryStart: nat
    /** The bytes pushed so far. */
    ghost var seen: Bytes

    ghost predicate Valid()
      reads this
    {
      carry == (if Tail(seen) < |seen| then Some(seen[Tail(seen)..]) else None)
      && (carry.Some? ==> carryStart == Tail(seen))
    }

    constructor ()
      ensures Valid() && seen == []
    {
      carry, carryStart, seen := None, 0, [];
    }

    function Joined(tail: Bytes): Bytes
      reads this
    {
      if carry.None? then tail else carry.value + tail
    }

    /** The lines that end in this chunk, whatever part of them came before. */
    method Push(bytes: Bytes, base: nat) returns (lines: seq<Line>)
      requires Valid() && base == |seen|
      modifies this
      ensures Valid() && seen == old(seen) + bytes
      ensures Ended(seen) == old(Ended(seen)) + lines
    {
      hide Tail, Ended, IndexOfNewline;
      ghost var was := seen;
      lines := [];
      var from := 0;
      var i := IndexOfNewline(bytes, 0);
      assert was + bytes[..0] == was;
      while i != -1
        invariant 0 <= from <= |bytes| && i == IndexOfNewline(bytes, from)
        invariant seen == was + bytes[..from] && Valid()
        invariant Ended(seen) == Ended(was) + lines
        decreases |bytes| - from
      {
        var start := if carry.Some? then carryStart else base + from;
        lines := lines + [Line(start, base + i, Joined(bytes[from..i]))];
        Consumed(was, bytes, from, i);
        carry := None;
        from := i + 1;
        seen := was + bytes[..from];
        i := IndexOfNewline(bytes, i + 1);
      }
      Leftover(was, bytes, from);
      assert bytes[..|bytes|] == bytes;
      if from < |bytes| {
        if carry.None? {
          carryStart := base + from;
        }
        carry := Some(Joined(bytes[from..]));
      }
      seen := was + bytes;
    }

    /** What is carried at the end of the file is a line too. */
    method Finish() returns (lines: seq<Line>)
      requires Valid()
      modifies this
      ensures Lines(old(seen)) == Ended(old(seen)) + lines && carry.None?
    {
      if carry.None? {
        return [];
      }
      lines := [Line(carryStart, carryStart + |carry.value|, carry.value)];
      carry := None;
    }
  }

  lemma JoinedSuffix(s: Bytes, more: Bytes, t: nat)
    requires t <= |s|
    ensures (s + more)[t..] == if t < |s| then s[t..] + more else more
  {
  }

  lemma Consumed(was: Bytes, bytes: Bytes, from: nat, i: nat)
    requires from <= i < |bytes| && bytes[i] == NEWLINE && NEWLINE !in bytes[from..i]
    ensures var seen, next := was + bytes[..from], was + bytes[..i + 1];
            var line := (seen + bytes[from..i])[Tail(seen)..];
            Tail(next) == |next| && Ended(next) == Ended(seen) + [Line(Tail(seen), |was| + i, line)]
            && line == (if Tail(seen) < |seen| then seen[Tail(seen)..] + bytes[from..i] else bytes[from..i])
  {
    hide Tail, Ended;
    var seen := was + bytes[..from];
    NoNewline(seen, bytes[from..i]);
    NewlineEnds(seen + bytes[from..i]);
    JoinedSuffix(seen, bytes[from..i], Tail(seen));
    SeenUpTo(was, bytes, from, i);
  }

  lemma SeenUpTo(was: Bytes, bytes: Bytes, from: nat, i: nat)
    requires from <= i < |bytes|
    ensures was + bytes[..from] + bytes[from..i] + [bytes[i]] == was + bytes[..i + 1]
    ensures |was + bytes[..from] + bytes[from..i]| == |was| + i && |was + bytes[..i + 1]| == |was| + i + 1
  {
    assert bytes[..from] + bytes[from..i] == bytes[..i] && bytes[..i] + [bytes[i]] == bytes[..i + 1];
    assert was + bytes[..from] + bytes[from..i] == was + (bytes[..from] + bytes[from..i]);
  }

  lemma Leftover(was: Bytes, bytes: Bytes, from: nat)
    requires from <= |bytes| && NEWLINE !in bytes[from..]
    ensures var seen := was + bytes[..from];
            Tail(was + bytes) == Tail(seen) && Ended(was + bytes) == Ended(seen)
            && (was + bytes)[Tail(seen)..]
            == (if Tail(seen) < |seen| then seen[Tail(seen)..] + bytes[from..] else bytes[from..])
  {
    hide Tail, Ended;
    NoNewline(was + bytes[..from], bytes[from..]);
    JoinedSuffix(was + bytes[..from], bytes[from..], Tail(was + bytes[..from]));
    assert was + bytes[..from] + bytes[from..] == was + bytes;
  }

  // ---- any way of cutting the file

  function Joined(chunks: seq<Bytes>): Bytes {
    if chunks == [] then [] else Joined(chunks[..|chunks| - 1]) + chunks[|chunks| - 1]
  }

  /** The lines do not depend on how the file is cut. */
  method ReadLines(chunks: seq<Bytes>) returns (lines: seq<Line>)
    ensures lines == Lines(Joined(chunks))
  {
    var splitter := new LineSplitter();
    var offset := 0;
    lines := [];
    for k := 0 to |chunks|
      invariant splitter.Valid() && fresh(splitter)
      invariant splitter.seen == Joined(chunks[..k]) && offset == |splitter.seen|
      invariant lines == Ended(splitter.seen)
    {
      assert chunks[..k + 1][..k] == chunks[..k];
      var more := splitter.Push(chunks[k], offset);
      lines := lines + more;
      offset := offset + |chunks[k]|;
    }
    assert chunks[..|chunks|] == chunks;
    var last := splitter.Finish();
    lines := lines + last;
  }

  // ---- what the lines of a file are

  /** A line is the file between its bounds, and has no newline. */
  ghost predicate LineOf(s: Bytes, l: Line) {
    l.start <= l.end <= |s| && l.bytes == s[l.start..l.end] && NEWLINE !in l.bytes
  }

  /** Each line starts after the newline of the one before. */
  ghost predicate Chained(ls: seq<Line>) {
    (ls != [] ==> ls[0].start == 0) && forall k :: 0 < k < |ls| ==> ls[k].start == ls[k - 1].end + 1
  }

  lemma LineGrows(s: Bytes, b: Byte, l: Line)
    requires LineOf(s, l)
    ensures LineOf(s + [b], l)
  {
    assert (s + [b])[l.start..l.end] == s[l.start..l.end];
  }

  ghost predicate EndsBefore(ls: seq<Line>, tail: nat) {
    tail == if ls == [] then 0 else ls[|ls| - 1].end + 1
  }

  lemma ChainedSnoc(ls: seq<Line>, tail: nat, l: Line)
    requires Chained(ls) && EndsBefore(ls, tail) && l.start == tail
    ensures Chained(ls + [l]) && EndsBefore(ls + [l], l.end + 1)
  {
  }

  lemma SuffixSnoc(s: Bytes, b: Byte, t: nat)
    requires t <= |s|
    ensures (s + [b])[t..] == s[t..] + [b]
  {
  }

  lemma {:induction false} EndedRanges(s: Bytes)
    ensures forall l :: l in Ended(s) ==> LineOf(s, l)
    ensures Chained(Ended(s)) && EndsBefore(Ended(s), Tail(s)) && NEWLINE !in s[Tail(s)..]
  {
    if s != [] {
      hide Tail, Ended;
      var init, b := s[..|s| - 1], s[|s| - 1];
      assert s == init + [b];
      EndedRanges(init);
      RangesSnoc(init, b);
    }
  }

  lemma RangesSnoc(s: Bytes, b: Byte)
    requires forall l :: l in Ended(s) ==> LineOf(s, l)
    requires Chained(Ended(s)) && EndsBefore(Ended(s), Tail(s)) && NEWLINE !in s[Tail(s)..]
    ensures forall l :: l in Ended(s + [b]) ==> LineOf(s + [b], l)
    ensures Chained(Ended(s + [b])) && EndsBefore(Ended(s + [b]), Tail(s + [b])) && NEWLINE !in (s + [b])[Tail(s + [b])..]
  {
    var line := Line(Tail(s), |s|, s[Tail(s)..]);
    assert LineOf(s, line);
    hide LineOf, Tail, Ended, Chained, EndsBefore;
    forall l | l in Ended(s) || l == line
      ensures LineOf(s + [b], l)
    {
      LineGrows(s, b, l);
    }
    if b == NEWLINE {
      NewlineEnds(s);
      ChainedSnoc(Ended(s), Tail(s), line);
      assert (s + [b])[|s| + 1..] == [];
    } else {
      NoNewline(s, [b]);
      SuffixSnoc(s, b, Tail(s));
    }
  }

  function Unsplit(ls: seq<Line>): Bytes {
    if ls == [] then [] else Unsplit(ls[..|ls| - 1]) + ls[|ls| - 1].bytes + [NEWLINE]
  }

  lemma UnsplitSnoc(ls: seq<Line>, l: Line)
    ensures Unsplit(ls + [l]) == Unsplit(ls) + l.bytes + [NEWLINE]
  {
    assert (ls + [l])[..|ls|] == ls;
  }

  /** Lines and newlines put together again, with what follows the last newline, are the file. */
  lemma {:induction false} LinesAddUp(s: Bytes)
    ensures s == Unsplit(Ended(s)) + s[Tail(s)..]
  {
    if s != [] {
      hide Unsplit, Tail, Ended;
      var init, b := s[..|s| - 1], s[|s| - 1];
      assert s == init + [b];
      LinesAddUp(init);
      AddsUpSnoc(init, b);
    }
  }

  lemma AddsUpSnoc(s: Bytes, b: Byte)
    requires s == Unsplit(Ended(s)) + s[Tail(s)..]
    ensures s + [b] == Unsplit(Ended(s + [b])) + (s + [b])[Tail(s + [b])..]
  {
    hide Unsplit, Tail, Ended;
    var u, rest := Unsplit(Ended(s)), s[Tail(s)..];
    if b == NEWLINE {
      NewlineEnds(s);
      UnsplitSnoc(Ended(s), Line(Tail(s), |s|, rest));
      assert (s + [b])[|s| + 1..] == [];
      assert s + [b] == u + rest + [b];
    } else {
      NoNewline(s, [b]);
      SuffixSnoc(s, b, Tail(s));
      assert s + [b] == u + (rest + [b]);
    }
  }

  /** The ranges are those of the lines, in order, with one newline between two and at most one after the last. */
  lemma LineRanges(s: Bytes)
    ensures forall l :: l in Lines(s) ==> LineOf(s, l)
    ensures Chained(Lines(s)) && (Lines(s) == [] <==> s == [])
    ensures s != [] ==> Lines(s)[|Lines(s)| - 1].end == if s[|s| - 1] == NEWLINE then |s| - 1 else |s|
  {
    EndedRanges(s);
    LinesAddUp(s);
    TailIsWhole(s);
    hide Tail, Ended, Unsplit;
  }

  lemma TailIsWhole(s: Bytes)
    ensures s == [] ==> Ended(s) == [] && Tail(s) == 0
    ensures s != [] ==> (Tail(s) == |s| <==> s[|s| - 1] == NEWLINE)
    ensures s != [] && s[|s| - 1] == NEWLINE ==> Ended(s) != []
  {
  }
}
