/** What a listing of /dev/shm says about the ports and segments of the observed nodes (shm_info.cpp). */
module ShmScan {
  import opened Text
  import opened Model

  const PORT_PREFIXES := ["fastrtps_port", "fastdds_port"]
  const SEGMENT_PREFIXES := ["fastrtps_", "fastdds_"]
  const DATASHARING_PREFIX := "fast_datasharing_"
  const LOCK_SUFFIX := "_el"

  datatype LockState = Held | Free | Missing | UnknownLock

  /** One directory entry; `lock` is what probing `name`_el says. */
  datatype DirEntry = DirEntry(name: string, regular: bool, size: nat, lock: LockState)

  datatype Directory = NotListed | Listed(entries: seq<DirEntry>)

  datatype PortLock = LockHeld | LockOwn | LockAbsent | LockStale | LockUnknown

  datatype ScanInput = ScanInput(
    nodePorts: set<nat>, ownPorts: set<nat>, otherHostParticipants: nat,
    writers: map<string, string>, readers: map<string, string>)

  datatype ShmInfo = ShmInfo(
    listed: bool, checkedPorts: seq<nat>, missingPorts: seq<nat>, unknownPorts: seq<nat>,
    portLocks: map<nat, PortLock>, nodesVisible: bool,
    historyByWriter: map<string, nat>, notificationReaders: set<string>)

  const NO_SCAN := ShmInfo(false, [], [], [], map[], true, map[], {})

  // ---- file names

  /** The first of `prefixes` that starts `s`. */
  function PrefixOf(s: string, prefixes: seq<string>): Option<string> {
    if prefixes == [] then None
    else if prefixes[0] <= s then Some(prefixes[0])
    else PrefixOf(s, prefixes[1..])
  }

  lemma {:induction false} PrefixOfSpec(s: string, prefixes: seq<string>)
    ensures PrefixOf(s, prefixes).None? <==> forall p :: p in prefixes ==> !(p <= s)
    ensures PrefixOf(s, prefixes).Some? ==> PrefixOf(s, prefixes).value in prefixes && PrefixOf(s, prefixes).value <= s
  {
    if prefixes != [] {
      PrefixOfSpec(s, prefixes[1..]);
      var head, tail := prefixes[0], prefixes[1..];
      assert prefixes == [head] + tail;
      assert forall p :: p in tail ==> p in prefixes;
      assert forall p :: p in prefixes ==> p == head || p in tail;
      assert head in prefixes;
    }
  }

  predicate EndsWith(s: string, suffix: string) {
    |s| >= |suffix| && s[|s| - |suffix|..] == suffix
  }

  /** The number text of a port file, if the entry is one. */
  function PortText(e: DirEntry): Option<string> {
    var prefix := PrefixOf(e.name, PORT_PREFIXES);
    if !e.regular || prefix.None? || !(prefix.value <= e.name) || EndsWith(e.name, LOCK_SUFFIX) then None
    else
      var text := e.name[|prefix.value|..];
      if IsDigits(text) then Some(text) else None
  }

  /** Whether the entry is a data-sharing segment. */
  predicate IsDatasharing(e: DirEntry) {
    e.regular && !EndsWith(e.name, LOCK_SUFFIX) && PrefixOf(e.name, PORT_PREFIXES).None?
    && PrefixOf(e.name, SEGMENT_PREFIXES).None? && DATASHARING_PREFIX <= e.name
  }

  lemma LockFileEnd(s: string)
    requires EndsWith(s, LOCK_SUFFIX)
    ensures s[|s| - 1] == 'l'
  {
    assert s[|s| - 3..][2] == s[|s| - 1];
  }

  /** A number's port file, under either name, is recognised with exactly that number's text. */
  lemma PortFileRecognised(e: DirEntry, n: nat)
    requires e.regular && (e.name == PORT_PREFIXES[0] + Dec(n) || e.name == PORT_PREFIXES[1] + Dec(n))
    ensures PortText(e) == Some(Dec(n))
  {
    DecIsDigits(n);
    assert IsDigit(e.name[|e.name| - 1]);
    if EndsWith(e.name, LOCK_SUFFIX) {
      LockFileEnd(e.name);
    }
    PrefixOfSpec(e.name, PORT_PREFIXES);
    assert PORT_PREFIXES[0][4] == 'r' && PORT_PREFIXES[1][4] == 'd';
    if e.name == PORT_PREFIXES[0] + Dec(n) {
      assert PORT_PREFIXES[0] in PORT_PREFIXES && e.name[4] == 'r';
      assert e.name[|PORT_PREFIXES[0]|..] == Dec(n);
    } else {
      assert PORT_PREFIXES[1] in PORT_PREFIXES && e.name[4] == 'd';
      assert e.name[|PORT_PREFIXES[1]|..] == Dec(n);
    }
  }

  /** ... and the only files recognised with a number's text are these two. */
  lemma PortFileNames(e: DirEntry, n: nat)
    requires PortText(e) == Some(Dec(n))
    ensures e.regular && (e.name == PORT_PREFIXES[0] + Dec(n) || e.name == PORT_PREFIXES[1] + Dec(n))
  {
    PrefixOfSpec(e.name, PORT_PREFIXES);
    hide Dec, PrefixOf;
    var prefix := PrefixOf(e.name, PORT_PREFIXES).value;
    assert e.name == prefix + e.name[|prefix|..];
  }

  // ---- the data-sharing segment of an endpoint

  function Hex1(b: Byte): (s: string)
    ensures 1 <= |s| <= 2 && '.' !in s
  {
    if b < 16 then [DIGITS[b]] else Hex2(b)
  }

  /** The GUID prefix: two digits a byte, `.` between the bytes and `_` after the last. */
  function PrefixPart(bs: seq<Byte>): string {
    if bs == [] then "" else Hex2(bs[0]) + (if |bs| > 1 then "." else "_") + PrefixPart(bs[1..])
  }

  /** The entity id: no zero padding. */
  function EntityPart(bs: seq<Byte>): string {
    if bs == [] then "" else Hex1(bs[0]) + (if |bs| > 1 then "." else "") + EntityPart(bs[1..])
  }

  function SegmentName(g: Guid): string {
    DATASHARING_PREFIX + PrefixPart(g[..12]) + EntityPart(g[12..])
  }

  lemma Hex2Injective(a: Byte, b: Byte)
    requires Hex2(a) == Hex2(b)
    ensures a == b
  {
    assert Hex2(a)[0] == Hex2(b)[0] && Hex2(a)[1] == Hex2(b)[1];
    DigitInjective(a / 16, b / 16);
    DigitInjective(a % 16, b % 16);
  }

  lemma HexInjective(a: Byte, b: Byte)
    ensures Hex2(a) == Hex2(b) ==> a == b
    ensures Hex1(a) == Hex1(b) ==> a == b
  {
    if Hex2(a) == Hex2(b) {
      Hex2Injective(a, b);
    }
    if Hex1(a) == Hex1(b) && a < 16 && b < 16 {
      assert Hex1(a)[0] == Hex1(b)[0];
      DigitInjective(a, b);
    }
    hide DIGITS;
  }

  lemma {:induction false} PrefixPartInjective(a: seq<Byte>, b: seq<Byte>)
    requires |a| == |b|
    ensures |PrefixPart(a)| == |PrefixPart(b)| == 3 * |a|
    ensures PrefixPart(a) == PrefixPart(b) ==> a == b
  {
    if a != [] {
      PrefixPartInjective(a[1..], b[1..]);
      if PrefixPart(a) == PrefixPart(b) {
        assert Hex2(a[0]) == PrefixPart(a)[..2] == PrefixPart(b)[..2] == Hex2(b[0]);
        HexInjective(a[0], b[0]);
        assert PrefixPart(a[1..]) == PrefixPart(a)[3..] == PrefixPart(b)[3..] == PrefixPart(b[1..]);
        assert a == [a[0]] + a[1..] == b;
      }
    }
  }

  lemma {:induction false} EntityPartInjective(a: seq<Byte>, b: seq<Byte>)
    requires |a| == |b| && EntityPart(a) == EntityPart(b)
    ensures a == b
  {
    if |a| == 1 {
      assert EntityPart(a) == Hex1(a[0]) && EntityPart(b) == Hex1(b[0]);
      HexInjective(a[0], b[0]);
    } else if |a| > 1 {
      SplitAtFirst(Hex1(a[0]), Hex1(b[0]), EntityPart(a[1..]), EntityPart(b[1..]), '.');
      HexInjective(a[0], b[0]);
      EntityPartInjective(a[1..], b[1..]);
      assert a == [a[0]] + a[1..] == b;
    }
  }

  /** Two endpoints never share a segment name. */
  lemma SegmentNameInjective(a: Guid, b: Guid)
    requires SegmentName(a) == SegmentName(b)
    ensures a == b
  {
    PrefixPartInjective(a[..12], b[..12]);
    var n := |DATASHARING_PREFIX|;
    assert PrefixPart(a[..12]) == SegmentName(a)[n..n + 36] == SegmentName(b)[n..n + 36] == PrefixPart(b[..12]);
    assert EntityPart(a[12..]) == SegmentName(a)[n + 36..] == SegmentName(b)[n + 36..] == EntityPart(b[12..]);
    EntityPartInjective(a[12..], b[12..]);
    assert a == a[..12] + a[12..] == b;
  }

  /** Lower-case digits; the prefix padded to two, the entity id not. */
  lemma HexDigits(b: Byte)
    ensures var digits := "0123456789abcdef";
            Hex2(b) == [digits[b / 16], digits[b % 16]] && Hex1(b) == if b < 16 then [digits[b]] else Hex2(b)
  {
  }

  lemma {:induction false} PrefixAt(bs: seq<Byte>, k: nat)
    requires k < |bs|
    ensures var s := PrefixPart(bs);
            |s| == 3 * |bs| && s[3 * k..3 * k + 2] == Hex2(bs[k]) && s[3 * k + 2] == if k < |bs| - 1 then '.' else '_'
  {
    hide Hex2;
    var rest := PrefixPart(bs[1..]);
    if |bs| > 1 {
      PrefixAt(bs[1..], if k == 0 then 0 else k - 1);
    } else {
      assert rest == "";
    }
    if k > 0 {
      assert PrefixPart(bs)[3 * k..3 * k + 2] == rest[3 * (k - 1)..3 * (k - 1) + 2];
    }
  }

  lemma EntitySpelled(e: seq<Byte>)
    requires |e| == 4
    ensures EntityPart(e) == Hex1(e[0]) + "." + (Hex1(e[1]) + "." + (Hex1(e[2]) + "." + Hex1(e[3])))
  {
    hide Hex1;
    assert EntityPart(e[3..]) == Hex1(e[3]);
    assert EntityPart(e[2..]) == Hex1(e[2]) + "." + EntityPart(e[3..]);
    assert EntityPart(e[1..]) == Hex1(e[1]) + "." + EntityPart(e[2..]);
  }

  /** Where byte k of the prefix stands, with a dot behind it, or an underscore behind the last; then the entity id with dots. */
  lemma SegmentSpelled(g: Guid, k: nat)
    requires k < 12
    ensures var s := SegmentName(g);
            |s| >= 53 && s[..17] == "fast_datasharing_"
            && s[17 + 3 * k..19 + 3 * k] == Hex2(g[k]) && s[19 + 3 * k] == (if k < 11 then '.' else '_')
            && s[53..] == Hex1(g[12]) + "." + (Hex1(g[13]) + "." + (Hex1(g[14]) + "." + Hex1(g[15])))
  {
    EntitySpelled(g[12..]);
    PrefixAt(g[..12], k);
    hide Hex1, Hex2, PrefixPart, EntityPart;
    Placed(DATASHARING_PREFIX, PrefixPart(g[..12]), EntityPart(g[12..]), 3 * k);
  }

  lemma Placed(a: string, b: string, c: string, k: nat)
    requires k + 3 <= |b|
    ensures var s := a + b + c;
            s[..|a|] == a && s[|a| + k..|a| + k + 2] == b[k..k + 2] && s[|a| + k + 2] == b[k + 2] && s[|a| + |b|..] == c
  {
  }

  lemma {:induction false} EntityPartEnd(bs: seq<Byte>)
    requires bs != []
    ensures EntityPart(bs) != "" && EntityPart(bs)[|EntityPart(bs)| - 1] in DIGITS
  {
    if |bs| > 1 {
      EntityPartEnd(bs[1..]);
    }
  }

  lemma SegmentPrefix(s: string)
    requires DATASHARING_PREFIX <= s
    ensures PrefixOf(s, PORT_PREFIXES).None? && PrefixOf(s, SEGMENT_PREFIXES).None?
  {
    assert s[4] == '_';
    assert PORT_PREFIXES[0][4] == SEGMENT_PREFIXES[0][4] == 'r' && PORT_PREFIXES[1][4] == SEGMENT_PREFIXES[1][4] == 'd';
    PrefixOfSpec(s, PORT_PREFIXES);
    PrefixOfSpec(s, SEGMENT_PREFIXES);
  }

  /** A file with an endpoint's segment name is recognised as a data-sharing segment. */
  lemma SegmentRecognised(e: DirEntry, g: Guid)
    requires e.regular && e.name == SegmentName(g)
    ensures IsDatasharing(e)
  {
    EntityPartEnd(g[12..]);
    var head, tail := DATASHARING_PREFIX + PrefixPart(g[..12]), EntityPart(g[12..]);
    assert e.name[|e.name| - 1] == tail[|tail| - 1];
    assert 'l' !in DIGITS;
    if EndsWith(e.name, LOCK_SUFFIX) {
      LockFileEnd(e.name);
    }
    assert DATASHARING_PREFIX <= head <= e.name;
    SegmentPrefix(e.name);
  }

  method DatasharingSegmentName(g: Guid) returns (buf: string)
    ensures buf == SegmentName(g)
  {
    buf := DATASHARING_PREFIX;
    for i := 0 to 12
      invariant buf + PrefixPart(g[i..12]) == DATASHARING_PREFIX + PrefixPart(g[..12])
    {
      assert g[i..12][1..] == g[i + 1..12];
      buf := buf + (Hex2(g[i]) + (if i < 11 then "." else "_"));
    }
    ghost var head := buf;
    assert head == DATASHARING_PREFIX + PrefixPart(g[..12]) by {
      assert PrefixPart(g[12..12]) == "";
    }
    for i := 12 to 16
      invariant buf + EntityPart(g[i..]) == head + EntityPart(g[12..])
    {
      assert g[i..][1..] == g[i + 1..];
      buf := buf + (Hex1(g[i]) + (if i < 15 then "." else ""));
    }
  }

  // ---- the scan

  /** The lock states of the port files with this number text, in listing order. */
  function States(entries: seq<DirEntry>, text: string): seq<LockState> {
    if entries == [] then []
    else
      States(entries[..|entries| - 1], text)
      + (if PortText(entries[|entries| - 1]) == Some(text) then [entries[|entries| - 1].lock] else [])
  }

  function LockOf(states: seq<LockState>): PortLock {
    if states == [] then LockAbsent
    else match states[|states| - 1]
      case Held => LockHeld
      case Free => LockStale
      case Missing => LockAbsent
      case UnknownLock => LockUnknown
  }

  predicate PortMissing(entries: seq<DirEntry>, own: set<nat>, port: nat) {
    port in own || Held !in States(entries, Dec(port))
  }

  /** A lock that is free or unreadable decides nothing: its owner may just have died. */
  predicate PortUndecided(entries: seq<DirEntry>, own: set<nat>, port: nat) {
    var states := States(entries, Dec(port));
    port !in own && Held !in states && (Free in states || UnknownLock in states)
  }

  lemma {:induction false} StatesSource(entries: seq<DirEntry>, text: string, lock: LockState)
    ensures lock in States(entries, text) <==> exists e :: e in entries && PortText(e) == Some(text) && e.lock == lock
  {
    if entries != [] {
      var last := entries[|entries| - 1];
      StatesSource(entries[..|entries| - 1], text, lock);
      assert entries == entries[..|entries| - 1] + [last];
    }
  }

  ghost predicate HistoryHere(entries: seq<DirEntry>, input: ScanInput, guid: string) {
    exists e :: e in entries && IsDatasharing(e) && e.name !in input.readers && e.name in input.writers
                && input.writers[e.name] == guid
  }

  ghost predicate NotificationHere(entries: seq<DirEntry>, input: ScanInput, guid: string) {
    exists e :: e in entries && IsDatasharing(e) && e.name in input.readers && input.readers[e.name] == guid
  }

  /** In ascending order, each once. */
  ghost predicate Rising(ports: seq<nat>) {
    forall i, j :: 0 <= i < j < |ports| ==> ports[i] < ports[j]
  }

  /** What scan_shm() promises about `info`, port by port and endpoint by endpoint. */
  ghost predicate Scanned(entries: seq<DirEntry>, input: ScanInput, info: ShmInfo) {
    info.listed
    && Rising(info.checkedPorts) && Rising(info.missingPorts) && Rising(info.unknownPorts)
    && (forall p :: p in info.checkedPorts <==> p in input.nodePorts)
    && (forall p :: p in info.missingPorts <==> p in input.nodePorts && PortMissing(entries, input.ownPorts, p))
    && (forall p :: p in info.unknownPorts <==> p in input.nodePorts && PortUndecided(entries, input.ownPorts, p))
    && info.portLocks.Keys == input.nodePorts
    && (forall p :: p in input.nodePorts ==>
          info.portLocks[p] == if p in input.ownPorts then LockOwn else LockOf(States(entries, Dec(p))))
    && info.nodesVisible == (info.missingPorts == [] && input.otherHostParticipants == 0)
    && (forall g :: g in info.historyByWriter <==> HistoryHere(entries, input, g))
    && (forall g :: g in info.notificationReaders <==> NotificationHere(entries, input, g))
  }

  /** The sets filled while the directory is read. */
  ghost predicate PortsRead(entries: seq<DirEntry>, held: set<string>, undecided: set<string>, states: map<string, LockState>) {
    forall t: string :: TextRead(States(entries, t), t, held, undecided, states)
  }

  ghost predicate TextRead(s: seq<LockState>, t: string, held: set<string>, undecided: set<string>,
                           states: map<string, LockState>) {
    (t in held <==> Held in s) && (t in undecided <==> Free in s || UnknownLock in s)
    && (t in states <==> s != []) && (t in states ==> states[t] == s[|s| - 1])
  }

  ghost predicate SegmentsRead(entries: seq<DirEntry>, input: ScanInput, histories: map<string, nat>,
                               notifications: set<string>) {
    forall g: string ::
      (g in histories <==> HistoryHere(entries, input, g)) && (g in notifications <==> NotificationHere(entries, input, g))
  }

  lemma StatesSnoc(entries: seq<DirEntry>, e: DirEntry, text: string)
    ensures States(entries + [e], text) == States(entries, text) + (if PortText(e) == Some(text) then [e.lock] else [])
  {
    assert (entries + [e])[..|entries|] == entries;
  }

  lemma OtherEntry(entries: seq<DirEntry>, e: DirEntry)
    requires PortText(e).None?
    ensures forall t :: States(entries + [e], t) == States(entries, t)
  {
    forall t {
      StatesSnoc(entries, e, t);
    }
  }

  lemma OtherEntryRead(entries: seq<DirEntry>, e: DirEntry, held: set<string>, undecided: set<string>,
                       states: map<string, LockState>)
    requires PortText(e).None? && PortsRead(entries, held, undecided, states)
    ensures PortsRead(entries + [e], held, undecided, states)
  {
    OtherEntry(entries, e);
    hide States;
  }

  lemma SegmentsSnoc(entries: seq<DirEntry>, e: DirEntry, input: ScanInput, g: string)
    ensures HistoryHere(entries + [e], input, g) <==> HistoryHere(entries, input, g) || HistoryHere([e], input, g)
    ensures NotificationHere(entries + [e], input, g) <==> NotificationHere(entries, input, g) || NotificationHere([e], input, g)
  {
  }

  lemma NothingRead(input: ScanInput)
    ensures PortsRead([], {}, {}, map[]) && SegmentsRead([], input, map[], {})
  {
  }

  method ReadDirectory(entries: seq<DirEntry>, input: ScanInput)
    returns (held: set<string>, undecided: set<string>, states: map<string, LockState>,
             histories: map<string, nat>, notifications: set<string>)
    ensures PortsRead(entries, held, undecided, states)
    ensures SegmentsRead(entries, input, histories, notifications)
  {
    held, undecided, states, histories, notifications := {}, {}, map[], map[], {};
    NothingRead(input);
    hide PortsRead, SegmentsRead, PortText;
    for i := 0 to |entries|
      invariant PortsRead(entries[..i], held, undecided, states)
      invariant SegmentsRead(entries[..i], input, histories, notifications)
    {
      var e := entries[i];
      assert entries[..i + 1] == entries[..i] + [e];
      var text := PortText(e);
      if text.Some? {
        held, undecided, states := ReadPort(entries[..i], e, text.value, held, undecided, states);
      } else {
        OtherEntryRead(entries[..i], e, held, undecided, states);
      }
      histories, notifications := ReadSegment(entries[..i], e, input, histories, notifications);
    }
    assert entries[..|entries|] == entries;
  }

  method ReadPort(ghost before: seq<DirEntry>, e: DirEntry, text: string,
                  held: set<string>, undecided: set<string>, states: map<string, LockState>)
    returns (held': set<string>, undecided': set<string>, states': map<string, LockState>)
    requires PortText(e) == Some(text) && PortsRead(before, held, undecided, states)
    ensures PortsRead(before + [e], held', undecided', states')
  {
    held' := if e.lock == Held then held + {text} else held;
    undecided' := if e.lock == Free || e.lock == UnknownLock then undecided + {text} else undecided;
    states' := states[text := e.lock];
    forall t: string
      ensures TextRead(States(before + [e], t), t, held', undecided', states')
    {
      StatesSnoc(before, e, t);
      assert TextRead(States(before, t), t, held, undecided, states);
      hide *;
      LockRead(States(before, t), t, e.lock, text, held, undecided, states);
    }
  }

  /** One lock more of the number `text`. */
  lemma LockRead(s: seq<LockState>, t: string, lock: LockState, text: string,
                 held: set<string>, undecided: set<string>, states: map<string, LockState>)
    requires TextRead(s, t, held, undecided, states)
    ensures TextRead(s + (if text == t then [lock] else []), t,
                     if lock == Held then held + {text} else held,
                     if lock == Free || lock == UnknownLock then undecided + {text} else undecided, states[text := lock])
  {
    if t != text {
      assert s + [] == s;
    }
  }

  method ReadSegment(ghost before: seq<DirEntry>, e: DirEntry, input: ScanInput,
                     histories: map<string, nat>, notifications: set<string>)
    returns (histories': map<string, nat>, notifications': set<string>)
    requires SegmentsRead(before, input, histories, notifications)
    ensures SegmentsRead(before + [e], input, histories', notifications')
  {
    histories', notifications' := histories, notifications;
    if IsDatasharing(e) {
      if e.name in input.readers {
        notifications' := notifications + {input.readers[e.name]};
      } else if e.name in input.writers {
        histories' := histories[input.writers[e.name] := e.size];
      }
    }
    forall g: string {
      SegmentsSnoc(before, e, input, g);
    }
    assert e in [e];
  }

  method CheckPort(ghost entries: seq<DirEntry>, input: ScanInput,
                   held: set<string>, undecided: set<string>, states: map<string, LockState>, port: nat)
    returns (isMissing: bool, isUnknown: bool, lock: PortLock)
    requires PortsRead(entries, held, undecided, states)
    ensures isMissing == PortMissing(entries, input.ownPorts, port)
    ensures isUnknown == PortUndecided(entries, input.ownPorts, port)
    ensures lock == if port in input.ownPorts then LockOwn else LockOf(States(entries, Dec(port)))
  {
    var text := Dec(port);
    assert TextRead(States(entries, text), text, held, undecided, states);
    isMissing, isUnknown, lock := false, false, LockAbsent;
    if port in input.ownPorts || text !in held {
      isMissing := true;
      isUnknown := port !in input.ownPorts && text in undecided;
    }
    if port in input.ownPorts {
      lock := LockOwn;
    } else if text in states {
      lock := LockOf([states[text]]);
    }
  }

  lemma {:induction false} HasLeast(ports: set<nat>) returns (least: nat)
    requires ports != {}
    ensures least in ports && forall p :: p in ports ==> least <= p
    decreases ports
  {
    var p :| p in ports;
    if ports == {p} {
      least := p;
    } else {
      var rest := ports - {p};
      var q := HasLeast(rest);
      least := if q < p then q else p;
      forall x | x in ports
        ensures least <= x
      {
        assert x == p || x in rest;
      }
    }
  }

  lemma NoneRising()
    ensures Rising([])
  {
  }

  lemma RisingSnoc(ports: seq<nat>, p: nat)
    requires Rising(ports) && forall q :: q in ports ==> q < p
    ensures Rising(ports + [p])
  {
    var r := ports + [p];
    forall i, j | 0 <= i < j < |r|
      ensures r[i] < r[j]
    {
      assert r[i] == ports[i] && ports[i] in ports;
    }
  }

  /** The next port of the ascending iteration. */
  method Least(ports: set<nat>) returns (least: nat)
    requires ports != {}
    ensures least in ports && forall p :: p in ports && p != least ==> least < p
  {
    ghost var first := HasLeast(ports);
    least :| least in ports && forall p :: p in ports ==> least <= p;
  }

  /** The ports are looked at in ascending order. */
  method CheckPorts(ghost entries: seq<DirEntry>, input: ScanInput,
                    held: set<string>, undecided: set<string>, states: map<string, LockState>)
    returns (checked: seq<nat>, missing: seq<nat>, unknown: seq<nat>, locks: map<nat, PortLock>)
    requires PortsRead(entries, held, undecided, states)
    ensures Rising(checked) && Rising(missing) && Rising(unknown)
    ensures forall p :: p in checked <==> p in input.nodePorts
    ensures forall p :: p in missing <==> p in input.nodePorts && PortMissing(entries, input.ownPorts, p)
    ensures forall p :: p in unknown <==> p in input.nodePorts && PortUndecided(entries, input.ownPorts, p)
    ensures locks.Keys == input.nodePorts
    ensures forall p :: p in locks ==> locks[p] == if p in input.ownPorts then LockOwn else LockOf(States(entries, Dec(p)))
  {
    hide Rising, PortMissing, PortUndecided;
    checked, missing, unknown, locks := [], [], [], map[];
    var rest := input.nodePorts;
    ghost var seen: set<nat> := {};
    NoneRising();
    while rest != {}
      invariant rest <= input.nodePorts && forall p :: p in input.nodePorts <==> p in seen || p in rest
      invariant forall p, q :: p in seen && q in rest ==> p < q
      invariant Rising(checked) && Rising(missing) && Rising(unknown)
      invariant forall p :: p in checked <==> p in seen
      invariant forall p :: p in missing <==> p in seen && PortMissing(entries, input.ownPorts, p)
      invariant forall p :: p in unknown <==> p in seen && PortUndecided(entries, input.ownPorts, p)
      invariant locks.Keys == seen
      invariant forall p :: p in locks ==>
                  locks[p] == if p in input.ownPorts then LockOwn else LockOf(States(entries, Dec(p)))
      decreases rest
    {
      var port := Least(rest);
      RisingSnoc(checked, port);
      RisingSnoc(missing, port);
      RisingSnoc(unknown, port);
      rest := rest - {port};
      seen := seen + {port};
      checked := checked + [port];
      var isMissing, isUnknown, lock := CheckPort(entries, input, held, undecided, states, port);
      if isMissing {
        missing := missing + [port];
      }
      if isUnknown {
        unknown := unknown + [port];
      }
      locks := locks[port := lock];
    }
    assert seen == input.nodePorts;
  }

  method ScanShm(directory: Directory, input: ScanInput) returns (info: ShmInfo)
    ensures directory.NotListed? ==> info == NO_SCAN
    ensures directory.Listed? ==> Scanned(directory.entries, input, info)
  {
    if directory.NotListed? {
      return NO_SCAN;
    }
    var held, undecided, states, histories, notifications := ReadDirectory(directory.entries, input);
    var checked, missing, unknown, locks := CheckPorts(directory.entries, input, held, undecided, states);
    info := ShmInfo(true, checked, missing, unknown, locks,
                    missing == [] && input.otherHostParticipants == 0, histories, notifications);
  }

  // ---- where a participant listens

  /** Whether `counts` names the port for at most one participant (an absent entry is none). */
  predicate Alone(counts: map<nat, nat>, port: nat) {
    port in counts ==> counts[port] <= 1
  }

  function VisibilityOf(ports: set<nat>, proof: set<nat>, info: ShmInfo, counts: map<nat, nat>): ShmVisibility {
    if exists p :: p in ports && p in info.checkedPorts && p in info.missingPorts && p !in info.unknownPorts then NotVisible
    else if (forall p :: p in ports ==> p in info.checkedPorts && p !in info.missingPorts)
         && (exists p :: p in ports && p in proof && Alone(counts, p)) then Visible
    else Unprobed
  }

  /** The loop with its early return decides what VisibilityOf says of the whole sets. */
  method ParticipantShmVisibility(ports: set<nat>, proof: set<nat>, info: ShmInfo, counts: map<nat, nat>)
    returns (v: ShmVisibility)
    ensures v == VisibilityOf(ports, proof, info, counts)
  {
    var allHeld, proven := ports != {}, false;
    var rest := ports;
    while rest != {}
      invariant rest <= ports
      invariant forall p :: p in ports - rest && p in info.checkedPorts && p in info.missingPorts ==> p in info.unknownPorts
      invariant allHeld <==> ports != {} && forall p :: p in ports - rest ==> p in info.checkedPorts && p !in info.missingPorts
      invariant proven <==> exists p :: p in ports - rest && p in info.checkedPorts && p !in info.missingPorts
                                        && p in proof && Alone(counts, p)
      decreases rest
    {
      var port :| port in rest;
      rest := rest - {port};
      if port !in info.checkedPorts {
        allHeld := false;
      } else if port in info.missingPorts {
        if port !in info.unknownPorts {
          return NotVisible;
        }
        allHeld := false;
      } else if port in proof {
        proven := proven || port !in counts || counts[port] <= 1;
      }
    }
    v := if allHeld && proven then Visible else Unprobed;
  }
}
