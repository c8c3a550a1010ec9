/** The numbered stream of live documents, its connections, and the viewer's count (web/serve.py, web/replay.js). */
module StreamNumbering {
  import opened Model

  // ---- the server

  /** The newest document and its number; `ended` is what the producer left behind when it stopped. A line `null` is None. */
  datatype Server = Server(latest: Option<string>, count: nat, ended: Option<string>)

  datatype SseEvent = Document(id: nat, doc: string) | Status(message: string)

  /** One serve_events() call: the number last sent, whether it returned, and what it sent that has not arrived. */
  datatype Connection = Connection(seen: nat, done: bool, pipe: seq<SseEvent>)

  const NEW_CONNECTION := Connection(0, false, [])

  /** One turn of the loop of serve_events(). */
  function Turn(s: Server, c: Connection): Connection {
    var c1 := if s.count != c.seen && s.latest.Some? then
                c.(seen := s.count, pipe := c.pipe + [Document(s.count, s.latest.value)])
              else c;
    if s.ended.Some? then c1.(pipe := c1.pipe + [Status(s.ended.value)], done := true) else c1
  }

  class Stream {
    var latest: Option<string>
    var count: nat
    var ended: Option<string>

    function View(): Server
      reads this
    {
      Server(latest, count, ended)
    }

    constructor ()
      ensures View() == Server(None, 0, None)
    {
      latest, count, ended := None, 0, None;
    }

    method Push(doc: Option<string>)
      modifies this
      ensures View() == Server(doc, old(count) + 1, old(ended))
    {
      latest := doc;
      count := count + 1;
    }

    method End(message: string)
      modifies this
      ensures View() == old(View()).(ended := Some(message))
    {
      ended := Some(message);
    }

    /** What wait() returns once a newer document exists, the stream ended or the time is up. */
    method Wait(seen: nat) returns (count': nat, latest': Option<string>, ended': Option<string>)
      ensures Server(latest', count', ended') == View()
    {
      return count, latest, ended;
    }
  }

  class EventHandler {
    var seen: nat
    var done: bool
    var pipe: seq<SseEvent>

    function View(): Connection
      reads this
    {
      Connection(seen, done, pipe)
    }

    constructor ()
      ensures View() == NEW_CONNECTION
    {
      seen, done, pipe := 0, false, [];
    }

    method ServeOnce(stream: Stream)
      requires !done
      modifies this
      ensures View() == Turn(stream.View(), old(View()))
    {
      var count, latest, ended := stream.Wait(seen);
      if count != seen && latest.Some? {
        seen := count;
        pipe := pipe + [Document(count, latest.value)];
      }
      if ended.Some? {
        pipe := pipe + [Status(ended.value)];
        done := true;
      }
    }
  }

  // ---- the viewer

  datatype Ids = Ids(last: Option<int>, skipped: int, restarts: nat)

  const NO_IDS := Ids(None, 0, 0)

  datatype Kind = New | Duplicate | Restart

  /** trackId(); an event without an id is None. */
  function Track(t: Ids, id: Option<int>): (Ids, Kind) {
    if id.None? then (t, New)
    else if t.last.None? then (t.(last := id), New)
    else if id == t.last then (t, Duplicate)
    else if id.value < t.last.value then (t.(last := id, restarts := t.restarts + 1), Restart)
    else (t.(skipped := t.skipped + id.value - t.last.value - 1, last := id), New)
  }

  class StreamIds {
    var last: Option<int>
    var skipped: int
    var restarts: nat

    function View(): Ids
      reads this
    {
      Ids(last, skipped, restarts)
    }

    constructor ()
      ensures View() == NO_IDS
    {
      last, skipped, restarts := None, 0, 0;
    }

    method TrackId(id: Option<int>) returns (kind: Kind)
      modifies this
      ensures (View(), kind) == Track(old(View()), id)
    {
      if id.None? {
        return New;
      }
      if last.None? {
        last := id;
        return New;
      }
      if id == last {
        return Duplicate;
      }
      if id.value < last.value {
        last, restarts := id, restarts + 1;
        return Restart;
      }
      skipped := skipped + id.value - last.value - 1;
      last := id;
      return New;
    }
  }

  // ---- servers one after the other, with a viewer that may lose its connection at any moment

  /**
   * `before` is what the viewer had counted when this server started, `first` the number of the first
   * document it received from this server, `taken` the documents of this server it took.
   */
  datatype World = World(
    server: Server, pushed: seq<Option<string>>, before: Ids, first: Option<int>,
    conn: Option<Connection>, ids: Ids, taken: seq<(int, string)>, closed: bool)

  function Fresh(ids: Ids): World {
    World(Server(None, 0, None), [], ids, None, None, ids, [], false)
  }

  const START := Fresh(NO_IDS)

  datatype Event = Push(doc: Option<string>) | End(message: string) | Serve | Arrive | Lose | Connect | NewServer

  ghost predicate Enabled(w: World, e: Event) {
    match e
    case Push(_) => w.server.ended.None?
    case End(_) => w.server.ended.None?
    case Serve => w.conn.Some? && !w.conn.value.done
    case Arrive => w.conn.Some? && w.conn.value.pipe != []
    case Lose => w.conn.Some?
    case Connect => w.conn.None? && !w.closed
    case NewServer => !w.closed
  }

  /** The viewer's side of a document. */
  function Took(w: World, id: int, doc: string): World {
    var (ids, kind) := Track(w.ids, Some(id));
    w.(ids := ids, first := if w.first.Some? then w.first else Some(id),
       taken := if kind.Duplicate? then w.taken else w.taken + [(id, doc)])
  }

  /** An event arrives: a document is taken unless it is a duplicate, a status closes the source. */
  function Arrived(w: World, c: Connection): World
    requires c.pipe != []
  {
    var rest := Some(c.(pipe := c.pipe[1..]));
    match c.pipe[0]
    case Document(id, doc) =>
      Took(w, id, doc).(conn := rest)
    case Status(_) => w.(conn := None, closed := true)
  }

  function Step(w: World, e: Event): World
    requires Enabled(w, e)
  {
    match e
    case Push(doc) => w.(server := Server(doc, w.server.count + 1, w.server.ended), pushed := w.pushed + [doc])
    case End(m) => w.(server := w.server.(ended := Some(m)))
    case Serve => w.(conn := Some(Turn(w.server, w.conn.value)))
    case Arrive => Arrived(w, w.conn.value)
    case Lose => w.(conn := None)
    case Connect => w.(conn := Some(NEW_CONNECTION))
    case NewServer => Fresh(w.ids)
  }

  // ---- invariant

  /** The last number heard of this server, 0 before the first: what the next document has to exceed, or reach again. */
  function Heard(first: Option<int>, ids: Ids): int {
    if first.Some? && ids.last.Some? then ids.last.value else 0
  }

  /** The first document of this server has a lower number than the last one of the servers before it. */
  predicate Lower(before: Ids, first: Option<int>) {
    first.Some? && before.last.Some? && first.value < before.last.value
  }

  /** The number the viewer counts on from: that of an earlier server, unless there was none or it is seen to be gone. */
  function Base(before: Ids, first: int): int {
    if before.last.None? || first < before.last.value then first - 1 else before.last.value
  }

  ghost predicate ServerSound(w: World) {
    w.server.count == |w.pushed|
    && w.server.latest == (if w.pushed == [] then None else w.pushed[|w.pushed| - 1])
  }

  /** What is on the way: rising numbers up to the last one sent, then at most a status, sent after the final document. */
  ghost predicate PipeSound(s: Server, pushed: seq<Option<string>>, last: int, c: Connection) {
    c.seen <= |pushed|
    && (forall i :: 0 <= i < |c.pipe| && c.pipe[i].Document? ==>
          0 < c.pipe[i].id <= c.seen && last <= c.pipe[i].id && pushed[c.pipe[i].id - 1] == Some(c.pipe[i].doc))
    && (forall i, j :: 0 <= i < j < |c.pipe| && c.pipe[j].Document? ==> c.pipe[i].Document? && c.pipe[i].id < c.pipe[j].id)
    && (forall i :: 0 <= i < |c.pipe| && c.pipe[i].Status? ==>
          i == |c.pipe| - 1 && c.done && s.ended.Some? && (s.latest.Some? ==> c.seen == s.count))
    && (c.done ==> c.pipe == [] || c.pipe[|c.pipe| - 1].Status?)
    && (c.seen > 0 ==> last == c.seen || exists i :: 0 <= i < |c.pipe| && c.pipe[i].Document? && c.pipe[i].id == c.seen)
  }

  ghost predicate TakenSound(pushed: seq<Option<string>>, before: Ids, first: Option<int>, ids: Ids,
                             taken: seq<(int, string)>) {
    var n := |taken|;
    Heard(first, ids) <= |pushed|
    && (forall i :: 0 <= i < n ==> IsPushed(pushed, taken[i]))
    && (forall i, j :: 0 <= i < j < n ==> taken[i].0 < taken[j].0)
    && (if first.None? then ids == before && taken == [] else Counted(before, first.value, ids, taken))
  }

  /** The counters after the first document of a server: at most one restart, and nothing between base and last left out. */
  ghost predicate Counted(before: Ids, first: int, ids: Ids, taken: seq<(int, string)>) {
    var n := |taken|;
    0 < first && ids.last.Some? && first <= ids.last.value
    && ids.restarts == before.restarts + (if Lower(before, Some(first)) then 1 else 0)
    && (if before.last == Some(first) then forall i :: 0 <= i < n ==> first < taken[i].0
        else n > 0 && taken[0].0 == first)
    && (if n == 0 then ids.last.value == first else ids.last.value == taken[n - 1].0)
    && n + (ids.skipped - before.skipped) == ids.last.value - Base(before, first)
  }

  /** A document under its number. */
  ghost predicate IsPushed(pushed: seq<Option<string>>, d: (int, string)) {
    0 < d.0 <= |pushed| && pushed[d.0 - 1] == Some(d.1)
  }

  ghost predicate Inv(w: World) {
    ServerSound(w) && TakenSound(w.pushed, w.before, w.first, w.ids, w.taken)
    && (w.conn.Some? ==> PipeSound(w.server, w.pushed, Heard(w.first, w.ids), w.conn.value) && !w.closed)
    && (w.closed ==> w.server.ended.Some? && (w.server.latest.Some? ==> Heard(w.first, w.ids) == w.server.count))
  }

  lemma StepKeeps(w: World, e: Event)
    requires Inv(w) && Enabled(w, e)
    ensures Inv(Step(w, e))
  {
    hide PipeSound, TakenSound;
    match e {
      case Push(doc) => PushKeeps(w, doc);
      case Serve => TurnKeeps(w);
      case Arrive => ArriveKeeps(w);
      case End(m) => EndKeeps(w, m);
      case Connect => ConnectKeeps(w);
      case NewServer => FreshSound(w.ids);
      case _ =>
    }
  }

  lemma FreshSound(ids: Ids)
    ensures Inv(Fresh(ids))
  {
  }

  lemma EndKeeps(w: World, m: string)
    requires Inv(w) && w.server.ended.None?
    ensures Inv(Step(w, End(m)))
  {
  }

  lemma ConnectKeeps(w: World)
    requires Inv(w) && Enabled(w, Connect)
    ensures Inv(Step(w, Connect))
  {
  }

  lemma PushKeeps(w: World, doc: Option<string>)
    requires Inv(w) && w.server.ended.None?
    ensures Inv(Step(w, Push(doc)))
  {
    var w' := Step(w, Push(doc));
    assert forall i :: 0 <= i < |w.pushed| ==> w'.pushed[i] == w.pushed[i];
    assert forall i :: 0 <= i < |w.taken| ==> IsPushed(w.pushed, w.taken[i]);
  }

  lemma SendKeeps(s: Server, pushed: seq<Option<string>>, last: int, c: Connection)
    requires PipeSound(s, pushed, last, c) && !c.done && last <= s.count == |pushed| && s.count != c.seen
    requires s.latest.Some? && pushed != [] && pushed[|pushed| - 1] == s.latest
    ensures PipeSound(s, pushed, last, c.(seen := s.count, pipe := c.pipe + [Document(s.count, s.latest.value)]))
  {
    var c' := c.(seen := s.count, pipe := c.pipe + [Document(s.count, s.latest.value)]);
    assert c'.pipe[|c.pipe|] == Document(s.count, s.latest.value);
  }

  lemma StatusKeeps(s: Server, pushed: seq<Option<string>>, last: int, c: Connection)
    requires PipeSound(s, pushed, last, c) && !c.done && s.ended.Some? && (s.latest.Some? ==> c.seen == s.count)
    ensures PipeSound(s, pushed, last, c.(pipe := c.pipe + [Status(s.ended.value)], done := true))
  {
    var c' := c.(pipe := c.pipe + [Status(s.ended.value)], done := true);
    assert forall i :: 0 <= i < |c.pipe| ==> c'.pipe[i] == c.pipe[i];
  }

  lemma HeardIsPushed(w: World)
    requires TakenSound(w.pushed, w.before, w.first, w.ids, w.taken)
    ensures Heard(w.first, w.ids) <= |w.pushed|
  {
  }

  lemma TurnKeeps(w: World)
    requires Inv(w) && Enabled(w, Serve)
    ensures Inv(Step(w, Serve))
  {
    var c := w.conn.value;
    var sends := w.server.count != c.seen && w.server.latest.Some?;
    var c1 := if sends then c.(seen := w.server.count, pipe := c.pipe + [Document(w.server.count, w.server.latest.value)]) else c;
    HeardIsPushed(w);
    hide PipeSound, TakenSound, Heard;
    if sends {
      SendKeeps(w.server, w.pushed, Heard(w.first, w.ids), c);
    }
    if w.server.ended.Some? {
      StatusKeeps(w.server, w.pushed, Heard(w.first, w.ids), c1);
    }
  }

  lemma PopKeeps(s: Server, pushed: seq<Option<string>>, last: int, c: Connection)
    requires PipeSound(s, pushed, last, c) && c.pipe != [] && c.pipe[0].Document?
    ensures PipeSound(s, pushed, c.pipe[0].id, c.(pipe := c.pipe[1..]))
  {
    LastSent(s, pushed, last, c);
    RestOnTheWay(s, pushed, last, c);
    RestInOrder(s, pushed, last, c);
  }

  lemma RestOnTheWay(s: Server, pushed: seq<Option<string>>, last: int, c: Connection)
    requires PipeSound(s, pushed, last, c) && c.pipe != [] && c.pipe[0].Document?
    ensures var rest := c.pipe[1..];
            forall i :: 0 <= i < |rest| ==>
              if rest[i].Document? then
                0 < rest[i].id <= c.seen && c.pipe[0].id <= rest[i].id && pushed[rest[i].id - 1] == Some(rest[i].doc)
              else i == |rest| - 1 && c.done && s.ended.Some? && (s.latest.Some? ==> c.seen == s.count)
  {
    var rest := c.pipe[1..];
    assert forall i :: 0 <= i < |rest| ==> rest[i] == c.pipe[i + 1];
  }

  lemma RestInOrder(s: Server, pushed: seq<Option<string>>, last: int, c: Connection)
    requires PipeSound(s, pushed, last, c) && c.pipe != [] && c.pipe[0].Document?
    ensures var rest := c.pipe[1..];
            forall i, j :: 0 <= i < j < |rest| && rest[j].Document? ==> rest[i].Document? && rest[i].id < rest[j].id
  {
    var rest := c.pipe[1..];
    assert forall i :: 0 <= i < |rest| ==> rest[i] == c.pipe[i + 1];
  }

  /** The last document sent is the first one, or still on the way behind it. */
  lemma LastSent(s: Server, pushed: seq<Option<string>>, last: int, c: Connection)
    requires PipeSound(s, pushed, last, c) && c.pipe != [] && c.pipe[0].Document?
    ensures var rest := c.pipe[1..];
            c.seen > 0 ==> c.pipe[0].id == c.seen
                           || exists i :: 0 <= i < |rest| && rest[i].Document? && rest[i].id == c.seen
  {
    if c.seen > 0 && c.pipe[0].id != c.seen {
      var i :| 0 <= i < |c.pipe| && c.pipe[i].Document? && c.pipe[i].id == c.seen;
      assert c.pipe[1..][i - 1].id == c.seen;
    }
  }

  /** The counters take a document that is not earlier than the last heard. */
  lemma CountKeeps(before: Ids, first: Option<int>, ids: Ids, taken: seq<(int, string)>, id: int, doc: string)
    requires 0 < id && Heard(first, ids) <= id
    requires if first.None? then ids == before && taken == [] else Counted(before, first.value, ids, taken)
    ensures var (ids', kind) := Track(ids, Some(id));
            Counted(before, if first.Some? then first.value else id, ids',
                    if kind.Duplicate? then taken else taken + [(id, doc)])
            && ids'.last == Some(id) && (taken != [] && !kind.Duplicate? ==> taken[|taken| - 1].0 < id)
  {
    var more := taken + [(id, doc)];
    assert |more| == |taken| + 1 && more[|taken|] == (id, doc) && forall i :: 0 <= i < |taken| ==> more[i] == taken[i];
  }

  lemma TakeKeeps(w: World, id: int, doc: string)
    requires TakenSound(w.pushed, w.before, w.first, w.ids, w.taken)
    requires Heard(w.first, w.ids) <= id && IsPushed(w.pushed, (id, doc))
    ensures var w' := Took(w, id, doc);
            Heard(w'.first, w'.ids) == id && TakenSound(w'.pushed, w'.before, w'.first, w'.ids, w'.taken)
  {
    CountKeeps(w.before, w.first, w.ids, w.taken, id, doc);
    assert 0 < id <= |w.pushed|;
    hide IsPushed, Counted, Track;
    var more := w.taken + [(id, doc)];
    assert |more| == |w.taken| + 1 && more[|w.taken|] == (id, doc) && forall i :: 0 <= i < |w.taken| ==> more[i] == w.taken[i];
    if w.taken != [] {
      assert forall i :: 0 <= i < |w.taken| ==> w.taken[i].0 <= w.taken[|w.taken| - 1].0;
    }
  }

  lemma FirstIsPushed(s: Server, pushed: seq<Option<string>>, last: int, c: Connection)
    requires PipeSound(s, pushed, last, c) && c.pipe != [] && c.pipe[0].Document?
    ensures last <= c.pipe[0].id && IsPushed(pushed, (c.pipe[0].id, c.pipe[0].doc))
  {
  }

  lemma DocumentArrives(w: World)
    requires Inv(w) && Enabled(w, Arrive) && w.conn.value.pipe[0].Document?
    ensures Inv(Arrived(w, w.conn.value))
  {
    var c := w.conn.value;
    var id, doc := c.pipe[0].id, c.pipe[0].doc;
    FirstIsPushed(w.server, w.pushed, Heard(w.first, w.ids), c);
    hide PipeSound, TakenSound, Track, Heard, IsPushed;
    PopKeeps(w.server, w.pushed, Heard(w.first, w.ids), c);
    TakeKeeps(w, id, doc);
  }

  lemma ArriveKeeps(w: World)
    requires Inv(w) && Enabled(w, Arrive)
    ensures Inv(Step(w, Arrive))
  {
    hide Inv;
    if w.conn.value.pipe[0].Document? {
      DocumentArrives(w);
    } else {
      StatusArrives(w);
    }
  }

  /** A status arrives only after every document sent, the final one among them. */
  lemma StatusArrives(w: World)
    requires Inv(w) && Enabled(w, Arrive) && w.conn.value.pipe[0].Status?
    ensures Inv(Step(w, Arrive))
  {
    var c := w.conn.value;
    assert |c.pipe| == 1 && forall i :: 0 <= i < |c.pipe| ==> c.pipe[i].Status?;
  }

  // ---- runs

  ghost predicate Possible(w: World, es: seq<Event>)
    decreases |es|
  {
    es == [] || (Enabled(w, es[0]) && Possible(Step(w, es[0]), es[1..]))
  }

  ghost function Run(w: World, es: seq<Event>): World
    requires Possible(w, es)
    decreases |es|
  {
    if es == [] then w else Run(Step(w, es[0]), es[1..])
  }

  lemma {:induction false} RunKeeps(w: World, es: seq<Event>)
    requires Inv(w) && Possible(w, es)
    ensures Inv(Run(w, es))
    decreases |es|
  {
    if es != [] {
      StepKeeps(w, es[0]);
      hide Inv, Enabled, Step;
      RunKeeps(Step(w, es[0]), es[1..]);
    }
  }

  /**
   * In every run, whatever servers came before, the documents taken of the current server are the pushed
   * ones of their numbers, in rising order; with the skipped ones they are all from the number counted on
   * from to the last; and once the source is closed by the status, the final document was heard.
   */
  lemma NumberingIsConserved(es: seq<Event>)
    requires Possible(START, es)
    ensures var w := Run(START, es);
            var n := |w.taken|;
            (forall i :: 0 <= i < n ==> IsPushed(w.pushed, w.taken[i]))
            && (forall i, j :: 0 <= i < j < n ==> w.taken[i].0 < w.taken[j].0)
            && (w.first.Some? ==> w.ids.last.Some?
                                  && n + (w.ids.skipped - w.before.skipped) == w.ids.last.value - Base(w.before, w.first.value))
            && (w.closed && w.server.latest.Some? ==> w.first.Some? && w.ids.last == Some(|w.pushed|))
  {
    FreshSound(NO_IDS);
    RunKeeps(START, es);
  }

  /** One server only: nothing was counted before it, every resend counts nothing, and no restart is seen. */
  lemma OneServer(es: seq<Event>)
    requires Possible(START, es) && forall e :: e in es ==> !e.NewServer?
    ensures var w := Run(START, es);
            var n := |w.taken|;
            w.before == NO_IDS && w.ids.restarts == 0
            && (n > 0 ==> n + w.ids.skipped == w.taken[n - 1].0 - w.taken[0].0 + 1)
            && (w.closed && w.server.latest.Some? ==> n > 0 && w.taken[n - 1].0 == |w.pushed|)
  {
    FreshSound(NO_IDS);
    RunKeeps(START, es);
    SameServer(START, es);
  }

  lemma {:induction false} SameServer(w: World, es: seq<Event>)
    requires Possible(w, es) && forall e :: e in es ==> !e.NewServer?
    ensures Run(w, es).before == w.before
    decreases |es|
  {
    if es != [] {
      assert es[0] in es && forall e :: e in es[1..] ==> e in es;
      SameServer(Step(w, es[0]), es[1..]);
      hide Enabled;
    }
  }

  /**
   * A new server is noticed, once, if and only if the first document received from it has a lower number
   * than the last one heard of the servers before. With the same number that document is dropped as a
   * resend; with a higher one the numbers between are counted as skipped although nothing was.
   */
  lemma RestartNoticed(es: seq<Event>, more: seq<Event>)
    requires Possible(START, es) && Enabled(Run(START, es), NewServer)
    requires Possible(Step(Run(START, es), NewServer), more) && forall e :: e in more ==> !e.NewServer?
    ensures var ids, w := Run(START, es).ids, Run(Step(Run(START, es), NewServer), more);
            w.ids.restarts == ids.restarts + (if Lower(ids, w.first) then 1 else 0)
            && (w.first.Some? ==>
                  (Lower(ids, w.first) || ids.last.None? ==> w.taken != [] && w.taken[0].0 == w.first.value)
                  && (w.first == ids.last ==> forall i :: 0 <= i < |w.taken| ==> w.taken[i].0 != w.first.value)
                  && (ids.last.Some? && ids.last.value < w.first.value && |w.taken| == 1 ==>
                        w.ids.skipped == ids.skipped + w.first.value - ids.last.value - 1))
  {
    var w := Fresh(Run(START, es).ids);
    FreshSound(w.ids);
    RunKeeps(w, more);
    SameServer(w, more);
  }

  // ---- a restart that goes unseen

  /** A connection receives the one document its server has pushed. */
  function OneDocument(doc: string): seq<Event> {
    [Connect, Push(Some(doc)), Serve, Arrive]
  }

  function AfterOneDocument(ids: Ids, doc: string): World {
    var w := Fresh(ids).(server := Server(Some(doc), 1, None), pushed := [Some(doc)]);
    Took(w.(conn := Some(Connection(1, false, [Document(1, doc)]))), 1, doc).(conn := Some(Connection(1, false, [])))
  }

  lemma RunCons(w: World, e: Event, es: seq<Event>)
    requires Enabled(w, e) && Possible(Step(w, e), es)
    ensures Possible(w, [e] + es) && Run(w, [e] + es) == Run(Step(w, e), es)
  {
    hide Enabled, Step;
    assert ([e] + es)[1..] == es;
  }

  lemma OneDocumentSteps(ids: Ids, doc: string)
    ensures var w2 := Step(Step(Fresh(ids), Connect), Push(Some(doc)));
            Enabled(w2, Serve) && var w3 := Step(w2, Serve);
            Enabled(w3, Arrive) && Step(w3, Arrive) == AfterOneDocument(ids, doc)
  {
    hide Took;
    var w2 := Step(Step(Fresh(ids), Connect), Push(Some(doc)));
    assert w2.pushed == [Some(doc)];
    assert [] + [Document(1, doc)] == [Document(1, doc)];
    assert w2.(conn := Some(Turn(w2.server, NEW_CONNECTION))).conn.value == Connection(1, false, [Document(1, doc)]);
    assert [Document(1, doc)][1..] == [];
  }

  lemma FirstSteps(ids: Ids, doc: string)
    ensures Enabled(Fresh(ids), Connect) && Enabled(Step(Fresh(ids), Connect), Push(Some(doc)))
  {
  }

  lemma OneDocumentRuns(ids: Ids, doc: string)
    ensures Possible(Fresh(ids), OneDocument(doc)) && Run(Fresh(ids), OneDocument(doc)) == AfterOneDocument(ids, doc)
  {
    var w1 := Step(Fresh(ids), Connect);
    var w2 := Step(w1, Push(Some(doc)));
    OneDocumentSteps(ids, doc);
    hide Step, Took, AfterOneDocument;
    assert Enabled(Fresh(ids), Connect) && Enabled(w1, Push(Some(doc))) by {
      FirstSteps(ids, doc);
    }
    hide Enabled;
    var w3 := Step(w2, Serve);
    RunCons(w3, Arrive, []);
    RunCons(w2, Serve, [Arrive]);
    RunCons(w1, Push(Some(doc)), [Serve, Arrive]);
    RunCons(Fresh(ids), Connect, [Push(Some(doc)), Serve, Arrive]);
    assert [Arrive] + [] == [Arrive] && [Serve] + [Arrive] == [Serve, Arrive];
    assert [Push(Some(doc))] + [Serve, Arrive] == [Push(Some(doc)), Serve, Arrive];
    assert [Connect] + [Push(Some(doc)), Serve, Arrive] == OneDocument(doc);
  }

  /** Two servers of one document each: the restart is not seen, and the document of the new server is dropped. */
  lemma UnseenRestart()
    ensures Possible(START, OneDocument("a"))
    ensures var w := Run(START, OneDocument("a"));
            w.taken == [(1, "a")] && Enabled(w, NewServer) && Possible(Step(w, NewServer), OneDocument("b"))
            && var w' := Run(Step(w, NewServer), OneDocument("b"));
               w'.ids.restarts == 0 && w'.first == Some(1) && w'.pushed == [Some("b")] && w'.taken == []
  {
    OneDocumentRuns(NO_IDS, "a");
    OneDocumentRuns(Run(START, OneDocument("a")).ids, "b");
    hide Run, Possible;
  }
}
