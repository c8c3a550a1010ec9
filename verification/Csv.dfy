/** The CSV output, and that a reader of section 2 of RFC 4180 (records ended by LF) gets every cell back (render_csv.cpp). */
module Csv {
  import opened Model
  import opened Snapshot
  import Strings = Text

  // ---- the writer

  predicate Special(c: char) {
    c == ',' || c == '"' || c == '\r' || c == '\n'
  }

  predicate NeedsQuotes(s: string) {
    exists i :: 0 <= i < |s| && Special(s[i])
  }

  function Doubled(s: string): string {
    if s == "" then "" else Doubled(s[..|s| - 1]) + (if s[|s| - 1] == '"' then "\"\"" else [s[|s| - 1]])
  }

  function FieldText(s: string): string {
    if NeedsQuotes(s) then "\"" + Doubled(s) + "\"" else s
  }

  lemma {:induction false} DoublingGrows(s: string)
    ensures |Doubled(s)| >= |s|
  {
    if s != "" {
      DoublingGrows(s[..|s| - 1]);
    }
  }

  /** A field is written as it is if and only if it has no comma, quote or line break; any other stands between quotes. */
  lemma AsItIsIff(s: string)
    ensures FieldText(s) == s <==> ',' !in s && '"' !in s && '\r' !in s && '\n' !in s
    ensures FieldText(s) != s ==> |FieldText(s)| >= |s| + 2 && FieldText(s)[0] == '"' == FieldText(s)[|FieldText(s)| - 1]
  {
    DoublingGrows(s);
  }

  method Field(s: string) returns (out: string)
    ensures out == FieldText(s)
  {
    if !NeedsQuotes(s) {
      return s;
    }
    out := "\"";
    for i := 0 to |s|
      invariant out == "\"" + Doubled(s[..i])
    {
      assert s[..i + 1][..i] == s[..i];
      if s[i] == '"' {
        out := out + "\"";
      }
      out := out + [s[i]];
    }
    assert s[..|s|] == s;
    out := out + "\"";
  }

  function CellsText(cells: seq<string>): string {
    if cells == [] then ""
    else CellsText(cells[..|cells| - 1]) + (if |cells| > 1 then "," else "") + FieldText(cells[|cells| - 1])
  }

  function RowText(cells: seq<string>): string {
    CellsText(cells) + "\n"
  }

  lemma NoCells(cells: seq<string>)
    ensures CellsText(cells[..0]) == ""
  {
  }

  lemma NextCell(cells: seq<string>, i: nat)
    requires i < |cells|
    ensures CellsText(cells[..i + 1]) == CellsText(cells[..i]) + (if i > 0 then "," else "") + FieldText(cells[i])
  {
    assert cells[..i + 1][..i] == cells[..i];
  }

  method Row(out: string, cells: seq<string>) returns (out': string)
    ensures out' == out + RowText(cells)
  {
    hide CellsText, FieldText;
    out' := out;
    NoCells(cells);
    for i := 0 to |cells|
      invariant out' == out + CellsText(cells[..i])
    {
      NextCell(cells, i);
      var f := Field(cells[i]);
      out' := out' + (if i > 0 then "," else "") + f;
    }
    assert cells[..|cells|] == cells;
    out' := out' + "\n";
  }

  function RowsText(rows: seq<seq<string>>): string {
    if rows == [] then "" else RowsText(rows[..|rows| - 1]) + RowText(rows[|rows| - 1])
  }

  const COLUMNS := [
    "observed_at", "domain", "topic", "type",
    "writer_node", "writer_host", "writer_guid", "reader_node", "reader_host", "reader_guid",
    "transport", "confidence", "reasons", "warnings", "measured_transports",
    "packets", "bytes", "delivered_per_s", "delivered_per_s_lower_bound",
    "latency_mean_s", "latency_min_s", "latency_max_s", "latency_last_s",
    "lost_packets", "resent_datas"]

  /** One row a pair, in listed order; `cells` spells the columns of a pair. */
  function PairRows(t: TopicSummary, n: nat, cells: (TopicSummary, Pair) -> seq<string>): seq<seq<string>>
    requires n <= |t.pairs|
  {
    if n == 0 then [] else PairRows(t, n - 1, cells) + [cells(t, t.pairs[n - 1])]
  }

  function TopicRows(topics: seq<TopicSummary>, cells: (TopicSummary, Pair) -> seq<string>): seq<seq<string>> {
    if topics == [] then []
    else
      var t := topics[|topics| - 1];
      TopicRows(topics[..|topics| - 1], cells) + PairRows(t, |t.pairs|, cells)
  }

  function Table(topics: seq<TopicSummary>, header: bool, cells: (TopicSummary, Pair) -> seq<string>): seq<seq<string>> {
    (if header then [COLUMNS] else []) + TopicRows(topics, cells)
  }

  // ---- the reader

  datatype Mode = Start | Plain | Quoted | QuoteSeen | Malformed

  /** The records read, the cells of the one under way, and the text of the cell under way. */
  datatype Reader = Reader(rows: seq<seq<string>>, cells: seq<string>, cell: string, mode: Mode)

  const EMPTY := Reader([], [], "", Start)

  function Feed(r: Reader, c: char): Reader {
    match r.mode
    case Malformed => r
    case Quoted => if c == '"' then r.(mode := QuoteSeen) else r.(cell := r.cell + [c])
    case QuoteSeen => if c == '"' then r.(cell := r.cell + [c], mode := Quoted) else Separator(r, c)
    case Start => if c == '"' then r.(mode := Quoted) else Text(r, c)
    case Plain => if c == '"' then r.(mode := Malformed) else Text(r, c)
  }

  function Separator(r: Reader, c: char): Reader {
    if c == ',' then Reader(r.rows, r.cells + [r.cell], "", Start)
    else if c == '\n' then Reader(r.rows + [r.cells + [r.cell]], [], "", Start)
    else r.(mode := Malformed)
  }

  function Text(r: Reader, c: char): Reader {
    if Special(c) then Separator(r, c) else r.(cell := r.cell + [c], mode := Plain)
  }

  function FeedAll(r: Reader, s: string): Reader {
    if s == "" then r else Feed(FeedAll(r, s[..|s| - 1]), s[|s| - 1])
  }

  /** A whole text of records, each ended by LF. */
  function Read(s: string): Option<seq<seq<string>>> {
    var r := FeedAll(EMPTY, s);
    if r.mode == Start && r.cells == [] then Some(r.rows) else None
  }

  lemma {:induction false} FeedJoin(r: Reader, a: string, b: string)
    ensures FeedAll(r, a + b) == FeedAll(FeedAll(r, a), b)
  {
    if b == "" {
      assert a + b == a;
    } else {
      assert (a + b)[..|a + b| - 1] == a + b[..|b| - 1];
      FeedJoin(r, a, b[..|b| - 1]);
    }
  }

  lemma FeedOne(r: Reader, a: string, c: char)
    ensures FeedAll(r, a + [c]) == Feed(FeedAll(r, a), c)
  {
    assert (a + [c])[..|a|] == a;
  }

  // ---- a cell, a row, a table

  lemma {:induction false} PlainRead(r: Reader, s: string)
    requires r.mode == Start && !NeedsQuotes(s)
    ensures FeedAll(r, s) == if s == "" then r else r.(cell := r.cell + s, mode := Plain)
  {
    if s != "" {
      var init := s[..|s| - 1];
      PlainRead(r, init);
      assert !Special(s[|s| - 1]) && s == init + [s[|s| - 1]];
      assert r.cell + s == r.cell + init + [s[|s| - 1]];
    }
  }

  lemma {:induction false} DoubledRead(r: Reader, s: string)
    requires r.mode == Quoted
    ensures FeedAll(r, Doubled(s)) == r.(cell := r.cell + s)
  {
    if s == "" {
      assert r.cell + s == r.cell;
    } else {
      hide FeedAll, Feed;
      var init, c := s[..|s| - 1], s[|s| - 1];
      DoubledRead(r, init);
      assert r.cell + s == r.cell + init + [c];
      QuotedChar(r, Doubled(init), c);
    }
  }

  lemma QuotedChar(r: Reader, s: string, c: char)
    requires FeedAll(r, s).mode == Quoted
    ensures var q := FeedAll(r, s);
            FeedAll(r, s + (if c == '"' then "\"\"" else [c])) == q.(cell := q.cell + [c])
  {
    hide FeedAll;
    if c == '"' {
      FeedOne(r, s, '"');
      FeedOne(r, s + ['"'], '"');
      assert s + "\"\"" == s + ['"'] + ['"'];
    } else {
      FeedOne(r, s, c);
    }
  }

  lemma QuotedRead(r: Reader, s: string)
    requires r.mode == Start && r.cell == ""
    ensures FeedAll(r, "\"" + Doubled(s) + "\"") == r.(cell := s, mode := QuoteSeen)
  {
    hide Doubled;
    var open := r.(mode := Quoted);
    FeedOne(r, "", '"');
    assert "" + ['"'] == "\"" && FeedAll(r, "") == r;
    FeedJoin(r, "\"", Doubled(s));
    DoubledRead(open, s);
    FeedOne(r, "\"" + Doubled(s), '"');
  }

  /** After a field a comma or LF ends the cell the field was written from. */
  lemma FieldRead(r: Reader, s: string, c: char)
    requires r.mode == Start && r.cell == "" && (c == ',' || c == '\n')
    ensures Feed(FeedAll(r, FieldText(s)), c) == Separator(r.(cell := s), c)
  {
    hide FeedAll, Doubled;
    if NeedsQuotes(s) {
      QuotedRead(r, s);
    } else {
      PlainRead(r, s);
      assert r.cell + s == s;
    }
  }

  /** The text of some cells and the comma after them. */
  function Prefix(cells: seq<string>): string {
    CellsText(cells) + (if cells != [] then "," else "")
  }

  lemma PrefixText(cells: seq<string>)
    requires cells != []
    ensures Prefix(cells) == CellsText(cells) + [',']
  {
    hide CellsText;
  }

  lemma CellsSplit(cells: seq<string>, end: string)
    requires cells != []
    ensures CellsText(cells) + end == Prefix(cells[..|cells| - 1]) + (FieldText(cells[|cells| - 1]) + end)
  {
    hide FieldText;
  }

  /** One more cell, after which `c` stands. */
  lemma LastCellRead(r: Reader, cells: seq<string>, c: char)
    requires r.mode == Start && r.cell == "" && r.cells == [] && cells != [] && (c == ',' || c == '\n')
    requires FeedAll(r, Prefix(cells[..|cells| - 1])) == r.(cells := cells[..|cells| - 1])
    ensures FeedAll(r, CellsText(cells) + [c]) == Separator(r.(cells := cells[..|cells| - 1], cell := cells[|cells| - 1]), c)
  {
    hide CellsText, Prefix, FieldText, Feed, FeedAll;
    var init, last := cells[..|cells| - 1], cells[|cells| - 1];
    var before := r.(cells := init);
    CellsSplit(cells, [c]);
    FeedJoin(r, Prefix(init), FieldText(last) + [c]);
    FeedOne(before, FieldText(last), c);
    FieldRead(before, last, c);
  }

  lemma {:induction false} PrefixRead(r: Reader, cells: seq<string>)
    requires r.mode == Start && r.cell == "" && r.cells == []
    ensures FeedAll(r, Prefix(cells)) == r.(cells := cells)
  {
    if cells != [] {
      hide FeedAll, Prefix, CellsText;
      var init := cells[..|cells| - 1];
      PrefixRead(r, init);
      LastCellRead(r, cells, ',');
      PrefixText(cells);
      assert init + [cells[|cells| - 1]] == cells;
    }
  }

  lemma CellsRead(r: Reader, cells: seq<string>)
    requires r.mode == Start && r.cell == "" && r.cells == [] && cells != []
    ensures FeedAll(r, RowText(cells)) == r.(rows := r.rows + [cells])
  {
    hide FeedAll, CellsText, Prefix;
    PrefixRead(r, cells[..|cells| - 1]);
    LastCellRead(r, cells, '\n');
    assert cells[..|cells| - 1] + [cells[|cells| - 1]] == cells;
  }

  /** Reading what was written gives back exactly the rows and cells, whatever bytes they hold. */
  lemma {:induction false} RoundTrip(rows: seq<seq<string>>)
    requires forall i :: 0 <= i < |rows| ==> rows[i] != []
    ensures Read(RowsText(rows)) == Some(rows)
    ensures FeedAll(EMPTY, RowsText(rows)) == EMPTY.(rows := rows)
  {
    hide RowText, Feed;
    if rows != [] {
      var init, last := rows[..|rows| - 1], rows[|rows| - 1];
      RoundTrip(init);
      FeedJoin(EMPTY, RowsText(init), RowText(last));
      CellsRead(EMPTY.(rows := init), last);
      assert init + [last] == rows;
    }
  }

  lemma RowsSnoc(rows: seq<seq<string>>, row: seq<string>)
    ensures RowsText(rows + [row]) == RowsText(rows) + RowText(row)
  {
    assert (rows + [row])[..|rows|] == rows;
  }

  /** The rows of one topic, after those before it. */
  method TopicText(out: string, ghost before: seq<seq<string>>, t: TopicSummary, cells: (TopicSummary, Pair) -> seq<string>)
    returns (out': string)
    requires out == RowsText(before)
    ensures out' == RowsText(before + PairRows(t, |t.pairs|, cells))
  {
    hide RowText, RowsText;
    out' := out;
    assert before + [] == before;
    for j := 0 to |t.pairs|
      invariant out' == RowsText(before + PairRows(t, j, cells))
    {
      var more := cells(t, t.pairs[j]);
      RowsSnoc(before + PairRows(t, j, cells), more);
      assert before + PairRows(t, j + 1, cells) == before + PairRows(t, j, cells) + [more];
      out' := Row(out', more);
    }
  }

  method Header(noHeader: bool) returns (out: string)
    ensures out == RowsText(if noHeader then [] else [COLUMNS])
  {
    out := "";
    if !noHeader {
      RowsSnoc([], COLUMNS);
      assert [] + [COLUMNS] == [COLUMNS];
      out := Row(out, COLUMNS);
    }
  }

  /** The rows of all topics, after the header. */
  method TopicsText(out: string, ghost head: seq<seq<string>>, topics: seq<TopicSummary>,
                    cells: (TopicSummary, Pair) -> seq<string>) returns (out': string)
    requires out == RowsText(head)
    ensures out' == RowsText(head + TopicRows(topics, cells))
  {
    assert TopicRows(topics[..0], cells) == [];
    hide *;
    out' := out;
    assert head + [] == head;
    for i := 0 to |topics|
      invariant out' == RowsText(head + TopicRows(topics[..i], cells))
    {
      NextTopicRows(topics, i, cells);
      Strings.Joined(head, TopicRows(topics[..i], cells), PairRows(topics[i], |topics[i].pairs|, cells));
      out' := TopicText(out', head + TopicRows(topics[..i], cells), topics[i], cells);
    }
    assert topics[..|topics|] == topics;
  }

  /** The text reads as the header, when asked for, and one record for every pair in order. */
  method RenderCsv(topics: seq<TopicSummary>, noHeader: bool, cells: (TopicSummary, Pair) -> seq<string>) returns (out: string)
    requires forall t, p :: |cells(t, p)| == |COLUMNS|
    ensures Read(out) == Some(Table(topics, !noHeader, cells))
  {
    hide *;
    TableIsRead(topics, noHeader, cells);
    ghost var head := if noHeader then [] else [COLUMNS];
    out := Header(noHeader);
    out := TopicsText(out, head, topics, cells);
  }

  lemma NextTopicRows(topics: seq<TopicSummary>, i: nat, cells: (TopicSummary, Pair) -> seq<string>)
    requires i < |topics|
    ensures TopicRows(topics[..i + 1], cells)
         == TopicRows(topics[..i], cells) + PairRows(topics[i], |topics[i].pairs|, cells)
  {
    assert topics[..i + 1][..i] == topics[..i];
  }

  /** Header and rows read back as the table. */
  lemma TableIsRead(topics: seq<TopicSummary>, noHeader: bool, cells: (TopicSummary, Pair) -> seq<string>)
    requires forall t, p :: |cells(t, p)| == |COLUMNS|
    ensures var head := if noHeader then [] else [COLUMNS];
            Read(RowsText(head + TopicRows(topics, cells))) == Some(Table(topics, !noHeader, cells))
  {
    hide RowsText, TopicRows, Read;
    TableFull(topics, cells);
    RoundTrip((if noHeader then [] else [COLUMNS]) + TopicRows(topics, cells));
  }

  lemma {:induction false} TableFull(topics: seq<TopicSummary>, cells: (TopicSummary, Pair) -> seq<string>)
    requires forall t, p :: |cells(t, p)| == |COLUMNS|
    ensures forall i :: 0 <= i < |TopicRows(topics, cells)| ==> TopicRows(topics, cells)[i] != []
  {
    if topics != [] {
      TableFull(topics[..|topics| - 1], cells);
      var t := topics[|topics| - 1];
      PairsFull(t, |t.pairs|, cells);
    }
  }

  lemma {:induction false} PairsFull(t: TopicSummary, n: nat, cells: (TopicSummary, Pair) -> seq<string>)
    requires n <= |t.pairs| && forall t, p :: |cells(t, p)| == |COLUMNS|
    ensures forall i :: 0 <= i < |PairRows(t, n, cells)| ==> PairRows(t, n, cells)[i] != []
  {
    if n > 0 {
      PairsFull(t, n - 1, cells);
    }
  }
}
