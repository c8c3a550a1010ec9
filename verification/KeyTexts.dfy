/** When the text of a key, its three parts joined by bars, tells pairs apart (web/model.js, keyId). */
module KeyTexts {
  import opened Text
  import opened Model
  import opened Documents
  import opened GuidText
  import Ranks

  // ---- cutting one text in two ways

  /** Of two ways to cut a text at a bar, the earlier cut leaves the later one's first part longer. */
  lemma Cut(a: string, r: string, a': string, r': string) returns (x: string)
    requires a + ['|'] + r == a' + ['|'] + r' && |r'| < |r|
    ensures r == x + ['|'] + r' && a' == a + ['|'] + x
  {
    var s := a + ['|'] + r;
    x := r[..|r| - |r'| - 1];
    assert r == s[|a| + 1..] && r' == s[|a'| + 1..];
    assert s[|a'|] == '|' && r[|x|] == s[|a| + 1 + |x|];
    assert r[|x| + 1..] == r';
    assert a' == s[..|a'|] == (a + ['|'] + r)[..|a| + 1 + |x|];
  }

  lemma SameCut(a: string, r: string, a': string, r': string)
    requires a + ['|'] + r == a' + ['|'] + r' && |r'| == |r|
    ensures a == a' && r == r'
  {
    var s := a + ['|'] + r;
    assert r == s[|a| + 1..] && r' == s[|a'| + 1..];
    assert a == s[..|a|] && a' == s[..|a'|];
  }

  // ---- any key at all

  /** A key whose text is that of no other key is one whose three parts have no bar. */
  lemma KeyIdUniqueIff(a: Ident)
    ensures (forall b :: KeyId(b) == KeyId(a) ==> b == a)
       <==> '|' !in a.topic && '|' !in a.writer && '|' !in a.reader
  {
    if '|' !in a.topic && '|' !in a.writer && '|' !in a.reader {
      forall b | KeyId(b) == KeyId(a)
        ensures b == a
      {
        BarFreeUnique(a, b);
      }
    } else {
      var b := OtherKey(a);
    }
  }

  lemma BarFreeUnique(a: Ident, b: Ident)
    requires '|' !in a.topic && '|' !in a.writer && '|' !in a.reader && KeyId(b) == KeyId(a)
    ensures b == a
  {
    var p, q := a.topic + ['|'] + a.writer, b.topic + ['|'] + b.writer;
    assert p + ['|'] + a.reader == q + ['|'] + b.reader;
    if |b.reader| < |a.reader| {
      var x := Cut(p, a.reader, q, b.reader);
    } else if |b.reader| > |a.reader| {
      var x := Cut(q, b.reader, p, a.reader);
      TwoBars(a.topic, a.writer, b.topic, b.writer, x);
    } else {
      SameCut(p, a.reader, q, b.reader);
      if |b.writer| < |a.writer| {
        var x := Cut(a.topic, a.writer, b.topic, b.writer);
      } else if |b.writer| > |a.writer| {
        var x := Cut(b.topic, b.writer, a.topic, a.writer);
      } else {
        SameCut(a.topic, a.writer, b.topic, b.writer);
      }
    }
  }

  /** One bar is not two. */
  lemma TwoBars(t: string, w: string, t': string, w': string, x: string)
    requires t + ['|'] + w == t' + ['|'] + w' + ['|'] + x
    ensures '|' in t || '|' in w
  {
    var u := t' + ['|'] + w';
    assert '|' in u;
    if |x| < |w| {
      var y := Cut(t, w, u, x);
    } else if |x| > |w| {
      var y := Cut(u, x, t, w);
    } else {
      SameCut(t, w, u, x);
    }
  }

  /** A bar inside a part moves to the next part, or to the one before. */
  lemma OtherKey(a: Ident) returns (b: Ident)
    requires '|' in a.topic || '|' in a.writer || '|' in a.reader
    ensures b != a && KeyId(b) == KeyId(a)
  {
    if '|' in a.topic {
      var x, y := AtBar(a.topic);
      b := Ident(x, y, a.writer + "|" + a.reader);
      assert |b.topic| < |a.topic|;
      assert KeyId(b) == x + ['|'] + y + "|" + a.writer + "|" + a.reader;
    } else if '|' in a.writer {
      var x, y := AtBar(a.writer);
      b := Ident(a.topic + "|" + x, y, a.reader);
      assert |b.writer| < |a.writer|;
      assert KeyId(b) == a.topic + "|" + (x + ['|'] + y) + "|" + a.reader;
    } else {
      var x, y := AtBar(a.reader);
      b := Ident(a.topic, a.writer + "|" + x, y);
      assert |b.reader| < |a.reader|;
      assert KeyId(b) == a.topic + "|" + a.writer + "|" + (x + ['|'] + y);
    }
  }

  lemma AtBar(s: string) returns (x: string, y: string)
    requires '|' in s
    ensures s == x + ['|'] + y
  {
    var i :| 0 <= i < |s| && s[i] == '|';
    x, y := s[..i], s[i + 1..];
  }

  // ---- keys by GUIDs

  /** GUID texts have one length, so keys by GUIDs are told apart whatever the topics are called. */
  lemma GuidKeysTellApart(t: string, w: Guid, r: Guid, t': string, w': Guid, r': Guid)
    requires KeyId(Ident(t, GuidString(w), GuidString(r))) == KeyId(Ident(t', GuidString(w'), GuidString(r')))
    ensures t == t' && w == w' && r == r'
  {
    GuidStringForm(w);
    GuidStringForm(r);
    GuidStringForm(w');
    GuidStringForm(r');
    SameCut(t + ['|'] + GuidString(w), GuidString(r), t' + ['|'] + GuidString(w'), GuidString(r'));
    SameCut(t, GuidString(w), t', GuidString(w'));
    GuidStringInjective(w, w');
    GuidStringInjective(r, r');
  }

  // ---- keys by nodes

  /** An end of a pair under the node key: the endpoint at a place of its node, -1 when its GUID is not there, or a GUID. */
  datatype End = OfNode(node: string, place: int) | OfGuid(guid: Guid) {
    predicate Valid() {
      OfNode? ==> node != "" && place >= -1
    }

    function Spelled(): string {
      match this
      case OfNode(node, place) => node + ['#'] + Position(place)
      case OfGuid(guid) => "guid:" + GuidString(guid)
    }
  }

  /** These are the identities the viewer makes of endpoints. */
  lemma IdentityIsSpelled(t: DocTopic, guid: string, node: string, g: Guid) returns (e: End)
    requires node == "" ==> guid == GuidString(g)
    ensures e.Valid() && Identity(t, guid, node) == e.Spelled() && (e.OfNode? ==> e.node == node)
  {
    if node == "" {
      e := OfGuid(g);
    } else {
      e := OfNode(node, Ranks.IndexOf(Ranks.Sort(NodeGuids(t.writers + t.readers, node)), guid));
    }
  }

  /** An identity. */
  ghost predicate IsEnd(s: string) {
    exists e: End :: e.Valid() && s == e.Spelled()
  }

  /** A text that ends like the identity of a node's endpoint. */
  ghost predicate Tailed(s: string) {
    exists x: string, i: int :: i >= -1 && s == x + ['#'] + Position(i)
  }

  /** A text that ends in an identity, or like one. */
  ghost predicate EndsInEnd(s: string) {
    Tailed(s) || IsEnd(s) || exists u: string, g: Guid :: s == u + ['|'] + OfGuid(g).Spelled()
  }

  /** The text has an identity between two bars, or after its last one. */
  ghost predicate HasEnd(s: string) {
    exists u, e: End, rest :: EndWithin(s, u, e, rest)
  }

  ghost predicate EndWithin(s: string, u: string, e: End, rest: string) {
    e.Valid() && (rest == "" || rest[0] == '|') && s == u + ['|'] + e.Spelled() + rest
  }

  ghost predicate Splits(s: string, x: string, y: string) {
    s == x + ['|'] + y
  }

  /**
   * What the names must not contain: for a writer with a node, a bar in the topic or inside the node's
   * name; for a reader with a node, a bar in its name after something that ends in an identity; and for
   * such a reader, a writer's name that is an identity and a bar, or, without a node, an identity in the topic.
   */
  ghost predicate ToldApart(t: string, w: End, r: End)
    requires w.Valid() && r.Valid()
  {
    (w.OfNode? ==> '|' !in t && '|' !in w.node[..|w.node| - 1])
    && (w.OfNode? && r.OfNode? ==> !(w.node[|w.node| - 1] == '|' && IsEnd(w.node[..|w.node| - 1])))
    && (r.OfNode? ==> forall x, y :: Splits(r.node, x, y) && y != "" ==> !EndsInEnd(x))
    && (w.OfGuid? && r.OfNode? ==> !HasEnd(t))
  }

  function Key(t: string, w: End, r: End): Ident {
    Ident(t, w.Spelled(), r.Spelled())
  }

  // ---- what identities look like

  lemma PositionForm(i: int)
    ensures Position(i) != "" && '|' !in Position(i) && '#' !in Position(i)
  {
    if i >= 0 {
      DecIsDigits(i);
      assert forall c :: c in Dec(i) ==> IsDigit(c);
    }
  }

  lemma TailUnique(x: string, i: int, y: string, j: int)
    requires x + ['#'] + Position(i) == y + ['#'] + Position(j)
    ensures x == y && Position(i) == Position(j)
  {
    PositionForm(i);
    PositionForm(j);
    SplitAtLast(x, y, Position(i), Position(j), '#');
  }

  /** The tail of a text is in its last part. */
  lemma TailIsLast(u: string, v: string, x: string, i: int) returns (x': string)
    requires u + ['|'] + v == x + ['#'] + Position(i)
    ensures v == x' + ['#'] + Position(i) && x == u + ['|'] + x'
  {
    var s := u + ['|'] + v;
    PositionForm(i);
    assert s[|u|] == '|' && s[|x|] == '#';
    assert forall k :: |x| < k < |s| ==> s[k] == Position(i)[k - |x| - 1];
    assert |u| < |x|;
    x' := x[|u| + 1..];
    assert x == s[..|x|] && x[|u|] == '|';
    assert v == s[|u| + 1..];
  }

  lemma BarIn(x: string, y: string)
    ensures '|' in x + ['|'] + y && (x + ['|'] + y)[|x|] == '|'
  {
  }

  lemma HashIn(x: string, y: string)
    ensures '#' in x + ['#'] + y
  {
    assert (x + ['#'] + y)[|x|] == '#';
  }

  lemma SpelledForm(e: End)
    ensures e.OfNode? ==> '#' in e.Spelled()
    ensures e.OfGuid? ==> '#' !in e.Spelled() && |e.Spelled()| == 52
  {
    if e.OfNode? {
      HashIn(e.node, Position(e.place));
    } else {
      GuidEnd(e.guid);
    }
  }

  lemma GuidEnd(g: Guid)
    ensures var s := OfGuid(g).Spelled();
            |s| == 52 && '#' !in s && s[40] == '|' && forall k :: 0 <= k < 52 && k != 40 ==> s[k] != '|'
  {
    GuidStringForm(g);
    var s := "guid:" + GuidString(g);
    assert forall k :: 5 <= k < 52 ==> s[k] == GuidString(g)[k - 5];
  }

  /** The two halves of a GUID identity are no identities, and have neither bar nor `#`. */
  lemma GuidHalves(g: Guid, x: string, y: string)
    requires Splits(OfGuid(g).Spelled(), x, y)
    ensures |x| == 40 && |y| == 11 && '|' !in x && '|' !in y && '#' !in x && '#' !in y
    ensures !IsEnd(x) && !IsEnd(y)
  {
    GuidEnd(g);
    var s := OfGuid(g).Spelled();
    assert s[|x|] == '|';
    assert forall k :: 0 <= k < |x| ==> x[k] == s[k];
    assert forall k :: 0 <= k < |y| ==> y[k] == s[41 + k];
    NoEnd(x);
    NoEnd(y);
  }

  lemma NoEnd(s: string)
    requires '#' !in s && |s| != 52
    ensures !IsEnd(s)
  {
    forall e: End {
      SpelledForm(e);
    }
  }

  /** What is left of an identity after a bar, when that is an identity too: a node's name goes on before it. */
  lemma LaterEnd(e: End, x: string, f: End)
    requires e.Valid() && f.Valid() && Splits(e.Spelled(), x, f.Spelled())
    ensures e.OfNode? && f.OfNode? && e.node == x + ['|'] + f.node
  {
    if e.OfGuid? {
      GuidHalves(e.guid, x, f.Spelled());
    } else {
      var v := TailIsLast(x, f.Spelled(), e.node, e.place);
      if f.OfGuid? {
        HashIn(v, Position(e.place));
        SpelledForm(f);
      } else {
        TailUnique(v, e.place, f.node, f.place);
      }
    }
  }

  lemma InnerBar(x: string, y: string)
    requires y != ""
    ensures var s := x + ['|'] + y; '|' in s[..|s| - 1]
  {
    var s := x + ['|'] + y;
    assert s[..|s| - 1][|x|] == '|';
  }

  // ---- the condition suffices

  /** With one reader, the writers agree. */
  lemma SameWriter(t: string, w: End, t': string, w': End)
    requires w.Valid() && w'.Valid() && t + ['|'] + w.Spelled() == t' + ['|'] + w'.Spelled()
    requires w.OfNode? ==> '|' !in t && '|' !in w.node[..|w.node| - 1]
    ensures t == t' && w.Spelled() == w'.Spelled()
  {
    if |w'.Spelled()| < |w.Spelled()| {
      var x := Cut(t, w.Spelled(), t', w'.Spelled());
      LaterEnd(w, x, w');
      InnerBar(x, w'.node);
    } else if |w'.Spelled()| > |w.Spelled()| {
      var x := Cut(t', w'.Spelled(), t, w.Spelled());
      LaterEnd(w', x, w);
    } else {
      SameCut(t, w.Spelled(), t', w'.Spelled());
    }
  }

  /** A first half of a GUID identity is not what a text with an identity at its end ends with. */
  lemma HalfIsNoEnd(g: Guid, u: string, x: string, t: string, w: End, t': string)
    requires w.Valid() && Splits(OfGuid(g).Spelled(), u, x)
    ensures t + ['|'] + w.Spelled() != t' + ['|'] + u
  {
    GuidHalves(g, u, x);
    if t + ['|'] + w.Spelled() == t' + ['|'] + u {
      if |u| < |w.Spelled()| {
        var y := Cut(t, w.Spelled(), t', u);
        if w.OfGuid? {
          GuidHalves(w.guid, y, u);
        } else {
          var v := TailIsLast(y, u, w.node, w.place);
          HashIn(v, Position(w.place));
        }
      } else if |u| > |w.Spelled()| {
        var y := Cut(t', u, t, w.Spelled());
        BarIn(y, w.Spelled());
      } else {
        SameCut(t, w.Spelled(), t', u);
      }
    }
  }

  /** A reader that begins later: what was cut off before it ends in an identity. */
  lemma LaterReader(t: string, w: End, x: string, t': string, w': End)
    requires w.Valid() && w'.Valid() && t' + ['|'] + w'.Spelled() == t + ['|'] + w.Spelled() + ['|'] + x
    ensures EndsInEnd(x)
  {
    var p, v := t + ['|'] + w.Spelled(), w'.Spelled();
    if |v| < |x| {
      var u := Cut(p, x, t', v);
      if w'.OfNode? {
        assert x == (u + ['|'] + w'.node) + ['#'] + Position(w'.place);
      }
    } else if |v| > |x| {
      var u := Cut(t', v, p, x);
      if w'.OfNode? {
        var y := TailIsLast(u, x, w'.node, w'.place);
      } else {
        HalfIsNoEnd(w'.guid, u, x, t, w, t');
      }
    } else {
      SameCut(p, x, t', v);
    }
  }

  /** A reader that begins earlier takes in the writer, or its last bar. */
  lemma EarlierReader(t: string, w: End, x: string, t': string, w': End)
    requires w.Valid() && w'.Valid() && t + ['|'] + w.Spelled() == t' + ['|'] + w'.Spelled() + ['|'] + x
    ensures if w.OfGuid? then HasEnd(t)
            else '|' in t || '|' in w.node[..|w.node| - 1]
                 || (w.node[|w.node| - 1] == '|' && IsEnd(w.node[..|w.node| - 1]))
  {
    hide HasEnd, IsEnd, End.Spelled;
    var p := t' + ['|'] + w'.Spelled();
    BarIn(t', w'.Spelled());
    if |x| > |w.Spelled()| {
      var y := Cut(p, x, t, w.Spelled());
      BarIn(p, y);
      TopicHasEnd(t', w', ['|'] + y);
      assert t == p + (['|'] + y);
    } else if |x| == |w.Spelled()| {
      SameCut(t, w.Spelled(), p, x);
      TopicHasEnd(t', w', "");
      assert p + "" == p;
    } else if w.OfGuid? {
      var y := Cut(t, w.Spelled(), p, x);
      HalfIsNoEnd(w.guid, y, x, t', w', t);
    } else {
      var y := Cut(t, w.Spelled(), p, x);
      WriterHasEnd(t, w, y, x, t', w');
    }
  }

  lemma TopicHasEnd(u: string, e: End, rest: string)
    requires e.Valid() && (rest == "" || rest[0] == '|')
    ensures HasEnd(u + ['|'] + e.Spelled() + rest)
  {
    assert EndWithin(u + ['|'] + e.Spelled() + rest, u, e, rest);
  }

  lemma WriterHasEnd(t: string, w: End, y: string, x: string, t': string, w': End)
    requires w.Valid() && w'.Valid() && w.OfNode? && Splits(w.Spelled(), y, x) && t' + ['|'] + w'.Spelled() == t + ['|'] + y
    ensures '|' in t || '|' in w.node[..|w.node| - 1]
            || (w.node[|w.node| - 1] == '|' && IsEnd(w.node[..|w.node| - 1]))
  {
    var v := TailIsLast(y, x, w.node, w.place);
    assert IsEnd(w'.Spelled());
    hide End.Spelled, IsEnd;
    assert w.node == y + ['|'] + v;
    if v != "" {
      InnerBar(y, v);
    } else {
      assert w.node[..|w.node| - 1] == y && w.node[|w.node| - 1] == '|';
      if '|' !in t && '|' !in y {
        LastBar(t, y, t', w'.Spelled());
      }
    }
  }

  /** A text with one bar is cut in one way. */
  lemma LastBar(t: string, y: string, t': string, w': string)
    requires '|' !in t && '|' !in y && t' + ['|'] + w' == t + ['|'] + y
    ensures t == t' && y == w'
  {
    if |w'| < |y| {
      var z := Cut(t, y, t', w');
    } else if |w'| > |y| {
      var z := Cut(t', w', t, y);
    } else {
      SameCut(t, y, t', w');
    }
  }

  lemma ToldApartIsUnique(t: string, w: End, r: End, t': string, w': End, r': End)
    requires w.Valid() && r.Valid() && w'.Valid() && r'.Valid() && ToldApart(t, w, r)
    requires KeyId(Key(t, w, r)) == KeyId(Key(t', w', r'))
    ensures Key(t, w, r) == Key(t', w', r')
  {
    hide IsEnd, EndsInEnd, HasEnd, End.Spelled;
    var p, q := t + ['|'] + w.Spelled(), t' + ['|'] + w'.Spelled();
    assert p + ['|'] + r.Spelled() == q + ['|'] + r'.Spelled();
    if |r'.Spelled()| < |r.Spelled()| {
      var x := Cut(p, r.Spelled(), q, r'.Spelled());
      LaterEnd(r, x, r');
      assert Splits(r.node, x, r'.node);
      LaterReader(t, w, x, t', w');
    } else if |r'.Spelled()| > |r.Spelled()| {
      var x := Cut(q, r'.Spelled(), p, r.Spelled());
      LaterEnd(r', x, r);
      EarlierReader(t, w, x, t', w');
    } else {
      SameCut(p, r.Spelled(), q, r'.Spelled());
      SameWriter(t, w, t', w');
    }
  }

  // ---- the condition is needed

  /** The key that takes its place: another one of the same text. */
  ghost predicate Confused(t: string, w: End, r: End) {
    exists t', w': End, r': End :: Confuses(t, w, r, t', w', r')
  }

  ghost predicate Confuses(t: string, w: End, r: End, t': string, w': End, r': End) {
    w'.Valid() && r'.Valid() && Key(t', w', r') != Key(t, w, r) && KeyId(Key(t', w', r')) == KeyId(Key(t, w, r))
  }

  /** The bar between topic and writer moves over a part of the writer, or of the topic. */
  lemma WriterMoves(t: string, x: string, v: string, r: string)
    ensures KeyId(Ident(t + ['|'] + x, v, r)) == KeyId(Ident(t, x + ['|'] + v, r))
  {
    assert t + ['|'] + x + "|" + v + "|" + r == t + "|" + (x + ['|'] + v) + "|" + r;
  }

  lemma ReaderMoves(t: string, w: string, x: string, v: string)
    ensures KeyId(Ident(t, w + ['|'] + x, v)) == KeyId(Ident(t, w, x + ['|'] + v))
  {
    assert t + "|" + (w + ['|'] + x) + "|" + v == t + "|" + w + "|" + (x + ['|'] + v);
  }

  lemma NodeGoesOn(x: string, e: End)
    requires e.OfNode?
    ensures OfNode(x + e.node, e.place).Spelled() == x + e.Spelled()
  {
  }

  lemma BarInTopic(t: string, w: End, r: End)
    requires w.Valid() && r.Valid() && w.OfNode? && '|' in t
    ensures Confused(t, w, r)
  {
    hide End.Spelled, KeyId;
    var x, y := AtBar(t);
    var w' := OfNode(y + ['|'] + w.node, w.place);
    NodeGoesOn(y + ['|'], w);
    WriterMoves(x, y, w.Spelled(), r.Spelled());
    assert |x| < |t|;
    assert Confuses(t, w, r, x, w', r);
  }

  lemma BarInWriter(t: string, w: End, r: End)
    requires w.Valid() && r.Valid() && w.OfNode? && '|' in w.node[..|w.node| - 1]
    ensures Confused(t, w, r)
  {
    var i :| 0 <= i < |w.node| - 1 && w.node[i] == '|';
    var x, y := w.node[..i], w.node[i + 1..];
    var w' := OfNode(y, w.place);
    hide End.Spelled, KeyId;
    assert w.node == x + ['|'] + y;
    NodeGoesOn(x + ['|'], w');
    WriterMoves(t, x, w'.Spelled(), r.Spelled());
    assert Confuses(t, w, r, t + ['|'] + x, w', r);
  }

  lemma NodeAndBar(w: End, x: string)
    requires w.OfNode? && w.node != "" && w.node[|w.node| - 1] == '|' && x == w.node[..|w.node| - 1]
    ensures w.Spelled() == x + ['|'] + (['#'] + Position(w.place))
  {
    assert w.node == x + ['|'];
  }

  lemma EndBeforeBar(t: string, w: End, r: End)
    requires w.Valid() && r.Valid() && w.OfNode? && r.OfNode?
    requires w.node[|w.node| - 1] == '|' && IsEnd(w.node[..|w.node| - 1])
    ensures Confused(t, w, r)
  {
    hide KeyId, Position, GuidString;
    var x, tail := w.node[..|w.node| - 1], ['#'] + Position(w.place);
    NodeAndBar(w, x);
    hide End.Spelled;
    var w': End :| w'.Valid() && x == w'.Spelled();
    var r' := OfNode(tail + ['|'] + r.node, r.place);
    NodeGoesOn(tail + ['|'], r);
    ReaderMoves(t, x, tail, r.Spelled());
    assert |r'.Spelled()| > |r.Spelled()|;
    assert Confuses(t, w, r, t, w', r');
  }

  lemma EndInReader(t: string, w: End, r: End, x: string, y: string)
    requires w.Valid() && r.Valid() && r.OfNode? && Splits(r.node, x, y) && y != "" && EndsInEnd(x)
    ensures Confused(t, w, r)
  {
    hide End.Spelled, EndsInEnd;
    var r' := OfNode(y, r.place);
    NodeGoesOn(x + ['|'], r');
    var t', w' := ReadEnd(t + ['|'] + w.Spelled(), x);
    assert KeyId(Key(t', w', r')) == KeyId(Key(t, w, r));
    assert |r'.Spelled()| < |r.Spelled()|;
    assert Confuses(t, w, r, t', w', r');
  }

  /** A text and what ends in an identity, read as a topic and an identity. */
  lemma ReadEnd(p: string, x: string) returns (t': string, w': End)
    requires EndsInEnd(x) && '|' in p
    ensures w'.Valid() && t' + ['|'] + w'.Spelled() == p + ['|'] + x
  {
    hide Position, GuidString;
    if Tailed(x) {
      var y, i :| i >= -1 && x == y + ['#'] + Position(i);
      var u, v := AtBar(p);
      t', w' := u, OfNode(v + ['|'] + y, i);
      assert w'.Spelled() == v + ['|'] + x;
    } else if IsEnd(x) {
      w' :| w'.Valid() && x == w'.Spelled();
      t' := p;
    } else {
      var u, g :| x == u + ['|'] + OfGuid(g).Spelled();
      t', w' := p + ['|'] + u, OfGuid(g);
    }
  }

  /** An identity in the topic becomes the writer, and all that comes after it the reader. */
  lemma TopicMoves(u: string, v: string, rest: string, w: string, r: string)
    requires rest == "" || rest[0] == '|'
    ensures KeyId(Ident(u, v, (rest + ['|'] + w + ['|'])[1..] + r)) == KeyId(Ident(u + ['|'] + v + rest, w, r))
  {
    var more := rest + ['|'] + w + ['|'];
    assert more == ['|'] + more[1..];
    assert u + "|" + v + "|" + (more[1..] + r) == u + ['|'] + v + (['|'] + more[1..]) + r;
  }

  lemma EndInTopic(t: string, w: End, r: End)
    requires w.Valid() && r.Valid() && r.OfNode? && HasEnd(t)
    ensures Confused(t, w, r)
  {
    hide End.Spelled;
    var u, w': End, rest :| EndWithin(t, u, w', rest);
    var more := rest + ['|'] + w.Spelled() + ['|'];
    assert more[0] == '|' && more == ['|'] + more[1..];
    var r' := OfNode(more[1..] + r.node, r.place);
    NodeGoesOn(more[1..], r);
    TopicMoves(u, w'.Spelled(), rest, w.Spelled(), r.Spelled());
    hide KeyId;
    assert |u| < |t|;
    assert Confuses(t, w, r, u, w', r');
  }

  /** Under the node key a pair's key text is its own, among all keys the viewer makes, if and only if its names are such. */
  lemma NodeKeyUniqueIff(t: string, w: End, r: End)
    requires w.Valid() && r.Valid()
    ensures !Confused(t, w, r) <==> ToldApart(t, w, r)
  {
    if ToldApart(t, w, r) {
      forall t', w': End, r': End
        ensures !Confuses(t, w, r, t', w', r')
      {
        if Confuses(t, w, r, t', w', r') {
          ToldApartIsUnique(t, w, r, t', w', r');
        }
      }
    } else {
      hide Confused, IsEnd, EndsInEnd, HasEnd;
      if w.OfNode? && '|' in t {
        BarInTopic(t, w, r);
      } else if w.OfNode? && '|' in w.node[..|w.node| - 1] {
        BarInWriter(t, w, r);
      } else if w.OfNode? && r.OfNode? && w.node[|w.node| - 1] == '|' && IsEnd(w.node[..|w.node| - 1]) {
        EndBeforeBar(t, w, r);
      } else if w.OfGuid? && r.OfNode? && HasEnd(t) {
        EndInTopic(t, w, r);
      } else {
        var x, y :| Splits(r.node, x, y) && y != "" && EndsInEnd(x);
        EndInReader(t, w, r, x, y);
      }
    }
  }

  /** Names and topics without a bar are such. */
  lemma BarFreeToldApart(t: string, w: End, r: End)
    requires w.Valid() && r.Valid() && '|' !in t && (w.OfNode? ==> '|' !in w.node) && (r.OfNode? ==> '|' !in r.node)
    ensures ToldApart(t, w, r)
  {
    if w.OfNode? {
      assert w.node[|w.node| - 1] in w.node && forall c :: c in w.node[..|w.node| - 1] ==> c in w.node;
    }
    forall x, y {
      BarIn(x, y);
    }
    hide End.Spelled;
    forall u, v, rest: string
      ensures '|' in u + ['|'] + v + rest
    {
      assert (u + ['|'] + v + rest)[|u|] == '|';
    }
  }

  const INNER := DocTopic("t", [DocEndpoint("w", "a|b")], [DocEndpoint("r", "c")],
                          [DocPair("w", "r", "a|b", "c", Known(ViaSHM), Certain, None, [], None)])
  const OUTER := DocTopic("t|a", [DocEndpoint("w", "b")], [DocEndpoint("r", "c")],
                          [DocPair("w", "r", "b", "c", Known(ViaSHM), Certain, None, [], None)])

  lemma OneGuid(e: DocEndpoint, f: DocEndpoint)
    requires e.node != f.node
    ensures NodeGuids([e, f], e.node) == [e.guid] && NodeGuids([e, f], f.node) == [f.guid]
  {
    assert [e, f][..1] == [e] && [e][..0] == [];
    assert NodeGuids([e], e.node) == NodeGuids([], e.node) + [e.guid];
    assert NodeGuids([e], f.node) == NodeGuids([], f.node) + [];
  }

  lemma FirstOfNode(t: DocTopic, guid: string, node: string)
    requires node != "" && NodeGuids(t.writers + t.readers, node) == [guid]
    ensures Identity(t, guid, node) == node + "#0"
  {
    var s := Ranks.Sort([guid]);
    assert Ranks.Sort([guid][1..]) == [];
    assert s == [guid] && Ranks.IndexOf(s, guid) == 0;
    assert Dec(0) == "0";
  }

  lemma OneText()
    ensures KeyId(Ident("t", "a|b#0", "c#0")) == KeyId(Ident("t|a", "b#0", "c#0"))
  {
    assert KeyId(Ident("t", "a|b#0", "c#0")) == "t|a|b#0|c#0" == KeyId(Ident("t|a", "b#0", "c#0"));
  }

  /** Two topics whose pairs share a key text: topic `t` with the node `a|b`, and topic `t|a` with the node `b`. */
  lemma KeyIdCollision()
    ensures var a, b := IdentOf(INNER, INNER.pairs[0], ByNode), IdentOf(OUTER, OUTER.pairs[0], ByNode);
            a == Ident("t", "a|b#0", "c#0") && b == Ident("t|a", "b#0", "c#0") && KeyId(a) == KeyId(b)
  {
    assert INNER.writers + INNER.readers == [DocEndpoint("w", "a|b"), DocEndpoint("r", "c")];
    assert OUTER.writers + OUTER.readers == [DocEndpoint("w", "b"), DocEndpoint("r", "c")];
    OneGuid(DocEndpoint("w", "a|b"), DocEndpoint("r", "c"));
    OneGuid(DocEndpoint("w", "b"), DocEndpoint("r", "c"));
    FirstOfNode(INNER, "w", "a|b");
    FirstOfNode(INNER, "r", "c");
    FirstOfNode(OUTER, "w", "b");
    FirstOfNode(OUTER, "r", "c");
    hide IdentOf, KeyId, Identity, NodeGuids;
    OneText();
  }
}
