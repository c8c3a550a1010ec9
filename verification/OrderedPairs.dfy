/** The pairs of a snapshot in key order: std::map<PairKey, ...> as the sorted sequence it iterates over. */
module OrderedPairs {
  import opened Text
  import opened Model
  import opened Snapshot

  // ---- the order of identities

  predicate IdentLess(a: Ident, b: Ident) {
    Less(a.topic, b.topic)
    || (a.topic == b.topic && (Less(a.writer, b.writer) || (a.writer == b.writer && Less(a.reader, b.reader))))
  }

  lemma IdentOrder(a: Ident, b: Ident, c: Ident)
    ensures !IdentLess(a, a)
    ensures a == b || IdentLess(a, b) || IdentLess(b, a)
    ensures IdentLess(a, b) && IdentLess(b, c) ==> IdentLess(a, c)
  {
    LessIrreflexive(a.topic);
    LessIrreflexive(a.writer);
    LessIrreflexive(a.reader);
    LessTotal(a.topic, b.topic);
    LessTotal(a.writer, b.writer);
    LessTotal(a.reader, b.reader);
    if IdentLess(a, b) && IdentLess(b, c) {
      if Less(a.topic, b.topic) && Less(b.topic, c.topic) {
        LessTransitive(a.topic, b.topic, c.topic);
      }
      if Less(a.writer, b.writer) && Less(b.writer, c.writer) {
        LessTransitive(a.writer, b.writer, c.writer);
      }
      if Less(a.reader, b.reader) && Less(b.reader, c.reader) {
        LessTransitive(a.reader, b.reader, c.reader);
      }
    }
  }

  lemma NotBoth(a: Ident, b: Ident)
    requires IdentLess(a, b)
    ensures !IdentLess(b, a) && a != b
  {
    IdentOrder(a, b, a);
  }

  // ---- ordered maps

  /** `ident` is the key the map is ordered by, `key` and `state` the value found under it. */
  datatype Entry = Entry(ident: Ident, key: PairKey, state: PairState)

  predicate Ordered(es: seq<Entry>) {
    forall i, j :: 0 <= i < j < |es| ==> IdentLess(es[i].ident, es[j].ident)
  }

  /** out[e.ident] = e */
  function Put(es: seq<Entry>, e: Entry): (r: seq<Entry>) {
    if es == [] || IdentLess(e.ident, es[0].ident) then [e] + es
    else if es[0].ident == e.ident then [e] + es[1..]
    else [es[0]] + Put(es[1..], e)
  }

  function IdentsOf(es: seq<Entry>): set<Ident> {
    set e | e in es :: e.ident
  }

  function Find(es: seq<Entry>, id: Ident): (r: Option<Entry>)
    ensures r.Some? ==> r.value in es && r.value.ident == id
    ensures r.None? ==> id !in IdentsOf(es)
  {
    if es == [] then None
    else if es[0].ident == id then Some(es[0])
    else Find(es[1..], id)
  }

  lemma OrderedTail(es: seq<Entry>)
    requires es != [] && Ordered(es)
    ensures Ordered(es[1..]) && forall e :: e in es[1..] ==> IdentLess(es[0].ident, e.ident)
  {
  }

  lemma OrderedCons(e: Entry, es: seq<Entry>)
    requires Ordered(es) && forall x :: x in es ==> IdentLess(e.ident, x.ident)
    ensures Ordered([e] + es)
  {
    var r := [e] + es;
    forall i, j | 0 <= i < j < |r|
      ensures IdentLess(r[i].ident, r[j].ident)
    {
      assert r[j] == es[j - 1];
      if i > 0 {
        assert r[i] == es[i - 1];
      }
    }
  }

  lemma {:induction false} PutMember(es: seq<Entry>, e: Entry)
    requires Ordered(es)
    ensures Ordered(Put(es, e))
    ensures forall x :: x in Put(es, e) <==> x == e || (x in es && x.ident != e.ident)
  {
    if es == [] {
    } else {
      var head, tail := es[0], es[1..];
      OrderedTail(es);
      assert es == [head] + tail;
      IdentOrder(e.ident, head.ident, head.ident);
      if IdentLess(e.ident, head.ident) {
        forall x | x in es
          ensures IdentLess(e.ident, x.ident) && x.ident != e.ident
        {
          IdentOrder(e.ident, head.ident, x.ident);
          NotBoth(e.ident, x.ident);
        }
        OrderedCons(e, es);
      } else if head.ident == e.ident {
        forall x | x in tail
          ensures x.ident != e.ident
        {
          NotBoth(e.ident, x.ident);
        }
        OrderedCons(e, tail);
      } else {
        PutMember(tail, e);
        OrderedCons(head, Put(tail, e));
      }
    }
  }

  lemma PutIdents(es: seq<Entry>, e: Entry)
    requires Ordered(es)
    ensures Ordered(Put(es, e)) && IdentsOf(Put(es, e)) == IdentsOf(es) + {e.ident}
  {
    PutMember(es, e);
    hide Ordered, Put;
    assert e in Put(es, e);
    assert forall x :: x in es && x.ident != e.ident ==> x in Put(es, e);
  }

  lemma {:induction false} FindOrdered(es: seq<Entry>, e: Entry)
    requires Ordered(es) && e in es
    ensures Find(es, e.ident) == Some(e)
  {
    OrderedTail(es);
    if es[0] != e {
      NotBoth(es[0].ident, e.ident);
      FindOrdered(es[1..], e);
    }
  }

  /** An ordered map has as many entries as identities. */
  lemma {:induction false} OrderedSize(es: seq<Entry>)
    requires Ordered(es)
    ensures |IdentsOf(es)| == |es|
  {
    if es != [] {
      OrderedTail(es);
      OrderedSize(es[1..]);
      assert es[0].ident !in IdentsOf(es[1..]) by {
        if es[0].ident in IdentsOf(es[1..]) {
          IdentOrder(es[0].ident, es[0].ident, es[0].ident);
        }
      }
      assert IdentsOf(es) == {es[0].ident} + IdentsOf(es[1..]);
    }
  }
}
