/** The recording as the viewer keeps it: growable typed arrays per pair, compacted in place (web/replay.js). */
module RecordingStore {
  import opened Model
  import opened Documents
  import opened Recording

  // ---- one typed array

  ghost predicate Holds<T>(a: array<T>, column: seq<T>)
    reads a
  {
    a.Length == |column| && forall i :: 0 <= i < |column| ==> a[i] == column[i]
  }

  ghost predicate Apart(a: object, b: object) {
    a != b
  }

  function Grown<T>(s: seq<T>, n: nat, fill: T): (g: seq<T>)
    requires |s| <= n
    ensures |g| == n
  {
    s + seq(n - |s|, _ => fill)
  }

  /** The first `n` of `frames` elements go, the freed places at the end of them are reset. */
  function Shifted<T>(s: seq<T>, n: nat, frames: nat, fill: T): (g: seq<T>)
    requires n <= frames <= |s|
    ensures |g| == |s|
  {
    s[n..frames] + seq(n, _ => fill) + s[frames..]
  }

  method GrowArray<T(0)>(a: array<T>, ghost column: seq<T>, n: nat, fill: T) returns (b: array<T>)
    requires Holds(a, column) && a.Length <= n
    ensures fresh(b) && Holds(b, Grown(column, n, fill))
  {
    b := new T[n];
    for i := 0 to n
      invariant forall j :: 0 <= j < i ==> b[j] == Grown(column, n, fill)[j]
    {
      b[i] := if i < a.Length then a[i] else fill;
    }
  }

  /** copyWithin(0, n, frames), then fill(fill, frames - n, frames). */
  method ShiftArray<T>(a: array<T>, ghost column: seq<T>, n: nat, frames: nat, fill: T)
    requires Holds(a, column) && n <= frames <= a.Length
    modifies a
    ensures Holds(a, Shifted(column, n, frames, fill))
  {
    for i := 0 to frames - n
      invariant forall j :: 0 <= j < i ==> a[j] == column[j + n]
      invariant forall j :: i <= j < a.Length ==> a[j] == column[j]
    {
      a[i] := a[i + n];
    }
    for i := frames - n to frames
      invariant forall j :: 0 <= j < i ==> a[j] == Shifted(column, n, frames, fill)[j]
      invariant forall j :: frames <= j < a.Length ==> a[j] == column[j]
    {
      a[i] := fill;
    }
  }

  method NewArray<T>(ghost column: seq<T>, n: nat, fill: T) returns (a: array<T>)
    requires |column| == n && forall i :: 0 <= i < n ==> column[i] == fill
    ensures fresh(a) && Holds(a, column)
  {
    a := new T[n](_ => fill);
  }

  method SetAt<T>(a: array<T>, ghost column: seq<T>, i: nat, v: T)
    requires Holds(a, column) && i < a.Length
    modifies a
    ensures Holds(a, column[i := v])
  {
    a[i] := v;
  }

  // ---- the columns of a sequence of slots

  ghost function Transports(s: seq<Slot>): seq<nat> { seq(|s|, i requires 0 <= i < |s| => s[i].transport) }
  ghost function Guids(s: seq<Slot>): seq<bv32> { seq(|s|, i requires 0 <= i < |s| => s[i].guids) }
  ghost function Hzs(s: seq<Slot>): seq<Num> { seq(|s|, i requires 0 <= i < |s| => s[i].hz) }
  ghost function Means(s: seq<Slot>): seq<Num> { seq(|s|, i requires 0 <= i < |s| => s[i].latencyMean) }
  ghost function Samples(s: seq<Slot>): seq<Num> { seq(|s|, i requires 0 <= i < |s| => s[i].latencySamples) }
  ghost function Losts(s: seq<Slot>): seq<Num> { seq(|s|, i requires 0 <= i < |s| => s[i].lost) }

  lemma EmptyColumns(n: nat)
    ensures var s := Empties(n);
            |s| == n && |Transports(s)| == n && |Guids(s)| == n && |Hzs(s)| == n && |Means(s)| == n && |Samples(s)| == n
            && |Losts(s)| == n
            && forall i :: 0 <= i < n ==> Transports(s)[i] == 0 && Guids(s)[i] == 0 && Hzs(s)[i] == NaN
                                          && Means(s)[i] == NaN && Samples(s)[i] == NaN && Losts(s)[i] == NaN
  {
  }

  lemma GrownSlots(s: seq<Slot>, n: nat)
    requires |s| <= n
    ensures var g := Grown(s, n, EMPTY);
            Transports(g) == Grown(Transports(s), n, 0) && Guids(g) == Grown(Guids(s), n, 0)
            && Hzs(g) == Grown(Hzs(s), n, NaN) && Means(g) == Grown(Means(s), n, NaN)
            && Samples(g) == Grown(Samples(s), n, NaN) && Losts(g) == Grown(Losts(s), n, NaN)
  {
  }

  lemma ShiftedState(s: seq<Slot>, n: nat, frames: nat)
    requires n <= frames <= |s|
    ensures var g := Shifted(s, n, frames, EMPTY);
            Transports(g) == Shifted(Transports(s), n, frames, 0) && Guids(g) == Shifted(Guids(s), n, frames, 0)
            && Hzs(g) == Shifted(Hzs(s), n, frames, NaN)
  {
  }

  lemma ShiftedCounters(s: seq<Slot>, n: nat, frames: nat)
    requires n <= frames <= |s|
    ensures var g := Shifted(s, n, frames, EMPTY);
            Means(g) == Shifted(Means(s), n, frames, NaN) && Samples(g) == Shifted(Samples(s), n, frames, NaN)
            && Losts(g) == Shifted(Losts(s), n, frames, NaN)
  {
  }

  lemma WrittenColumns(s: seq<Slot>, i: nat, v: Slot)
    requires i < |s|
    ensures var g := s[i := v];
            Transports(g) == Transports(s)[i := v.transport] && Guids(g) == Guids(s)[i := v.guids]
            && Hzs(g) == Hzs(s)[i := v.hz] && Means(g) == Means(s)[i := v.latencyMean]
            && Samples(g) == Samples(s)[i := v.latencySamples] && Losts(g) == Losts(s)[i := v.lost]
  {
  }

  /** The values of one pair, one array per kind of value. */
  class Series {
    ghost var Slots: seq<Slot>
    ghost var Repr: set<object>
    var transport: array<nat>
    var guids: array<bv32>
    var hz: array<Num>
    var latencyMean: array<Num>
    var latencySamples: array<Num>
    var lost: array<Num>

    ghost predicate Valid()
      reads this, Repr
      ensures Valid() ==> this in Repr
    {
      Repr == {this, transport, guids, hz, latencyMean, latencySamples, lost}
      && Apart(transport, guids) && Apart(transport, hz) && Apart(transport, latencyMean)
      && Apart(transport, latencySamples) && Apart(transport, lost)
      && Apart(guids, hz) && Apart(guids, latencyMean) && Apart(guids, latencySamples) && Apart(guids, lost)
      && hz != latencyMean && hz != latencySamples && hz != lost
      && latencyMean != latencySamples && latencyMean != lost && latencySamples != lost
      && Holds(transport, Transports(Slots)) && Holds(guids, Guids(Slots)) && Holds(hz, Hzs(Slots))
      && Holds(latencyMean, Means(Slots)) && Holds(latencySamples, Samples(Slots)) && Holds(lost, Losts(Slots))
    }

    constructor (n: nat)
      ensures Valid() && fresh(Repr) && Slots == Empties(n)
    {
      EmptyColumns(n);
      hide Holds, Empties, Transports, Guids, Hzs, Means, Samples, Losts;
      var t := NewArray(Transports(Empties(n)), n, 0);
      var g := NewArray(Guids(Empties(n)), n, 0);
      var h := NewArray(Hzs(Empties(n)), n, NaN);
      var mean := NewArray(Means(Empties(n)), n, NaN);
      var samples := NewArray(Samples(Empties(n)), n, NaN);
      var l := NewArray(Losts(Empties(n)), n, NaN);
      transport, guids, hz, latencyMean, latencySamples, lost := t, g, h, mean, samples, l;
      Slots := Empties(n);
      new;
      Repr := {this, transport, guids, hz, latencyMean, latencySamples, lost};
    }

    method Grow(n: nat)
      requires Valid() && |Slots| <= n
      modifies this
      ensures Valid() && fresh(Repr - old(Repr)) && Slots == Grown(old(Slots), n, EMPTY)
    {
      hide Holds, Grown, Transports, Guids, Hzs, Means, Samples, Losts;
      var t, g, h := GrownState(n);
      var mean, samples, l := GrownCounters(n);
      Adopt(t, g, h, mean, samples, l, Grown(Slots, n, EMPTY));
    }

    method Adopt(t: array<nat>, g: array<bv32>, h: array<Num>, mean: array<Num>, samples: array<Num>, l: array<Num>,
                 ghost slots: seq<Slot>)
      requires Apart(t, g) && Apart(t, h) && Apart(t, mean) && Apart(t, samples) && Apart(t, l)
      requires Apart(g, h) && Apart(g, mean) && Apart(g, samples) && Apart(g, l)
      requires h != mean && h != samples && h != l && mean != samples && mean != l && samples != l
      requires Holds(t, Transports(slots)) && Holds(g, Guids(slots)) && Holds(h, Hzs(slots))
      requires Holds(mean, Means(slots)) && Holds(samples, Samples(slots)) && Holds(l, Losts(slots))
      modifies this
      ensures Valid() && Repr == {this, t, g, h, mean, samples, l} && Slots == slots
    {
      hide Holds, Transports, Guids, Hzs, Means, Samples, Losts;
      transport, guids, hz, latencyMean, latencySamples, lost := t, g, h, mean, samples, l;
      Slots, Repr := slots, {this, t, g, h, mean, samples, l};
    }

    method GrownState(n: nat) returns (t: array<nat>, g: array<bv32>, h: array<Num>)
      requires Valid() && |Slots| <= n
      ensures fresh(t) && fresh(g) && fresh(h) && Apart(t, g) && Apart(t, h) && Apart(g, h)
      ensures var s := Grown(Slots, n, EMPTY); Holds(t, Transports(s)) && Holds(g, Guids(s)) && Holds(h, Hzs(s))
    {
      GrownSlots(Slots, n);
      t := GrowArray(transport, Transports(Slots), n, 0);
      g := GrowArray(guids, Guids(Slots), n, 0);
      h := GrowArray(hz, Hzs(Slots), n, NaN);
    }

    method GrownCounters(n: nat) returns (mean: array<Num>, samples: array<Num>, l: array<Num>)
      requires Valid() && |Slots| <= n
      ensures fresh(mean) && fresh(samples) && fresh(l) && mean != samples && mean != l && samples != l
      ensures var s := Grown(Slots, n, EMPTY); Holds(mean, Means(s)) && Holds(samples, Samples(s)) && Holds(l, Losts(s))
    {
      GrownSlots(Slots, n);
      mean := GrowArray(latencyMean, Means(Slots), n, NaN);
      samples := GrowArray(latencySamples, Samples(Slots), n, NaN);
      l := GrowArray(lost, Losts(Slots), n, NaN);
    }

    method Write(i: nat, c: Called)
      requires Valid() && i < |Slots|
      modifies Repr
      ensures Valid() && Repr == old(Repr) && Slots == old(Slots)[i := Written(old(Slots)[i], c)]
    {
      WriteState(i, TransportCode(c.pair.transport), Hash32(KeyId(c.actual.Id())));
      if c.pair.measured.Some? {
        var m := c.pair.measured.value;
        WriteHz(i, m.deliveredPerS);
        if m.latency.Some? {
          WriteLatency(i, m.latency.value.mean, m.latency.value.samples);
        }
        if m.lost.Some? {
          WriteLost(i, m.lost.value);
        }
      }
    }

    method WriteState(i: nat, code: nat, hash: bv32)
      requires Valid() && i < |Slots|
      modifies Repr
      ensures Valid() && Repr == old(Repr) && Slots == old(Slots)[i := old(Slots)[i].(transport := code, guids := hash)]
    {
      WrittenColumns(Slots, i, Slots[i].(transport := code, guids := hash));
      SetAt(transport, Transports(Slots), i, code);
      SetAt(guids, Guids(Slots), i, hash);
      Slots := Slots[i := Slots[i].(transport := code, guids := hash)];
    }

    method WriteHz(i: nat, v: Num)
      requires Valid() && i < |Slots|
      modifies Repr
      ensures Valid() && Repr == old(Repr) && Slots == old(Slots)[i := old(Slots)[i].(hz := v)]
    {
      WrittenColumns(Slots, i, Slots[i].(hz := v));
      SetAt(hz, Hzs(Slots), i, v);
      Slots := Slots[i := Slots[i].(hz := v)];
    }

    method WriteLatency(i: nat, mean: Num, samples: Num)
      requires Valid() && i < |Slots|
      modifies Repr
      ensures Valid() && Repr == old(Repr)
      ensures Slots == old(Slots)[i := old(Slots)[i].(latencyMean := mean, latencySamples := samples)]
    {
      WrittenColumns(Slots, i, Slots[i].(latencyMean := mean, latencySamples := samples));
      SetAt(latencyMean, Means(Slots), i, mean);
      SetAt(latencySamples, Samples(Slots), i, samples);
      Slots := Slots[i := Slots[i].(latencyMean := mean, latencySamples := samples)];
    }

    method WriteLost(i: nat, v: Num)
      requires Valid() && i < |Slots|
      modifies Repr
      ensures Valid() && Repr == old(Repr) && Slots == old(Slots)[i := old(Slots)[i].(lost := v)]
    {
      WrittenColumns(Slots, i, Slots[i].(lost := v));
      SetAt(lost, Losts(Slots), i, v);
      Slots := Slots[i := Slots[i].(lost := v)];
    }

    method Shift(n: nat, frames: nat)
      requires Valid() && n <= frames <= |Slots|
      modifies Repr
      ensures Valid() && Repr == old(Repr) && Slots == Shifted(old(Slots), n, frames, EMPTY)
    {
      ShiftedState(Slots, n, frames);
      ShiftedCounters(Slots, n, frames);
      ShiftArray(transport, Transports(Slots), n, frames, 0);
      ShiftArray(guids, Guids(Slots), n, frames, 0);
      ShiftArray(hz, Hzs(Slots), n, frames, NaN);
      ShiftArray(latencyMean, Means(Slots), n, frames, NaN);
      ShiftArray(latencySamples, Samples(Slots), n, frames, NaN);
      ShiftArray(lost, Losts(Slots), n, frames, NaN);
      Slots := Shifted(Slots, n, frames, EMPTY);
    }

    method IsPresent(left: nat) returns (present: bool)
      requires Valid() && left <= |Slots|
      ensures present == Present(Slots[..left])
    {
      present := false;
      for i := 0 to left
        invariant !present
        invariant forall j :: 0 <= j < i ==> Slots[j].transport == 0
      {
        assert Slots[i].transport == Transports(Slots)[i];
        if transport[i] != 0 {
          assert Slots[..left][i].transport != 0;
          return true;
        }
      }
    }
  }

  const FIRST_CAPACITY := 16

  ghost function Claim(owner: map<object, string>, objects: set<object>, id: string): (owner': map<object, string>)
    ensures owner'.Keys == owner.Keys + objects
    ensures forall o :: o in objects ==> owner'[o] == id
    ensures forall o :: o in owner && o !in objects ==> owner'[o] == owner[o]
  {
    owner + map o | o in objects :: id
  }

  class RecordingStore {
    const key: KeyMode
    var frames: nat
    var starts: seq<nat>
    var ends: seq<nat>
    var observedAt: seq<string>
    var changed: seq<bool>
    var series: map<string, Series>
    var capacity: nat
    ghost var Owner: map<object, string>   // the series each array belongs to
    ghost var Cols: Columns   // the whole arrays, the slots past the last frame included

    /** The series other than `except` are intact, and no two of them share an array. */
    /** The series under `id` owns its objects, and its arrays hold its column. */
    ghost predicate SeriesSound(id: string)
      requires id in series && id in Cols
      reads `series, `Owner, `Cols, series.Values, Owner.Keys
    {
      series[id] in Owner && series[id].Repr <= Owner.Keys && series[id].Valid() && series[id].Slots == Cols[id]
      && forall o :: o in series[id].Repr ==> Owner[o] == id
    }

    ghost predicate SoundBut(except: set<string>)
      reads `series, `Owner, `Cols, series.Values, Owner.Keys
    {
      this !in Owner && Cols.Keys == series.Keys && forall id :: id in series && id !in except ==> SeriesSound(id)
    }

    ghost predicate Sound()
      reads `series, `Owner, `Cols, series.Values, Owner.Keys
    {
      this !in Owner && Cols.Keys == series.Keys && SoundBut({})
    }

    /** Takes the arrays a series has now into account. */
    /** What happens to the objects of one series leaves the others as they were. */
    twostate lemma OthersSound(id: string)
      requires old(Sound()) && id in old(series) && series == old(series) && Owner == old(Owner) && Cols == old(Cols)
      requires forall o: object :: o in old(Owner) && o !in old(series[id].Repr) ==> unchanged(o)
      ensures forall other :: other in series && other != id ==> SeriesSound(other)
    {
      hide Series.Valid;
      forall other | other in series && other != id
        ensures SeriesSound(other)
      {
        assert old(SeriesSound(other));
      }
    }

    ghost method Reclaim(id: string)
      requires SoundBut({id}) && id in series && series[id].Valid() && this !in series[id].Repr
      requires forall o :: o in series[id].Repr && o in Owner ==> Owner[o] == id
      modifies `Owner, `Cols
      ensures Sound() && Owner.Keys == old(Owner.Keys) + series[id].Repr && Cols == old(Cols)[id := series[id].Slots]
    {
      hide Series.Valid, Claim;
      hide Apart;
      Owner, Cols := Claim(Owner, series[id].Repr, id), Cols[id := series[id].Slots];
    }

    ghost predicate SeriesValid()
      reads `series, `Owner, `Cols, `capacity, series.Values, Owner.Keys
    {
      Sound() && AllLong(Cols, capacity)
    }

    /** Every array is `capacity` long, and reads absent from `frames` on. */
    ghost predicate Valid()
      reads this, series.Values, Owner.Keys
    {
      SeriesValid() && 0 < capacity && frames <= capacity
      && |starts| == |ends| == |observedAt| == |changed| == frames
      && EmptyFrom(Cols, frames, capacity)
    }

    /** The recording these arrays hold. */
    ghost function View(): (r: Rec)
      requires Valid()
      reads this, series.Values, Owner.Keys
      ensures r.Aligned()
    {
      Rec(key, starts, ends, observedAt, changed, Cut(Cols, frames, capacity))
    }

    constructor (key: KeyMode)
      ensures Valid() && View() == Scratch(key, []) && Owner == map[]
    {
      this.key := key;
      frames, starts, ends, observedAt, changed := 0, [], [], [], [];
      series, capacity, Owner, Cols := map[], FIRST_CAPACITY, map[], map[];
    }

    method GrowAll(n: nat)
      requires Valid() && capacity <= n
      modifies `capacity, `Owner, `Cols, Owner.Keys
      ensures Valid() && fresh(Owner.Keys - old(Owner.Keys)) && capacity == n && View() == old(View())
    {
      hide Series.Valid, SoundBut, Cut, EmptyFrom, AllLong, GrownColumns;
      GrownView(Cols, frames, capacity, n);
      GrowSeries(n);
      capacity := n;
    }

    method GrowSeries(n: nat)
      requires SeriesValid() && capacity <= n
      modifies `Owner, `Cols, Owner.Keys
      ensures Sound() && fresh(Owner.Keys - old(Owner.Keys)) && Cols == GrownColumns(old(Cols), capacity, n)
    {
      hide Series.Valid, SoundBut, Grown;
      ghost var base := Cols;
      var rest := series.Keys;
      while rest != {}
        invariant rest <= series.Keys == base.Keys && AllLong(base, capacity)
        invariant Sound() && fresh(Owner.Keys - old(Owner.Keys))
        invariant forall id :: id in series ==> Cols[id] == if id in rest then base[id] else Grown(base[id], n, EMPTY)
        decreases rest
      {
        var id :| id in rest;
        rest := rest - {id};
        GrowOne(id, n);
      }
    }

    method GrowOne(id: string, n: nat)
      requires Sound() && id in series && |Cols[id]| <= n
      modifies `Owner, `Cols, Owner.Keys
      ensures Sound() && fresh(Owner.Keys - old(Owner.Keys)) && Cols == old(Cols)[id := Grown(old(Cols)[id], n, EMPTY)]
    {
      hide Series.Valid, Grown;
      series[id].Grow(n);
      Reclaim(id);
    }

    method AddFrame(f: Frame)
      requires Valid() && (key.ByNode? ==> Resolved(f.doc))
      modifies this, Owner.Keys
      ensures Valid() && fresh(Owner.Keys - old(Owner.Keys))
      ensures View() == Added(old(View()), f)
    {
      hide Series.Valid, SoundBut, Cut, EmptyFrom, AllLong, Resolved;
      if frames >= capacity {
        GrowAll(capacity * 2);
      }
      Extend(f);
    }

    method Extend(f: Frame)
      requires Valid() && frames < capacity && (key.ByNode? ==> Resolved(f.doc))
      modifies this, Owner.Keys
      ensures Valid() && fresh(Owner.Keys - old(Owner.Keys))
      ensures View() == Added(old(View()), f)
    {
      hide Series.Valid, SoundBut, Cut, EmptyFrom, AllLong, WrittenAt, Resolved, Calls, Rec.Aligned;
      var i := frames;
      ghost var before := View();
      var made := ForEachIdent(f.doc, key);
      var calls := made.value;
      AddedView(before, f, Cols, capacity);
      AddedFields(before, f);
      hide Added;
      EmptySlots(Cols, i, capacity);
      WriteCalls(i, calls);
      CountFrame(f);
    }

    /** The frame counts once its pairs are in. */
    method CountFrame(f: Frame)
      requires SeriesValid() && frames < capacity && EmptyFrom(Cols, frames + 1, capacity)
      requires |starts| == |ends| == |observedAt| == |changed| == frames
      modifies `starts, `ends, `observedAt, `changed, `frames
      ensures Valid() && frames == old(frames) + 1
      ensures View() == Rec(key, old(starts) + [f.start], old(ends) + [f.end], old(observedAt) + [f.doc.observedAt],
                            old(changed) + [f.doc.changed], Cut(Cols, frames, capacity))
    {
      hide Series.Valid, SoundBut, Cut, EmptyFrom, AllLong;
      starts, ends := starts + [f.start], ends + [f.end];
      observedAt, changed := observedAt + [f.doc.observedAt], changed + [f.doc.changed];
      frames := frames + 1;
    }

    method WriteCalls(i: nat, calls: seq<Called>)
      requires SeriesValid() && i < capacity
      requires forall id :: id in Cols ==> Cols[id][i] == EMPTY
      modifies `series, `Owner, `Cols, Owner.Keys
      ensures SeriesValid() && fresh(Owner.Keys - old(Owner.Keys))
      ensures Cols == WrittenAt(old(Cols), calls, i, capacity)
    {
      hide Series.Valid, SoundBut, Written, WrittenAt, KeyId;
      ghost var base := Cols;
      WrittenNothing(base, calls, i, capacity);
      for k := 0 to |calls|
        invariant SeriesValid() && fresh(Owner.Keys - old(Owner.Keys))
        invariant Cols == WrittenAt(base, calls[..k], i, capacity)
      {
        WrittenOneMore(base, calls, k, i, capacity);
        WriteCall(i, calls[k]);
      }
      assert calls[..|calls|] == calls;
    }

    method WriteCall(i: nat, c: Called)
      requires SeriesValid() && i < capacity
      modifies `series, `Owner, `Cols, Owner.Keys
      ensures SeriesValid() && fresh(Owner.Keys - old(Owner.Keys))
      ensures var id := KeyId(c.ident);
              var before := if id in old(Cols) then old(Cols)[id] else Empties(capacity);
              Cols == old(Cols)[id := before[i := Written(before[i], c)]]
    {
      hide Series.Valid, SoundBut, Written, KeyId;
      var id := KeyId(c.ident);
      if id !in series {
        NewSeries(id);
      }
      WriteOne(id, i, c);
    }

    method NewSeries(id: string)
      requires SeriesValid() && id !in series
      modifies `series, `Owner, `Cols
      ensures SeriesValid() && fresh(Owner.Keys - old(Owner.Keys)) && Cols == old(Cols)[id := Empties(capacity)]
    {
      hide Series.Valid, SoundBut;
      var s := new Series(capacity);
      Adopt(id, s);
    }

    method Adopt(id: string, s: Series)
      requires Sound() && id !in series && s.Valid() && s.Repr !! Owner.Keys && this !in s.Repr
      modifies `series, `Owner, `Cols
      ensures Sound() && Owner.Keys == old(Owner.Keys) + s.Repr && Cols == old(Cols)[id := s.Slots]
    {
      hide Series.Valid, SoundBut;
      Register(id, s);
      Reclaim(id);
    }

    /** From here on the series is looked up under its id. */
    method Register(id: string, s: Series)
      requires Sound() && id !in series && s.Repr !! Owner.Keys
      modifies `series, `Cols
      ensures SoundBut({id}) && series == old(series)[id := s] && Cols == old(Cols)[id := s.Slots]
    {
      hide Series.Valid;
      series, Cols := series[id := s], Cols[id := s.Slots];
    }

    method WriteOne(id: string, i: nat, c: Called)
      requires SeriesValid() && i < capacity && id in series
      modifies `Owner, `Cols, Owner.Keys
      ensures SeriesValid() && Owner.Keys == old(Owner.Keys)
      ensures Cols == old(Cols)[id := old(Cols)[id][i := Written(old(Cols)[id][i], c)]]
    {
      hide Series.Valid, Written, AllLong;
      LongAt(Cols, id, capacity);
      LongPut(Cols, id, Cols[id][i := Written(Cols[id][i], c)], capacity);
      series[id].Write(i, c);
      OthersSound(id);
      hide SeriesSound;
      Reclaim(id);
    }

    method DropFrames(n: nat)
      requires Valid()
      modifies this, Owner.Keys
      ensures Valid() && fresh(Owner.Keys - old(Owner.Keys))
      ensures View() == Dropped(old(View()), n)
    {
      hide Series.Valid, Sound, Cut, EmptyFrom, AllLong, Present;
      var k := if n < frames then n else frames;
      DroppedNoMore(View(), n);
      if k == 0 {
        return;
      }
      hide Dropped;
      Shrink(k);
    }

    method Shrink(k: nat)
      requires Valid() && 0 < k <= frames
      modifies this, Owner.Keys
      ensures Valid() && fresh(Owner.Keys - old(Owner.Keys))
      ensures View() == Dropped(old(View()), k)
    {
      hide Series.Valid, SoundBut, Cut, EmptyFrom, AllLong, Compacted, Dropped, Rec.Aligned;
      ghost var before, base := View(), Cols;
      ShiftSeries(k);
      DroppedView(before, base, Cols, k, capacity);
      DroppedFields(before, k);
      CountDropped(k);
    }

    /** The frames left. */
    method CountDropped(k: nat)
      requires SeriesValid() && 0 < capacity && k <= frames <= capacity && EmptyFrom(Cols, frames - k, capacity)
      requires |starts| == |ends| == |observedAt| == |changed| == frames
      modifies `starts, `ends, `observedAt, `changed, `frames
      ensures Valid() && frames == old(frames) - k
      ensures View() == Rec(key, old(starts)[k..], old(ends)[k..], old(observedAt)[k..], old(changed)[k..],
                            Cut(Cols, frames, capacity))
    {
      hide Series.Valid, SoundBut, Cut, EmptyFrom, AllLong;
      starts, ends, observedAt, changed := starts[k..], ends[k..], observedAt[k..], changed[k..];
      frames := frames - k;
    }

    method ShiftSeries(k: nat)
      requires SeriesValid() && k <= frames <= capacity
      modifies `series, `Owner, `Cols, Owner.Keys
      ensures SeriesValid() && Owner.Keys == old(Owner.Keys)
      ensures Compacted(old(Cols), Cols, {}, k, frames, capacity)
    {
      hide Series.Valid, SoundBut, Compacted;
      ghost var base := Cols;
      var rest := series.Keys;
      NothingCompacted(base, k, frames, capacity);
      while rest != {}
        invariant rest <= series.Keys && AllLong(base, capacity)
        invariant SeriesValid() && Owner.Keys == old(Owner.Keys)
        invariant Compacted(base, Cols, rest, k, frames, capacity)
        decreases rest
      {
        var id :| id in rest;
        CompactedOneMore(base, Cols, rest, id, k, frames, capacity);
        rest := rest - {id};
        ShiftOne(id, k);
      }
    }

    /** One series moves down, and goes when nothing is left in it. */
    method ShiftOne(id: string, k: nat)
      requires SeriesValid() && k <= frames <= capacity && id in series
      modifies `series, `Owner, `Cols, Owner.Keys
      ensures SeriesValid() && Owner.Keys == old(Owner.Keys)
      ensures Cols == CompactOne(old(Cols), id, k, frames)
    {
      hide Series.Valid, SoundBut, Shifted, Present;
      ShiftInPlace(id, k);
      var present := IsPresentIn(id, frames - k);
      if !present {
        Remove(id);
      }
    }

    method ShiftInPlace(id: string, k: nat)
      requires SeriesValid() && k <= frames <= capacity && id in series
      modifies `Owner, `Cols, Owner.Keys
      ensures SeriesValid() && Owner.Keys == old(Owner.Keys)
      ensures Cols == old(Cols)[id := Shifted(old(Cols)[id], k, frames, EMPTY)]
    {
      hide Series.Valid, Shifted, AllLong;
      LongAt(Cols, id, capacity);
      LongPut(Cols, id, Shifted(Cols[id], k, frames, EMPTY), capacity);
      series[id].Shift(k, frames);
      OthersSound(id);
      hide SeriesSound;
      Reclaim(id);
    }

    method IsPresentIn(id: string, left: nat) returns (present: bool)
      requires SeriesValid() && left <= capacity && id in series
      ensures present == Present(Cols[id][..left])
    {
      hide Series.Valid, Present;
      present := series[id].IsPresent(left);
    }

    method DropSeries(id: string)
      requires Sound() && id in series
      modifies `series, `Cols
      ensures Sound() && Cols == old(Cols) - {id}
    {
      hide Series.Valid;
      series, Cols := series - {id}, Cols - {id};
    }

    method Remove(id: string)
      requires SeriesValid() && id in series
      modifies `series, `Cols
      ensures SeriesValid() && Cols == old(Cols) - {id}
    {
      hide Series.Valid, SeriesSound, AllLong;
      LongRemove(Cols, id, capacity);
      DropSeries(id);
    }
  }

  // ---- the arrays of all series as values

  type Columns = map<string, seq<Slot>>

  ghost predicate AllLong(c: Columns, n: nat) {
    forall id :: id in c ==> |c[id]| == n
  }

  lemma LongPut(c: Columns, id: string, column: seq<Slot>, n: nat)
    requires AllLong(c, n) && id in c && |column| == |c[id]|
    ensures AllLong(c[id := column], n)
  {
  }

  lemma LongAt(c: Columns, id: string, n: nat)
    requires AllLong(c, n) && id in c
    ensures |c[id]| == n
  {
  }

  lemma LongRemove(c: Columns, id: string, n: nat)
    requires AllLong(c, n)
    ensures AllLong(c - {id}, n)
  {
  }

  ghost predicate EmptyFrom(c: Columns, frames: nat, n: nat)
    requires AllLong(c, n)
  {
    forall id, i :: id in c && frames <= i < n ==> c[id][i] == EMPTY
  }

  /** The series of a recording whose first `frames` slots count. */
  ghost function Cut(c: Columns, frames: nat, n: nat): Columns
    requires AllLong(c, n) && frames <= n
  {
    map id | id in c :: c[id][..frames]
  }

  ghost function GrownColumns(c: Columns, n: nat, m: nat): Columns
    requires AllLong(c, n) && n <= m
  {
    map id | id in c :: Grown(c[id], m, EMPTY)
  }

  ghost function WrittenAt(c: Columns, calls: seq<Called>, i: nat, n: nat): Columns
    requires AllLong(c, n) && i < n
  {
    map id | id in c.Keys + IdsOf(calls) :: (if id in c then c[id] else Empties(n))[i := SlotOf(calls, id)]
  }

  /** One series after compaction: moved down, or gone. */
  ghost function CompactOne(c: Columns, id: string, k: nat, frames: nat): Columns
    requires id in c && k <= frames <= |c[id]|
  {
    var shifted := Shifted(c[id], k, frames, EMPTY);
    if Present(shifted[..frames - k]) then c[id := shifted] else c - {id}
  }

  /** `d` is `c` with every series outside `rest` compacted. */
  ghost predicate Compacted(c: Columns, d: Columns, rest: set<string>, k: nat, frames: nat, n: nat)
    requires AllLong(c, n) && k <= frames <= n
  {
    forall id ::
      (id in d <==> id in c && (id in rest || Present(Shifted(c[id], k, frames, EMPTY)[..frames - k])))
      && (id in d ==> d[id] == if id in rest then c[id] else Shifted(c[id], k, frames, EMPTY))
  }

  lemma DroppedNoMore(r: Rec, n: nat)
    requires r.Aligned()
    ensures Dropped(r, n) == Dropped(r, if n < r.Frames() then n else r.Frames())
    ensures n == 0 || r.Frames() == 0 ==> Dropped(r, n) == r
  {
  }

  lemma NothingCompacted(c: Columns, k: nat, frames: nat, n: nat)
    requires AllLong(c, n) && k <= frames <= n
    ensures Compacted(c, c, c.Keys, k, frames, n)
  {
  }

  lemma CompactedOneMore(c: Columns, d: Columns, rest: set<string>, id: string, k: nat, frames: nat, n: nat)
    requires AllLong(c, n) && k <= frames <= n && Compacted(c, d, rest, k, frames, n) && id in rest && rest <= d.Keys
    ensures d[id] == c[id] && Compacted(c, CompactOne(d, id, k, frames), rest - {id}, k, frames, n)
    ensures rest - {id} <= CompactOne(d, id, k, frames).Keys
  {
    hide Shifted, Present;
  }

  lemma GrownView(c: Columns, frames: nat, n: nat, m: nat)
    requires AllLong(c, n) && EmptyFrom(c, frames, n) && frames <= n <= m
    ensures var d := GrownColumns(c, n, m);
            AllLong(d, m) && EmptyFrom(d, frames, m) && Cut(d, frames, m) == Cut(c, frames, n)
  {
    var d := GrownColumns(c, n, m);
    forall id | id in c
      ensures d[id][..frames] == c[id][..frames]
    {
    }
  }

  lemma EmptySlots(c: Columns, frames: nat, n: nat)
    requires AllLong(c, n) && EmptyFrom(c, frames, n) && frames < n
    ensures forall id :: id in c ==> |c[id]| == n && c[id][frames] == EMPTY
  {
  }

  lemma AddedSlots(before: seq<Slot>, i: nat, slot: Slot)
    requires i < |before| && forall j :: i <= j < |before| ==> before[j] == EMPTY
    ensures var after := before[i := slot];
            after[..i + 1] == before[..i] + [slot] && forall j :: i < j < |after| ==> after[j] == EMPTY
  {
  }

  lemma AddedView(r: Rec, f: Frame, c: Columns, n: nat)
    requires AllLong(c, n) && r.Frames() < n && EmptyFrom(c, r.Frames(), n) && r.series == Cut(c, r.Frames(), n)
    ensures var d, i := WrittenAt(c, f.Calls(r.key), r.Frames(), n), r.Frames() + 1;
            AllLong(d, n) && EmptyFrom(d, i, n) && Cut(d, i, n) == Added(r, f).series
  {
    var calls, i := f.Calls(r.key), r.Frames();
    var d, series := WrittenAt(c, calls, i, n), Added(r, f).series;
    assert d.Keys == c.Keys + IdsOf(calls) == series.Keys;
    forall id | id in d
      ensures |d[id]| == n && (forall j :: i < j < n ==> d[id][j] == EMPTY) && d[id][..i + 1] == series[id]
    {
      AddedCell(r, f, c, n, id);
    }
    hide SlotOf, IdsOf, WrittenAt, Added, Empties;
    SameMap(Cut(d, i + 1, n), series);
  }

  lemma AddedFields(r: Rec, f: Frame)
    ensures Added(r, f) == Rec(r.key, r.starts + [f.start], r.ends + [f.end], r.observedAt + [f.doc.observedAt],
                               r.changed + [f.doc.changed], Added(r, f).series)
  {
  }

  lemma DroppedFields(r: Rec, k: nat)
    requires r.Aligned() && 0 < k <= r.Frames()
    ensures Dropped(r, k) == Rec(r.key, r.starts[k..], r.ends[k..], r.observedAt[k..], r.changed[k..], Dropped(r, k).series)
  {
  }

  lemma AddedCell(r: Rec, f: Frame, c: Columns, n: nat, id: string)
    requires AllLong(c, n) && r.Frames() < n && EmptyFrom(c, r.Frames(), n) && r.series == Cut(c, r.Frames(), n)
    requires id in WrittenAt(c, f.Calls(r.key), r.Frames(), n)
    ensures var d, i := WrittenAt(c, f.Calls(r.key), r.Frames(), n), r.Frames();
            |d[id]| == n && (forall j :: i < j < n ==> d[id][j] == EMPTY)
            && id in Added(r, f).series && d[id][..i + 1] == Added(r, f).series[id]
  {
    hide SlotOf, IdsOf;
    var i := r.Frames();
    assert Empties(n)[..i] == Empties(i);
    AddedSlots(if id in c then c[id] else Empties(n), i, SlotOf(f.Calls(r.key), id));
  }

  lemma ShiftedSlots(slots: seq<Slot>, k: nat, frames: nat)
    requires k <= frames <= |slots| && forall j :: frames <= j < |slots| ==> slots[j] == EMPTY
    ensures var shifted := Shifted(slots, k, frames, EMPTY);
            shifted[..frames - k] == slots[..frames][k..] && forall j :: frames - k <= j < |slots| ==> shifted[j] == EMPTY
  {
  }

  lemma DroppedView(r: Rec, c: Columns, d: Columns, k: nat, n: nat)
    requires r.Aligned() && AllLong(c, n) && 0 < k <= r.Frames() <= n && EmptyFrom(c, r.Frames(), n)
    requires r.series == Cut(c, r.Frames(), n) && Compacted(c, d, {}, k, r.Frames(), n)
    ensures AllLong(d, n) && EmptyFrom(d, r.Frames() - k, n)
    ensures Cut(d, r.Frames() - k, n) == Dropped(r, k).series
  {
    hide Shifted, Present;
    var left, dropped := r.Frames() - k, Dropped(r, k).series;
    forall id | id in c
      ensures var shifted := Shifted(c[id], k, r.Frames(), EMPTY);
              shifted[..left] == r.series[id][k..] && forall j :: left <= j < n ==> shifted[j] == EMPTY
    {
      ShiftedSlots(c[id], k, r.Frames());
    }
    assert Cut(d, left, n).Keys == dropped.Keys;
  }

  lemma WrittenNothing(c: Columns, calls: seq<Called>, i: nat, n: nat)
    requires AllLong(c, n) && i < n && forall id :: id in c ==> c[id][i] == EMPTY
    ensures WrittenAt(c, calls[..0], i, n) == c
  {
    assert calls[..0] == [];
    assert WrittenAt(c, [], i, n).Keys == c.Keys;
    forall id | id in c
      ensures WrittenAt(c, [], i, n)[id] == c[id]
    {
      assert c[id][i := EMPTY] == c[id];
    }
  }

  lemma WrittenLong(c: Columns, calls: seq<Called>, i: nat, n: nat)
    requires AllLong(c, n) && i < n
    ensures AllLong(WrittenAt(c, calls, i, n), n)
  {
    hide SlotOf, IdsOf;
  }

  lemma WrittenKeys(c: Columns, calls: seq<Called>, k: nat, i: nat, n: nat)
    requires AllLong(c, n) && i < n && k < |calls|
    ensures WrittenAt(c, calls[..k + 1], i, n).Keys == WrittenAt(c, calls[..k], i, n).Keys + {KeyId(calls[k].ident)}
  {
    OneMoreCall(calls, k);
    hide SlotOf, IdsOf, KeyId;
  }

  lemma WrittenOneMore(c: Columns, calls: seq<Called>, k: nat, i: nat, n: nat)
    requires AllLong(c, n) && i < n && k < |calls| && forall id :: id in c ==> c[id][i] == EMPTY
    ensures AllLong(WrittenAt(c, calls[..k], i, n), n)
    ensures var w, id := WrittenAt(c, calls[..k], i, n), KeyId(calls[k].ident);
            var before := if id in w then w[id] else Empties(n);
            WrittenAt(c, calls[..k + 1], i, n) == w[id := before[i := Written(before[i], calls[k])]]
  {
    WrittenLong(c, calls[..k], i, n);
    WrittenKeys(c, calls, k, i, n);
    hide SlotOf, IdsOf, KeyId, EMPTY, AllLong;
    var w, next, id := WrittenAt(c, calls[..k], i, n), WrittenAt(c, calls[..k + 1], i, n), KeyId(calls[k].ident);
    var before := if id in w then w[id] else Empties(n);
    var after := w[id := before[i := Written(before[i], calls[k])]];
    forall other | other in next
      ensures next[other] == after[other]
    {
      WrittenCell(c, calls, k, i, n, other);
    }
    hide WrittenAt, Written, Empties;
    SameMap(next, after);
  }

  lemma WrittenCell(c: Columns, calls: seq<Called>, k: nat, i: nat, n: nat, other: string)
    requires AllLong(c, n) && i < n && k < |calls| && forall id :: id in c ==> c[id][i] == EMPTY
    requires other in WrittenAt(c, calls[..k + 1], i, n)
    ensures var w, next, id := WrittenAt(c, calls[..k], i, n), WrittenAt(c, calls[..k + 1], i, n), KeyId(calls[k].ident);
            if other != id then other in w && next[other] == w[other]
            else var before := if id in w then w[id] else Empties(n); next[id] == before[i := Written(before[i], calls[k])]
  {
    OneMoreCall(calls, k);
    var w, id := WrittenAt(c, calls[..k], i, n), KeyId(calls[k].ident);
    if other == id {
      var base := if id in c then c[id] else Empties(n);
      if id !in w {
        SlotOfAbsent(calls[..k], id);
        assert base[i := EMPTY] == base;
      }
      WrittenTwice(base, i, SlotOf(calls[..k], id), SlotOf(calls[..k + 1], id));
    }
  }

  lemma WrittenTwice(before: seq<Slot>, i: nat, a: Slot, b: Slot)
    requires i < |before|
    ensures before[i := a][i := b] == before[i := b]
  {
  }

  lemma OneMoreCall(calls: seq<Called>, k: nat)
    requires k < |calls|
    ensures IdsOf(calls[..k + 1]) == IdsOf(calls[..k]) + {KeyId(calls[k].ident)}
    ensures forall id :: SlotOf(calls[..k + 1], id)
                      == if KeyId(calls[k].ident) == id then Written(SlotOf(calls[..k], id), calls[k]) else SlotOf(calls[..k], id)
  {
    assert calls[..k + 1] == calls[..k] + [calls[k]];
    assert calls[..k + 1][..k] == calls[..k];
  }
}
