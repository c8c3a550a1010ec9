/** Sorted lists of GUID texts, and the place of one among them. */
module Ranks {
  import opened Text

  function Insert(s: seq<string>, x: string): seq<string> {
    if s == [] || !Less(s[0], x) then [x] + s else [s[0]] + Insert(s[1..], x)
  }

  /** The list in ascending byte order, as std::sort and Array.sort leave it. */
  function Sort(l: seq<string>): (s: seq<string>)
    ensures |s| == |l|
  {
    if l == [] then []
    else
      var rest := Sort(l[1..]);
      InsertLength(rest, l[0]);
      Insert(rest, l[0])
  }

  lemma InsertLength(s: seq<string>, x: string)
    ensures |Insert(s, x)| == |s| + 1
  {
  }

  predicate Ascending(s: seq<string>) {
    forall i, j :: 0 <= i < j < |s| ==> !Less(s[j], s[i])
  }

  /** The first index of `x`, or -1. */
  function IndexOf(s: seq<string>, x: string): (i: int)
    ensures x in s <==> i >= 0
    ensures -1 <= i < |s| && (i >= 0 ==> s[i] == x)
  {
    if s == [] then -1
    else if s[0] == x then 0
    else
      var i := IndexOf(s[1..], x);
      if i < 0 then -1 else i + 1
  }

  /** How many of `l` come before `x`. */
  function CountLess(l: seq<string>, x: string): (n: nat)
    ensures n <= |l|
  {
    if l == [] then 0 else (if Less(l[0], x) then 1 else 0) + CountLess(l[1..], x)
  }

  lemma {:induction false} InsertCounts(s: seq<string>, x: string, g: string)
    ensures CountLess(Insert(s, x), g) == CountLess(s, g) + (if Less(x, g) then 1 else 0)
    ensures forall y :: y in Insert(s, x) <==> y == x || y in s
  {
    if s != [] && Less(s[0], x) {
      InsertCounts(s[1..], x, g);
    }
  }

  lemma {:induction false} InsertAscending(s: seq<string>, x: string)
    requires Ascending(s)
    ensures Ascending(Insert(s, x))
  {
    if s == [] {
    } else if Less(s[0], x) {
      InsertAscending(s[1..], x);
      InsertCounts(s[1..], x, x);
      var t := Insert(s[1..], x);
      forall k | 0 <= k < |t|
        ensures !Less(t[k], s[0])
      {
        assert t[k] in t;
        if t[k] == x {
          NotBothLess(s[0], x);
        }
      }
    } else {
      forall k | 0 <= k < |s| {
        HeadIsLeast(s, x, k);
      }
    }
  }

  lemma HeadIsLeast(s: seq<string>, x: string, k: nat)
    requires Ascending(s) && k < |s| && !Less(s[0], x)
    ensures !Less(s[k], x)
  {
    LessTotal(s[0], x);
    if k > 0 && Less(s[k], x) && s[0] != x {
      LessTransitive(s[k], x, s[0]);
    }
  }

  lemma NotBothLess(a: string, b: string)
    requires Less(a, b)
    ensures !Less(b, a)
  {
    if Less(b, a) {
      LessTransitive(a, b, a);
      LessIrreflexive(a);
    }
  }

  lemma {:induction false} SortSpec(l: seq<string>, g: string)
    ensures Ascending(Sort(l)) && CountLess(Sort(l), g) == CountLess(l, g) && (g in Sort(l) <==> g in l)
  {
    if l != [] {
      SortSpec(l[1..], g);
      InsertAscending(Sort(l[1..]), l[0]);
      InsertCounts(Sort(l[1..]), l[0], g);
    }
  }

  lemma {:induction false} AscendingIndex(s: seq<string>, g: string)
    requires Ascending(s) && g in s
    ensures IndexOf(s, g) == CountLess(s, g)
  {
    if s[0] == g {
      LessIrreflexive(g);
      NoneLess(s, g);
    } else {
      LessTotal(s[0], g);
      assert g in s[1..];
      assert Less(s[0], g) by {
        var k :| 0 < k < |s| && s[k] == g;
        assert !Less(s[k], s[0]);
      }
      AscendingIndex(s[1..], g);
    }
  }

  lemma {:induction false} NoneLess(s: seq<string>, g: string)
    requires forall i :: 0 <= i < |s| ==> !Less(s[i], g)
    ensures CountLess(s, g) == 0
  {
    if s != [] {
      NoneLess(s[1..], g);
    }
  }

  /** The place of a listed GUID in the sorted list is the number of listed GUIDs before it. */
  lemma PlaceIsRank(l: seq<string>, g: string)
    requires g in l
    ensures IndexOf(Sort(l), g) == CountLess(l, g)
  {
    SortSpec(l, g);
    AscendingIndex(Sort(l), g);
  }

  /** Two listed GUIDs have one rank only if they are the same GUID. */
  lemma RankInjective(l: seq<string>, a: string, b: string)
    requires a in l && b in l && CountLess(l, a) == CountLess(l, b)
    ensures a == b
  {
    PlaceIsRank(l, a);
    PlaceIsRank(l, b);
  }

  /** Two listings of the same GUIDs with the same order among them give the same ranks. */
  lemma {:induction false} RankPreserved(l: seq<string>, m: seq<string>, a: string, b: string)
    requires |l| == |m| && forall i :: 0 <= i < |l| ==> (Less(l[i], a) <==> Less(m[i], b))
    ensures CountLess(l, a) == CountLess(m, b)
  {
    if l != [] {
      assert forall i :: 0 <= i < |l| - 1 ==> l[1..][i] == l[i + 1] && m[1..][i] == m[i + 1];
      RankPreserved(l[1..], m[1..], a, b);
    }
  }

  lemma {:induction false} CountLessRemove(b: seq<string>, j: nat, g: string)
    requires j < |b|
    ensures CountLess(b, g) == CountLess(b[..j] + b[j + 1..], g) + (if Less(b[j], g) then 1 else 0)
  {
    hide Less;
    if j > 0 {
      CountLessRemove(b[1..], j - 1, g);
      assert (b[..j] + b[j + 1..])[1..] == b[1..][..j - 1] + b[1..][j..];
    } else {
      assert b[..0] + b[1..] == b[1..];
    }
  }

  lemma WithoutOne(b: seq<string>, j: nat)
    requires j < |b|
    ensures multiset(b[..j] + b[j + 1..]) == multiset(b) - multiset{b[j]}
  {
    assert b == b[..j] + [b[j]] + b[j + 1..];
  }

  /** A rank does not depend on the listed order. */
  lemma {:induction false} CountLessPermutation(a: seq<string>, b: seq<string>, g: string)
    requires multiset(a) == multiset(b)
    ensures CountLess(a, g) == CountLess(b, g)
  {
    if a == [] {
      assert |multiset(b)| == 0;
    } else {
      assert a == [a[0]] + a[1..];
      assert a[0] in multiset(b);
      var j :| 0 <= j < |b| && b[j] == a[0];
      var c := b[..j] + b[j + 1..];
      WithoutOne(b, j);
      WithoutOne(a, 0);
      assert a[..0] + a[1..] == a[1..];
      CountLessPermutation(a[1..], c, g);
      CountLessRemove(b, j, g);
    }
  }
}
