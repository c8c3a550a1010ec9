/** GUIDs as text: how they are spelled (discovery_observer.cpp) and read back (parse_json.cpp). */
module GuidText {
  import opened Text
  import opened Model

  const ZEROS: Guid := [0, 0, 0, 0, 0, 0, 0, 0, 0, 0, 0, 0, 0, 0, 0, 0]

  /** What follows byte i: `.` inside the prefix and the entity id, `|` between them, nothing at the end. */
  function Separator(i: nat): string {
    if i == 15 then "" else if i == 11 then "|" else "."
  }

  function Spelled(g: Guid, n: nat): string
    requires n <= 16
  {
    if n == 0 then "" else Spelled(g, n - 1) + Hex2(g[n - 1]) + Separator(n - 1)
  }

  /** guid_to_string() */
  function GuidString(g: Guid): string {
    Spelled(g, 16)
  }

  // ---- reading

  predicate IsHexDigit(c: char) {
    '0' <= c <= '9' || 'a' <= c <= 'f' || 'A' <= c <= 'F'
  }

  function HexValue(c: char): (v: nat)
    requires IsHexDigit(c)
    ensures v < 16
  {
    if '0' <= c <= '9' then c as int - '0' as int
    else if 'a' <= c <= 'f' then c as int - 'a' as int + 10
    else c as int - 'A' as int + 10
  }

  predicate IsSeparator(c: char) {
    c == '.' || c == '|'
  }

  /** The bytes read from position i on, after those in `out`; all zeros for any other form. */
  function BytesFrom(s: string, i: nat, out: seq<Byte>): Guid
    requires |out| <= 16
    decreases |s| - i
  {
    if i + 1 >= |s| || |out| == 16 then
      if |out| == 16 then out else ZEROS
    else if IsSeparator(s[i]) then BytesFrom(s, i + 1, out)
    else if !IsHexDigit(s[i]) || !IsHexDigit(s[i + 1]) then ZEROS
    else BytesFrom(s, i + 2, out + [HexValue(s[i]) * 16 + HexValue(s[i + 1])])
  }

  method GuidBytes(s: string) returns (g: Guid)
    ensures g == BytesFrom(s, 0, [])
  {
    var out: seq<Byte> := [];
    var i := 0;
    while i + 1 < |s| && |out| < 16
      invariant i >= 0 && |out| <= 16 && BytesFrom(s, i, out) == BytesFrom(s, 0, [])
      decreases |s| - i
    {
      if IsSeparator(s[i]) {
        i := i + 1;
        continue;
      }
      if !IsHexDigit(s[i]) || !IsHexDigit(s[i + 1]) {
        return ZEROS;
      }
      out := out + [HexValue(s[i]) * 16 + HexValue(s[i + 1])];
      i := i + 2;
    }
    g := if |out| == 16 then out else ZEROS;
  }

  // ---- reading inverts spelling

  lemma HexReads(b: Byte)
    ensures IsHexDigit(Hex2(b)[0]) && IsHexDigit(Hex2(b)[1])
    ensures HexValue(Hex2(b)[0]) * 16 + HexValue(Hex2(b)[1]) == b
    ensures !IsSeparator(Hex2(b)[0])
  {
    DigitReads(b / 16);
    DigitReads(b % 16);
  }

  lemma DigitReads(d: nat)
    requires d < 16
    ensures IsHexDigit(DIGITS[d]) && HexValue(DIGITS[d]) == d && !IsSeparator(DIGITS[d])
  {
  }

  lemma {:induction false} SpelledLength(g: Guid, n: nat)
    requires n <= 16
    ensures |Spelled(g, n)| == if n == 16 then 47 else 3 * n
  {
    if n > 0 {
      SpelledLength(g, n - 1);
    }
  }

  lemma {:induction false} SpelledPrefix(g: Guid, m: nat, n: nat)
    requires m <= n <= 16
    ensures |Spelled(g, m)| <= |Spelled(g, n)| && Spelled(g, n)[..|Spelled(g, m)|] == Spelled(g, m)
    decreases n
  {
    if m < n {
      SpelledPrefix(g, m, n - 1);
    }
  }

  /** Where byte n stands. */
  lemma ByteAt(g: Guid, n: nat)
    requires n < 16
    ensures |GuidString(g)| == 47
    ensures GuidString(g)[3 * n..3 * n + 2] == Hex2(g[n]) && (n < 15 ==> GuidString(g)[3 * n + 2..3 * n + 3] == Separator(n))
  {
    SpelledLength(g, 16);
    SpelledLength(g, n);
    SpelledLength(g, n + 1);
    SpelledPrefix(g, n + 1, 16);
    var a, h, c, s := Spelled(g, n), Hex2(g[n]), Separator(n), GuidString(g);
    assert Spelled(g, n + 1) == a + h + c;
    hide Spelled, Hex2, GuidString, Separator;
    MiddleOf(s, a, h, c);
  }

  /** Two digits a byte, a bar after the prefix, dots between all others. */
  lemma GuidSpelled(g: Guid, n: nat)
    requires n < 16
    ensures |GuidString(g)| == 47 && GuidString(g)[3 * n..3 * n + 2] == Hex2(g[n])
    ensures n < 15 ==> GuidString(g)[3 * n + 2] == if n == 11 then '|' else '.'
  {
    ByteAt(g, n);
    hide GuidString, Hex2;
    assert n < 15 ==> GuidString(g)[3 * n + 2..3 * n + 3][0] == Separator(n)[0];
  }

  lemma MiddleOf(s: string, a: string, h: string, c: string)
    requires |a + h + c| <= |s| && s[..|a + h + c|] == a + h + c
    ensures s[|a|..|a| + |h|] == h && s[|a| + |h|..|a| + |h| + |c|] == c
  {
    var t := a + h + c;
    assert forall i :: 0 <= i < |t| ==> s[i] == s[..|t|][i] == t[i];
    assert forall i :: 0 <= i < |h| ==> t[|a| + i] == h[i];
    assert forall i :: 0 <= i < |c| ==> t[|a| + |h| + i] == c[i];
  }

  lemma ReadsByte(s: string, i: nat, out: seq<Byte>, b: Byte)
    requires i + 2 <= |s| && |out| < 16 && s[i..i + 2] == Hex2(b)
    ensures BytesFrom(s, i, out) == BytesFrom(s, i + 2, out + [b])
  {
    HexReads(b);
    assert s[i] == s[i..i + 2][0] && s[i + 1] == s[i..i + 2][1];
  }

  lemma SkipsSeparator(s: string, i: nat, out: seq<Byte>)
    requires i + 2 <= |s| && |out| < 16 && IsSeparator(s[i])
    ensures BytesFrom(s, i, out) == BytesFrom(s, i + 1, out)
  {
  }

  lemma ReadsDone(s: string, i: nat, out: Guid)
    ensures BytesFrom(s, i, out) == out
  {
  }

  /** From the place of byte n on, with the bytes before it already read. */
  lemma {:induction false} ReadsOn(g: Guid, n: nat)
    requires n < 16
    ensures BytesFrom(GuidString(g), 3 * n, g[..n]) == g
    decreases 16 - n
  {
    hide GuidString, BytesFrom, Hex2;
    var s := GuidString(g);
    ByteAt(g, n);
    ReadsByte(s, 3 * n, g[..n], g[n]);
    assert g[..n] + [g[n]] == g[..n + 1];
    if n == 15 {
      assert g[..16] == g;
      ReadsDone(s, 47, g);
    } else {
      ReadsOn(g, n + 1);
      assert s[3 * n + 2] == s[3 * n + 2..3 * n + 3][0] == Separator(n)[0];
      SkipsSeparator(s, 3 * n + 2, g[..n + 1]);
    }
  }

  /** Reading a GUID's text gives the GUID back. */
  lemma GuidRoundTrip(g: Guid)
    ensures BytesFrom(GuidString(g), 0, []) == g
  {
    ReadsOn(g, 0);
    assert g[..0] == [];
  }

  lemma GuidStringInjective(a: Guid, b: Guid)
    requires GuidString(a) == GuidString(b)
    ensures a == b
  {
    GuidRoundTrip(a);
    GuidRoundTrip(b);
  }

  // ---- the form other comparisons rest on

  predicate PlainText(s: string) {
    '|' !in s && '#' !in s
  }

  lemma PlainHex(b: Byte)
    ensures PlainText(Hex2(b))
  {
    HexReads(b);
    var h := Hex2(b);
    assert h == [h[0], h[1]] && IsHexDigit(h[0]) && IsHexDigit(h[1]);
  }

  lemma PlainJoin(a: string, b: string)
    requires PlainText(a) && PlainText(b)
    ensures PlainText(a + b)
  {
  }

  /** The bytes from `from` to n, with what follows each. */
  function SpelledFrom(g: Guid, from: nat, n: nat): string
    requires from <= n <= 16
    decreases n
  {
    if n == from then "" else SpelledFrom(g, from, n - 1) + Hex2(g[n - 1]) + Separator(n - 1)
  }

  lemma {:induction false} OnlyDots(g: Guid, from: nat, n: nat)
    requires from <= n <= 16 && (n <= 11 || from >= 12)
    ensures PlainText(SpelledFrom(g, from, n))
    decreases n
  {
    if from < n {
      OnlyDots(g, from, n - 1);
      PlainHex(g[n - 1]);
      PlainJoin(SpelledFrom(g, from, n - 1), Hex2(g[n - 1]));
      assert PlainText(Separator(n - 1));
      PlainJoin(SpelledFrom(g, from, n - 1) + Hex2(g[n - 1]), Separator(n - 1));
    }
  }

  lemma {:induction false} SpelledSplit(g: Guid, from: nat, n: nat)
    requires from <= n <= 16
    ensures Spelled(g, n) == Spelled(g, from) + SpelledFrom(g, from, n)
    decreases n
  {
    if from < n {
      SpelledSplit(g, from, n - 1);
      assert Spelled(g, n) == Spelled(g, from) + (SpelledFrom(g, from, n - 1) + Hex2(g[n - 1]) + Separator(n - 1));
    }
  }

  /** Forty-seven characters, one of them a bar, at its place, and none a `#`. */
  ghost predicate GuidForm(s: string) {
    |s| == 47 && '#' !in s && s[35] == '|' && forall k :: 0 <= k < 47 && k != 35 ==> s[k] != '|'
  }

  lemma OneBarOf(x: string, y: string)
    requires PlainText(x) && PlainText(y) && |x| == 35 && |y| == 11
    ensures GuidForm(x + ['|'] + y)
  {
    var s := x + ['|'] + y;
    assert forall k :: 0 <= k < 35 ==> s[k] == x[k];
    assert forall k :: 35 < k < 47 ==> s[k] == y[k - 36];
  }

  /** The GUID prefix, and the bar after it. */
  lemma PrefixSpelled(g: Guid)
    ensures Spelled(g, 12) == SpelledFrom(g, 0, 11) + Hex2(g[11]) + ['|']
    ensures PlainText(SpelledFrom(g, 0, 11) + Hex2(g[11]))
  {
    SpelledSplit(g, 0, 11);
    assert Spelled(g, 12) == Spelled(g, 11) + Hex2(g[11]) + Separator(11);
    assert Spelled(g, 0) == "" && Separator(11) == ['|'];
    hide Spelled, SpelledFrom, Hex2;
    assert "" + SpelledFrom(g, 0, 11) == SpelledFrom(g, 0, 11);
    OnlyDots(g, 0, 11);
    PlainHex(g[11]);
    PlainJoin(SpelledFrom(g, 0, 11), Hex2(g[11]));
  }

  lemma GuidStringForm(g: Guid)
    ensures GuidForm(GuidString(g))
  {
    hide Spelled, SpelledFrom, Hex2, GuidForm, PlainText;
    SpelledLength(g, 12);
    SpelledLength(g, 16);
    PrefixSpelled(g);
    SpelledSplit(g, 12, 16);
    OnlyDots(g, 12, 16);
    OneBarOf(SpelledFrom(g, 0, 11) + Hex2(g[11]), SpelledFrom(g, 12, 16));
  }
}
