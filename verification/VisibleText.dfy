/** Cutting a line of the table to the terminal width, escape sequences and UTF-8 apart (render_table.cpp). */
module VisibleText {
  import opened Text

  type Bytes = seq<Byte>

  const ESCAPE: Byte := 0x1B
  const LETTER_M: Byte := 0x6D

  const ELLIPSIS: Bytes := [0xE2, 0x80, 0xA6]
  const RESET: Bytes := [0x1B, 0x5B, 0x30, 0x6D]

  /** The first byte of a UTF-8 character: any but 10xxxxxx. */
  predicate Lead(b: Byte) {
    !(0x80 <= b < 0xC0)
  }

  /** The visible columns of the bytes read, and whether an escape sequence is under way. */
  datatype Scan = Scan(columns: nat, inEscape: bool)

  function Next(a: Scan, b: Byte): Scan {
    if a.inEscape || b == ESCAPE then Scan(a.columns, b != LETTER_M)
    else if Lead(b) then Scan(a.columns + 1, false)
    else a
  }

  function ScanOf(s: Bytes): Scan {
    if s == [] then Scan(0, false) else Next(ScanOf(s[..|s| - 1]), s[|s| - 1])
  }

  function Width(s: Bytes): nat {
    ScanOf(s).columns
  }

  lemma ScanSnoc(s: Bytes, b: Byte)
    ensures ScanOf(s + [b]) == Next(ScanOf(s), b)
  {
    assert (s + [b])[..|s|] == s;
  }

  lemma OneMore(s: Bytes, i: nat)
    requires i < |s|
    ensures ScanOf(s[..i + 1]) == Next(ScanOf(s[..i]), s[i])
  {
    ScanSnoc(s[..i], s[i]);
    assert s[..i + 1] == s[..i] + [s[i]];
  }

  method VisibleWidth(s: Bytes) returns (n: nat)
    ensures n == Width(s)
  {
    n := 0;
    var i := 0;
    assert ScanOf(s[..0]) == Scan(0, false) && s[..|s|] == s;
    hide ScanOf;
    while i < |s|
      invariant 0 <= i <= |s|
      invariant ScanOf(s[..i]) == Scan(n, false) || (i == |s| && Width(s) == n)
    {
      if s[i] == ESCAPE {
        i := SkipEscape(s, i, n);
        if i == |s| {
          break;
        }
        OneMore(s, i);
        i := i + 1;
        continue;
      }
      OneMore(s, i);
      if Lead(s[i]) {
        n := n + 1;
      }
      i := i + 1;
    }
  }

  /** From an escape byte to the `m` that ends the sequence, or to the end. */
  method SkipEscape(s: Bytes, from: nat, ghost n: nat) returns (i: nat)
    requires from < |s| && s[from] == ESCAPE && ScanOf(s[..from]) == Scan(n, false)
    ensures from < i <= |s| && ScanOf(s[..i]) == Scan(n, true) && (i < |s| ==> s[i] == LETTER_M)
  {
    hide ScanOf;
    OneMore(s, from);
    i := from + 1;
    while i < |s| && s[i] != LETTER_M
      invariant from < i <= |s| && ScanOf(s[..i]) == Scan(n, true)
    {
      OneMore(s, i);
      i := i + 1;
    }
  }

  /** The line up to `k`, an ellipsis and a reset. */
  function CutAt(s: Bytes, k: nat): Bytes
    requires k <= |s|
  {
    s[..k] + ELLIPSIS + RESET
  }

  /** k is where the last column that fits begins: outside any escape sequence and at a whole character. */
  predicate IsCut(s: Bytes, width: nat, k: nat) {
    k < |s| && width > 0 && ScanOf(s[..k]) == Scan(width - 1, false) && s[k] != ESCAPE && Lead(s[k])
  }

  method TruncateVisible(s: Bytes, width: nat) returns (out: Bytes)
    ensures width == 0 || Width(s) <= width ==> out == s
    ensures width > 0 && Width(s) > width ==> exists k :: IsCut(s, width, k) && out == CutAt(s, k)
  {
    var whole := VisibleWidth(s);
    if width == 0 || whole <= width {
      return s;
    }
    var n, i, inEscape := 0, 0, false;
    out := [];
    assert ScanOf(s[..0]) == Scan(0, false) && s[..|s|] == s;
    hide ScanOf;
    while i < |s|
      invariant 0 <= i <= |s| && out == s[..i] && ScanOf(s[..i]) == Scan(n, inEscape) && n < width
    {
      OneMore(s, i);
      if s[i] == ESCAPE {
        inEscape := true;
      }
      if inEscape {
        out := out + [s[i]];
        if s[i] == LETTER_M {
          inEscape := false;
        }
        i := i + 1;
        continue;
      }
      var lead := Lead(s[i]);
      if lead && n + 1 >= width {
        break;
      }
      if lead {
        n := n + 1;
      }
      out := out + [s[i]];
      i := i + 1;
    }
    out := out + ELLIPSIS + RESET;
    assert IsCut(s, width, i) && out == CutAt(s, i);
  }

  /** A cut line is exactly as wide as asked for, and ends outside any escape sequence. */
  lemma CutIsExact(s: Bytes, width: nat, k: nat)
    requires IsCut(s, width, k)
    ensures ScanOf(CutAt(s, k)) == Scan(width, false) && CutAt(s, k) == s[..k] + [0xE2, 0x80, 0xA6, 0x1B, 0x5B, 0x30, 0x6D]
  {
    var a := s[..k];
    ScanSnoc(a, 0xE2);
    ScanSnoc(a + [0xE2], 0x80);
    ScanSnoc(a + [0xE2] + [0x80], 0xA6);
    assert a + ELLIPSIS == a + [0xE2] + [0x80] + [0xA6];
    var b := a + ELLIPSIS;
    ScanSnoc(b, 0x1B);
    ScanSnoc(b + [0x1B], 0x5B);
    ScanSnoc(b + [0x1B] + [0x5B], 0x30);
    ScanSnoc(b + [0x1B] + [0x5B] + [0x30], 0x6D);
    assert b + RESET == b + [0x1B] + [0x5B] + [0x30] + [0x6D];
  }

  /** There is one place to cut, so the width decides the line. */
  lemma {:induction false} OneCut(s: Bytes, width: nat, j: nat, k: nat)
    requires IsCut(s, width, j) && IsCut(s, width, k)
    ensures j == k
  {
    if j < k {
      Passed(s, j, k);
    } else if k < j {
      Passed(s, k, j);
    }
  }

  /** Past a visible character there is a column more. */
  lemma {:induction false} Passed(s: Bytes, j: nat, k: nat)
    requires j < k <= |s| && !ScanOf(s[..j]).inEscape && s[j] != ESCAPE && Lead(s[j])
    ensures ScanOf(s[..k]).columns > ScanOf(s[..j]).columns
    decreases k
  {
    OneMore(s, k - 1);
    if j < k - 1 {
      Passed(s, j, k - 1);
    }
  }
}
