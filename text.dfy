/**
 * The string primitives of Go's standard library that the core relies on:
 * strings.TrimSpace, strings.Fields, strings.Join, the line splitting of
 * bufio.ScanLines and the decimal rendering of fmt.Sprint on an int.
 * Strings are sequences of characters (decoded code points).
 */
module Text {

  /** unicode.IsSpace: the characters with Unicode's White_Space property. */
  predicate IsSpace(c: char) {
    || c == ' ' || ('\t' <= c <= '\r') || c == '\U{85}' || c == '\U{A0}' || c == '\U{1680}'
    || ('\U{2000}' <= c <= '\U{200A}') || ('\U{2028}' <= c <= '\U{2029}')
    || c == '\U{202F}' || c == '\U{205F}' || c == '\U{3000}'
  }

  predicate AllSpace(s: string) {
    forall i :: 0 <= i < |s| ==> IsSpace(s[i])
  }

  predicate NoSpace(s: string) {
    forall i :: 0 <= i < |s| ==> !IsSpace(s[i])
  }

  /** A string with no leading and no trailing white space. */
  predicate IsTrimmed(s: string) {
    s == [] || (!IsSpace(s[0]) && !IsSpace(s[|s| - 1]))
  }

  function TrimLeft(s: string): string {
    if |s| > 0 && IsSpace(s[0]) then TrimLeft(s[1..]) else s
  }

  function TrimRight(s: string): string {
    if |s| > 0 && IsSpace(s[|s| - 1]) then TrimRight(s[..|s| - 1]) else s
  }

  /** strings.TrimSpace. */
  function TrimSpace(s: string): string {
    TrimRight(TrimLeft(s))
  }

  /** TrimLeft drops a white-space prefix and keeps the rest, which starts with a non-space character. */
  lemma {:induction false} TrimLeftSpec(s: string)
    ensures var r := TrimLeft(s);
      && |r| <= |s| && r == s[|s| - |r|..] && AllSpace(s[..|s| - |r|])
      && (r == [] || !IsSpace(r[0]))
  {
    if |s| > 0 && IsSpace(s[0]) {
      TrimLeftSpec(s[1..]);
      var n := |s| - |TrimLeft(s)|;
      forall k | 0 <= k < n ensures IsSpace(s[k]) {
        if k > 0 { assert s[k] == s[1..][..n - 1][k - 1]; }
      }
      assert forall k :: 0 <= k < n ==> s[..n][k] == s[k];
    }
  }

  /** TrimRight drops a white-space suffix and keeps the rest, which ends with a non-space character. */
  lemma {:induction false} TrimRightSpec(s: string)
    ensures var r := TrimRight(s);
      && |r| <= |s| && r == s[..|r|] && AllSpace(s[|r|..])
      && (r == [] || !IsSpace(r[|r| - 1]))
  {
    if |s| > 0 && IsSpace(s[|s| - 1]) {
      var s' := s[..|s| - 1];
      TrimRightSpec(s');
      var r := TrimRight(s);
      assert r == TrimRight(s');
      forall k | |r| <= k < |s| ensures IsSpace(s[k]) {
        if k < |s| - 1 { assert s[k] == s'[|r|..][k - |r|]; }
      }
      assert r == s'[..|r|] == s[..|r|];
    }
  }

  /**
   * The result of TrimSpace is the part of s between a white-space prefix
   * and a white-space suffix, and it starts and ends with a non-space
   * character.
   */
  lemma TrimSpaceSpec(s: string)
    ensures IsTrimmed(TrimSpace(s))
    ensures exists i, j :: 0 <= i <= j <= |s| && TrimSpace(s) == s[i..j] && AllSpace(s[..i]) && AllSpace(s[j..])
  {
    var l := TrimLeft(s);
    var r := TrimRight(l);
    TrimLeftSpec(s);
    TrimRightSpec(l);
    assert r == s[|s| - |l|..|s| - |l| + |r|];
    assert s[|s| - |l| + |r|..] == l[|r|..];
  }

  /** A string is trimmed to the empty string exactly when it is all white space. */
  lemma TrimSpaceEmpty(s: string)
    ensures TrimSpace(s) == [] <==> AllSpace(s)
  {
    TrimSpaceSpec(s);
    var i, j :| 0 <= i <= j <= |s| && TrimSpace(s) == s[i..j] && AllSpace(s[..i]) && AllSpace(s[j..]);
    if TrimSpace(s) != [] {
      assert s[i] == TrimSpace(s)[0];
      assert !IsSpace(s[i]);
    } else {
      forall k | 0 <= k < |s| ensures IsSpace(s[k]) {
        if k < i { assert s[k] == s[..i][k]; } else { assert s[k] == s[j..][k - j]; }
      }
    }
  }

  /** Trimming is idempotent: an already trimmed string is left unchanged. */
  lemma TrimSpaceTrimmed(s: string)
    requires IsTrimmed(s)
    ensures TrimSpace(s) == s
  {
    TrimLeftSpec(s);
    TrimRightSpec(s);
  }

  /** The longest prefix of s free of white space. */
  function Word(s: string): (w: string)
    ensures |w| <= |s| && w == s[..|w|]
    ensures NoSpace(w)
    ensures |w| < |s| ==> IsSpace(s[|w|])
  {
    if s == [] || IsSpace(s[0]) then [] else [s[0]] + Word(s[1..])
  }

  /**
   * strings.Fields: the maximal runs of non-space characters, in order.
   * Every field is non-empty and free of white space.
   */
  function Fields(s: string): (fs: seq<string>)
    ensures forall k :: 0 <= k < |fs| ==> fs[k] != [] && NoSpace(fs[k])
    decreases |s|
  {
    if s == [] then []
    else if IsSpace(s[0]) then Fields(s[1..])
    else
      var w := Word(s);
      [w] + Fields(s[|w|..])
  }

  /** A string has no fields exactly when it is all white space. */
  lemma {:induction false} FieldsEmpty(s: string)
    ensures Fields(s) == [] <==> AllSpace(s)
    decreases |s|
  {
    if s != [] && IsSpace(s[0]) {
      FieldsEmpty(s[1..]);
      assert AllSpace(s) <==> AllSpace(s[1..]);
    }
  }

  lemma {:induction false} WordOf(w: string, rest: string)
    requires NoSpace(w)
    requires rest == [] || IsSpace(rest[0])
    ensures Word(w + rest) == w
    decreases |w|
  {
    if w == [] {
      assert w + rest == rest;
    } else {
      var s := w + rest;
      assert s[0] == w[0] && !IsSpace(s[0]);
      assert s[1..] == w[1..] + rest;
      assert NoSpace(w[1..]) by {
        forall k | 0 <= k < |w| - 1 ensures !IsSpace(w[1..][k]) {
          assert w[1..][k] == w[k + 1];
        }
      }
      WordOf(w[1..], rest);
      assert Word(s) == [w[0]] + Word(s[1..]);
      assert [w[0]] + w[1..] == w;
    }
  }

  /** strings.Join. */
  function Join(xs: seq<string>, sep: string): (r: string)
    ensures |xs| == 1 ==> r == xs[0]
    ensures |xs| == 0 ==> r == []
  {
    if |xs| == 0 then [] else if |xs| == 1 then xs[0] else xs[0] + sep + Join(xs[1..], sep)
  }

  /** Four strings are joined with one separator between each pair of neighbours. */
  lemma JoinFour(a: string, b: string, c: string, d: string, sep: string)
    ensures Join([a, b, c, d], sep) == a + sep + b + sep + c + sep + d
  {
    assert [a, b, c, d][1..] == [b, c, d];
    assert [b, c, d][1..] == [c, d];
    assert [c, d][1..] == [d];
    assert Join([b, c, d], sep) == b + sep + (c + sep + d);
    assert a + sep + (b + sep + (c + sep + d)) == a + sep + b + sep + c + sep + d;
  }

  lemma JoinFive(a: string, b: string, c: string, d: string, e: string, sep: string)
    ensures Join([a, b, c, d, e], sep) == a + sep + b + sep + c + sep + d + sep + e
  {
    assert [a, b, c, d, e][1..] == [b, c, d, e];
    JoinFour(b, c, d, e, sep);
  }

  /** Joining n strings inserts exactly n - 1 separators and nothing else. */
  lemma {:induction false} JoinLength(xs: seq<string>, sep: string)
    requires |xs| > 0
    ensures |Join(xs, sep)| == TotalLength(xs) + (|xs| - 1) * |sep|
  {
    if |xs| > 1 {
      JoinLength(xs[1..], sep);
      assert TotalLength(xs) == |xs[0]| + TotalLength(xs[1..]);
    }
  }

  function TotalLength(xs: seq<string>): nat {
    if xs == [] then 0 else |xs[0]| + TotalLength(xs[1..])
  }

  /** Splitting words joined by one blank gives the words back. */
  lemma {:induction false} FieldsOfJoin(ws: seq<string>)
    requires forall k :: 0 <= k < |ws| ==> ws[k] != [] && NoSpace(ws[k])
    ensures Fields(Join(ws, " ")) == ws
  {
    if |ws| == 1 {
      WordOf(ws[0], []);
      assert ws[0] + [] == ws[0];
      assert ws[0][|ws[0]|..] == [];
    } else if |ws| > 1 {
      var rest := Join(ws[1..], " ");
      var s := ws[0] + " " + rest;
      WordOf(ws[0], " " + rest);
      assert s == ws[0] + (" " + rest);
      assert s[|ws[0]|..] == " " + rest;
      assert (" " + rest)[1..] == rest;
      FieldsOfJoin(ws[1..]);
      assert [ws[0]] + ws[1..] == ws;
    }
  }

  /** The text before the first newline of s (all of s if it has none). */
  function UntilNewline(s: string): (l: string)
    ensures |l| <= |s| && l == s[..|l|]
    ensures '\n' !in l
    ensures |l| < |s| ==> s[|l|] == '\n'
  {
    if s == [] || s[0] == '\n' then [] else [s[0]] + UntilNewline(s[1..])
  }

  /**
   * The tokens bufio.ScanLines yields: the text between newlines, where a
   * final newline does not start a further, empty line.
   */
  function ScanLines(s: string): (ls: seq<string>)
    ensures forall k :: 0 <= k < |ls| ==> '\n' !in ls[k]
    decreases |s|
  {
    if s == [] then []
    else
      var l := UntilNewline(s);
      if |l| == |s| then [s] else [l] + ScanLines(s[|l| + 1..])
  }

  lemma UntilNewlineOf(l: string, rest: string)
    requires '\n' !in l
    ensures UntilNewline(l + "\n" + rest) == l
    decreases |l|
  {
    if l != [] {
      assert (l + "\n" + rest)[1..] == l[1..] + "\n" + rest;
      UntilNewlineOf(l[1..], rest);
    }
  }

  /** A line followed by a newline is scanned as that line, then the rest. */
  lemma ScanLinesCons(l: string, rest: string)
    requires '\n' !in l
    ensures ScanLines(l + "\n" + rest) == [l] + ScanLines(rest)
  {
    UntilNewlineOf(l, rest);
    assert (l + "\n" + rest)[|l| + 1..] == rest;
  }

  lemma ScanLinesSingle(l: string)
    requires l != [] && '\n' !in l
    ensures ScanLines(l) == [l]
  {
    UntilNewlineOf(l, []);
    assert UntilNewline(l) == UntilNewline(l + "\n" + []) by {
      assert UntilNewline(l) == l;
    }
  }

  /** Scanning non-empty, newline-free lines joined by newlines gives the lines back. */
  lemma {:induction false} ScanLinesOfJoin(xs: seq<string>)
    requires forall k :: 0 <= k < |xs| ==> xs[k] != [] && '\n' !in xs[k]
    ensures ScanLines(Join(xs, "\n")) == xs
  {
    if |xs| == 1 {
      ScanLinesSingle(xs[0]);
    } else if |xs| > 1 {
      ScanLinesCons(xs[0], Join(xs[1..], "\n"));
      ScanLinesOfJoin(xs[1..]);
      assert [xs[0]] + xs[1..] == xs;
    }
  }

  /** Each string followed by a newline, in order: the text written one line per string. */
  function Lines(ss: seq<string>): string {
    if ss == [] then "" else Lines(ss[..|ss| - 1]) + ss[|ss| - 1] + "\n"
  }

  /** Writing a concatenation writes the lines of the first part, then those of the second. */
  lemma {:induction false} LinesAppend(a: seq<string>, b: seq<string>)
    ensures Lines(a + b) == Lines(a) + Lines(b)
    decreases |b|
  {
    if b == [] {
      assert a + b == a;
    } else {
      var b' := b[..|b| - 1];
      assert (a + b)[..|a + b| - 1] == a + b';
      assert (a + b)[|a + b| - 1] == b[|b| - 1];
      LinesAppend(a, b');
    }
  }

  /** Scanning the lines written for newline-free strings gives the strings back. */
  lemma {:induction false} ScanLinesOfLines(ss: seq<string>)
    requires forall k :: 0 <= k < |ss| ==> '\n' !in ss[k]
    ensures ScanLines(Lines(ss)) == ss
  {
    if ss != [] {
      var rest := ss[1..];
      LinesAppend([ss[0]], rest);
      assert [ss[0]] + rest == ss;
      assert [ss[0]][..0] == [];
      assert Lines([ss[0]]) == ss[0] + "\n";
      ScanLinesCons(ss[0], Lines(rest));
      assert ss[0] + "\n" + Lines(rest) == Lines(ss);
      ScanLinesOfLines(rest);
    }
  }

  predicate IsDigit(c: char) {
    '0' <= c <= '9'
  }

  function DigitChar(d: nat): (c: char)
    requires d < 10
    ensures IsDigit(c)
  {
    "0123456789"[d]
  }

  /** The decimal digits of n, most significant first, without leading zeros. */
  function NatToString(n: nat): (s: string)
    ensures |s| > 0 && (forall k :: 0 <= k < |s| ==> IsDigit(s[k]))
    ensures s[0] == '0' ==> n == 0 && s == "0"
  {
    if n < 10 then [DigitChar(n)] else NatToString(n / 10) + [DigitChar(n % 10)]
  }

  /** fmt.Sprint on an int: an optional minus sign followed by the decimal digits. */
  function IntToString(i: int): (s: string)
    ensures |s| > 0
    ensures '\n' !in s
    ensures i < 0 <==> s[0] == '-'
    ensures s[0] == '-' || IsDigit(s[0])
    ensures forall k :: 0 < k < |s| ==> IsDigit(s[k])
  {
    if i < 0 then "-" + NatToString(-i) else NatToString(i)
  }

  function DigitValue(c: char): (d: nat)
    requires IsDigit(c)
    ensures d < 10
  {
    c as int - '0' as int
  }

  /** The value of a string of decimal digits. */
  function ParseNat(s: string): nat
    requires forall k :: 0 <= k < |s| ==> IsDigit(s[k])
  {
    if s == [] then 0 else ParseNat(s[..|s| - 1]) * 10 + DigitValue(s[|s| - 1])
  }

  /** The value of an optionally signed decimal numeral. */
  function ParseInt(s: string): int
    requires |s| > 0
    requires forall k :: 0 < k < |s| ==> IsDigit(s[k])
    requires s[0] == '-' || IsDigit(s[0])
  {
    if s[0] == '-' then -(ParseNat(s[1..]) as int) else ParseNat(s)
  }

  lemma {:induction false} ParseNatToString(n: nat)
    ensures ParseNat(NatToString(n)) == n
  {
    if n >= 10 {
      var s := NatToString(n);
      assert s[..|s| - 1] == NatToString(n / 10);
      ParseNatToString(n / 10);
    } else {
      assert "0123456789"[n] as int - '0' as int == n;
    }
  }

  lemma ParseIntNegative(d: string)
    requires forall k :: 0 <= k < |d| ==> IsDigit(d[k])
    ensures ParseInt("-" + d) == -(ParseNat(d) as int)
  {
    assert ("-" + d)[1..] == d;
  }

  /** The decimal rendering of an int reads back as that int. */
  lemma IntToStringRoundTrip(i: int)
    ensures ParseInt(IntToString(i)) == i
  {
    if i < 0 {
      ParseNatToString(-i);
      ParseIntNegative(NatToString(-i));
    } else {
      ParseNatToString(i);
    }
  }
}
