/** Characters and strings with the meaning the JavaScript string operations of
    the extension give them: the `\s` and `\w` classes, `trim`, `startsWith` (as an occurrence at 0),
    `includes`, `indexOf` and the `/\s+/g` collapse. */
module Text {

  /** JavaScript's `\s` class: the characters `String.prototype.trim` removes. */
  predicate IsSpace(c: char) {
    c == ' ' || c == '\t' || c == '\n' || c == '\r' || c == '\U{B}' || c == '\U{C}'
    || c == '\U{A0}' || c == '\U{1680}' || ('\U{2000}' <= c <= '\U{200A}')
    || c == '\U{2028}' || c == '\U{2029}' || c == '\U{202F}' || c == '\U{205F}'
    || c == '\U{3000}' || c == '\U{FEFF}'
  }

  /** JavaScript's `\w` class. */
  predicate IsWordChar(c: char) {
    ('a' <= c <= 'z') || ('A' <= c <= 'Z') || ('0' <= c <= '9') || c == '_'
  }

  /** The end of the whitespace run of `s` that starts at `i`. */
  function SpaceEnd(s: string, i: nat): (r: nat)
    requires i <= |s|
    decreases |s| - i
    ensures i <= r <= |s|
    ensures forall j :: i <= j < r ==> IsSpace(s[j])
    ensures r < |s| ==> !IsSpace(s[r])
  {
    if i == |s| || !IsSpace(s[i]) then i else SpaceEnd(s, i + 1)
  }

  /** The three facts `SpaceEnd` ensures determine it. */
  lemma {:induction false} SpaceEndIs(s: string, i: nat, k: nat)
    requires i <= k <= |s| && (forall j :: i <= j < k ==> IsSpace(s[j]))
    requires k < |s| ==> !IsSpace(s[k])
    ensures SpaceEnd(s, i) == k
    decreases k - i
  {
    if i < k {
      SpaceEndIs(s, i + 1, k);
    }
  }

  /** `s` without its leading whitespace. */
  function TrimStart(s: string): string {
    s[SpaceEnd(s, 0)..]
  }

  /** `TrimStart` removes exactly the leading whitespace: the result is a
      suffix of `s`, what precedes it is whitespace, and it does not start
      with whitespace. */
  lemma TrimStartSpec(s: string)
    ensures var r := TrimStart(s);
            |r| <= |s| && r == s[|s| - |r|..] && (forall i :: 0 <= i < |s| - |r| ==> IsSpace(s[i]))
            && (r != [] ==> !IsSpace(r[0]))
  {
  }

  /** `s` without its trailing whitespace. */
  function TrimEnd(s: string): string {
    if s == [] || !IsSpace(s[|s| - 1]) then s else TrimEnd(s[..|s| - 1])
  }

  /** `TrimEnd` removes exactly the trailing whitespace: the result is a
      prefix of `s`, what follows it is whitespace, and it does not end with
      whitespace. */
  lemma {:induction false} TrimEndSpec(s: string)
    ensures var r := TrimEnd(s);
            |r| <= |s| && r == s[..|r|] && (forall i :: |r| <= i < |s| ==> IsSpace(s[i]))
            && (r != [] ==> !IsSpace(r[|r| - 1]))
  {
    if s != [] && IsSpace(s[|s| - 1]) {
      TrimEndSpec(s[..|s| - 1]);
      var r := TrimEnd(s[..|s| - 1]);
      assert s[..|s| - 1][..|r|] == s[..|r|];
    }
  }

  /** `String.prototype.trim`: the slice of `s` between its leading and its
      trailing whitespace. */
  function Trim(s: string): string {
    TrimEnd(TrimStart(s))
  }

  /** `trim` removes exactly the leading and the trailing whitespace: the
      result is the slice of `s` after its leading whitespace run, what
      follows it in `s` is whitespace, and it neither starts nor ends with
      whitespace. */
  lemma TrimSpec(s: string)
    ensures SpaceEnd(s, 0) + |Trim(s)| <= |s| && Trim(s) == s[SpaceEnd(s, 0)..SpaceEnd(s, 0) + |Trim(s)|]
    ensures forall j :: SpaceEnd(s, 0) + |Trim(s)| <= j < |s| ==> IsSpace(s[j])
    ensures Trim(s) != [] ==> !IsSpace(Trim(s)[0]) && !IsSpace(Trim(s)[|Trim(s)| - 1])
  {
    TrimStartSpec(s);
    TrimEndSpec(TrimStart(s));
  }

  /** `t` occurs in `s` at position `j`. */
  predicate OccursAt(s: string, t: string, j: int) {
    0 <= j && j + |t| <= |s| && s[j..j + |t|] == t
  }

  /** `s.indexOf(t)`: the first position where `t` occurs in `s`, or -1. */
  function IndexOf(s: string, t: string): (r: int)
    ensures r >= -1 && (r >= 0 ==> r + |t| <= |s|)
  {
    if |s| < |t| then -1
    else if s[..|t|] == t then 0
    else
      var k := IndexOf(s[1..], t);
      if k < 0 then -1 else k + 1
  }

  /** `indexOf` finds an occurrence, and none lies to the left of it; it
      answers -1 only when there is no occurrence at all. */
  lemma {:induction false} IndexOfSpec(s: string, t: string)
    ensures IndexOf(s, t) >= 0 ==> OccursAt(s, t, IndexOf(s, t))
    ensures forall j :: OccursAt(s, t, j) ==> 0 <= IndexOf(s, t) <= j
    decreases |s|
  {
    if |s| >= |t| && s[..|t|] != t {
      IndexOfSpec(s[1..], t);
      forall j | 1 <= j <= |s| - |t| ensures OccursAt(s, t, j) <==> OccursAt(s[1..], t, j - 1) {
        SliceOfTail(s, j, |t|);
      }
      assert !OccursAt(s, t, 0);
    }
  }

  /** A slice of the tail of `s` is the slice of `s` one place later. */
  lemma SliceOfTail(s: string, j: nat, n: nat)
    requires 1 <= j && j + n <= |s|
    ensures s[1..][j - 1..j - 1 + n] == s[j..j + n]
  {
    var a, b := s[1..][j - 1..j - 1 + n], s[j..j + n];
    forall i | 0 <= i < n ensures a[i] == b[i] {
      assert a[i] == s[1..][j - 1 + i];
    }
  }

  /** `s.includes(t)`. */
  predicate Contains(s: string, t: string) {
    IndexOf(s, t) >= 0
  }

  /** A one-character search is membership. */
  lemma {:induction false} ContainsChar(s: string, c: char)
    ensures Contains(s, [c]) <==> c in s
  {
    IndexOfSpec(s, [c]);
    if Contains(s, [c]) {
      var j := IndexOf(s, [c]);
      assert s[j] == s[j..j + 1][0];
    }
    if c in s {
      var j :| 0 <= j < |s| && s[j] == c;
      assert s[j..j + 1] == [c];
      assert OccursAt(s, [c], j);
    }
  }

  /** The occurrences of the strings searched for in a signature survive a
      longer context: a string containing `u` contains every piece of `u`. */
  lemma ContainsPiece(s: string, u: string, t: string, k: int)
    requires Contains(s, u)
    requires 0 <= k <= |u| - |t| && u[k..k + |t|] == t
    ensures Contains(s, t)
  {
    IndexOfSpec(s, u);
    IndexOfSpec(s, t);
    var j := IndexOf(s, u);
    assert s[j..j + |u|] == u;
    SliceOfSlice(s, j, |u|, k, |t|);
    assert OccursAt(s, t, j + k);
  }

  /** A slice of a slice is a slice. */
  lemma SliceOfSlice(s: string, j: nat, m: nat, k: nat, n: nat)
    requires j + m <= |s| && k + n <= m
    ensures s[j..j + m][k..k + n] == s[j + k..j + k + n]
  {
    var a, b := s[j..j + m][k..k + n], s[j + k..j + k + n];
    forall i | 0 <= i < n ensures a[i] == b[i] {
      assert a[i] == s[j..j + m][k + i];
    }
  }

  /** `s.replace(/\s+/g, ' ')`: every maximal whitespace run becomes one space. */
  function Collapse(s: string): (r: string)
    decreases |s|
  {
    if s == [] then []
    else if IsSpace(s[0]) then [' '] + Collapse(s[SpaceEnd(s, 0)..])
    else [s[0]] + Collapse(s[1..])
  }

  /** The non-whitespace characters of `s`, in order. */
  function Visible(s: string): (r: string)
    ensures |r| <= |s|
  {
    if s == [] then [] else (if IsSpace(s[0]) then [] else [s[0]]) + Visible(s[1..])
  }

  /** Leading whitespace adds nothing to the visible characters. */
  lemma {:induction false} VisibleOfSpaces(s: string, n: nat)
    requires n <= |s| && forall i :: 0 <= i < n ==> IsSpace(s[i])
    ensures Visible(s) == Visible(s[n..])
    decreases n
  {
    if n > 0 {
      VisibleOfSpaces(s[1..], n - 1);
      assert s[1..][n - 1..] == s[n..];
    }
  }

  /** The collapse only rewrites whitespace: the visible text is unchanged,
      no whitespace other than a plain space remains, and no two spaces are
      adjacent. */
  lemma {:induction false} CollapseSpec(s: string)
    ensures Visible(Collapse(s)) == Visible(s)
    ensures forall i :: 0 <= i < |Collapse(s)| && IsSpace(Collapse(s)[i]) ==> Collapse(s)[i] == ' '
    ensures forall i :: 0 <= i < |Collapse(s)| - 1 ==> !(Collapse(s)[i] == ' ' && Collapse(s)[i + 1] == ' ')
    ensures Collapse(s) != [] ==> (Collapse(s)[0] == ' ' <==> IsSpace(s[0]))
    ensures |Collapse(s)| <= |s|
    decreases |s|
  {
    if s == [] {
    } else if IsSpace(s[0]) {
      var n := SpaceEnd(s, 0);
      var rest := s[n..];
      CollapseSpec(rest);
      VisibleOfSpaces(s, n);
      assert Visible([' '] + Collapse(rest)) == Visible(Collapse(rest)) by {
        assert ([' '] + Collapse(rest))[1..] == Collapse(rest);
      }
    } else {
      CollapseSpec(s[1..]);
      assert ([s[0]] + Collapse(s[1..]))[1..] == Collapse(s[1..]);
    }
  }

  /** Collapsing twice is collapsing once. */
  lemma {:induction false} CollapseIdempotent(s: string)
    ensures Collapse(Collapse(s)) == Collapse(s)
    decreases |s|
  {
    if s == [] {
    } else if IsSpace(s[0]) {
      var rest := s[SpaceEnd(s, 0)..];
      CollapseIdempotent(rest);
      CollapseSpec(rest);
      var c := Collapse(rest);
      var cc := [' '] + c;
      assert SpaceEnd(cc, 0) == 1 by {
        assert IsSpace(cc[0]);
        if c != [] {
          assert !IsSpace(rest[0]);
          assert c[0] != ' ';
          assert !IsSpace(cc[1]);
        }
      }
      assert cc[1..] == c;
    } else {
      CollapseIdempotent(s[1..]);
      assert ([s[0]] + Collapse(s[1..]))[1..] == Collapse(s[1..]);
    }
  }

  /** A character that is not whitespace occurs in the collapse of `s` as
      often as in `s`. */
  lemma {:induction false} CollapseCount(s: string, c: char)
    requires !IsSpace(c)
    ensures multiset(Collapse(s))[c] == multiset(s)[c]
    decreases |s|
  {
    if s == [] {
    } else if IsSpace(s[0]) {
      var n := SpaceEnd(s, 0);
      CollapseCount(s[n..], c);
      assert s == s[..n] + s[n..];
      assert c !in s[..n];
      assert multiset(s[..n])[c] == 0;
    } else {
      CollapseCount(s[1..], c);
      assert s == [s[0]] + s[1..];
    }
  }

  /** When `s` ends with a visible character, so does its collapse. */
  lemma {:induction false} CollapseLast(s: string)
    requires s != [] && !IsSpace(s[|s| - 1])
    ensures Collapse(s) != [] && Collapse(s)[|Collapse(s)| - 1] == s[|s| - 1]
    decreases |s|
  {
    if IsSpace(s[0]) {
      var n := SpaceEnd(s, 0);
      assert n < |s|;
      CollapseLast(s[n..]);
    } else if |s| > 1 {
      CollapseLast(s[1..]);
    }
  }

  /** `s` with every whitespace character replaced by a plain space. */
  function Spaced(s: string): (r: string)
    ensures |r| == |s|
  {
    seq(|s|, i requires 0 <= i < |s| => if IsSpace(s[i]) then ' ' else s[i])
  }

  /** `t` with every run of spaces reduced to a single space. */
  function Squeeze(t: string): string {
    if |t| <= 1 then t
    else if t[0] == ' ' && t[1] == ' ' then Squeeze(t[1..])
    else [t[0]] + Squeeze(t[1..])
  }

  /** A run of spaces before a text that does not start with a space
      squeezes to one space. */
  lemma {:induction false} SqueezeRun(n: nat, u: string)
    requires n >= 1 && (u != [] ==> u[0] != ' ')
    ensures Squeeze(Spaces(n) + u) == [' '] + Squeeze(u)
    decreases n
  {
    var t := Spaces(n) + u;
    if n == 1 {
      if u != [] {
        assert t[1..] == u;
      }
    } else {
      assert t[1..] == Spaces(n - 1) + u;
      SqueezeRun(n - 1, u);
    }
  }

  /** The collapse is the squeeze of the text with its whitespace made
      spaces: each maximal whitespace run is replaced by exactly one space,
      and every other character is kept. */
  lemma {:induction false} CollapseIsSqueeze(s: string)
    ensures Collapse(s) == Squeeze(Spaced(s))
    decreases |s|
  {
    if s == [] {
    } else if IsSpace(s[0]) {
      var n := SpaceEnd(s, 0);
      CollapseIsSqueeze(s[n..]);
      assert Spaced(s) == Spaces(n) + Spaced(s[n..]);
      SqueezeRun(n, Spaced(s[n..]));
    } else {
      CollapseIsSqueeze(s[1..]);
      var t := Spaced(s);
      assert t == [s[0]] + Spaced(s[1..]);
      if |s| > 1 {
        assert t[1..] == Spaced(s[1..]);
      }
    }
  }

  /** The digit character of a number below ten. */
  function DigitChar(d: nat): (c: char)
    requires d < 10
    ensures '0' <= c <= '9'
  {
    ['0', '1', '2', '3', '4', '5', '6', '7', '8', '9'][d]
  }

  /** The value of a digit character. */
  function DigitValue(c: char): nat {
    if '0' <= c <= '9' then (c as int - '0' as int) as nat else 0
  }

  /** `n.toString()` for a non-negative integer. */
  function Decimal(n: nat): (r: string)
    ensures r != [] && forall i :: 0 <= i < |r| ==> '0' <= r[i] <= '9'
    ensures |r| > 1 ==> r[0] != '0'
  {
    if n < 10 then [DigitChar(n)] else Decimal(n / 10) + [DigitChar(n % 10)]
  }

  /** The number a string of decimal digits denotes. */
  function ParseDecimal(s: string): nat {
    if s == [] then 0 else 10 * ParseDecimal(s[..|s| - 1]) + DigitValue(s[|s| - 1])
  }

  /** Printing a number and reading it back gives the number. */
  lemma {:induction false} DecimalRoundTrip(n: nat)
    ensures ParseDecimal(Decimal(n)) == n
  {
    if n >= 10 {
      DecimalRoundTrip(n / 10);
      var r := Decimal(n);
      assert r[..|r| - 1] == Decimal(n / 10);
    }
  }

  /** Ten to the power `k`. */
  function Pow10(k: nat): (r: nat)
    ensures r >= 1
  {
    if k == 0 then 1 else 10 * Pow10(k - 1)
  }

  /** `toString()` writes as many digits as the number needs and no more:
      `n` is below ten to the width, and with two or more digits it is at
      least ten to the width less one. */
  lemma {:induction false} DecimalWidth(n: nat)
    ensures n < Pow10(|Decimal(n)|)
    ensures |Decimal(n)| > 1 ==> Pow10(|Decimal(n)| - 1) <= n
  {
    if n >= 10 {
      DecimalWidth(n / 10);
      assert |Decimal(n)| == |Decimal(n / 10)| + 1;
    }
  }

  /** A larger number never has fewer digits. */
  lemma {:induction false} DecimalWidthMonotone(m: nat, n: nat)
    requires m <= n
    ensures |Decimal(m)| <= |Decimal(n)|
  {
    if m >= 10 {
      DecimalWidthMonotone(m / 10, n / 10);
    }
  }

  /** A string of `n` spaces. */
  function Spaces(n: nat): (r: string)
    ensures |r| == n && forall i :: 0 <= i < n ==> r[i] == ' '
  {
    seq(n, _ => ' ')
  }

  /** `s.padStart(width, ' ')`. */
  function PadStart(s: string, width: nat): (r: string)
    ensures |r| == if |s| >= width then |s| else width
    ensures r[|r| - |s|..] == s && forall i :: 0 <= i < |r| - |s| ==> r[i] == ' '
  {
    if |s| >= width then s else Spaces(width - |s|) + s
  }

}
