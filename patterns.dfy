/** The capturing regular expressions of the signature extractor, as
    hand-written matchers with the meaning `String.prototype.match` gives a
    non-global pattern: the leftmost position where the pattern matches, and
    the text of its capture group there.

    For `kw\s+(\w+\s*\([^)]*\))` every quantifier is forced. A whitespace run
    is followed by a word character or `(`, neither of which is whitespace;
    a word run is followed by whitespace or `(`, which are not word
    characters; and `[^)]*` cannot stop before the first `)`. So backtracking
    never finds a second way to match at one position, and the matcher below
    takes each run to its end. `CallAtSound` and `CallAtComplete` prove that
    it finds exactly the matches the pattern describes. */
module Patterns {
  import opened Wrappers
  import opened Text

  /** The three header patterns: `function\s+(…)` and `func\s+(…)` are
      `Keyword` patterns, `(async\s+)?def\s+(…)` is `PythonDef`. */
  datatype Pattern = Keyword(kw: string) | PythonDef

  /** A capture has the shape `name(params)`: a word character first, a `)`
      last, a `(` somewhere, and no `)` before the last character. */
  predicate IsCallText(c: string) {
    |c| >= 3 && IsWordChar(c[0]) && c[|c| - 1] == ')' && '(' in c
    && forall i :: 0 <= i < |c| - 1 ==> c[i] != ')'
  }

  /** The end of the `\w` run of `s` that starts at `i`. */
  function WordEnd(s: string, i: nat): (r: nat)
    requires i <= |s|
    decreases |s| - i
    ensures i <= r <= |s|
    ensures forall j :: i <= j < r ==> IsWordChar(s[j])
    ensures r < |s| ==> !IsWordChar(s[r])
  {
    if i == |s| || !IsWordChar(s[i]) then i else WordEnd(s, i + 1)
  }

  /** The first `)` of `s` at or after `i`, if there is one. */
  function CloseParen(s: string, i: nat): (r: Option<nat>)
    requires i <= |s|
    decreases |s| - i
    ensures r.Some? ==> i <= r.value < |s| && s[r.value] == ')'
    ensures forall j :: i <= j < |s| && (r.None? || j < r.value) ==> s[j] != ')'
  {
    if i == |s| then None else if s[i] == ')' then Some(i) else CloseParen(s, i + 1)
  }

  /** The pattern `kw\s+(\w+\s*\([^)]*\))` matches at `p` with the name
      at `b..c`, the parenthesis at `d` and the match ending at `q`; the
      capture group is `s[b..q]`. */
  ghost predicate CallSplit(s: string, p: nat, kw: string, b: nat, c: nat, d: nat, q: nat) {
    p + |kw| < b < c <= d && d + 1 < q <= |s|
    && OccursAt(s, kw, p)
    && (forall i :: p + |kw| <= i < b ==> IsSpace(s[i]))
    && (forall i :: b <= i < c ==> IsWordChar(s[i]))
    && (forall i :: c <= i < d ==> IsSpace(s[i]))
    && s[d] == '('
    && (forall i :: d < i < q - 1 ==> s[i] != ')')
    && s[q - 1] == ')'
  }

  /** The capture of `kw\s+(\w+\s*\([^)]*\))` when it matches at `p`. */
  function CallAt(s: string, p: nat, kw: string): (r: Option<string>)
    requires p <= |s|
    ensures r.Some? ==> IsCallText(r.value)
  {
    if !OccursAt(s, kw, p) then None
    else
      var a := p + |kw|;
      var b := SpaceEnd(s, a);
      if b == a then None
      else
        var c := WordEnd(s, b);
        if c == b then None
        else
          var d := SpaceEnd(s, c);
          if d == |s| || s[d] != '(' then None
          else
            match CloseParen(s, d + 1)
            case None => None
            case Some(e) =>
              SplitIsCallText(s, p, kw, b, c, d, e + 1);
              Some(s[b..e + 1])
  }

  /** A capture of the pattern has the shape `name(params)`. */
  lemma SplitIsCallText(s: string, p: nat, kw: string, b: nat, c: nat, d: nat, q: nat)
    requires CallSplit(s, p, kw, b, c, d, q)
    ensures IsCallText(s[b..q])
  {
    var r := s[b..q];
    assert r[d - b] == '(';
    forall i | 0 <= i < |r| - 1 ensures r[i] != ')' {
      assert r[i] == s[b + i];
    }
  }

  /** Every match the matcher reports is a match of the pattern. */
  lemma CallAtSound(s: string, p: nat, kw: string)
    requires p <= |s| && CallAt(s, p, kw).Some?
    ensures exists b: nat, c: nat, d: nat, q: nat :: CallSplit(s, p, kw, b, c, d, q) && CallAt(s, p, kw) == Some(s[b..q])
  {
    var b := SpaceEnd(s, p + |kw|);
    var c := WordEnd(s, b);
    var d := SpaceEnd(s, c);
    var q := CloseParen(s, d + 1).value + 1;
    assert CallSplit(s, p, kw, b, c, d, q);
  }

  /** Every match of the pattern is found, with the same capture: the
      capture at a position is unique. */
  lemma CallAtComplete(s: string, p: nat, kw: string, b: nat, c: nat, d: nat, q: nat)
    requires CallSplit(s, p, kw, b, c, d, q)
    ensures CallAt(s, p, kw) == Some(s[b..q])
  {
    assert !IsSpace(s[b]);
    assert SpaceEnd(s, p + |kw|) == b;
    assert !IsWordChar(s[c]);
    assert WordEnd(s, b) == c;
    assert SpaceEnd(s, c) == d;
    assert CloseParen(s, d + 1) == Some(q - 1);
  }

  /** Python's `(async\s+)?def\s+(\w+\s*\([^)]*\))` at `p`: the optional group
      is tried first, then the pattern without it. Group 2 is returned. */
  function PythonAt(s: string, p: nat): (r: Option<string>)
    requires p <= |s|
    ensures r.Some? ==> IsCallText(r.value)
  {
    if OccursAt(s, "async", p) then
      var a := p + 5;
      var q := SpaceEnd(s, a);
      if q > a && CallAt(s, q, "def").Some? then CallAt(s, q, "def") else CallAt(s, p, "def")
    else CallAt(s, p, "def")
  }

  /** The capture of `pat` at position `p`, if it matches there. */
  function MatchAt(s: string, p: nat, pat: Pattern): (r: Option<string>)
    requires p <= |s|
    ensures r.Some? ==> IsCallText(r.value)
  {
    match pat
    case Keyword(kw) => CallAt(s, p, kw)
    case PythonDef => PythonAt(s, p)
  }

  /** The least `q` with `p <= q <= n` for which `found(q)` holds. */
  function FirstFrom(found: nat -> bool, p: nat, n: nat): (r: Option<nat>)
    requires p <= n
    decreases n - p
    ensures r.Some? ==> p <= r.value <= n
  {
    if found(p) then Some(p) else if p == n then None else FirstFrom(found, p + 1, n)
  }

  /** `FirstFrom` finds a position where `found` holds and none to the left
      of it; it finds none only when `found` holds nowhere from `p` to `n`. */
  lemma {:induction false} FirstFromSpec(found: nat -> bool, p: nat, n: nat)
    requires p <= n
    ensures FirstFrom(found, p, n).Some? ==> found(FirstFrom(found, p, n).value)
    ensures forall q :: p <= q <= n && found(q) ==> FirstFrom(found, p, n).Some? && FirstFrom(found, p, n).value <= q
    decreases n - p
  {
    if !found(p) && p < n {
      FirstFromSpec(found, p + 1, n);
    }
  }

  /** The positions of `s` where `pat` matches. */
  function MatchesAt(s: string, pat: Pattern): nat -> bool {
    (q: nat) => q <= |s| && MatchAt(s, q, pat).Some?
  }

  /** The leftmost position at or after `p` where `pat` matches. */
  function FirstMatchFrom(s: string, pat: Pattern, p: nat): (r: Option<nat>)
    requires p <= |s|
    ensures r.Some? ==> p <= r.value <= |s|
  {
    FirstFrom(MatchesAt(s, pat), p, |s|)
  }

  /** `FirstMatchFrom` finds a position where the pattern matches, and
      none lies to the left of it; it finds none only when the pattern
      matches nowhere from `p` on. */
  lemma FirstMatchFromSpec(s: string, pat: Pattern, p: nat)
    requires p <= |s|
    ensures FirstMatchFrom(s, pat, p).Some? ==> MatchAt(s, FirstMatchFrom(s, pat, p).value, pat).Some?
    ensures forall q :: p <= q <= |s| && MatchAt(s, q, pat).Some?
                        ==> FirstMatchFrom(s, pat, p).Some? && FirstMatchFrom(s, pat, p).value <= q
  {
    var found := MatchesAt(s, pat);
    FirstFromSpec(found, p, |s|);
    forall q | p <= q <= |s| ensures found(q) == MatchAt(s, q, pat).Some? {
    }
  }

  /** `s.match(pat)`, reduced to the capture the extractor reads. */
  function Match(s: string, pat: Pattern): (r: Option<string>)
    ensures r.Some? ==> IsCallText(r.value)
  {
    match FirstMatchFrom(s, pat, 0)
    case Some(p) => MatchAt(s, p, pat)
    case None => None
  }

  /** No match of a keyword pattern starts at a character other than the
      keyword's first. */
  lemma NoCallWhereFirstCharDiffers(s: string, p: nat, kw: string)
    requires p < |s| && kw != [] && s[p] != kw[0]
    ensures CallAt(s, p, kw).None?
  {
  }

  /** Wherever `def\s+(…)` matches, `(async\s+)?def\s+(…)` matches too. */
  lemma DefMatchIsPythonMatch(s: string, r: nat)
    requires r <= |s| && MatchAt(s, r, Keyword("def")).Some?
    ensures MatchAt(s, r, PythonDef).Some?
  {
    if OccursAt(s, "async", r) {
      assert s[r] == s[r..r + 5][0] == 'a';
      NoCallWhereFirstCharDiffers(s, r, "def");
    }
  }

  /** A Python match at `p` is the `def\s+(…)` match at the `def` it contains,
      and `def\s+(…)` matches nowhere between `p` and that `def`. */
  lemma PythonMatchIsDefMatch(s: string, p: nat) returns (q: nat)
    requires p <= |s| && PythonAt(s, p).Some?
    ensures p <= q <= |s| && CallAt(s, q, "def") == PythonAt(s, p)
    ensures forall r :: p <= r < q ==> CallAt(s, r, "def").None?
  {
    q := p;
    if OccursAt(s, "async", p) {
      var a := p + 5;
      var q' := SpaceEnd(s, a);
      if q' > a && CallAt(s, q', "def").Some? {
        q := q';
        forall r | p <= r < q ensures CallAt(s, r, "def").None? {
          if r < a {
            assert s[r] == s[p..p + 5][r - p];
          }
          NoCallWhereFirstCharDiffers(s, r, "def");
        }
      }
    }
  }

  /** The optional `(async\s+)` group never changes what the Python pattern
      captures: it finds the same function text as `def\s+(…)` alone. */
  lemma {:induction false} PythonAsyncIrrelevant(s: string)
    ensures Match(s, PythonDef) == Match(s, Keyword("def"))
  {
    var def := Keyword("def");
    var m := FirstMatchFrom(s, def, 0);
    var n := FirstMatchFrom(s, PythonDef, 0);
    FirstMatchFromSpec(s, def, 0);
    FirstMatchFromSpec(s, PythonDef, 0);
    if n.None? {
      if m.Some? {
        DefMatchIsPythonMatch(s, m.value);
      }
      assert m.None?;
    } else {
      var p := n.value;
      var q := PythonMatchIsDefMatch(s, p);
      assert MatchAt(s, q, def).Some?;
      assert m.Some? && m.value <= q;
      if m.value < p {
        DefMatchIsPythonMatch(s, m.value);
      }
      assert m.value == q;
      assert Match(s, PythonDef) == PythonAt(s, p);
      assert Match(s, def) == CallAt(s, q, "def");
    }
  }

}
