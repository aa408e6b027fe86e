/** Signature extraction: the text a function is listed under and compared
    by (`getSignatureForSymbol` in src/extension.ts).

    The header line is the first line of the symbol's range, or of the five
    lines after it, that is not a decorator or a `//` comment. On that line
    the extractor tries, in order: a JavaScript `function name(...)`, a
    multi-line JavaScript header, a Go `func name(...)`, a Python
    `[async] def name(...)`, a multi-line Python header, and finally the
    header with a leading keyword stripped, up to its first `)`. When
    nothing applies the signature is the symbol's name. */
module Signatures {
  import opened Wrappers
  import opened Text
  import opened Patterns
  import opened Symbols

  /** The active editor's document: its URI and its lines. */
  datatype Document = Document(uri: string, lines: seq<string>)

  /** `Math.min`. */
  function Min(a: int, b: int): int {
    if a <= b then a else b
  }

  /** A line the header search steps over: a decorator or a `//` comment. */
  predicate IsSkipped(line: string) {
    OccursAt(line, "@", 0) || OccursAt(line, "//", 0)
  }

  /** The last line the header search looks at when the symbol starts on
      line `start` of a document of `lineCount` lines. */
  function LastHeaderLine(start: nat, lineCount: nat): int {
    Min(start + 5, lineCount - 1)
  }

  /** The first line from `i` to `last` whose trimmed text is not skipped. */
  function HeaderFrom(lines: seq<string>, i: nat, last: int): Option<nat>
    requires last < |lines|
    decreases last + 1 - i
  {
    if i > last then None
    else if !IsSkipped(Trim(lines[i])) then Some(i)
    else HeaderFrom(lines, i + 1, last)
  }

  /** `HeaderFrom` finds a line in the range that is not skipped, and every
      line of the range before it (all of them, when it finds none) is
      skipped. */
  lemma {:induction false} HeaderFromSpec(lines: seq<string>, i: nat, last: int)
    requires last < |lines|
    decreases last + 1 - i
    ensures var r := HeaderFrom(lines, i, last);
            r.Some? ==> i <= r.value <= last && !IsSkipped(Trim(lines[r.value]))
    ensures var r := HeaderFrom(lines, i, last);
            forall j :: i <= j <= last && (r.None? || j < r.value) ==> IsSkipped(Trim(lines[j]))
  {
    if i <= last && IsSkipped(Trim(lines[i])) {
      HeaderFromSpec(lines, i + 1, last);
    }
  }

  /** The header line of a symbol starting on line `start`: the first of
      lines `start` to `start + 5` (and not past the end of the document)
      that is neither a decorator nor a `//` comment. */
  function HeaderIndex(lines: seq<string>, start: nat): (r: Option<nat>)
    ensures r.Some? ==> start <= r.value <= start + 5 && r.value < |lines|
  {
    HeaderFromSpec(lines, start, LastHeaderLine(start, |lines|));
    HeaderFrom(lines, start, LastHeaderLine(start, |lines|))
  }

  /** `first` followed by the lines `lo` to `hi` (exclusive), each trimmed
      and preceded by one space. */
  function Continuation(first: string, lines: seq<string>, lo: nat, hi: nat): string
    requires lo <= hi <= |lines|
    decreases hi - lo
  {
    if lo == hi then first else Continuation(first, lines, lo, hi - 1) + " " + Trim(lines[hi - 1])
  }

  /** The end of the lines to join from `i`: just past the first line before
      `end` that contains `stop`, or `end`. */
  function StopFrom(lines: seq<string>, i: nat, end: nat, stop: string): (r: nat)
    requires i <= end <= |lines|
    decreases end - i
    ensures i <= r <= end
    ensures forall j :: i <= j < r - 1 ==> !Contains(lines[j], stop)
    ensures r < end ==> i < r && Contains(lines[r - 1], stop)
  {
    if i == end then end
    else if Contains(lines[i], stop) then i + 1
    else StopFrom(lines, i + 1, end, stop)
  }

  /** The end (exclusive) of the lines a multi-line header on line `k`
      joins: the lines after it up to and including the first that contains
      `stop`, at most nine lines, and none past the end of the document. */
  function JoinEnd(lines: seq<string>, k: nat, stop: string): (r: nat)
    requires k < |lines|
    ensures k + 1 <= r <= Min(k + 10, |lines|) && r <= k + 10
    ensures forall j :: k + 1 <= j < r - 1 ==> !Contains(lines[j], stop)
    ensures r < Min(k + 10, |lines|) ==> k + 1 < r && Contains(lines[r - 1], stop)
  {
    StopFrom(lines, k + 1, Min(k + 10, |lines|), stop)
  }

  /** The text a multi-line header on line `k` is matched against. */
  function Joined(lines: seq<string>, k: nat, stop: string): string
    requires k < |lines|
  {
    Continuation(Trim(lines[k]), lines, k + 1, JoinEnd(lines, k, stop))
  }

  /** Replacing the pattern `^\s*(function|def|public|private|static|async\s+def)\s*`
      in `line` by nothing removes the first `n` characters of `line`, `n`
      being this function.
      The alternatives are tried in that order; when none applies nothing is
      removed, not even leading whitespace. */
  function LeadingKeywordEnd(line: string): (n: nat)
    ensures n <= |line|
  {
    var a := SpaceEnd(line, 0);
    if OccursAt(line, "function", a) then SpaceEnd(line, a + 8)
    else if OccursAt(line, "def", a) then SpaceEnd(line, a + 3)
    else if OccursAt(line, "public", a) then SpaceEnd(line, a + 6)
    else if OccursAt(line, "private", a) then SpaceEnd(line, a + 7)
    else if OccursAt(line, "static", a) then SpaceEnd(line, a + 6)
    else if OccursAt(line, "async", a) && SpaceEnd(line, a + 5) > a + 5
            && OccursAt(line, "def", SpaceEnd(line, a + 5))
    then SpaceEnd(line, SpaceEnd(line, a + 5) + 3)
    else 0
  }

  /** The single words among the alternatives of the keyword group, in the
      order the pattern tries them; `async\s+def` comes after them. */
  const StripWords: seq<string> := ["function", "def", "public", "private", "static"]

  /** Alternative `k` of `(function|def|public|private|static|async\s+def)`
      matches `line` at `a`, its text ending at `e`. */
  ghost predicate AlternativeAt(line: string, a: nat, k: nat, e: nat) {
    if k < 5 then OccursAt(line, StripWords[k], a) && e == a + |StripWords[k]|
    else
      k == 5 && a + 5 < e - 3 && OccursAt(line, "async", a) && OccursAt(line, "def", e - 3)
      && forall i :: a + 5 <= i < e - 3 ==> IsSpace(line[i])
  }

  /** Nothing is removed exactly when no alternative of the keyword group
      occurs after the leading whitespace. */
  lemma LeadingKeywordAbsent(line: string)
    ensures LeadingKeywordEnd(line) == 0 <==> forall k: nat, e: nat :: !AlternativeAt(line, SpaceEnd(line, 0), k, e)
  {
    var a := SpaceEnd(line, 0);
    if LeadingKeywordEnd(line) == 0 {
      forall k: nat, e: nat ensures !AlternativeAt(line, a, k, e) {
        NoAlternative(line, a, k, e);
      }
    } else {
      AlternativeWitness(line, a);
    }
  }

  /** When nothing is removed, alternative `k` does not occur. */
  lemma NoAlternative(line: string, a: nat, k: nat, e: nat)
    requires a == SpaceEnd(line, 0) && LeadingKeywordEnd(line) == 0
    ensures !AlternativeAt(line, a, k, e)
  {
    if k < 5 && AlternativeAt(line, a, k, e) {
      WordRemoved(line, a, k);
    } else if k == 5 && AlternativeAt(line, a, k, e) {
      AsyncDefGap(line, a, e);
    }
  }

  /** When one of the single words occurs after the leading whitespace,
      something is removed. */
  lemma WordRemoved(line: string, a: nat, k: nat)
    requires a == SpaceEnd(line, 0) && k < 5 && OccursAt(line, StripWords[k], a)
    ensures LeadingKeywordEnd(line) > a
  {
    if k == 0 {
      assert OccursAt(line, "function", a);
    } else if k == 1 {
      assert OccursAt(line, "def", a);
    } else if k == 2 {
      assert OccursAt(line, "public", a);
    } else if k == 3 {
      assert OccursAt(line, "private", a);
    } else {
      assert OccursAt(line, "static", a);
    }
  }

  /** When something is removed, some alternative occurs. */
  lemma AlternativeWitness(line: string, a: nat)
    requires a == SpaceEnd(line, 0) && LeadingKeywordEnd(line) != 0
    ensures exists k: nat, e: nat :: AlternativeAt(line, a, k, e)
  {
    if OccursAt(line, "function", a) {
      assert AlternativeAt(line, a, 0, a + 8);
    } else if OccursAt(line, "def", a) {
      assert AlternativeAt(line, a, 1, a + 3);
    } else if OccursAt(line, "public", a) {
      assert AlternativeAt(line, a, 2, a + 6);
    } else if OccursAt(line, "private", a) {
      assert AlternativeAt(line, a, 3, a + 7);
    } else if OccursAt(line, "static", a) {
      assert AlternativeAt(line, a, 4, a + 6);
    } else {
      assert AlternativeAt(line, a, 5, SpaceEnd(line, a + 5) + 3);
    }
  }

  /** When alternative `k` is the first that occurs after the leading
      whitespace, the keyword group takes it, and the removed prefix is the
      leading whitespace, that alternative, and the whitespace run after it:
      what is left starts with a character that is not whitespace, or is
      empty. */
  lemma LeadingKeywordRemoved(line: string, k: nat, e: nat)
    requires AlternativeAt(line, SpaceEnd(line, 0), k, e)
    requires forall j: nat, f: nat :: j < k ==> !AlternativeAt(line, SpaceEnd(line, 0), j, f)
    ensures var a, n := SpaceEnd(line, 0), LeadingKeywordEnd(line);
            (forall i :: 0 <= i < a ==> IsSpace(line[i]))
            && a < e <= n <= |line| && (forall i :: e <= i < n ==> IsSpace(line[i]))
            && (n < |line| ==> !IsSpace(line[n]))
  {
    FirstAlternativeEnd(line, k, e);
  }

  /** The removed prefix ends with the whitespace run after the first
      alternative that occurs. */
  lemma FirstAlternativeEnd(line: string, k: nat, e: nat)
    requires AlternativeAt(line, SpaceEnd(line, 0), k, e)
    requires forall j: nat, f: nat :: j < k ==> !AlternativeAt(line, SpaceEnd(line, 0), j, f)
    ensures SpaceEnd(line, 0) < e <= |line| && LeadingKeywordEnd(line) == SpaceEnd(line, e)
  {
    var a := SpaceEnd(line, 0);
    EarlierWordsAbsent(line, a, k);
    if k < 5 {
      WordAlternativeEnd(line, a, k, e);
    } else {
      AsyncDefEnd(line, a, e);
    }
  }

  /** No alternative before `k` occurs, so none of the words before it does. */
  lemma EarlierWordsAbsent(line: string, a: nat, k: nat)
    requires forall j: nat, f: nat :: j < k ==> !AlternativeAt(line, a, j, f)
    ensures forall j: nat :: j < k && j < 5 ==> !OccursAt(line, StripWords[j], a)
  {
    forall j: nat | j < k && j < 5 ensures !OccursAt(line, StripWords[j], a) {
      assert !AlternativeAt(line, a, j, a + |StripWords[j]|);
    }
  }

  /** When the first alternative that occurs is one of the single words,
      the removed prefix ends with the whitespace run after it. */
  lemma WordAlternativeEnd(line: string, a: nat, k: nat, e: nat)
    requires a == SpaceEnd(line, 0) && k < 5 && AlternativeAt(line, a, k, e)
    requires forall j: nat :: j < k && j < 5 ==> !OccursAt(line, StripWords[j], a)
    ensures a < e <= |line| && LeadingKeywordEnd(line) == SpaceEnd(line, e)
  {
    assert StripWords[0] == "function" && StripWords[1] == "def" && StripWords[2] == "public"
           && StripWords[3] == "private" && StripWords[4] == "static";
    if k >= 1 { assert !OccursAt(line, StripWords[0], a); }
    if k >= 2 { assert !OccursAt(line, StripWords[1], a); }
    if k >= 3 { assert !OccursAt(line, StripWords[2], a); }
    if k >= 4 { assert !OccursAt(line, StripWords[3], a); }
  }

  /** When `async\s+def` is the first alternative that occurs, the removed
      prefix ends with the whitespace run after its `def`. */
  lemma AsyncDefEnd(line: string, a: nat, e: nat)
    requires a == SpaceEnd(line, 0) && AlternativeAt(line, a, 5, e)
    requires forall j: nat :: j < 5 ==> !OccursAt(line, StripWords[j], a)
    ensures a < e <= |line| && LeadingKeywordEnd(line) == SpaceEnd(line, e)
  {
    AsyncDefGap(line, a, e);
    AsyncDefAt(line, a, e - 3);
  }

  /** With none of the single words after the leading whitespace, `async`
      there and `def` after the whitespace run that follows it, the removed
      prefix ends with the whitespace run after that `def`. */
  lemma AsyncDefAt(line: string, a: nat, g: nat)
    requires a == SpaceEnd(line, 0) && OccursAt(line, "async", a) && a + 5 < g == SpaceEnd(line, a + 5)
    requires forall j: nat :: j < 5 ==> !OccursAt(line, StripWords[j], a)
    requires OccursAt(line, "def", g)
    ensures LeadingKeywordEnd(line) == SpaceEnd(line, g + 3)
  {
    assert !OccursAt(line, StripWords[0], a) && !OccursAt(line, StripWords[1], a);
    assert !OccursAt(line, StripWords[2], a) && !OccursAt(line, StripWords[3], a);
    assert !OccursAt(line, StripWords[4], a);
  }

  /** In `async\s+def` the whitespace run ends where `def` begins. */
  lemma AsyncDefGap(line: string, a: nat, e: nat)
    requires AlternativeAt(line, a, 5, e)
    ensures SpaceEnd(line, a + 5) == e - 3
  {
    assert line[e - 3] == line[e - 3..e][0] == 'd';
    SpaceEndIs(line, a + 5, e - 3);
  }

  /** The header with its leading keyword removed. */
  function StripLeadingKeyword(line: string): string {
    line[LeadingKeywordEnd(line)..]
  }

  /** The fallback for other languages: the header without its leading
      keyword, up to and including its first `)`, provided it contains a
      `(` and the first `)` is not its first character. */
  function FallbackSignature(line: string, name: string): string {
    var clean := StripLeadingKeyword(line);
    if Contains(clean, "(") then
      var endParen := IndexOf(clean, ")");
      if endParen > 0 then clean[..endParen + 1] else name
    else name
  }

  /** The signature of a symbol named `name` whose header line is `line`;
      `jsText` and `pyText` are the texts the multi-line JavaScript and
      Python branches join from the header onwards. */
  function HeaderSignature(line: string, jsText: string, pyText: string, name: string): string {
    match Match(line, Keyword("function"))
    case Some(c) => c
    case None =>
      if Contains(line, "function ") && Contains(line, "(") && !Contains(line, ")") then
        match Match(jsText, Keyword("function"))
        case Some(c) => Collapse(c)
        case None => name
      else
        match Match(line, Keyword("func"))
        case Some(c) => c
        case None =>
          match Match(line, PythonDef)
          case Some(c) => c
          case None =>
            if Contains(line, "def ") && Contains(line, "(") && !Contains(line, "):") then
              match Match(pyText, PythonDef)
              case Some(c) => Collapse(c)
              case None => name
            else FallbackSignature(line, name)
  }

  /** The signature of `symbol` in the editor `ed`; without an editor it is
      the symbol's name. */
  function Signature(ed: Option<Document>, symbol: Symbol): string {
    match ed
    case None => symbol.name
    case Some(doc) =>
      match HeaderIndex(doc.lines, symbol.startLine)
      case None => HeaderSignature("", "", "", symbol.name)
      case Some(k) =>
        HeaderSignature(Trim(doc.lines[k]), Joined(doc.lines, k, ")"), Joined(doc.lines, k, "):"), symbol.name)
  }

  /** A signature taken from the source text: it ends with its only `)`. */
  predicate IsSignatureText(r: string) {
    r != [] && r[|r| - 1] == ')' && forall i :: 0 <= i < |r| - 1 ==> r[i] != ')'
  }

  /** A capture of the `name(params)` shape ends with its only `)`. */
  lemma CallTextIsSignatureText(c: string)
    requires IsCallText(c)
    ensures IsSignatureText(c)
  {
  }

  /** Collapsing the whitespace of a matched `name(params)` keeps its single
      `)` at the end. */
  lemma {:induction false} CollapsedCallText(c: string)
    requires IsCallText(c)
    ensures IsSignatureText(Collapse(c))
  {
    var x := Collapse(c);
    CollapseLast(c);
    CollapseCount(c, ')');
    assert c == c[..|c| - 1] + [')'];
    assert ')' !in c[..|c| - 1];
    assert multiset(c)[')'] == 1;
    assert x == x[..|x| - 1] + [')'];
    assert multiset(x[..|x| - 1])[')'] == 0;
    forall i | 0 <= i < |x| - 1 ensures x[i] != ')' {
      assert x[i] in multiset(x[..|x| - 1]);
    }
  }

  /** The fallback yields the stripped header up to and including its first
      `)` when the header contains a `(` and that `)` is not its first
      character; otherwise the symbol's name. */
  lemma FallbackShape(line: string, name: string)
    ensures var clean, r := StripLeadingKeyword(line), FallbackSignature(line, name);
            Contains(clean, "(") && IndexOf(clean, ")") > 0
            ==> |r| >= 2 && r == clean[..|r|] && IsSignatureText(r)
    ensures var clean := StripLeadingKeyword(line);
            !Contains(clean, "(") || IndexOf(clean, ")") <= 0 ==> FallbackSignature(line, name) == name
    ensures FallbackSignature(line, name) == name || IsSignatureText(FallbackSignature(line, name))
  {
    var clean := StripLeadingKeyword(line);
    var e := IndexOf(clean, ")");
    IndexOfSpec(clean, ")");
    if Contains(clean, "(") && e > 0 {
      var r := clean[..e + 1];
      assert clean[e..e + 1] == [')'];
      forall i | 0 <= i < |r| - 1 ensures r[i] != ')' {
        if r[i] == ')' {
          assert clean[i..i + 1] == [')'];
          assert OccursAt(clean, ")", i);
        }
      }
    }
  }

  /** The signature read off a header is the symbol's name or a signature
      text. */
  lemma HeaderSignatureShape(line: string, jsText: string, pyText: string, name: string)
    ensures HeaderSignature(line, jsText, pyText, name) == name
            || IsSignatureText(HeaderSignature(line, jsText, pyText, name))
  {
    match Match(line, Keyword("function"))
    case Some(c) => CallTextIsSignatureText(c);
    case None =>
      if Contains(line, "function ") && Contains(line, "(") && !Contains(line, ")") {
        match Match(jsText, Keyword("function"))
        case Some(c) => CollapsedCallText(c);
        case None =>
      } else {
        match Match(line, Keyword("func"))
        case Some(c) => CallTextIsSignatureText(c);
        case None =>
          match Match(line, PythonDef)
          case Some(c) => CallTextIsSignatureText(c);
          case None =>
            if Contains(line, "def ") && Contains(line, "(") && !Contains(line, "):") {
              match Match(pyText, PythonDef)
              case Some(c) => CollapsedCallText(c);
              case None =>
            } else {
              FallbackShape(line, name);
            }
      }
  }

  /** Every signature is either the symbol's name or text of the form
      `…)` whose only `)` is the last character: a matched `name(params)`
      (whitespace-collapsed when joined from several lines) or the fallback's
      prefix through the first `)`. */
  lemma SignatureShape(ed: Option<Document>, symbol: Symbol)
    ensures Signature(ed, symbol) == symbol.name || IsSignatureText(Signature(ed, symbol))
  {
    if ed.Some? {
      var lines := ed.value.lines;
      match HeaderIndex(lines, symbol.startLine)
      case None =>
        HeaderSignatureShape("", "", "", symbol.name);
      case Some(k) =>
        HeaderSignatureShape(Trim(lines[k]), Joined(lines, k, ")"), Joined(lines, k, "):"), symbol.name);
    }
  }

  /** With no header line (every candidate line is a decorator or a
      comment, or the symbol starts past the end), the signature is the
      symbol's name. */
  lemma NoHeaderMeansName(doc: Document, symbol: Symbol)
    requires HeaderIndex(doc.lines, symbol.startLine).None?
    ensures Signature(Some(doc), symbol) == symbol.name
  {
    assert !OccursAt("", "function", 0) && !OccursAt("", "func", 0) && !OccursAt("", "def", 0);
    assert Match("", Keyword("function")).None?;
    assert Match("", Keyword("func")).None?;
    assert Match("", PythonDef).None?;
    assert !Contains("", "(");
  }

  /** The header search of `getSignatureForSymbol`: a loop from the symbol's
      first line that stops at the first line that is not skipped. */
  method FindHeaderLine(lines: seq<string>, start: nat) returns (functionLine: string, currentLineIndex: int)
    ensures HeaderIndex(lines, start).Some? ==>
              currentLineIndex == HeaderIndex(lines, start).value && functionLine == Trim(lines[currentLineIndex])
    ensures HeaderIndex(lines, start).None? ==> functionLine == ""
  {
    functionLine := "";
    currentLineIndex := start;
    var maxLines := Min(currentLineIndex + 5, |lines| - 1);
    while currentLineIndex <= maxLines
      invariant start <= currentLineIndex && (currentLineIndex == start || currentLineIndex <= maxLines + 1)
      invariant HeaderFrom(lines, currentLineIndex, maxLines) == HeaderIndex(lines, start)
      decreases maxLines + 1 - currentLineIndex
    {
      var line := Trim(lines[currentLineIndex]);
      if !IsSkipped(line) {
        functionLine := line;
        return;
      }
      currentLineIndex := currentLineIndex + 1;
    }
  }

  /** No line from `lo` to `hi` (exclusive) contains `stop`. */
  ghost predicate NoStop(lines: seq<string>, lo: nat, hi: nat, stop: string)
    requires hi <= |lines|
  {
    forall j :: lo <= j < hi ==> !Contains(lines[j], stop)
  }

  /** The three facts `JoinEnd` ensures determine it. */
  lemma JoinEndIs(lines: seq<string>, k: nat, stop: string, r: nat)
    requires k < |lines| && k + 1 <= r <= Min(k + 10, |lines|)
    requires NoStop(lines, k + 1, r - 1, stop)
    requires r == Min(k + 10, |lines|) || (k + 1 < r && Contains(lines[r - 1], stop))
    ensures JoinEnd(lines, k, stop) == r
  {
  }

  /** The joining loop of the two multi-line branches: append each following
      line, trimmed and after one space, until a line contains `stop`, for at
      most nine lines and not past the end of the document. */
  method JoinHeaderLines(lines: seq<string>, functionLine: string, startLine: nat, stop: string)
    returns (functionText: string)
    requires startLine < |lines|
    ensures functionText == Continuation(functionLine, lines, startLine + 1, JoinEnd(lines, startLine, stop))
  {
    functionText := functionLine;
    var end := Min(startLine + 10, |lines|);
    var i := startLine + 1;
    while i < end
      invariant startLine + 1 <= i <= end
      invariant functionText == Continuation(functionLine, lines, startLine + 1, i)
      invariant NoStop(lines, startLine + 1, i, stop)
    {
      var nextLine := lines[i];
      functionText := functionText + " " + Trim(nextLine);
      if Contains(nextLine, stop) {
        JoinEndIs(lines, startLine, stop, i + 1);
        return;
      }
      i := i + 1;
    }
    JoinEndIs(lines, startLine, stop, end);
  }

  /** The branches of `getSignatureForSymbol` after the header search, on
      the header `functionLine` found on line `k`; an empty header stands
      for none found. */
  method SignatureOfHeader(lines: seq<string>, functionLine: string, k: int, name: string,
                           ghost jsText: string, ghost pyText: string)
    returns (signature: string)
    requires functionLine != "" ==>
               0 <= k < |lines| && functionLine == Trim(lines[k])
               && jsText == Joined(lines, k, ")") && pyText == Joined(lines, k, "):")
    ensures signature == HeaderSignature(functionLine, jsText, pyText, name)
  {
    signature := name;
    var jsMatch := Match(functionLine, Keyword("function"));
    if jsMatch.Some? {
      signature := jsMatch.value;
    } else if Contains(functionLine, "function ") && Contains(functionLine, "(") && !Contains(functionLine, ")") {
      var functionText := JoinHeaderLines(lines, functionLine, k, ")");
      assert functionText == jsText;
      var multiJsMatch := Match(functionText, Keyword("function"));
      if multiJsMatch.Some? {
        signature := Collapse(multiJsMatch.value);
      }
    } else {
      var goMatch := Match(functionLine, Keyword("func"));
      if goMatch.Some? {
        signature := goMatch.value;
      } else {
        var pythonMatch := Match(functionLine, PythonDef);
        if pythonMatch.Some? {
          signature := pythonMatch.value;
        } else if Contains(functionLine, "def ") && Contains(functionLine, "(") && !Contains(functionLine, "):") {
          var functionText := JoinHeaderLines(lines, functionLine, k, "):");
          assert functionText == pyText;
          var multiPythonMatch := Match(functionText, PythonDef);
          if multiPythonMatch.Some? {
            signature := Collapse(multiPythonMatch.value);
          }
        } else {
          signature := FallbackSignature(functionLine, name);
        }
      }
    }
  }

  /** `getSignatureForSymbol`: the symbol's name without an editor,
      otherwise the header search followed by the branches on the header. */
  method GetSignatureForSymbol(ed: Option<Document>, symbol: Symbol) returns (signature: string)
    ensures signature == Signature(ed, symbol)
  {
    if ed.None? {
      return symbol.name;
    }
    var lines := ed.value.lines;
    var functionLine, currentLineIndex := FindHeaderLine(lines, symbol.startLine);
    ghost var header := HeaderIndex(lines, symbol.startLine);
    ghost var js := if header.Some? then Joined(lines, header.value, ")") else "";
    ghost var py := if header.Some? then Joined(lines, header.value, "):") else "";
    signature := SignatureOfHeader(lines, functionLine, currentLineIndex, symbol.name, js, py);
  }

}
