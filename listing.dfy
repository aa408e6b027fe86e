/** The two list operations the function list applies to symbols: the
    stable sort by start line (`sort((a, b) => a.range.start.line -
    b.range.start.line)`, which JavaScript guarantees stable) and the removal
    of every symbol whose signature an earlier symbol already has. The
    signature is a parameter `sig`, so that these facts hold whatever the
    signature extractor computes. */
module Listing {
  import opened Seqs
  import opened Symbols

  /** Non-decreasing by start line. */
  predicate SortedByLine(s: seq<Symbol>) {
    forall i, j :: 0 <= i < j < |s| ==> s[i].startLine <= s[j].startLine
  }

  /** `x` placed into `s` after the longest suffix of `s` whose symbols start
      on later lines than `x`. */
  function InsertByLine(s: seq<Symbol>, x: Symbol): (r: seq<Symbol>)
    ensures |r| == |s| + 1
  {
    if s == [] || s[|s| - 1].startLine <= x.startLine then s + [x]
    else InsertByLine(s[..|s| - 1], x) + [s[|s| - 1]]
  }

  /** The stable sort by start line, as an insertion sort. */
  function SortByLine(s: seq<Symbol>): (r: seq<Symbol>)
    ensures |r| == |s|
  {
    if s == [] then [] else InsertByLine(SortByLine(s[..|s| - 1]), s[|s| - 1])
  }

  /** The symbols that start on line `k`. */
  function OnLine(k: nat): Symbol -> bool {
    (x: Symbol) => x.startLine == k
  }

  /** Inserting adds exactly the symbol to the multiset. */
  lemma {:induction false} InsertPermutes(s: seq<Symbol>, x: Symbol)
    ensures multiset(InsertByLine(s, x)) == multiset(s) + multiset{x}
  {
    if s != [] && s[|s| - 1].startLine > x.startLine {
      var init := s[..|s| - 1];
      InsertPermutes(init, x);
      assert s == init + [s[|s| - 1]];
    }
  }

  /** Inserting into a sorted list keeps it sorted. */
  lemma {:induction false} InsertSorted(s: seq<Symbol>, x: Symbol)
    requires SortedByLine(s)
    ensures SortedByLine(InsertByLine(s, x))
  {
    if s != [] && s[|s| - 1].startLine > x.startLine {
      var init, last := s[..|s| - 1], s[|s| - 1];
      InsertSorted(init, x);
      InsertPermutes(init, x);
      var r := InsertByLine(init, x);
      forall i | 0 <= i < |r| ensures r[i].startLine <= last.startLine {
        assert r[i] in multiset(r);
        if r[i] != x {
          assert r[i] in multiset(init);
        }
      }
    }
  }

  /** Sorting only reorders: it keeps every symbol as often as it occurs. */
  lemma {:induction false} SortPermutes(s: seq<Symbol>)
    ensures multiset(SortByLine(s)) == multiset(s)
  {
    if s != [] {
      var init := s[..|s| - 1];
      SortPermutes(init);
      InsertPermutes(SortByLine(init), s[|s| - 1]);
      assert s == init + [s[|s| - 1]];
    }
  }

  /** The sort's result is ordered by start line. */
  lemma {:induction false} SortSorted(s: seq<Symbol>)
    ensures SortedByLine(SortByLine(s))
  {
    if s != [] {
      SortSorted(s[..|s| - 1]);
      InsertSorted(SortByLine(s[..|s| - 1]), s[|s| - 1]);
    }
  }

  /** Inserting keeps the order of the symbols on each line and puts the
      new symbol last among those on its line. */
  lemma {:induction false} InsertOnLine(s: seq<Symbol>, x: Symbol, k: nat)
    ensures Filter(InsertByLine(s, x), OnLine(k)) == Filter(s, OnLine(k)) + (if x.startLine == k then [x] else [])
  {
    if s != [] && s[|s| - 1].startLine > x.startLine {
      InsertOnLine(s[..|s| - 1], x, k);
      InsertOnLineShift(s, x, k);
    } else {
      assert InsertByLine(s, x) == s + [x];
      assert (s + [x])[..|s|] == s;
      FilterSnoc(s + [x], OnLine(k));
    }
  }

  /** The step of `InsertOnLine` where `x` goes before the last symbol. */
  lemma InsertOnLineShift(s: seq<Symbol>, x: Symbol, k: nat)
    requires s != [] && s[|s| - 1].startLine > x.startLine
    requires Filter(InsertByLine(s[..|s| - 1], x), OnLine(k))
             == Filter(s[..|s| - 1], OnLine(k)) + (if x.startLine == k then [x] else [])
    ensures Filter(InsertByLine(s, x), OnLine(k)) == Filter(s, OnLine(k)) + (if x.startLine == k then [x] else [])
  {
    var r := InsertByLine(s, x);
    assert r[..|r| - 1] == InsertByLine(s[..|s| - 1], x);
    FilterSameLast(r, s, OnLine(k), if x.startLine == k then [x] else []);
  }

  /** The sort is stable: the symbols that start on any one line keep their
      relative order. */
  lemma {:induction false} SortStable(s: seq<Symbol>, k: nat)
    ensures Filter(SortByLine(s), OnLine(k)) == Filter(s, OnLine(k))
  {
    if s != [] {
      SortStable(s[..|s| - 1], k);
      InsertOnLine(SortByLine(s[..|s| - 1]), s[|s| - 1], k);
    }
  }

  /** Sorting a sorted list changes nothing. */
  lemma {:induction false} SortOfSorted(s: seq<Symbol>)
    requires SortedByLine(s)
    ensures SortByLine(s) == s
  {
    if s != [] {
      var init := s[..|s| - 1];
      SortOfSorted(init);
      assert s == init + [s[|s| - 1]];
    }
  }

  /** Filtering a sorted list leaves it sorted. */
  lemma {:induction false} FilterSorted(s: seq<Symbol>, p: Symbol -> bool)
    requires SortedByLine(s)
    ensures SortedByLine(Filter(s, p))
  {
    if s != [] {
      var init, last := s[..|s| - 1], s[|s| - 1];
      FilterSorted(init, p);
      var f := Filter(init, p);
      forall i | 0 <= i < |f| ensures f[i].startLine <= last.startLine {
        assert f[i] in init;
      }
    }
  }

  /** Inserting at the end of a sorted list and filtering commute. */
  lemma FilterAppendSorted(s: seq<Symbol>, x: Symbol, p: Symbol -> bool)
    requires SortedByLine(s) && (s == [] || s[|s| - 1].startLine <= x.startLine)
    ensures InsertByLine(Filter(s, p), x) == Filter(s, p) + [x]
  {
    var f := Filter(s, p);
    if f != [] {
      assert f[|f| - 1] in s;
    }
  }

  /** Filtering a sorted list and inserting into it commute. */
  lemma {:induction false} FilterInsert(s: seq<Symbol>, x: Symbol, p: Symbol -> bool)
    requires SortedByLine(s)
    ensures Filter(InsertByLine(s, x), p) == if p(x) then InsertByLine(Filter(s, p), x) else Filter(s, p)
  {
    if s == [] || s[|s| - 1].startLine <= x.startLine {
      assert InsertByLine(s, x) == s + [x];
      assert (s + [x])[..|s|] == s;
      FilterAppendSorted(s, x, p);
      assert Filter(s + [x], p) == Filter(s, p) + (if p(x) then [x] else []);
    } else {
      FilterInsert(s[..|s| - 1], x, p);
      FilterInsertStep(s, x, p);
    }
  }

  /** The step of `FilterInsert` where `x` goes before the last symbol. */
  lemma FilterInsertStep(s: seq<Symbol>, x: Symbol, p: Symbol -> bool)
    requires s != [] && s[|s| - 1].startLine > x.startLine
    requires Filter(InsertByLine(s[..|s| - 1], x), p)
             == if p(x) then InsertByLine(Filter(s[..|s| - 1], p), x) else Filter(s[..|s| - 1], p)
    ensures Filter(InsertByLine(s, x), p) == if p(x) then InsertByLine(Filter(s, p), x) else Filter(s, p)
  {
    var init, last := s[..|s| - 1], s[|s| - 1];
    var ri := InsertByLine(init, x);
    var r := ri + [last];
    assert InsertByLine(s, x) == r;
    FilterSnoc(r, p);
    FilterSnoc(s, p);
    assert r[..|r| - 1] == ri;
    if p(last) {
      FilterInsertKeepLast(s, x, p);
    }
  }

  /** When the last symbol is kept and starts after `x`, inserting into the
      filtered list puts `x` before that symbol. */
  lemma FilterInsertKeepLast(s: seq<Symbol>, x: Symbol, p: Symbol -> bool)
    requires s != [] && s[|s| - 1].startLine > x.startLine && p(s[|s| - 1])
    ensures InsertByLine(Filter(s, p), x) == InsertByLine(Filter(s[..|s| - 1], p), x) + [s[|s| - 1]]
  {
    var f := Filter(s, p);
    FilterSnoc(s, p);
    assert f[..|f| - 1] == Filter(s[..|s| - 1], p);
  }

  /** Filtering and the stable sort commute. */
  lemma {:induction false} FilterSort(s: seq<Symbol>, p: Symbol -> bool)
    ensures Filter(SortByLine(s), p) == SortByLine(Filter(s, p))
  {
    if s != [] {
      var init, last := s[..|s| - 1], s[|s| - 1];
      var f, fi := Filter(s, p), Filter(init, p);
      FilterSort(init, p);
      SortSorted(init);
      FilterInsert(SortByLine(init), last, p);
      assert Filter(SortByLine(s), p) == if p(last) then InsertByLine(SortByLine(fi), last) else SortByLine(fi);
      if p(last) {
        assert f == fi + [last];
        assert f[..|f| - 1] == fi;
      } else {
        assert f == fi;
      }
    }
  }

  /** Inserting a symbol into a sorted list and then filtering out that
      symbol, and only it, gives the list back. */
  lemma FilterUndoesInsert(s: seq<Symbol>, x: Symbol, p: Symbol -> bool)
    requires SortedByLine(s) && !p(x) && forall y :: y in s ==> p(y)
    ensures Filter(SortByLine(s + [x]), p) == s
  {
    FilterSort(s + [x], p);
    FilterSnoc(s + [x], p);
    assert (s + [x])[..|s|] == s;
    assert Filter(s + [x], p) == Filter(s, p);
    FilterAll(s, p);
    SortOfSorted(s);
  }

  /** Two symbols in line order that both pass `p` are kept, in that
      order. */
  lemma KeepPair(f0: Symbol, f1: Symbol, p: Symbol -> bool)
    requires p(f0) && p(f1) && f0.startLine <= f1.startLine
    ensures SortByLine(Filter([f0, f1], p)) == [f0, f1]
  {
    assert [f0, f1][..1] == [f0];
    assert Filter([f0], p) == [f0];
    assert Filter([f0, f1], p) == [f0, f1];
    assert SortByLine([f0]) == [f0];
  }

  /** The signatures of `s`, in order: `s.map(sig)`. */
  function Keys(s: seq<Symbol>, sig: Symbol -> string): (r: seq<string>)
    ensures |r| == |s| && forall i :: 0 <= i < |s| ==> r[i] == sig(s[i])
  {
    seq(|s|, i requires 0 <= i < |s| => sig(s[i]))
  }

  /** `s.some(f => sig(f) === k)`, and `find` giving a symbol: a signature is
      among the keys exactly when some symbol of `s` has it. */
  lemma KeysMember(s: seq<Symbol>, sig: Symbol -> string, k: string)
    ensures k in Keys(s, sig) <==> exists y :: y in s && sig(y) == k
  {
    if k in Keys(s, sig) {
      var i :| 0 <= i < |s| && Keys(s, sig)[i] == k;
      assert s[i] in s;
    }
    if exists y :: y in s && sig(y) == k {
      var y :| y in s && sig(y) == k;
      var i :| 0 <= i < |s| && s[i] == y;
      assert Keys(s, sig)[i] == k;
    }
  }

  /** No signature occurs twice among the symbols of `s`. */
  ghost predicate DistinctKeys(s: seq<Symbol>, sig: Symbol -> string) {
    forall k :: multiset(Keys(s, sig))[k] <= 1
  }

  /** The symbol at `j` is the first in `s` with its signature. */
  predicate FirstOfKey(s: seq<Symbol>, sig: Symbol -> string, j: nat)
    requires j < |s|
  {
    forall i :: 0 <= i < j ==> sig(s[i]) != sig(s[j])
  }

  /** The deduplication of `getChildren`: each symbol in turn is kept unless
      one already kept has its signature. */
  function KeepFirst(s: seq<Symbol>, sig: Symbol -> string): (r: seq<Symbol>)
    ensures |r| <= |s|
  {
    if s == [] then []
    else
      var r := KeepFirst(s[..|s| - 1], sig);
      if sig(s[|s| - 1]) in Keys(r, sig) then r else r + [s[|s| - 1]]
  }

  /** The signatures of a list with one more symbol at the end. */
  lemma KeysAppend(s: seq<Symbol>, x: Symbol, sig: Symbol -> string)
    ensures Keys(s + [x], sig) == Keys(s, sig) + [sig(x)]
  {
  }

  /** Distinct signatures are pairwise different. */
  lemma DistinctKeysPairwise(s: seq<Symbol>, sig: Symbol -> string, i: nat, j: nat)
    requires DistinctKeys(s, sig) && i < j < |s|
    ensures sig(s[i]) != sig(s[j])
  {
    var q := Keys(s, sig);
    if q[i] == q[j] {
      TwiceCounted(q, i, j);
    }
  }

  /** An element found at two positions occurs at least twice. */
  lemma TwiceCounted(q: seq<string>, i: nat, j: nat)
    requires i < j < |q| && q[i] == q[j]
    ensures multiset(q)[q[i]] >= 2
  {
    assert q == q[..i] + [q[i]] + q[i + 1..j] + [q[j]] + q[j + 1..];
  }

  /** The deduplicated list has each signature once. */
  lemma {:induction false} KeepFirstDistinct(s: seq<Symbol>, sig: Symbol -> string)
    ensures DistinctKeys(KeepFirst(s, sig), sig)
  {
    if s != [] {
      var init, x := s[..|s| - 1], s[|s| - 1];
      KeepFirstDistinct(init, sig);
      var r := KeepFirst(init, sig);
      if sig(x) !in Keys(r, sig) {
        KeysAppend(r, x, sig);
        assert multiset(Keys(r, sig))[sig(x)] == 0;
      }
    }
  }

  /** Deduplication loses no signature and invents none. */
  lemma {:induction false} KeepFirstKeys(s: seq<Symbol>, sig: Symbol -> string)
    ensures forall k :: k in Keys(KeepFirst(s, sig), sig) <==> k in Keys(s, sig)
  {
    if s != [] {
      var init, x := s[..|s| - 1], s[|s| - 1];
      KeepFirstKeys(init, sig);
      KeysAppend(init, x, sig);
      assert s == init + [x];
      KeysAppend(KeepFirst(init, sig), x, sig);
    }
  }

  /** Deduplication keeps the order of the symbols it keeps. */
  lemma {:induction false} KeepFirstIsSubsequence(s: seq<Symbol>, sig: Symbol -> string)
    ensures IsSubsequence(KeepFirst(s, sig), s)
  {
    if s != [] {
      var init, x := s[..|s| - 1], s[|s| - 1];
      KeepFirstIsSubsequence(init, sig);
      var r := KeepFirst(init, sig);
      if sig(x) !in Keys(r, sig) {
        assert (r + [x])[..|r|] == r;
      } else {
        SubsequenceOfInit(r, s);
      }
    }
  }

  /** Every symbol that is the first with its signature is kept. */
  lemma {:induction false} KeepFirstKeepsFirsts(s: seq<Symbol>, sig: Symbol -> string, j: nat)
    requires j < |s| && FirstOfKey(s, sig, j)
    ensures s[j] in KeepFirst(s, sig)
  {
    var init, x := s[..|s| - 1], s[|s| - 1];
    var r := KeepFirst(init, sig);
    if j < |s| - 1 {
      assert FirstOfKey(init, sig, j);
      KeepFirstKeepsFirsts(init, sig, j);
    } else {
      KeepFirstKeys(init, sig);
    }
  }

  /** Every symbol kept is the first with its signature. */
  lemma {:induction false} KeepFirstOnlyFirsts(s: seq<Symbol>, sig: Symbol -> string, x: Symbol)
    requires x in KeepFirst(s, sig)
    ensures exists j: nat :: j < |s| && s[j] == x && FirstOfKey(s, sig, j)
  {
    var init, last := s[..|s| - 1], s[|s| - 1];
    var r := KeepFirst(init, sig);
    if x in r {
      KeepFirstOnlyFirsts(init, sig, x);
      var j: nat :| j < |init| && init[j] == x && FirstOfKey(init, sig, j);
      assert FirstOfKey(s, sig, j);
    } else {
      KeepFirstKeys(init, sig);
      var j := |s| - 1;
      forall i | 0 <= i < j ensures sig(s[i]) != sig(s[j]) {
        assert Keys(init, sig)[i] == sig(s[i]);
      }
      assert FirstOfKey(s, sig, j);
    }
  }

  /** A list whose signatures are already distinct is left as it is. */
  lemma {:induction false} KeepFirstOfDistinct(s: seq<Symbol>, sig: Symbol -> string)
    requires DistinctKeys(s, sig)
    ensures KeepFirst(s, sig) == s
  {
    if s != [] {
      var init, x := s[..|s| - 1], s[|s| - 1];
      assert s == init + [x];
      KeysAppend(init, x, sig);
      assert multiset(Keys(s, sig)) == multiset(Keys(init, sig)) + multiset{sig(x)};
      forall k ensures multiset(Keys(init, sig))[k] <= 1 {
        assert multiset(Keys(s, sig))[k] <= 1;
      }
      KeepFirstOfDistinct(init, sig);
      assert multiset(Keys(s, sig))[sig(x)] <= 1;
    }
  }

  /** Inserting adds exactly the symbol's signature to the multiset of
      signatures. */
  lemma {:induction false} InsertKeys(s: seq<Symbol>, x: Symbol, sig: Symbol -> string)
    ensures multiset(Keys(InsertByLine(s, x), sig)) == multiset(Keys(s, sig)) + multiset{sig(x)}
  {
    if s == [] || s[|s| - 1].startLine <= x.startLine {
      KeysAppend(s, x, sig);
    } else {
      var init, last := s[..|s| - 1], s[|s| - 1];
      InsertKeys(init, x, sig);
      KeysAppend(InsertByLine(init, x), last, sig);
      KeysAppend(init, last, sig);
      assert s == init + [last];
    }
  }

  /** Sorting keeps the signatures, each as often as it occurs. */
  lemma {:induction false} SortKeys(s: seq<Symbol>, sig: Symbol -> string)
    ensures multiset(Keys(SortByLine(s), sig)) == multiset(Keys(s, sig))
  {
    if s != [] {
      var init, x := s[..|s| - 1], s[|s| - 1];
      SortKeys(init, sig);
      InsertKeys(SortByLine(init), x, sig);
      KeysAppend(init, x, sig);
      assert s == init + [x];
    }
  }

  /** Filtering never repeats a signature. */
  lemma {:induction false} FilterKeys(s: seq<Symbol>, p: Symbol -> bool, sig: Symbol -> string)
    ensures forall k :: multiset(Keys(Filter(s, p), sig))[k] <= multiset(Keys(s, sig))[k]
  {
    if s != [] {
      var init, x := s[..|s| - 1], s[|s| - 1];
      FilterKeys(init, p, sig);
      KeysAppend(init, x, sig);
      KeysAppend(Filter(init, p), x, sig);
      assert s == init + [x];
      assert multiset(Keys(s, sig)) == multiset(Keys(init, sig)) + multiset{sig(x)};
      assert Filter(s, p) == Filter(init, p) + (if p(x) then [x] else []);
      if p(x) {
        assert multiset(Keys(Filter(s, p), sig)) == multiset(Keys(Filter(init, p), sig)) + multiset{sig(x)};
      } else {
        assert Filter(s, p) == Filter(init, p);
      }
      forall k ensures multiset(Keys(Filter(s, p), sig))[k] <= multiset(Keys(s, sig))[k] {
        assert multiset(Keys(Filter(init, p), sig))[k] <= multiset(Keys(init, sig))[k];
      }
    }
  }

  /** Membership survives the sort. */
  lemma InSorted(s: seq<Symbol>, x: Symbol)
    ensures x in SortByLine(s) <==> x in s
  {
    SortPermutes(s);
    assert x in SortByLine(s) <==> x in multiset(SortByLine(s));
  }

  /** `x` occurs in `s` at a position where it is the first with its key. */
  predicate IsFirstOfKey(s: seq<Symbol>, sig: Symbol -> string, x: Symbol) {
    exists j: nat :: j < |s| && s[j] == x && FirstOfKey(s, sig, j)
  }

  /** The sorted de-duplicated list holds exactly the symbols that come
      first with their key. */
  lemma SortedFirsts(s: seq<Symbol>, sig: Symbol -> string, x: Symbol)
    ensures x in SortByLine(KeepFirst(s, sig)) <==> IsFirstOfKey(s, sig, x)
  {
    InSorted(KeepFirst(s, sig), x);
    if x in KeepFirst(s, sig) {
      KeepFirstOnlyFirsts(s, sig, x);
    }
    if exists j: nat :: j < |s| && s[j] == x && FirstOfKey(s, sig, j) {
      var j: nat :| j < |s| && s[j] == x && FirstOfKey(s, sig, j);
      KeepFirstKeepsFirsts(s, sig, j);
    }
  }

}
