/** Order-preserving selection from a sequence: `Array.prototype.filter`. */
module Seqs {

  /** The elements of `s` that satisfy `p`, in their order in `s`. */
  function Filter<T(!new)>(s: seq<T>, p: T -> bool): (r: seq<T>)
    ensures |r| <= |s|
    ensures forall x :: x in r <==> x in s && p(x)
  {
    if s == [] then []
    else Filter(s[..|s| - 1], p) + (if p(s[|s| - 1]) then [s[|s| - 1]] else [])
  }

  /** `r` is `s` with some elements left out: every element of `r` is taken
      from `s`, in order, each at most once. */
  ghost predicate IsSubsequence<T>(r: seq<T>, s: seq<T>) {
    if r == [] then true
    else if s == [] then false
    else if r[|r| - 1] == s[|s| - 1] then IsSubsequence(r[..|r| - 1], s[..|s| - 1])
    else IsSubsequence(r, s[..|s| - 1])
  }

  /** A subsequence of all but the last element of `s` is a subsequence of
      `s`. */
  lemma {:induction false} SubsequenceOfInit<T>(r: seq<T>, s: seq<T>)
    requires s != [] && IsSubsequence(r, s[..|s| - 1])
    ensures IsSubsequence(r, s)
    decreases |s|, 0
  {
    if r != [] && r[|r| - 1] == s[|s| - 1] {
      SubsequenceDropLast(r, s[..|s| - 1]);
    }
  }

  /** Without its last element, a subsequence of `s` is still one. */
  lemma {:induction false} SubsequenceDropLast<T>(r: seq<T>, s: seq<T>)
    requires r != [] && IsSubsequence(r, s)
    ensures IsSubsequence(r[..|r| - 1], s)
    decreases |s|, 1
  {
    var r' := r[..|r| - 1];
    if r' != [] {
      if r[|r| - 1] == s[|s| - 1] {
        SubsequenceOfInit(r', s);
      } else {
        SubsequenceDropLast(r, s[..|s| - 1]);
        SubsequenceOfInit(r', s);
      }
    }
  }

  /** Filtering keeps the original order. */
  lemma {:induction false} FilterIsSubsequence<T(!new)>(s: seq<T>, p: T -> bool)
    ensures IsSubsequence(Filter(s, p), s)
  {
    if s != [] {
      var init, last := s[..|s| - 1], s[|s| - 1];
      FilterIsSubsequence(init, p);
      var r := Filter(s, p);
      if p(last) {
        assert r[..|r| - 1] == Filter(init, p);
      } else {
        assert r == Filter(init, p);
        assert r != [] ==> p(r[|r| - 1]);
      }
    }
  }

  /** Filtering keeps every element that passes as often as it occurs, and
      drops every other. */
  lemma {:induction false} FilterCount<T(!new)>(s: seq<T>, p: T -> bool)
    ensures forall x :: multiset(Filter(s, p))[x] == if p(x) then multiset(s)[x] else 0
  {
    if s != [] {
      var init, last := s[..|s| - 1], s[|s| - 1];
      FilterCount(init, p);
      assert s == init + [last];
      assert multiset(s) == multiset(init) + multiset{last};
      if p(last) {
        assert multiset(Filter(s, p)) == multiset(Filter(init, p)) + multiset{last};
      } else {
        assert Filter(s, p) == Filter(init, p);
      }
    }
  }

  /** `Filter` on a non-empty sequence, by its last element. */
  lemma FilterSnoc<T(!new)>(s: seq<T>, p: T -> bool)
    requires s != []
    ensures Filter(s, p) == if p(s[|s| - 1]) then Filter(s[..|s| - 1], p) + [s[|s| - 1]] else Filter(s[..|s| - 1], p)
  {
  }

  /** Filtering with a test every element passes changes nothing. */
  lemma {:induction false} FilterAll<T(!new)>(s: seq<T>, p: T -> bool)
    requires forall x :: x in s ==> p(x)
    ensures Filter(s, p) == s
  {
    if s != [] {
      var init, last := s[..|s| - 1], s[|s| - 1];
      assert s == init + [last];
      assert last in s;
      FilterAll(init, p);
      FilterSnoc(s, p);
    }
  }

  /** Two sequences with the same last element, whose filters without it
      differ by a suffix `extra`, still differ by `extra` when that element is
      dropped by the test or `extra` is empty. */
  lemma FilterSameLast<T(!new)>(a: seq<T>, b: seq<T>, p: T -> bool, extra: seq<T>)
    requires a != [] && b != [] && a[|a| - 1] == b[|b| - 1]
    requires Filter(a[..|a| - 1], p) == Filter(b[..|b| - 1], p) + extra
    requires !p(b[|b| - 1]) || extra == []
    ensures Filter(a, p) == Filter(b, p) + extra
  {
    if p(b[|b| - 1]) {
      assert Filter(b[..|b| - 1], p) + extra == Filter(b[..|b| - 1], p);
      FilterSameLastKept(a, b, p);
    } else {
      FilterSameLastDropped(a, b, p, extra);
    }
  }

  /** `FilterSameLast` when the test keeps the last element. */
  lemma FilterSameLastKept<T(!new)>(a: seq<T>, b: seq<T>, p: T -> bool)
    requires a != [] && b != [] && a[|a| - 1] == b[|b| - 1] && p(b[|b| - 1])
    requires Filter(a[..|a| - 1], p) == Filter(b[..|b| - 1], p)
    ensures Filter(a, p) == Filter(b, p)
  {
    FilterSnoc(a, p);
    FilterSnoc(b, p);
  }

  /** `FilterSameLast` when the test drops the last element. */
  lemma FilterSameLastDropped<T(!new)>(a: seq<T>, b: seq<T>, p: T -> bool, extra: seq<T>)
    requires a != [] && b != [] && a[|a| - 1] == b[|b| - 1] && !p(b[|b| - 1])
    requires Filter(a[..|a| - 1], p) == Filter(b[..|b| - 1], p) + extra
    ensures Filter(a, p) == Filter(b, p) + extra
  {
    FilterSnoc(a, p);
    FilterSnoc(b, p);
  }

  /** Filtering a concatenation filters each part. */
  lemma {:induction false} FilterConcat<T(!new)>(a: seq<T>, b: seq<T>, p: T -> bool)
    ensures Filter(a + b, p) == Filter(a, p) + Filter(b, p)
    decreases |b|
  {
    if b != [] {
      var init := b[..|b| - 1];
      assert (a + b)[..|a + b| - 1] == a + init;
      FilterConcat(a, init, p);
    } else {
      assert a + b == a;
    }
  }

}
