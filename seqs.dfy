/** `Array.prototype.filter` and the facts about it that the catalog uses. */
module Seqs {

  /** `s.filter(f)`: the elements of s that satisfy f, in their original order. */
  function Filter<T>(s: seq<T>, f: T -> bool): (r: seq<T>)
    ensures |r| <= |s|
  {
    if s == [] then [] else (if f(s[0]) then [s[0]] else []) + Filter(s[1..], f)
  }

  /** r can be obtained from s by deleting elements, keeping the order of the rest. */
  predicate IsSubseq<T(==)>(r: seq<T>, s: seq<T>)
    decreases |s|
  {
    r == [] || (s != [] && ((r[0] == s[0] && IsSubseq(r[1..], s[1..])) || IsSubseq(r, s[1..])))
  }

  /** No element occurs twice. */
  predicate NoDup<T(==)>(s: seq<T>)
  {
    s == [] || (s[0] !in s[1..] && NoDup(s[1..]))
  }

  /** Filtering distributes over concatenation. */
  lemma {:induction false} FilterAppend<T>(a: seq<T>, b: seq<T>, f: T -> bool)
    ensures Filter(a + b, f) == Filter(a, f) + Filter(b, f)
  {
    if a == [] {
      assert a + b == b;
    } else {
      var h := if f(a[0]) then [a[0]] else [];
      assert (a + b)[0] == a[0];
      assert (a + b)[1..] == a[1..] + b;
      assert Filter(a + b, f) == h + Filter(a[1..] + b, f);
      FilterAppend(a[1..], b, f);
      assert Filter(a, f) == h + Filter(a[1..], f);
      assert h + (Filter(a[1..], f) + Filter(b, f)) == (h + Filter(a[1..], f)) + Filter(b, f);
    }
  }

  /** An element is kept exactly when it is in the input and satisfies the predicate. */
  lemma {:induction false} FilterMembership<T>(s: seq<T>, f: T -> bool, x: T)
    ensures x in Filter(s, f) <==> x in s && f(x)
  {
    if s != [] {
      FilterMembership(s[1..], f, x);
      assert s == [s[0]] + s[1..];
    }
  }

  /** The filtered sequence is a subsequence of the input: nothing is added or reordered. */
  lemma {:induction false} FilterSubseq<T>(s: seq<T>, f: T -> bool)
    ensures IsSubseq(Filter(s, f), s)
  {
    if s != [] {
      FilterSubseq(s[1..], f);
      var r := Filter(s[1..], f);
      if f(s[0]) {
        assert Filter(s, f) == [s[0]] + r;
        assert ([s[0]] + r)[1..] == r;
      } else {
        assert Filter(s, f) == r;
      }
    }
  }

  /** Each kept element appears exactly as often as in the input; nothing is duplicated. */
  lemma {:induction false} FilterCount<T>(s: seq<T>, f: T -> bool, x: T)
    ensures multiset(Filter(s, f))[x] == if f(x) then multiset(s)[x] else 0
  {
    if s != [] {
      FilterCount(s[1..], f, x);
      assert s == [s[0]] + s[1..];
    }
  }

  /** When every element satisfies the predicate, filtering is the identity. */
  lemma {:induction false} FilterKeepsAll<T>(s: seq<T>, f: T -> bool)
    requires forall i :: 0 <= i < |s| ==> f(s[i])
    ensures Filter(s, f) == s
  {
    if s != [] {
      FilterKeepsAll(s[1..], f);
      assert s == [s[0]] + s[1..];
    }
  }

  /** Filtering by two predicates that agree on the elements of s gives the same result. */
  lemma {:induction false} FilterAgree<T>(s: seq<T>, f: T -> bool, g: T -> bool)
    requires forall i :: 0 <= i < |s| ==> f(s[i]) == g(s[i])
    ensures Filter(s, f) == Filter(s, g)
  {
    if s != [] {
      FilterAgree(s[1..], f, g);
    }
  }

  /** A weaker predicate keeps a supersequence: whatever the stronger one keeps, in order. */
  lemma {:induction false} FilterMonotone<T>(s: seq<T>, f: T -> bool, g: T -> bool)
    requires forall i :: 0 <= i < |s| ==> f(s[i]) ==> g(s[i])
    ensures IsSubseq(Filter(s, f), Filter(s, g))
  {
    if s != [] {
      FilterMonotone(s[1..], f, g);
      var rf := Filter(s[1..], f);
      var rg := Filter(s[1..], g);
      if f(s[0]) {
        assert Filter(s, f) == [s[0]] + rf && Filter(s, g) == [s[0]] + rg;
        assert ([s[0]] + rf)[1..] == rf && ([s[0]] + rg)[1..] == rg;
      } else if g(s[0]) {
        assert Filter(s, f) == rf && Filter(s, g) == [s[0]] + rg;
        assert ([s[0]] + rg)[1..] == rg;
      } else {
        assert Filter(s, f) == rf && Filter(s, g) == rg;
      }
    }
  }

  /** Filtering a duplicate-free sequence leaves it duplicate-free. */
  lemma {:induction false} FilterNoDup<T>(s: seq<T>, f: T -> bool)
    requires NoDup(s)
    ensures NoDup(Filter(s, f))
  {
    if s != [] {
      FilterNoDup(s[1..], f);
      FilterMembership(s[1..], f, s[0]);
      var r := Filter(s[1..], f);
      if f(s[0]) {
        assert Filter(s, f) == [s[0]] + r;
        assert ([s[0]] + r)[1..] == r;
        assert s[0] !in r;
      } else {
        assert Filter(s, f) == r;
      }
    }
  }

  /** Appending an element not yet present keeps a sequence duplicate-free. */
  lemma {:induction false} AppendNoDup<T>(s: seq<T>, x: T)
    requires NoDup(s) && x !in s
    ensures NoDup(s + [x])
  {
    if s != [] {
      AppendNoDup(s[1..], x);
      assert (s + [x])[1..] == s[1..] + [x];
    }
  }
}
