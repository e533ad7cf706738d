/** Facts about filtering sequences and about suffixes, shared by the components
    that trim a list in place. */
module Sequences {

  /** The elements of s that satisfy p, in order: what `retain` keeps. */
  function Filter<T>(s: seq<T>, p: T -> bool): (r: seq<T>)
    ensures |r| <= |s|
  {
    if s == [] then []
    else if p(s[0]) then [s[0]] + Filter(s[1..], p)
    else Filter(s[1..], p)
  }

  lemma {:induction false} FilterMembers<T>(s: seq<T>, p: T -> bool)
    ensures forall x :: x in Filter(s, p) ==> x in s && p(x)
    ensures forall x :: x in s && p(x) ==> x in Filter(s, p)
  {
    if s != [] {
      FilterMembers(s[1..], p);
    }
  }

  lemma {:induction false} FilterConcat<T>(a: seq<T>, b: seq<T>, p: T -> bool)
    ensures Filter(a + b, p) == Filter(a, p) + Filter(b, p)
  {
    if a == [] {
      assert a + b == b;
    } else {
      assert (a + b)[1..] == a[1..] + b;
      FilterConcat(a[1..], b, p);
    }
  }

  /** A filter distributes over appending one element. */
  lemma FilterAppend<T>(a: seq<T>, x: T, p: T -> bool)
    ensures Filter(a + [x], p) == if p(x) then Filter(a, p) + [x] else Filter(a, p)
  {
    FilterConcat(a, [x], p);
    assert [x][1..] == [];
  }

  /** Splitting off the first element. */
  lemma FilterHead<T>(a: seq<T>, p: T -> bool)
    requires a != []
    ensures Filter(a, p) == (if p(a[0]) then [a[0]] else []) + Filter(a[1..], p)
  {
  }

  lemma {:induction false} FilterAll<T>(s: seq<T>, p: T -> bool)
    requires forall x :: x in s ==> p(x)
    ensures Filter(s, p) == s
  {
    if s != [] {
      FilterAll(s[1..], p);
    }
  }

  lemma {:induction false} FilterNone<T>(s: seq<T>, p: T -> bool)
    requires forall x :: x in s ==> !p(x)
    ensures Filter(s, p) == []
  {
    if s != [] {
      FilterNone(s[1..], p);
    }
  }

  /** Two filters commute. */
  lemma {:induction false} FilterSwap<T>(s: seq<T>, p: T -> bool, q: T -> bool)
    ensures Filter(Filter(s, p), q) == Filter(Filter(s, q), p)
  {
    if s != [] {
      FilterSwap(s[1..], p, q);
      var rest := s[1..];
      assert ([s[0]] + Filter(rest, p))[1..] == Filter(rest, p);
      assert ([s[0]] + Filter(rest, q))[1..] == Filter(rest, q);
    }
  }

  /** Filtering by a weaker test first does not matter. */
  lemma {:induction false} FilterNarrow<T>(s: seq<T>, weak: T -> bool, strong: T -> bool)
    requires forall x :: x in s && strong(x) ==> weak(x)
    ensures Filter(Filter(s, weak), strong) == Filter(s, strong)
  {
    if s != [] {
      FilterNarrow(s[1..], weak, strong);
      assert ([s[0]] + Filter(s[1..], weak))[1..] == Filter(s[1..], weak);
    }
  }

  /** Tests that agree on the elements give the same filter. */
  lemma {:induction false} FilterSame<T>(s: seq<T>, p: T -> bool, q: T -> bool)
    requires forall x :: x in s ==> p(x) == q(x)
    ensures Filter(s, p) == Filter(s, q)
  {
    if s != [] {
      FilterSame(s[1..], p, q);
    }
  }

  /** How often x survives a filter. */
  lemma {:induction false} FilterMultiset<T>(s: seq<T>, p: T -> bool, x: T)
    ensures multiset(Filter(s, p))[x] == if p(x) then multiset(s)[x] else 0
  {
    if s != [] {
      assert s == [s[0]] + s[1..];
      FilterMultiset(s[1..], p, x);
    }
  }

  lemma {:induction false} FilterIsSubMultiset<T>(a: seq<T>, p: T -> bool)
    ensures multiset(Filter(a, p)) <= multiset(a)
  {
    if a != [] {
      assert a == [a[0]] + a[1..];
      FilterIsSubMultiset(a[1..], p);
    }
  }

  /** Filtering keeps sub-multisets. */
  lemma FilterSubMultiset<T>(a: seq<T>, b: seq<T>, p: T -> bool)
    requires multiset(a) <= multiset(b)
    ensures multiset(Filter(a, p)) <= multiset(Filter(b, p))
  {
    var fa, fb := multiset(Filter(a, p)), multiset(Filter(b, p));
    FilterMembers(a, p);
    forall x | x in fa ensures fa[x] <= fb[x] {
      assert x in Filter(a, p);
      FilterMultiset(a, p, x);
      FilterMultiset(b, p, x);
    }
  }

  predicate IsSuffix<T(==)>(a: seq<T>, b: seq<T>) {
    |a| <= |b| && a == b[|b| - |a|..]
  }

  /** A filter of a suffix is a suffix of the filter. */
  lemma FilterSuffix<T>(a: seq<T>, b: seq<T>, p: T -> bool)
    requires IsSuffix(a, b)
    ensures IsSuffix(Filter(a, p), Filter(b, p))
  {
    var k := |b| - |a|;
    assert b == b[..k] + a;
    FilterConcat(b[..k], a, p);
  }

  /** a is b with some elements left out. */
  predicate IsSubsequence<T(==)>(a: seq<T>, b: seq<T>) {
    || a == []
    || (b != [] && a[0] == b[0] && IsSubsequence(a[1..], b[1..]))
    || (b != [] && IsSubsequence(a, b[1..]))
  }

  /** A suffix that has the first element, which occurs only once, is all. */
  lemma SuffixWithFirst<T>(a: seq<T>, b: seq<T>)
    requires IsSuffix(a, b) && b != [] && b[0] in a
    requires forall i: nat :: 0 < i < |b| ==> b[i] != b[0]
    ensures a == b
  {
    var j :| 0 <= j < |a| && a[j] == b[0];
    assert b[|b| - |a| + j] == b[0];
  }

  lemma SuffixAppend<T>(a: seq<T>, b: seq<T>, x: T)
    requires IsSuffix(a, b)
    ensures IsSuffix(a + [x], b + [x])
  {
  }

  lemma SuffixTrans<T>(a: seq<T>, b: seq<T>, c: seq<T>)
    requires IsSuffix(a, b) && IsSuffix(b, c)
    ensures IsSuffix(a, c)
  {
  }
}
