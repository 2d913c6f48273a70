/** Order-preserving selections over sequences: the shape of `df[mask]`,
    `dropna` and `drop_duplicates`. */
module Seqs {

  /** Keeps, in order, the elements that satisfy `p`. */
  function Filter<T>(s: seq<T>, p: T -> bool): (r: seq<T>)
    ensures |r| <= |s|
    ensures forall x | x in r :: x in s && p(x)
    ensures forall x | x in s && p(x) :: x in r
  {
    if s == [] then [] else (if p(s[0]) then [s[0]] else []) + Filter(s[1..], p)
  }

  lemma {:induction false} FilterConcat<T>(a: seq<T>, b: seq<T>, p: T -> bool)
    ensures Filter(a + b, p) == Filter(a, p) + Filter(b, p)
  {
    if a == [] {
      assert a + b == b;
    } else {
      assert (a + b)[0] == a[0];
      assert (a + b)[1..] == a[1..] + b;
      FilterConcat(a[1..], b, p);
    }
  }

  /** A filter every element passes is the identity. */
  lemma {:induction false} FilterKeepsAll<T>(s: seq<T>, p: T -> bool)
    requires forall x | x in s :: p(x)
    ensures Filter(s, p) == s
  {
    if s != [] {
      assert s[0] in s && p(s[0]);
      assert forall x | x in s[1..] :: x in s;
      FilterKeepsAll(s[1..], p);
      assert s == [s[0]] + s[1..];
    }
  }

  /** A filter no element passes is empty. */
  lemma {:induction false} FilterNone<T>(s: seq<T>, p: T -> bool)
    requires forall x | x in s :: !p(x)
    ensures Filter(s, p) == []
  {
    if s != [] {
      assert forall x | x in s[1..] :: x in s;
      FilterNone(s[1..], p);
    }
  }

  /** A filter that rejects some element is shorter than its input. */
  lemma {:induction false} FilterDrops<T>(s: seq<T>, p: T -> bool, x: T)
    requires x in s && !p(x)
    ensures |Filter(s, p)| < |s|
  {
    if s[0] != x {
      FilterDrops(s[1..], p, x);
    }
  }

  /** Filters of two equally long sequences whose elements pass at the same
      positions have the same length. */
  lemma {:induction false} FilterPointwise<T, U>(s: seq<T>, p: T -> bool, t: seq<U>, q: U -> bool)
    requires |s| == |t|
    requires forall i | 0 <= i < |s| :: p(s[i]) == q(t[i])
    ensures |Filter(s, p)| == |Filter(t, q)|
  {
    if s != [] {
      FilterPointwise(s[1..], p, t[1..], q);
    }
  }

  /** Two filters in a row are one filter by the conjunction. */
  lemma {:induction false} FilterFilter<T>(s: seq<T>, p: T -> bool, q: T -> bool, both: T -> bool)
    requires forall x | x in s :: both(x) == (p(x) && q(x))
    ensures Filter(Filter(s, p), q) == Filter(s, both)
  {
    if s != [] {
      assert forall x | x in s[1..] :: x in s;
      FilterFilter(s[1..], p, q, both);
      var fp := Filter(s, p);
      if p(s[0]) {
        assert fp == [s[0]] + Filter(s[1..], p);
        assert fp != [] && fp[0] == s[0] && fp[1..] == Filter(s[1..], p);
      } else {
        assert fp == Filter(s[1..], p);
      }
    }
  }

  /** Filters by predicates that agree on the elements are equal. */
  lemma {:induction false} FilterCongruent<T>(s: seq<T>, p: T -> bool, q: T -> bool)
    requires forall x | x in s :: p(x) == q(x)
    ensures Filter(s, p) == Filter(s, q)
  {
    if s != [] {
      assert forall x | x in s[1..] :: x in s;
      FilterCongruent(s[1..], p, q);
    }
  }

  /** `a` is `b` with some elements removed and the rest in their original order. */
  ghost predicate SubseqOf<T>(a: seq<T>, b: seq<T>)
  {
    a == [] || (b != [] && ((a[0] == b[0] && SubseqOf(a[1..], b[1..])) || SubseqOf(a, b[1..])))
  }

  lemma {:induction false} SubseqRefl<T>(a: seq<T>)
    ensures SubseqOf(a, a)
  {
    if a != [] { SubseqRefl(a[1..]); }
  }

  lemma {:induction false} SubseqTrans<T>(a: seq<T>, b: seq<T>, c: seq<T>)
    requires SubseqOf(a, b) && SubseqOf(b, c)
    ensures SubseqOf(a, c)
    decreases |c|
  {
    if a == [] {
    } else if SubseqOf(b, c[1..]) {
      SubseqTrans(a, b, c[1..]);
    } else {
      assert b[0] == c[0] && SubseqOf(b[1..], c[1..]);
      if a[0] == b[0] && SubseqOf(a[1..], b[1..]) {
        SubseqTrans(a[1..], b[1..], c[1..]);
      } else {
        SubseqTrans(a, b[1..], c[1..]);
      }
    }
  }

  lemma {:induction false} FilterIsSubseq<T>(s: seq<T>, p: T -> bool)
    ensures SubseqOf(Filter(s, p), s)
  {
    if s != [] {
      FilterIsSubseq(s[1..], p);
      if p(s[0]) {
        assert Filter(s, p) == [s[0]] + Filter(s[1..], p);
        assert Filter(s, p)[1..] == Filter(s[1..], p);
      } else {
        assert Filter(s, p) == Filter(s[1..], p);
      }
    }
  }

  predicate NoDuplicates<T(==)>(s: seq<T>)
  {
    forall i, j :: 0 <= i < j < |s| ==> s[i] != s[j]
  }

  /** In a duplicate-free sequence, an element is not in any suffix that
      starts after it. */
  lemma {:induction false} NotInSuffix<T>(s: seq<T>, p: nat, q: nat)
    requires NoDuplicates(s) && p < q <= |s|
    ensures s[p] !in s[q..]
  {
    forall r | 0 <= r < |s| - q ensures s[q..][r] != s[p] {
      assert s[q..][r] == s[q + r];
    }
  }

  /** The position of the first occurrence of `x`. */
  function FirstIndex<T(==)>(s: seq<T>, x: T): (i: nat)
    requires x in s
    ensures i < |s| && s[i] == x
    ensures forall k | 0 <= k < i :: s[k] != x
  {
    if s[0] == x then 0
    else
      var i := FirstIndex(s[1..], x) + 1;
      assert forall k | 1 <= k < i :: s[k] == s[1..][k - 1];
      i
  }

  /** Keeps the first occurrence of every element not already in `seen`:
      the kept elements appear in the order of their first occurrences. */
  function DedupeFrom<T(==)>(s: seq<T>, seen: set<T>): (r: seq<T>)
    ensures forall x | x in r :: x in s && x !in seen
    ensures forall x | x in s && x !in seen :: x in r
    ensures NoDuplicates(r)
    ensures SubseqOf(r, s)
    ensures forall i, j | 0 <= i < j < |r| :: FirstIndex(s, r[i]) < FirstIndex(s, r[j])
  {
    if s == [] then []
    else if s[0] in seen then
      var r := DedupeFrom(s[1..], seen);
      assert SubseqOf(r, s) by { assert r == [] || SubseqOf(r, s[1..]); }
      FirstIndexTail(s, r);
      r
    else
      var rest := DedupeFrom(s[1..], seen + {s[0]});
      var r := [s[0]] + rest;
      assert r[1..] == rest;
      assert SubseqOf(r, s);
      FirstIndexTail(s, rest);
      FirstIndexCons(s, rest);
      r
  }

  /** Elements other than the head are first found one place later than
      in the tail, so the tail's order by first occurrence carries over. */
  lemma {:induction false} FirstIndexTail<T>(s: seq<T>, r: seq<T>)
    requires s != [] && forall x | x in r :: x in s && x in s[1..] && x != s[0]
    requires forall i, j | 0 <= i < j < |r| :: FirstIndex(s[1..], r[i]) < FirstIndex(s[1..], r[j])
    ensures forall i, j | 0 <= i < j < |r| :: FirstIndex(s, r[i]) < FirstIndex(s, r[j])
  {
    forall i, j | 0 <= i < j < |r| ensures FirstIndex(s, r[i]) < FirstIndex(s, r[j]) {
      assert r[i] in r && r[j] in r;
    }
  }

  /** Putting the head in front of elements found after it keeps the order
      by first occurrence. */
  lemma {:induction false} FirstIndexCons<T>(s: seq<T>, rest: seq<T>)
    requires s != [] && forall x | x in rest :: x in s && x in s[1..] && x != s[0]
    requires forall i, j | 0 <= i < j < |rest| :: FirstIndex(s, rest[i]) < FirstIndex(s, rest[j])
    ensures forall i, j | 0 <= i < j < |[s[0]] + rest| ::
      FirstIndex(s, ([s[0]] + rest)[i]) < FirstIndex(s, ([s[0]] + rest)[j])
  {
    var r := [s[0]] + rest;
    forall i, j | 0 <= i < j < |r| ensures FirstIndex(s, r[i]) < FirstIndex(s, r[j]) {
      assert r[j] == rest[j - 1] && r[j] in rest;
      if i > 0 { assert r[i] == rest[i - 1]; }
    }
  }

  /** Every element of a subsequence is an element of the sequence. */
  lemma {:induction false} SubseqMembers<T>(a: seq<T>, b: seq<T>)
    requires SubseqOf(a, b)
    ensures forall x | x in a :: x in b
    decreases |b|
  {
    if a != [] {
      if a[0] == b[0] && SubseqOf(a[1..], b[1..]) {
        SubseqMembers(a[1..], b[1..]);
        assert forall x | x in a :: x == a[0] || x in a[1..];
      } else {
        SubseqMembers(a, b[1..]);
      }
    }
  }

  /** A subsequence of a duplicate-free sequence is duplicate-free. */
  lemma {:induction false} SubseqNoDuplicates<T>(a: seq<T>, b: seq<T>)
    requires SubseqOf(a, b) && NoDuplicates(b)
    ensures NoDuplicates(a)
    decreases |b|
  {
    if a != [] {
      assert forall k | 0 <= k < |b[1..]| :: b[1..][k] == b[k + 1];
      if a[0] == b[0] && SubseqOf(a[1..], b[1..]) {
        SubseqNoDuplicates(a[1..], b[1..]);
        SubseqMembers(a[1..], b[1..]);
        assert b[0] !in b[1..];
        forall i, j | 0 <= i < j < |a| ensures a[i] != a[j] {
          assert a[j] == a[1..][j - 1];
          if i > 0 { assert a[i] == a[1..][i - 1]; }
        }
      } else {
        SubseqNoDuplicates(a, b[1..]);
      }
    }
  }

  /** `f` applied to every element, in order. */
  function MapSeq<T, U>(f: T -> U, s: seq<T>): (r: seq<U>)
    ensures |r| == |s|
    ensures forall i | 0 <= i < |s| :: r[i] == f(s[i])
  {
    if s == [] then [] else [f(s[0])] + MapSeq(f, s[1..])
  }

  /** Mapping two permutations of each other gives permutations of each
      other: every element keeps its image, once. */
  lemma {:induction false} PermutedMap<T, U>(f: T -> U, a: seq<T>, b: seq<T>)
    requires multiset(a) == multiset(b)
    ensures multiset(MapSeq(f, a)) == multiset(MapSeq(f, b))
    decreases |a|
  {
    if a == [] {
      assert |b| == |multiset(b)| == 0;
    } else {
      var x, tail := a[0], a[1..];
      assert a == [x] + tail;
      var rest := PickOut(f, b, x);
      assert multiset(tail) == multiset(rest);
      PermutedMap(f, tail, rest);
      MapConcat(f, [x], tail);
    }
  }

  /** Taking one occurrence of x out of b takes one f(x) out of its image. */
  lemma {:induction false} PickOut<T, U>(f: T -> U, b: seq<T>, x: T) returns (rest: seq<T>)
    requires x in multiset(b)
    ensures multiset(rest) == multiset(b) - multiset{x}
    ensures multiset(MapSeq(f, b)) == multiset(MapSeq(f, rest)) + multiset{f(x)}
  {
    var p :| 0 <= p < |b| && b[p] == x;
    var u, v := b[..p], b[p + 1..];
    rest := u + v;
    assert b == u + [x] + v;
    MapConcat(f, u + [x], v);
    MapConcat(f, u, [x]);
    MapConcat(f, u, v);
  }

  lemma {:induction false} MapConcat<T, U>(f: T -> U, u: seq<T>, v: seq<T>)
    ensures MapSeq(f, u + v) == MapSeq(f, u) + MapSeq(f, v)
  {
    var w := u + v;
    var l, mu, mv := MapSeq(f, w), MapSeq(f, u), MapSeq(f, v);
    assert |l| == |mu + mv|;
    forall i | 0 <= i < |l| ensures l[i] == (mu + mv)[i] {
      if i < |u| {
        assert w[i] == u[i] && l[i] == f(w[i]) && mu[i] == f(u[i]);
      } else {
        assert w[i] == v[i - |u|] && l[i] == f(w[i]) && mv[i - |u|] == f(v[i - |u|]);
      }
    }
  }
}
