/**
  * Sequence operations that stand for what the database does with a query:
  * a `where` clause keeps the rows that satisfy a predicate (Filter), an
  * `orderBy` clause puts them in order (Sort), `take` keeps a prefix, and a
  * `findUnique` looks one row up (IndexWhere).
  */
module Seqs {

  /** `a` is obtained from `b` by deleting elements: either b's head is skipped, or it is a's head. */
  predicate IsSubsequence<T(==)>(a: seq<T>, b: seq<T>)
    decreases |b|
  {
    if b == [] then a == []
    else IsSubsequence(a, b[1..]) || (a != [] && a[0] == b[0] && IsSubsequence(a[1..], b[1..]))
  }

  /** The elements of `s` that satisfy `keep`, in their original order. */
  function Filter<T(!new)>(s: seq<T>, keep: T -> bool): (r: seq<T>)
    ensures |r| <= |s|
    ensures forall x :: x in r <==> x in s && keep(x)
    ensures forall i :: 0 <= i < |r| ==> keep(r[i])
    decreases |s|
  {
    if s == [] then []
    else
      assert s == [s[0]] + s[1..];
      (if keep(s[0]) then [s[0]] else []) + Filter(s[1..], keep)
  }

  /** Filtering keeps the relative order of the survivors. */
  lemma {:induction false} FilterIsSubsequence<T(!new)>(s: seq<T>, keep: T -> bool)
    ensures IsSubsequence(Filter(s, keep), s)
    decreases |s|
  {
    if s != [] {
      FilterIsSubsequence(s[1..], keep);
      if keep(s[0]) {
        assert Filter(s, keep) == [s[0]] + Filter(s[1..], keep);
        assert Filter(s, keep)[1..] == Filter(s[1..], keep);
      } else {
        assert Filter(s, keep) == Filter(s[1..], keep);
      }
    }
  }

  /** Filtering drops exactly the elements that fail `keep`, as many times as they occur. */
  lemma {:induction false} FilterMultiset<T(!new)>(s: seq<T>, keep: T -> bool, x: T)
    ensures multiset(Filter(s, keep))[x] == if keep(x) then multiset(s)[x] else 0
    decreases |s|
  {
    if s != [] {
      FilterMultiset(s[1..], keep, x);
      assert s == [s[0]] + s[1..];
      var head := if keep(s[0]) then [s[0]] else [];
      assert Filter(s, keep) == head + Filter(s[1..], keep);
      assert multiset(Filter(s, keep)) == multiset(head) + multiset(Filter(s[1..], keep));
      assert multiset(s) == multiset{s[0]} + multiset(s[1..]);
    }
  }

  /** `le` is total and transitive, so that any two rows can be put in order. */
  ghost predicate TotalPreorder<T(!new)>(le: (T, T) -> bool)
  {
    && (forall a, b :: le(a, b) || le(b, a))
    && (forall a, b, c :: le(a, b) && le(b, c) ==> le(a, c))
  }

  /** Every element comes, according to `le`, before every later one. */
  predicate Sorted<T>(s: seq<T>, le: (T, T) -> bool)
  {
    forall i, j :: 0 <= i < j < |s| ==> le(s[i], s[j])
  }

  /** Inserts `x` into the sorted sequence `s`, in front of the first element it may precede. */
  function Insert<T(!new)>(x: T, s: seq<T>, le: (T, T) -> bool): (r: seq<T>)
    requires TotalPreorder(le)
    requires Sorted(s, le)
    ensures Sorted(r, le)
    ensures multiset(r) == multiset(s) + multiset{x}
    ensures |r| == |s| + 1
    decreases |s|
  {
    if s == [] then [x]
    else if le(x, s[0]) then
      assert forall j :: 0 <= j < |s| ==> le(x, s[j]);
      [x] + s
    else
      var t := Insert(x, s[1..], le);
      assert s == [s[0]] + s[1..];
      BoundKept(s[0], x, s[1..], t, le);
      [s[0]] + t
  }

  /** A bound below `x` and below every element of `s` stays below every element of a permutation of `s` plus `x`. */
  lemma BoundKept<T(!new)>(lo: T, x: T, s: seq<T>, t: seq<T>, le: (T, T) -> bool)
    requires multiset(t) == multiset(s) + multiset{x}
    requires le(lo, x)
    requires forall j :: 0 <= j < |s| ==> le(lo, s[j])
    ensures forall j :: 0 <= j < |t| ==> le(lo, t[j])
  {
    forall j | 0 <= j < |t| ensures le(lo, t[j]) {
      assert t[j] in multiset(t);
      if t[j] != x {
        assert t[j] in multiset(s);
        var k :| 0 <= k < |s| && s[k] == t[j];
      }
    }
  }

  /** Removing the element at `k` removes one occurrence of it from the multiset. */
  lemma RemoveAt<T>(s: seq<T>, k: int)
    requires 0 <= k < |s|
    ensures multiset(s) == multiset(s[..k] + s[k + 1..]) + multiset{s[k]}
    ensures multiset(s[..k] + s[k + 1..]) == multiset(s) - multiset{s[k]}
  {
    var rest := s[..k] + s[k + 1..];
    assert s == s[..k] + [s[k]] + s[k + 1..];
    assert multiset(s) == multiset(rest) + multiset{s[k]};
    forall x ensures multiset(rest)[x] == (multiset(s) - multiset{s[k]})[x] {
      assert multiset(s)[x] == multiset(rest)[x] + multiset{s[k]}[x];
    }
  }

  /** `f` applied to each element of `s`, in order. */
  function Map<A, B>(s: seq<A>, f: A -> B): (r: seq<B>)
    ensures |r| == |s|
    ensures forall i :: 0 <= i < |s| ==> r[i] == f(s[i])
  {
    seq(|s|, i requires 0 <= i < |s| => f(s[i]))
  }

  lemma MapRemoveAt<A, B>(s: seq<A>, k: int, f: A -> B)
    requires 0 <= k < |s|
    ensures multiset(Map(s, f)) == multiset(Map(s[..k] + s[k + 1..], f)) + multiset{f(s[k])}
  {
    var r := Map(s, f);
    RemoveAt(r, k);
    assert r[..k] + r[k + 1..] == Map(s[..k] + s[k + 1..], f);
  }

  lemma MapHead<A, B>(s: seq<A>, f: A -> B)
    requires 0 < |s|
    ensures multiset(Map(s, f)) == multiset(Map(s[1..], f)) + multiset{f(s[0])}
  {
    assert Map(s, f) == [f(s[0])] + Map(s[1..], f);
  }

  /** Mapping a permutation gives a permutation. */
  lemma {:induction false} MapPermute<A, B>(a: seq<A>, b: seq<A>, f: A -> B)
    requires multiset(a) == multiset(b)
    ensures multiset(Map(a, f)) == multiset(Map(b, f))
    decreases |a|
  {
    if a == [] {
      assert |b| == |multiset(b)| == 0;
    } else {
      var k := Find(b, a[0]);
      var rest := b[..k] + b[k + 1..];
      calc {
        multiset(Map(a, f));
        == { MapHead(a, f); }
        multiset(Map(a[1..], f)) + multiset{f(a[0])};
        == { PermuteTail(a, b, k); MapPermute(a[1..], rest, f); }
        multiset(Map(rest, f)) + multiset{f(a[0])};
        ==
        multiset(Map(rest, f)) + multiset{f(b[k])};
        == { MapRemoveAt(b, k, f); }
        multiset(Map(b, f));
      }
    }
  }

  /** A position at which an element of the multiset of `s` occurs. */
  lemma Find<T>(s: seq<T>, x: T) returns (k: int)
    requires x in multiset(s)
    ensures 0 <= k < |s| && s[k] == x
  {
    k :| 0 <= k < |s| && s[k] == x;
  }

  /** Taking the same element out of two permutations of each other leaves permutations of each other. */
  lemma PermuteTail<T>(a: seq<T>, b: seq<T>, k: int)
    requires multiset(a) == multiset(b)
    requires 0 <= k < |b| && 0 < |a| && b[k] == a[0]
    ensures multiset(a[1..]) == multiset(b[..k] + b[k + 1..])
  {
    calc {
      multiset(a[1..]);
      == { assert a[..0] + a[1..] == a[1..]; RemoveAt(a, 0); }
      multiset(a) - multiset{a[0]};
      == { assert multiset{a[0]} == multiset{b[k]}; }
      multiset(b) - multiset{b[k]};
      == { RemoveAt(b, k); }
      multiset(b[..k] + b[k + 1..]);
    }
  }

  /** `s` put in order by `le` (an insertion sort). */
  function Sort<T(!new)>(s: seq<T>, le: (T, T) -> bool): (r: seq<T>)
    requires TotalPreorder(le)
    ensures Sorted(r, le)
    ensures multiset(r) == multiset(s)
    ensures |r| == |s|
    decreases |s|
  {
    if s == [] then []
    else
      assert s == [s[0]] + s[1..];
      Insert(s[0], Sort(s[1..], le), le)
  }

  /** A query result: the rows of `rows` that satisfy `keep`, ordered by `le`. */
  function Select<T(!new)>(rows: seq<T>, keep: T -> bool, le: (T, T) -> bool): (r: seq<T>)
    requires TotalPreorder(le)
    ensures Sorted(r, le)
    ensures forall x :: x in r <==> x in rows && keep(x)
    ensures forall x :: multiset(r)[x] == if keep(x) then multiset(rows)[x] else 0
  {
    var r := Sort(Filter(rows, keep), le);
    assert forall x :: x in r <==> x in multiset(r);
    forall x ensures multiset(r)[x] == if keep(x) then multiset(rows)[x] else 0 {
      FilterMultiset(rows, keep, x);
    }
    r
  }

  /** The first `n` elements of `s`, or all of them when there are fewer (a query's `take`). */
  function Take<T>(s: seq<T>, n: nat): (r: seq<T>)
    ensures |r| == if |s| <= n then |s| else n
    ensures r == s[..|r|]
    ensures multiset(r) <= multiset(s)
    ensures forall x :: x in r ==> x in s
  {
    if |s| <= n then s
    else
      assert s == s[..n] + s[n..];
      s[..n]
  }

  /** The position of the first element satisfying `p`, or -1 (a lookup by key). */
  function IndexWhere<T>(s: seq<T>, p: T -> bool): (k: int)
    ensures -1 <= k < |s|
    ensures 0 <= k ==> p(s[k]) && forall i :: 0 <= i < k ==> !p(s[i])
    ensures k == -1 ==> forall i :: 0 <= i < |s| ==> !p(s[i])
    decreases |s|
  {
    if s == [] then -1
    else if p(s[0]) then 0
    else
      var k := IndexWhere(s[1..], p);
      if k < 0 then -1 else k + 1
  }
}
