/** Sequence operations that Python provides as built-ins: filtering, flattening and the stable sort, with the facts used about them. */
module Seqs {

  function Filter<T>(s: seq<T>, p: T -> bool): seq<T> {
    if s == [] then [] else (if p(s[0]) then [s[0]] else []) + Filter(s[1..], p)
  }

  lemma {:induction false} FilterIn<T(!new)>(s: seq<T>, p: T -> bool)
    ensures forall x :: x in Filter(s, p) <==> x in s && p(x)
    ensures |Filter(s, p)| <= |s|
  {
    if s != [] {
      FilterIn(s[1..], p);
    }
  }

  lemma {:induction false} FilterCons<T(!new)>(x: T, s: seq<T>, p: T -> bool)
    ensures Filter([x] + s, p) == if p(x) then [x] + Filter(s, p) else Filter(s, p)
  {
    assert ([x] + s)[1..] == s;
  }

  /** An element that is filtered out can be inserted after the first one. */
  lemma {:induction false} FilterInserted<T(!new)>(x: T, y: T, s: seq<T>, p: T -> bool)
    requires !p(y)
    ensures Filter([x, y] + s, p) == Filter([x] + s, p)
  {
    hide Filter;
    FilterCons(x, [y] + s, p);
    FilterCons(y, s, p);
    FilterCons(x, s, p);
    assert [x, y] + s == [x] + ([y] + s);
  }

  lemma {:induction false} FilterAppend<T(!new)>(a: seq<T>, b: seq<T>, p: T -> bool)
    ensures Filter(a + b, p) == Filter(a, p) + Filter(b, p)
  {
    if a == [] {
      assert a + b == b;
    } else {
      FilterAppend(a[1..], b, p);
      assert a == [a[0]] + a[1..];
      FilterAppendStep(a[0], a[1..], b, p);
    }
  }

  lemma {:induction false} FilterAppendStep<T(!new)>(x: T, t: seq<T>, b: seq<T>, p: T -> bool)
    requires Filter(t + b, p) == Filter(t, p) + Filter(b, p)
    ensures Filter(([x] + t) + b, p) == Filter([x] + t, p) + Filter(b, p)
  {
    hide Filter;
    FilterCons(x, t + b, p);
    FilterCons(x, t, p);
    assert ([x] + t) + b == [x] + (t + b);
  }

  lemma {:induction false} FilterFilter<T(!new)>(s: seq<T>, p: T -> bool, q: T -> bool, both: T -> bool)
    requires forall x :: x in s ==> (both(x) <==> p(x) && q(x))
    ensures Filter(Filter(s, p), q) == Filter(s, both)
  {
    if s != [] {
      hide Filter;
      var t := s[1..];
      FilterFilter(t, p, q, both);
      FilterCons(s[0], Filter(t, p), q);
      FilterCons(s[0], t, p);
      FilterCons(s[0], t, both);
      assert s == [s[0]] + t;
    }
  }

  lemma {:induction false} FilterSame<T(!new)>(s: seq<T>, p: T -> bool, q: T -> bool)
    requires forall x :: x in s ==> (p(x) <==> q(x))
    ensures Filter(s, p) == Filter(s, q)
  {
    if s != [] {
      FilterSame(s[1..], p, q);
    }
  }

  lemma {:induction false} FilterAll<T(!new)>(s: seq<T>, p: T -> bool)
    requires forall x :: x in s ==> p(x)
    ensures Filter(s, p) == s
  {
    if s != [] {
      FilterAll(s[1..], p);
    }
  }

  lemma {:induction false} FilterSplits<T(!new)>(s: seq<T>, p: T -> bool, q: T -> bool)
    requires forall x :: x in s ==> (p(x) <==> !q(x))
    ensures multiset(Filter(s, p)) + multiset(Filter(s, q)) == multiset(s)
  {
    if s != [] {
      FilterSplits(s[1..], p, q);
      assert s == [s[0]] + s[1..];
    }
  }

  /** Concatenation of a list of lists. */
  function Flat<T>(ss: seq<seq<T>>): seq<T> {
    if ss == [] then [] else ss[0] + Flat(ss[1..])
  }

  lemma {:induction false} FlatIn<T(!new)>(ss: seq<seq<T>>, x: T)
    ensures x in Flat(ss) <==> exists i :: 0 <= i < |ss| && x in ss[i]
  {
    if ss != [] {
      FlatIn(ss[1..], x);
      if x in Flat(ss[1..]) {
        var j :| 0 <= j < |ss[1..]| && x in ss[1..][j];
        assert x in ss[j + 1];
      }
      if i :| 0 < i < |ss| && x in ss[i] {
        assert x in ss[1..][i - 1];
      }
    }
  }

  lemma {:induction false} FlatAppend<T(!new)>(a: seq<seq<T>>, b: seq<seq<T>>)
    ensures Flat(a + b) == Flat(a) + Flat(b)
  {
    if a == [] {
      assert a + b == b;
    } else {
      assert (a + b)[1..] == a[1..] + b;
      FlatAppend(a[1..], b);
    }
  }

  /** Every element replaced by a list of results, in order. */
  function FlatMap<A, B>(s: seq<A>, f: A -> seq<B>): seq<B> {
    if s == [] then [] else f(s[0]) + FlatMap(s[1..], f)
  }

  lemma {:induction false} FlatMapAppend<A, B>(a: seq<A>, b: seq<A>, f: A -> seq<B>)
    ensures FlatMap(a + b, f) == FlatMap(a, f) + FlatMap(b, f)
  {
    if a == [] {
      assert a + b == b;
    } else {
      assert (a + b)[1..] == a[1..] + b;
      FlatMapAppend(a[1..], b, f);
    }
  }

  lemma {:induction false} HeadElsewhere<T(!new)>(a: seq<T>, b: seq<T>) returns (pre: seq<T>, post: seq<T>)
    requires a != [] && multiset(a) == multiset(b)
    ensures b == pre + ([a[0]] + post)
    ensures multiset(a[1..]) == multiset(pre + post) && |pre + post| < |a|
  {
    SameMultiset(a, b);
    assert a[0] in b;
    var k :| 0 <= k < |b| && b[k] == a[0];
    pre, post := b[..k], b[k + 1..];
    assert b == pre + ([a[0]] + post);
    assert a == [a[0]] + a[1..];
    Removed(a[0], a[1..], pre, post);
  }

  lemma {:induction false} Removed<T(!new)>(x: T, rest: seq<T>, pre: seq<T>, post: seq<T>)
    requires multiset([x] + rest) == multiset(pre + ([x] + post))
    ensures multiset(rest) == multiset(pre + post) && |pre + post| == |rest|
  {
    assert multiset([x] + rest) == multiset{x} + multiset(rest);
    assert multiset(pre + ([x] + post)) == multiset(pre) + (multiset{x} + multiset(post));
    Cancel(x, multiset(rest), multiset(pre), multiset(post));
    SameMultiset(rest, pre + post);
  }

  lemma {:induction false} Cancel<T(!new)>(x: T, m: multiset<T>, p: multiset<T>, q: multiset<T>)
    requires multiset{x} + m == p + (multiset{x} + q)
    ensures m == p + q
  {
    forall y ensures m[y] == (p + q)[y] {
      assert (multiset{x} + m)[y] == (p + (multiset{x} + q))[y];
    }
  }

  /** Rearranging the elements rearranges the results. */
  lemma {:induction false} FlatMapPermutes<A(!new), B>(a: seq<A>, b: seq<A>, f: A -> seq<B>)
    requires multiset(a) == multiset(b)
    ensures multiset(FlatMap(a, f)) == multiset(FlatMap(b, f))
    decreases |a|
  {
    SameMultiset(a, b);
    if a != [] {
      var pre, post := HeadElsewhere(a, b);
      FlatMapPermutes(a[1..], pre + post, f);
      FlatMapAppend(pre, post, f);
      FlatMapAppend(pre, [a[0]] + post, f);
      assert ([a[0]] + post)[1..] == post;
      assert FlatMap([a[0]] + post, f) == f(a[0]) + FlatMap(post, f);
    }
  }

  /** `sorted` is stable: an element goes in front of the first element whose key is not smaller. */
  function InsertBy<T>(x: T, s: seq<T>, key: T -> real): seq<T> {
    if s == [] || key(x) <= key(s[0]) then [x] + s else [s[0]] + InsertBy(x, s[1..], key)
  }

  function SortBy<T>(s: seq<T>, key: T -> real): seq<T> {
    if s == [] then [] else InsertBy(s[0], SortBy(s[1..], key), key)
  }

  ghost predicate Ascending<T>(s: seq<T>, key: T -> real) {
    forall i, j :: 0 <= i < j < |s| ==> key(s[i]) <= key(s[j])
  }

  lemma {:induction false} InsertMultiset<T>(x: T, s: seq<T>, key: T -> real)
    ensures multiset(InsertBy(x, s, key)) == multiset(s) + multiset{x}
  {
    if s != [] && key(x) > key(s[0]) {
      InsertMultiset(x, s[1..], key);
      assert s == [s[0]] + s[1..];
    }
  }

  lemma {:induction false} InsertAscending<T>(x: T, s: seq<T>, key: T -> real)
    requires Ascending(s, key)
    ensures Ascending(InsertBy(x, s, key), key)
  {
    if s != [] && key(x) > key(s[0]) {
      var r := InsertBy(x, s[1..], key);
      InsertAscending(x, s[1..], key);
      InsertMultiset(x, s[1..], key);
      forall k | 0 <= k < |r| ensures key(s[0]) <= key(r[k]) {
        assert r[k] in multiset(r);
        assert r[k] == x || r[k] in s[1..];
      }
    }
  }

  lemma {:induction false} SortMultiset<T>(s: seq<T>, key: T -> real)
    ensures multiset(SortBy(s, key)) == multiset(s)
  {
    if s != [] {
      SortMultiset(s[1..], key);
      InsertMultiset(s[0], SortBy(s[1..], key), key);
      assert s == [s[0]] + s[1..];
    }
  }

  lemma {:induction false} SortAscending<T>(s: seq<T>, key: T -> real)
    ensures Ascending(SortBy(s, key), key)
  {
    if s != [] {
      SortAscending(s[1..], key);
      InsertAscending(s[0], SortBy(s[1..], key), key);
    }
  }

  lemma {:induction false} SortFacts<T>(s: seq<T>, key: T -> real)
    ensures multiset(SortBy(s, key)) == multiset(s)
    ensures Ascending(SortBy(s, key), key)
    ensures |SortBy(s, key)| == |s|
    ensures forall x :: x in SortBy(s, key) <==> x in s
  {
    SortMultiset(s, key);
    SortAscending(s, key);
    SameMultiset(SortBy(s, key), s);
  }

  lemma {:induction false} SameMultiset<T>(a: seq<T>, b: seq<T>)
    requires multiset(a) == multiset(b)
    ensures |a| == |b|
    ensures forall x :: x in a <==> x in b
  {
    assert |multiset(a)| == |a| && |multiset(b)| == |b|;
    forall x ensures x in a <==> x in b {
      assert x in a <==> x in multiset(a);
      assert x in b <==> x in multiset(b);
    }
  }

  lemma {:induction false} InsertCons<T>(x: T, y: T, s: seq<T>, key: T -> real)
    ensures InsertBy(x, [y] + s, key) == if key(x) <= key(y) then [x] + ([y] + s) else [y] + InsertBy(x, s, key)
  {
    assert ([y] + s)[1..] == s;
  }

  /** Sorting and filtering commute; with `p` "has key k" this is stability. */
  lemma {:induction false} SortFilter<T(!new)>(s: seq<T>, key: T -> real, p: T -> bool)
    ensures Filter(SortBy(s, key), p) == SortBy(Filter(s, p), key)
  {
    if s != [] {
      SortFilter(s[1..], key, p);
      SortFacts(s[1..], key);
      InsertFilter(s[0], SortBy(s[1..], key), key, p);
      if p(s[0]) {
        assert Filter(s, p)[1..] == Filter(s[1..], p);
      } else {
        assert Filter(s, p) == Filter(s[1..], p);
      }
    }
  }

  lemma {:induction false} InsertFilterStep<T(!new)>(x: T, y: T, t: seq<T>, key: T -> real, p: T -> bool)
    requires key(x) > key(y)
    requires Filter(InsertBy(x, t, key), p) == if p(x) then InsertBy(x, Filter(t, p), key) else Filter(t, p)
    ensures Filter(InsertBy(x, [y] + t, key), p)
         == if p(x) then InsertBy(x, Filter([y] + t, p), key) else Filter([y] + t, p)
  {
    InsertCons(x, y, t, key);
    FilterCons(y, t, p);
    FilterCons(y, InsertBy(x, t, key), p);
    InsertCons(x, y, Filter(t, p), key);
  }

  lemma InsertFilterFront<T(!new)>(x: T, s: seq<T>, key: T -> real, p: T -> bool)
    requires Ascending(s, key) && (s == [] || key(x) <= key(s[0]))
    ensures Filter(InsertBy(x, s, key), p) == if p(x) then InsertBy(x, Filter(s, p), key) else Filter(s, p)
  {
    FilterCons(x, s, p);
    var f := Filter(s, p);
    FilterIn(s, p);
    hide Filter;
    if f != [] {
      assert f[0] in s;
    }
    assert f == [] || key(x) <= key(f[0]);
  }

  lemma {:induction false} InsertFilter<T(!new)>(x: T, s: seq<T>, key: T -> real, p: T -> bool)
    requires Ascending(s, key)
    ensures Filter(InsertBy(x, s, key), p) == if p(x) then InsertBy(x, Filter(s, p), key) else Filter(s, p)
  {
    if s == [] || key(x) <= key(s[0]) {
      InsertFilterFront(x, s, key, p);
    } else {
      var y, t := s[0], s[1..];
      InsertFilter(x, t, key, p);
      InsertFilterStep(x, y, t, key, p);
      assert s == [y] + t;
    }
  }

  /** A list whose keys strictly increase is the only sorted arrangement of its elements. */
  lemma {:induction false} SortUnique<T>(s: seq<T>, t: seq<T>, key: T -> real)
    requires multiset(s) == multiset(t)
    requires forall i, j :: 0 <= i < j < |t| ==> key(t[i]) < key(t[j])
    ensures SortBy(s, key) == t
  {
    SortFacts(s, key);
    AscendingUnique(SortBy(s, key), t, key);
  }

  lemma {:induction false} HeadsAgree<T>(a: seq<T>, t: seq<T>, key: T -> real)
    requires multiset(a) == multiset(t) && a != []
    requires Ascending(a, key)
    requires forall i, j :: 0 <= i < j < |t| ==> key(t[i]) < key(t[j])
    ensures t != [] && a[0] == t[0]
  {
    SameMultiset(a, t);
    assert a[0] in t && t[0] in a;
    var i :| 0 <= i < |t| && t[i] == a[0];
    var j :| 0 <= j < |a| && a[j] == t[0];
    assert key(a[0]) <= key(a[j]);
  }

  lemma {:induction false} TailMultiset<T>(a: seq<T>)
    requires a != []
    ensures multiset(a[1..]) == multiset(a) - multiset{a[0]}
  {
    assert a == [a[0]] + a[1..];
  }

  lemma {:induction false} AscendingUnique<T>(a: seq<T>, t: seq<T>, key: T -> real)
    requires multiset(a) == multiset(t)
    requires Ascending(a, key)
    requires forall i, j :: 0 <= i < j < |t| ==> key(t[i]) < key(t[j])
    ensures a == t
  {
    SameMultiset(a, t);
    if a != [] {
      HeadsAgree(a, t, key);
      var a', t' := a[1..], t[1..];
      assert multiset(a') == multiset(t') by {
        TailMultiset(a);
        TailMultiset(t);
      }
      AscendingUnique(a', t', key);
      assert a == [a[0]] + a';
    }
  }

  lemma {:induction false} SubsetSize<T>(a: set<T>, b: set<T>)
    requires a <= b
    ensures |a| <= |b|
  {
    assert b == a + (b - a);
  }

  lemma Regroup<T>(a: seq<T>, b: seq<T>, c: seq<T>)
    ensures a + (b + c) == (a + b) + c
  {
  }

  lemma {:induction false} FilterCount<T(!new)>(a: seq<T>, p: T -> bool, x: T)
    ensures multiset(Filter(a, p))[x] == if p(x) then multiset(a)[x] else 0
  {
    if a != [] {
      FilterCount(a[1..], p, x);
      assert a == [a[0]] + a[1..];
    }
  }

  lemma {:induction false} FilterMultiset<T(!new)>(a: seq<T>, b: seq<T>, p: T -> bool)
    requires multiset(a) == multiset(b)
    ensures multiset(Filter(a, p)) == multiset(Filter(b, p))
  {
    forall x ensures multiset(Filter(a, p))[x] == multiset(Filter(b, p))[x] {
      FilterCount(a, p, x);
      FilterCount(b, p, x);
    }
  }

  lemma {:induction false} FilterNone<T(!new)>(s: seq<T>, p: T -> bool)
    requires forall x :: x in s ==> !p(x)
    ensures Filter(s, p) == []
  {
    if s != [] {
      FilterNone(s[1..], p);
    }
  }
}
