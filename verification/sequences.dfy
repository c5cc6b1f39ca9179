/** Sequence helpers shared by the list-manipulating parts of the model. */
module Sequences {
  import Wrappers

  /** `a` is obtained from `b` by deleting zero or more elements; the rest keep their order. */
  predicate IsSubsequence<T(==)>(a: seq<T>, b: seq<T>)
    decreases |b|
  {
    |a| == 0
    || (|b| > 0
        && ((a[0] == b[0] && IsSubsequence(a[1..], b[1..])) || IsSubsequence(a, b[1..])))
  }

  /** No value occurs twice. */
  predicate NoDuplicates<T(==)>(s: seq<T>) {
    forall i, j :: 0 <= i < j < |s| ==> s[i] != s[j]
  }

  /**
   * The elements of `s` that satisfy `p`, in their original order: the
   * behaviour of `Array.prototype.filter`. The multiset clause together with
   * the subsequence clause determines the result uniquely.
   */
  function Filter<T(==,!new)>(p: T -> bool, s: seq<T>): (r: seq<T>)
    ensures |r| <= |s|
    ensures forall x :: x in r <==> x in s && p(x)
    ensures forall x :: multiset(r)[x] == if p(x) then multiset(s)[x] else 0
    ensures IsSubsequence(r, s)
    decreases |s|
  {
    if |s| == 0 then []
    else
      assert s == [s[0]] + s[1..];
      if p(s[0]) then [s[0]] + Filter(p, s[1..]) else Filter(p, s[1..])
  }

  /** Filtering with a predicate every element satisfies changes nothing. */
  lemma {:induction false} FilterKeepsAll<T(!new)>(p: T -> bool, s: seq<T>)
    requires forall k :: 0 <= k < |s| ==> p(s[k])
    ensures Filter(p, s) == s
    decreases |s|
  {
    if |s| > 0 {
      FilterKeepsAll(p, s[1..]);
      assert Filter(p, s) == [s[0]] + Filter(p, s[1..]);
      assert s == [s[0]] + s[1..];
    }
  }

  lemma ConsNoDuplicates<T>(x: T, s: seq<T>)
    requires x !in s && NoDuplicates(s)
    ensures NoDuplicates([x] + s)
  {
    var t := [x] + s;
    forall i, j | 0 <= i < j < |t|
      ensures t[i] != t[j]
    {
      if i == 0 {
        assert t[j] == s[j - 1];
      } else {
        assert t[i] == s[i - 1] && t[j] == s[j - 1];
      }
    }
  }

  /** Appending a value that is not yet present keeps a sequence duplicate-free. */
  lemma AppendNoDuplicates<T>(s: seq<T>, x: T)
    requires NoDuplicates(s) && x !in s
    ensures NoDuplicates(s + [x])
  {
    var t := s + [x];
    forall i, j | 0 <= i < j < |t|
      ensures t[i] != t[j]
    {
      if j == |s| {
        assert t[i] == s[i];
      } else {
        assert t[i] == s[i] && t[j] == s[j];
      }
    }
  }

  /** Filtering never introduces duplicates. */
  lemma {:induction false} FilterNoDuplicates<T(!new)>(p: T -> bool, s: seq<T>)
    requires NoDuplicates(s)
    ensures NoDuplicates(Filter(p, s))
    decreases |s|
  {
    if |s| > 0 {
      assert NoDuplicates(s[1..]) by {
        forall i, j | 0 <= i < j < |s[1..]|
          ensures s[1..][i] != s[1..][j]
        {
          assert s[1..][i] == s[i + 1] && s[1..][j] == s[j + 1];
        }
      }
      FilterNoDuplicates(p, s[1..]);
      if p(s[0]) {
        assert s[0] !in s[1..] by {
          forall k | 0 <= k < |s[1..]|
            ensures s[1..][k] != s[0]
          {
            assert s[1..][k] == s[k + 1];
          }
        }
        ConsNoDuplicates(s[0], Filter(p, s[1..]));
      }
    }
  }

  /** Filtering distributes over concatenation. */
  lemma {:induction false} FilterAppend<T(!new)>(p: T -> bool, a: seq<T>, b: seq<T>)
    ensures Filter(p, a + b) == Filter(p, a) + Filter(p, b)
    decreases |a|
  {
    if |a| > 0 {
      var ab := a + b;
      assert ab[0] == a[0] && ab[1..] == a[1..] + b;
      FilterAppend(p, a[1..], b);
      if p(a[0]) {
        assert Filter(p, ab) == [a[0]] + Filter(p, ab[1..]);
        assert Filter(p, a) == [a[0]] + Filter(p, a[1..]);
      } else {
        assert Filter(p, ab) == Filter(p, ab[1..]);
        assert Filter(p, a) == Filter(p, a[1..]);
      }
    } else {
      assert a + b == b;
    }
  }

  /**
   * Position of the first element satisfying `p`, or -1 when there is none:
   * the behaviour of `Array.prototype.findIndex`.
   */
  function FindFirst<T>(p: T -> bool, s: seq<T>): (k: int)
    ensures -1 <= k < |s|
    ensures k == -1 <==> forall j :: 0 <= j < |s| ==> !p(s[j])
    ensures 0 <= k ==> p(s[k]) && forall j :: 0 <= j < k ==> !p(s[j])
    decreases |s|
  {
    if |s| == 0 then -1
    else if p(s[0]) then 0
    else
      var k := FindFirst(p, s[1..]);
      if k == -1 then -1 else k + 1
  }

  /** The first element satisfying `p`, if any: the behaviour of `Array.prototype.find`. */
  function Find<T>(p: T -> bool, s: seq<T>): (r: Wrappers.Option<T>)
    ensures r.None? <==> forall j :: 0 <= j < |s| ==> !p(s[j])
    ensures r.Some? ==>
              exists k :: 0 <= k < |s| && s[k] == r.value && p(s[k]) && forall j :: 0 <= j < k ==> !p(s[j])
  {
    var k := FindFirst(p, s);
    if k == -1 then Wrappers.None else Wrappers.Some(s[k])
  }

  /** `s` is in non-decreasing order of `key`. */
  predicate SortedByKey<T>(key: T -> real, s: seq<T>) {
    forall i, j :: 0 <= i < j < |s| ==> key(s[i]) <= key(s[j])
  }

  /** Inserts `x` before the first element whose key is not smaller, so ties keep arrival order. */
  function InsertByKey<T>(key: T -> real, x: T, s: seq<T>): (r: seq<T>)
    requires SortedByKey(key, s)
    ensures SortedByKey(key, r)
    ensures multiset(r) == multiset(s) + multiset{x}
    ensures |r| == |s| + 1
    ensures r[0] == x || (|s| > 0 && r[0] == s[0])
    decreases |s|
  {
    if |s| == 0 || key(x) <= key(s[0]) then [x] + s
    else
      var rest := InsertByKey(key, x, s[1..]);
      assert s == [s[0]] + s[1..];
      assert key(s[0]) <= key(rest[0]);
      [s[0]] + rest
  }

  /**
   * Insertion sort by `key`: a stable sort, as `Array.prototype.sort` is
   * with a comparator returning `key(a) - key(b)`.
   */
  function SortByKey<T>(key: T -> real, s: seq<T>): (r: seq<T>)
    ensures SortedByKey(key, r)
    ensures multiset(r) == multiset(s)
    ensures |r| == |s|
    decreases |s|
  {
    if |s| == 0 then []
    else
      assert s == [s[0]] + s[1..];
      InsertByKey(key, s[0], SortByKey(key, s[1..]))
  }

  /** The elements of `s` whose key is `v`, in their order in `s`. */
  function WithKey<T>(key: T -> real, v: real, s: seq<T>): seq<T>
    decreases |s|
  {
    if |s| == 0 then [] else (if key(s[0]) == v then [s[0]] else []) + WithKey(key, v, s[1..])
  }

  lemma {:induction false} WithKeyAppend<T>(key: T -> real, v: real, a: seq<T>, b: seq<T>)
    ensures WithKey(key, v, a + b) == WithKey(key, v, a) + WithKey(key, v, b)
    decreases |a|
  {
    if |a| > 0 {
      assert (a + b)[1..] == a[1..] + b;
      WithKeyAppend(key, v, a[1..], b);
    } else {
      assert a + b == b;
    }
  }

  lemma WithKeyCons<T>(key: T -> real, v: real, h: T, t: seq<T>)
    ensures WithKey(key, v, [h] + t) == (if key(h) == v then [h] else []) + WithKey(key, v, t)
  {
    assert ([h] + t)[0] == h && ([h] + t)[1..] == t;
  }

  /** Among the elements with one key, the inserted element comes first. */
  lemma {:induction false} InsertByKeyStable<T>(key: T -> real, x: T, s: seq<T>, v: real)
    requires SortedByKey(key, s)
    ensures WithKey(key, v, InsertByKey(key, x, s)) == (if key(x) == v then [x] else []) + WithKey(key, v, s)
    decreases |s|
  {
    if |s| == 0 || key(x) <= key(s[0]) {
      WithKeyCons(key, v, x, s);
    } else {
      var rest := InsertByKey(key, x, s[1..]);
      assert InsertByKey(key, x, s) == [s[0]] + rest;
      InsertByKeyStable(key, x, s[1..], v);
      WithKeyCons(key, v, s[0], rest);
      WithKeyCons(key, v, s[0], s[1..]);
      assert [s[0]] + s[1..] == s;
    }
  }

  /**
   * The sort is stable: for every key value, the elements with that key
   * appear in the result in the same order as in the input.
   */
  lemma {:induction false} SortByKeyStable<T>(key: T -> real, s: seq<T>, v: real)
    ensures WithKey(key, v, SortByKey(key, s)) == WithKey(key, v, s)
    decreases |s|
  {
    if |s| > 0 {
      SortByKeyStable(key, s[1..], v);
      InsertByKeyStable(key, s[0], SortByKey(key, s[1..]), v);
    }
  }
}
