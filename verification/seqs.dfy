/** Sequence operations that the script performs through Python list idioms. */
module Seqs {

  function Min(a: int, b: int): int
  {
    if a <= b then a else b
  }

  /** No element occurs twice. */
  predicate NoDuplicates<T(==)>(s: seq<T>)
  {
    forall a, b :: 0 <= a < b < |s| ==> s[a] != s[b]
  }

  /** `[x for x in s if p(x)]`: the elements of `s` that satisfy `p`, in their original order. */
  function Filter<T(!new)>(s: seq<T>, p: T -> bool): (r: seq<T>)
    ensures |r| <= |s|
    ensures forall x :: x in r <==> x in s && p(x)
    decreases |s|
  {
    if s == [] then []
    else (if p(s[0]) then [s[0]] else []) + Filter(s[1..], p)
  }

  /** Filtering commutes with concatenation: the kept elements stay in their original order. */
  lemma {:induction false} FilterConcat<T(!new)>(a: seq<T>, b: seq<T>, p: T -> bool)
    ensures Filter(a + b, p) == Filter(a, p) + Filter(b, p)
    decreases |a|
  {
    if a == [] {
      assert a + b == b;
    } else {
      assert (a + b)[1..] == a[1..] + b;
      FilterConcat(a[1..], b, p);
    }
  }

  /** Elements before the first one that satisfies `p` contribute nothing. */
  lemma {:induction false} FilterSkip<T(!new)>(s: seq<T>, i: nat, p: T -> bool)
    requires i <= |s|
    requires forall k :: 0 <= k < i ==> !p(s[k])
    ensures Filter(s, p) == Filter(s[i..], p)
    decreases i
  {
    if i > 0 {
      assert !p(s[0]);
      assert s[1..][i - 1..] == s[i..];
      FilterSkip(s[1..], i - 1, p);
    }
  }

  /** If `s[i]` is the first element satisfying `p`, it heads the filtered sequence. */
  lemma FilterFirst<T(!new)>(s: seq<T>, i: nat, p: T -> bool)
    requires i < |s| && p(s[i])
    requires forall k :: 0 <= k < i ==> !p(s[k])
    ensures Filter(s, p) == [s[i]] + Filter(s[i + 1..], p)
  {
    assert s[0..] == s;
    FilterFirstFrom(s, 0, i, p);
  }

  /** If `s[i]` is the first element from index `from` on satisfying `p`, it heads the filtered suffix. */
  lemma {:induction false} FilterFirstFrom<T(!new)>(s: seq<T>, from: nat, i: nat, p: T -> bool)
    requires from <= i < |s| && p(s[i])
    requires forall k :: from <= k < i ==> !p(s[k])
    ensures Filter(s[from..], p) == [s[i]] + Filter(s[i + 1..], p)
    decreases i - from
  {
    assert s[from..][1..] == s[from + 1..];
    if from < i {
      assert !p(s[from]);
      FilterFirstFrom(s, from + 1, i, p);
    }
  }

  /** If `s[i]` and `s[j]` are the first two elements satisfying `p`, they lead the filtered sequence. */
  lemma FilterFirstTwo<T(!new)>(s: seq<T>, i: nat, j: nat, p: T -> bool)
    requires i < j < |s| && p(s[i]) && p(s[j])
    requires forall k :: 0 <= k < j && k != i ==> !p(s[k])
    ensures |Filter(s, p)| >= 2 && Filter(s, p)[0] == s[i] && Filter(s, p)[1] == s[j]
  {
    var rest := Filter(s[i + 1..], p);
    assert Filter(s, p) == [s[i]] + rest by {
      FilterFirst(s, i, p);
    }
    assert rest == [s[j]] + Filter(s[j + 1..], p) by {
      FilterFirstFrom(s, i + 1, j, p);
    }
  }

  /** The head of a non-empty filtered sequence is the first element of `s` satisfying `p`. */
  lemma FilterHeadIsFirst<T(!new)>(s: seq<T>, p: T -> bool)
    requires Filter(s, p) != []
    ensures exists k :: 0 <= k < |s| && Filter(s, p)[0] == s[k] && p(s[k]) &&
                        forall m :: 0 <= m < k ==> !p(s[m])
  {
    assert s[0..] == s;
    FilterHeadFrom(s, 0, p);
  }

  /** The head of the filtered suffix from index `from` is the first element from there on satisfying `p`. */
  lemma {:induction false} FilterHeadFrom<T(!new)>(s: seq<T>, from: nat, p: T -> bool)
    requires from <= |s| && Filter(s[from..], p) != []
    ensures exists k :: from <= k < |s| && Filter(s[from..], p)[0] == s[k] && p(s[k]) &&
                        forall m :: from <= m < k ==> !p(s[m])
    decreases |s| - from
  {
    assert s[from..][1..] == s[from + 1..];
    if p(s[from]) {
      assert Filter(s[from..], p)[0] == s[from];
    } else {
      assert Filter(s[from..], p) == Filter(s[from + 1..], p);
      FilterHeadFrom(s, from + 1, p);
      var k :| from + 1 <= k < |s| && Filter(s[from + 1..], p)[0] == s[k] && p(s[k]) &&
               forall m :: from + 1 <= m < k ==> !p(s[m]);
      assert forall m :: from <= m < k ==> !p(s[m]);
    }
  }

  /** Filtering a duplicate-free sequence yields a duplicate-free sequence. */
  lemma {:induction false} FilterNoDuplicates<T(!new)>(s: seq<T>, p: T -> bool)
    requires NoDuplicates(s)
    ensures NoDuplicates(Filter(s, p))
    decreases |s|
  {
    if s != [] {
      assert NoDuplicates(s[1..]);
      FilterNoDuplicates(s[1..], p);
      var rest := Filter(s[1..], p);
      assert s[0] !in s[1..];
      assert s[0] !in rest;
    }
  }

  /** `s.head(n)`: the first `n` elements of `s`, or all of `s` if it is shorter. */
  function Head<T>(s: seq<T>, n: nat): (r: seq<T>)
    ensures |r| == Min(n, |s|)
    ensures forall i :: 0 <= i < |r| ==> r[i] == s[i]
  {
    if |s| <= n then s else s[..n]
  }
}
