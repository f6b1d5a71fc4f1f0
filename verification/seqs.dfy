/** Order-preserving selections over sequences: `Array.prototype.filter` with and without throwing callbacks. */
module Seqs {
  import opened Outcomes
  import opened Js

  /** `a` is `b` with some elements dropped and the rest kept in order. */
  predicate IsSubsequence<T(==)>(a: seq<T>, b: seq<T>)
    decreases |b|
  {
    if a == [] then true
    else if b == [] then false
    else if a[0] == b[0] then IsSubsequence(a[1..], b[1..])
    else IsSubsequence(a, b[1..])
  }

  /** No element occurs twice. */
  predicate Distinct<T(==)>(xs: seq<T>)
  {
    forall i, j :: 0 <= i < j < |xs| ==> xs[i] != xs[j]
  }

  /**
   * `xs.filter(keep)`: exactly the elements `keep` accepts, each as often as
   * in `xs`, in their original order.
   */
  function Filter<T(==,!new)>(xs: seq<T>, keep: T -> bool): (r: seq<T>)
    ensures IsSubsequence(r, xs)
    ensures forall x :: x in r <==> x in xs && keep(x)
    ensures forall x :: multiset(r)[x] == if keep(x) then multiset(xs)[x] else 0
  {
    if xs == [] then []
    else
      assert xs == [xs[0]] + xs[1..];
      if keep(xs[0]) then [xs[0]] + Filter(xs[1..], keep) else Filter(xs[1..], keep)
  }

  /** A filter that accepts every element returns the sequence itself. */
  lemma {:induction false} FilterKeepsAll<T(!new)>(xs: seq<T>, keep: T -> bool)
    requires forall i :: 0 <= i < |xs| ==> keep(xs[i])
    ensures Filter(xs, keep) == xs
  {
    if xs != [] {
      FilterKeepsAll(xs[1..], keep);
    }
  }

  /**
   * `xs.filter(judge)` where the callback may throw: the first throwing
   * element aborts the whole filter with its fault; otherwise the elements
   * judged `Pass` are kept in order.
   */
  function Select<T(==,!new)>(xs: seq<T>, judge: T -> Verdict): (r: Result<seq<T>, Fault>)
    ensures r.Success? <==> forall i :: 0 <= i < |xs| ==> !judge(xs[i]).Raise?
    ensures r.Failure? ==>
              exists i :: 0 <= i < |xs| && judge(xs[i]) == Raise(r.error) &&
                          forall j :: 0 <= j < i ==> !judge(xs[j]).Raise?
    ensures r.Success? ==> IsSubsequence(r.value, xs)
    ensures r.Success? ==> forall x :: x in r.value <==> x in xs && judge(x) == Pass
    ensures r.Success? ==>
              forall x :: multiset(r.value)[x] == if judge(x) == Pass then multiset(xs)[x] else 0
  {
    if xs == [] then Success([])
    else
      assert xs == [xs[0]] + xs[1..];
      match judge(xs[0])
      case Raise(f) => Failure(f)
      case Reject => Select(xs[1..], judge)
      case Pass =>
        match Select(xs[1..], judge)
        case Success(rest) =>
          assert multiset([xs[0]] + rest) == multiset([xs[0]]) + multiset(rest);
          Success([xs[0]] + rest)
        case Failure(f) => Failure(f)
  }

  /** When nothing throws, `Select` is the plain filter on `Pass` verdicts. */
  lemma {:induction false} SelectIsFilter<T(!new)>(xs: seq<T>, judge: T -> Verdict, keep: T -> bool)
    requires forall i :: 0 <= i < |xs| ==> (keep(xs[i]) <==> judge(xs[i]) == Pass)
    ensures Select(xs, judge).Success? ==> Select(xs, judge).value == Filter(xs, keep)
  {
    if xs != [] {
      SelectIsFilter(xs[1..], judge, keep);
    }
  }

  /** Filtering out one value: every occurrence of `x` removed, the rest in order. */
  function Without<T(==,!new)>(xs: seq<T>, x: T): (r: seq<T>)
    ensures IsSubsequence(r, xs)
    ensures x !in r
    ensures forall y :: y != x ==> (y in r <==> y in xs)
    ensures x !in xs ==> r == xs
    ensures x in xs ==> |r| < |xs|
    ensures forall y :: y != x ==> multiset(r)[y] == multiset(xs)[y]
  {
    if xs == [] then []
    else
      assert xs == [xs[0]] + xs[1..];
      if xs[0] == x then Without(xs[1..], x)
    else [xs[0]] + Without(xs[1..], x)
  }

  /** Removing an element appended to a list that lacked it restores the list. */
  lemma {:induction false} WithoutUndoesAppend<T(!new)>(xs: seq<T>, x: T)
    requires x !in xs
    ensures Without(xs + [x], x) == xs
  {
    if xs != [] {
      assert (xs + [x])[1..] == xs[1..] + [x];
      WithoutUndoesAppend(xs[1..], x);
    }
  }

  /** Every sequence is a subsequence of itself. */
  lemma {:induction false} SubsequenceReflexive<T>(xs: seq<T>)
    ensures IsSubsequence(xs, xs)
  {
    if xs != [] {
      SubsequenceReflexive(xs[1..]);
    }
  }

  /** Callbacks with the same verdict on every element select the same result. */
  lemma {:induction false} SelectAgrees<T(!new)>(xs: seq<T>, judge: T -> Verdict, judge': T -> Verdict)
    requires forall i :: 0 <= i < |xs| ==> judge(xs[i]) == judge'(xs[i])
    ensures Select(xs, judge) == Select(xs, judge')
  {
    if xs != [] {
      SelectAgrees(xs[1..], judge, judge');
    }
  }

  /** The numbers below `n`. */
  function Below(n: nat): (r: set<nat>)
    ensures |r| == n
    ensures forall k: nat :: k in r <==> k < n
  {
    if n == 0 then {} else Below(n - 1) + {n - 1}
  }

  /** Pigeonhole: a sequence without repeats drawn from `pool` is no longer than `pool` is large. */
  lemma {:induction false} DistinctBound<T>(xs: seq<T>, pool: set<T>)
    requires Distinct(xs)
    requires forall k :: 0 <= k < |xs| ==> xs[k] in pool
    ensures |xs| <= |pool|
  {
    if xs != [] {
      forall k | 0 <= k < |xs[1..]|
        ensures xs[1..][k] in pool - {xs[0]}
      {
        assert xs[1..][k] == xs[k + 1] != xs[0];
      }
      DistinctBound(xs[1..], pool - {xs[0]});
    }
  }
}
