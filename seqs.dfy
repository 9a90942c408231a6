/**
  Order-preserving filtering of sequences, the `Array.prototype.filter` that the roster
  screens and the picker use. Every filter in the model is an instance of `Filter`, so
  its properties are proved once here.
 */
module Seqs {

  /** The elements of `s` for which `keep` holds, in their original order. */
  function Filter<T>(s: seq<T>, keep: T -> bool): (r: seq<T>)
    ensures |r| <= |s|
    ensures forall x :: x in r ==> x in s && keep(x)
  {
    if s == [] then []
    else (if keep(s[0]) then [s[0]] else []) + Filter(s[1..], keep)
  }

  /** An element survives the filter exactly when it occurs in the input and is kept. */
  lemma {:induction false} FilterMembers<T>(s: seq<T>, keep: T -> bool, x: T)
    ensures x in Filter(s, keep) <==> x in s && keep(x)
  {
    if s != [] {
      FilterMembers(s[1..], keep, x);
      assert s == [s[0]] + s[1..];
    }
  }

  /** Duplicates are kept: a kept value occurs as often in the result as in the input. */
  lemma {:induction false} FilterMultiplicity<T>(s: seq<T>, keep: T -> bool, x: T)
    ensures multiset(Filter(s, keep))[x] == if keep(x) then multiset(s)[x] else 0
  {
    if s != [] {
      FilterMultiplicity(s[1..], keep, x);
      assert s == [s[0]] + s[1..];
    }
  }

  /**
    The result is exactly the kept positions of `s` in increasing order: `idx` lists
    the positions of `s` that the result is made of, it is strictly increasing, and a
    position is listed exactly when its element is kept.
   */
  lemma {:induction false} FilterPositions<T>(s: seq<T>, keep: T -> bool) returns (idx: seq<nat>)
    ensures |idx| == |Filter(s, keep)|
    ensures forall k :: 0 <= k < |idx| ==> idx[k] < |s| && s[idx[k]] == Filter(s, keep)[k]
    ensures Increasing(idx)
    ensures forall i :: 0 <= i < |s| ==> (keep(s[i]) <==> i in idx)
  {
    if s == [] {
      idx := [];
    } else {
      var tail := FilterPositions(s[1..], keep);
      var rest := Filter(s[1..], keep);
      var shifted := Shift(tail);
      var head: seq<nat> := if keep(s[0]) then [0] else [];
      ShiftIncreasing(tail, head);
      idx := head + shifted;
      var f := Filter(s, keep);
      assert f == (if keep(s[0]) then [s[0]] else []) + rest;
      assert |idx| == |f|;
      forall k | 0 <= k < |idx|
        ensures idx[k] < |s| && s[idx[k]] == f[k]
      {
        if k >= |head| {
          assert idx[k] == shifted[k - |head|] == tail[k - |head|] + 1;
          assert f[k] == rest[k - |head|];
          assert s[idx[k]] == s[1..][tail[k - |head|]];
        }
      }
      forall i | 0 <= i < |s|
        ensures keep(s[i]) <==> i in idx
      {
        ShiftMembers(tail, i);
        if i > 0 {
          assert s[i] == s[1..][i - 1];
        }
      }
    }
  }

  /** Strictly increasing positions. */
  predicate Increasing(idx: seq<nat>) {
    forall k, l :: 0 <= k < l < |idx| ==> idx[k] < idx[l]
  }

  lemma ShiftIncreasing(idx: seq<nat>, head: seq<nat>)
    requires Increasing(idx)
    requires head == [] || head == [0]
    ensures Increasing(head + Shift(idx))
  {
    var r := head + Shift(idx);
    forall k, l | 0 <= k < l < |r|
      ensures r[k] < r[l]
    {
      var l' := l - |head|;
      assert r[l] == idx[l'] + 1;
      if k >= |head| {
        assert r[k] == idx[k - |head|] + 1;
      }
    }
  }

  /** Every position moved one place to the right. */
  function Shift(idx: seq<nat>): (r: seq<nat>)
    ensures |r| == |idx| && forall k :: 0 <= k < |idx| ==> r[k] == idx[k] + 1
  {
    seq(|idx|, k requires 0 <= k < |idx| => idx[k] + 1)
  }

  lemma ShiftMembers(idx: seq<nat>, i: nat)
    ensures i in Shift(idx) <==> i > 0 && i - 1 in idx
  {
    if i > 0 && i - 1 in idx {
      var k :| 0 <= k < |idx| && idx[k] == i - 1;
      assert Shift(idx)[k] == i;
    }
  }

  /** A filter that keeps every element is the identity. */
  lemma {:induction false} FilterKeepsAll<T>(s: seq<T>, keep: T -> bool)
    requires forall i :: 0 <= i < |s| ==> keep(s[i])
    ensures Filter(s, keep) == s
  {
    if s != [] {
      FilterKeepsAll(s[1..], keep);
      assert s == [s[0]] + s[1..];
    }
  }

  /** A filter that keeps no element gives the empty sequence. */
  lemma {:induction false} FilterKeepsNone<T>(s: seq<T>, keep: T -> bool)
    requires forall i :: 0 <= i < |s| ==> !keep(s[i])
    ensures Filter(s, keep) == []
  {
    if s != [] {
      FilterKeepsNone(s[1..], keep);
    }
  }

  /** Two tests that agree on every element of `s` filter it the same way. */
  lemma {:induction false} FilterCongruent<T>(s: seq<T>, keep: T -> bool, keep': T -> bool)
    requires forall i :: 0 <= i < |s| ==> keep(s[i]) == keep'(s[i])
    ensures Filter(s, keep) == Filter(s, keep')
  {
    if s != [] {
      FilterCongruent(s[1..], keep, keep');
    }
  }
}
