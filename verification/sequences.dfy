/** Generic list facts used by the queue and by the role mapping: the
    behaviour of Python's `list.remove` and the subsequence relation. */
module Sequences {

  /** `a` is obtained from `b` by deleting zero or more elements and
      keeping the order of the rest. */
  ghost predicate IsSubsequence<T>(a: seq<T>, b: seq<T>)
    decreases |b|
  {
    if |b| == 0 then |a| == 0
    else
      || (|a| > 0 && a[0] == b[0] && IsSubsequence(a[1..], b[1..]))
      || IsSubsequence(a, b[1..])
  }

  /** Position of the first occurrence of `x` in `q`. */
  function FirstIndex<T(==)>(q: seq<T>, x: T): (i: nat)
    requires x in q
    ensures i < |q| && q[i] == x
    ensures x !in q[..i]
  {
    if q[0] == x then 0
    else
      assert x in q[1..] by { assert q == [q[0]] + q[1..]; }
      var j := FirstIndex(q[1..], x);
      assert q[..j + 1] == [q[0]] + q[1..][..j];
      1 + j
  }

  /** Python's `list.remove(x)`: scans from the front and deletes the first
      element equal to `x`. Python raises `ValueError` when `x` is absent;
      this total version returns the list unchanged instead, a case the
      queue never reaches because it tests membership first. */
  function RemoveFirst<T(==)>(q: seq<T>, x: T): (r: seq<T>)
    ensures x in q ==> |r| == |q| - 1
    ensures x !in q ==> r == q
    ensures multiset(r) == multiset(q) - multiset{x}
  {
    if |q| == 0 then []
    else
      assert q == [q[0]] + q[1..];
      if q[0] == x then q[1..]
      else [q[0]] + RemoveFirst(q[1..], x)
  }

  /** The element deleted by `RemoveFirst` is the one at the first index
      holding `x` (pass `FirstIndex(q, x)` as `i`): the elements before and
      after it keep their order. */
  lemma {:induction false} RemoveFirstAt<T>(q: seq<T>, x: T, i: nat)
    requires i < |q| && q[i] == x && x !in q[..i]
    ensures RemoveFirst(q, x) == q[..i] + q[i + 1..]
  {
    if i == 0 {
      assert q[..0] + q[1..] == q[1..];
    } else {
      var t := q[1..];
      FirstIndexShift(q, x, i);
      RemoveFirstAt(t, x, i - 1);
      RemoveFirstSkipsHead(q, x);
      SplitAroundShift(q, i);
    }
  }

  /** A first occurrence at `i > 0` is a first occurrence at `i - 1` of the
      tail, and the head differs from `x`. */
  lemma FirstIndexShift<T>(q: seq<T>, x: T, i: nat)
    requires 0 < i < |q| && q[i] == x && x !in q[..i]
    ensures q[0] != x
    ensures q[1..][i - 1] == x && x !in q[1..][..i - 1]
  {
    assert q[0] in q[..i];
    assert q[1..][..i - 1] == q[..i][1..];
  }

  lemma RemoveFirstSkipsHead<T>(q: seq<T>, x: T)
    requires |q| > 0 && q[0] != x
    ensures RemoveFirst(q, x) == [q[0]] + RemoveFirst(q[1..], x)
  {
  }

  lemma SplitAroundShift<T>(q: seq<T>, i: nat)
    requires 0 < i < |q|
    ensures [q[0]] + (q[1..][..i - 1] + q[1..][i..]) == q[..i] + q[i + 1..]
  {
    assert q[..i] == [q[0]] + q[1..][..i - 1];
    assert q[i + 1..] == q[1..][i..];
  }

  /** Removing from the front part of a list leaves the back part alone. */
  lemma {:induction false} RemoveFirstAppend<T>(a: seq<T>, b: seq<T>, x: T)
    requires x in a
    ensures RemoveFirst(a + b, x) == RemoveFirst(a, x) + b
  {
    assert (a + b)[1..] == a[1..] + b;
    if a[0] != x {
      assert a == [a[0]] + a[1..];
      assert x in a[1..];
      RemoveFirstAppend(a[1..], b, x);
    }
  }

  /** A subsequence is never longer than the sequence it comes from. */
  lemma {:induction false} SubsequenceLength<T>(a: seq<T>, b: seq<T>)
    requires IsSubsequence(a, b)
    ensures |a| <= |b|
    decreases |b|
  {
    if |b| != 0 {
      if |a| > 0 && a[0] == b[0] && IsSubsequence(a[1..], b[1..]) {
        SubsequenceLength(a[1..], b[1..]);
      } else {
        SubsequenceLength(a, b[1..]);
      }
    }
  }

  lemma {:induction false} SubsequenceReflexive<T>(a: seq<T>)
    ensures IsSubsequence(a, a)
  {
    if |a| != 0 {
      SubsequenceReflexive(a[1..]);
    }
  }

  /** The result of `list.remove` is a subsequence of the original list. */
  lemma {:induction false} RemoveFirstIsSubsequence<T>(q: seq<T>, x: T)
    ensures IsSubsequence(RemoveFirst(q, x), q)
  {
    if |q| == 0 {
    } else if q[0] == x {
      SubsequenceReflexive(q[1..]);
    } else {
      RemoveFirstIsSubsequence(q[1..], x);
      assert ([q[0]] + RemoveFirst(q[1..], x))[1..] == RemoveFirst(q[1..], x);
    }
  }
}
