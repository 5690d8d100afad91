/**
 * Order-preserving filtering and reordering of sequences: the shapes of the
 * repository's `append`-in-a-loop filters and of a worker pool that hands
 * back results in completion order.
 */
module Seqs {

  /** The elements of `s` that satisfy `keep`, in their original order. */
  function Filter<T>(s: seq<T>, keep: T -> bool): (r: seq<T>)
    ensures |r| <= |s|
    ensures forall i :: 0 <= i < |r| ==> keep(r[i])
    decreases |s|
  {
    if s == [] then []
    else Filter(s[..|s| - 1], keep) + (if keep(s[|s| - 1]) then [s[|s| - 1]] else [])
  }

  /** An element survives filtering exactly when it occurs in the input and is kept. */
  lemma {:induction false} FilterMembership<T>(s: seq<T>, keep: T -> bool, x: T)
    ensures x in Filter(s, keep) <==> x in s && keep(x)
    decreases |s|
  {
    if s != [] {
      var init := s[..|s| - 1];
      FilterMembership(init, keep, x);
      assert s == init + [s[|s| - 1]];
    }
  }

  /** `a` is `b` with some elements deleted (matched greedily from the end). */
  predicate IsSubsequence<T(==)>(a: seq<T>, b: seq<T>)
    decreases |b|
  {
    if a == [] then true
    else if b == [] then false
    else if a[|a| - 1] == b[|b| - 1] then IsSubsequence(a[..|a| - 1], b[..|b| - 1])
    else IsSubsequence(a, b[..|b| - 1])
  }

  lemma {:induction false} SubsequenceDropLast<T>(a: seq<T>, b: seq<T>)
    requires a != [] && IsSubsequence(a, b)
    ensures IsSubsequence(a[..|a| - 1], b)
    decreases |b|, 0
  {
    var a' := a[..|a| - 1];
    if a' != [] && b != [] {
      var b' := b[..|b| - 1];
      if a[|a| - 1] == b[|b| - 1] {
        SubsequenceExtend(a', b', b[|b| - 1]);
        assert b' + [b[|b| - 1]] == b;
      } else {
        SubsequenceDropLast(a, b');
        SubsequenceExtend(a', b', b[|b| - 1]);
        assert b' + [b[|b| - 1]] == b;
      }
    }
  }

  lemma {:induction false} SubsequenceExtend<T>(a: seq<T>, b: seq<T>, x: T)
    requires IsSubsequence(a, b)
    ensures IsSubsequence(a, b + [x])
    decreases |b|, 1
  {
    var b' := b + [x];
    assert b'[..|b'| - 1] == b;
    if a != [] && a[|a| - 1] == x {
      SubsequenceDropLast(a, b);
    }
  }

  /** Filtering keeps the survivors in their original relative order. */
  lemma {:induction false} FilterIsSubsequence<T>(s: seq<T>, keep: T -> bool)
    ensures IsSubsequence(Filter(s, keep), s)
    decreases |s|
  {
    if s != [] {
      var init, last := s[..|s| - 1], s[|s| - 1];
      FilterIsSubsequence(init, keep);
      var f := Filter(init, keep);
      if keep(last) {
        assert (f + [last])[..|f|] == f;
      } else {
        assert f + [] == f;
        SubsequenceExtend(f, init, last);
        assert init + [last] == s;
      }
    }
  }

  /** How many elements of `s` satisfy `p`. */
  function Count<T>(s: seq<T>, p: T -> bool): (n: nat)
    ensures n <= |s|
    decreases |s|
  {
    if s == [] then 0
    else Count(s[..|s| - 1], p) + (if p(s[|s| - 1]) then 1 else 0)
  }

  /** Nothing is counted exactly when no element satisfies the predicate. */
  lemma {:induction false} CountZero<T>(s: seq<T>, p: T -> bool)
    ensures Count(s, p) == 0 <==> forall i :: 0 <= i < |s| ==> !p(s[i])
    decreases |s|
  {
    if s != [] {
      CountZero(s[..|s| - 1], p);
      if Count(s, p) == 0 {
        forall i | 0 <= i < |s| ensures !p(s[i]) {
          if i < |s| - 1 {
            assert s[i] == s[..|s| - 1][i];
          }
        }
      }
      assert forall i :: 0 <= i < |s| - 1 ==> s[..|s| - 1][i] == s[i];
    }
  }

  /** Counting is additive over concatenation. */
  lemma {:induction false} CountConcat<T>(a: seq<T>, b: seq<T>, p: T -> bool)
    ensures Count(a + b, p) == Count(a, p) + Count(b, p)
    decreases |b|
  {
    if b == [] {
      assert a + b == a;
    } else {
      var b' := b[..|b| - 1];
      assert (a + b)[..|a + b| - 1] == a + b';
      CountConcat(a, b', p);
    }
  }

  /** Counting one more element adds one exactly when it satisfies the predicate. */
  lemma CountSnoc<T>(s: seq<T>, x: T, p: T -> bool)
    ensures Count(s + [x], p) == Count(s, p) + (if p(x) then 1 else 0)
  {
    assert (s + [x])[..|s|] == s;
  }

  lemma TakeSnoc<T>(s: seq<T>, m: nat)
    requires m < |s|
    ensures s[..m + 1] == s[..m] + [s[m]]
  {
  }

  /** The count depends only on the multiset of elements, not on their order. */
  lemma {:induction false} CountRespectsMultiset<T>(a: seq<T>, b: seq<T>, p: T -> bool)
    requires multiset(a) == multiset(b)
    ensures Count(a, p) == Count(b, p)
    decreases |a|
  {
    if a == [] {
      assert |b| == |multiset(b)| == 0;
    } else {
      var x := a[|a| - 1];
      var a' := a[..|a| - 1];
      var j := FindIn(b, x);
      var b' := b[..j] + b[j + 1..];
      RemoveAtMultiset(a, |a| - 1);
      assert a[..|a| - 1] + a[|a|..] == a';
      RemoveAtMultiset(b, j);
      MultisetCancel(multiset(a'), multiset(b'), x, multiset(a));
      CountRespectsMultiset(a', b', p);
      assert b == b[..j] + ([x] + b[j + 1..]);
      CountConcat(b[..j], [x] + b[j + 1..], p);
      CountConcat([x], b[j + 1..], p);
      CountConcat(b[..j], b[j + 1..], p);
      assert [x][..0] == [];
    }
  }

  // ---------------------------------------------------------------------
  // Reordering by completion
  // ---------------------------------------------------------------------

  /** The indices 0, 1, ..., n-1 in order. */
  function Range(n: nat): (r: seq<nat>)
    ensures |r| == n
    ensures forall i :: 0 <= i < n ==> r[i] == i
  {
    seq(n, i => i)
  }

  /** `order` lists every index below `n` exactly once, in some order. */
  predicate IsOrdering(order: seq<nat>, n: nat)
  {
    multiset(order) == multiset(Range(n))
  }

  predicate InRange(order: seq<nat>, n: nat)
  {
    forall k :: 0 <= k < |order| ==> order[k] < n
  }

  /** The elements of `s` at the positions `order` names, in that order. */
  function Pick<T>(s: seq<T>, order: seq<nat>): (r: seq<T>)
    requires InRange(order, |s|)
    ensures |r| == |order|
    ensures forall k :: 0 <= k < |order| ==> r[k] == s[order[k]]
  {
    seq(|order|, k requires 0 <= k < |order| => s[order[k]])
  }

  /** Picking one more position appends that element. */
  lemma PickSnoc<T>(s: seq<T>, order: seq<nat>, x: nat)
    requires InRange(order, |s|) && x < |s|
    ensures InRange(order + [x], |s|)
    ensures Pick(s, order + [x]) == Pick(s, order) + [s[x]]
  {
    assert InRange(order + [x], |s|) by {
      forall k | 0 <= k < |order + [x]| ensures (order + [x])[k] < |s| {
        if k < |order| {
          assert (order + [x])[k] == order[k];
        }
      }
    }
    var r, r' := Pick(s, order + [x]), Pick(s, order) + [s[x]];
    assert |r| == |r'|;
    forall k | 0 <= k < |r| ensures r[k] == r'[k] {
      if k < |order| {
        assert (order + [x])[k] == order[k];
      }
    }
  }

  /** An ordering of n positions has n entries, each below n. */
  lemma OrderingInRange(order: seq<nat>, n: nat)
    requires IsOrdering(order, n)
    ensures |order| == n && InRange(order, n)
  {
    assert |order| == |multiset(order)| == |multiset(Range(n))| == n;
    forall k | 0 <= k < |order| ensures order[k] < n {
      assert order[k] in multiset(order);
    }
  }

  lemma {:induction false} RangeCountsOnce(n: nat, x: nat)
    ensures multiset(Range(n))[x] == if x < n then 1 else 0
  {
    if n > 0 {
      RangeCountsOnce(n - 1, x);
      assert Range(n) == Range(n - 1) + [n - 1];
    }
  }

  /** An ordering names no position twice. */
  lemma OrderingDistinct(order: seq<nat>, n: nat)
    requires IsOrdering(order, n)
    ensures forall j, k :: 0 <= j < k < |order| ==> order[j] != order[k]
  {
    forall j, k | 0 <= j < k < |order| ensures order[j] != order[k] {
      if order[j] == order[k] {
        RepeatCountsTwice(order, j, k);
        RangeCountsOnce(n, order[j]);
        assert false;
      }
    }
  }

  lemma RepeatCountsTwice<T>(s: seq<T>, j: nat, k: nat)
    requires j < k < |s| && s[j] == s[k]
    ensures multiset(s)[s[j]] >= 2
  {
    assert s == s[..k] + s[k..];
    assert s[j] in s[..k];
    assert s[k] in s[k..];
    assert multiset(s)[s[j]] == multiset(s[..k])[s[j]] + multiset(s[k..])[s[j]];
  }

  /** Removing position `j` takes exactly one copy of `b[j]` out of the multiset. */
  lemma RemoveAtMultiset<T>(b: seq<T>, j: nat)
    requires j < |b|
    ensures multiset(b) == multiset(b[..j] + b[j + 1..]) + multiset{b[j]}
  {
    assert b == b[..j] + [b[j]] + b[j + 1..];
  }

  lemma RemoveAtInRange(b: seq<nat>, j: nat, n: nat)
    requires j < |b| && InRange(b, n)
    ensures InRange(b[..j] + b[j + 1..], n)
  {
    var b' := b[..j] + b[j + 1..];
    forall k | 0 <= k < |b'| ensures b'[k] < n {
      if k < j {
        assert b'[k] == b[k];
      } else {
        assert b'[k] == b[k + 1];
      }
    }
  }

  lemma PickRemoveAt<T>(s: seq<T>, b: seq<nat>, j: nat, rest: seq<nat>)
    requires j < |b| && InRange(b, |s|) && rest == b[..j] + b[j + 1..]
    ensures InRange(rest, |s|)
    ensures multiset(Pick(s, b)) == multiset(Pick(s, rest)) + multiset{s[b[j]]}
  {
    RemoveAtInRange(b, j, |s|);
    var p, q := Pick(s, b), Pick(s, rest);
    assert p == p[..j] + [s[b[j]]] + p[j + 1..];
    assert q == p[..j] + p[j + 1..];
  }

  lemma MultisetCancel<T>(p: multiset<T>, q: multiset<T>, x: T, whole: multiset<T>)
    requires p + multiset{x} == whole && q + multiset{x} == whole
    ensures p == q
  {
    forall y ensures p[y] == q[y] {
      assert (p + multiset{x})[y] == (q + multiset{x})[y];
    }
  }

  lemma ReplaceOne<T>(p: multiset<T>, p': multiset<T>, q: multiset<T>, q': multiset<T>, y: T)
    requires p == p' + multiset{y} && q == q' + multiset{y} && p' == q'
    ensures p == q
  {
  }

  /** Some position of `b` holds `x` when the multiset of `b` contains it. */
  lemma FindIn<T>(b: seq<T>, x: T) returns (j: nat)
    requires x in multiset(b)
    ensures j < |b| && b[j] == x
  {
    assert x in b;
    j :| 0 <= j < |b| && b[j] == x;
  }

  /** Picking by two rearrangements of the same positions yields the same elements. */
  lemma {:induction false} PickRespectsMultiset<T>(s: seq<T>, a: seq<nat>, b: seq<nat>)
    requires InRange(a, |s|) && InRange(b, |s|)
    requires multiset(a) == multiset(b)
    ensures multiset(Pick(s, a)) == multiset(Pick(s, b))
    decreases |a|
  {
    if a == [] {
      assert |b| == |multiset(b)| == 0;
    } else {
      var x := a[0];
      var j := FindIn(b, x);
      var a', b' := a[..0] + a[1..], b[..j] + b[j + 1..];
      RemoveAtMultiset(a, 0);
      RemoveAtMultiset(b, j);
      MultisetCancel(multiset(a'), multiset(b'), x, multiset(a));
      PickRemoveAt(s, a, 0, a');
      PickRemoveAt(s, b, j, b');
      var pa, pa', pb, pb' := Pick(s, a), Pick(s, a'), Pick(s, b), Pick(s, b');
      PickRespectsMultiset(s, a', b');
      ReplaceOne(multiset(pa), multiset(pa'), multiset(pb), multiset(pb'), s[x]);
    }
  }

  /** Reading results back in any completion order loses and duplicates nothing. */
  lemma PickOrderingIsPermutation<T>(s: seq<T>, order: seq<nat>)
    requires IsOrdering(order, |s|)
    ensures InRange(order, |s|)
    ensures multiset(Pick(s, order)) == multiset(s)
  {
    OrderingInRange(order, |s|);
    PickRespectsMultiset(s, order, Range(|s|));
    assert Pick(s, Range(|s|)) == s;
  }
}
