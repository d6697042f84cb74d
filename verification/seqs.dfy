/** Sequence helpers shared by the cart and the catalog query.

    `Keep` is JavaScript's `Array.prototype.filter`: it keeps the elements that
    satisfy a predicate, in their original order. `Positions` names the indices
    it keeps, so that "an order-preserving subsequence holding exactly the
    matching elements" can be stated and proved once. */
module Seqs {

  /** The elements of `s` satisfying `p`, in their original order. */
  function Keep<T>(s: seq<T>, p: T -> bool): (r: seq<T>)
    ensures |r| <= |s|
  {
    if |s| == 0 then []
    else if p(s[0]) then [s[0]] + Keep(s[1..], p)
    else Keep(s[1..], p)
  }

  /** The indices `i` with `from <= i < |s|` whose elements satisfy `p`, in
      ascending order. */
  function PositionsFrom<T>(s: seq<T>, p: T -> bool, from: nat): (r: seq<nat>)
    requires from <= |s|
    ensures forall k :: 0 <= k < |r| ==> from <= r[k] < |s| && p(s[r[k]])
    ensures forall k, l :: 0 <= k < l < |r| ==> r[k] < r[l]
    decreases |s| - from
  {
    if from == |s| then []
    else
      var rest := PositionsFrom(s, p, from + 1);
      if p(s[from]) then [from] + rest else rest
  }

  /** Every index at or after `from` whose element satisfies `p` is listed. */
  lemma {:induction false} PositionsFromComplete<T>(s: seq<T>, p: T -> bool, from: nat, i: nat)
    requires from <= i < |s| && p(s[i])
    ensures i in PositionsFrom(s, p, from)
    decreases |s| - from
  {
    if from < i {
      PositionsFromComplete(s, p, from + 1, i);
    }
  }

  /** The indices of `s` whose elements satisfy `p`, in ascending order. */
  function Positions<T>(s: seq<T>, p: T -> bool): seq<nat>
  {
    PositionsFrom(s, p, 0)
  }

  lemma {:induction false} KeepFrom<T>(s: seq<T>, p: T -> bool, from: nat)
    requires from <= |s|
    ensures |Keep(s[from..], p)| == |PositionsFrom(s, p, from)|
    ensures forall k :: 0 <= k < |Keep(s[from..], p)| ==>
      Keep(s[from..], p)[k] == s[PositionsFrom(s, p, from)[k]]
    decreases |s| - from
  {
    if from < |s| {
      KeepFrom(s, p, from + 1);
      var t := s[from..];
      assert t[0] == s[from] && t[1..] == s[from + 1..];
      var rest := Keep(s[from + 1..], p);
      var pos := PositionsFrom(s, p, from + 1);
      if p(s[from]) {
        assert Keep(t, p) == [s[from]] + rest;
        assert PositionsFrom(s, p, from) == [from] + pos;
        forall k | 1 <= k < |Keep(t, p)|
          ensures Keep(t, p)[k] == s[PositionsFrom(s, p, from)[k]]
        {
          assert Keep(t, p)[k] == rest[k - 1];
        }
      } else {
        assert Keep(t, p) == rest;
        assert PositionsFrom(s, p, from) == pos;
      }
    }
  }

  /** `Keep(s, p)` is exactly `s` read at `Positions(s, p)`: an order-preserving
      subsequence that holds every element satisfying `p` and nothing else. */
  lemma KeepIsOrderedSubsequence<T>(s: seq<T>, p: T -> bool)
    ensures |Keep(s, p)| == |Positions(s, p)|
    ensures forall k :: 0 <= k < |Keep(s, p)| ==> Keep(s, p)[k] == s[Positions(s, p)[k]]
  {
    KeepFrom(s, p, 0);
    assert s[0..] == s;
  }

  /** An element is kept iff it occurs in `s` and satisfies `p`. */
  lemma KeepMembers<T>(s: seq<T>, p: T -> bool, x: T)
    ensures x in Keep(s, p) <==> x in s && p(x)
  {
    KeepIsOrderedSubsequence(s, p);
    if x in s && p(x) {
      var i :| 0 <= i < |s| && s[i] == x;
      PositionsExact(s, p, i);
      var k :| 0 <= k < |Positions(s, p)| && Positions(s, p)[k] == i;
      assert Keep(s, p)[k] == x;
    }
    if x in Keep(s, p) {
      var k :| 0 <= k < |Keep(s, p)| && Keep(s, p)[k] == x;
      assert x == s[Positions(s, p)[k]];
    }
  }

  /** An index is among the positions iff its element satisfies `p`. */
  lemma PositionsExact<T>(s: seq<T>, p: T -> bool, i: int)
    ensures i in Positions(s, p) <==> 0 <= i < |s| && p(s[i])
  {
    if 0 <= i < |s| && p(s[i]) {
      PositionsFromComplete(s, p, 0, i);
    }
  }

  /** When every element satisfies `p`, keeping is the identity. */
  lemma {:induction false} KeepAll<T>(s: seq<T>, p: T -> bool)
    requires forall i :: 0 <= i < |s| ==> p(s[i])
    ensures Keep(s, p) == s
  {
    if |s| > 0 {
      KeepAll(s[1..], p);
      assert s == [s[0]] + s[1..];
    }
  }

  /** Keeping distributes over concatenation. */
  lemma {:induction false} KeepConcat<T>(a: seq<T>, b: seq<T>, p: T -> bool)
    ensures Keep(a + b, p) == Keep(a, p) + Keep(b, p)
  {
    if |a| == 0 {
      assert a + b == b;
    } else {
      assert (a + b)[1..] == a[1..] + b;
      KeepConcat(a[1..], b, p);
    }
  }

  /** `s` without the element at `k`: JavaScript's `filter` dropping one
      position. */
  function Delete<T>(s: seq<T>, k: int): (r: seq<T>)
    requires 0 <= k < |s|
    ensures |r| == |s| - 1
    ensures forall i :: 0 <= i < |r| ==> r[i] == if i < k then s[i] else s[i + 1]
  {
    s[..k] + s[k + 1..]
  }

  /** A sequence is its prefix, the element at `k`, and its suffix. */
  lemma SplitAt<T>(s: seq<T>, k: int)
    requires 0 <= k < |s|
    ensures s == s[..k] + ([s[k]] + s[k + 1..])
  {
  }

  /** Predicates that agree on every element keep the same elements. */
  lemma {:induction false} KeepAgreeing<T>(s: seq<T>, p: T -> bool, q: T -> bool)
    requires forall i :: 0 <= i < |s| ==> p(s[i]) == q(s[i])
    ensures Keep(s, p) == Keep(s, q)
  {
    if |s| > 0 {
      KeepAgreeing(s[1..], p, q);
    }
  }

  /** A weaker predicate keeps at least as many elements. */
  lemma {:induction false} KeepMonotone<T>(s: seq<T>, p: T -> bool, q: T -> bool)
    requires forall x :: p(x) ==> q(x)
    ensures |Keep(s, p)| <= |Keep(s, q)|
  {
    if |s| > 0 {
      KeepMonotone(s[1..], p, q);
    }
  }
}
