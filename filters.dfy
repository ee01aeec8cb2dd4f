/**
  Order-preserving selections from a sequence: what a boolean mask over the
  rows of a table keeps, and the positions it keeps them from.
*/
module Filters {

  /** The elements of `s` that satisfy `p`, in their order. */
  function Filter<T>(s: seq<T>, p: T -> bool): seq<T>
  {
    if s == [] then []
    else Filter(s[..|s| - 1], p) + (if p(s[|s| - 1]) then [s[|s| - 1]] else [])
  }

  /** The indices of the elements of `s` that satisfy `p`, in increasing order. */
  function Positions<T>(s: seq<T>, p: T -> bool): (ps: seq<nat>)
    ensures forall k :: 0 <= k < |ps| ==> ps[k] < |s|
  {
    if s == [] then []
    else Positions(s[..|s| - 1], p) + (if p(s[|s| - 1]) then [|s| - 1] else [])
  }

  predicate Increasing(ps: seq<nat>) {
    forall a, b :: 0 <= a < b < |ps| ==> ps[a] < ps[b]
  }

  /** The filter keeps exactly the elements at `Positions`, each in its place
      in the original order, and a position is kept exactly when its element
      satisfies `p`. */
  lemma {:induction false} FilterAt<T>(s: seq<T>, p: T -> bool)
    ensures |Filter(s, p)| == |Positions(s, p)|
    ensures forall k :: 0 <= k < |Filter(s, p)| ==> Filter(s, p)[k] == s[Positions(s, p)[k]]
    ensures Increasing(Positions(s, p))
    ensures forall j :: 0 <= j < |s| ==> (j in Positions(s, p) <==> p(s[j]))
    decreases |s|
  {
    if s != [] {
      var init := s[..|s| - 1];
      FilterAt(init, p);
      var f, ps := Filter(init, p), Positions(init, p);
      assert forall k :: 0 <= k < |ps| ==> ps[k] < |init|;
      assert forall j :: 0 <= j < |init| ==> init[j] == s[j];
      if p(s[|s| - 1]) {
        assert Filter(s, p) == f + [s[|s| - 1]];
        assert Positions(s, p) == ps + [|s| - 1];
      } else {
        assert Filter(s, p) == f;
        assert Positions(s, p) == ps;
      }
    }
  }

  /** An element is kept exactly when it occurs in `s` and satisfies `p`. */
  lemma {:induction false} FilterMember<T>(s: seq<T>, p: T -> bool, x: T)
    ensures x in Filter(s, p) <==> x in s && p(x)
    decreases |s|
  {
    if s != [] {
      var init := s[..|s| - 1];
      FilterMember(init, p, x);
      assert s == init + [s[|s| - 1]];
    }
  }

  /** Each element that satisfies `p` is kept as often as it occurs; the others
      are dropped entirely. */
  lemma {:induction false} FilterCount<T>(s: seq<T>, p: T -> bool, x: T)
    ensures multiset(Filter(s, p))[x] == if p(x) then multiset(s)[x] else 0
    decreases |s|
  {
    if s != [] {
      var init := s[..|s| - 1];
      FilterCount(init, p, x);
      assert s == init + [s[|s| - 1]];
    }
  }

  /** Filtering by a weaker condition first changes nothing. */
  lemma {:induction false} FilterNarrow<T>(s: seq<T>, p: T -> bool, q: T -> bool)
    requires forall x :: q(x) ==> p(x)
    ensures Filter(Filter(s, p), q) == Filter(s, q)
    decreases |s|
  {
    if s != [] {
      var init, last := s[..|s| - 1], s[|s| - 1];
      FilterNarrow(init, p, q);
      var f, fp := Filter(init, p), Filter(s, p);
      if p(last) {
        assert fp == f + [last];
        assert fp[..|fp| - 1] == f && fp[|fp| - 1] == last;
      } else {
        assert fp == f && !q(last);
      }
    }
  }

  /** Nothing is kept exactly when no element satisfies `p`. */
  lemma {:induction false} FilterEmptyIff<T>(s: seq<T>, p: T -> bool)
    ensures Filter(s, p) == [] <==> forall j :: 0 <= j < |s| ==> !p(s[j])
  {
    FilterAt(s, p);
    if Filter(s, p) != [] {
      var j := Positions(s, p)[0];
      assert p(s[j]);
    } else {
      forall j | 0 <= j < |s| ensures !p(s[j]) {
        assert j !in Positions(s, p);
      }
    }
  }
}
