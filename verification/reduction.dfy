/**
 The three-argument `simd_min` and `simd_max` are the right fold of the two-argument ones over
 three vectors. This module extends that fold to any non-empty list of vectors. The fold's contract
 makes it the component-wise minimum (maximum) of the list; the lemmas show that it splits over
 concatenation and does not depend on the order of the vectors.
 */
module Reduction {
  import opened Simd
  import opened SimdLA

  /** `simd_min(v0, simd_min(v1, ... simd_min(v(n-2), v(n-1))))`. */
  function MinOf(vs: seq<Vec3>): (r: Vec3)
    requires |vs| > 0
    ensures forall i :: 0 <= i < |vs| ==> r.LessEq(vs[i])
    ensures exists i :: 0 <= i < |vs| && r.x == vs[i].x
    ensures exists i :: 0 <= i < |vs| && r.y == vs[i].y
    ensures exists i :: 0 <= i < |vs| && r.z == vs[i].z
  {
    if |vs| == 1 then vs[0] else VecMin(vs[0], MinOf(vs[1..]))
  }

  /** `simd_max(v0, simd_max(v1, ... simd_max(v(n-2), v(n-1))))`. */
  function MaxOf(vs: seq<Vec3>): (r: Vec3)
    requires |vs| > 0
    ensures forall i :: 0 <= i < |vs| ==> vs[i].LessEq(r)
    ensures exists i :: 0 <= i < |vs| && r.x == vs[i].x
    ensures exists i :: 0 <= i < |vs| && r.y == vs[i].y
    ensures exists i :: 0 <= i < |vs| && r.z == vs[i].z
  {
    if |vs| == 1 then vs[0] else VecMax(vs[0], MaxOf(vs[1..]))
  }

  /** The three-argument `simd_min` is the fold over its three arguments. */
  lemma VecMin3IsMinOf(a: Vec3, b: Vec3, c: Vec3)
    ensures VecMin3(a, b, c) == MinOf([a, b, c])
  {
    assert [a, b, c][1..] == [b, c];
    assert [b, c][1..] == [c];
  }

  /** The three-argument `simd_max` is the fold over its three arguments. */
  lemma VecMax3IsMaxOf(a: Vec3, b: Vec3, c: Vec3)
    ensures VecMax3(a, b, c) == MaxOf([a, b, c])
  {
    assert [a, b, c][1..] == [b, c];
    assert [b, c][1..] == [c];
  }

  /** A vector below every element of the list is below their minimum. */
  lemma MinOfIsGreatestLowerBound(vs: seq<Vec3>, v: Vec3)
    requires |vs| > 0
    ensures v.LessEq(MinOf(vs)) <==> forall i :: 0 <= i < |vs| ==> v.LessEq(vs[i])
  {
  }

  /** A vector above every element of the list is above their maximum. */
  lemma MaxOfIsLeastUpperBound(vs: seq<Vec3>, v: Vec3)
    requires |vs| > 0
    ensures MaxOf(vs).LessEq(v) <==> forall i :: 0 <= i < |vs| ==> vs[i].LessEq(v)
  {
  }

  /** The minimum of a concatenation is the minimum of the two parts' minima. */
  lemma {:induction false} MinOfAppend(s: seq<Vec3>, t: seq<Vec3>)
    requires |s| > 0 && |t| > 0
    ensures MinOf(s + t) == VecMin(MinOf(s), MinOf(t))
    decreases |s|
  {
    if |s| == 1 {
      assert (s + t)[1..] == t;
    } else {
      assert (s + t)[1..] == s[1..] + t;
      MinOfAppend(s[1..], t);
      VecMinAssociative(s[0], MinOf(s[1..]), MinOf(t));
    }
  }

  /** The maximum of a concatenation is the maximum of the two parts' maxima. */
  lemma {:induction false} MaxOfAppend(s: seq<Vec3>, t: seq<Vec3>)
    requires |s| > 0 && |t| > 0
    ensures MaxOf(s + t) == VecMax(MaxOf(s), MaxOf(t))
    decreases |s|
  {
    if |s| == 1 {
      assert (s + t)[1..] == t;
    } else {
      assert (s + t)[1..] == s[1..] + t;
      MaxOfAppend(s[1..], t);
      VecMaxAssociative(s[0], MaxOf(s[1..]), MaxOf(t));
    }
  }

  /** Reordering (or repeating) the vectors does not change their minimum: it only depends on
      which vectors occur. */
  lemma MinOfSameElements(s: seq<Vec3>, t: seq<Vec3>)
    requires |s| > 0 && |t| > 0
    requires forall i :: 0 <= i < |s| ==> s[i] in t
    requires forall j :: 0 <= j < |t| ==> t[j] in s
    ensures MinOf(s) == MinOf(t)
  {
    var ms, mt := MinOf(s), MinOf(t);
    forall j | 0 <= j < |t|
      ensures ms.LessEq(t[j])
    {
      var i :| 0 <= i < |s| && s[i] == t[j];
    }
    forall i | 0 <= i < |s|
      ensures mt.LessEq(s[i])
    {
      var j :| 0 <= j < |t| && t[j] == s[i];
    }
  }

  /** Reordering (or repeating) the vectors does not change their maximum. */
  lemma MaxOfSameElements(s: seq<Vec3>, t: seq<Vec3>)
    requires |s| > 0 && |t| > 0
    requires forall i :: 0 <= i < |s| ==> s[i] in t
    requires forall j :: 0 <= j < |t| ==> t[j] in s
    ensures MaxOf(s) == MaxOf(t)
  {
    var ms, mt := MaxOf(s), MaxOf(t);
    forall j | 0 <= j < |t|
      ensures t[j].LessEq(ms)
    {
      var i :| 0 <= i < |s| && s[i] == t[j];
    }
    forall i | 0 <= i < |s|
      ensures s[i].LessEq(mt)
    {
      var j :| 0 <= j < |t| && t[j] == s[i];
    }
  }

  /** In particular the fold gives the same result for any permutation of its arguments. */
  lemma MinOfPermutation(s: seq<Vec3>, t: seq<Vec3>)
    requires |s| > 0 && |t| > 0 && multiset(s) == multiset(t)
    ensures MinOf(s) == MinOf(t)
  {
    PermutationSameElements(s, t);
    MinOfSameElements(s, t);
  }

  lemma MaxOfPermutation(s: seq<Vec3>, t: seq<Vec3>)
    requires |s| > 0 && |t| > 0 && multiset(s) == multiset(t)
    ensures MaxOf(s) == MaxOf(t)
  {
    PermutationSameElements(s, t);
    MaxOfSameElements(s, t);
  }

  lemma PermutationSameElements(s: seq<Vec3>, t: seq<Vec3>)
    requires multiset(s) == multiset(t)
    ensures |t| == |s|
    ensures forall i :: 0 <= i < |s| ==> s[i] in t
    ensures forall j :: 0 <= j < |t| ==> t[j] in s
  {
    assert |t| == |multiset(t)| == |multiset(s)| == |s|;
    forall i | 0 <= i < |s|
      ensures s[i] in t
    {
      assert s[i] in multiset(s);
    }
    forall j | 0 <= j < |t|
      ensures t[j] in s
    {
      assert t[j] in multiset(t);
    }
  }
}
