/** The few sequence queries the engine uses (First with a predicate, Where,
    Distinct().Count() and ToHashSet()), stated once over Dafny sequences. */
module Enumerable {

  /** The index of the first element satisfying p, or |xs| when none does.
      First(p) returns xs[FirstIndex(xs, p)] and throws when the index is |xs|. */
  function FirstIndex<T>(xs: seq<T>, p: T -> bool): (i: nat)
    ensures i <= |xs|
    ensures forall j :: 0 <= j < i ==> !p(xs[j])
    ensures i < |xs| ==> p(xs[i])
  {
    if xs == [] then 0
    else if p(xs[0]) then 0
    else 1 + FirstIndex(xs[1..], p)
  }

  /** The elements satisfying p, in their original order. */
  function Where<T>(xs: seq<T>, p: T -> bool): (r: seq<T>)
    ensures |r| <= |xs|
    ensures forall k :: 0 <= k < |r| ==> p(r[k]) && r[k] in xs
    ensures forall x :: x in xs && p(x) ==> x in r
  {
    if xs == [] then []
    else (if p(xs[0]) then [xs[0]] else []) + Where(xs[1..], p)
  }

  /** The set of the elements of xs: ToHashSet(), and what Distinct() counts. */
  function Elements<T(!new)>(xs: seq<T>): (s: set<T>)
    ensures forall x :: x in s <==> x in xs
  {
    if xs == [] then {} else {xs[0]} + Elements(xs[1..])
  }

  predicate NoDuplicates<T(==)>(xs: seq<T>) {
    forall i, j :: 0 <= i < j < |xs| ==> xs[i] != xs[j]
  }

  /** Where(p) is empty exactly when no element satisfies p. */
  lemma {:induction false} WhereEmpty<T>(xs: seq<T>, p: T -> bool)
    ensures |Where(xs, p)| == 0 <==> forall i :: 0 <= i < |xs| ==> !p(xs[i])
  {
    if xs != [] {
      var rest := xs[1..];
      WhereEmpty(rest, p);
      assert forall i :: 0 < i < |xs| ==> xs[i] == rest[i - 1];
    }
  }

  /** Where(p) holds more than one element exactly when two positions
      satisfy p. */
  lemma {:induction false} WhereSeveral<T>(xs: seq<T>, p: T -> bool)
    ensures |Where(xs, p)| > 1 <==> exists i, j :: 0 <= i < j < |xs| && p(xs[i]) && p(xs[j])
  {
    if xs != [] {
      WhereSeveral(xs[1..], p);
      WhereEmpty(xs[1..], p);
      if p(xs[0]) {
        SeveralWhenHeadMatches(xs, p);
      } else {
        SeveralWhenHeadSkipped(xs, p);
      }
    }
  }

  /** The step of WhereSeveral when the head is kept: one more match
      anywhere in the tail makes two. */
  lemma SeveralWhenHeadMatches<T>(xs: seq<T>, p: T -> bool)
    requires xs != [] && p(xs[0])
    requires |Where(xs[1..], p)| == 0 <==> forall i :: 0 <= i < |xs[1..]| ==> !p(xs[1..][i])
    ensures |Where(xs, p)| > 1 <==> exists i, j :: 0 <= i < j < |xs| && p(xs[i]) && p(xs[j])
  {
    var rest := xs[1..];
    assert forall i :: 0 < i < |xs| ==> xs[i] == rest[i - 1];
    assert Where(xs, p) == [xs[0]] + Where(rest, p);
    if |Where(rest, p)| > 0 {
      var k :| 0 <= k < |rest| && p(rest[k]);
      assert p(xs[0]) && p(xs[k + 1]);
    }
    if exists i, j :: 0 <= i < j < |xs| && p(xs[i]) && p(xs[j]) {
      var i, j :| 0 <= i < j < |xs| && p(xs[i]) && p(xs[j]);
      assert p(rest[j - 1]);
    }
  }

  /** The step of WhereSeveral when the head is dropped: the two matches
      must both lie in the tail. */
  lemma SeveralWhenHeadSkipped<T>(xs: seq<T>, p: T -> bool)
    requires xs != [] && !p(xs[0])
    requires |Where(xs[1..], p)| > 1 <==> exists i, j :: 0 <= i < j < |xs[1..]| && p(xs[1..][i]) && p(xs[1..][j])
    ensures |Where(xs, p)| > 1 <==> exists i, j :: 0 <= i < j < |xs| && p(xs[i]) && p(xs[j])
  {
    assert Where(xs, p) == [] + Where(xs[1..], p) == Where(xs[1..], p);
    MatchingPairsSkipHead(xs, p);
  }

  /** With the head not matching, two matching positions of xs are two
      matching positions of its tail, and back. */
  lemma MatchingPairsSkipHead<T>(xs: seq<T>, p: T -> bool)
    requires xs != [] && !p(xs[0])
    ensures (exists i, j :: 0 <= i < j < |xs| && p(xs[i]) && p(xs[j])) <==>
            (exists i, j :: 0 <= i < j < |xs[1..]| && p(xs[1..][i]) && p(xs[1..][j]))
  {
    var rest := xs[1..];
    if exists i, j :: 0 <= i < j < |xs| && p(xs[i]) && p(xs[j]) {
      var i, j :| 0 <= i < j < |xs| && p(xs[i]) && p(xs[j]);
      assert i > 0;
      assert p(rest[i - 1]) && p(rest[j - 1]);
    }
    if exists i, j :: 0 <= i < j < |rest| && p(rest[i]) && p(rest[j]) {
      var i, j :| 0 <= i < j < |rest| && p(rest[i]) && p(rest[j]);
      assert p(xs[i + 1]) && p(xs[j + 1]);
    }
  }

  /** Distinct().Count() equals Count exactly when no element repeats. */
  lemma {:induction false} DistinctCount<T(!new)>(xs: seq<T>)
    ensures |Elements(xs)| <= |xs|
    ensures |Elements(xs)| == |xs| <==> NoDuplicates(xs)
  {
    if xs != [] {
      var rest := xs[1..];
      DistinctCount(rest);
      if xs[0] in rest {
        HeadRepeated(xs);
      } else {
        HeadFresh(xs);
      }
    }
  }

  lemma HeadRepeated<T(!new)>(xs: seq<T>)
    requires xs != [] && xs[0] in xs[1..]
    ensures Elements(xs) == Elements(xs[1..])
    ensures !NoDuplicates(xs)
  {
  }

  lemma HeadFresh<T(!new)>(xs: seq<T>)
    requires xs != [] && xs[0] !in xs[1..]
    ensures |Elements(xs)| == 1 + |Elements(xs[1..])|
    ensures NoDuplicates(xs) <==> NoDuplicates(xs[1..])
  {
    var rest := xs[1..];
    assert xs[0] !in Elements(rest);
    if NoDuplicates(rest) {
      forall i, j | 0 <= i < j < |xs| ensures xs[i] != xs[j] {
        assert xs[j] == rest[j - 1];
        if i > 0 { assert xs[i] == rest[i - 1]; }
      }
    }
    if NoDuplicates(xs) {
      forall i, j | 0 <= i < j < |rest| ensures rest[i] != rest[j] {
        assert rest[i] == xs[i + 1] && rest[j] == xs[j + 1];
      }
    }
  }
}
