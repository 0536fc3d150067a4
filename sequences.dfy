/**
 * Sequence operations the dashboard relies on: `slice(0, n)`, de-duplication
 * with first occurrence winning, and the position of the first occurrence.
 */
module Sequences {

  function Min(a: int, b: int): int
  {
    if a <= b then a else b
  }

  /** `s.slice(0, n)` for a non-negative `n`: the first `n` elements, or all of them. */
  function Take<T>(s: seq<T>, n: nat): (r: seq<T>)
    ensures |r| == Min(n, |s|)
    ensures r == s[..|r|]
  {
    if n <= |s| then s[..n] else s
  }

  predicate NoDuplicates<T(==)>(s: seq<T>)
  {
    forall i, j :: 0 <= i < j < |s| ==> s[i] != s[j]
  }

  /** The index of the first occurrence of `x` in `s`. */
  function FirstIndex<T(==)>(s: seq<T>, x: T): (r: nat)
    requires x in s
    ensures r < |s| && s[r] == x
    ensures forall j :: 0 <= j < r ==> s[j] != x
  {
    if s[0] == x then 0 else 1 + FirstIndex(s[1..], x)
  }

  /** The first index of `x` in `s`, or `|s|` when `x` does not occur. */
  function Position<T(==)>(s: seq<T>, x: T): (r: nat)
    ensures r <= |s|
    ensures r < |s| <==> x in s
    ensures x in s ==> r == FirstIndex(s, x)
  {
    if x in s then FirstIndex(s, x) else |s|
  }

  /**
   * The distinct elements of `s`, each kept where it first occurs: the keys a
   * JavaScript object ends up with when the elements of `s` are assigned to it
   * in turn.
   */
  function Distinct<T(==,!new)>(s: seq<T>): (d: seq<T>)
    ensures forall x :: x in d <==> x in s
    ensures NoDuplicates(d)
  {
    if s == [] then []
    else
      var d := Distinct(s[..|s| - 1]);
      if s[|s| - 1] in d then d else d + [s[|s| - 1]]
  }

  lemma DistinctSnoc<T(!new)>(s: seq<T>, x: T)
    ensures Distinct(s + [x]) == if x in s then Distinct(s) else Distinct(s) + [x]
  {
    assert (s + [x])[..|s|] == s;
  }

  /** An index before which a value does not occur is its first index. */
  lemma FirstIndexAt<T>(s: seq<T>, i: nat)
    requires i < |s|
    requires forall j :: 0 <= j < i ==> s[j] != s[i]
    ensures FirstIndex(s, s[i]) == i
  {
    var r := FirstIndex(s, s[i]);
    assert r <= i;
  }

  /** The first occurrence of `x` does not move when elements are appended. */
  lemma FirstIndexAppend<T>(s: seq<T>, t: seq<T>, x: T)
    requires x in s
    ensures FirstIndex(s + t, x) == FirstIndex(s, x)
  {
    var a, b := FirstIndex(s, x), FirstIndex(s + t, x);
    assert (s + t)[a] == x;
    assert b <= a;
    assert s[b] == (s + t)[b];
  }

  /** `Distinct(s)` lists its elements in the order in which they first occur in `s`. */
  lemma {:induction false} DistinctOrder<T(!new)>(s: seq<T>)
    ensures forall p, q :: 0 <= p < q < |Distinct(s)| ==>
      FirstIndex(s, Distinct(s)[p]) < FirstIndex(s, Distinct(s)[q])
  {
    if s != [] {
      var s', x := s[..|s| - 1], s[|s| - 1];
      assert s == s' + [x];
      DistinctOrder(s');
      DistinctSnoc(s', x);
      var d, d' := Distinct(s), Distinct(s');
      forall p, q | 0 <= p < q < |d|
        ensures FirstIndex(s, d[p]) < FirstIndex(s, d[q])
      {
        assert d[p] == d'[p] && d'[p] in s';
        FirstIndexAppend(s', [x], d[p]);
        if q < |d'| {
          assert d[q] == d'[q] && d'[q] in s';
          FirstIndexAppend(s', [x], d[q]);
        } else {
          assert d[q] == x && x !in s';
          FirstIndexAt(s, |s'|);
        }
      }
    }
  }

  lemma {:induction false} NoDuplicatesCard<T>(s: seq<T>)
    requires NoDuplicates(s)
    ensures |set x | x in s| == |s|
  {
    if s != [] {
      NoDuplicatesCard(s[1..]);
      assert (set x | x in s) == {s[0]} + (set x | x in s[1..]);
      assert s[0] !in s[1..];
    }
  }

  /** `Distinct(s)` has one element per distinct value of `s`. */
  lemma DistinctCard<T(!new)>(s: seq<T>)
    ensures |Distinct(s)| == |set x | x in s|
  {
    NoDuplicatesCard(Distinct(s));
    assert (set x | x in Distinct(s)) == (set x | x in s);
  }

  /** Appending elements only ever adds keys at the end. */
  lemma {:induction false} DistinctAppend<T(!new)>(s: seq<T>, t: seq<T>)
    ensures Distinct(s) <= Distinct(s + t)
    decreases |t|
  {
    if t == [] {
      assert s + t == s;
    } else {
      var t', y := t[..|t| - 1], t[|t| - 1];
      assert s + t == (s + t') + [y];
      DistinctAppend(s, t');
      DistinctSnoc(s + t', y);
    }
  }

  /** Appending elements that already occur changes nothing. */
  lemma {:induction false} DistinctAbsorbs<T(!new)>(s: seq<T>, t: seq<T>)
    requires forall x :: x in t ==> x in s
    ensures Distinct(s + t) == Distinct(s)
    decreases |t|
  {
    if t == [] {
      assert s + t == s;
    } else {
      var t', y := t[..|t| - 1], t[|t| - 1];
      assert s + t == (s + t') + [y];
      assert y in t && forall x :: x in t' ==> x in t;
      DistinctAbsorbs(s, t');
      DistinctSnoc(s + t', y);
    }
  }
}
