/**
 * The ranking step of `ask`: the scored candidates sorted by descending similarity
 * (`sortByDesc('similarity')`) and cut to the first k (`take(k)`). The order among equal scores is
 * left open: nothing below depends on it.
 */
module Ranking {

  /** A candidate with the similarity the controller attached to it. */
  datatype Scored<T> = Scored(item: T, similarity: real)

  ghost predicate Descending<T>(s: seq<Scored<T>>)
  {
    forall i, j :: 0 <= i < j < |s| ==> s[i].similarity >= s[j].similarity
  }

  /** Putting an element no lower than the head in front of a descending list keeps it descending. */
  lemma ConsDescending<T>(h: Scored<T>, t: seq<Scored<T>>)
    requires Descending(t)
    requires t == [] || t[0].similarity <= h.similarity
    ensures Descending([h] + t)
  {
    var r := [h] + t;
    forall i, j | 0 <= i < j < |r| ensures r[i].similarity >= r[j].similarity {
      if i == 0 && j > 1 {
        assert r[j] == t[j - 1] && t[0].similarity >= t[j - 1].similarity;
      }
    }
  }

  /** Inserting into a descending list before the first element that does not score higher. */
  function Insert<T>(x: Scored<T>, s: seq<Scored<T>>): (r: seq<Scored<T>>)
    requires Descending(s)
    ensures |r| == |s| + 1
    ensures r[0] == x || (s != [] && r[0] == s[0])
    ensures Descending(r)
    ensures multiset(r) == multiset(s) + multiset{x}
    decreases |s|
  {
    if s == [] then [x]
    else if x.similarity >= s[0].similarity then
      ConsDescending(x, s);
      [x] + s
    else
      assert s == [s[0]] + s[1..];
      assert Descending(s[1..]) by {
        forall i, j | 0 <= i < j < |s| - 1 ensures s[1..][i].similarity >= s[1..][j].similarity {
          assert s[1..][i] == s[i + 1] && s[1..][j] == s[j + 1];
        }
      }
      var rest := Insert(x, s[1..]);
      assert |s| > 1 ==> s[1].similarity <= s[0].similarity;
      ConsDescending(s[0], rest);
      [s[0]] + rest
  }

  /** The candidates in descending order of similarity: a permutation of them. */
  function SortDesc<T>(s: seq<Scored<T>>): (r: seq<Scored<T>>)
    ensures |r| == |s|
    ensures Descending(r)
    ensures multiset(r) == multiset(s)
    decreases |s|
  {
    if s == [] then []
    else
      assert s == [s[0]] + s[1..];
      Insert(s[0], SortDesc(s[1..]))
  }

  function Min(a: nat, b: nat): nat
  {
    if a <= b then a else b
  }

  /** What a cut leaves out is, as a multiset, the part after the cut. */
  lemma CutRemainder<T>(sorted: seq<Scored<T>>, n: nat)
    requires n <= |sorted|
    ensures multiset(sorted) - multiset(sorted[..n]) == multiset(sorted[n..])
  {
    assert sorted == sorted[..n] + sorted[n..];
  }

  /** In a descending list, nothing after a cut scores above anything before it. */
  lemma CutOrder<T>(sorted: seq<Scored<T>>, n: nat)
    requires Descending(sorted) && n <= |sorted|
    ensures forall x, y :: x in sorted[n..] && y in sorted[..n] ==> x.similarity <= y.similarity
  {
    forall x: Scored<T>, y: Scored<T> | x in sorted[n..] && y in sorted[..n]
      ensures x.similarity <= y.similarity
    {
      var j :| 0 <= j < |sorted| - n && sorted[n..][j] == x;
      var i :| 0 <= i < n && sorted[..n][i] == y;
      assert sorted[n + j] == x && sorted[i] == y;
    }
  }

  /** Cutting a descending list: nothing left out scores above anything kept. */
  lemma CutDescending<T>(sorted: seq<Scored<T>>, n: nat)
    requires Descending(sorted) && n <= |sorted|
    ensures forall x, y :: x in multiset(sorted) - multiset(sorted[..n]) && y in sorted[..n] ==> x.similarity <= y.similarity
  {
    CutRemainder(sorted, n);
    CutOrder(sorted, n);
    forall x: Scored<T>, y: Scored<T> | x in multiset(sorted) - multiset(sorted[..n]) && y in sorted[..n]
      ensures x.similarity <= y.similarity
    {
      assert x in multiset(sorted[n..]);
      assert x in sorted[n..];
    }
  }

  /**
   * `sortByDesc('similarity')->take(k)`: min(k, n) of the candidates, drawn from them, in
   * non-increasing order, and no candidate left out scores above one taken.
   */
  function TopK<T>(s: seq<Scored<T>>, k: nat): (r: seq<Scored<T>>)
    ensures |r| == Min(k, |s|)
    ensures multiset(r) <= multiset(s)
    ensures Descending(r)
    ensures forall x, y :: x in multiset(s) - multiset(r) && y in r ==> x.similarity <= y.similarity
  {
    var sorted := SortDesc(s);
    var n := Min(k, |s|);
    assert sorted == sorted[..n] + sorted[n..];
    CutDescending(sorted, n);
    sorted[..n]
  }
}
