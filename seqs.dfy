/** Sequence helpers shared by the phases: the rows a row-producing step
    yields for every element of a sequence, in order. */
module Seqs {

  /** The concatenation of `f(x)` over the elements `x` of `s`, in order;
      defined on the last element, the way a loop appends. */
  function FlatMap<T, U>(s: seq<T>, f: T -> seq<U>): seq<U> {
    if s == [] then []
    else
      var n := |s| - 1;
      FlatMap(s[..n], f) + f(s[n])
  }

  /** One more loop iteration appends the rows of the next element. */
  lemma FlatMapSnoc<T, U>(s: seq<T>, i: int, f: T -> seq<U>)
    requires 0 <= i < |s|
    ensures FlatMap(s[..i + 1], f) == FlatMap(s[..i], f) + f(s[i])
  {
    assert s[..i + 1][..i] == s[..i];
  }

  /** A row is produced exactly when some element produces it. */
  lemma {:induction false} FlatMapMembership<T, U>(s: seq<T>, f: T -> seq<U>, u: U)
    ensures u in FlatMap(s, f) <==> exists k :: 0 <= k < |s| && u in f(s[k])
  {
    if s != [] {
      var n := |s| - 1;
      var prefix := s[..n];
      FlatMapMembership(prefix, f, u);
      if exists k :: 0 <= k < n && u in f(prefix[k]) {
        var k :| 0 <= k < n && u in f(prefix[k]);
        assert prefix[k] == s[k];
      }
      if exists k :: 0 <= k < |s| && u in f(s[k]) {
        var k :| 0 <= k < |s| && u in f(s[k]);
        if k < n {
          assert prefix[k] == s[k];
        }
      }
    }
  }

  /** The rows of two sequences in a row are the two row lists in a row. */
  lemma {:induction false} FlatMapAppend<T, U>(s1: seq<T>, s2: seq<T>, f: T -> seq<U>)
    ensures FlatMap(s1 + s2, f) == FlatMap(s1, f) + FlatMap(s2, f)
  {
    if s2 == [] {
      assert s1 + s2 == s1;
    } else {
      var n := |s2| - 1;
      var s := s1 + s2;
      assert s[..|s| - 1] == s1 + s2[..n];
      assert s[|s| - 1] == s2[n];
      FlatMapAppend(s1, s2[..n], f);
    }
  }
}
