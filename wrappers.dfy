/** Option and Result, and facts about sequences, shared by every module. */
module Wrappers {

  /** A value that may be missing; pandas' NaN and Python's `0` sentinels are `None`. */
  datatype Option<+T> = None | Some(value: T)

  /** The outcome of an operation that may raise. */
  datatype Result<+T, +E> = Ok(value: T) | Err(error: E)

  /** No two positions of `s` hold the same value. */
  predicate Distinct<T(==)>(s: seq<T>) {
    forall i, j :: 0 <= i < j < |s| ==> s[i] != s[j]
  }

  /** A prefix of a sequence without repetitions has none either. */
  lemma DistinctPrefix<T>(s: seq<T>, n: nat)
    requires Distinct(s) && n <= |s|
    ensures Distinct(s[..n])
  {
    forall i, j | 0 <= i < j < n
      ensures s[..n][i] != s[..n][j]
    {
      assert s[..n][i] == s[i] && s[..n][j] == s[j];
    }
  }

  /** The tail of a sequence without repetitions has none either, and does not hold the head. */
  lemma DistinctTail<T>(s: seq<T>)
    requires Distinct(s) && s != []
    ensures Distinct(s[1..]) && s[0] !in s[1..]
  {
    assert forall i :: 0 <= i < |s[1..]| ==> s[1..][i] == s[i + 1];
  }

  /** The elements of a nonempty sequence: its head and those of its tail. */
  lemma ElementsOfCons<T>(s: seq<T>)
    requires s != []
    ensures (set x | x in s) == {s[0]} + set x | x in s[1..]
    ensures forall x :: x in s <==> x == s[0] || x in s[1..]
  {
    assert s == [s[0]] + s[1..];
  }

  /** A sequence around one of its positions: what comes before, the entry, what comes after. */
  lemma SplitAt<T>(s: seq<T>, i: nat)
    requires i < |s|
    ensures s == s[..i] + ([s[i]] + s[i + 1..])
    ensures Distinct(s) ==> s[i] !in s[..i] && s[i] !in s[i + 1..]
  {
    assert forall j :: 0 <= j < i ==> s[..i][j] == s[j];
    var after := s[i + 1..];
    assert forall j :: 0 <= j < |after| ==> after[j] == s[i + 1 + j];
  }

  /** `r` is `xs` with some entries left out and the others in their order. */
  ghost predicate SubsequenceOf<T>(r: seq<T>, xs: seq<T>) {
    exists ps: seq<nat> ::
      && |ps| == |r|
      && (forall i, j :: 0 <= i < j < |ps| ==> ps[i] < ps[j])
      && (forall i :: 0 <= i < |ps| ==> ps[i] < |xs| && r[i] == xs[ps[i]])
  }

  /** Leaving out every entry gives a subsequence. */
  lemma SubsequenceEmpty<T>(xs: seq<T>)
    ensures SubsequenceOf([], xs)
  {
    var ps: seq<nat> := [];
    assert |ps| == 0;
  }

  /** A subsequence of all but the last entry stays one, with or without that last entry added. */
  lemma SubsequenceExtend<T>(r: seq<T>, xs: seq<T>)
    requires xs != [] && SubsequenceOf(r, xs[..|xs| - 1])
    ensures SubsequenceOf(r, xs)
    ensures SubsequenceOf(r + [xs[|xs| - 1]], xs)
  {
    var n := |xs| - 1;
    var ps: seq<nat> :| && |ps| == |r|
                        && (forall i, j :: 0 <= i < j < |ps| ==> ps[i] < ps[j])
                        && (forall i :: 0 <= i < |ps| ==> ps[i] < n && r[i] == xs[..n][ps[i]]);
    assert forall i :: 0 <= i < |ps| ==> r[i] == xs[ps[i]];
    var qs := ps + [n];
    var r' := r + [xs[n]];
    assert forall i :: 0 <= i < |ps| ==> qs[i] == ps[i] && r'[i] == r[i];
    assert forall i :: 0 <= i < |qs| ==> qs[i] < |xs| && r'[i] == xs[qs[i]];
  }

  /** The image of a set under a function. */
  ghost function Image<A, B>(s: set<A>, f: A -> B): set<B> {
    set x | x in s :: f(x)
  }

  /** An injective function maps a finite set onto a set of the same size. */
  lemma {:induction false} InjectiveImageCount<A, B>(s: set<A>, f: A -> B)
    requires forall x, y :: x in s && y in s && f(x) == f(y) ==> x == y
    ensures |Image(s, f)| == |s|
    decreases |s|
  {
    if s != {} {
      var x :| x in s;
      var s' := s - {x};
      InjectiveImageCount(s', f);
      assert Image(s, f) == Image(s', f) + {f(x)};
      assert f(x) !in Image(s', f);
    }
  }
}
