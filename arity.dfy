/**
 * The Arity Reconciler: the most frequent number of index levels among the
 * frames of one element, and which frames (and scenarios) are kept.
 */
module Arity {
  import opened Wrappers

  /** `ns.count(x)`. */
  function Count(ns: seq<nat>, x: nat): (c: nat)
    ensures c <= |ns|
    ensures c > 0 <==> x in ns
  {
    if ns == [] then 0
    else
      var n := |ns| - 1;
      assert x in ns <==> x in ns[..n] || ns[n] == x by {
        assert ns == ns[..n] + [ns[n]];
      }
      Count(ns[..n], x) + (if ns[n] == x then 1 else 0)
  }

  /** The candidate with the highest count, the smallest one among equal counts. */
  function ModeAmong(ns: seq<nat>, cands: seq<nat>): (m: nat)
    requires cands != []
    ensures m in cands
    ensures forall c :: c in cands ==> Count(ns, c) <= Count(ns, m)
    ensures forall c :: c in cands && Count(ns, c) == Count(ns, m) ==> m <= c
  {
    if |cands| == 1 then cands[0]
    else
      var rest := ModeAmong(ns, cands[1..]);
      var c := cands[0];
      assert forall d :: d in cands ==> d == c || d in cands[1..];
      if Count(ns, c) > Count(ns, rest) || (Count(ns, c) == Count(ns, rest) && c < rest) then c else rest
  }

  /**
   * `max(set(nlevels), key=nlevels.count)`: a value that occurs at least as
   * often as any other; of several such, the smallest. Python raises on an
   * empty list, here `None`.
   */
  function ModalArity(ns: seq<nat>): (r: Option<nat>)
    ensures r.None? <==> ns == []
    ensures r.Some? ==> r.value in ns
    ensures r.Some? ==> forall x :: Count(ns, x) <= Count(ns, r.value)
    ensures r.Some? ==> forall x :: Count(ns, x) == Count(ns, r.value) ==> r.value <= x
  {
    if ns == [] then None else Some(ModeAmong(ns, ns))
  }

  /** The choice is determined: any most frequent value that is the smallest among the most frequent is the one chosen. */
  lemma ModalArityUnique(ns: seq<nat>, m: nat)
    requires m in ns
    requires forall x :: Count(ns, x) <= Count(ns, m)
    requires forall x :: Count(ns, x) == Count(ns, m) ==> m <= x
    ensures ModalArity(ns) == Some(m)
  {
  }

  /** `ps` lists, in increasing order, exactly the positions `k` with `ns[k] == m`. */
  predicate IsPositions(ps: seq<nat>, ns: seq<nat>, m: nat) {
    && (forall i :: 0 <= i < |ps| ==> ps[i] < |ns| && ns[ps[i]] == m)
    && (forall i, j :: 0 <= i < j < |ps| ==> ps[i] < ps[j])
    && (forall k :: 0 <= k < |ns| && ns[k] == m ==> k in ps)
  }

  /** The positions of a list are those of its prefix, and its last position if that matches. */
  lemma PositionsExtend(ns: seq<nat>, m: nat, ps: seq<nat>, r: seq<nat>)
    requires ns != [] && IsPositions(ps, ns[..|ns| - 1], m)
    requires r == ps + (if ns[|ns| - 1] == m then [|ns| - 1] else [])
    ensures IsPositions(r, ns, m)
  {
    var n := |ns| - 1;
    assert forall i :: 0 <= i < |ps| ==> r[i] == ps[i];
    assert |r| > |ps| ==> r[|ps|] == n && ns[n] == m;
    forall i | 0 <= i < |r|
      ensures r[i] < |ns| && ns[r[i]] == m
    {
      if i < |ps| {
        assert ns[..n][ps[i]] == ns[ps[i]];
      }
    }
    forall i, j | 0 <= i < j < |r|
      ensures r[i] < r[j]
    {
      if j == |ps| {
        assert ps[i] < n;
      }
    }
    forall k | 0 <= k < |ns| && ns[k] == m
      ensures k in r
    {
      if k < n {
        assert ns[..n][k] == m;
        var i :| 0 <= i < |ps| && ps[i] == k;
        assert r[i] == k;
      } else {
        assert r[|ps|] == n;
      }
    }
  }

  /** The positions `k` with `ns[k] == m`, in increasing order. */
  function Positions(ns: seq<nat>, m: nat): (ps: seq<nat>)
    ensures IsPositions(ps, ns, m)
    ensures |ps| == Count(ns, m)
  {
    if ns == [] then []
    else
      var n := |ns| - 1;
      var ps := Positions(ns[..n], m);
      var r := ps + (if ns[n] == m then [n] else []);
      PositionsExtend(ns, m, ps, r);
      r
  }

  /** The entries of `xs` at the positions `ps`, in that order. */
  function Pick<T>(xs: seq<T>, ps: seq<nat>): (r: seq<T>)
    requires forall i :: 0 <= i < |ps| ==> ps[i] < |xs|
    ensures |r| == |ps|
    ensures forall i :: 0 <= i < |ps| ==> r[i] == xs[ps[i]]
  {
    if ps == [] then [] else [xs[ps[0]]] + Pick(xs, ps[1..])
  }

  /** `[xs[k] for k in range(len(xs)) if ns[k] == m]`. */
  function Keep<T>(xs: seq<T>, ns: seq<nat>, m: nat): (r: seq<T>)
    requires |xs| == |ns|
    ensures |r| == Count(ns, m)
  {
    var ps := Positions(ns, m);
    Pick(xs, ps)
  }

  /** Entry k of a kept list is the entry at the k-th position of arity `m`. */
  lemma KeepAt<T>(xs: seq<T>, ns: seq<nat>, m: nat, k: nat)
    requires |xs| == |ns| && k < Count(ns, m)
    ensures Positions(ns, m)[k] < |ns| && ns[Positions(ns, m)[k]] == m
    ensures Keep(xs, ns, m)[k] == xs[Positions(ns, m)[k]]
  {
  }

  /** Every position of arity `m` is the k-th such position for some k. */
  lemma PositionIndex(ns: seq<nat>, m: nat, j: nat)
    requires j < |ns| && ns[j] == m
    ensures exists k :: 0 <= k < Count(ns, m) && Positions(ns, m)[k] == j
  {
    assert j in Positions(ns, m);
  }

  /**
   * `framestokeep` and `scentokeep` use the same filter: they have the same
   * length, are subsequences of their lists in the original order, and entry
   * i of one comes from the same position as entry i of the other, a position
   * whose arity is `m`; every such position is kept.
   */
  lemma KeptStayPaired<A, B>(xs: seq<A>, ys: seq<B>, ns: seq<nat>, m: nat)
    requires |xs| == |ns| && |ys| == |ns|
    ensures |Keep(xs, ns, m)| == |Keep(ys, ns, m)| == Count(ns, m)
    ensures exists ps: seq<nat> ::
      && |ps| == Count(ns, m)
      && (forall i, j :: 0 <= i < j < |ps| ==> ps[i] < ps[j])
      && (forall i :: 0 <= i < |ps| ==> ps[i] < |ns| && ns[ps[i]] == m &&
                                         Keep(xs, ns, m)[i] == xs[ps[i]] && Keep(ys, ns, m)[i] == ys[ps[i]])
      && (forall k :: 0 <= k < |ns| && ns[k] == m ==> k in ps)
  {
    var ps := Positions(ns, m);
  }

  /** Keeping entries takes nothing that was not in the list, and as many entries as `m` occurs. */
  lemma KeepFrom<T>(xs: seq<T>, ns: seq<nat>, m: nat)
    requires |xs| == |ns|
    ensures |Keep(xs, ns, m)| == Count(ns, m)
    ensures forall x :: x in Keep(xs, ns, m) ==> x in xs
  {
    var ps := Positions(ns, m);
  }

  /** Keeping entries of a list without repetitions gives a list without repetitions. */
  lemma KeepDistinct<T>(xs: seq<T>, ns: seq<nat>, m: nat)
    requires |xs| == |ns| && Distinct(xs)
    ensures Distinct(Keep(xs, ns, m))
  {
    var ps := Positions(ns, m);
  }

  /** Three scenarios with arities 3, 3 and 2: only the first two are kept. */
  lemma MajorityExample()
    ensures ModalArity([3, 3, 2]) == Some(3)
    ensures Positions([3, 3, 2], 3) == [0, 1]
  {
    var ns: seq<nat> := [3, 3, 2];
    assert ns[..2] == [3, 3] && ns[..2][..1] == [3] && ns[..2][..1][..0] == [];
    assert Count(ns, 3) == 2;
    assert Count(ns, 2) == 1;
    ModalArityUnique(ns, 3);
  }
}
