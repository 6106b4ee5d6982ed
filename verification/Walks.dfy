/** Directed walks and cycles over a finite edge set: the specification the cycle check is measured against. */
module Walks {
  datatype CohortId = CohortId(text: string)
  datatype Edge = Edge(from: CohortId, to: CohortId)

  ghost predicate IsWalk(es: set<Edge>, w: seq<CohortId>) {
    0 < |w| && forall i :: 0 < i < |w| ==> Edge(w[i - 1], w[i]) in es
  }

  ghost predicate IsCycle(es: set<Edge>, w: seq<CohortId>) {
    IsWalk(es, w) && 2 <= |w| && w[0] == w[|w| - 1]
  }

  ghost predicate Cyclic(es: set<Edge>) {
    exists w :: IsCycle(es, w)
  }

  /** Every node of `s` has a predecessor inside `s`. */
  ghost predicate PredecessorClosed(es: set<Edge>, s: set<CohortId>) {
    forall n :: n in s ==> HasPredecessor(es, s, n)
  }

  ghost predicate HasPredecessor(es: set<Edge>, s: set<CohortId>, n: CohortId) {
    exists m :: m in s && Edge(m, n) in es
  }

  ghost predicate Distinct<T>(w: seq<T>) {
    forall i, j :: 0 <= i < j < |w| ==> w[i] != w[j]
  }

  lemma {:induction false} DistinctBound<T>(w: seq<T>, s: set<T>)
    requires Distinct(w) && forall i :: 0 <= i < |w| ==> w[i] in s
    ensures |w| <= |s|
    ensures |w| == |s| ==> forall x :: x in s ==> x in w
  {
    if w != [] {
      var k := |w| - 1;
      DistinctBound(w[..k], s - {w[k]});
      assert s == (s - {w[k]}) + {w[k]};
      assert w == w[..k] + [w[k]];
    }
  }

  /** `n` ends a walk that visits some node twice: it lies on a cycle or downstream of one. */
  ghost predicate Stuck(es: set<Edge>, n: CohortId) {
    exists w :: IsWalk(es, w) && w[|w| - 1] == n && !Distinct(w)
  }

  /** Walking backwards for ever: a walk of any length that stays in `s` and ends at a given node of it. */
  lemma {:induction false} WalkInside(es: set<Edge>, s: set<CohortId>, n: CohortId, length: nat)
    returns (w: seq<CohortId>)
    requires PredecessorClosed(es, s) && n in s && 0 < length
    ensures IsWalk(es, w) && |w| == length && w[|w| - 1] == n && forall i :: 0 <= i < |w| ==> w[i] in s
  {
    if length == 1 {
      w := [n];
    } else {
      var tail := WalkInside(es, s, n, length - 1);
      assert HasPredecessor(es, s, tail[0]);
      var m :| m in s && Edge(m, tail[0]) in es;
      w := [m] + tail;
    }
  }

  /** All of a predecessor-closed set is stuck (pigeonhole on a long enough walk). */
  lemma PredecessorClosedIsStuck(es: set<Edge>, s: set<CohortId>, n: CohortId)
    requires PredecessorClosed(es, s) && n in s
    ensures Stuck(es, n)
  {
    var w := WalkInside(es, s, n, |s| + 1);
    if Distinct(w) {
      DistinctBound(w, s);
    }
  }

  lemma StuckIffCyclic(es: set<Edge>)
    ensures Cyclic(es) <==> exists n :: Stuck(es, n)
  {
    if Cyclic(es) {
      var w :| IsCycle(es, w);
      assert Stuck(es, w[0]);
    }
    if n :| Stuck(es, n) {
      var w :| IsWalk(es, w) && w[|w| - 1] == n && !Distinct(w);
      var i, j :| 0 <= i < j < |w| && w[i] == w[j];
      assert IsCycle(es, w[i..j + 1]);
    }
  }

  /** `order` lists every node after all of its predecessors. */
  ghost predicate Topological(es: set<Edge>, order: seq<CohortId>) {
    && Distinct(order)
    && forall e, i :: e in es && 0 <= i < |order| && order[i] == e.to ==> e.from in order[..i]
  }

  lemma {:induction false} WalkDescends(es: set<Edge>, order: seq<CohortId>, w: seq<CohortId>, i: nat)
    requires Topological(es, order) && IsWalk(es, w) && 2 <= |w| && i < |order| && order[i] == w[|w| - 1]
    ensures w[0] in order[..i]
    decreases |w|
  {
    var k := |w| - 2;
    assert Edge(w[k], w[k + 1]) in es;
    if k > 0 {
      var j :| 0 <= j < i && order[j] == w[k];
      WalkDescends(es, order, w[..k + 1], j);
    }
  }

  lemma TopologicalAvoidsCycles(es: set<Edge>, order: seq<CohortId>, w: seq<CohortId>, k: nat)
    requires Topological(es, order) && IsCycle(es, w) && k < |order|
    ensures order[k] != w[0]
  {
    if order[k] == w[0] {
      WalkDescends(es, order, w, k);
    }
  }

  lemma WalkSlice(es: set<Edge>, w: seq<CohortId>, i: nat, j: nat)
    requires IsWalk(es, w) && i < j <= |w|
    ensures IsWalk(es, w[i..j])
  {
  }

  /** Every node of a walk to a listed node is listed no later. */
  lemma WalkIsListed(es: set<Edge>, order: seq<CohortId>, w: seq<CohortId>, j: nat, k: nat) returns (m: nat)
    requires Topological(es, order) && IsWalk(es, w) && j < |w| && k < |order| && order[k] == w[|w| - 1]
    ensures m <= k && order[m] == w[j]
  {
    hide Topological;
    m := k;
    if j < |w| - 1 {
      WalkSlice(es, w, j, |w|);
      WalkDescends(es, order, w[j..|w|], k);
      m :| 0 <= m < k && order[m] == w[j];
    }
  }

  lemma WalkRepeatsNothing(es: set<Edge>, order: seq<CohortId>, w: seq<CohortId>, i: nat, j: nat, k: nat)
    requires Topological(es, order) && IsWalk(es, w) && i < j < |w| && k < |order| && order[k] == w[|w| - 1]
    ensures w[i] != w[j]
  {
    hide Topological;
    var m := WalkIsListed(es, order, w, j, k);
    if w[i] == w[j] {
      WalkSlice(es, w, i, j + 1);
      TopologicalAvoidsCycles(es, order, w[i..j + 1], m);
    }
  }

  /** Nothing stuck can be listed in a topological order. */
  lemma TopologicalAvoidsStuck(es: set<Edge>, order: seq<CohortId>, k: nat)
    requires Topological(es, order) && k < |order|
    ensures !Stuck(es, order[k])
  {
    hide Topological, IsWalk;
    forall w | IsWalk(es, w) && |w| > 0 && w[|w| - 1] == order[k] ensures Distinct(w) {
      forall i, j | 0 <= i < j < |w| ensures w[i] != w[j] {
        WalkRepeatsNothing(es, order, w, i, j, k);
      }
    }
  }

  /** Fewer edges, fewer cycles. */
  lemma SubsetAcyclic(es: set<Edge>, more: set<Edge>)
    requires es <= more && !Cyclic(more)
    ensures !Cyclic(es)
  {
    if Cyclic(es) {
      var w :| IsCycle(es, w);
      assert IsCycle(more, w);
    }
  }
}
