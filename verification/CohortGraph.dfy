/**
 Cohort dependencies: Kahn's check before an insert (kbbl/core/db/cohort-graph.ts), the readiness
 count (kbbl/core/db/cohorts.ts), and the handler that inserts an edge only after a negative check.
 */
module CohortGraph {
  import opened Optional
  import opened CohortLifecycle
  import opened Walks

  datatype Cohort = Cohort(planId: string, status: CohortStatus)
  datatype Dependency = Dependency(id: string, edge: Edge)

  function Edges(deps: seq<Dependency>): set<Edge> {
    set i | 0 <= i < |deps| :: deps[i].edge
  }

  lemma EdgesAppend(deps: seq<Dependency>, d: Dependency)
    ensures Edges(deps + [d]) == Edges(deps) + {d.edge}
  {
    var more := deps + [d];
    assert more[|deps|] == d && forall i :: 0 <= i < |deps| ==> more[i] == deps[i];
    forall e | e in Edges(deps) ensures e in Edges(more) {
      var i :| 0 <= i < |deps| && deps[i].edge == e;
      assert more[i].edge == e;
    }
  }

  ghost predicate InOnePlan(cohorts: map<CohortId, Cohort>, e: Edge) {
    e.from in cohorts && e.to in cohorts && cohorts[e.from].planId == cohorts[e.to].planId
  }

  /** Rows of the dependency table whose source cohort belongs to the plan, in row order. */
  function PlanEdges(cohorts: map<CohortId, Cohort>, deps: seq<Dependency>, planId: string): (es: seq<Edge>)
    ensures forall e :: e in es <==> e in Edges(deps) && e.from in cohorts && cohorts[e.from].planId == planId
  {
    if deps == [] then [] else
      var k := |deps| - 1;
      var e := deps[k].edge;
      assert deps == deps[..k] + [deps[k]];
      assert Edges(deps) == Edges(deps[..k]) + {e};
      var rest := PlanEdges(cohorts, deps[..k], planId);
      if e.from in cohorts && cohorts[e.from].planId == planId then rest + [e] else rest
  }

  function PlanCohorts(cohorts: map<CohortId, Cohort>, planId: string): set<CohortId> {
    set id | id in cohorts && cohorts[id].planId == planId
  }

  ghost function AsSet<T>(s: seq<T>): set<T> {
    set x | x in s
  }

  // --- the adjacency lists and in-degrees Kahn's algorithm keeps ---

  /** The adjacency list of `n`: targets of its edges, in edge order, repeats kept. */
  function Targets(es: seq<Edge>, n: CohortId): seq<CohortId> {
    if es == [] then [] else
      var k := |es| - 1;
      Targets(es[..k], n) + (if es[k].from == n then [es[k].to] else [])
  }

  /** How many edges into `n` come from nodes not yet processed. */
  function Pending(es: seq<Edge>, done: set<CohortId>, n: CohortId): nat {
    if es == [] then 0 else
      var k := |es| - 1;
      Pending(es[..k], done, n) + (if es[k].to == n && es[k].from !in done then 1 else 0)
  }

  lemma {:induction false} PendingZero(es: seq<Edge>, done: set<CohortId>, n: CohortId)
    ensures Pending(es, done, n) == 0 <==> forall e :: e in es && e.to == n ==> e.from in done
  {
    if es != [] {
      var k := |es| - 1;
      assert es == es[..k] + [es[k]];
      PendingZero(es[..k], done, n);
    }
  }

  /** Processing `v` releases one pending edge into `n` per occurrence of `n` in the list of `v`. */
  lemma {:induction false} PendingAfter(es: seq<Edge>, done: set<CohortId>, v: CohortId, n: CohortId)
    requires v !in done
    ensures Pending(es, done, n) == Pending(es, done + {v}, n) + multiset(Targets(es, v))[n]
  {
    if es != [] {
      PendingAfter(es[..|es| - 1], done, v, n);
    }
  }

  lemma {:induction false} NoTargets(es: seq<Edge>, n: CohortId)
    requires forall e :: e in es ==> e.from != n
    ensures Targets(es, n) == []
  {
    if es != [] {
      var k := |es| - 1;
      assert es[k] in es;
      NoTargets(es[..k], n);
    }
  }

  /** The state of the queue loop: `order` is what has been shifted off the queue so far. */
  ghost predicate KahnInvariant(es: seq<Edge>, nodes: set<CohortId>, order: seq<CohortId>, queue: seq<CohortId>,
                                inDegree: map<CohortId, int>)
  {
    && inDegree.Keys == nodes
    && Distinct(order + queue)
    && (forall n :: n in order + queue ==> n in nodes)
    && Topological(AsSet(es), order)
    && (forall n :: n in nodes ==> inDegree[n] == Pending(es, AsSet(order), n))
    && (forall n :: n in nodes ==> (inDegree[n] == 0 <==> n in order + queue))
  }

  /** The keys of the in-degree map: the plan's cohorts and every edge target. */
  function Nodes(plan: set<CohortId>, es: seq<Edge>): set<CohortId> {
    if es == [] then plan else Nodes(plan, es[..|es| - 1]) + {es[|es| - 1].to}
  }

  lemma {:induction false} NodesAre(plan: set<CohortId>, es: seq<Edge>)
    ensures plan <= Nodes(plan, es)
    ensures forall e :: e in es ==> e.to in Nodes(plan, es)
    ensures (forall e :: e in es ==> e.to in plan) ==> Nodes(plan, es) == plan
  {
    if es != [] {
      var k := |es| - 1;
      assert es == es[..k] + [es[k]];
      NodesAre(plan, es[..k]);
    }
  }

  /** The two maps after the first `i` edges. */
  ghost predicate DegreesBuilt(plan: set<CohortId>, es: seq<Edge>, i: nat, inDegree: map<CohortId, int>,
                               adj: map<CohortId, seq<CohortId>>)
    requires i <= |es|
  {
    && inDegree.Keys == Nodes(plan, es[..i])
    && (forall n :: n in inDegree ==> inDegree[n] == Pending(es[..i], {}, n))
    && adj.Keys == plan
    && (forall n :: n in plan ==> adj[n] == Targets(es[..i], n))
  }

  lemma DegreesStep(plan: set<CohortId>, es: seq<Edge>, i: nat, inDegree: map<CohortId, int>,
                    adj: map<CohortId, seq<CohortId>>)
    requires i < |es| && es[i].from in plan && DegreesBuilt(plan, es, i, inDegree, adj)
    ensures var Edge(from, to) := es[i];
            var degree := if to in inDegree then inDegree[to] else 0;
            DegreesBuilt(plan, es, i + 1, inDegree[to := degree + 1], adj[from := adj[from] + [to]])
  {
    assert es[..i + 1][..i] == es[..i];
    if es[i].to !in inDegree {
      NodesAre(plan, es[..i]);
      PendingZero(es[..i], {}, es[i].to);
    }
  }

  method BuildDegrees(plan: set<CohortId>, es: seq<Edge>)
    returns (inDegree: map<CohortId, int>, adj: map<CohortId, seq<CohortId>>)
    requires forall e :: e in es ==> e.from in plan
    ensures inDegree.Keys == Nodes(plan, es)
    ensures forall n :: n in inDegree ==> inDegree[n] == Pending(es, {}, n)
    ensures adj.Keys == plan && forall n :: n in plan ==> adj[n] == Targets(es, n)
  {
    inDegree := map id | id in plan :: 0;
    adj := map id | id in plan :: [];
    for i := 0 to |es|
      invariant DegreesBuilt(plan, es, i, inDegree, adj)
    {
      assert es[i] in es;
      DegreesStep(plan, es, i, inDegree, adj);
      var Edge(from, to) := es[i];
      adj := adj[from := adj[from] + [to]];
      inDegree := inDegree[to := (if to in inDegree then inDegree[to] else 0) + 1];
    }
    assert es[..|es|] == es;
  }

  /** Inside the neighbour loop: `order` already includes the shifted node, `rest` is still to be visited. */
  ghost predicate Releasing(es: seq<Edge>, nodes: set<CohortId>, order: seq<CohortId>, queue: seq<CohortId>,
                            inDegree: map<CohortId, int>, rest: seq<CohortId>)
  {
    && inDegree.Keys == nodes
    && Distinct(order + queue)
    && (forall n :: n in order + queue ==> n in nodes)
    && (forall n :: n in nodes ==> inDegree[n] == Pending(es, AsSet(order), n) + multiset(rest)[n])
    && (forall n :: n in nodes ==> (inDegree[n] == 0 <==> n in order + queue))
  }

  lemma ReleaseFirst(es: seq<Edge>, nodes: set<CohortId>, order: seq<CohortId>, v: CohortId,
                     queue: seq<CohortId>, inDegree: map<CohortId, int>)
    requires KahnInvariant(es, nodes, order, [v] + queue, inDegree)
    ensures Releasing(es, nodes, order + [v], queue, inDegree, Targets(es, v))
    ensures Topological(AsSet(es), order + [v])
  {
    hide Topological;
    var all := (order + [v]) + queue;
    assert order + ([v] + queue) == all && all[|order|] == v;
    assert AsSet(order + [v]) == AsSet(order) + {v};
    assert forall i :: 0 <= i < |order| ==> all[i] == order[i];
    forall n {
      PendingAfter(es, AsSet(order), v, n);
    }
    assert v in all;
    OrderExtends(es, order, v, all);
  }

  /** A node without pending predecessors may come next in the order. */
  lemma OrderExtends(es: seq<Edge>, order: seq<CohortId>, v: CohortId, all: seq<CohortId>)
    requires Topological(AsSet(es), order) && Distinct(all) && order + [v] <= all && Pending(es, AsSet(order), v) == 0
    ensures Topological(AsSet(es), order + [v])
  {
    PendingZero(es, AsSet(order), v);
    var longer := order + [v];
    assert forall i :: 0 <= i < |longer| ==> all[i] == longer[i];
    forall e, i | e in AsSet(es) && 0 <= i < |longer| && longer[i] == e.to ensures e.from in longer[..i] {
      if i < |order| {
        assert order[i] == e.to && longer[..i] == order[..i];
      } else {
        assert longer[..i] == order;
      }
    }
  }

  lemma ReleaseStep(es: seq<Edge>, nodes: set<CohortId>, order: seq<CohortId>, queue: seq<CohortId>,
                    inDegree: map<CohortId, int>, rest: seq<CohortId>)
    requires Releasing(es, nodes, order, queue, inDegree, rest) && rest != [] && rest[0] in nodes
    ensures var degree := inDegree[rest[0]] - 1;
            var released := if degree == 0 then queue + [rest[0]] else queue;
            Releasing(es, nodes, order, released, inDegree[rest[0] := degree], rest[1..])
  {
    var n := rest[0];
    assert rest == [n] + rest[1..];
    assert order + (queue + [n]) == (order + queue) + [n];
  }

  lemma ReleaseLast(es: seq<Edge>, nodes: set<CohortId>, order: seq<CohortId>, queue: seq<CohortId>,
                    inDegree: map<CohortId, int>)
    requires Releasing(es, nodes, order, queue, inDegree, []) && Topological(AsSet(es), order)
    ensures KahnInvariant(es, nodes, order, queue, inDegree)
  {
  }

  /** The neighbour loop: decrements every target in turn and queues those that reach zero. */
  method ReleaseNeighbours(ghost es: seq<Edge>, ghost nodes: set<CohortId>, ghost order: seq<CohortId>,
                           neighbours: seq<CohortId>, queue0: seq<CohortId>, inDegree0: map<CohortId, int>)
    returns (queue: seq<CohortId>, inDegree: map<CohortId, int>)
    requires Releasing(es, nodes, order, queue0, inDegree0, neighbours)
    requires forall n :: n in neighbours ==> n in nodes
    ensures Releasing(es, nodes, order, queue, inDegree, [])
  {
    queue, inDegree := queue0, inDegree0;
    var rest := neighbours;
    while rest != []
      invariant forall n :: n in rest ==> n in nodes
      invariant Releasing(es, nodes, order, queue, inDegree, rest)
    {
      ReleaseStep(es, nodes, order, queue, inDegree, rest);
      var newDegree := (if rest[0] in inDegree then inDegree[rest[0]] else 0) - 1;
      inDegree := inDegree[rest[0] := newDegree];
      if newDegree == 0 {
        queue := queue + [rest[0]];
      }
      rest := rest[1..];
    }
  }

  lemma {:induction false} TargetsAreNodes(plan: set<CohortId>, es: seq<Edge>, v: CohortId)
    ensures forall n :: n in Targets(es, v) ==> n in Nodes(plan, es)
  {
    if es != [] {
      TargetsAreNodes(plan, es[..|es| - 1], v);
    }
  }

  // --- the check ---

  /** The plan's edges together with the one about to be inserted. */
  function EdgesAfter(cohorts: map<CohortId, Cohort>, deps: seq<Dependency>, from: CohortId, to: CohortId)
    : (es: seq<Edge>)
    requires from in cohorts
    ensures forall e :: e in es <==>
              || e == Edge(from, to)
              || (e in Edges(deps) && e.from in cohorts && cohorts[e.from].planId == cohorts[from].planId)
  {
    PlanEdges(cohorts, deps, cohorts[from].planId) + [Edge(from, to)]
  }

  ghost function StuckNodes(plan: set<CohortId>, es: seq<Edge>): set<CohortId> {
    set n | n in Nodes(plan, es) && Stuck(AsSet(es), n)
  }

  ghost function ForeignNodes(plan: set<CohortId>, es: seq<Edge>): set<CohortId> {
    Nodes(plan, es) - plan
  }

  /** Once the queue is empty, exactly the nodes on or downstream of a cycle are left unprocessed. */
  lemma UnprocessedIsStuck(es: seq<Edge>, plan: set<CohortId>, order: seq<CohortId>, inDegree: map<CohortId, int>,
                           n: CohortId)
    requires KahnInvariant(es, Nodes(plan, es), order, [], inDegree) && n in Nodes(plan, es)
    requires forall e :: e in es ==> e.from in plan
    ensures Stuck(AsSet(es), n) <==> n !in order
  {
    assert order + [] == order;
    if n in order {
      var k :| 0 <= k < |order| && order[k] == n;
      TopologicalAvoidsStuck(AsSet(es), order, k);
    } else {
      var rest := Nodes(plan, es) - AsSet(order);
      NodesAre(plan, es);
      forall m | m in rest ensures HasPredecessor(AsSet(es), rest, m) {
        PendingZero(es, AsSet(order), m);
      }
      PredecessorClosedIsStuck(AsSet(es), rest, n);
    }
  }

  lemma KahnLeavesStuck(es: seq<Edge>, plan: set<CohortId>, order: seq<CohortId>, inDegree: map<CohortId, int>)
    requires KahnInvariant(es, Nodes(plan, es), order, [], inDegree)
    requires forall e :: e in es ==> e.from in plan
    ensures |order| + |StuckNodes(plan, es)| == |plan| + |ForeignNodes(plan, es)|
  {
    var nodes, stuck := Nodes(plan, es), StuckNodes(plan, es);
    NodesAre(plan, es);
    assert order + [] == order;
    forall n | n in nodes ensures n in stuck <==> n !in order {
      UnprocessedIsStuck(es, plan, order, inDegree, n);
    }
    SetOfDistinct(order);
    PartitionSize(nodes, AsSet(order), stuck);
    PartitionSize(nodes, plan, ForeignNodes(plan, es));
  }

  lemma PartitionSize<T>(whole: set<T>, left: set<T>, right: set<T>)
    requires left <= whole && right <= whole && forall x :: x in whole ==> (x in left <==> x !in right)
    ensures |whole| == |left| + |right|
  {
    assert whole == left + right && left !! right;
  }

  lemma {:induction false} SetOfDistinct<T>(w: seq<T>)
    requires Distinct(w)
    ensures |AsSet(w)| == |w|
  {
    if w != [] {
      var k := |w| - 1;
      SetOfDistinct(w[..k]);
      assert AsSet(w) == AsSet(w[..k]) + {w[k]};
    }
  }

  lemma NoForeignNodes(plan: set<CohortId>, es: seq<Edge>)
    requires forall e :: e in es ==> e.from in plan && e.to in plan
    ensures ForeignNodes(plan, es) == {}
    ensures StuckNodes(plan, es) != {} <==> Cyclic(AsSet(es))
  {
    NodesAre(plan, es);
    StuckIffCyclic(AsSet(es));
    if n :| Stuck(AsSet(es), n) {
      var w :| IsWalk(AsSet(es), w) && w[|w| - 1] == n && !Distinct(w);
      var k := |w| - 2;
      assert Edge(w[k], w[k + 1]) in AsSet(es);
      assert n in StuckNodes(plan, es);
    }
  }

  /** One round of the queue loop. */
  method ProcessFirst(ghost plan: set<CohortId>, ghost es: seq<Edge>, ghost order0: seq<CohortId>,
                      queue0: seq<CohortId>, inDegree0: map<CohortId, int>, adj: map<CohortId, seq<CohortId>>)
    returns (queue: seq<CohortId>, inDegree: map<CohortId, int>)
    requires KahnInvariant(es, Nodes(plan, es), order0, queue0, inDegree0) && queue0 != []
    requires adj.Keys == plan && forall n :: n in plan ==> adj[n] == Targets(es, n)
    requires forall e :: e in es ==> e.from in plan
    ensures KahnInvariant(es, Nodes(plan, es), order0 + [queue0[0]], queue, inDegree)
  {
    var node := queue0[0];
    queue := queue0[1..];
    assert queue0 == [node] + queue;
    ReleaseFirst(es, Nodes(plan, es), order0, node, queue, inDegree0);
    ghost var order := order0 + [node];
    if node !in adj {
      NoTargets(es, node);
    }
    var neighbours := if node in adj then adj[node] else [];
    TargetsAreNodes(plan, es, node);
    queue, inDegree := ReleaseNeighbours(es, Nodes(plan, es), order, neighbours, queue, inDegree0);
    ReleaseLast(es, Nodes(plan, es), order, queue, inDegree);
  }

  lemma KahnStarts(es: seq<Edge>, nodes: set<CohortId>, queue: seq<CohortId>, inDegree: map<CohortId, int>)
    requires inDegree.Keys == nodes && (forall n :: n in inDegree ==> inDegree[n] == Pending(es, {}, n))
    requires Distinct(queue) && (forall n :: n in queue <==> n in inDegree && inDegree[n] == 0)
    ensures KahnInvariant(es, nodes, [], queue, inDegree)
  {
    assert [] + queue == queue && AsSet<CohortId>([]) == {};
  }

  /** The queue loop: how many nodes it releases is settled by the graph alone, not by the queue order. */
  method CountReleased(plan: set<CohortId>, es: seq<Edge>) returns (processed: nat)
    requires forall e :: e in es ==> e.from in plan
    ensures processed + |StuckNodes(plan, es)| == |plan| + |ForeignNodes(plan, es)|
  {
    var inDegree, adj := BuildDegrees(plan, es);
    ghost var nodes := Nodes(plan, es);
    NodesAre(plan, es);
    var queue := InitialQueue(inDegree);
    processed := 0;
    ghost var order: seq<CohortId> := [];
    KahnStarts(es, nodes, queue, inDegree);
    hide KahnInvariant, StuckNodes, ForeignNodes;
    while queue != []
      invariant KahnInvariant(es, nodes, order, queue, inDegree)
      invariant processed == |order|
      decreases |nodes| - |order|
    {
      processed := processed + 1;
      ghost var node := queue[0];
      queue, inDegree := ProcessFirst(plan, es, order, queue, inDegree, adj);
      order := order + [node];
      OrderBound(es, nodes, order, queue, inDegree);
    }
    KahnLeavesStuck(es, plan, order, inDegree);
  }

  /**
   `true` exactly when more nodes are stuck behind a cycle than there are edge targets outside the plan.
   So a positive answer always means a cycle, and with every endpoint in the plan the check is exact.
   */
  method HasCycleAfterInsert(cohorts: map<CohortId, Cohort>, deps: seq<Dependency>, from: CohortId, to: CohortId)
    returns (cycle: bool)
    ensures from !in cohorts ==> !cycle
    ensures from in cohorts ==>
              var plan, es := PlanCohorts(cohorts, cohorts[from].planId), EdgesAfter(cohorts, deps, from, to);
              && (cycle <==> |ForeignNodes(plan, es)| < |StuckNodes(plan, es)|)
              && (cycle ==> Cyclic(AsSet(es)))
              && ((forall e :: e in es ==> e.to in plan) ==> (cycle <==> Cyclic(AsSet(es))))
  {
    if from !in cohorts {
      return false;
    }
    var plan := PlanCohorts(cohorts, cohorts[from].planId);
    var es := EdgesAfter(cohorts, deps, from, to);
    var processed := CountReleased(plan, es);
    cycle := processed < |plan|;
    StuckMeansCycle(plan, es);
    if forall e :: e in es ==> e.to in plan {
      NoForeignNodes(plan, es);
    }
  }

  lemma SelfLoopBesideForeignEdge(a: CohortId, b: CohortId, foreign: CohortId)
    requires a != b && a != foreign && b != foreign
    ensures var plan, es := {a, b}, [Edge(b, foreign), Edge(a, a)];
            Cyclic(AsSet(es)) && |ForeignNodes(plan, es)| == |StuckNodes(plan, es)| == 1
  {
    var plan, es, order := {a, b}, [Edge(b, foreign), Edge(a, a)], [b, foreign];
    assert IsCycle(AsSet(es), [a, a]);
    assert [a, a][0] == [a, a][1];
    assert Stuck(AsSet(es), a);
    assert Topological(AsSet(es), order);
    TopologicalAvoidsStuck(AsSet(es), order, 0);
    TopologicalAvoidsStuck(AsSet(es), order, 1);
    var first := es[..1];
    assert first[..0] == [] && Nodes(plan, first[..0]) == plan && Nodes(plan, first) == plan + {foreign};
    assert Nodes(plan, es) == {a, b, foreign};
    assert StuckNodes(plan, es) == {a} && ForeignNodes(plan, es) == {foreign};
  }

  /**
   Why the endpoints matter: beside the self-loop on `a`, the edge from `b` to a cohort of another plan
   lets the loop release as many nodes as the plan has, so the check answers `false` on a cyclic graph.
   */
  method ForeignTargetHidesCycle(a: CohortId, b: CohortId, foreign: CohortId)
    returns (cohorts: map<CohortId, Cohort>, deps: seq<Dependency>, cycle: bool)
    requires a != b && a != foreign && b != foreign
    ensures a in cohorts && Cyclic(AsSet(EdgesAfter(cohorts, deps, a, a))) && !cycle
  {
    cohorts := map[a := Cohort("plan", Waiting), b := Cohort("plan", Waiting), foreign := Cohort("other", Waiting)];
    deps := [Dependency("1", Edge(b, foreign))];
    SelfLoopBesideForeignEdge(a, b, foreign);
    assert PlanCohorts(cohorts, "plan") == {a, b};
    assert deps[..0] == [] && PlanEdges(cohorts, deps[..0], "plan") == [];
    assert PlanEdges(cohorts, deps, "plan") == [Edge(b, foreign)];
    assert EdgesAfter(cohorts, deps, a, a) == [Edge(b, foreign), Edge(a, a)];
    cycle := HasCycleAfterInsert(cohorts, deps, a, a);
  }

  lemma StuckMeansCycle(plan: set<CohortId>, es: seq<Edge>)
    ensures StuckNodes(plan, es) != {} ==> Cyclic(AsSet(es))
  {
    StuckIffCyclic(AsSet(es));
  }

  lemma OrderBound(es: seq<Edge>, nodes: set<CohortId>, order: seq<CohortId>, queue: seq<CohortId>,
                   inDegree: map<CohortId, int>)
    requires KahnInvariant(es, nodes, order, queue, inDegree)
    ensures |order| <= |nodes|
  {
    assert forall i :: 0 <= i < |order| ==> (order + queue)[i] == order[i];
    DistinctBound(order, nodes);
  }

  method InitialQueue(inDegree: map<CohortId, int>) returns (queue: seq<CohortId>)
    ensures Distinct(queue)
    ensures forall n :: n in queue <==> n in inDegree && inDegree[n] == 0
  {
    queue := [];
    var rest := inDegree.Keys;
    while rest != {}
      invariant rest <= inDegree.Keys && Distinct(queue)
      invariant forall n :: n in queue <==> n in inDegree.Keys - rest && inDegree[n] == 0
      decreases rest
    {
      var id :| id in rest;
      if inDegree[id] == 0 {
        queue := queue + [id];
      }
      rest := rest - {id};
    }
  }

  // --- readiness and the guarded table ---

  /** Dependencies of `id` whose source cohort exists and is not done. */
  function CountUnmetDependencies(cohorts: map<CohortId, Cohort>, deps: seq<Dependency>, id: CohortId): nat {
    if deps == [] then 0 else
      var k := |deps| - 1;
      var Edge(from, to) := deps[k].edge;
      CountUnmetDependencies(cohorts, deps[..k], id)
      + if to == id && from in cohorts && cohorts[from].status != Done then 1 else 0
  }

  /** The rows that name `id` as target and an existing, unfinished cohort as source. */
  ghost function UnmetRows(cohorts: map<CohortId, Cohort>, deps: seq<Dependency>, id: CohortId): set<nat> {
    set i: nat | i < |deps| && deps[i].edge.to == id && deps[i].edge.from in cohorts
                 && cohorts[deps[i].edge.from].status != Done
  }

  /** Every such row is counted once. */
  lemma {:induction false} UnmetIsCounted(cohorts: map<CohortId, Cohort>, deps: seq<Dependency>, id: CohortId)
    ensures CountUnmetDependencies(cohorts, deps, id) == |UnmetRows(cohorts, deps, id)|
  {
    if deps != [] {
      var k := |deps| - 1;
      UnmetIsCounted(cohorts, deps[..k], id);
      var before := UnmetRows(cohorts, deps[..k], id);
      assert UnmetRows(cohorts, deps, id) == if k in UnmetRows(cohorts, deps, id) then before + {k} else before;
    }
  }

  lemma {:induction false} NoneUnmet(cohorts: map<CohortId, Cohort>, deps: seq<Dependency>, id: CohortId)
    ensures CountUnmetDependencies(cohorts, deps, id) == 0 <==>
            forall e :: e in Edges(deps) && e.to == id && e.from in cohorts ==> cohorts[e.from].status == Done
  {
    if deps != [] {
      var k := |deps| - 1;
      NoneUnmet(cohorts, deps[..k], id);
      assert deps == deps[..k] + [deps[k]];
      assert Edges(deps) == Edges(deps[..k]) + {deps[k].edge};
    }
  }

  /**
   An acyclic plan never deadlocks: while some cohort is not done, one that is not done is ready. Only this
   plan's edges matter, as long as its cohorts do not depend on those of another plan.
   */
  lemma DependencyProgress(cohorts: map<CohortId, Cohort>, deps: seq<Dependency>, planId: string)
    requires forall e :: e in Edges(deps) && e.from in cohorts && e.to in PlanCohorts(cohorts, planId)
                         ==> cohorts[e.from].planId == planId
    requires !Cyclic(AsSet(PlanEdges(cohorts, deps, planId)))
    requires exists id :: id in cohorts && cohorts[id].planId == planId && cohorts[id].status != Done
    ensures exists id :: id in cohorts && cohorts[id].planId == planId && cohorts[id].status != Done
                         && CountUnmetDependencies(cohorts, deps, id) == 0
  {
    var es := AsSet(PlanEdges(cohorts, deps, planId));
    var first :| first in cohorts && cohorts[first].planId == planId && cohorts[first].status != Done;
    var open := set id | id in cohorts && cohorts[id].planId == planId && cohorts[id].status != Done;
    if forall id :: id in open ==> CountUnmetDependencies(cohorts, deps, id) != 0 {
      forall id | id in open ensures HasPredecessor(es, open, id) {
        NoneUnmet(cohorts, deps, id);
        var e :| e in Edges(deps) && e.to == id && e.from in cohorts && cohorts[e.from].status != Done;
        assert e.from in open && Edge(e.from, id) in es;
      }
      PredecessorClosedIsStuck(es, open, first);
      StuckIffCyclic(es);
    }
  }

  lemma {:induction false} WalkStaysInPlan(cohorts: map<CohortId, Cohort>, es: set<Edge>, w: seq<CohortId>, k: nat)
    requires forall e :: e in es ==> InOnePlan(cohorts, e)
    requires IsWalk(es, w) && 2 <= |w| && k < |w|
    ensures w[0] in cohorts && w[k] in cohorts && cohorts[w[k]].planId == cohorts[w[0]].planId
  {
    assert Edge(w[0], w[1]) in es;
    if k > 0 {
      WalkStaysInPlan(cohorts, es, w, k - 1);
      assert Edge(w[k - 1], w[k]) in es;
    }
  }

  /** Looking at one plan's edges is enough: a new edge closes a cycle in the whole table only there. */
  lemma PlanCycleIsGlobal(cohorts: map<CohortId, Cohort>, deps: seq<Dependency>, from: CohortId, to: CohortId)
    requires forall e :: e in Edges(deps) ==> InOnePlan(cohorts, e)
    requires InOnePlan(cohorts, Edge(from, to)) && !Cyclic(Edges(deps))
    ensures Cyclic(Edges(deps) + {Edge(from, to)}) <==> Cyclic(AsSet(EdgesAfter(cohorts, deps, from, to)))
  {
    var all, plan := Edges(deps) + {Edge(from, to)}, AsSet(EdgesAfter(cohorts, deps, from, to));
    if !Cyclic(all) {
      SubsetAcyclic(plan, all);
    } else {
      var w :| IsCycle(all, w);
      WalkStaysInPlan(cohorts, all, w, 0);
      forall k | 0 < k < |w|
        ensures if cohorts[w[0]].planId == cohorts[from].planId
                then Edge(w[k - 1], w[k]) in plan else Edge(w[k - 1], w[k]) in Edges(deps)
      {
        WalkStaysInPlan(cohorts, all, w, k - 1);
      }
      assert IsCycle(if cohorts[w[0]].planId == cohorts[from].planId then plan else Edges(deps), w);
    }
  }

  lemma SelfLoopIsCyclic(es: set<Edge>, n: CohortId)
    requires Edge(n, n) in es
    ensures Cyclic(es)
  {
    assert IsCycle(es, [n, n]);
  }

  datatype AddOutcome = CohortNotFound | DifferentPlans | SelfDependency | CycleRefused | AlreadyExists | Created

  /** Primary key on the row id, UNIQUE(from, to). */
  predicate UniqueRows(deps: seq<Dependency>) {
    forall i, j :: 0 <= i < j < |deps| ==> deps[i].id != deps[j].id && deps[i].edge != deps[j].edge
  }

  /** The cohorts and cohort_dependencies tables behind the dependency routes. */
  class DependencyTable {
    var cohorts: map<CohortId, Cohort>
    var deps: seq<Dependency>

    ghost predicate Valid()
      reads this
    {
      && UniqueRows(deps)
      && (forall e :: e in Edges(deps) ==> InOnePlan(cohorts, e))
      && !Cyclic(Edges(deps))
    }

    constructor ()
      ensures Valid() && cohorts == map[] && deps == []
    {
      cohorts, deps := map[], [];
      new;
      assert forall w :: 2 <= |w| && IsWalk(Edges(deps), w) ==> Edge(w[0], w[1]) in Edges(deps);
    }

    method InsertCohort(id: CohortId, planId: string)
      requires Valid() && id !in cohorts
      modifies this`cohorts
      ensures Valid() && cohorts == old(cohorts)[id := Cohort(planId, Waiting)]
    {
      cohorts := cohorts[id := Cohort(planId, Waiting)];
    }

    method SetStatus(id: CohortId, status: CohortStatus)
      requires Valid() && id in cohorts
      modifies this`cohorts
      ensures Valid() && cohorts == old(cohorts)[id := old(cohorts[id]).(status := status)]
    {
      cohorts := cohorts[id := cohorts[id].(status := status)];
    }

    /** The POST route: the edge is stored exactly when it keeps the whole table acyclic and is new. */
    method AddDependency(id: string, from: CohortId, to: CohortId) returns (outcome: AddOutcome)
      requires Valid() && forall i :: 0 <= i < |deps| ==> deps[i].id != id
      modifies this`deps
      ensures Valid()
      ensures outcome.Created? <==> InOnePlan(cohorts, Edge(from, to)) && Edge(from, to) !in Edges(old(deps))
                                    && !Cyclic(Edges(old(deps)) + {Edge(from, to)})
      ensures deps == if outcome.Created? then old(deps) + [Dependency(id, Edge(from, to))] else old(deps)
      ensures outcome.CohortNotFound? <==> from !in cohorts || to !in cohorts
      ensures outcome.DifferentPlans? <==> from in cohorts && to in cohorts
                                           && cohorts[from].planId != cohorts[to].planId
      ensures outcome.SelfDependency? <==> InOnePlan(cohorts, Edge(from, to)) && from == to
      ensures outcome.CycleRefused? <==> InOnePlan(cohorts, Edge(from, to)) && from != to
                                         && Cyclic(Edges(old(deps)) + {Edge(from, to)})
      ensures outcome.AlreadyExists? <==> InOnePlan(cohorts, Edge(from, to)) && from != to
                                          && Edge(from, to) in Edges(old(deps))
    {
      hide StuckNodes, ForeignNodes, Cyclic;
      assert Edge(from, to) in Edges(deps) ==> Edges(deps) + {Edge(from, to)} == Edges(deps);
      if from !in cohorts || to !in cohorts {
        return CohortNotFound;
      }
      if cohorts[from].planId != cohorts[to].planId {
        return DifferentPlans;
      }
      if from == to {
        SelfLoopIsCyclic(Edges(deps) + {Edge(from, to)}, from);
        return SelfDependency;
      }
      PlanCycleIsGlobal(cohorts, deps, from, to);
      var cycle := HasCycleAfterInsert(cohorts, deps, from, to);
      if cycle {
        return CycleRefused;
      }
      if Edge(from, to) in Edges(deps) {
        return AlreadyExists;
      }
      EdgesAppend(deps, Dependency(id, Edge(from, to)));
      deps := deps + [Dependency(id, Edge(from, to))];
      return Created;
    }

    method DeleteDependency(id: string) returns (removed: Option<Dependency>)
      requires Valid()
      modifies this`deps
      ensures Valid()
      ensures removed.None? ==> deps == old(deps) && forall d :: d in deps ==> d.id != id
      ensures removed.Some? ==> removed.value.id == id && removed.value in old(deps) && removed.value !in deps
      ensures removed.Some? ==> Edges(deps) == Edges(old(deps)) - {removed.value.edge}
    {
      for k := 0 to |deps|
        invariant deps == old(deps)
        invariant forall i :: 0 <= i < k ==> deps[i].id != id
      {
        if deps[k].id == id {
          removed := Some(deps[k]);
          var rest := deps[..k] + deps[k + 1..];
          assert forall i :: 0 <= i < |rest| ==> rest[i] == if i < k then deps[i] else deps[i + 1];
          assert forall i :: 0 <= i < |deps| && i != k ==> deps[i] == rest[if i < k then i else i - 1];
          assert Edges(rest) == Edges(deps) - {deps[k].edge};
          SubsetAcyclic(Edges(rest), Edges(deps));
          deps := rest;
          return;
        }
      }
      return None;
    }
  }
}
