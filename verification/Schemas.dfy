/** Workflow definitions and their execution order (app/domain/workflows/schemas.py). */
module Schemas {
  import opened Prelude
  import opened Sequences
  import opened Graphs

  datatype Value = Number(n: int) | Text(s: string) | Many(items: seq<Value>)

  type Config = map<string, Value>

  datatype Step = Step(id: StepId, implementation: string, configOverride: Config)

  datatype Workflow = Workflow(steps: seq<Step>, edges: seq<Edge>)

  function StepIds(steps: seq<Step>): (r: seq<StepId>)
    ensures |r| == |steps| && forall i :: 0 <= i < |r| ==> r[i] == steps[i].id
  {
    seq(|steps|, i requires 0 <= i < |steps| => steps[i].id)
  }

  /** What construction guarantees: edges connect declared steps. */
  ghost predicate EdgesDeclared(w: Workflow) {
    forall e :: e in w.edges ==> e.from in StepIds(w.steps) && e.to in StepIds(w.steps)
  }

  // ----- Construction

  datatype Constructed = Built(w: Workflow) | NoSteps | UnknownReference(id: StepId)

  /**
   `WorkflowDefinition(steps=..., edges=...)`: omitted steps default to the empty list unchecked,
   given steps must be non-empty, and every edge must reference a declared step.
  */
  method Construct(steps: Option<seq<Step>>, edges: seq<Edge>) returns (r: Constructed)
    ensures r.Built? <==> steps != Some([]) && EdgesDeclared(Workflow(steps.GetOr([]), edges))
    ensures r.Built? ==> r.w == Workflow(steps.GetOr([]), edges)
    ensures r.NoSteps? <==> steps == Some([])
    ensures r.UnknownReference? ==>
      exists k: nat :: UnknownAt(StepIds(steps.GetOr([])), edges, k, r.id)
  {
    if steps == Some([]) {
      return NoSteps;
    }
    var declared := steps.GetOr([]);
    var ids := StepIds(declared);
    var i := 0;
    assert edges[0..] == edges;
    UnknownIsUndeclared(ids, edges);
    while i < |edges|
      invariant 0 <= i <= |edges|
      invariant FirstUnknown(ids, edges) == FirstUnknown(ids, edges[i..])
    {
      if edges[i].from !in ids {
        FirstUnknownIs(ids, edges, edges[i].from);
        return UnknownReference(edges[i].from);
      }
      if edges[i].to !in ids {
        FirstUnknownIs(ids, edges, edges[i].to);
        return UnknownReference(edges[i].to);
      }
      assert edges[i..][1..] == edges[i + 1..];
      i := i + 1;
    }
    return Built(Workflow(declared, edges));
  }

  // ----- Execution order

  datatype OrderResult = Ordered(order: seq<StepId>) | Cycles | UnknownStep(id: StepId)

  /** The two dictionaries hold the adjacency list and the in-degree of every declared step. */
  ghost predicate Describes(ids: seq<StepId>, edges: seq<Edge>, graph: map<StepId, seq<StepId>>,
                            inDegree: map<StepId, int>) {
    && (forall u :: u in ids <==> u in graph)
    && (forall u :: u in ids <==> u in inDegree)
    && (forall u :: u in ids ==> graph[u] == Targets(edges, u))
    && (forall v :: v in ids ==> inDegree[v] == |Incoming(edges, v, {})|)
  }

  /** Fill the dictionaries; an undeclared endpoint is a KeyError. */
  method BuildGraph(ids: seq<StepId>, edges: seq<Edge>)
    returns (unknown: Option<StepId>, graph: map<StepId, seq<StepId>>, inDegree: map<StepId, int>)
    ensures unknown == FirstUnknown(ids, edges)
    ensures unknown.None? ==> Describes(ids, edges, graph, inDegree)
  {
    graph := map u | u in ids :: [];
    inDegree := map u | u in ids :: 0;
    var i := 0;
    DescribesNothing(ids, edges, graph, inDegree);
    assert edges[0..] == edges;
    while i < |edges|
      invariant 0 <= i <= |edges|
      invariant FirstUnknown(ids, edges) == FirstUnknown(ids, edges[i..])
      invariant Describes(ids, edges[..i], graph, inDegree)
    {
      var e := edges[i];
      NextUnknown(ids, edges, i);
      if e.from !in graph {
        return Some(e.from), graph, inDegree;
      }
      if e.to !in inDegree {
        return Some(e.to), graph, inDegree;
      }
      ghost var graph', inDegree' := graph, inDegree;
      graph := graph[e.from := graph[e.from] + [e.to]];
      inDegree := inDegree[e.to := inDegree[e.to] + 1];
      DescribeMore(ids, edges, i, graph', inDegree', graph, inDegree);
      i := i + 1;
    }
    assert edges[..i] == edges;
    unknown := None;
  }

  lemma {:induction false} DescribesNothing(ids: seq<StepId>, edges: seq<Edge>, graph: map<StepId, seq<StepId>>,
                                            inDegree: map<StepId, int>)
    requires graph == (map u | u in ids :: []) && inDegree == (map u | u in ids :: 0)
    ensures Describes(ids, edges[..0], graph, inDegree)
  {
    assert forall v :: Incoming(edges[..0], v, {}) == {};
  }

  lemma {:induction false} NextUnknown(ids: seq<StepId>, edges: seq<Edge>, i: nat)
    requires i < |edges|
    ensures FirstUnknown(ids, edges[i..]) ==
      if edges[i].from !in ids then Some(edges[i].from)
      else if edges[i].to !in ids then Some(edges[i].to)
      else FirstUnknown(ids, edges[i + 1..])
  {
    assert edges[i..][1..] == edges[i + 1..];
  }

  lemma {:induction false} DescribeMore(ids: seq<StepId>, edges: seq<Edge>, i: nat,
                                        graph: map<StepId, seq<StepId>>, inDegree: map<StepId, int>,
                                        graph': map<StepId, seq<StepId>>, inDegree': map<StepId, int>)
    requires i < |edges| && Describes(ids, edges[..i], graph, inDegree)
    requires edges[i].from in ids && edges[i].to in ids
    requires graph' == graph[edges[i].from := graph[edges[i].from] + [edges[i].to]]
    requires inDegree' == inDegree[edges[i].to := inDegree[edges[i].to] + 1]
    ensures Describes(ids, edges[..i + 1], graph', inDegree')
  {
    forall u { NextTarget(edges, i, u); }
    forall u { NextIncoming(edges, i, u); }
  }

  /** One more edge extends its source's adjacency list ... */
  lemma {:induction false} NextTarget(edges: seq<Edge>, i: nat, v: StepId)
    requires i < |edges|
    ensures Targets(edges[..i + 1], v) == Targets(edges[..i], v) + if edges[i].from == v then [edges[i].to] else []
  {
    assert edges[..i + 1][..i] == edges[..i];
  }

  /** ... and raises its target's in-degree. */
  lemma {:induction false} NextIncoming(edges: seq<Edge>, i: nat, v: StepId)
    requires i < |edges|
    ensures |Incoming(edges[..i + 1], v, {})| == |Incoming(edges[..i], v, {})| + if edges[i].to == v then 1 else 0
  {
    var before, after := Incoming(edges[..i], v, {}), Incoming(edges[..i + 1], v, {});
    if edges[i].to == v {
      assert after == before + {i};
    } else {
      assert after == before;
    }
  }

  /** Edges that leave one of `order`. */
  ghost function Followed(edges: seq<Edge>, order: seq<StepId>): set<nat> {
    set k: nat | k < |edges| && edges[k].from in order
  }

  /** Edge `k` goes forward as soon as its target is queued. */
  ghost predicate Placed(edges: seq<Edge>, all: seq<StepId>, k: nat)
    requires k < |edges|
  {
    edges[k].to in all ==> Position(all, edges[k].from) < Position(all, edges[k].to)
  }

  /** The invariant of the sort: `done` are the edges followed so far. */
  ghost predicate Sorting(ids: seq<StepId>, edges: seq<Edge>, order: seq<StepId>, queue: seq<StepId>,
                          inDegree: map<StepId, int>, done: set<nat>) {
    var all := order + queue;
    && Distinct(all)
    && (forall x :: x in all ==> x in ids)
    && (forall v :: v in ids ==> v in inDegree)
    && (forall v {:trigger Incoming(edges, v, done)} :: v in ids ==> inDegree[v] == |Incoming(edges, v, done)|)
    && (forall v {:trigger Incoming(edges, v, done)} :: v in ids ==> (v in all <==> Incoming(edges, v, done) == {}))
    && (forall k :: k in done ==> k < |edges| && edges[k].from in order)
    && (forall k: nat {:trigger Placed(edges, all, k)} :: k < |edges| ==> Placed(edges, all, k))
    && ReleaseSorted(ids, edges, all)
  }

  /** The ids without incoming edges, in dictionary order. */
  method InitialQueue(ids: seq<StepId>, edges: seq<Edge>, ghost graph: map<StepId, seq<StepId>>,
                      inDegree: map<StepId, int>)
    returns (queue: seq<StepId>)
    requires Distinct(ids) && Describes(ids, edges, graph, inDegree)
    ensures Sorting(ids, edges, [], queue, inDegree, {})
  {
    queue := [];
    for i := 0 to |ids|
      invariant forall x :: x in queue ==> x in ids[..i]
      invariant forall x :: x in ids[..i] ==> (x in queue <==> inDegree[x] == 0)
      invariant forall a, b :: 0 <= a < b < |queue| ==> Position(ids, queue[a]) < Position(ids, queue[b])
    {
      assert ids[..i + 1] == ids[..i] + [ids[i]];
      PrefixPositions(ids, i);
      if inDegree[ids[i]] == 0 {
        queue := queue + [ids[i]];
      }
    }
    assert ids[..|ids|] == ids;
    SortingStarts(ids, edges, graph, inDegree, queue);
  }

  lemma {:induction false} PrefixPositions(ids: seq<StepId>, i: nat)
    requires Distinct(ids) && i < |ids|
    ensures Position(ids, ids[i]) == i
    ensures forall x :: x in ids[..i] ==> Position(ids, x) < i
  {
  }

  lemma {:induction false} SortingStarts(ids: seq<StepId>, edges: seq<Edge>, graph: map<StepId, seq<StepId>>,
                                         inDegree: map<StepId, int>, queue: seq<StepId>)
    requires Describes(ids, edges, graph, inDegree)
    requires forall x :: x in queue <==> x in ids && inDegree[x] == 0
    requires forall a, b :: 0 <= a < b < |queue| ==> Position(ids, queue[a]) < Position(ids, queue[b])
    ensures Sorting(ids, edges, [], queue, inDegree, {})
  {
    assert [] + queue == queue;
    forall v, k | v in queue && 0 <= k < |edges| ensures !Into(edges, k, v) {
      assert Incoming(edges, v, {}) == {};
      assert k !in Incoming(edges, v, {});
    }
    forall k: nat | k < |edges| ensures Placed(edges, queue, k) {
      assert Into(edges, k, edges[k].to);
    }
    forall i, j | 0 <= i < j < |queue| ensures ReleasedBefore(ids, edges, queue, queue[i], queue[j]) {
      assert IsSource(edges, queue[i]) && IsSource(edges, queue[j]);
    }
  }

  lemma {:induction false} FollowDegree(edges: seq<Edge>, v: StepId, done: set<nat>, k: nat)
    requires k < |edges| && k !in done
    ensures |Incoming(edges, v, done + {k})| == |Incoming(edges, v, done)| - if edges[k].to == v then 1 else 0
    ensures edges[k].to == v ==> Incoming(edges, v, done) != {}
    ensures edges[k].to != v ==> Incoming(edges, v, done + {k}) == Incoming(edges, v, done)
  {
    var before, after := Incoming(edges, v, done), Incoming(edges, v, done + {k});
    if edges[k].to == v {
      assert k in before && after == before - {k};
    } else {
      assert after == before;
    }
  }

  /** All edges into a released id have been followed. */
  lemma {:induction false} ReleasedEdges(ids: seq<StepId>, edges: seq<Edge>, order: seq<StepId>, queue: seq<StepId>,
                      inDegree: map<StepId, int>, done: set<nat>, k: nat)
    requires Sorting(ids, edges, order, queue, inDegree, done)
    requires k < |edges| && edges[k].to in order + queue
    ensures k in done && edges[k].from in order
  {
    assert Incoming(edges, edges[k].to, done) == {};
    assert k !in Incoming(edges, edges[k].to, done);
  }

  /** Queueing one more id leaves the relative order of the earlier ones. */
  lemma {:induction false} ReleasedBeforeAppend(ids: seq<StepId>, edges: seq<Edge>, all: seq<StepId>, x: StepId,
                                                u: StepId, v: StepId)
    requires ReleasedBefore(ids, edges, all, u, v)
    requires forall k: nat :: k < |edges| && (edges[k].to == u || edges[k].to == v) ==> edges[k].from in all
    ensures ReleasedBefore(ids, edges, all + [x], u, v)
  {
    if !IsSource(edges, v) {
      var k :| Trails(edges, all, u, v, k);
      forall j | Into(edges, j, u) ensures Sooner(edges, all + [x], j, k) {
        PositionAppend(all, [x], edges[j].from);
        PositionAppend(all, [x], edges[k].from);
      }
      assert Trails(edges, all + [x], u, v, k);
    }
  }

  /** Earlier edges are those of earlier steps, or of the current step and lower index. */
  ghost predicate FollowedBefore(edges: seq<Edge>, order: seq<StepId>, done: set<nat>, k: nat)
    requires order != [] && k < |edges|
  {
    && edges[k].from == order[|order| - 1]
    && (forall j :: j in done ==> j < |edges|)
    && (forall j :: j in done ==>
          edges[j].from in order[..|order| - 1] || (edges[j].from == order[|order| - 1] && j < k))
  }

  lemma {:induction false} SoonerThanCurrent(edges: seq<Edge>, order: seq<StepId>, all: seq<StepId>, done: set<nat>,
                                             j: nat, k: nat)
    requires order != [] && k < |edges| && FollowedBefore(edges, order, done, k) && j in done
    requires Distinct(all) && order <= all
    ensures Sooner(edges, all, j, k)
  {
  }

  lemma {:induction false} PlaceMore(edges: seq<Edge>, order: seq<StepId>, all: seq<StepId>, done: set<nat>, k: nat,
                                     m: nat)
    requires k < |edges| && m < |edges| && order <= all && Placed(edges, all, m)
    requires edges[k].from in order && edges[k].to !in all && Incoming(edges, edges[k].to, done + {k}) == {}
    requires forall j :: j in done ==> j < |edges| && edges[j].from in order
    requires edges[m].to in all ==> edges[m].from in all
    ensures Placed(edges, all + [edges[k].to], m)
  {
    var n := edges[k].to;
    if edges[m].to in all {
      PositionAppend(all, [n], edges[m].to);
      PositionAppend(all, [n], edges[m].from);
    } else if edges[m].to == n {
      assert m !in Incoming(edges, n, done + {k});
      PositionAppend(all, [n], edges[m].from);
      PositionFresh(all, n);
    }
  }

  lemma {:induction false} PositionFresh(all: seq<StepId>, n: StepId)
    requires n !in all
    ensures Position(all + [n], n) == |all|
  {
  }

  /** Releasing the target of edge `k` puts it behind everything queued so far. */
  lemma {:induction false} ReleaseTarget(ids: seq<StepId>, edges: seq<Edge>, order: seq<StepId>, queue: seq<StepId>,
                      inDegree: map<StepId, int>, done: set<nat>, k: nat)
    requires Sorting(ids, edges, order, queue, inDegree, done)
    requires order != [] && k < |edges| && FollowedBefore(edges, order, done, k)
    requires edges[k].to !in order + queue
    requires Incoming(edges, edges[k].to, done + {k}) == {}
    ensures ReleaseSorted(ids, edges, order + queue + [edges[k].to])
    ensures forall m: nat {:trigger Placed(edges, order + queue + [edges[k].to], m)} ::
      m < |edges| ==> Placed(edges, order + queue + [edges[k].to], m)
  {
    var n := edges[k].to;
    var all := order + queue;
    var more := all + [n];
    forall m: nat | m < |edges| && edges[m].to in all ensures m in done && edges[m].from in all {
      ReleasedEdges(ids, edges, order, queue, inDegree, done, m);
    }
    forall m: nat | m < |edges| ensures Placed(edges, more, m) {
      assert Placed(edges, all, m);
      PlaceMore(edges, order, all, done, k, m);
    }
    forall i, j | 0 <= i < j < |more| ensures ReleasedBefore(ids, edges, more, more[i], more[j]) {
      if j < |all| {
        assert ReleasedBefore(ids, edges, all, all[i], all[j]);
        ReleasedBeforeAppend(ids, edges, all, n, all[i], all[j]);
      } else {
        assert Into(edges, k, n);
        forall m | Into(edges, m, more[i]) ensures Sooner(edges, more, m, k) {
          assert edges[m].to in all;
          SoonerThanCurrent(edges, order, more, done, m, k);
        }
        assert Trails(edges, more, more[i], n, k);
      }
    }
  }

  /** One round of the inner loop: follow edge `k`, queue its target when nothing else holds it. */
  lemma {:induction false} FollowEdge(ids: seq<StepId>, edges: seq<Edge>, order: seq<StepId>, queue: seq<StepId>,
                   inDegree: map<StepId, int>, done: set<nat>, k: nat)
    requires Sorting(ids, edges, order, queue, inDegree, done)
    requires order != [] && k < |edges| && k !in done && FollowedBefore(edges, order, done, k)
    requires edges[k].to in ids
    ensures edges[k].to in inDegree
    ensures
      var n := edges[k].to;
      var d := inDegree[n] - 1;
      Sorting(ids, edges, order, if d == 0 then queue + [n] else queue, inDegree[n := d], done + {k})
  {
    var n := edges[k].to;
    forall v ensures |Incoming(edges, v, done + {k})| == |Incoming(edges, v, done)| - (if n == v then 1 else 0)
             ensures n == v ==> Incoming(edges, v, done) != {}
             ensures n != v ==> Incoming(edges, v, done + {k}) == Incoming(edges, v, done)
    {
      FollowDegree(edges, v, done, k);
    }
    assert Incoming(edges, n, done) != {};
    if inDegree[n] - 1 == 0 {
      ReleaseTarget(ids, edges, order, queue, inDegree, done, k);
      assert order + (queue + [n]) == order + queue + [n];
    }
  }

  /** The inner loop: lower the in-degree of every successor of the step just ordered. */
  method ReleaseSuccessors(ids: seq<StepId>, edges: seq<Edge>, successors: seq<StepId>, order: seq<StepId>,
                           queue: seq<StepId>, inDegree: map<StepId, int>)
    returns (queue': seq<StepId>, inDegree': map<StepId, int>)
    requires order != [] && successors == Targets(edges, order[|order| - 1])
    requires forall e :: e in edges ==> e.from in ids && e.to in ids
    requires Sorting(ids, edges, order, queue, inDegree, Followed(edges, order[..|order| - 1]))
    ensures Sorting(ids, edges, order, queue', inDegree', Followed(edges, order))
  {
    queue', inDegree' := queue, inDegree;
    ghost var current := order[|order| - 1];
    ghost var out := OutEdges(edges, current);
    ghost var done := Followed(edges, order[..|order| - 1]);
    CurrentIsFresh(order, queue);
    OutgoingEdges(edges, current);
    for a := 0 to |successors|
      invariant Sorting(ids, edges, order, queue', inDegree', done)
      invariant done == Followed(edges, order[..|order| - 1]) + Elements(out[..a])
    {
      ghost var k := out[a];
      NextEdge(edges, order, done, a);
      FollowEdge(ids, edges, order, queue', inDegree', done, k);
      var neighbor := successors[a];
      inDegree' := inDegree'[neighbor := inDegree'[neighbor] - 1];
      if inDegree'[neighbor] == 0 {
        queue' := queue' + [neighbor];
      }
      ElementsNext(out, a);
      done := done + {k};
    }
    AllFollowed(edges, order, out);
  }

  lemma {:induction false} ElementsNext(s: seq<nat>, a: nat)
    requires a < |s|
    ensures Elements(s[..a + 1]) == Elements(s[..a]) + {s[a]}
  {
  }

  lemma {:induction false} AllFollowed(edges: seq<Edge>, order: seq<StepId>, out: seq<nat>)
    requires order != [] && out == OutEdges(edges, order[|order| - 1])
    ensures Followed(edges, order[..|order| - 1]) + Elements(out[..|out|]) == Followed(edges, order)
  {
    OutgoingEdges(edges, order[|order| - 1]);
    assert order == order[..|order| - 1] + [order[|order| - 1]];
    assert out[..|out|] == out;
  }

  lemma {:induction false} CurrentIsFresh(order: seq<StepId>, queue: seq<StepId>)
    requires order != [] && Distinct(order + queue)
    ensures order[|order| - 1] !in order[..|order| - 1]
  {
    assert forall i :: 0 <= i < |order| ==> (order + queue)[i] == order[i];
  }

  lemma {:induction false} NextEdge(edges: seq<Edge>, order: seq<StepId>, done: set<nat>, a: nat)
    requires order != [] && order[|order| - 1] !in order[..|order| - 1]
    requires a < |OutEdges(edges, order[|order| - 1])|
    requires done == Followed(edges, order[..|order| - 1]) + Elements(OutEdges(edges, order[|order| - 1])[..a])
    ensures var k := OutEdges(edges, order[|order| - 1])[a];
      k < |edges| && k !in done && edges[k] in edges && FollowedBefore(edges, order, done, k)
  {
    OutgoingEdges(edges, order[|order| - 1]);
  }

  /** The main loop, run until the queue is empty. */
  method DrainQueue(ids: seq<StepId>, edges: seq<Edge>, graph: map<StepId, seq<StepId>>, queue: seq<StepId>,
                    inDegree: map<StepId, int>)
    returns (order: seq<StepId>, degrees: map<StepId, int>)
    requires forall u :: u in ids ==> u in graph && graph[u] == Targets(edges, u)
    requires forall e :: e in edges ==> e.from in ids && e.to in ids
    requires Sorting(ids, edges, [], queue, inDegree, {})
    ensures Sorting(ids, edges, order, [], degrees, Followed(edges, order))
  {
    var waiting := queue;
    order, degrees := [], inDegree;
    assert Followed(edges, order) == {};
    while waiting != []
      invariant Sorting(ids, edges, order, waiting, degrees, Followed(edges, order))
      decreases |ids| - |order|
    {
      PopFront(ids, edges, order, waiting, degrees);
      var current := waiting[0];
      waiting := waiting[1..];
      order := order + [current];
      waiting, degrees := ReleaseSuccessors(ids, edges, graph[current], order, waiting, degrees);
    }
  }

  /**
   `get_step_order`: Kahn's algorithm. It returns the one queue order of the graph, and it
   raises exactly for duplicate ids or cycles.
  */
  method GetStepOrder(w: Workflow) returns (r: OrderResult)
    ensures r.UnknownStep? <==> !EdgesDeclared(w)
    ensures r.UnknownStep? ==> exists k: nat :: UnknownAt(StepIds(w.steps), w.edges, k, r.id)
    ensures r.Cycles? <==> EdgesDeclared(w) && (!Distinct(StepIds(w.steps)) || HasCycle(w.edges))
    ensures r.Ordered? ==> KahnOrder(StepIds(w.steps), w.edges, r.order)
    ensures r.Ordered? ==> multiset(r.order) == multiset(StepIds(w.steps))
  {
    var ids := Dedup(StepIds(w.steps));
    var unknown, graph, inDegree := BuildGraph(ids, w.edges);
    SameUnknown(w);
    if unknown.Some? {
      FirstUnknownIs(StepIds(w.steps), w.edges, unknown.value);
      return UnknownStep(unknown.value);
    }
    var queue := InitialQueue(ids, w.edges, graph, inDegree);
    var order, degrees := DrainQueue(ids, w.edges, graph, queue, inDegree);
    Verdict(w, order, degrees);
    if |order| != |w.steps| {
      return Cycles;
    }
    return Ordered(order);
  }

  lemma {:induction false} SameUnknown(w: Workflow)
    ensures FirstUnknown(Dedup(StepIds(w.steps)), w.edges) == FirstUnknown(StepIds(w.steps), w.edges)
    ensures FirstUnknown(StepIds(w.steps), w.edges).None? <==> EdgesDeclared(w)
  {
    UnknownByElements(Dedup(StepIds(w.steps)), StepIds(w.steps), w.edges);
    UnknownIsUndeclared(StepIds(w.steps), w.edges);
  }

  lemma {:induction false} UnknownByElements(ids: seq<StepId>, all: seq<StepId>, edges: seq<Edge>)
    requires forall x :: x in ids <==> x in all
    ensures FirstUnknown(ids, edges) == FirstUnknown(all, edges)
  {
    if edges != [] { UnknownByElements(ids, all, edges[1..]); }
  }

  /** The final length test separates the sortable definitions from the others. */
  lemma {:induction false} Verdict(w: Workflow, order: seq<StepId>, inDegree: map<StepId, int>)
    requires EdgesDeclared(w)
    requires Sorting(Dedup(StepIds(w.steps)), w.edges, order, [], inDegree, Followed(w.edges, order))
    ensures |order| == |w.steps| <==> Distinct(StepIds(w.steps)) && !HasCycle(w.edges)
    ensures |order| == |w.steps| ==>
      KahnOrder(StepIds(w.steps), w.edges, order) && multiset(order) == multiset(StepIds(w.steps))
  {
    Drained(Dedup(StepIds(w.steps)), w.edges, order, inDegree);
  }

  lemma {:induction false} PopFront(ids: seq<StepId>, edges: seq<Edge>, order: seq<StepId>, queue: seq<StepId>,
                                    inDegree: map<StepId, int>)
    requires queue != [] && Sorting(ids, edges, order, queue, inDegree, Followed(edges, order))
    ensures
      var longer := order + [queue[0]];
      Sorting(ids, edges, longer, queue[1..], inDegree, Followed(edges, longer[..|order|]))
    ensures queue[0] in ids && |order| < |ids|
  {
    assert order + queue == order + [queue[0]] + queue[1..];
    assert (order + [queue[0]])[..|order|] == order;
    assert queue[0] in order + queue;
    DistinctWithin(order + queue, ids);
  }

  /** An empty queue means that everything was ordered, or that a cycle holds the rest back. */
  lemma {:induction false} Drained(ids: seq<StepId>, edges: seq<Edge>, order: seq<StepId>, inDegree: map<StepId, int>)
    requires Sorting(ids, edges, order, [], inDegree, Followed(edges, order))
    requires forall e :: e in edges ==> e.from in ids && e.to in ids
    requires Distinct(ids)
    ensures |order| <= |ids|
    ensures |order| == |ids| <==> !HasCycle(edges)
    ensures |order| == |ids| ==> KahnOrder(ids, edges, order) && multiset(order) == multiset(ids)
  {
    assert order + [] == order;
    DistinctWithin(order, ids);
    if |order| == |ids| {
      CompleteOrder(ids, edges, order, inDegree);
      DistinctSameElements(order, ids);
    } else {
      LeftoverIsCyclic(ids, edges, order, inDegree);
    }
  }

  /** When the queue runs dry early, the ids left over all keep a predecessor that is left over. */
  lemma {:induction false} LeftoverIsCyclic(ids: seq<StepId>, edges: seq<Edge>, order: seq<StepId>,
                                            inDegree: map<StepId, int>)
    requires Sorting(ids, edges, order, [], inDegree, Followed(edges, order))
    requires forall e :: e in edges ==> e.from in ids && e.to in ids
    requires Distinct(ids) && |order| != |ids|
    ensures HasCycle(edges)
  {
    assert order + [] == order;
    var left := set v | v in ids && v !in order;
    assert left != {} by {
      if left == {} {
        forall v | v in ids ensures v in order { assert v !in left; }
        DistinctWithin(ids, order);
        DistinctWithin(order, ids);
      }
    }
    forall v | v in left ensures KeepsPredecessor(edges, left, v) {
      var k :| k in Incoming(edges, v, Followed(edges, order));
      assert edges[k] in edges;
    }
    LeftoverCycle(edges, left);
  }

  lemma {:induction false} CompleteOrder(ids: seq<StepId>, edges: seq<Edge>, order: seq<StepId>,
                                         inDegree: map<StepId, int>)
    requires Sorting(ids, edges, order, [], inDegree, Followed(edges, order))
    requires forall e :: e in edges ==> e.from in ids && e.to in ids
    requires Distinct(ids) && |order| >= |ids|
    ensures KahnOrder(ids, edges, order) && !HasCycle(edges)
  {
    assert order + [] == order;
    forall v | v in ids ensures v in order {
      if v !in order { DistinctWithin(order + [v], ids); }
    }
    forall e | e in edges
      ensures e.from in order && e.to in order && Position(order, e.from) < Position(order, e.to)
    {
      var k :| 0 <= k < |edges| && edges[k] == e;
      assert Placed(edges, order, k);
    }
    ForwardIsAcyclic(order, edges);
  }
}
