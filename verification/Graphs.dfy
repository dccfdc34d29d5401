/** Directed graphs given by an edge list: paths, cycles, depth and release order. */
module Graphs {
  import opened Prelude
  import opened Sequences

  /** A step identifier. */
  datatype StepId = Id(name: string)

  /** WorkflowEdge, reduced to the two fields that ordering and validation read. */
  datatype Edge = Edge(from: StepId, to: StepId)

  // ----- Paths and cycles

  ghost predicate Hop(edges: seq<Edge>, p: seq<StepId>, i: nat)
    requires i + 1 < |p|
  {
    Edge(p[i], p[i + 1]) in edges
  }

  ghost predicate IsPath(edges: seq<Edge>, p: seq<StepId>) {
    |p| > 0 && forall i: nat :: i + 1 < |p| ==> Hop(edges, p, i)
  }

  ghost predicate PathBetween(edges: seq<Edge>, p: seq<StepId>, u: StepId, v: StepId) {
    IsPath(edges, p) && p[0] == u && p[|p| - 1] == v
  }

  ghost predicate PathTo(edges: seq<Edge>, p: seq<StepId>, v: StepId) {
    IsPath(edges, p) && p[|p| - 1] == v
  }

  ghost predicate Reachable(edges: seq<Edge>, u: StepId, v: StepId) {
    exists p :: PathBetween(edges, p, u, v)
  }

  ghost predicate IsCycle(edges: seq<Edge>, p: seq<StepId>) {
    IsPath(edges, p) && |p| > 1 && p[0] == p[|p| - 1]
  }

  ghost predicate HasCycle(edges: seq<Edge>) {
    exists p :: IsCycle(edges, p)
  }

  lemma {:induction false} ExtendPath(edges: seq<Edge>, p: seq<StepId>, v: StepId)
    requires IsPath(edges, p) && Edge(p[|p| - 1], v) in edges
    ensures PathBetween(edges, p + [v], p[0], v)
  {
    forall i: nat | i + 1 < |p + [v]| ensures Hop(edges, p + [v], i) {
      if i + 1 < |p| { assert Hop(edges, p, i); }
    }
  }

  lemma {:induction false} DropLast(edges: seq<Edge>, p: seq<StepId>)
    requires IsPath(edges, p) && |p| > 1
    ensures IsPath(edges, p[..|p| - 1]) && Edge(p[|p| - 2], p[|p| - 1]) in edges
  {
    var q := p[..|p| - 1];
    forall i: nat | i + 1 < |q| ensures Hop(edges, q, i) { assert Hop(edges, p, i); }
    assert Hop(edges, p, |p| - 2);
  }

  lemma {:induction false} ReachableStep(edges: seq<Edge>, u: StepId, v: StepId, w: StepId)
    requires Reachable(edges, u, v) && Edge(v, w) in edges
    ensures Reachable(edges, u, w)
  {
    var p :| PathBetween(edges, p, u, v);
    ExtendPath(edges, p, w);
  }

  lemma {:induction false} ReachableSelf(edges: seq<Edge>, u: StepId)
    ensures Reachable(edges, u, u)
  {
    assert PathBetween(edges, [u], u, u);
  }

  /** A set that holds `u` and is closed under the edges holds everything reachable from `u`. */
  lemma {:induction false} ClosedHoldsPath(edges: seq<Edge>, closed: set<StepId>, p: seq<StepId>)
    requires IsPath(edges, p) && p[0] in closed
    requires forall e :: e in edges && e.from in closed ==> e.to in closed
    ensures p[|p| - 1] in closed
  {
    if |p| == 1 {
    } else {
      DropLast(edges, p);
      ClosedHoldsPath(edges, closed, p[..|p| - 1]);
    }
  }

  // ----- Edges that go forward exclude cycles

  ghost predicate Forward(order: seq<StepId>, edges: seq<Edge>) {
    forall e :: e in edges ==>
      e.from in order && e.to in order && Position(order, e.from) < Position(order, e.to)
  }

  lemma {:induction false} PathAdvances(order: seq<StepId>, edges: seq<Edge>, p: seq<StepId>)
    requires Forward(order, edges) && IsPath(edges, p)
    ensures Position(order, p[0]) + |p| - 1 <= Position(order, p[|p| - 1])
  {
    if |p| == 1 {
    } else {
      DropLast(edges, p);
      PathAdvances(order, edges, p[..|p| - 1]);
    }
  }

  lemma {:induction false} ForwardIsAcyclic(order: seq<StepId>, edges: seq<Edge>)
    requires Forward(order, edges)
    ensures !HasCycle(edges)
  {
    forall p | IsCycle(edges, p) ensures false { PathAdvances(order, edges, p); }
  }

  // ----- A non-empty set in which everybody keeps a predecessor holds a cycle

  ghost predicate KeepsPredecessor(edges: seq<Edge>, left: set<StepId>, v: StepId) {
    exists e :: e in edges && e.to == v && e.from in left
  }

  ghost predicate KeepsPredecessors(edges: seq<Edge>, left: set<StepId>) {
    forall v {:trigger KeepsPredecessor(edges, left, v)} :: v in left ==> KeepsPredecessor(edges, left, v)
  }

  lemma {:induction false} WalkBack(edges: seq<Edge>, left: set<StepId>, v: StepId, n: nat) returns (p: seq<StepId>)
    requires v in left
    requires KeepsPredecessors(edges, left)
    ensures PathTo(edges, p, v) && |p| == n + 1 && forall x :: x in p ==> x in left
    decreases n
  {
    if n == 0 {
      p := [v];
    } else {
      assert KeepsPredecessor(edges, left, v);
      var e :| e in edges && e.to == v && e.from in left;
      var q := WalkBack(edges, left, e.from, n - 1);
      ExtendPath(edges, q, v);
      p := q + [v];
    }
  }

  lemma {:induction false} LeftoverCycle(edges: seq<Edge>, left: set<StepId>)
    requires left != {}
    requires KeepsPredecessors(edges, left)
    ensures HasCycle(edges)
  {
    var v :| v in left;
    var p := WalkBack(edges, left, v, |left|);
    assert !Distinct(p) by {
      if Distinct(p) { DistinctBound(p, left); }
    }
    var i, j :| 0 <= i < j < |p| && p[i] == p[j];
    RepeatIsCycle(edges, p, i, j);
  }

  lemma {:induction false} RepeatIsCycle(edges: seq<Edge>, p: seq<StepId>, i: nat, j: nat)
    requires IsPath(edges, p) && i < j < |p| && p[i] == p[j]
    ensures HasCycle(edges)
  {
    var c := p[i..j + 1];
    forall k: nat | k + 1 < |c| ensures Hop(edges, c, k) { assert Hop(edges, p, i + k); }
    assert IsCycle(edges, c);
  }

  // ----- Release order: the order in which a FIFO queue lets steps go

  ghost predicate Into(edges: seq<Edge>, k: int, v: StepId) {
    0 <= k < |edges| && edges[k].to == v
  }

  ghost predicate IsSource(edges: seq<Edge>, v: StepId) {
    forall k :: 0 <= k < |edges| ==> !Into(edges, k, v)
  }

  /** Edge `j` is followed before edge `k`: by position of its source in `order`, then by edge index. */
  ghost predicate Sooner(edges: seq<Edge>, order: seq<StepId>, j: int, k: int)
    requires 0 <= j < |edges| && 0 <= k < |edges|
  {
    var pj, pk := Position(order, edges[j].from), Position(order, edges[k].from);
    pj < pk || (pj == pk && j < k)
  }

  /** `k` is an edge into `v` that is followed after every edge into `u`. */
  ghost predicate Trails(edges: seq<Edge>, order: seq<StepId>, u: StepId, v: StepId, k: int) {
    Into(edges, k, v) && forall j :: Into(edges, j, u) ==> Sooner(edges, order, j, k)
  }

  /** `u` loses its last incoming edge before `v` does; sources go first, in declaration order. */
  ghost predicate ReleasedBefore(ids: seq<StepId>, edges: seq<Edge>, order: seq<StepId>, u: StepId, v: StepId) {
    if IsSource(edges, v) then IsSource(edges, u) && Position(ids, u) < Position(ids, v)
    else exists k :: Trails(edges, order, u, v, k)
  }

  ghost predicate ReleaseSorted(ids: seq<StepId>, edges: seq<Edge>, order: seq<StepId>) {
    forall i, j {:trigger ReleasedBefore(ids, edges, order, order[i], order[j])} ::
      0 <= i < j < |order| ==> ReleasedBefore(ids, edges, order, order[i], order[j])
  }

  /**
   What a queue-driven topological sort returns: each id once, every edge forward, and ids in
   release order.
  */
  ghost predicate KahnOrder(ids: seq<StepId>, edges: seq<Edge>, order: seq<StepId>) {
    && Distinct(order)
    && (forall x :: x in order <==> x in ids)
    && Forward(order, edges)
    && ReleaseSorted(ids, edges, order)
  }

  /** The specification pins the result down: a graph has at most one such order. */
  lemma {:induction false} KahnOrderUnique(ids: seq<StepId>, edges: seq<Edge>, a: seq<StepId>, b: seq<StepId>)
    requires KahnOrder(ids, edges, a) && KahnOrder(ids, edges, b)
    ensures a == b
  {
    DistinctSameElements(a, b);
    assert |a| == |multiset(a)| == |multiset(b)| == |b|;
    KahnPrefix(ids, edges, a, b, |a|);
    assert a == a[..|a|] && b == b[..|b|];
  }

  lemma {:induction false} KahnPrefix(ids: seq<StepId>, edges: seq<Edge>, a: seq<StepId>, b: seq<StepId>, n: nat)
    requires KahnOrder(ids, edges, a) && KahnOrder(ids, edges, b) && |a| == |b| && n <= |a|
    ensures a[..n] == b[..n]
  {
    if n == 0 {
    } else {
      KahnPrefix(ids, edges, a, b, n - 1);
      KahnNext(ids, edges, a, b, n - 1);
      assert a[..n] == a[..n - 1] + [a[n - 1]];
      assert b[..n] == b[..n - 1] + [b[n - 1]];
    }
  }

  /** Two orders that agree up to `n` agree on the next id: otherwise each would precede the other. */
  lemma {:induction false} KahnNext(ids: seq<StepId>, edges: seq<Edge>, a: seq<StepId>, b: seq<StepId>, n: nat)
    requires KahnOrder(ids, edges, a) && KahnOrder(ids, edges, b)
    requires n < |a| == |b| && a[..n] == b[..n]
    ensures a[n] == b[n]
  {
    var u, v := a[n], b[n];
    if u != v {
      LaterElement(a, b, n);
      LaterElement(b, a, n);
      assert ReleasedBefore(ids, edges, a, u, v);
      assert ReleasedBefore(ids, edges, b, v, u);
      if exists k :: Trails(edges, a, u, v, k) {
        var kv :| Trails(edges, a, u, v, kv);
        var ku :| Trails(edges, b, v, u, ku);
        SourceInPrefix(a, edges, n, ku);
        SourceInPrefix(b, edges, n, kv);
        PrefixPosition(a, b, n, edges[ku].from);
        PrefixPosition(a, b, n, edges[kv].from);
      }
    }
  }

  lemma {:induction false} LaterElement(a: seq<StepId>, b: seq<StepId>, n: nat)
    requires Distinct(a) && Distinct(b) && (forall x :: x in a <==> x in b)
    requires n < |a| && n < |b| && a[..n] == b[..n] && a[n] != b[n]
    ensures exists j :: n < j < |a| && a[j] == b[n]
  {
    assert b[n] in a;
    assert forall i :: 0 <= i < n ==> a[..n][i] == b[..n][i];
    var j := Position(a, b[n]);
    assert a[j] == b[n];
  }

  lemma {:induction false} SourceInPrefix(a: seq<StepId>, edges: seq<Edge>, n: nat, k: nat)
    requires Distinct(a) && Forward(a, edges) && n < |a| && Into(edges, k, a[n])
    ensures edges[k].from in a[..n]
  {
  }

  lemma {:induction false} PrefixPosition(a: seq<StepId>, b: seq<StepId>, n: nat, x: StepId)
    requires n <= |a| && n <= |b| && a[..n] == b[..n] && x in a[..n]
    ensures Position(a, x) == Position(b, x)
  {
    assert a == a[..n] + a[n..] && b == b[..n] + b[n..];
    PositionAppend(a[..n], a[n..], x);
    PositionAppend(b[..n], b[n..], x);
  }

  // ----- Depth: length of the longest path that ends in a step

  ghost predicate HasDepth(edges: seq<Edge>, v: StepId, d: nat) {
    && (exists p :: PathTo(edges, p, v) && |p| == d + 1)
    && (forall p :: PathTo(edges, p, v) ==> |p| <= d + 1)
  }

  /** A predecessor of an earlier id is placed no later than some predecessor of a later id. */
  lemma {:induction false} LaterPredecessor(ids: seq<StepId>, edges: seq<Edge>, order: seq<StepId>, i: nat, j: nat,
                                            w: StepId)
    returns (x: nat)
    requires KahnOrder(ids, edges, order) && i < j < |order| && Edge(w, order[i]) in edges
    ensures Position(order, w) <= x < j && Edge(order[x], order[j]) in edges
  {
    var m := Position(edges, Edge(w, order[i]));
    assert Into(edges, m, order[i]);
    assert ReleasedBefore(ids, edges, order, order[i], order[j]);
    var k :| Trails(edges, order, order[i], order[j], k);
    assert Sooner(edges, order, m, k);
    assert edges[k] in edges;
    PositionOf(order, j);
    x := Position(order, edges[k].from);
  }

  /** Any path into an id is matched by an equally long path into every later id. */
  lemma {:induction false} LaterIsAsDeep(ids: seq<StepId>, edges: seq<Edge>, order: seq<StepId>, i: nat, j: nat,
                                         p: seq<StepId>)
    returns (q: seq<StepId>)
    requires KahnOrder(ids, edges, order) && i <= j < |order|
    requires PathTo(edges, p, order[i])
    ensures PathTo(edges, q, order[j]) && |q| >= |p|
    decreases j
  {
    if i == j {
      q := p;
    } else if |p| == 1 {
      q := [order[j]];
    } else {
      DropLast(edges, p);
      var x := LaterPredecessor(ids, edges, order, i, j, p[|p| - 2]);
      var r := LaterIsAsDeep(ids, edges, order, Position(order, p[|p| - 2]), x, p[..|p| - 1]);
      ExtendPath(edges, r, order[j]);
      q := r + [order[j]];
    }
  }

  /** Ids come out in non-decreasing longest-path depth. */
  lemma {:induction false} DepthNonDecreasing(ids: seq<StepId>, edges: seq<Edge>, order: seq<StepId>, i: nat, j: nat,
                                              di: nat, dj: nat)
    requires KahnOrder(ids, edges, order) && i < j < |order|
    requires HasDepth(edges, order[i], di) && HasDepth(edges, order[j], dj)
    ensures di <= dj
  {
    var p :| PathTo(edges, p, order[i]) && |p| == di + 1;
    var q := LaterIsAsDeep(ids, edges, order, i, j, p);
  }

  /** Every step of a sortable graph has a depth, and it is at most the step's place in the order. */
  lemma {:induction false} DepthExists(order: seq<StepId>, edges: seq<Edge>, i: nat) returns (d: nat)
    requires Distinct(order) && Forward(order, edges) && i < |order|
    ensures HasDepth(edges, order[i], d) && d <= i
  {
    d := i;
    PositionOf(order, i);
    forall p | PathTo(edges, p, order[i]) ensures |p| <= i + 1 { PathAdvances(order, edges, p); }
    while !exists p :: PathTo(edges, p, order[i]) && |p| == d + 1
      invariant d <= i
      invariant forall p :: PathTo(edges, p, order[i]) ==> |p| <= d + 1
      decreases d
    {
      assert PathTo(edges, [order[i]], order[i]);
      d := d - 1;
    }
  }

  // ----- Edge-list bookkeeping

  /** Indices of the edges that leave `u`, in list order. */
  function OutEdges(edges: seq<Edge>, u: StepId): seq<nat> {
    if edges == [] then []
    else
      var n := |edges| - 1;
      OutEdges(edges[..n], u) + if edges[n].from == u then [n] else []
  }

  /** The adjacency list of `u`. */
  function Targets(edges: seq<Edge>, u: StepId): seq<StepId> {
    if edges == [] then []
    else
      var n := |edges| - 1;
      Targets(edges[..n], u) + if edges[n].from == u then [edges[n].to] else []
  }

  /** The adjacency list follows the outgoing edges, each once and in list order. */
  lemma {:induction false} OutgoingEdges(edges: seq<Edge>, u: StepId)
    ensures
      var out := OutEdges(edges, u);
      && (forall a :: 0 <= a < |out| ==> out[a] < |edges| && edges[out[a]].from == u)
      && (forall a, b :: 0 <= a < b < |out| ==> out[a] < out[b])
      && (forall k: nat :: k < |edges| && edges[k].from == u ==> k in out)
      && |Targets(edges, u)| == |out|
      && (forall a :: 0 <= a < |out| ==> Targets(edges, u)[a] == edges[out[a]].to)
  {
    if edges == [] {
    } else {
      OutgoingEdges(edges[..|edges| - 1], u);
    }
  }

  /** Edges into `v` that have not been followed yet. */
  ghost function Incoming(edges: seq<Edge>, v: StepId, done: set<nat>): set<nat> {
    set k: nat | k < |edges| && edges[k].to == v && k !in done
  }

  /** The first id an edge mentions that is not declared, scanning sources before targets. */
  function FirstUnknown(ids: seq<StepId>, edges: seq<Edge>): Option<StepId> {
    if edges == [] then None
    else if edges[0].from !in ids then Some(edges[0].from)
    else if edges[0].to !in ids then Some(edges[0].to)
    else FirstUnknown(ids, edges[1..])
  }

  /** Edge `k` is the first with an undeclared endpoint; `id` is that endpoint, the source if both are. */
  ghost predicate UnknownAt(ids: seq<StepId>, edges: seq<Edge>, k: nat, id: StepId) {
    && k < |edges| && (forall j :: 0 <= j < k ==> edges[j].from in ids && edges[j].to in ids)
    && id !in ids && id == if edges[k].from in ids then edges[k].to else edges[k].from
  }

  /** The reported id is the one that a reader of the edge list meets first. */
  lemma {:induction false} FirstUnknownIs(ids: seq<StepId>, edges: seq<Edge>, id: StepId)
    ensures FirstUnknown(ids, edges) == Some(id) <==> exists k: nat :: UnknownAt(ids, edges, k, id)
  {
    if edges != [] {
      FirstUnknownIs(ids, edges[1..], id);
      if edges[0].from !in ids || edges[0].to !in ids {
        assert forall k: nat :: UnknownAt(ids, edges, k, id) ==> k == 0;
        assert UnknownAt(ids, edges, 0, id) <==> FirstUnknown(ids, edges) == Some(id);
      } else {
        forall k: nat ensures UnknownAt(ids, edges, k + 1, id) <==> UnknownAt(ids, edges[1..], k, id) {
          ShiftUnknown(ids, edges, k, id);
        }
        assert !UnknownAt(ids, edges, 0, id);
        if k: nat :| UnknownAt(ids, edges, k, id) { assert UnknownAt(ids, edges[1..], k - 1, id); }
      }
    }
  }

  lemma {:induction false} ShiftUnknown(ids: seq<StepId>, edges: seq<Edge>, k: nat, id: StepId)
    requires edges != [] && edges[0].from in ids && edges[0].to in ids
    ensures UnknownAt(ids, edges, k + 1, id) <==> UnknownAt(ids, edges[1..], k, id)
  {
    assert forall j :: 0 <= j < |edges| - 1 ==> edges[1..][j] == edges[j + 1];
    if UnknownAt(ids, edges[1..], k, id) {
      forall j | 0 <= j < k + 1 ensures edges[j].from in ids && edges[j].to in ids {
        if j > 0 { assert edges[j] == edges[1..][j - 1]; }
      }
    }
  }

  lemma {:induction false} UnknownIsUndeclared(ids: seq<StepId>, edges: seq<Edge>)
    ensures FirstUnknown(ids, edges).None? <==> forall e :: e in edges ==> e.from in ids && e.to in ids
  {
    if edges == [] {
    } else {
      UnknownIsUndeclared(ids, edges[1..]);
      assert edges == [edges[0]] + edges[1..];
    }
  }
}
