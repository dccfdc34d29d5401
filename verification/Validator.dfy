/** Workflow validation (app/domain/workflows/validator.py). */
module Validator {
  import opened Prelude
  import opened Sequences
  import opened Graphs
  import opened Schemas
  import opened Problems

  datatype Validation = Checked(errors: seq<Problem>) | KeyError(id: StepId)

  // ----- What each pass reports

  function ConfigProblems(id: StepId, messages: seq<string>): (r: seq<Problem>)
    ensures |r| == |messages|
  {
    seq(|messages|, i requires 0 <= i < |messages| => BadConfig(id, messages[i]))
  }

  /** `errors` with what one more step adds: a duplicate id, then its implementation or its override. */
  function AddProblems(registry: Registry, errors: seq<Problem>, earlier: seq<StepId>, step: Step): seq<Problem> {
    var checked := if step.id in earlier then errors + [DuplicateStep(step.id)] else errors;
    if step.implementation !in registry then checked + [UnknownImplementation(step.id, step.implementation)]
    else if step.configOverride == map[] then checked
    else checked + ConfigProblems(step.id, registry[step.implementation](step.configOverride))
  }

  function StepProblems(registry: Registry, steps: seq<Step>): seq<Problem> {
    if steps == [] then []
    else
      var n := |steps| - 1;
      AddProblems(registry, StepProblems(registry, steps[..n]), StepIds(steps[..n]), steps[n])
  }

  function EdgeProblems(ids: seq<StepId>, edges: seq<Edge>): seq<Problem> {
    if edges == [] then []
    else
      var n := |edges| - 1;
      EdgeProblems(ids, edges[..n])
      + (if edges[n].from !in ids then [SourceNotFound(n, edges[n].from)] else [])
      + (if edges[n].to !in ids then [TargetNotFound(n, edges[n].to)] else [])
      + (if edges[n].from == edges[n].to then [SelfLoop(n, edges[n].from)] else [])
  }

  /** The edges whose source is declared; the search ignores the others. */
  function Known(ids: seq<StepId>, edges: seq<Edge>): seq<Edge> {
    if edges == [] then []
    else
      var n := |edges| - 1;
      Known(ids, edges[..n]) + if edges[n].from in ids then [edges[n]] else []
  }

  lemma {:induction false} KnownEdges(ids: seq<StepId>, edges: seq<Edge>)
    ensures forall e :: e in Known(ids, edges) <==> e in edges && e.from in ids
  {
    if edges == [] {
    } else {
      var n := |edges| - 1;
      KnownEdges(ids, edges[..n]);
      assert edges == edges[..n] + [edges[n]];
    }
  }

  lemma {:induction false} KnownSize(ids: seq<StepId>, edges: seq<Edge>)
    ensures |Known(ids, edges)| <= |edges|
    ensures (forall e :: e in edges ==> e.from in ids) ==> Known(ids, edges) == edges
  {
    if edges == [] {
    } else {
      var n := |edges| - 1;
      KnownSize(ids, edges[..n]);
      assert edges[n] in edges && edges == edges[..n] + [edges[n]];
    }
  }

  ghost function UnreachableSteps(w: Workflow): set<StepId>
    requires w.steps != []
  {
    var ids := StepIds(w.steps);
    set v | v in ids && !Reachable(Known(ids, w.edges), ids[0], v)
  }

  ghost function ConnectivityProblems(w: Workflow): seq<Problem> {
    if w.steps == [] then []
    else
      (if w.edges != [] && UnreachableSteps(w) != {} then [Unreachable(UnreachableSteps(w))] else [])
      + (if !Distinct(StepIds(w.steps)) || HasCycle(w.edges) then [CycleFound] else [])
  }

  ghost function Report(registry: Registry, w: Workflow): seq<Problem> {
    StepProblems(registry, w.steps) + EdgeProblems(StepIds(w.steps), w.edges) + ConnectivityProblems(w)
  }

  // ----- The passes

  method ValidateSteps(registry: Registry, w: Workflow) returns (errors: seq<Problem>)
    ensures errors == StepProblems(registry, w.steps)
    ensures Listed(registry, w, errors, STEPS, EDGES)
  {
    errors := [];
    var steps := w.steps;
    var seen: set<StepId> := {};
    for i := 0 to |steps|
      invariant errors == StepProblems(registry, steps[..i])
      invariant seen == Elements(StepIds(steps[..i]))
    {
      var step := steps[i];
      StepProblemsNext(registry, steps, i);
      if step.id in seen {
        errors := errors + [DuplicateStep(step.id)];
      }
      seen := seen + {step.id};
      if step.implementation !in registry {
        errors := errors + [UnknownImplementation(step.id, step.implementation)];
      }
      if step.implementation in registry && step.configOverride != map[] {
        errors := errors + ConfigProblems(step.id, registry[step.implementation](step.configOverride));
      }
    }
    assert steps[..|steps|] == steps;
    AllStepsListed(registry, w);
  }

  lemma {:induction false} StepProblemsNext(registry: Registry, steps: seq<Step>, i: nat)
    requires i < |steps|
    ensures StepProblems(registry, steps[..i + 1]) ==
      AddProblems(registry, StepProblems(registry, steps[..i]), StepIds(steps[..i]), steps[i])
    ensures Elements(StepIds(steps[..i + 1])) == Elements(StepIds(steps[..i])) + {steps[i].id}
  {
    assert steps[..i + 1][..i] == steps[..i];
    assert StepIds(steps[..i + 1]) == StepIds(steps[..i]) + [steps[i].id];
  }

  method ValidateEdges(w: Workflow) returns (errors: seq<Problem>)
    ensures errors == EdgeProblems(StepIds(w.steps), w.edges)
    ensures forall registry :: Listed(registry, w, errors, EDGES, CONNECTIVITY)
  {
    errors := [];
    var ids := StepIds(w.steps);
    for i := 0 to |w.edges|
      invariant errors == EdgeProblems(ids, w.edges[..i])
    {
      var e := w.edges[i];
      if e.from !in ids {
        errors := errors + [SourceNotFound(i, e.from)];
      }
      if e.to !in ids {
        errors := errors + [TargetNotFound(i, e.to)];
      }
      if e.from == e.to {
        errors := errors + [SelfLoop(i, e.from)];
      }
      assert w.edges[..i + 1][..i] == w.edges[..i];
    }
    assert w.edges[..|w.edges|] == w.edges;
    forall registry ensures Listed(registry, w, errors, EDGES, CONNECTIVITY) { AllEdgesListed(registry, w); }
  }

  // ----- Breadth-first search

  method BuildAdjacency(ids: seq<StepId>, edges: seq<Edge>) returns (graph: map<StepId, seq<StepId>>)
    ensures forall u :: u in ids <==> u in graph
    ensures forall u :: u in ids ==> graph[u] == Targets(Known(ids, edges), u)
  {
    graph := map u | u in ids :: [];
    for i := 0 to |edges|
      invariant forall u :: u in ids <==> u in graph
      invariant forall u :: u in ids ==> graph[u] == Targets(Known(ids, edges[..i]), u)
    {
      forall u ensures Targets(Known(ids, edges[..i + 1]), u) ==
        Targets(Known(ids, edges[..i]), u) + if edges[i].from in ids && edges[i].from == u then [edges[i].to] else []
      {
        KnownNext(ids, edges, i, u);
      }
      if edges[i].from in graph {
        graph := graph[edges[i].from := graph[edges[i].from] + [edges[i].to]];
      }
    }
    assert edges[..|edges|] == edges;
  }

  lemma {:induction false} KnownNext(ids: seq<StepId>, edges: seq<Edge>, i: nat, u: StepId)
    requires i < |edges|
    ensures Targets(Known(ids, edges[..i + 1]), u) ==
      Targets(Known(ids, edges[..i]), u) + if edges[i].from in ids && edges[i].from == u then [edges[i].to] else []
  {
    assert edges[..i + 1][..i] == edges[..i];
    var before, after := Known(ids, edges[..i]), Known(ids, edges[..i + 1]);
    if edges[i].from in ids {
      assert after == before + [edges[i]] && after[..|before|] == before;
    } else {
      assert after == before;
    }
  }

  /** Indices of the edges that leave a visited step: one push each. */
  ghost function LeavingEdges(edges: seq<Edge>, visited: set<StepId>): set<nat> {
    set k: nat | k < |edges| && edges[k].from in visited
  }

  lemma {:induction false} IndexBound(s: set<nat>, n: nat)
    requires forall k :: k in s ==> k < n
    ensures |s| <= n
  {
    if n == 0 {
      assert s == {};
    } else {
      IndexBound(s - {n - 1}, n - 1);
    }
  }

  /** Visiting `u` follows exactly its outgoing edges. */
  lemma {:induction false} VisitEdges(edges: seq<Edge>, visited: set<StepId>, u: StepId)
    requires u !in visited
    ensures |LeavingEdges(edges, visited + {u})| == |LeavingEdges(edges, visited)| + |Targets(edges, u)|
  {
    var out := OutEdges(edges, u);
    OutgoingEdges(edges, u);
    IncreasingSize(out);
    assert LeavingEdges(edges, visited + {u}) == LeavingEdges(edges, visited) + Elements(out);
    assert LeavingEdges(edges, visited) !! Elements(out);
  }

  lemma {:induction false} IncreasingSize(s: seq<nat>)
    requires forall a, b :: 0 <= a < b < |s| ==> s[a] < s[b]
    ensures |Elements(s)| == |s|
  {
    if s == [] {
    } else {
      var n := |s| - 1;
      IncreasingSize(s[..n]);
      assert s == s[..n] + [s[n]];
      assert Elements(s) == Elements(s[..n]) + {s[n]};
    }
  }

  lemma {:induction false} TargetIsSuccessor(edges: seq<Edge>, u: StepId, v: StepId)
    ensures v in Targets(edges, u) <==> Edge(u, v) in edges
  {
    var out := OutEdges(edges, u);
    OutgoingEdges(edges, u);
    if Edge(u, v) in edges {
      var k: nat :| k < |edges| && edges[k] == Edge(u, v);
      assert k in out;
      var a :| 0 <= a < |out| && out[a] == k;
      assert Targets(edges, u)[a] == v;
    }
    if v in Targets(edges, u) {
      var a :| 0 <= a < |out| && Targets(edges, u)[a] == v;
      assert edges[out[a]] == Edge(u, v);
    }
  }

  /** `visited` and `queue` during the search from `start`. */
  ghost predicate Searching(edges: seq<Edge>, start: StepId, visited: set<StepId>, queue: seq<StepId>) {
    && (start in visited || start in queue)
    && (forall x :: x in visited || x in queue ==> Reachable(edges, start, x))
    && (forall e :: e in edges && e.from in visited ==> e.to in visited || e.to in queue)
  }

  lemma {:induction false} Visit(edges: seq<Edge>, start: StepId, visited: set<StepId>, queue: seq<StepId>)
    requires queue != [] && Searching(edges, start, visited, queue)
    ensures queue[0] in visited ==> Searching(edges, start, visited, queue[1..])
    ensures Searching(edges, start, visited + {queue[0]}, queue[1..] + Targets(edges, queue[0]))
  {
    var u := queue[0];
    assert queue == [u] + queue[1..];
    forall v | v in Targets(edges, u) ensures Reachable(edges, start, v) {
      TargetIsSuccessor(edges, u, v);
      ReachableStep(edges, start, u, v);
    }
    forall e | e in edges && e.from == u ensures e.to in Targets(edges, u) {
      TargetIsSuccessor(edges, u, e.to);
    }
  }

  lemma {:induction false} SearchDone(edges: seq<Edge>, start: StepId, visited: set<StepId>)
    requires Searching(edges, start, visited, [])
    ensures forall v :: v in visited <==> Reachable(edges, start, v)
  {
    forall v | Reachable(edges, start, v) ensures v in visited {
      var p :| PathBetween(edges, p, start, v);
      ClosedHoldsPath(edges, visited, p);
    }
  }

  ghost predicate WithinNodes(edges: seq<Edge>, start: StepId, xs: seq<StepId>) {
    forall x :: x in xs ==> x in Nodes(edges, start)
  }

  ghost function Nodes(edges: seq<Edge>, start: StepId): set<StepId> {
    {start} + set e | e in edges :: e.to
  }

  lemma {:induction false} TargetsAreNodes(edges: seq<Edge>, start: StepId, u: StepId)
    ensures WithinNodes(edges, start, Targets(edges, u))
  {
    forall v | v in Targets(edges, u) ensures v in Nodes(edges, start) {
      TargetIsSuccessor(edges, u, v);
    }
  }

  /**
   `_get_reachable_steps`: exactly the ids on a path from the first step, after at most
   `1 + |edges|` queue insertions although ids may be queued repeatedly.
  */
  method GetReachableSteps(w: Workflow) returns (reachable: set<StepId>, ghost pushes: nat)
    ensures w.steps == [] ==> reachable == {}
    ensures w.steps != [] ==> forall v ::
      v in reachable <==> Reachable(Known(StepIds(w.steps), w.edges), w.steps[0].id, v)
    ensures w.steps != [] ==> pushes == 1 + |LeavingEdges(Known(StepIds(w.steps), w.edges), reachable)|
    ensures pushes <= 1 + |w.edges|
  {
    if w.steps == [] {
      return {}, 0;
    }
    var ids := StepIds(w.steps);
    var graph := BuildAdjacency(ids, w.edges);
    ghost var known := Known(ids, w.edges);
    var start := w.steps[0].id;
    reachable := {};
    var queue := [start];
    pushes := 1;
    ReachableSelf(known, start);
    while queue != []
      invariant Searching(known, start, reachable, queue)
      invariant WithinNodes(known, start, queue)
      invariant pushes == 1 + |LeavingEdges(known, reachable)|
      decreases Nodes(known, start) - reachable, |queue|
    {
      var current := queue[0];
      Visit(known, start, reachable, queue);
      queue := queue[1..];
      if current !in reachable {
        VisitEdges(known, reachable, current);
        TargetsAreNodes(known, start, current);
        NoTargets(ids, w.edges, current);
        var successors := if current in graph then graph[current] else [];
        reachable := reachable + {current};
        queue := queue + successors;
        pushes := pushes + |successors|;
      }
    }
    SearchDone(known, start, reachable);
    IndexBound(LeavingEdges(known, reachable), |known|);
    KnownSize(ids, w.edges);
  }

  lemma {:induction false} NoTargets(ids: seq<StepId>, edges: seq<Edge>, u: StepId)
    ensures u !in ids ==> Targets(Known(ids, edges), u) == []
  {
    KnownEdges(ids, edges);
    var t := Targets(Known(ids, edges), u);
    if t != [] {
      TargetIsSuccessor(Known(ids, edges), u, t[0]);
    }
  }

  // ----- validate

  /** `_validate_connectivity`; the KeyError of the sort is not a ValueError and escapes. */
  method ValidateConnectivity(w: Workflow) returns (r: Validation)
    ensures r.KeyError? <==> w.steps != [] && !EdgesDeclared(w)
    ensures r.KeyError? ==> exists k: nat :: UnknownAt(StepIds(w.steps), w.edges, k, r.id)
    ensures r.Checked? ==> r.errors == ConnectivityProblems(w)
    ensures r.Checked? ==> forall registry :: Listed(registry, w, r.errors, CONNECTIVITY, END)
  {
    forall registry | w.steps == [] || EdgesDeclared(w)
      ensures Listed(registry, w, ConnectivityProblems(w), CONNECTIVITY, END)
    {
      ConnectivityListed(registry, w);
    }
    if w.steps == [] {
      return Checked([]);
    }
    var errors: seq<Problem> := [];
    if w.edges != [] {
      ghost var pushes;
      var reachable;
      reachable, pushes := GetReachableSteps(w);
      var unreachable := set v | v in StepIds(w.steps) && v !in reachable;
      assert unreachable == UnreachableSteps(w);
      if unreachable != {} {
        errors := errors + [Unreachable(unreachable)];
      }
    }
    var order := GetStepOrder(w);
    match order
    case UnknownStep(id) => return KeyError(id);
    case Cycles => return Checked(errors + [CycleFound]);
    case Ordered(_) => return Checked(errors);
  }

  /**
   `validate`: the three reports in turn. An edge to an undeclared step, which construction
   excludes, surfaces as the KeyError of the sort.
  */
  method Validate(registry: Registry, w: Workflow) returns (r: Validation)
    ensures r.KeyError? <==> w.steps != [] && !EdgesDeclared(w)
    ensures r.KeyError? ==> exists k: nat :: UnknownAt(StepIds(w.steps), w.edges, k, r.id)
    ensures r.Checked? ==> r.errors == Report(registry, w)
    ensures r.Checked? ==> Listed(registry, w, r.errors, STEPS, END)
  {
    if w.steps == [] || EdgesDeclared(w) {
      ReportListed(registry, w);
    }
    var stepErrors := ValidateSteps(registry, w);
    var edgeErrors := ValidateEdges(w);
    var connectivity := ValidateConnectivity(w);
    match connectivity
    case KeyError(id) => return KeyError(id);
    case Checked(errors) => return Checked(stepErrors + edgeErrors + errors);
  }

  // ----- The report lists every problem once, in order

  lemma {:induction false} DuplicateListed(registry: Registry, w: Workflow, i: nat)
    requires i < |w.steps|
    ensures
      var errors := if w.steps[i].id in StepIds(w.steps[..i]) then [DuplicateStep(w.steps[i].id)] else [];
      Listed(registry, w, errors, Place(0, i, 0, 0), Place(0, i, 1, 0))
  {
    var from, to, id := Place(0, i, 0, 0), Place(0, i, 1, 0), w.steps[i].id;
    if id in StepIds(w.steps[..i]) {
      var j :| 0 <= j < i && StepIds(w.steps[..i])[j] == id;
      assert w.steps[j].id == id;
      ListOne(registry, w, from, to, DuplicateStep(id));
    } else {
      assert forall j :: 0 <= j < i ==> StepIds(w.steps[..i])[j] == w.steps[j].id;
      ListNothing(registry, w, from, to);
    }
  }

  lemma {:induction false} UnknownListed(registry: Registry, w: Workflow, i: nat)
    requires i < |w.steps|
    ensures
      var step := w.steps[i];
      var errors := if step.implementation in registry then []
                    else [UnknownImplementation(step.id, step.implementation)];
      Listed(registry, w, errors, Place(0, i, 1, 0), Place(0, i, 2, 0))
  {
    var step := w.steps[i];
    if step.implementation in registry {
      ListNothing(registry, w, Place(0, i, 1, 0), Place(0, i, 2, 0));
    } else {
      var p := UnknownImplementation(step.id, step.implementation);
      ListOne(registry, w, Place(0, i, 1, 0), Place(0, i, 2, 0), p);
    }
  }

  /** The messages for one override, if there are any to give. */
  ghost function Messages(registry: Registry, step: Step): seq<string> {
    if step.implementation in registry && step.configOverride != map[]
    then registry[step.implementation](step.configOverride) else []
  }

  lemma {:induction false} MessageListed(registry: Registry, w: Workflow, i: nat, k: nat)
    requires i < |w.steps| && k < |Messages(registry, w.steps[i])|
    ensures
      var step := w.steps[i];
      Listed(registry, w, [BadConfig(step.id, Messages(registry, step)[k])], Place(0, i, 2, k), Place(0, i, 2, k + 1))
  {
    var p := BadConfig(w.steps[i].id, Messages(registry, w.steps[i])[k]);
    ListOne(registry, w, Place(0, i, 2, k), Place(0, i, 2, k + 1), p);
  }

  lemma {:induction false} MessagesListed(registry: Registry, w: Workflow, i: nat, k: nat)
    requires i < |w.steps| && k <= |Messages(registry, w.steps[i])|
    ensures
      var step := w.steps[i];
      Listed(registry, w, ConfigProblems(step.id, Messages(registry, step)[..k]), Place(0, i, 2, 0), Place(0, i, 2, k))
  {
    var step := w.steps[i];
    var messages := Messages(registry, step);
    if k == 0 {
      ListNothing(registry, w, Place(0, i, 2, 0), Place(0, i, 2, 0));
      assert ConfigProblems(step.id, messages[..0]) == [];
    } else {
      var before, p := ConfigProblems(step.id, messages[..k - 1]), BadConfig(step.id, messages[k - 1]);
      assert ConfigProblems(step.id, messages[..k]) == before + [p];
      MessagesListed(registry, w, i, k - 1);
      MessageListed(registry, w, i, k - 1);
      ListMore(registry, w, before, [p], Place(0, i, 2, 0), Place(0, i, 2, k - 1), Place(0, i, 2, k));
    }
  }

  lemma {:induction false} ConfigListed(registry: Registry, w: Workflow, i: nat)
    requires i < |w.steps|
    ensures
      var step := w.steps[i];
      Listed(registry, w, ConfigProblems(step.id, Messages(registry, step)), Place(0, i, 2, 0), Place(0, i + 1, 0, 0))
  {
    var messages := Messages(registry, w.steps[i]);
    var n := |messages|;
    var problems := ConfigProblems(w.steps[i].id, messages);
    MessagesListed(registry, w, i, n);
    assert messages[..n] == messages;
    ListNothing(registry, w, Place(0, i, 2, n), Place(0, i + 1, 0, 0));
    ListMore(registry, w, problems, [], Place(0, i, 2, 0), Place(0, i, 2, n), Place(0, i + 1, 0, 0));
    assert problems + [] == problems;
  }

  lemma {:induction false} StepListed(registry: Registry, w: Workflow, i: nat, errors: seq<Problem>)
    requires i < |w.steps| && Listed(registry, w, errors, STEPS, Place(0, i, 0, 0))
    ensures
      var more := AddProblems(registry, errors, StepIds(w.steps[..i]), w.steps[i]);
      Listed(registry, w, more, STEPS, Place(0, i + 1, 0, 0))
  {
    var step := w.steps[i];
    var a := if step.id in StepIds(w.steps[..i]) then [DuplicateStep(step.id)] else [];
    var b := if step.implementation in registry then [] else [UnknownImplementation(step.id, step.implementation)];
    var c := ConfigProblems(step.id, Messages(registry, step));
    assert AddProblems(registry, errors, StepIds(w.steps[..i]), step) == errors + a + b + c;
    DuplicateListed(registry, w, i);
    UnknownListed(registry, w, i);
    ConfigListed(registry, w, i);
    ListThree(registry, w, errors, a, b, c,
              [STEPS, Place(0, i, 0, 0), Place(0, i, 1, 0), Place(0, i, 2, 0), Place(0, i + 1, 0, 0)]);
  }

  lemma {:induction false} StepsListed(registry: Registry, w: Workflow, n: nat)
    requires n <= |w.steps|
    ensures Listed(registry, w, StepProblems(registry, w.steps[..n]), STEPS, Place(0, n, 0, 0))
  {
    if n == 0 {
      ListNothing(registry, w, STEPS, STEPS);
    } else {
      StepsListed(registry, w, n - 1);
      StepListed(registry, w, n - 1, StepProblems(registry, w.steps[..n - 1]));
      StepProblemsNext(registry, w.steps, n - 1);
    }
  }

  lemma {:induction false} AllStepsListed(registry: Registry, w: Workflow)
    ensures Listed(registry, w, StepProblems(registry, w.steps), STEPS, EDGES)
  {
    var n, problems := |w.steps|, StepProblems(registry, w.steps);
    StepsListed(registry, w, n);
    assert w.steps[..n] == w.steps;
    ListNothing(registry, w, Place(0, n, 0, 0), EDGES);
    ListMore(registry, w, problems, [], STEPS, Place(0, n, 0, 0), EDGES);
    assert problems + [] == problems;
  }

  lemma {:induction false} DeclaredIds(w: Workflow)
    ensures forall id :: Declared(w, id) <==> id in StepIds(w.steps)
    ensures RepeatedId(w) <==> !Distinct(StepIds(w.steps))
  {
    var ids := StepIds(w.steps);
    forall id | id in ids ensures Declared(w, id) {
      var j :| 0 <= j < |ids| && ids[j] == id;
      assert w.steps[j].id == id;
    }
    forall j | 0 <= j < |w.steps| ensures w.steps[j].id in ids { assert ids[j] == w.steps[j].id; }
    if !Distinct(ids) {
      var i, j :| 0 <= i < j < |ids| && ids[i] == ids[j];
      assert w.steps[i].id == w.steps[j].id;
    }
    if RepeatedId(w) {
      var i, j :| 0 <= i < j < |w.steps| && w.steps[i].id == w.steps[j].id;
      assert ids[i] == ids[j];
    }
  }

  /** The problem of one check of one edge. */
  lemma {:induction false} EdgeCheckListed(registry: Registry, w: Workflow, i: nat, check: nat, errors: seq<Problem>)
    requires i < |w.edges| && |errors| <= 1
    requires forall p :: FoundAtEdge(w, i, check, p) <==> p in errors
    ensures Listed(registry, w, errors, Place(1, i, check, 0), Place(1, i, check + 1, 0))
  {
    if errors == [] {
      ListNothing(registry, w, Place(1, i, check, 0), Place(1, i, check + 1, 0));
    } else {
      assert errors == [errors[0]];
      ListOne(registry, w, Place(1, i, check, 0), Place(1, i, check + 1, 0), errors[0]);
    }
  }

  lemma {:induction false} LastCheck(registry: Registry, w: Workflow, i: nat, errors: seq<Problem>)
    requires Listed(registry, w, errors, Place(1, i, 2, 0), Place(1, i, 3, 0))
    ensures Listed(registry, w, errors, Place(1, i, 2, 0), Place(1, i + 1, 0, 0))
  {
    ListNothing(registry, w, Place(1, i, 3, 0), Place(1, i + 1, 0, 0));
    ListMore(registry, w, errors, [], Place(1, i, 2, 0), Place(1, i, 3, 0), Place(1, i + 1, 0, 0));
    assert errors + [] == errors;
  }

  lemma {:induction false} EdgeListed(registry: Registry, w: Workflow, i: nat, errors: seq<Problem>)
    requires i < |w.edges| && Listed(registry, w, errors, EDGES, Place(1, i, 0, 0))
    ensures
      var ids, e := StepIds(w.steps), w.edges[i];
      var a := if e.from !in ids then [SourceNotFound(i, e.from)] else [];
      var b := if e.to !in ids then [TargetNotFound(i, e.to)] else [];
      var c := if e.from == e.to then [SelfLoop(i, e.from)] else [];
      Listed(registry, w, errors + a + b + c, EDGES, Place(1, i + 1, 0, 0))
  {
    var ids, e := StepIds(w.steps), w.edges[i];
    var a := if e.from !in ids then [SourceNotFound(i, e.from)] else [];
    var b := if e.to !in ids then [TargetNotFound(i, e.to)] else [];
    var c := if e.from == e.to then [SelfLoop(i, e.from)] else [];
    DeclaredIds(w);
    EdgeCheckListed(registry, w, i, 0, a);
    EdgeCheckListed(registry, w, i, 1, b);
    EdgeCheckListed(registry, w, i, 2, c);
    LastCheck(registry, w, i, c);
    ListThree(registry, w, errors, a, b, c,
              [EDGES, Place(1, i, 0, 0), Place(1, i, 1, 0), Place(1, i, 2, 0), Place(1, i + 1, 0, 0)]);
  }

  lemma {:induction false} EdgesListed(registry: Registry, w: Workflow, n: nat)
    requires n <= |w.edges|
    ensures Listed(registry, w, EdgeProblems(StepIds(w.steps), w.edges[..n]), EDGES, Place(1, n, 0, 0))
  {
    if n == 0 {
      ListNothing(registry, w, EDGES, EDGES);
    } else {
      EdgesListed(registry, w, n - 1);
      EdgeListed(registry, w, n - 1, EdgeProblems(StepIds(w.steps), w.edges[..n - 1]));
      assert w.edges[..n][..n - 1] == w.edges[..n - 1];
    }
  }

  lemma {:induction false} AllEdgesListed(registry: Registry, w: Workflow)
    ensures Listed(registry, w, EdgeProblems(StepIds(w.steps), w.edges), EDGES, CONNECTIVITY)
  {
    var n, problems := |w.edges|, EdgeProblems(StepIds(w.steps), w.edges);
    EdgesListed(registry, w, n);
    assert w.edges[..n] == w.edges;
    ListNothing(registry, w, Place(1, n, 0, 0), CONNECTIVITY);
    ListMore(registry, w, problems, [], EDGES, Place(1, n, 0, 0), CONNECTIVITY);
    assert problems + [] == problems;
  }

  lemma {:induction false} UnreachableListed(registry: Registry, w: Workflow)
    requires w.steps != [] && EdgesDeclared(w)
    ensures
      var errors := if w.edges != [] && UnreachableSteps(w) != {} then [Unreachable(UnreachableSteps(w))] else [];
      Listed(registry, w, errors, CONNECTIVITY, Place(2, 1, 0, 0))
  {
    var ids, un := StepIds(w.steps), UnreachableSteps(w);
    DeclaredIds(w);
    KnownSize(ids, w.edges);
    assert forall v :: v in un <==> Declared(w, v) && !Reachable(w.edges, w.steps[0].id, v);
    forall p | FoundInGraph(w, 0, p) ensures p == Unreachable(un) { }
    if w.edges != [] && un != {} {
      assert FoundInGraph(w, 0, Unreachable(un));
      ListOne(registry, w, CONNECTIVITY, Place(2, 1, 0, 0), Unreachable(un));
    } else {
      ListNothing(registry, w, CONNECTIVITY, Place(2, 1, 0, 0));
    }
  }

  lemma {:induction false} CycleListed(registry: Registry, w: Workflow)
    requires w.steps != []
    ensures
      var errors := if !Distinct(StepIds(w.steps)) || HasCycle(w.edges) then [CycleFound] else [];
      Listed(registry, w, errors, Place(2, 1, 0, 0), END)
  {
    DeclaredIds(w);
    if !Distinct(StepIds(w.steps)) || HasCycle(w.edges) {
      ListOne(registry, w, Place(2, 1, 0, 0), END, CycleFound);
    } else {
      ListNothing(registry, w, Place(2, 1, 0, 0), END);
    }
  }

  lemma {:induction false} ConnectivityListed(registry: Registry, w: Workflow)
    requires w.steps == [] || EdgesDeclared(w)
    ensures Listed(registry, w, ConnectivityProblems(w), CONNECTIVITY, END)
  {
    if w.steps == [] {
      ListNothing(registry, w, CONNECTIVITY, END);
    } else {
      var a := if w.edges != [] && UnreachableSteps(w) != {} then [Unreachable(UnreachableSteps(w))] else [];
      var b := if !Distinct(StepIds(w.steps)) || HasCycle(w.edges) then [CycleFound] else [];
      UnreachableListed(registry, w);
      CycleListed(registry, w);
      ListMore(registry, w, a, b, CONNECTIVITY, Place(2, 1, 0, 0), END);
    }
  }

  /** The report lists every problem of the workflow once, in the order of the passes. */
  lemma {:induction false} ReportListed(registry: Registry, w: Workflow)
    requires w.steps == [] || EdgesDeclared(w)
    ensures Listed(registry, w, Report(registry, w), STEPS, END)
  {
    var a, b, c := StepProblems(registry, w.steps), EdgeProblems(StepIds(w.steps), w.edges), ConnectivityProblems(w);
    AllStepsListed(registry, w);
    AllEdgesListed(registry, w);
    ConnectivityListed(registry, w);
    ListMore(registry, w, a, b, STEPS, EDGES, CONNECTIVITY);
    ListMore(registry, w, a + b, c, STEPS, CONNECTIVITY, END);
  }

  // ----- What an empty report means

  ghost predicate Accepted(registry: Registry, step: Step) {
    && step.implementation in registry
    && (step.configOverride != map[] ==> registry[step.implementation](step.configOverride) == [])
  }

  ghost predicate Sound(registry: Registry, w: Workflow)
    requires w.steps != []
  {
    && Distinct(StepIds(w.steps))
    && (forall s :: s in w.steps ==> Accepted(registry, s))
    && !HasCycle(w.edges)
    && (w.edges != [] ==> forall v :: v in StepIds(w.steps) ==> Reachable(w.edges, w.steps[0].id, v))
  }

  lemma {:induction false} StepProblemsEmpty(registry: Registry, steps: seq<Step>)
    ensures StepProblems(registry, steps) == [] <==>
      Distinct(StepIds(steps)) && forall s :: s in steps ==> Accepted(registry, s)
  {
    if steps == [] {
    } else {
      var n := |steps| - 1;
      var before, all := StepIds(steps[..n]), StepIds(steps);
      StepProblemsEmpty(registry, steps[..n]);
      assert steps == steps[..n] + [steps[n]];
      assert all == before + [steps[n].id];
      assert Distinct(all) <==> Distinct(before) && steps[n].id !in before;
      assert StepProblems(registry, steps) == [] <==>
        StepProblems(registry, steps[..n]) == [] && steps[n].id !in before && Accepted(registry, steps[n]);
    }
  }

  lemma {:induction false} EdgeProblemsEmpty(ids: seq<StepId>, edges: seq<Edge>)
    ensures EdgeProblems(ids, edges) == [] <==>
      forall e :: e in edges ==> e.from in ids && e.to in ids && e.from != e.to
  {
    if edges == [] {
    } else {
      var n := |edges| - 1;
      EdgeProblemsEmpty(ids, edges[..n]);
      assert edges == edges[..n] + [edges[n]];
    }
  }

  lemma {:induction false} DeclaredEdgeProblems(ids: seq<StepId>, edges: seq<Edge>)
    requires forall e :: e in edges ==> e.from in ids && e.to in ids
    ensures forall p :: p in EdgeProblems(ids, edges) ==> p.SelfLoop? && Edge(p.id, p.id) in edges
  {
    if edges == [] {
    } else {
      var n := |edges| - 1;
      DeclaredEdgeProblems(ids, edges[..n]);
      assert edges[n] in edges;
    }
  }

  lemma {:induction false} SelfLoopIsCycle(edges: seq<Edge>, v: StepId)
    requires Edge(v, v) in edges
    ensures HasCycle(edges)
  {
    var p := [v, v];
    assert Hop(edges, p, 0);
    assert IsCycle(edges, p);
  }

  /** A constructed definition is reported clean if and only if it is sound. */
  lemma {:induction false} CleanIffSound(registry: Registry, w: Workflow)
    requires w.steps != [] && EdgesDeclared(w)
    ensures Report(registry, w) == [] <==> Sound(registry, w)
  {
    StepProblemsEmpty(registry, w.steps);
    EdgeProblemsEmpty(StepIds(w.steps), w.edges);
    KnownSize(StepIds(w.steps), w.edges);
    forall e | e in w.edges && e.from == e.to ensures HasCycle(w.edges) {
      SelfLoopIsCycle(w.edges, e.from);
    }
    var ids := StepIds(w.steps);
    assert UnreachableSteps(w) == {} <==> forall v :: v in ids ==> Reachable(w.edges, ids[0], v) by {
      forall v | v in ids ensures v in UnreachableSteps(w) <==> !Reachable(w.edges, ids[0], v) { }
    }
  }

  /**
   On constructed definitions the not-found errors never appear, and a self-loop is always
   accompanied by the cycle error.
  */
  lemma {:induction false} ConstructedReports(registry: Registry, w: Workflow, p: Problem)
    requires w.steps != [] && EdgesDeclared(w) && p in Report(registry, w)
    ensures !p.SourceNotFound? && !p.TargetNotFound?
    ensures p.SelfLoop? ==> CycleFound in Report(registry, w)
  {
    DeclaredEdgeProblems(StepIds(w.steps), w.edges);
    StepProblemKinds(registry, w.steps);
    if p.SelfLoop? {
      assert p in EdgeProblems(StepIds(w.steps), w.edges);
      SelfLoopIsCycle(w.edges, p.id);
      assert CycleFound in ConnectivityProblems(w);
    }
  }

  lemma {:induction false} StepProblemKinds(registry: Registry, steps: seq<Step>)
    ensures forall p :: p in StepProblems(registry, steps) ==>
      p.DuplicateStep? || p.UnknownImplementation? || p.BadConfig?
  {
    if steps != [] { StepProblemKinds(registry, steps[..|steps| - 1]); }
  }

  // ----- The entry point of a sound workflow

  lemma {:induction false} PathContinues(edges: seq<Edge>, u: StepId, v: StepId)
    requires Reachable(edges, u, v) && u != v
    ensures !IsSource(edges, v)
  {
    var p :| PathBetween(edges, p, u, v);
    DropLast(edges, p);
    var k := Position(edges, Edge(p[|p| - 2], v));
    assert Into(edges, k, v);
  }

  lemma {:induction false} EdgeIntoRootIsCycle(edges: seq<Edge>, root: StepId, k: nat)
    requires Into(edges, k, root) && Reachable(edges, root, edges[k].from)
    ensures HasCycle(edges)
  {
    var p :| PathBetween(edges, p, root, edges[k].from);
    assert edges[k] == Edge(edges[k].from, root);
    ExtendPath(edges, p, root);
    assert IsCycle(edges, p + [root]);
  }

  lemma {:induction false} SourcesInDeclarationOrder(ids: seq<StepId>, edges: seq<Edge>, order: seq<StepId>, j: nat)
    requires KahnOrder(ids, edges, order) && j < |order| && IsSource(edges, order[j])
    ensures j == 0 || Position(ids, order[0]) < Position(ids, order[j])
  {
    if j > 0 { assert ReleasedBefore(ids, edges, order, order[0], order[j]); }
  }

  /**
   In a workflow that validates cleanly, execution starts with the first declared step; with edges, that step is
   the only one without incoming edges and every other step lies on a path from it.
  */
  lemma {:induction false} EntryStep(registry: Registry, w: Workflow, order: seq<StepId>)
    requires w.steps != [] && EdgesDeclared(w) && Report(registry, w) == []
    requires KahnOrder(StepIds(w.steps), w.edges, order)
    ensures order != [] && order[0] == w.steps[0].id
    ensures w.edges != [] ==> forall v :: v in StepIds(w.steps) ==>
      (IsSource(w.edges, v) <==> v == order[0]) && Reachable(w.edges, order[0], v)
  {
    CleanIffSound(registry, w);
    var ids, root := StepIds(w.steps), w.steps[0].id;
    assert root == ids[0] && root in order;
    PositionOf(order, 0);
    assert IsSource(w.edges, order[0]) by {
      forall k | 0 <= k < |w.edges| ensures !Into(w.edges, k, order[0]) { assert w.edges[k] in w.edges; }
    }
    assert IsSource(w.edges, root) by {
      forall k | 0 <= k < |w.edges| ensures !Into(w.edges, k, root) {
        assert w.edges[k] in w.edges;
        if Into(w.edges, k, root) { EdgeIntoRootIsCycle(w.edges, root, k); }
      }
    }
    if w.edges == [] {
      SourcesInDeclarationOrder(ids, w.edges, order, Position(order, root));
    } else {
      forall v | v in ids && v != root ensures !IsSource(w.edges, v) { PathContinues(w.edges, root, v); }
    }
  }
}
