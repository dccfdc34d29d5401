/**
 What a validation report must list (app/domain/workflows/validator.py): which problem is found at which
 place, and that a report names every finding once, in the order of the places.
*/
module Problems {
  import opened Graphs
  import opened Schemas

  /** Registered implementations, each with its configuration check. */
  type Registry = map<string, Config -> seq<string>>

  datatype Problem =
    | DuplicateStep(id: StepId)
    | UnknownImplementation(id: StepId, implementation: string)
    | BadConfig(id: StepId, message: string)
    | SourceNotFound(edge: nat, id: StepId)
    | TargetNotFound(edge: nat, id: StepId)
    | SelfLoop(edge: nat, id: StepId)
    | Unreachable(ids: set<StepId>)
    | CycleFound

  /** Where a report looks: pass (steps, edges, connectivity), element, check of the element, message. */
  datatype Place = Place(pass: nat, index: nat, check: nat, sub: nat)

  const STEPS := Place(0, 0, 0, 0)
  const EDGES := Place(1, 0, 0, 0)
  const CONNECTIVITY := Place(2, 0, 0, 0)
  const END := Place(3, 0, 0, 0)

  ghost predicate Before(a: Place, b: Place) {
    || a.pass < b.pass
    || (a.pass == b.pass && (a.index < b.index ||
       (a.index == b.index && (a.check < b.check || (a.check == b.check && a.sub < b.sub)))))
  }

  ghost predicate Declared(w: Workflow, id: StepId) {
    exists j :: 0 <= j < |w.steps| && w.steps[j].id == id
  }

  /** What is wrong with step `i`. */
  ghost predicate FoundAtStep(registry: Registry, w: Workflow, i: nat, check: nat, sub: nat, p: Problem) {
    && i < |w.steps|
    && var step := w.steps[i];
       match p
       case DuplicateStep(id) =>
         check == 0 && sub == 0 && id == step.id && exists j :: 0 <= j < i && w.steps[j].id == id
       case UnknownImplementation(id, implementation) =>
         check == 1 && sub == 0 && id == step.id && implementation == step.implementation &&
         implementation !in registry
       case BadConfig(id, message) =>
         check == 2 && id == step.id && step.implementation in registry && step.configOverride != map[] &&
         sub < |registry[step.implementation](step.configOverride)| &&
         message == registry[step.implementation](step.configOverride)[sub]
       case _ => false
  }

  /** What is wrong with edge `i`. */
  ghost predicate FoundAtEdge(w: Workflow, i: nat, check: nat, p: Problem) {
    && i < |w.edges|
    && match p
       case SourceNotFound(edge, id) => check == 0 && edge == i && id == w.edges[i].from && !Declared(w, id)
       case TargetNotFound(edge, id) => check == 1 && edge == i && id == w.edges[i].to && !Declared(w, id)
       case SelfLoop(edge, id) => check == 2 && edge == i && w.edges[i] == Edge(id, id)
       case _ => false
  }

  /** What is wrong with the graph. */
  ghost predicate FoundInGraph(w: Workflow, index: nat, p: Problem) {
    && w.steps != []
    && match p
       case Unreachable(ids) =>
         && index == 0 && w.edges != [] && ids != {}
         && forall v :: v in ids <==> Declared(w, v) && !Reachable(w.edges, w.steps[0].id, v)
       case CycleFound => index == 1 && (HasCycle(w.edges) || RepeatedId(w))
       case _ => false
  }

  ghost predicate RepeatedId(w: Workflow) {
    exists i, j :: 0 <= i < j < |w.steps| && w.steps[i].id == w.steps[j].id
  }

  ghost predicate Found(registry: Registry, w: Workflow, at: Place, p: Problem) {
    || (at.pass == 0 && FoundAtStep(registry, w, at.index, at.check, at.sub, p))
    || (at.pass == 1 && at.sub == 0 && FoundAtEdge(w, at.index, at.check, p))
    || (at.pass == 2 && at.check == 0 && at.sub == 0 && FoundInGraph(w, at.index, p))
  }

  ghost predicate Within(at: Place, from: Place, to: Place) {
    !Before(at, from) && Before(at, to)
  }

  type Finder = (Place, Problem) -> bool

  /** `errors` are the problems found at `places`, which are all the places with a problem in the range. */
  ghost predicate Traces(found: Finder, errors: seq<Problem>, places: seq<Place>, from: Place, to: Place) {
    && |places| == |errors| && Ordered(places)
    && (forall i :: 0 <= i < |places| ==> Within(places[i], from, to) && found(places[i], errors[i]))
    && (forall at, p :: Within(at, from, to) && found(at, p) ==> at in places)
  }

  ghost function Findings(registry: Registry, w: Workflow): Finder {
    (at, p) => Found(registry, w, at, p)
  }

  ghost predicate Ordered(places: seq<Place>) {
    forall i, j :: 0 <= i < j < |places| ==> Before(places[i], places[j])
  }

  /** `errors` lists every problem from `from` to before `to`: each finding once, in the order of the places. */
  ghost predicate Listed(registry: Registry, w: Workflow, errors: seq<Problem>, from: Place, to: Place) {
    exists places :: Traces(Findings(registry, w), errors, places, from, to)
  }

  // ----- Composing lists

  lemma {:induction false} ListNothing(registry: Registry, w: Workflow, from: Place, to: Place)
    requires forall at, p :: Within(at, from, to) ==> !Found(registry, w, at, p)
    ensures Listed(registry, w, [], from, to)
  {
    assert Traces(Findings(registry, w), [], [], from, to);
  }

  lemma {:induction false} ListOne(registry: Registry, w: Workflow, from: Place, to: Place, p: Problem)
    requires Before(from, to) && Found(registry, w, from, p)
    requires forall at, q :: Within(at, from, to) && Found(registry, w, at, q) ==> at == from
    ensures Listed(registry, w, [p], from, to)
  {
    assert Traces(Findings(registry, w), [p], [from], from, to);
  }

  lemma {:induction false} OrderedConcat(p: seq<Place>, q: seq<Place>, middle: Place)
    requires Ordered(p) && Ordered(q)
    requires (forall i :: 0 <= i < |p| ==> Before(p[i], middle)) && forall j :: 0 <= j < |q| ==> !Before(q[j], middle)
    ensures Ordered(p + q)
  {
  }

  lemma {:induction false} WithinConcat(at: Place, from: Place, middle: Place, to: Place)
    requires !Before(middle, from) && !Before(to, middle)
    ensures Within(at, from, to) <==> Within(at, from, middle) || Within(at, middle, to)
  {
  }

  lemma {:induction false} TracesConcat(found: Finder, a: seq<Problem>, p: seq<Place>, b: seq<Problem>, q: seq<Place>,
                                        from: Place, middle: Place, to: Place)
    requires !Before(middle, from) && !Before(to, middle)
    requires Traces(found, a, p, from, middle) && Traces(found, b, q, middle, to)
    ensures Traces(found, a + b, p + q, from, to)
  {
    OrderedConcat(p, q, middle);
    forall at ensures Within(at, from, to) <==> Within(at, from, middle) || Within(at, middle, to) {
      WithinConcat(at, from, middle, to);
    }
  }

  lemma {:induction false} ListMore(registry: Registry, w: Workflow, a: seq<Problem>, b: seq<Problem>, from: Place,
                                    middle: Place, to: Place)
    requires !Before(middle, from) && !Before(to, middle)
    requires Listed(registry, w, a, from, middle) && Listed(registry, w, b, middle, to)
    ensures Listed(registry, w, a + b, from, to)
  {
    var p :| Traces(Findings(registry, w), a, p, from, middle);
    var q :| Traces(Findings(registry, w), b, q, middle, to);
    TracesConcat(Findings(registry, w), a, p, b, q, from, middle, to);
  }

  lemma {:induction false} ListThree(registry: Registry, w: Workflow, errors: seq<Problem>, a: seq<Problem>,
                                     b: seq<Problem>, c: seq<Problem>, at: seq<Place>)
    requires |at| == 5 && forall i :: 0 <= i < 4 ==> !Before(at[i + 1], at[i])
    requires Listed(registry, w, errors, at[0], at[1]) && Listed(registry, w, a, at[1], at[2])
    requires Listed(registry, w, b, at[2], at[3]) && Listed(registry, w, c, at[3], at[4])
    ensures Listed(registry, w, errors + a + b + c, at[0], at[4])
  {
    ListMore(registry, w, errors, a, at[0], at[1], at[2]);
    ListMore(registry, w, errors + a, b, at[0], at[2], at[3]);
    ListMore(registry, w, errors + a + b, c, at[0], at[3], at[4]);
  }

  // ----- What a list contains, and that there is only one

  /** A place shows at most one problem. */
  lemma {:induction false} OneProblem(registry: Registry, w: Workflow, at: Place, p: Problem, q: Problem)
    requires Found(registry, w, at, p) && Found(registry, w, at, q)
    ensures p == q
  {
  }

  ghost predicate Functional(found: Finder) {
    forall at, p, q :: found(at, p) && found(at, q) ==> p == q
  }

  lemma {:induction false} FindingsFunctional(registry: Registry, w: Workflow)
    ensures Functional(Findings(registry, w))
  {
    forall at, p, q | Findings(registry, w)(at, p) && Findings(registry, w)(at, q) ensures p == q {
      OneProblem(registry, w, at, p, q);
    }
  }

  lemma {:induction false} TracesMember(found: Finder, errors: seq<Problem>, places: seq<Place>, from: Place, to: Place,
                                        p: Problem)
    requires Functional(found) && Traces(found, errors, places, from, to)
    ensures p in errors <==> exists at :: Within(at, from, to) && found(at, p)
  {
    if p in errors {
      var i :| 0 <= i < |errors| && errors[i] == p;
      assert Within(places[i], from, to) && found(places[i], p);
    }
    if at :| Within(at, from, to) && found(at, p) {
      var i :| 0 <= i < |places| && places[i] == at;
      assert found(at, errors[i]);
    }
  }

  /** A problem is listed exactly when it is found somewhere in the range. */
  lemma {:induction false} ListedIff(registry: Registry, w: Workflow, errors: seq<Problem>, from: Place, to: Place,
                                     p: Problem)
    requires Listed(registry, w, errors, from, to)
    ensures p in errors <==> exists at :: Within(at, from, to) && Found(registry, w, at, p)
  {
    var found := Findings(registry, w);
    var places :| Traces(found, errors, places, from, to);
    FindingsFunctional(registry, w);
    TracesMember(found, errors, places, from, to, p);
    assert forall at :: found(at, p) <==> Found(registry, w, at, p);
  }

  lemma {:induction false} SomeMember(p: seq<Place>)
    ensures p == [] || exists at :: at in p
  {
    if p != [] { assert p[0] in p; }
  }

  /** Two ordered sequences of the same places are equal. */
  lemma {:induction false} OrderedUnique(p: seq<Place>, q: seq<Place>)
    requires Ordered(p) && Ordered(q) && forall at :: at in p <==> at in q
    ensures p == q
  {
    if p != [] && q != [] {
      assert p[0] in q && q[0] in p;
      assert p[0] == q[0] by {
        var i :| 0 <= i < |q| && q[i] == p[0];
        var j :| 0 <= j < |p| && p[j] == q[0];
      }
      forall at ensures at in p[1..] <==> at in q[1..] {
        assert p == [p[0]] + p[1..] && q == [q[0]] + q[1..];
        assert at in p <==> at in q;
      }
      OrderedUnique(p[1..], q[1..]);
      assert p == [p[0]] + p[1..] && q == [q[0]] + q[1..];
    } else {
      SomeMember(p);
      SomeMember(q);
    }
  }

  lemma {:induction false} TracesUnique(found: Finder, a: seq<Problem>, p: seq<Place>, b: seq<Problem>, q: seq<Place>,
                                        from: Place, to: Place)
    requires Functional(found) && Traces(found, a, p, from, to) && Traces(found, b, q, from, to)
    ensures a == b
  {
    forall at ensures at in p <==> at in q { }
    OrderedUnique(p, q);
    forall i | 0 <= i < |a| ensures a[i] == b[i] { assert found(p[i], a[i]) && found(q[i], b[i]); }
  }

  /** There is one list of the problems in a range. */
  lemma {:induction false} ListUnique(registry: Registry, w: Workflow, a: seq<Problem>, b: seq<Problem>, from: Place,
                                      to: Place)
    requires Listed(registry, w, a, from, to) && Listed(registry, w, b, from, to)
    ensures a == b
  {
    var p :| Traces(Findings(registry, w), a, p, from, to);
    var q :| Traces(Findings(registry, w), b, q, from, to);
    FindingsFunctional(registry, w);
    TracesUnique(Findings(registry, w), a, p, b, q, from, to);
  }
}
