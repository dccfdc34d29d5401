/**
 An activation that nothing interrupts does what the sequential code of its worker does: the v2 handler of
 app/workers/eval_worker.py and the v1 attempt of app/workers/tasks/eval_tasks.py.
*/
module JobSequential {
  import opened Prelude
  import opened JobStore
  import opened Events
  import opened JobProtocol
  import EvalWorker
  import EvalTasks

  type Call = EvalWorker.Call
  type World = EvalWorker.World

  /** Only `w` moves, and time passes. */
  ghost predicate Own(steps: seq<Action>, w: WorkerId) {
    forall i :: 0 <= i < |steps| ==> steps[i].Tick? || (steps[i].Advance? && steps[i].w == w)
  }

  /** `steps` of `w` alone lead from `s` to `t`. */
  ghost predicate Leads(s: State, steps: seq<Action>, w: WorkerId, t: State) {
    Own(steps, w) && RunFrom(s, steps) == t
  }

  lemma {:induction false} LeadOne(s: State, a: Action, w: WorkerId)
    requires a.Tick? || (a.Advance? && a.w == w)
    ensures Leads(s, [a], w, Step(s, a))
  {
    assert [a][..0] == [];
  }

  lemma {:induction false} LeadOn(s: State, a: seq<Action>, w: WorkerId, t: State, b: seq<Action>, u: State)
    requires Leads(s, a, w, t) && Leads(t, b, w, u)
    ensures Leads(s, a + b, w, u)
  {
    RunFromConcat(s, a, b);
  }

  /** The state after `update_job` went through. */
  function Updating(s: State, w: WorkerId): State
    requires w in s.workers && s.workers[w].pc.Getting?
  {
    var worker := s.workers[w];
    At(Record(s, worker.job, worker.pc.patch).(
         entries := Updated(s.entries, s.clock, worker.job, worker.pc.patch)),
       w, AfterUpdate(worker.kind, worker.pc.stage, worker.pc.patch))
  }

  /** One `update_job`; with `late` it raises at its set, if it gets there. */
  lemma {:induction false} UpdateRuns(s: State, w: WorkerId, call: Call, late: bool) returns (steps: seq<Action>)
    requires w in s.workers && s.workers[w].pc.Getting?
    ensures
      var failed := At(s, w, AfterError(s.workers[w].pc.stage, if call.Raises? then call.error else "", s.clock));
      Leads(s, steps, w, if call.Works? then Updating(s, w) else failed)
  {
    var ok := Advance(w, Done(""));
    var found := Lookup(s.entries, s.clock, s.workers[w].job).Some?;
    LeadOne(s, ok, w);
    if call.Works? {
      UninterruptedUpdate(s, w, "");
      if found {
        LeadOne(Step(s, ok), ok, w);
        LeadOn(s, [ok], w, Step(s, ok), [ok], Step(Step(s, ok), ok));
        assert Step(Step(s, ok), ok) == Updating(s, w);
        steps := [ok] + [ok];
      } else {
        assert Step(s, ok) == Updating(s, w);
        steps := [ok];
      }
    } else {
      var bad := Advance(w, Raise(call.error, false));
      if late && found {
        LeadOne(Step(s, ok), bad, w);
        LeadOn(s, [ok], w, Step(s, ok), [bad], Step(Step(s, ok), bad));
        assert Step(Step(s, ok), bad) == At(s, w, AfterError(s.workers[w].pc.stage, call.error, s.clock));
        steps := [ok] + [bad];
      } else {
        LeadOne(s, bad, w);
        steps := [bad];
      }
    }
  }

  /** What the outside sees of an activation: the store, the clock, its control and the events. */
  ghost predicate Shows(s: State, w: WorkerId, worker: Worker, entries: Entries, clock: Time,
                        events: seq<Publication>) {
    w in s.workers && s.workers[w] == worker && s.entries == entries && s.clock == clock && s.events == events
  }

  /** One call that is not an update. */
  lemma {:induction false} CallRuns(s: State, w: WorkerId, wait: nat, reply: Reply)
    returns (steps: seq<Action>, t: State)
    requires w in s.workers
    ensures Leads(s, steps, w, t) && t == AdvanceWorker(s.(clock := s.clock + wait), w, reply)
  {
    var later := Step(s, Tick(wait));
    LeadOne(s, Tick(wait), w);
    LeadOne(later, Advance(w, reply), w);
    t := Step(later, Advance(w, reply));
    LeadOn(s, [Tick(wait)], w, later, [Advance(w, reply)], t);
    steps := [Tick(wait)] + [Advance(w, reply)];
  }

  function ReplyOf(call: Call): Reply {
    if call.Works? then Done("") else Raise(call.error, false)
  }

  /** An update whose call works. */
  lemma {:induction false} WrittenRuns(s: State, w: WorkerId) returns (steps: seq<Action>, t: State)
    requires w in s.workers && s.workers[w].pc.Getting?
    ensures
      var worker := s.workers[w];
      && Leads(s, steps, w, t)
      && Shows(t, w, worker.(pc := AfterUpdate(worker.kind, worker.pc.stage, worker.pc.patch)),
               Updated(s.entries, s.clock, worker.job, worker.pc.patch), s.clock, s.events)
      && Calls(t, worker.job) == Calls(s, worker.job) + [worker.pc.patch]
  {
    steps := UpdateRuns(s, w, EvalWorker.Works, false);
    t := RunFrom(s, steps);
  }

  /** An update whose call raises. */
  lemma {:induction false} RaisedRuns(s: State, w: WorkerId, error: string, late: bool)
    returns (steps: seq<Action>, t: State)
    requires w in s.workers && s.workers[w].pc.Getting?
    ensures
      var worker := s.workers[w];
      && Leads(s, steps, w, t)
      && Shows(t, w, worker.(pc := AfterError(worker.pc.stage, error, s.clock)), s.entries, s.clock, s.events)
      && t.log == s.log
  {
    steps := UpdateRuns(s, w, EvalWorker.Raises(error), late);
    t := RunFrom(s, steps);
  }

  // ----- The v2 handler

  /** The `except` clause. */
  lemma {:induction false} FailingRuns(s: State, w: WorkerId, error: string, world: World, late: bool)
    returns (steps: seq<Action>, t: State)
    requires w in s.workers && s.workers[w].kind == V2 && s.workers[w].pc == Getting(Failing, FailPatch(error, s.clock))
    ensures
      var job, works := s.workers[w].job, world.failWrite.Works? && world.failPublish.Works?;
      && Leads(s, steps, w, t)
      && Shows(t, w, s.workers[w].(pc := if works then Returned else Raised),
               if world.failWrite.Works? then Updated(s.entries, s.clock, job, FailPatch(error, s.clock))
               else s.entries,
               s.clock, s.events + if works then [Publication(w, Event(EvalFailed, job, error))] else [])
  {
    if world.failWrite.Raises? {
      steps, t := RaisedRuns(s, w, world.failWrite.error, late);
    } else {
      steps, t := WrittenRuns(s, w);
      assert t.workers[w].pc == Publishing(EvalFailed, error);
      var more, u := CallRuns(t, w, 0, ReplyOf(world.failPublish));
      LeadOn(s, steps, w, t, more, u);
      steps, t := steps + more, u;
    }
  }

  /** The body of the `try` once there is a result. */
  lemma {:induction false} CompletingRuns(s: State, w: WorkerId, result: string, world: World, late: bool)
    returns (steps: seq<Action>, t: State)
    requires w in s.workers && s.workers[w].kind == V2
    requires s.workers[w].pc == Getting(Completing, CompletePatch(result, s.clock))
    ensures
      var job, writes := s.workers[w].job, world.completeWrite.Works?;
      var works := writes && world.completePublish.Works?;
      var error := if !writes then world.completeWrite.error else if works then "" else world.completePublish.error;
      var end := s.clock + if writes && !works then world.publishTime else 0;
      && Leads(s, steps, w, t)
      && Shows(t, w, s.workers[w].(pc := if works then Returned else Getting(Failing, FailPatch(error, end))),
               if writes then Updated(s.entries, s.clock, job, CompletePatch(result, s.clock)) else s.entries,
               end, s.events + if works then [Publication(w, Event(EvalCompleted, job, result))] else [])
  {
    if world.completeWrite.Raises? {
      steps, t := RaisedRuns(s, w, world.completeWrite.error, late);
    } else {
      steps, t := WrittenRuns(s, w);
      assert t.workers[w].pc == Publishing(EvalCompleted, result);
      var wait := if world.completePublish.Works? then 0 else world.publishTime;
      var more, u := CallRuns(t, w, wait, ReplyOf(world.completePublish));
      LeadOn(s, steps, w, t, more, u);
      steps, t := steps + more, u;
    }
  }

  /** The `try` statement, from the start of the evaluation to its result or exception. */
  lemma {:induction false} EvaluationRuns(s: State, w: WorkerId, evaluation: EvalWorker.Evaluation, wait: nat)
    returns (steps: seq<Action>, t: State)
    requires w in s.workers && s.workers[w].pc == Evaluating
    ensures
      var now := s.clock + wait;
      && Leads(s, steps, w, t)
      && Shows(t, w,
               s.workers[w].(pc := match evaluation
                                   case Scored(result) => Getting(Completing, CompletePatch(result, now))
                                   case Broken(error) => Getting(Failing, FailPatch(error, now))),
               s.entries, now, s.events)
      && t.log == s.log
  {
    var reply := match evaluation case Scored(result) => Done(result) case Broken(error) => Raise(error, false);
    steps, t := CallRuns(s, w, wait, reply);
  }

  /** From the evaluation to the end. */
  lemma {:induction false} TryRuns(s: State, w: WorkerId, evalType: string, world: World, late: bool)
    returns (steps: seq<Action>, t: State)
    requires w in s.workers && s.workers[w].kind == V2 && s.workers[w].pc == Evaluating
    requires world.startWrite.Works?
    ensures
      var job, end := s.workers[w].job, EvalWorker.EndTime(s.clock, evalType, world);
      var ok, failure := EvalWorker.Returns(evalType, world), EvalWorker.Failure(evalType, world);
      var scored := EvalWorker.AfterCompletion(s.entries, s.clock + world.evaluationTime, job, evalType, world);
      && Leads(s, steps, w, t)
      && Shows(t, w, s.workers[w].(pc := if ok then Returned else Raised),
               if failure.Some? && world.failWrite.Works? then Updated(scored, end, job, FailPatch(failure.value, end))
               else scored,
               end, s.events + if ok then [Publication(w, EvalWorker.Verdict(job, evalType, world))] else [])
  {
    var evaluation := EvalWorker.Evaluate(evalType, world.evaluation);
    steps, t := EvaluationRuns(s, w, evaluation, world.evaluationTime);
    var more, u;
    if evaluation.Scored? {
      more, u := CompletingRuns(t, w, evaluation.result, world, late);
      LeadOn(s, steps, w, t, more, u);
      steps, t := steps + more, u;
    }
    var failure := EvalWorker.Failure(evalType, world);
    if failure.Some? {
      more, u := FailingRuns(t, w, failure.value, world, late);
      LeadOn(s, steps, w, t, more, u);
      steps, t := steps + more, u;
    }
  }

  /**
   A v2 activation run to its end without interruption: store, events, clock and ending are those of
   `EvalWorker.Handle` in the same world.
  */
  lemma {:induction false} HandlingRuns(s: State, w: WorkerId, evalType: string, world: World, late: bool)
    returns (steps: seq<Action>, t: State)
    requires w in s.workers && s.workers[w].kind == V2 && s.workers[w].pc == Getting(Starting, StartPatch(s.clock))
    ensures
      var job, ok := s.workers[w].job, EvalWorker.Returns(evalType, world);
      && Leads(s, steps, w, t)
      && Shows(t, w, s.workers[w].(pc := if ok then Returned else Raised),
               EvalWorker.Handled(s.entries, s.clock, job, evalType, world),
               if world.startWrite.Works? then EvalWorker.EndTime(s.clock, evalType, world) else s.clock,
               s.events + if ok then [Publication(w, EvalWorker.Verdict(job, evalType, world))] else [])
  {
    if world.startWrite.Raises? {
      steps, t := RaisedRuns(s, w, world.startWrite.error, late);
    } else {
      steps, t := WrittenRuns(s, w);
      var more, u := TryRuns(t, w, evalType, world, late);
      LeadOn(s, steps, w, t, more, u);
      steps, t := steps + more, u;
    }
  }

  /** After any schedule a delivery to a new activation can be handled as the sequential code would. */
  lemma {:induction false} DeliveryRuns(actions: seq<Action>, w: WorkerId, id: JobId, evalType: string, world: World,
                                        late: bool) returns (steps: seq<Action>)
    requires id in Run(actions).created && w !in Run(actions).workers
    ensures
      var s, t, ok := Run(actions), Run(actions + [Deliver(w, id, V2)] + steps), EvalWorker.Returns(evalType, world);
      && Own(steps, w)
      && Shows(t, w, Worker(id, V2, if ok then Returned else Raised),
               EvalWorker.Handled(s.entries, s.clock, id, evalType, world),
               if world.startWrite.Works? then EvalWorker.EndTime(s.clock, evalType, world) else s.clock,
               s.events + if ok then [Publication(w, EvalWorker.Verdict(id, evalType, world))] else [])
  {
    RunAppend(actions, Deliver(w, id, V2));
    var t;
    steps, t := HandlingRuns(Run(actions + [Deliver(w, id, V2)]), w, evalType, world, late);
    RunContinues(actions + [Deliver(w, id, V2)], steps);
  }

  // ----- The v1 task

  /** The attempt once the evaluation has ended. */
  lemma {:induction false} RestRuns(s: State, w: WorkerId, a: EvalTasks.Attempt, late: bool)
    returns (steps: seq<Action>, t: State)
    requires w in s.workers && s.workers[w].kind == V1 && a.startWrite.Works?
    requires s.workers[w].pc == match a.evaluation
                                case Scored(result) => Getting(Completing, CompletePatch(result, s.clock))
                                case Broken(error) => Getting(Failing, FailPatch(error, s.clock))
    ensures
      var job, ok := s.workers[w].job, EvalTasks.Succeeds(a);
      var patches := if ok then [CompletePatch(a.evaluation.result, s.clock)]
                     else if a.failWrite.Works? then [FailPatch(EvalTasks.ErrorOf(a), s.clock)]
                     else [];
      && Leads(s, steps, w, t)
      && Shows(t, w, s.workers[w].(pc := if ok then Returned else Raised),
               if patches == [] then s.entries else Updated(s.entries, s.clock, job, patches[0]), s.clock, s.events)
      && Calls(t, job) == Calls(s, job) + patches
  {
    if EvalTasks.Succeeds(a) {
      steps, t := WrittenRuns(s, w);
    } else {
      steps, t := [], s;
      var more, u;
      if a.evaluation.Scored? {
        more, u := RaisedRuns(s, w, a.completeWrite.error, late);
        steps, t := more, u;
      }
      assert Leads(s, steps, w, t) && t.workers[w].pc == Getting(Failing, FailPatch(EvalTasks.ErrorOf(a), s.clock));
      if a.failWrite.Works? {
        more, u := WrittenRuns(t, w);
      } else {
        more, u := RaisedRuns(t, w, a.failWrite.error, late);
      }
      LeadOn(s, steps, w, t, more, u);
      steps, t := steps + more, u;
    }
  }

  /**
   A v1 activation run to its end without interruption: store, ending and patches are those of
   `EvalTasks.RunAttempt`.
  */
  lemma {:induction false} AttemptRuns(s: State, w: WorkerId, a: EvalTasks.Attempt, late: bool)
    returns (steps: seq<Action>, t: State)
    requires w in s.workers && s.workers[w].kind == V1 && s.workers[w].pc == Getting(Starting, StartPatch(s.clock))
    ensures
      var job := s.workers[w].job;
      && Leads(s, steps, w, t)
      && Shows(t, w, s.workers[w].(pc := if EvalTasks.Succeeds(a) then Returned else Raised),
               EvalTasks.Attempted(s.entries, s.clock, job, a), s.clock + EvalTasks.AttemptTime(a), s.events)
      && Calls(t, job) == Calls(s, job) + EvalTasks.AttemptPatches(a, s.clock)
  {
    if a.startWrite.Raises? {
      steps, t := RaisedRuns(s, w, a.startWrite.error, late);
    } else {
      steps, t := WrittenRuns(s, w);
      var more, u := EvaluationRuns(t, w, a.evaluation, a.evaluationTime);
      LeadOn(s, steps, w, t, more, u);
      steps, t := steps + more, u;
      more, u := RestRuns(t, w, a, late);
      LeadOn(s, steps, w, t, more, u);
      steps, t := steps + more, u;
    }
  }
}
