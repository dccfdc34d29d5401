/** The v2 per-message protocol (app/workers/eval_worker.py). */
module EvalWorker {
  import opened Prelude
  import opened JobStore
  import opened Events

  /** How a fallible call ends; a call that raises has no effect. */
  datatype Call = Works | Raises(error: string)

  datatype Evaluation = Scored(result: string) | Broken(error: string)

  class KafkaPublisher {
    var events: seq<Event>

    method Publish(e: Event, call: Call) returns (r: Call)
      modifies this
      ensures r == call
      ensures events == old(events) + if call.Works? then [e] else []
    {
      if call.Works? {
        events := events + [e];
      }
      r := call;
    }
  }

  /** What the outside world does during one handling, and how long evaluation and publishing take. */
  datatype World = World(startWrite: Call, evaluation: Evaluation, evaluationTime: nat, completeWrite: Call,
                         completePublish: Call, publishTime: nat, failWrite: Call, failPublish: Call)

  datatype Ending = Returned | Escaped(error: string)

  function Evaluate(evalType: string, evaluation: Evaluation): Evaluation {
    if evalType == "single_turn" || evalType == "multi_turn" then evaluation
    else Broken("Unknown eval_type: '" + evalType + "'")
  }

  /** The first exception inside the `try`: evaluation, completion write or completion publish. */
  function Failure(evalType: string, world: World): Option<string> {
    match Evaluate(evalType, world.evaluation)
    case Broken(e) => Some(e)
    case Scored(_) =>
      if world.completeWrite.Raises? then Some(world.completeWrite.error)
      else if world.completePublish.Raises? then Some(world.completePublish.error)
      else None
  }

  /** The one terminal event that tells how the handling went. */
  function Verdict(job: JobId, evalType: string, world: World): Event {
    match Failure(evalType, world)
    case Some(e) => Event(EvalFailed, job, e)
    case None => Event(EvalCompleted, job, Evaluate(evalType, world.evaluation).result)
  }

  /** The two evaluations that the service offers. */
  ghost predicate Offered(evalType: string) {
    evalType == "single_turn" || evalType == "multi_turn"
  }

  /** Which event a handling owes, by what happens around it. */
  ghost predicate Tells(job: JobId, evalType: string, world: World, e: Event) {
    if !Offered(evalType) then e == Event(EvalFailed, job, "Unknown eval_type: '" + evalType + "'")
    else
      match world.evaluation
      case Broken(error) => e == Event(EvalFailed, job, error)
      case Scored(result) =>
        && (world.completeWrite.Works? && world.completePublish.Works? ==> e == Event(EvalCompleted, job, result))
        && (world.completeWrite.Works? && world.completePublish.Raises? ==>
              e == Event(EvalFailed, job, world.completePublish.error))
        && (world.completeWrite.Raises? ==> e == Event(EvalFailed, job, world.completeWrite.error))
  }

  lemma {:induction false} VerdictTells(job: JobId, evalType: string, world: World)
    ensures Tells(job, evalType, world, Verdict(job, evalType, world))
    ensures Failure(evalType, world).None? <==>
      Offered(evalType) && world.evaluation.Scored? && world.completeWrite.Works? && world.completePublish.Works?
  {
  }

  /** The completion write comes before a publish that raises. */
  predicate PublishFails(evalType: string, world: World) {
    Evaluate(evalType, world.evaluation).Scored? && world.completeWrite.Works? && world.completePublish.Raises?
  }

  /** When the handling makes its last write. */
  function EndTime(now: Time, evalType: string, world: World): Time {
    now + world.evaluationTime + if PublishFails(evalType, world) then world.publishTime else 0
  }

  /** The store after the completion write, if it is made. */
  function AfterCompletion(entries: Entries, now: Time, job: JobId, evalType: string, world: World): Entries {
    match Evaluate(evalType, world.evaluation)
    case Broken(_) => entries
    case Scored(result) =>
      if world.completeWrite.Works? then Updated(entries, now, job, CompletePatch(result, now)) else entries
  }

  /** The store after a whole handling. */
  function Handled(entries: Entries, now: Time, job: JobId, evalType: string, world: World): Entries {
    if world.startWrite.Raises? then entries
    else
      var started := Updated(entries, now, job, StartPatch(now));
      var scored := AfterCompletion(started, now + world.evaluationTime, job, evalType, world);
      var end := EndTime(now, evalType, world);
      match Failure(evalType, world)
      case None => scored
      case Some(error) => if world.failWrite.Works? then Updated(scored, end, job, FailPatch(error, end)) else scored
  }

  predicate Returns(evalType: string, world: World) {
    && world.startWrite.Works?
    && (Failure(evalType, world).None? || (world.failWrite.Works? && world.failPublish.Works?))
  }

  method Update(store: RedisJobStore, job: JobId, patch: Patch, call: Call) returns (r: Call, ghost missed: bool)
    modifies store`entries
    ensures r == call
    ensures missed <==> call.Works? && old(Lookup(store.entries, store.clock, job)).None?
    ensures if call.Works? && !missed
            then store.entries == old(Put(store.entries, store.clock, job, Apply(store.entries[job].job, patch)))
            else store.entries == old(store.entries)
    ensures store.entries ==
      if call.Works? then Updated(old(store.entries), store.clock, job, patch) else old(store.entries)
  {
    missed := false;
    if call.Works? {
      ghost var found := store.UpdateJob(job, patch);
      missed := !found;
    }
    r := call;
  }

  /** The body of the `try`: evaluate, write the completion, publish it. */
  method TryComplete(store: RedisJobStore, publisher: KafkaPublisher, job: JobId, evalType: string, world: World)
    returns (failure: Option<string>, ghost lost: bool)
    modifies store, publisher
    ensures failure == Failure(evalType, world)
    ensures publisher.events ==
      old(publisher.events) + if failure.None? then [Verdict(job, evalType, world)] else []
    ensures
      var evaluation, now := Evaluate(evalType, world.evaluation), old(store.clock) + world.evaluationTime;
      var writes := evaluation.Scored? && world.completeWrite.Works?;
      && (lost <==> writes && Lookup(old(store.entries), now, job).None?)
      && store.entries == AfterCompletion(old(store.entries), now, job, evalType, world)
      && store.clock == EndTime(old(store.clock), evalType, world)
  {
    lost := false;
    var evaluation := Evaluate(evalType, world.evaluation);
    store.Advance(world.evaluationTime);
    if evaluation.Broken? {
      return Some(evaluation.error), lost;
    }
    var call;
    call, lost := Update(store, job, CompletePatch(evaluation.result, store.clock), world.completeWrite);
    if call.Raises? {
      return Some(call.error), lost;
    }
    call := publisher.Publish(Event(EvalCompleted, job, evaluation.result), world.completePublish);
    if call.Raises? {
      store.Advance(world.publishTime);
      return Some(call.error), lost;
    }
    return None, lost;
  }

  /** The `except` clause: write the failure, publish it. */
  method RecordFailure(store: RedisJobStore, publisher: KafkaPublisher, job: JobId, error: string, world: World)
    returns (r: Ending, ghost lost: bool)
    modifies store`entries, publisher
    ensures r.Returned? <==> world.failWrite.Works? && world.failPublish.Works?
    ensures publisher.events == old(publisher.events) + if r.Returned? then [Event(EvalFailed, job, error)] else []
    ensures lost <==> world.failWrite.Works? && Lookup(old(store.entries), store.clock, job).None?
    ensures store.entries ==
      if world.failWrite.Works? then Updated(old(store.entries), store.clock, job, FailPatch(error, store.clock))
      else old(store.entries)
  {
    var call;
    call, lost := Update(store, job, FailPatch(error, store.clock), world.failWrite);
    if call.Raises? {
      return Escaped(call.error), lost;
    }
    call := publisher.Publish(Event(EvalFailed, job, error), world.failPublish);
    if call.Raises? {
      return Escaped(call.error), lost;
    }
    return Returned, lost;
  }

  /** Evaluation and publishing take less than the time-to-live. */
  predicate Timely(world: World) {
    world.evaluationTime < JOB_TTL_SECONDS && world.publishTime < JOB_TTL_SECONDS
  }

  /** What a normal return leaves in the store. */
  ghost predicate Agrees(before: Job, after: Job, verdict: Event, start: Time, end: Time) {
    && SameIdentity(after, before) && after.startedAt == Some(start) && after.completedAt == Some(end)
    && match verdict.topic
       case EvalCompleted =>
         after.status == Completed && after.result == Some(verdict.text) && after.error == before.error
       case EvalFailed => after.status == Failed && after.error == Some(verdict.text)
  }

  /** A failure leaves the result alone, also one that an earlier completion write stored. */
  ghost predicate ResultKept(before: Job, after: Job, evalType: string, world: World) {
    after.result ==
      if Offered(evalType) && world.evaluation.Scored? && world.completeWrite.Works?
      then Some(world.evaluation.result) else before.result
  }

  /** Some update of the handling finds the job gone. */
  ghost predicate Loses(entries: Entries, now: Time, job: JobId, evalType: string, world: World) {
    var started := Updated(entries, now, job, StartPatch(now));
    var scoring := now + world.evaluationTime;
    var scored := AfterCompletion(started, scoring, job, evalType, world);
    && world.startWrite.Works?
    && (|| Lookup(entries, now, job).None?
        || (Evaluate(evalType, world.evaluation).Scored? && world.completeWrite.Works? &&
            Lookup(started, scoring, job).None?)
        || (Failure(evalType, world).Some? && world.failWrite.Works? &&
            Lookup(scored, EndTime(now, evalType, world), job).None?))
  }

  lemma {:induction false} TimelyNeverLoses(entries: Entries, now: Time, job: JobId, evalType: string, world: World)
    requires Lookup(entries, now, job).Some? && Timely(world)
    ensures !Loses(entries, now, job, evalType, world)
  {
  }

  lemma {:induction false} HandledElsewhere(entries: Entries, now: Time, job: JobId, evalType: string, world: World)
    ensures Handled(entries, now, job, evalType, world) - {job} == entries - {job}
  {
  }

  lemma {:induction false} HandledAgrees(entries: Entries, now: Time, job: JobId, evalType: string, world: World)
    requires Returns(evalType, world) && !Loses(entries, now, job, evalType, world)
    ensures
      var after := Handled(entries, now, job, evalType, world);
      && job in entries && job in after
      && Agrees(entries[job].job, after[job].job, Verdict(job, evalType, world), now, EndTime(now, evalType, world))
      && ResultKept(entries[job].job, after[job].job, evalType, world)
  {
  }

  /** The statements of `_handle`. */
  method Perform(store: RedisJobStore, publisher: KafkaPublisher, job: JobId, evalType: string, world: World)
    returns (r: Ending, ghost lost: bool)
    modifies store, publisher
    ensures r.Returned? <==> Returns(evalType, world)
    ensures publisher.events ==
      old(publisher.events) + if r.Returned? then [Verdict(job, evalType, world)] else []
    ensures lost <==> Loses(old(store.entries), old(store.clock), job, evalType, world)
    ensures store.entries == Handled(old(store.entries), old(store.clock), job, evalType, world)
    ensures r.Returned? ==> store.clock == EndTime(old(store.clock), evalType, world)
  {
    ghost var missed;
    var call;
    call, lost := Update(store, job, StartPatch(store.clock), world.startWrite);
    if call.Raises? {
      return Escaped(call.error), lost;
    }
    var failure;
    failure, missed := TryComplete(store, publisher, job, evalType, world);
    lost := lost || missed;
    if failure.None? {
      return Returned, lost;
    }
    r, missed := RecordFailure(store, publisher, job, failure.value, world);
    lost := lost || missed;
  }

  /**
   `_handle`. `lost` says whether some update found the job gone, which cannot happen to a live
   job when evaluation and publishing take less than its time-to-live. A normal return has published
   exactly the verdict, an escape nothing; unless the job was lost, the stored status agrees with
   the topic. No other job is touched.
  */
  method Handle(store: RedisJobStore, publisher: KafkaPublisher, job: JobId, evalType: string, world: World)
    returns (r: Ending, ghost lost: bool)
    modifies store, publisher
    ensures r.Returned? <==> Returns(evalType, world)
    ensures r.Returned? <==>
      && world.startWrite.Works?
      && ((&& Offered(evalType) && world.evaluation.Scored? && world.completeWrite.Works?
           && world.completePublish.Works?) ||
          (world.failWrite.Works? && world.failPublish.Works?))
    ensures r.Returned? ==> Tells(job, evalType, world, Verdict(job, evalType, world))
    ensures publisher.events ==
      old(publisher.events) + if r.Returned? then [Verdict(job, evalType, world)] else []
    ensures lost <==> Loses(old(store.entries), old(store.clock), job, evalType, world)
    ensures old(Lookup(store.entries, store.clock, job)).Some? && Timely(world) ==> !lost
    ensures store.entries - {job} == old(store.entries) - {job}
    ensures store.entries == Handled(old(store.entries), old(store.clock), job, evalType, world)
    ensures r.Returned? && !lost ==>
      && job in store.entries && job in old(store.entries)
      && Agrees(old(store.entries)[job].job, store.entries[job].job, Verdict(job, evalType, world),
                old(store.clock), store.clock)
      && ResultKept(old(store.entries)[job].job, store.entries[job].job, evalType, world)
  {
    VerdictTells(job, evalType, world);
    HandledElsewhere(store.entries, store.clock, job, evalType, world);
    if Lookup(store.entries, store.clock, job).Some? && Timely(world) {
      TimelyNeverLoses(store.entries, store.clock, job, evalType, world);
    }
    if Returns(evalType, world) && !Loses(store.entries, store.clock, job, evalType, world) {
      HandledAgrees(store.entries, store.clock, job, evalType, world);
    }
    r, lost := Perform(store, publisher, job, evalType, world);
  }
}
