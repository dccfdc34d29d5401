/** The v1 Celery task: attempts and retries (app/workers/tasks/eval_tasks.py). */
module EvalTasks {
  import opened Prelude
  import opened JobStore
  import EvalWorker

  const MAX_RETRIES: nat := 3
  const RETRY_DELAY: nat := 5

  type Call = EvalWorker.Call

  /** What the outside world does during one attempt. */
  datatype Attempt = Attempt(startWrite: Call, evaluation: EvalWorker.Evaluation, evaluationTime: nat,
                             completeWrite: Call, failWrite: Call)

  predicate Succeeds(a: Attempt) {
    a.startWrite.Works? && a.evaluation.Scored? && a.completeWrite.Works?
  }

  predicate StoreWorks(a: Attempt) {
    a.startWrite.Works? && a.completeWrite.Works? && a.failWrite.Works?
  }

  /** The exception that the attempt's `except` clause stores. */
  function ErrorOf(a: Attempt): string {
    if a.evaluation.Broken? then a.evaluation.error
    else if a.completeWrite.Raises? then a.completeWrite.error
    else ""
  }

  function AttemptPatches(a: Attempt, now: Time): seq<Patch> {
    if a.startWrite.Raises? then []
    else
      [StartPatch(now)] +
      if Succeeds(a) then [CompletePatch(a.evaluation.result, now + a.evaluationTime)]
      else if a.failWrite.Works? then [FailPatch(ErrorOf(a), now + a.evaluationTime)]
      else []
  }

  function AttemptTime(a: Attempt): nat {
    if a.startWrite.Raises? then 0 else a.evaluationTime
  }

  /** The record of `job`, if there was one, is the old record with `patches` applied. */
  ghost predicate Patched(before: Entries, after: Entries, job: JobId, patches: seq<Patch>) {
    job in before ==> job in after && after[job].job == ApplyAll(before[job].job, patches)
  }

  lemma {:induction false} PatchedTwice(a: Entries, b: Entries, c: Entries, job: JobId, first: seq<Patch>,
                                        second: seq<Patch>)
    requires Patched(a, b, job, first) && Patched(b, c, job, second)
    ensures Patched(a, c, job, first + second)
  {
    if job in a { ApplyAllConcat(a[job].job, first, second); }
  }

  /** Nothing in the attempt fails, and it takes less than the time-to-live. */
  predicate Smooth(a: Attempt) {
    StoreWorks(a) && a.evaluationTime < JOB_TTL_SECONDS
  }

  ghost predicate AllSmooth(world: nat -> Attempt, n: nat) {
    forall i: nat :: i < n ==> Smooth(world(i))
  }

  /** The record was written just now. */
  ghost predicate Renewed(store: RedisJobStore, job: JobId)
    reads store
  {
    job in store.entries && store.entries[job].expiresAt == store.clock + JOB_TTL_SECONDS
  }

  /** The store after one attempt. */
  function Attempted(entries: Entries, now: Time, job: JobId, a: Attempt): Entries {
    if a.startWrite.Raises? then entries
    else
      var started, end := Updated(entries, now, job, StartPatch(now)), now + a.evaluationTime;
      if Succeeds(a) then Updated(started, end, job, CompletePatch(a.evaluation.result, end))
      else if a.failWrite.Works? then Updated(started, end, job, FailPatch(ErrorOf(a), end))
      else started
  }

  /** Some update of the attempt finds the job gone. */
  ghost predicate Loses(entries: Entries, now: Time, job: JobId, a: Attempt) {
    && a.startWrite.Works?
    && (|| Lookup(entries, now, job).None?
        || ((Succeeds(a) || a.failWrite.Works? || (a.evaluation.Scored? && a.completeWrite.Works?)) &&
            Lookup(Updated(entries, now, job, StartPatch(now)), now + a.evaluationTime, job).None?))
  }

  /** One run of the task body; `ok` is a normal return, otherwise the exception reaches `self.retry`. */
  method RunAttempt(store: RedisJobStore, job: JobId, a: Attempt) returns (ok: bool, ghost lost: bool)
    modifies store
    ensures ok <==> Succeeds(a)
    ensures ok <==> a.startWrite.Works? && a.evaluation.Scored? && a.completeWrite.Works?
    ensures store.clock == old(store.clock) + AttemptTime(a)
    ensures store.entries == Attempted(old(store.entries), old(store.clock), job, a)
    ensures lost <==> Loses(old(store.entries), old(store.clock), job, a)
    ensures Smooth(a) && old(Lookup(store.entries, store.clock, job)).Some? ==> !lost && Renewed(store, job)
    ensures store.entries - {job} == old(store.entries) - {job}
    ensures !lost ==> Patched(old(store.entries), store.entries, job, AttemptPatches(a, old(store.clock)))
  {
    AttemptedIs(store.entries, store.clock, job, a);
    ghost var missed;
    var call;
    call, missed := EvalWorker.Update(store, job, StartPatch(store.clock), a.startWrite);
    lost := missed;
    if call.Raises? {
      return false, lost;
    }
    store.Advance(a.evaluationTime);
    var error: string;
    if a.evaluation.Scored? {
      var patch := CompletePatch(a.evaluation.result, store.clock);
      call, missed := EvalWorker.Update(store, job, patch, a.completeWrite);
      lost := lost || missed;
      if call.Works? {
        return true, lost;
      }
      error := call.error;
    } else {
      error := a.evaluation.error;
    }
    call, missed := EvalWorker.Update(store, job, FailPatch(error, store.clock), a.failWrite);
    lost := lost || missed;
    return false, lost;
  }

  ghost predicate PatchedBy(before: Entries, after: Entries, job: JobId, p: Patch) {
    job in before && job in after && after[job].job == Apply(before[job].job, p)
  }

  lemma {:induction false} UpdatedOnce(a: Entries, b: Entries, job: JobId, p: Patch)
    requires PatchedBy(a, b, job, p)
    ensures Patched(a, b, job, [p])
  {
  }

  lemma {:induction false} UpdatedTwice(a: Entries, b: Entries, c: Entries, job: JobId, p: Patch, q: Patch)
    requires PatchedBy(a, b, job, p) && PatchedBy(b, c, job, q)
    ensures Patched(a, c, job, [p] + [q])
  {
    UpdatedOnce(a, b, job, p);
    UpdatedOnce(b, c, job, q);
    PatchedTwice(a, b, c, job, [p], [q]);
  }

  lemma {:induction false} AttemptedPatches(entries: Entries, now: Time, job: JobId, a: Attempt)
    requires !Loses(entries, now, job, a)
    ensures Patched(entries, Attempted(entries, now, job, a), job, AttemptPatches(a, now))
  {
    if a.startWrite.Works? {
      var start, end := StartPatch(now), now + a.evaluationTime;
      var started, after := Updated(entries, now, job, start), Attempted(entries, now, job, a);
      if Succeeds(a) {
        UpdatedTwice(entries, started, after, job, start, CompletePatch(a.evaluation.result, end));
      } else if a.failWrite.Works? {
        UpdatedTwice(entries, started, after, job, start, FailPatch(ErrorOf(a), end));
      } else {
        UpdatedOnce(entries, started, job, start);
      }
    }
  }

  lemma {:induction false} AttemptedIs(entries: Entries, now: Time, job: JobId, a: Attempt)
    ensures Attempted(entries, now, job, a) - {job} == entries - {job}
    ensures !Loses(entries, now, job, a) ==>
      Patched(entries, Attempted(entries, now, job, a), job, AttemptPatches(a, now))
    ensures Smooth(a) && Lookup(entries, now, job).Some? ==>
      var after := Attempted(entries, now, job, a);
      && !Loses(entries, now, job, a)
      && job in after && after[job].expiresAt == now + AttemptTime(a) + JOB_TTL_SECONDS
  {
    if !Loses(entries, now, job, a) { AttemptedPatches(entries, now, job, a); }
  }

  /** The time at which attempt `n` of the chain starts. */
  function StartOf(world: nat -> Attempt, now: Time, n: nat): Time {
    if n == 0 then now else StartOf(world, now, n - 1) + AttemptTime(world(n - 1)) + RETRY_DELAY
  }

  /** The time spent in the first `n` attempts. */
  function Worked(world: nat -> Attempt, n: nat): nat {
    if n == 0 then 0 else Worked(world, n - 1) + AttemptTime(world(n - 1))
  }

  /** Five seconds lie between an attempt and the next. */
  lemma {:induction false} StartIs(world: nat -> Attempt, now: Time, n: nat)
    ensures StartOf(world, now, n) == now + Worked(world, n) + 5 * n
  {
    if n > 0 { StartIs(world, now, n - 1); }
  }

  lemma {:induction false} EndIs(world: nat -> Attempt, now: Time, n: nat)
    requires n > 0
    ensures StartOf(world, now, n - 1) + AttemptTime(world(n - 1)) == now + Worked(world, n) + 5 * (n - 1)
  {
    StartIs(world, now, n - 1);
  }

  /** The record after the first `n` attempts. */
  function ChainRecord(job: Job, world: nat -> Attempt, now: Time, n: nat): Job {
    if n == 0 then job
    else ApplyAll(ChainRecord(job, world, now, n - 1), AttemptPatches(world(n - 1), StartOf(world, now, n - 1)))
  }

  ghost predicate Chained(before: Entries, after: Entries, job: JobId, world: nat -> Attempt, now: Time, n: nat) {
    job in before ==> job in after && after[job].job == ChainRecord(before[job].job, world, now, n)
  }

  /**
   The whole chain of a single delivery: retries stop at the first success or after the fourth
   attempt, and the stored record is the old one with the attempts' patches applied in turn.
  */
  method RunTask(store: RedisJobStore, job: JobId, world: nat -> Attempt)
    returns (ok: bool, attempts: nat, ghost lost: bool)
    modifies store
    ensures 1 <= attempts <= 4
    ensures ok <==> Succeeds(world(attempts - 1))
    ensures forall i: nat :: i < attempts - 1 ==> !Succeeds(world(i))
    ensures !ok ==> attempts == 4
    ensures store.clock == old(store.clock) + Worked(world, attempts) + 5 * (attempts - 1)
    ensures AllSmooth(world, attempts) && old(Lookup(store.entries, store.clock, job)).Some? ==> !lost
    ensures store.entries - {job} == old(store.entries) - {job}
    ensures !lost ==> Chained(old(store.entries), store.entries, job, world, old(store.clock), attempts)
  {
    ghost var first, now := store.entries, store.clock;
    ghost var missed;
    ok, lost := RunAttempt(store, job, world(0));
    attempts := 1;
    ChainGrows(first, first, store.entries, world, now, job, 0, lost);
    while !ok && attempts - 1 < MAX_RETRIES
      invariant 1 <= attempts <= 1 + MAX_RETRIES
      invariant ok <==> Succeeds(world(attempts - 1))
      invariant forall i: nat :: i < attempts - 1 ==> !Succeeds(world(i))
      invariant store.clock == StartOf(world, now, attempts - 1) + AttemptTime(world(attempts - 1))
      invariant store.entries - {job} == first - {job}
      invariant AllSmooth(world, attempts) && Lookup(first, now, job).Some? ==> !lost && Renewed(store, job)
      invariant !lost ==> Chained(first, store.entries, job, world, now, attempts)
    {
      store.Advance(RETRY_DELAY);
      ghost var middle := store.entries;
      assert store.clock == StartOf(world, now, attempts);
      ok, missed := RunAttempt(store, job, world(attempts));
      lost := lost || missed;
      ChainGrows(first, middle, store.entries, world, now, job, attempts, lost);
      attempts := attempts + 1;
    }
    EndIs(world, now, attempts);
  }

  lemma {:induction false} ChainGrows(first: Entries, middle: Entries, after: Entries, world: nat -> Attempt, now: Time,
                                      job: JobId, n: nat, lost: bool)
    requires !lost ==> Chained(first, middle, job, world, now, n)
    requires !lost ==> Patched(middle, after, job, AttemptPatches(world(n), StartOf(world, now, n)))
    ensures !lost ==> Chained(first, after, job, world, now, n + 1)
    ensures AllSmooth(world, n + 1) <==> AllSmooth(world, n) && Smooth(world(n))
  {
  }

  /** How one attempt changes the record. */
  ghost predicate Effect(before: Job, a: Attempt, after: Job) {
    && (Succeeds(a) ==>
          after.status == Completed && after.result == Some(a.evaluation.result) && after.error == before.error)
    && (!Succeeds(a) && a.startWrite.Works? && a.failWrite.Works? ==>
          after.status == Failed &&
          after.error == Some(if a.evaluation.Broken? then a.evaluation.error else a.completeWrite.error))
    && (!Succeeds(a) ==> after.result == before.result)
    && (!Succeeds(a) && before.status != Completed ==> after.status != Completed)
  }

  lemma {:induction false} AfterAttempt(job: Job, a: Attempt, now: Time)
    ensures Effect(job, a, ApplyAll(job, AttemptPatches(a, now)))
  {
    var start := StartPatch(now);
    ApplyAllAppend(job, [], start);
    assert [] + [start] == [start];
    if a.startWrite.Works? && |AttemptPatches(a, now)| == 2 {
      ApplyAllAppend(job, [start], AttemptPatches(a, now)[1]);
      assert AttemptPatches(a, now) == [start] + [AttemptPatches(a, now)[1]];
    }
  }

  lemma {:induction false} LastAttempt(job: Job, world: nat -> Attempt, now: Time, n: nat)
    requires n > 0
    ensures Effect(ChainRecord(job, world, now, n - 1), world(n - 1), ChainRecord(job, world, now, n))
  {
    AfterAttempt(ChainRecord(job, world, now, n - 1), world(n - 1), StartOf(world, now, n - 1));
  }

  lemma {:induction false} NeverCompletedByFailures(job: Job, world: nat -> Attempt, now: Time, n: nat)
    requires job.status != Completed && forall i: nat :: i < n ==> !Succeeds(world(i))
    ensures ChainRecord(job, world, now, n).status != Completed
  {
    if n > 0 {
      NeverCompletedByFailures(job, world, now, n - 1);
      LastAttempt(job, world, now, n);
    }
  }

  /** The stored error is the one with which the evaluation of the attempt broke. */
  ghost predicate Stores(stored: Option<string>, a: Attempt) {
    a.evaluation.Broken? && stored == Some(a.evaluation.error)
  }

  /**
   How a chain of `n` attempts leaves the record. Completed exactly when the last attempt succeeded,
   even if store calls raise; with a working store it is otherwise failed, and the stored error is
   that of the last failing attempt.
  */
  lemma {:induction false} ChainOutcome(job: Job, world: nat -> Attempt, now: Time, n: nat)
    requires n > 0 && job.status != Completed && forall i: nat :: i < n - 1 ==> !Succeeds(world(i))
    ensures
      var after := ChainRecord(job, world, now, n);
      && (after.status == Completed <==> Succeeds(world(n - 1)))
      && (Succeeds(world(n - 1)) ==> after.result == Some(world(n - 1).evaluation.result))
    ensures (forall i: nat :: i < n ==> StoreWorks(world(i))) ==>
      var after := ChainRecord(job, world, now, n);
      && (after.status == if Succeeds(world(n - 1)) then Completed else Failed)
      && (!Succeeds(world(n - 1)) ==> Stores(after.error, world(n - 1)))
      && (Succeeds(world(n - 1)) ==> if n == 1 then after.error == job.error else Stores(after.error, world(n - 2)))
  {
    NeverCompletedByFailures(job, world, now, n - 1);
    LastAttempt(job, world, now, n);
    if n > 1 { LastAttempt(job, world, now, n - 1); }
  }
}
