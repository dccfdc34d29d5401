/** The job store: JSON records under a time-to-live (app/infra/jobs/redis_job_store.py). */
module JobStore {
  import opened Prelude

  const JOB_TTL_SECONDS: nat := 3600

  datatype JobId = JobId(uuid: string)

  datatype Status = Pending | Running | Completed | Failed

  /** A stored record. `extra` holds keys beyond the nine that creation writes. */
  datatype Job = Job(jobId: JobId, jobType: string, status: Status, idempotencyKey: Option<string>,
                     result: Option<string>, error: Option<string>, createdAt: Time,
                     startedAt: Option<Time>, completedAt: Option<Time>, extra: map<string, string>)

  /** What a keyword argument does to its field. */
  datatype Edit<+T> = Keep | To(value: T) {
    function Over(stored: T): T {
      if To? then value else stored
    }
  }

  /** The keyword arguments of one `update_job` call; absent fields are left alone. */
  datatype Patch = Patch(jobId: Edit<JobId>, jobType: Edit<string>, status: Edit<Status>,
                         idempotencyKey: Edit<Option<string>>, result: Edit<Option<string>>,
                         error: Edit<Option<string>>, createdAt: Edit<Time>, startedAt: Edit<Option<Time>>,
                         completedAt: Edit<Option<Time>>, extra: map<string, string>)

  const NO_CHANGE := Patch(Keep, Keep, Keep, Keep, Keep, Keep, Keep, Keep, Keep, map[])

  datatype Entry = Entry(job: Job, expiresAt: Time)

  type Entries = map<JobId, Entry>

  function NewJob(id: JobId, jobType: string, idempotencyKey: Option<string>, now: Time): Job {
    Job(id, jobType, Pending, idempotencyKey, None, None, now, None, None, map[])
  }

  /** `data.update(fields)`. */
  function Apply(job: Job, p: Patch): Job {
    Job(p.jobId.Over(job.jobId), p.jobType.Over(job.jobType), p.status.Over(job.status),
        p.idempotencyKey.Over(job.idempotencyKey), p.result.Over(job.result), p.error.Over(job.error),
        p.createdAt.Over(job.createdAt), p.startedAt.Over(job.startedAt), p.completedAt.Over(job.completedAt),
        job.extra + p.extra)
  }

  /** Two records agree on every field that `p` leaves alone. */
  ghost predicate AgreeOutside(a: Job, b: Job, p: Patch) {
    && (p.jobId.Keep? ==> a.jobId == b.jobId)
    && (p.jobType.Keep? ==> a.jobType == b.jobType)
    && (p.status.Keep? ==> a.status == b.status)
    && (p.idempotencyKey.Keep? ==> a.idempotencyKey == b.idempotencyKey)
    && (p.result.Keep? ==> a.result == b.result)
    && (p.error.Keep? ==> a.error == b.error)
    && (p.createdAt.Keep? ==> a.createdAt == b.createdAt)
    && (p.startedAt.Keep? ==> a.startedAt == b.startedAt)
    && (p.completedAt.Keep? ==> a.completedAt == b.completedAt)
    && a.extra - p.extra.Keys == b.extra - p.extra.Keys
  }

  /** Every field that `p` gives has the given value. */
  ghost predicate Given(p: Patch, job: Job) {
    && (p.jobId.To? ==> job.jobId == p.jobId.value)
    && (p.jobType.To? ==> job.jobType == p.jobType.value)
    && (p.status.To? ==> job.status == p.status.value)
    && (p.idempotencyKey.To? ==> job.idempotencyKey == p.idempotencyKey.value)
    && (p.result.To? ==> job.result == p.result.value)
    && (p.error.To? ==> job.error == p.error.value)
    && (p.createdAt.To? ==> job.createdAt == p.createdAt.value)
    && (p.startedAt.To? ==> job.startedAt == p.startedAt.value)
    && (p.completedAt.To? ==> job.completedAt == p.completedAt.value)
    && forall key :: key in p.extra ==> key in job.extra && job.extra[key] == p.extra[key]
  }

  /** Patching gives the given fields, leaves the others alone, and does nothing else. */
  lemma {:induction false} ApplyExactly(job: Job, p: Patch, after: Job)
    ensures after == Apply(job, p) <==> Given(p, after) && AgreeOutside(after, job, p)
  {
    AgreeOutsideIff(after, job, p);
    if Given(p, after) && AgreeOutside(after, job, p) {
      assert after.extra + p.extra == after.extra;
      assert Apply(after, p) == after;
    }
    if after == Apply(job, p) {
      assert (job.extra + p.extra) - p.extra.Keys == job.extra - p.extra.Keys;
    }
  }

  /** Patching cannot tell two records apart exactly when they agree on what the patch leaves alone. */
  lemma {:induction false} AgreeOutsideIff(a: Job, b: Job, p: Patch)
    ensures AgreeOutside(a, b, p) <==> Apply(a, p) == Apply(b, p)
  {
    ExtraAgrees(a.extra, b.extra, p.extra);
  }

  lemma {:induction false} ExtraAgrees(a: map<string, string>, b: map<string, string>, p: map<string, string>)
    ensures a - p.Keys == b - p.Keys <==> a + p == b + p
  {
    if a + p == b + p {
      forall k ensures k in a - p.Keys <==> k in b - p.Keys {
        assert k in a + p <==> k in b + p;
      }
      forall k | k in a - p.Keys ensures (a - p.Keys)[k] == (b - p.Keys)[k] {
        assert (a + p)[k] == (b + p)[k];
      }
    } else if a - p.Keys == b - p.Keys {
      forall k ensures k in a + p <==> k in b + p {
        assert k in a - p.Keys <==> k in b - p.Keys;
      }
      forall k | k in a + p ensures (a + p)[k] == (b + p)[k] {
        if k !in p { assert (a - p.Keys)[k] == (b - p.Keys)[k]; }
      }
    }
  }

  function ApplyAll(job: Job, patches: seq<Patch>): Job {
    if patches == [] then job else Apply(ApplyAll(job, patches[..|patches| - 1]), patches[|patches| - 1])
  }

  lemma {:induction false} ApplyAllAppend(job: Job, patches: seq<Patch>, p: Patch)
    ensures ApplyAll(job, patches + [p]) == Apply(ApplyAll(job, patches), p)
  {
  }

  lemma {:induction false} ApplyAllConcat(job: Job, a: seq<Patch>, b: seq<Patch>)
    ensures ApplyAll(job, a + b) == ApplyAll(ApplyAll(job, a), b)
  {
    if b == [] {
      assert a + b == a;
    } else {
      var n := |b| - 1;
      ApplyAllConcat(job, a, b[..n]);
      assert a + b == (a + b[..n]) + [b[n]];
      ApplyAllAppend(job, a + b[..n], b[n]);
    }
  }

  // The three shapes in which the workers call `update_job`.

  function StartPatch(now: Time): Patch {
    NO_CHANGE.(status := To(Running), startedAt := To(Some(now)))
  }

  function CompletePatch(result: string, now: Time): Patch {
    NO_CHANGE.(status := To(Completed), result := To(Some(result)), completedAt := To(Some(now)))
  }

  function FailPatch(error: string, now: Time): Patch {
    NO_CHANGE.(status := To(Failed), error := To(Some(error)), completedAt := To(Some(now)))
  }

  /** `get_job` at time `now`: an expired record is gone. */
  function Lookup(entries: Entries, now: Time, id: JobId): Option<Job> {
    if id in entries && now < entries[id].expiresAt then Some(entries[id].job) else None
  }

  /** A write at time `now`: every write restarts the time-to-live. */
  function Put(entries: Entries, now: Time, id: JobId, job: Job): Entries {
    entries[id := Entry(job, now + JOB_TTL_SECONDS)]
  }

  /** `update_job` in one piece: a missing or expired record is left alone. */
  function Updated(entries: Entries, now: Time, id: JobId, patch: Patch): Entries {
    match Lookup(entries, now, id)
    case None => entries
    case Some(job) => Put(entries, now, id, Apply(job, patch))
  }

  // ----- When a record can be read

  /** An update that comes `wait` seconds after the previous call. */
  datatype Later = Later(wait: nat, patch: Patch)

  function TimeAfter(now: Time, calls: seq<Later>): Time {
    if calls == [] then now else TimeAfter(now, calls[..|calls| - 1]) + calls[|calls| - 1].wait
  }

  function AfterCalls(entries: Entries, now: Time, id: JobId, calls: seq<Later>): Entries {
    if calls == [] then entries
    else
      var n := |calls| - 1;
      Updated(AfterCalls(entries, now, id, calls[..n]), TimeAfter(now, calls), id, calls[n].patch)
  }

  function PatchesOf(calls: seq<Later>): seq<Patch> {
    if calls == [] then [] else PatchesOf(calls[..|calls| - 1]) + [calls[|calls| - 1].patch]
  }

  /** No call waited a whole time-to-live. */
  ghost predicate Prompt(calls: seq<Later>) {
    forall i :: 0 <= i < |calls| ==> calls[i].wait < JOB_TTL_SECONDS
  }

  lemma {:induction false} StoredAfterCalls(entries: Entries, now: Time, id: JobId, job: Job, calls: seq<Later>)
    ensures
      var after := AfterCalls(Put(entries, now, id, job), now, id, calls);
      id in after &&
      if Prompt(calls)
      then after[id] == Entry(ApplyAll(job, PatchesOf(calls)), TimeAfter(now, calls) + JOB_TTL_SECONDS)
      else after[id].expiresAt <= TimeAfter(now, calls)
    decreases |calls|
  {
    if calls == [] {
    } else {
      var n := |calls| - 1;
      StoredAfterCalls(entries, now, id, job, calls[..n]);
      ApplyAllAppend(job, PatchesOf(calls[..n]), calls[n].patch);
      assert Prompt(calls) <==> Prompt(calls[..n]) && calls[n].wait < JOB_TTL_SECONDS by {
        assert calls == calls[..n] + [calls[n]];
      }
    }
  }

  /**
   What `get_job` returns after a record was written and then updated any number of times: all
   patches applied in turn if every gap up to the read was shorter than the time-to-live, and
   nothing ever again after one gap that was not.
  */
  lemma {:induction false} ReadAfterUpdates(entries: Entries, now: Time, id: JobId, job: Job, calls: seq<Later>,
                                            wait: nat)
    ensures Lookup(AfterCalls(Put(entries, now, id, job), now, id, calls), TimeAfter(now, calls) + wait, id) ==
      if Prompt(calls) && wait < JOB_TTL_SECONDS then Some(ApplyAll(job, PatchesOf(calls))) else None
  {
    StoredAfterCalls(entries, now, id, job, calls);
  }

  /**
   An update `wait` seconds after a write leaves the end of the time-to-live alone if and only if it comes
   in the same instant or too late; otherwise the record outlives that end.
  */
  lemma {:induction false} UpdateRestartsTimeToLive(entries: Entries, now: Time, id: JobId, job: Job, wait: nat,
                                                    patch: Patch)
    ensures
      var before := Put(entries, now, id, job);
      var after := Updated(before, now + wait, id, patch);
      && id in after
      && (after[id].expiresAt == before[id].expiresAt <==> wait == 0 || JOB_TTL_SECONDS <= wait)
      && (Lookup(after, before[id].expiresAt, id).Some? <==> 0 < wait < JOB_TTL_SECONDS)
  {
  }

  // ----- What records promise

  /** What a record promises for its status. */
  ghost predicate Shaped(job: Job) {
    match job.status
    case Pending =>
      job.result.None? && job.error.None? && job.startedAt.None? && job.completedAt.None?
    case Running => job.startedAt.Some?
    case Completed => job.result.Some? && job.startedAt.Some? && job.completedAt.Some?
    case Failed => job.error.Some? && job.startedAt.Some? && job.completedAt.Some?
  }

  ghost predicate SameIdentity(a: Job, b: Job) {
    && a.jobId == b.jobId && a.jobType == b.jobType
    && a.idempotencyKey == b.idempotencyKey && a.createdAt == b.createdAt
  }

  ghost predicate KeepsIdentity(p: Patch) {
    p.jobId.Keep? && p.jobType.Keep? && p.idempotencyKey.Keep? && p.createdAt.Keep?
  }

  /** The store as one client sees it between awaits of other clients. */
  class RedisJobStore {
    var clock: Time
    var entries: Entries

    constructor ()
      ensures clock == 0 && entries == map[]
    {
      clock, entries := 0, map[];
    }

    method Advance(d: nat)
      modifies this`clock
      ensures clock == old(clock) + d
    {
      clock := clock + d;
    }

    /** `id` is the fresh UUID drawn by the source. */
    method CreateJob(id: JobId, jobType: string, idempotencyKey: Option<string>)
      requires id !in entries
      modifies this`entries
      ensures entries == old(Put(entries, clock, id, NewJob(id, jobType, idempotencyKey, clock)))
      ensures Lookup(entries, clock, id) == Some(NewJob(id, jobType, idempotencyKey, clock))
      ensures
        && entries.Keys == old(entries.Keys) + {id} && entries - {id} == old(entries) - {id}
        && entries[id].expiresAt == clock + 3600
        && var job := entries[id].job;
           && job.jobId == id && job.jobType == jobType && job.idempotencyKey == idempotencyKey
           && job.createdAt == clock && job.status == Pending && job.result == None && job.error == None
           && job.startedAt == None && job.completedAt == None && job.extra == map[]
    {
      var job := NewJob(id, jobType, idempotencyKey, clock);
      entries := Put(entries, clock, id, job);
    }

    /** Patch a live record and restart its time-to-live; a missing or expired record is left alone. */
    method UpdateJob(id: JobId, patch: Patch) returns (ghost found: bool)
      modifies this`entries
      ensures found <==> old(Lookup(entries, clock, id)).Some?
      ensures !found ==> entries == old(entries)
      ensures found ==> entries == old(Put(entries, clock, id, Apply(entries[id].job, patch)))
      ensures entries == Updated(old(entries), clock, id, patch)
      ensures found ==>
        && entries - {id} == old(entries) - {id} && id in entries && entries[id].expiresAt == clock + 3600
        && Given(patch, entries[id].job) && AgreeOutside(entries[id].job, old(entries)[id].job, patch)
    {
      var job := Lookup(entries, clock, id);
      found := job.Some?;
      if job.None? {
        return;
      }
      var data := job.value;
      data := Apply(data, patch);
      ApplyExactly(job.value, patch, data);
      entries := Put(entries, clock, id, data);
    }
  }
}
