/**
 The job lifecycle under concurrency: any number of v1 tasks and v2 handlers, redelivered and
 interleaved at every await, share one store. The get and the set of `update_job` are separate
 steps, records may expire between them, and calls may raise.
*/
module JobProtocol {
  import opened Prelude
  import opened JobStore
  import opened Events

  /** v1: Celery task attempt. v2: Kafka handler, which also publishes. */
  datatype Kind = V1 | V2

  datatype Stage = Starting | Completing | Failing

  datatype Control =
    | Getting(stage: Stage, patch: Patch)
    | Setting(stage: Stage, patch: Patch, snapshot: Job)
    | Evaluating
    | Publishing(topic: Topic, text: string)
    | Returned
    | Raised

  datatype WorkerId = WorkerId(n: nat)

  datatype Worker = Worker(job: JobId, kind: Kind, pc: Control)

  /** An event together with the activation that published it. */
  datatype Publication = Publication(worker: WorkerId, event: Event)

  /**
   `created` and `log` record history: the creation records, and per job the patches of its
   `update_job` calls in the order in which they took effect or, finding nothing, returned.
  */
  datatype State = State(clock: Time, entries: Entries, created: map<JobId, Job>,
                         workers: map<WorkerId, Worker>, events: seq<Publication>,
                         log: map<JobId, seq<Patch>>)

  /** How an awaited call ends. A raising write or publish may have been `applied` all the same. */
  datatype Reply = Done(value: string) | Raise(error: string, applied: bool)

  datatype Action =
    | Tick(d: nat)
    | Create(id: JobId, jobType: string, idempotencyKey: Option<string>)
    | Deliver(w: WorkerId, id: JobId, kind: Kind)
    | Read(id: JobId)
    | Crash(w: WorkerId)
    | Advance(w: WorkerId, reply: Reply)

  const INITIAL := State(0, map[], map[], map[], [], map[])

  function At(s: State, w: WorkerId, pc: Control): State
    requires w in s.workers
  {
    s.(workers := s.workers[w := s.workers[w].(pc := pc)])
  }

  function GivenText(e: Edit<Option<string>>): string {
    e.Over(None).GetOr("")
  }

  /** Where a worker continues once an update has gone through. */
  function AfterUpdate(kind: Kind, stage: Stage, patch: Patch): Control {
    match stage
    case Starting => Evaluating
    case Completing => if kind == V2 then Publishing(EvalCompleted, GivenText(patch.result)) else Returned
    case Failing => if kind == V2 then Publishing(EvalFailed, GivenText(patch.error)) else Raised
  }

  /** Where a worker continues once an update has raised: only completion is inside the `try`. */
  function AfterError(stage: Stage, error: string, now: Time): Control {
    if stage == Completing then Getting(Failing, FailPatch(error, now)) else Raised
  }

  function Calls(s: State, id: JobId): seq<Patch> {
    if id in s.log then s.log[id] else []
  }

  function Record(s: State, id: JobId, patch: Patch): State {
    s.(log := s.log[id := Calls(s, id) + [patch]])
  }

  function Write(s: State, id: JobId, snapshot: Job, patch: Patch): State {
    Record(s, id, patch).(entries := Put(s.entries, s.clock, id, Apply(snapshot, patch)))
  }

  /** The event of a worker that is about to publish. */
  function Publishes(s: State, w: WorkerId): Publication
    requires w in s.workers && s.workers[w].pc.Publishing?
  {
    Publication(w, Event(s.workers[w].pc.topic, s.workers[w].job, s.workers[w].pc.text))
  }

  function Publish(s: State, w: WorkerId): State
    requires w in s.workers && s.workers[w].pc.Publishing?
  {
    s.(events := s.events + [Publishes(s, w)])
  }

  /** Where a worker continues when its awaited call ends. */
  function NextControl(s: State, worker: Worker, reply: Reply): Control {
    match worker.pc
    case Getting(stage, patch) => (
      match reply
      case Raise(e, _) => AfterError(stage, e, s.clock)
      case Done(_) =>
        match Lookup(s.entries, s.clock, worker.job)
        case None => AfterUpdate(worker.kind, stage, patch)
        case Some(job) => Setting(stage, patch, job))
    case Setting(stage, patch, _) => (
      match reply
      case Raise(e, _) => AfterError(stage, e, s.clock)
      case Done(_) => AfterUpdate(worker.kind, stage, patch))
    case Evaluating => (
      match reply
      case Raise(e, _) => Getting(Failing, FailPatch(e, s.clock))
      case Done(result) => Getting(Completing, CompletePatch(result, s.clock)))
    case Publishing(topic, _) => (
      match reply
      case Raise(e, _) => if topic == EvalCompleted then Getting(Failing, FailPatch(e, s.clock)) else Raised
      case Done(_) => Returned)
    case Returned => Returned
    case Raised => Raised
  }

  /** A worker cannot tell whether a call that raised took effect. */
  lemma {:induction false} EffectIsInvisible(s: State, worker: Worker, error: string)
    ensures NextControl(s, worker, Raise(error, true)) == NextControl(s, worker, Raise(error, false))
  {
  }

  /** What an awaited call did to store, topics and log by the time it ends. */
  function Effect(s: State, w: WorkerId, reply: Reply): (t: State)
    requires w in s.workers
    ensures t.workers == s.workers && t.clock == s.clock && t.created == s.created
    ensures t.events == s.events || (s.workers[w].pc.Publishing? && t.events == s.events + [Publishes(s, w)])
  {
    var worker, happened := s.workers[w], reply.Done? || reply.applied;
    match worker.pc
    case Getting(_, patch) =>
      if reply.Done? && Lookup(s.entries, s.clock, worker.job).None? then Record(s, worker.job, patch) else s
    case Setting(_, patch, snapshot) => if happened then Write(s, worker.job, snapshot, patch) else s
    case Publishing(_, _) => if happened then Publish(s, w) else s
    case _ => s
  }

  /** One awaited call of worker `w` ends; no other worker moves. */
  function AdvanceWorker(s: State, w: WorkerId, reply: Reply): (t: State)
    requires w in s.workers
    ensures w in t.workers && t.workers == s.workers[w := t.workers[w]]
    ensures t.clock == s.clock && t.created == s.created
    ensures t.events == s.events || (s.workers[w].pc.Publishing? && t.events == s.events + [Publishes(s, w)])
  {
    At(Effect(s, w, reply), w, NextControl(s, s.workers[w], reply))
  }

  /** One step of the whole system; an action that is not enabled changes nothing. */
  function Step(s: State, a: Action): State {
    match a
    case Tick(d) => s.(clock := s.clock + d)
    case Create(id, jobType, key) =>
      // UUIDs are fresh
      if id in s.created then s
      else
        var job := NewJob(id, jobType, key, s.clock);
        s.(entries := Put(s.entries, s.clock, id, job), created := s.created[id := job])
    case Deliver(w, id, kind) =>
      // a request is queued only after its job was created; every delivery is a new activation
      if id !in s.created || w in s.workers then s
      else s.(workers := s.workers[w := Worker(id, kind, Getting(Starting, StartPatch(s.clock)))])
    case Read(_) => s
    case Crash(w) => if w in s.workers && !s.workers[w].pc.Returned? then At(s, w, Raised) else s
    case Advance(w, reply) => if w in s.workers then AdvanceWorker(s, w, reply) else s
  }

  /** The state after any finite schedule. */
  function Run(actions: seq<Action>): State {
    if actions == [] then INITIAL
    else Step(Run(actions[..|actions| - 1]), actions[|actions| - 1])
  }

  lemma {:induction false} RunAppend(actions: seq<Action>, a: Action)
    ensures Run(actions + [a]) == Step(Run(actions), a)
  {
    assert (actions + [a])[..|actions|] == actions;
  }

  lemma {:induction false} RunNext(actions: seq<Action>, n: nat)
    requires n < |actions|
    ensures Run(actions[..n + 1]) == Step(Run(actions[..n]), actions[n])
  {
    assert actions[..n + 1] == actions[..n] + [actions[n]];
    RunAppend(actions[..n], actions[n]);
  }

  /** The state after a schedule that starts in `s`. */
  function RunFrom(s: State, actions: seq<Action>): State {
    if actions == [] then s else Step(RunFrom(s, actions[..|actions| - 1]), actions[|actions| - 1])
  }

  lemma {:induction false} RunFromConcat(s: State, a: seq<Action>, b: seq<Action>)
    ensures RunFrom(s, a + b) == RunFrom(RunFrom(s, a), b)
    decreases |b|
  {
    if b == [] {
      assert a + b == a;
    } else {
      var n := |b| - 1;
      RunFromConcat(s, a, b[..n]);
      assert (a + b)[..|a + b| - 1] == a + b[..n];
    }
  }

  lemma {:induction false} RunContinues(a: seq<Action>, b: seq<Action>)
    ensures Run(a + b) == RunFrom(Run(a), b)
    decreases |b|
  {
    if b == [] {
      assert a + b == a;
    } else {
      var n := |b| - 1;
      RunContinues(a, b[..n]);
      assert (a + b)[..|a + b| - 1] == a + b[..n];
    }
  }

  /** The action is a set of a record of `id` that takes effect. */
  ghost predicate Writes(s: State, a: Action, id: JobId) {
    && a.Advance? && a.w in s.workers && s.workers[a.w].job == id && s.workers[a.w].pc.Setting?
    && (a.reply.Done? || a.reply.applied)
  }

  /** An update whose get and set are not interrupted does what `update_job` does in one piece. */
  lemma {:induction false} UninterruptedUpdate(s: State, w: WorkerId, value: string)
    requires w in s.workers && s.workers[w].pc.Getting?
    ensures
      var worker := s.workers[w];
      var once := Step(s, Advance(w, Done(value)));
      var t := if Lookup(s.entries, s.clock, worker.job).None? then once else Step(once, Advance(w, Done(value)));
      && t.entries == Updated(s.entries, s.clock, worker.job, worker.pc.patch)
      && t.log == s.log[worker.job := Calls(s, worker.job) + [worker.pc.patch]]
      && t.workers == s.workers[w := worker.(pc := AfterUpdate(worker.kind, worker.pc.stage, worker.pc.patch))]
      && t.clock == s.clock && t.created == s.created && t.events == s.events
  {
    var worker := s.workers[w];
    var once := Step(s, Advance(w, Done(value)));
    match Lookup(s.entries, s.clock, worker.job)
    case None =>
    case Some(job) => assert once.workers[w].pc == Setting(worker.pc.stage, worker.pc.patch, job);
  }

  // ----- Records keep their identity and the promises of their status

  ghost predicate Sets<T>(e: Edit<Option<T>>) {
    e.To? && e.value.Some?
  }

  ghost predicate PatchFits(stage: Stage, p: Patch) {
    && KeepsIdentity(p)
    && match stage
       case Starting => p.status == To(Running) && Sets(p.startedAt)
       case Completing => p.status == To(Completed) && Sets(p.result) && Sets(p.completedAt) && p.startedAt.Keep?
       case Failing => p.status == To(Failed) && Sets(p.error) && Sets(p.completedAt) && p.startedAt.Keep?
  }

  /** The worker's first update is behind it. */
  ghost predicate PastStart(pc: Control) {
    match pc
    case Getting(stage, _) => stage != Starting
    case Setting(stage, _, _) => stage != Starting
    case Evaluating => true
    case Publishing(topic, _) => topic == EvalCompleted
    case Returned => false
    case Raised => false
  }

  ghost predicate GoodRecord(s: State, id: JobId, job: Job) {
    id in s.created && SameIdentity(job, s.created[id]) && Shaped(job)
  }

  ghost predicate Begun(s: State, id: JobId) {
    var job := Lookup(s.entries, s.clock, id);
    job.Some? ==> job.value.startedAt.Some?
  }

  ghost predicate GoodWorker(s: State, worker: Worker) {
    && worker.job in s.created
    && (PastStart(worker.pc) ==> Begun(s, worker.job))
    && match worker.pc
       case Getting(stage, patch) => PatchFits(stage, patch)
       case Setting(stage, patch, snapshot) =>
         PatchFits(stage, patch) && GoodRecord(s, worker.job, snapshot) &&
         (stage != Starting ==> snapshot.startedAt.Some?)
       case _ => true
  }

  ghost predicate LifecycleInv(s: State) {
    && (forall id :: id in s.created ==> s.created[id].jobId == id)
    && (forall id :: id in s.entries ==> GoodRecord(s, id, s.entries[id].job))
    && (forall w :: w in s.workers ==> GoodWorker(s, s.workers[w]))
  }

  /** Whatever stage wrote it, the patched snapshot keeps its identity, has started, and is shaped. */
  lemma {:induction false} WrittenRecord(s: State, id: JobId, stage: Stage, patch: Patch, snapshot: Job)
    requires PatchFits(stage, patch) && GoodRecord(s, id, snapshot)
    requires stage != Starting ==> snapshot.startedAt.Some?
    ensures GoodRecord(s, id, Apply(snapshot, patch)) && Apply(snapshot, patch).startedAt.Some?
  {
  }

  lemma {:induction false} WriteKeepsLifecycle(s: State, w: WorkerId)
    requires LifecycleInv(s) && w in s.workers && s.workers[w].pc.Setting?
    ensures var worker := s.workers[w];
      var t := Write(s, worker.job, worker.pc.snapshot, worker.pc.patch);
      LifecycleInv(t) && Begun(t, worker.job)
  {
    var worker := s.workers[w];
    assert GoodWorker(s, worker);
    WrittenRecord(s, worker.job, worker.pc.stage, worker.pc.patch, worker.pc.snapshot);
    var t := Write(s, worker.job, worker.pc.snapshot, worker.pc.patch);
    forall v | v in t.workers ensures GoodWorker(t, t.workers[v]) {
      assert GoodWorker(s, s.workers[v]);
    }
    forall id | id in t.entries ensures GoodRecord(t, id, t.entries[id].job) {
      assert id != worker.job ==> GoodRecord(s, id, s.entries[id].job);
    }
  }

  lemma {:induction false} MoveKeepsLifecycle(s: State, w: WorkerId, pc: Control)
    requires LifecycleInv(s) && w in s.workers && GoodWorker(s, s.workers[w].(pc := pc))
    ensures LifecycleInv(At(s, w, pc))
  {
    var t := At(s, w, pc);
    forall v | v in t.workers ensures GoodWorker(t, t.workers[v]) {
      assert v != w ==> GoodWorker(s, s.workers[v]);
    }
    forall id | id in t.entries ensures GoodRecord(t, id, t.entries[id].job) {
      assert GoodRecord(s, id, s.entries[id].job);
    }
  }

  lemma {:induction false} GetKeepsLifecycle(s: State, w: WorkerId, reply: Reply)
    requires LifecycleInv(s) && w in s.workers && s.workers[w].pc.Getting?
    ensures LifecycleInv(AdvanceWorker(s, w, reply))
  {
    var worker := s.workers[w];
    var t := AdvanceWorker(s, w, reply);
    assert GoodWorker(s, worker);
    if worker.job in s.entries { assert GoodRecord(s, worker.job, s.entries[worker.job].job); }
    MoveKeepsLifecycle(s, w, t.workers[w].pc);
    IgnoreHistory(At(s, w, t.workers[w].pc), t.events, t.log);
  }

  lemma {:induction false} AfterSet(s: State, worker: Worker, reply: Reply)
    requires worker.pc.Setting?
    ensures
      var next := NextControl(s, worker, reply);
      && !next.Setting? && (next.Getting? ==> PatchFits(next.stage, next.patch))
      && (reply.Raise? && PastStart(next) ==> PastStart(worker.pc))
  {
  }

  lemma {:induction false} SetKeepsLifecycle(s: State, w: WorkerId, reply: Reply)
    requires LifecycleInv(s) && w in s.workers && s.workers[w].pc.Setting?
    ensures LifecycleInv(AdvanceWorker(s, w, reply))
  {
    var worker := s.workers[w];
    assert GoodWorker(s, worker);
    WriteKeepsLifecycle(s, w);
    AfterSet(s, worker, reply);
    MoveKeepsLifecycle(Effect(s, w, reply), w, NextControl(s, worker, reply));
  }

  lemma {:induction false} AdvanceKeepsLifecycle(s: State, w: WorkerId, reply: Reply)
    requires LifecycleInv(s) && w in s.workers
    ensures LifecycleInv(AdvanceWorker(s, w, reply))
  {
    if s.workers[w].pc.Getting? {
      GetKeepsLifecycle(s, w, reply);
    } else if s.workers[w].pc.Setting? {
      SetKeepsLifecycle(s, w, reply);
    } else {
      var t := AdvanceWorker(s, w, reply);
      assert GoodWorker(s, s.workers[w]);
      MoveKeepsLifecycle(s, w, t.workers[w].pc);
      IgnoreHistory(At(s, w, t.workers[w].pc), t.events, t.log);
    }
  }

  lemma {:induction false} IgnoreHistory(s: State, events: seq<Publication>, log: map<JobId, seq<Patch>>)
    requires LifecycleInv(s)
    ensures LifecycleInv(s.(events := events, log := log))
  {
    var t := s.(events := events, log := log);
    forall id | id in t.entries ensures GoodRecord(t, id, t.entries[id].job) {
      assert GoodRecord(s, id, s.entries[id].job);
    }
    forall v | v in t.workers ensures GoodWorker(t, t.workers[v]) {
      assert GoodWorker(s, s.workers[v]);
    }
  }

  lemma {:induction false} TickKeepsLifecycle(s: State, d: nat)
    requires LifecycleInv(s)
    ensures LifecycleInv(s.(clock := s.clock + d))
  {
    var t := s.(clock := s.clock + d);
    forall id | id in t.entries ensures GoodRecord(t, id, t.entries[id].job) {
      assert GoodRecord(s, id, s.entries[id].job);
    }
    forall v | v in t.workers ensures GoodWorker(t, t.workers[v]) {
      assert GoodWorker(s, s.workers[v]);
    }
  }

  lemma {:induction false} CreateKeepsLifecycle(s: State, id: JobId, job: Job)
    requires LifecycleInv(s) && id !in s.created && job.jobId == id && Shaped(job)
    ensures LifecycleInv(s.(entries := Put(s.entries, s.clock, id, job), created := s.created[id := job]))
  {
    var t := s.(entries := Put(s.entries, s.clock, id, job), created := s.created[id := job]);
    forall x | x in t.entries ensures GoodRecord(t, x, t.entries[x].job) {
      if x != id { assert GoodRecord(s, x, s.entries[x].job); }
    }
    forall v | v in t.workers ensures GoodWorker(t, t.workers[v]) {
      assert GoodWorker(s, s.workers[v]);
    }
  }

  lemma {:induction false} DeliverKeepsLifecycle(s: State, w: WorkerId, worker: Worker)
    requires LifecycleInv(s) && w !in s.workers && GoodWorker(s, worker)
    ensures LifecycleInv(s.(workers := s.workers[w := worker]))
  {
    var t := s.(workers := s.workers[w := worker]);
    forall id | id in t.entries ensures GoodRecord(t, id, t.entries[id].job) {
      assert GoodRecord(s, id, s.entries[id].job);
    }
    forall v | v in t.workers ensures GoodWorker(t, t.workers[v]) {
      if v != w { assert GoodWorker(s, s.workers[v]); }
    }
  }

  lemma {:induction false} StepKeepsLifecycle(s: State, a: Action)
    requires LifecycleInv(s)
    ensures LifecycleInv(Step(s, a))
  {
    match a
    case Tick(d) => TickKeepsLifecycle(s, d);
    case Create(id, jobType, key) =>
      if id !in s.created { CreateKeepsLifecycle(s, id, NewJob(id, jobType, key, s.clock)); }
    case Deliver(w, id, kind) =>
      if id in s.created && w !in s.workers {
        DeliverKeepsLifecycle(s, w, Worker(id, kind, Getting(Starting, StartPatch(s.clock))));
      }
    case Read(_) =>
    case Crash(w) =>
      if w in s.workers {
        assert GoodWorker(s, s.workers[w]);
        MoveKeepsLifecycle(s, w, Raised);
      }
    case Advance(w, reply) => if w in s.workers { AdvanceKeepsLifecycle(s, w, reply); }
  }

  lemma {:induction false} LifecycleHolds(actions: seq<Action>)
    ensures LifecycleInv(Run(actions))
  {
    if actions != [] {
      LifecycleHolds(actions[..|actions| - 1]);
      StepKeepsLifecycle(Run(actions[..|actions| - 1]), actions[|actions| - 1]);
    }
  }

  /** In every schedule, what a reader sees is the created job with the fields its status promises. */
  lemma {:induction false} RecordsAlwaysGood(actions: seq<Action>, id: JobId)
    ensures
      var s := Run(actions);
      var seen := Lookup(s.entries, s.clock, id);
      seen.Some? ==>
        id in s.created && seen.value.jobId == id && SameIdentity(seen.value, s.created[id]) && Shaped(seen.value)
  {
    LifecycleHolds(actions);
    var s := Run(actions);
    if id in s.entries { assert GoodRecord(s, id, s.entries[id].job); }
  }
}
