/** When the non-atomic `update_job` behaves like an atomic store (app/infra/jobs/redis_job_store.py). */
module JobAtomicity {
  import opened Prelude
  import opened JobStore
  import opened JobProtocol

  /** `id` has not expired. */
  ghost predicate Alive(s: State, id: JobId) {
    id in s.created ==> Lookup(s.entries, s.clock, id).Some?
  }

  /** The record is what an atomic store would hold: the creation record with all patches applied in call order. */
  ghost predicate Folded(s: State, id: JobId) {
    id in s.created ==> id in s.entries && s.entries[id].job == ApplyAll(s.created[id], Calls(s, id))
  }

  // ----- The exact condition

  /**
   A set of `id` finds the stored record equal to its snapshot on every field that its patch leaves
   alone; a compare-and-set could test this before the write.
  */
  ghost predicate Fresh(s: State, a: Action, id: JobId) {
    Writes(s, a, id) ==>
      id in s.entries && AgreeOutside(s.workers[a.w].pc.snapshot, s.entries[id].job, s.workers[a.w].pc.patch)
  }

  /** Creation stores the record, and precedes every call on it. */
  ghost predicate Tracked(s: State, id: JobId) {
    && (id in s.created <==> id in s.entries)
    && (id !in s.created ==> id !in s.log && forall w :: w in s.workers ==> s.workers[w].job != id)
  }

  lemma {:induction false} AdvanceKeepsTracked(s: State, w: WorkerId, reply: Reply, id: JobId)
    requires Tracked(s, id) && w in s.workers
    ensures Tracked(AdvanceWorker(s, w, reply), id)
  {
    var t := AdvanceWorker(s, w, reply);
    forall v | v in t.workers ensures t.workers[v].job == s.workers[v].job { }
  }

  lemma {:induction false} TrackedHolds(actions: seq<Action>, id: JobId)
    ensures Tracked(Run(actions), id)
  {
    if actions != [] {
      var s, a := Run(actions[..|actions| - 1]), actions[|actions| - 1];
      TrackedHolds(actions[..|actions| - 1], id);
      if a.Advance? && a.w in s.workers { AdvanceKeepsTracked(s, a.w, a.reply, id); }
    }
  }

  /** A set of `id` leaves the fold intact exactly when it is fresh. */
  lemma {:induction false} FoldWrite(s: State, a: Action, id: JobId)
    requires Tracked(s, id) && Folded(s, id) && Writes(s, a, id)
    ensures Folded(Step(s, a), id) <==> Fresh(s, a, id)
  {
    var worker, t := s.workers[a.w], Step(s, a);
    AgreeOutsideIff(worker.pc.snapshot, s.entries[id].job, worker.pc.patch);
    ApplyAllAppend(s.created[id], Calls(s, id), worker.pc.patch);
    assert t.entries[id].job == Apply(worker.pc.snapshot, worker.pc.patch);
    assert Calls(t, id) == Calls(s, id) + [worker.pc.patch];
  }

  lemma {:induction false} AdvanceStays(s: State, w: WorkerId, reply: Reply, id: JobId)
    requires Alive(s, id) && Folded(s, id) && w in s.workers && !Writes(s, Advance(w, reply), id)
    ensures Folded(AdvanceWorker(s, w, reply), id)
  {
    var t := AdvanceWorker(s, w, reply);
    if id in s.created {
      assert Calls(t, id) == Calls(s, id) && t.entries[id] == s.entries[id];
    }
  }

  /** No other step touches the fold of a job that is alive. */
  lemma {:induction false} FoldStay(s: State, a: Action, id: JobId)
    requires Tracked(s, id) && Alive(s, id) && Folded(s, id) && !Writes(s, a, id)
    ensures Folded(Step(s, a), id)
  {
    if a.Advance? {
      if a.w in s.workers { AdvanceStays(s, a.w, a.reply, id); }
    } else {
      assert Calls(Step(s, a), id) == Calls(s, id);
    }
  }

  lemma {:induction false} FoldStep(s: State, a: Action, id: JobId)
    requires Tracked(s, id) && Alive(s, id) && Folded(s, id)
    ensures Folded(Step(s, a), id) <==> Fresh(s, a, id)
  {
    if Writes(s, a, id) {
      FoldWrite(s, a, id);
    } else {
      FoldStay(s, a, id);
    }
  }

  ghost predicate FoldedUpTo(actions: seq<Action>, id: JobId, n: nat)
    requires n <= |actions|
  {
    forall m :: 0 <= m <= n ==> Folded(Run(actions[..m]), id)
  }

  ghost predicate FreshBefore(actions: seq<Action>, id: JobId, n: nat)
    requires n <= |actions|
  {
    forall m :: 0 <= m < n ==> Fresh(Run(actions[..m]), actions[m], id)
  }

  lemma {:induction false} FoldPrefix(actions: seq<Action>, id: JobId, n: nat)
    requires n <= |actions| && forall m :: 0 <= m <= n ==> Alive(Run(actions[..m]), id)
    ensures FoldedUpTo(actions, id, n) <==> FreshBefore(actions, id, n)
  {
    if n > 0 {
      FoldPrefix(actions, id, n - 1);
      RunNext(actions, n - 1);
      TrackedHolds(actions[..n - 1], id);
      if FoldedUpTo(actions, id, n - 1) {
        FoldStep(Run(actions[..n - 1]), actions[n - 1], id);
      }
    }
  }

  /**
   For every schedule in which a job does not expire: its record is the creation record with all
   its patches applied in call order throughout, if and only if every set of it was fresh.
  */
  lemma {:induction false} FoldExactlyWhenFresh(actions: seq<Action>, id: JobId)
    requires forall n :: 0 <= n <= |actions| ==> Alive(Run(actions[..n]), id)
    ensures (forall n :: 0 <= n <= |actions| ==> Folded(Run(actions[..n]), id)) <==>
      (forall n :: 0 <= n < |actions| ==> Fresh(Run(actions[..n]), actions[n], id))
  {
    FoldPrefix(actions, id, |actions|);
  }

  // ----- Updates that do not overlap are fresh

  ghost predicate InFlight(s: State, w: WorkerId, id: JobId) {
    w in s.workers && s.workers[w].job == id && s.workers[w].pc.Setting?
  }

  /** At most one update of `id` is between its get and its set. */
  ghost predicate Exclusive(s: State, id: JobId) {
    forall v, w :: InFlight(s, v, id) && InFlight(s, w, id) ==> v == w
  }

  ghost predicate Current(s: State, w: WorkerId, id: JobId)
    requires InFlight(s, w, id)
  {
    id in s.entries && s.workers[w].pc.snapshot == s.entries[id].job
  }

  /** Snapshots in flight are current. */
  ghost predicate SnapshotsCurrent(s: State, id: JobId) {
    forall w :: InFlight(s, w, id) ==> Current(s, w, id)
  }

  lemma {:induction false} AdvanceKeepsCurrent(s: State, w: WorkerId, reply: Reply, id: JobId)
    requires SnapshotsCurrent(s, id) && Exclusive(s, id) && w in s.workers
    ensures SnapshotsCurrent(AdvanceWorker(s, w, reply), id)
  {
    var t := AdvanceWorker(s, w, reply);
    forall v | InFlight(t, v, id) ensures Current(t, v, id) {
      if v != w {
        assert InFlight(s, v, id) && Current(s, v, id);
        assert InFlight(s, w, id) ==> v == w;
      }
    }
  }

  lemma {:induction false} StepKeepsCurrent(s: State, a: Action, id: JobId)
    requires SnapshotsCurrent(s, id) && Exclusive(s, id) && Tracked(s, id)
    ensures SnapshotsCurrent(Step(s, a), id)
  {
    if a.Advance? && a.w in s.workers {
      AdvanceKeepsCurrent(s, a.w, a.reply, id);
    } else {
      var t := Step(s, a);
      forall v | InFlight(t, v, id) ensures Current(t, v, id) { assert InFlight(s, v, id) && Current(s, v, id); }
    }
  }

  lemma {:induction false} CurrentHolds(actions: seq<Action>, id: JobId, n: nat)
    requires n <= |actions| && forall m :: 0 <= m <= |actions| ==> Exclusive(Run(actions[..m]), id)
    ensures SnapshotsCurrent(Run(actions[..n]), id)
  {
    if n > 0 {
      CurrentHolds(actions, id, n - 1);
      TrackedHolds(actions[..n - 1], id);
      RunNext(actions, n - 1);
      StepKeepsCurrent(Run(actions[..n - 1]), actions[n - 1], id);
    }
  }

  lemma {:induction false} CurrentIsFresh(s: State, a: Action, id: JobId)
    requires SnapshotsCurrent(s, id)
    ensures Fresh(s, a, id)
  {
    if Writes(s, a, id) { assert InFlight(s, a.w, id) && Current(s, a.w, id); }
  }

  /**
   Refinement: as long as updates of a job do not overlap and it does not expire, its record is
   the creation record with all its patches applied in call order, whatever happens to other jobs.
  */
  lemma {:induction false} RefinesAtomicStore(actions: seq<Action>, id: JobId)
    requires forall n :: 0 <= n <= |actions| ==> Exclusive(Run(actions[..n]), id) && Alive(Run(actions[..n]), id)
    ensures
      var s := Run(actions);
      id in s.created ==> Lookup(s.entries, s.clock, id) == Some(ApplyAll(s.created[id], Calls(s, id)))
  {
    forall n | 0 <= n < |actions| ensures Fresh(Run(actions[..n]), actions[n], id) {
      CurrentHolds(actions, id, n);
      CurrentIsFresh(Run(actions[..n]), actions[n], id);
    }
    FoldExactlyWhenFresh(actions, id);
    assert actions[..|actions|] == actions;
    assert Folded(Run(actions[..|actions|]), id) && Alive(Run(actions[..|actions|]), id);
  }
}
