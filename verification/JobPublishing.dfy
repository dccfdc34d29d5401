/** What the v2 handlers publish, in every schedule of the job protocol. */
module JobPublishing {
  import opened Prelude
  import opened JobStore
  import opened Events
  import opened JobProtocol

  /** The events that activation `w` published. */
  function EventsOf(events: seq<Publication>, w: WorkerId): (r: seq<Event>) {
    if events == [] then []
    else
      var n := |events| - 1;
      EventsOf(events[..n], w) + if events[n].worker == w then [events[n].event] else []
  }

  lemma {:induction false} EventsOfAppend(events: seq<Publication>, e: Publication, w: WorkerId)
    ensures EventsOf(events + [e], w) == EventsOf(events, w) + if e.worker == w then [e.event] else []
  {
    assert (events + [e])[..|events|] == events;
  }

  // ----- The shape of what one activation publishes

  /** Part of a completion followed by a failure, both of `job`. */
  ghost predicate Terminal(mine: seq<Event>, job: JobId) {
    && (forall e :: e in mine ==> e.job == job)
    && (|mine| <= 1 || (|mine| == 2 && mine[0].topic == EvalCompleted && mine[1].topic == EvalFailed))
  }

  /** What may be published when control is at `pc`. */
  ghost predicate SoFar(kind: Kind, pc: Control, mine: seq<Event>) {
    && (kind == V1 ==> mine == [] && !pc.Publishing?)
    && match pc
       case Getting(stage, _) => if stage == Failing then AtMostCompletion(mine) else mine == []
       case Setting(stage, _, _) => if stage == Failing then AtMostCompletion(mine) else mine == []
       case Evaluating => mine == []
       case Publishing(topic, _) => if topic == EvalFailed then AtMostCompletion(mine) else mine == []
       case Returned => kind == V2 ==> mine != []
       case Raised => true
  }

  ghost predicate AtMostCompletion(mine: seq<Event>) {
    mine == [] || (|mine| == 1 && mine[0].topic == EvalCompleted)
  }

  ghost predicate PublishedRight(s: State, w: WorkerId) {
    var mine := EventsOf(s.events, w);
    if w in s.workers then Terminal(mine, s.workers[w].job) && SoFar(s.workers[w].kind, s.workers[w].pc, mine)
    else mine == []
  }

  ghost predicate PublishInv(s: State) {
    forall w :: PublishedRight(s, w)
  }

  lemma {:induction false} OtherWorkersStay(s: State, v: WorkerId, reply: Reply, w: WorkerId)
    requires v in s.workers && v != w
    ensures var t := AdvanceWorker(s, v, reply);
      (w in t.workers <==> w in s.workers) && (w in s.workers ==> t.workers[w] == s.workers[w])
  {
  }

  lemma {:induction false} OtherEventsStay(s: State, v: WorkerId, reply: Reply, w: WorkerId)
    requires v in s.workers && v != w
    ensures EventsOf(AdvanceWorker(s, v, reply).events, w) == EventsOf(s.events, w)
  {
    if s.workers[v].pc.Publishing? { EventsOfAppend(s.events, Publishes(s, v), w); }
  }

  /** A publish takes effect whether or not it raises afterwards. */
  predicate Lands(s: State, w: WorkerId, reply: Reply) {
    w in s.workers && s.workers[w].pc.Publishing? && (reply.Done? || reply.applied)
  }

  lemma {:induction false} OwnEvents(s: State, w: WorkerId, reply: Reply)
    requires w in s.workers
    ensures EventsOf(AdvanceWorker(s, w, reply).events, w) ==
      EventsOf(s.events, w) + if Lands(s, w, reply) then [Publishes(s, w).event] else []
  {
    if s.workers[w].pc.Publishing? { EventsOfAppend(s.events, Publishes(s, w), w); }
  }

  lemma {:induction false} NextSoFar(s: State, worker: Worker, reply: Reply, mine: seq<Event>)
    requires Terminal(mine, worker.job) && SoFar(worker.kind, worker.pc, mine)
    ensures
      var lands := worker.pc.Publishing? && (reply.Done? || reply.applied);
      var more := mine + if lands then [Event(worker.pc.topic, worker.job, worker.pc.text)] else [];
      Terminal(more, worker.job) && SoFar(worker.kind, NextControl(s, worker, reply), more)
  {
  }

  lemma {:induction false} OwnPublishRight(s: State, w: WorkerId, reply: Reply)
    requires w in s.workers && PublishedRight(s, w)
    ensures PublishedRight(AdvanceWorker(s, w, reply), w)
  {
    var t := AdvanceWorker(s, w, reply);
    NextSoFar(s, s.workers[w], reply, EventsOf(s.events, w));
    OwnEvents(s, w, reply);
    assert t.workers[w] == s.workers[w].(pc := NextControl(s, s.workers[w], reply));
  }

  lemma {:induction false} OtherPublishRight(s: State, v: WorkerId, reply: Reply, w: WorkerId)
    requires v in s.workers && v != w && PublishedRight(s, w)
    ensures PublishedRight(AdvanceWorker(s, v, reply), w)
  {
    OtherWorkersStay(s, v, reply, w);
    OtherEventsStay(s, v, reply, w);
  }

  lemma {:induction false} AdvanceKeepsPublish(s: State, w: WorkerId, reply: Reply)
    requires PublishInv(s) && w in s.workers
    ensures PublishInv(AdvanceWorker(s, w, reply))
  {
    var t := AdvanceWorker(s, w, reply);
    forall v ensures PublishedRight(t, v) {
      assert PublishedRight(s, v);
      if v == w {
        OwnPublishRight(s, w, reply);
      } else {
        OtherPublishRight(s, w, reply, v);
      }
    }
  }

  lemma {:induction false} StepKeepsPublish(s: State, a: Action)
    requires PublishInv(s)
    ensures PublishInv(Step(s, a))
  {
    if a.Advance? && a.w in s.workers {
      AdvanceKeepsPublish(s, a.w, a.reply);
    } else {
      forall v ensures PublishedRight(Step(s, a), v) { assert PublishedRight(s, v); }
    }
  }

  lemma {:induction false} PublishHolds(actions: seq<Action>)
    ensures PublishInv(Run(actions))
  {
    if actions != [] {
      PublishHolds(actions[..|actions| - 1]);
      StepKeepsPublish(Run(actions[..|actions| - 1]), actions[|actions| - 1]);
    }
  }

  // ----- How many events there are

  /** A publish of `w` takes effect and raises all the same. */
  ghost predicate Echo(s: State, a: Action, w: WorkerId) {
    a.Advance? && a.w == w && Lands(s, w, a.reply) && a.reply.Raise?
  }

  ghost predicate EchoAt(actions: seq<Action>, n: nat, w: WorkerId)
    requires n < |actions|
  {
    Echo(Run(actions[..n]), actions[n], w)
  }

  ghost function Echoes(actions: seq<Action>, w: WorkerId): nat {
    if actions == [] then 0
    else
      var n := |actions| - 1;
      Echoes(actions[..n], w) + if EchoAt(actions, n, w) then 1 else 0
  }

  /** One for a v2 handling that returned normally. */
  ghost function Returns(s: State, w: WorkerId): nat {
    if w in s.workers && s.workers[w].kind == V2 && s.workers[w].pc.Returned? then 1 else 0
  }

  lemma {:induction false} OwnCounts(s: State, w: WorkerId, reply: Reply)
    requires w in s.workers && PublishedRight(s, w)
    ensures
      var t := AdvanceWorker(s, w, reply);
      |EventsOf(t.events, w)| - Returns(t, w) ==
      |EventsOf(s.events, w)| - Returns(s, w) + if Echo(s, Advance(w, reply), w) then 1 else 0
  {
    OwnEvents(s, w, reply);
  }

  lemma {:induction false} StepCounts(s: State, a: Action, w: WorkerId)
    requires PublishInv(s)
    ensures |EventsOf(Step(s, a).events, w)| - Returns(Step(s, a), w) ==
      |EventsOf(s.events, w)| - Returns(s, w) + if Echo(s, a, w) then 1 else 0
  {
    assert PublishedRight(s, w);
    if a.Advance? && a.w in s.workers {
      if a.w == w {
        OwnCounts(s, w, a.reply);
      } else {
        OtherWorkersStay(s, a.w, a.reply, w);
        OtherEventsStay(s, a.w, a.reply, w);
        assert Returns(Step(s, a), w) == Returns(s, w);
      }
    } else {
      assert Step(s, a).events == s.events && Returns(Step(s, a), w) == Returns(s, w);
    }
  }

  /** Every event of an activation is its return or a publish that raised after its effect. */
  lemma {:induction false} EventsAreCounted(actions: seq<Action>, w: WorkerId)
    ensures |EventsOf(Run(actions).events, w)| == Returns(Run(actions), w) + Echoes(actions, w)
  {
    if actions != [] {
      EventsAreCounted(actions[..|actions| - 1], w);
      PublishHolds(actions[..|actions| - 1]);
      StepCounts(Run(actions[..|actions| - 1]), actions[|actions| - 1], w);
    }
  }

  lemma {:induction false} NoEchoes(actions: seq<Action>, w: WorkerId)
    ensures Echoes(actions, w) == 0 <==> forall n :: 0 <= n < |actions| ==> !EchoAt(actions, n, w)
    decreases |actions|
  {
    if actions != [] {
      var front := actions[..|actions| - 1];
      NoEchoes(front, w);
      forall n | 0 <= n < |front| ensures EchoAt(front, n, w) <==> EchoAt(actions, n, w) {
        assert front[..n] == actions[..n];
      }
    }
  }

  /**
   In every schedule an activation publishes at most a completion and then a failure of its job.
   It has published exactly one event if it is a v2 handling that returned normally, and none otherwise,
   if and only if none of its publishes raised after taking effect.
  */
  lemma {:induction false} ExactlyOneTerminalEvent(actions: seq<Action>, w: WorkerId)
    requires w in Run(actions).workers
    ensures
      var s := Run(actions);
      var mine := EventsOf(s.events, w);
      && Terminal(mine, s.workers[w].job)
      && |mine| >= Returns(s, w)
      && (|mine| == Returns(s, w) <==> forall n :: 0 <= n < |actions| ==> !EchoAt(actions, n, w))
  {
    PublishHolds(actions);
    assert PublishedRight(Run(actions), w);
    EventsAreCounted(actions, w);
    NoEchoes(actions, w);
  }

  // ----- The record that readers see and the event of a handling

  /** The event that a v2 handling is about to publish or, having returned, published last. */
  function Announced(s: State, w: WorkerId): Option<Event> {
    if w !in s.workers || s.workers[w].kind == V1 then None
    else
      match s.workers[w].pc
      case Publishing(topic, text) => Some(Event(topic, s.workers[w].job, text))
      case Returned => Last(EventsOf(s.events, w))
      case _ => None
  }

  function Last(mine: seq<Event>): Option<Event> {
    if mine == [] then None else Some(mine[|mine| - 1])
  }

  lemma {:induction false} LastAppend(mine: seq<Event>, e: Event)
    ensures Last(mine + [e]) == Some(e)
  {
  }

  /** The record says what the event says. */
  ghost predicate Says(job: Job, e: Event) {
    match e.topic
    case EvalCompleted => job.status == Completed && job.result == Some(e.text)
    case EvalFailed => job.status == Failed && job.error == Some(e.text)
  }

  /** While it can be read, the record says what the handling announced. */
  ghost predicate Agrees(s: State, w: WorkerId) {
    Announced(s, w).Some? ==>
      var seen := Lookup(s.entries, s.clock, s.workers[w].job);
      seen.Some? ==> Says(seen.value, Announced(s, w).value)
  }

  /** A set of the job by another activation after the announcement. */
  ghost predicate Intrudes(s: State, a: Action, w: WorkerId) {
    Announced(s, w).Some? && a.Advance? && a.w != w && Writes(s, a, s.workers[w].job)
  }

  /** Any such set writes what was announced. */
  ghost predicate Harmless(s: State, a: Action, w: WorkerId) {
    Intrudes(s, a, w) ==> Says(Apply(s.workers[a.w].pc.snapshot, s.workers[a.w].pc.patch), Announced(s, w).value)
  }

  lemma {:induction false} SameAgrees(s: State, t: State, w: WorkerId)
    requires Agrees(s, w) && w in s.workers && w in t.workers && t.workers[w].job == s.workers[w].job
    requires Announced(t, w).None? || Announced(t, w) == Announced(s, w)
    requires
      var seen := Lookup(t.entries, t.clock, s.workers[w].job);
      seen.Some? ==> seen == Lookup(s.entries, s.clock, s.workers[w].job)
    ensures Agrees(t, w)
  {
  }

  lemma {:induction false} OwnSetAgrees(s: State, w: WorkerId, reply: Reply)
    requires w in s.workers && GoodWorker(s, s.workers[w]) && s.workers[w].pc.Setting?
    ensures Agrees(AdvanceWorker(s, w, reply), w)
  {
  }

  /** A get that leads straight to a publish has found no record. */
  lemma {:induction false} OwnGetAgrees(s: State, w: WorkerId, reply: Reply)
    requires w in s.workers && (s.workers[w].pc.Getting? || s.workers[w].pc.Evaluating? || s.workers[w].pc.Raised?)
    ensures Agrees(AdvanceWorker(s, w, reply), w)
  {
  }

  lemma {:induction false} StillAnnounced(s: State, w: WorkerId, reply: Reply)
    requires w in s.workers && s.workers[w].pc.Publishing?
    ensures
      var t := AdvanceWorker(s, w, reply);
      Announced(t, w).None? || Announced(t, w) == Announced(s, w)
  {
    LastAppend(EventsOf(s.events, w), Publishes(s, w).event);
    assert reply.Raise? ==> Announced(AdvanceWorker(s, w, reply), w).None?;
    OwnEvents(s, w, reply);
  }

  lemma {:induction false} OwnStepAgrees(s: State, w: WorkerId, reply: Reply)
    requires LifecycleInv(s) && Agrees(s, w) && w in s.workers
    ensures Agrees(AdvanceWorker(s, w, reply), w)
  {
    match s.workers[w].pc
    case Setting(_, _, _) => OwnSetAgrees(s, w, reply);
    case Publishing(_, _) =>
      StillAnnounced(s, w, reply);
      SameAgrees(s, AdvanceWorker(s, w, reply), w);
    case Returned => SameAgrees(s, AdvanceWorker(s, w, reply), w);
    case _ => OwnGetAgrees(s, w, reply);
  }

  lemma {:induction false} OtherRecordsStay(s: State, v: WorkerId, reply: Reply, id: JobId)
    requires v in s.workers && !Writes(s, Advance(v, reply), id)
    ensures var t := AdvanceWorker(s, v, reply);
      Lookup(t.entries, t.clock, id) == Lookup(s.entries, s.clock, id)
  {
  }

  lemma {:induction false} OtherSetStores(s: State, v: WorkerId, reply: Reply, id: JobId)
    requires v in s.workers && Writes(s, Advance(v, reply), id)
    ensures var t := AdvanceWorker(s, v, reply);
      Lookup(t.entries, t.clock, id) == Some(Apply(s.workers[v].pc.snapshot, s.workers[v].pc.patch))
  {
  }

  lemma {:induction false} OtherStepAgrees(s: State, v: WorkerId, reply: Reply, w: WorkerId)
    requires Agrees(s, w) && v in s.workers && v != w
    ensures Agrees(AdvanceWorker(s, v, reply), w) <==> Harmless(s, Advance(v, reply), w)
  {
    OtherWorkersStay(s, v, reply, w);
    OtherEventsStay(s, v, reply, w);
    if w in s.workers {
      if Writes(s, Advance(v, reply), s.workers[w].job) {
        OtherSetStores(s, v, reply, s.workers[w].job);
      } else {
        OtherRecordsStay(s, v, reply, s.workers[w].job);
      }
    }
  }

  lemma {:induction false} QuietStepAgrees(s: State, a: Action, w: WorkerId)
    requires LifecycleInv(s) && Agrees(s, w) && (a.Advance? ==> a.w !in s.workers)
    ensures Agrees(Step(s, a), w)
  {
    if w in s.workers && a != Crash(w) {
      assert GoodWorker(s, s.workers[w]);
      assert Announced(Step(s, a), w) == Announced(s, w);
      SameAgrees(s, Step(s, a), w);
    } else {
      assert Announced(Step(s, a), w).None? || Step(s, a) == s;
    }
  }

  lemma {:induction false} StepAgreesIff(s: State, a: Action, w: WorkerId)
    requires LifecycleInv(s) && Agrees(s, w)
    ensures Agrees(Step(s, a), w) <==> Harmless(s, a, w)
  {
    if !a.Advance? || a.w !in s.workers {
      QuietStepAgrees(s, a, w);
    } else if a.w == w {
      OwnStepAgrees(s, w, a.reply);
    } else {
      OtherStepAgrees(s, a.w, a.reply, w);
    }
  }

  lemma {:induction false} AgreesWhileHarmless(actions: seq<Action>, w: WorkerId, n: nat)
    requires n <= |actions| && forall m :: 0 <= m < n ==> Harmless(Run(actions[..m]), actions[m], w)
    ensures Agrees(Run(actions[..n]), w)
  {
    if n > 0 {
      AgreesWhileHarmless(actions, w, n - 1);
      RunNext(actions, n - 1);
      LifecycleHolds(actions[..n - 1]);
      StepAgreesIff(Run(actions[..n - 1]), actions[n - 1], w);
    }
  }

  /**
   In every schedule, overlaps, crashes and expiries included: readers see throughout what a handling
   announced, or no record, if and only if every later set by another activation writes the same.
  */
  lemma {:induction false} AgreesExactlyWhenHarmless(actions: seq<Action>, w: WorkerId)
    ensures (forall n :: 0 <= n <= |actions| ==> Agrees(Run(actions[..n]), w)) <==>
      (forall n :: 0 <= n < |actions| ==> Harmless(Run(actions[..n]), actions[n], w))
  {
    if forall n :: 0 <= n <= |actions| ==> Agrees(Run(actions[..n]), w) {
      forall n | 0 <= n < |actions| ensures Harmless(Run(actions[..n]), actions[n], w) {
        RunNext(actions, n);
        LifecycleHolds(actions[..n]);
        assert Agrees(Run(actions[..n]), w) && Agrees(Run(actions[..n + 1]), w);
        StepAgreesIff(Run(actions[..n]), actions[n], w);
      }
    }
    if forall n :: 0 <= n < |actions| ==> Harmless(Run(actions[..n]), actions[n], w) {
      forall n | 0 <= n <= |actions| ensures Agrees(Run(actions[..n]), w) {
        AgreesWhileHarmless(actions, w, n);
      }
    }
  }

  /** The last event of a handling that returned normally, if nobody else set its record after the announcement. */
  lemma {:induction false} LastEventAgrees(actions: seq<Action>, w: WorkerId, id: JobId)
    requires forall n :: 0 <= n < |actions| ==> !Intrudes(Run(actions[..n]), actions[n], w)
    requires w in Run(actions).workers && Run(actions).workers[w] == Worker(id, V2, Returned)
    ensures
      var s := Run(actions);
      var last, seen := Last(EventsOf(s.events, w)), Lookup(s.entries, s.clock, id);
      last.Some? && last.value.job == id && (seen.Some? ==> Says(seen.value, last.value))
  {
    AgreesWhileHarmless(actions, w, |actions|);
    assert actions[..|actions|] == actions;
    PublishHolds(actions);
    assert PublishedRight(Run(actions), w);
  }

  // ----- A handler alone on its job

  ghost predicate Ended(pc: Control) {
    pc.Returned? || pc.Raised?
  }

  /** Once `w` is there, the other activations of `id` have ended and `id` has not expired. */
  ghost predicate Alone(s: State, w: WorkerId, id: JobId) {
    w in s.workers ==>
      && Lookup(s.entries, s.clock, id).Some?
      && forall v :: v in s.workers && s.workers[v].job == id && v != w ==> Ended(s.workers[v].pc)
  }

  lemma {:induction false} StepKeepsJob(s: State, a: Action, w: WorkerId)
    requires w in s.workers
    ensures w in Step(s, a).workers && Step(s, a).workers[w].job == s.workers[w].job
  {
  }

  /** A worker stays on its job. */
  lemma {:induction false} JobStays(actions: seq<Action>, w: WorkerId, n: nat)
    requires n <= |actions| && w in Run(actions[..n]).workers
    ensures w in Run(actions).workers && Run(actions).workers[w].job == Run(actions[..n]).workers[w].job
    decreases |actions|
  {
    if n < |actions| {
      var front := actions[..|actions| - 1];
      assert front[..n] == actions[..n];
      JobStays(front, w, n);
      StepKeepsJob(Run(front), actions[|actions| - 1], w);
    } else {
      assert actions[..n] == actions;
    }
  }

  /**
   In every schedule in which no other activation of the job runs beside a v2 handling (earlier
   ones may have returned, raised or crashed) and the job does not expire meanwhile, the stored
   status, and the stored result or error, are those of the last event it published, whichever calls
   raised on the way.
  */
  lemma {:induction false} SoleHandlerAgrees(actions: seq<Action>, w: WorkerId, id: JobId)
    requires forall n :: 0 <= n <= |actions| ==> Alone(Run(actions[..n]), w, id)
    requires w in Run(actions).workers && Run(actions).workers[w] == Worker(id, V2, Returned)
    ensures
      var s := Run(actions);
      var last, seen := Last(EventsOf(s.events, w)), Lookup(s.entries, s.clock, id);
      last.Some? && last.value.job == id && seen.Some? && Says(seen.value, last.value)
  {
    forall n | 0 <= n < |actions| ensures !Intrudes(Run(actions[..n]), actions[n], w) {
      assert Alone(Run(actions[..n]), w, id);
      if w in Run(actions[..n]).workers { JobStays(actions, w, n); }
    }
    LastEventAgrees(actions, w, id);
    assert actions[..|actions|] == actions && Alone(Run(actions[..|actions|]), w, id);
  }
}
