/** Reachable schedules of the job protocol in which a promise fails. */
module JobSchedules {
  import opened Prelude
  import opened JobStore
  import opened Events
  import opened JobProtocol
  import opened JobPublishing
  import opened JobAtomicity

  lemma {:induction false} Extend(actions: seq<Action>, a: Action) returns (more: seq<Action>)
    ensures more == actions + [a] && Run(more) == Step(Run(actions), a)
  {
    RunAppend(actions, a);
    more := actions + [a];
  }

  function Requested(id: JobId): Job {
    NewJob(id, "ragas_single_turn", None, 0)
  }

  /** Two deliveries of one job that have both read the pending record. */
  lemma {:induction false} BothRead(id: JobId, a: WorkerId, b: WorkerId) returns (actions: seq<Action>)
    requires a != b
    ensures
      var waiting := Worker(id, V2, Setting(Starting, StartPatch(0), Requested(id)));
      Run(actions) == State(0, map[id := Entry(Requested(id), JOB_TTL_SECONDS)], map[id := Requested(id)],
                            map[a := waiting, b := waiting], [], map[])
  {
    actions := Extend([], Create(id, "ragas_single_turn", None));
    actions := Extend(actions, Deliver(a, id, V2));
    actions := Extend(actions, Deliver(b, id, V2));
    actions := Extend(actions, Advance(a, Done("")));
    actions := Extend(actions, Advance(b, Done("")));
  }

  /** Then `b` goes on alone and has scored. */
  lemma {:induction false} SecondScores(id: JobId, a: WorkerId, b: WorkerId) returns (actions: seq<Action>)
    requires a != b
    ensures
      var start, complete := StartPatch(0), CompletePatch("scores", 0);
      Run(actions) ==
      State(0, map[id := Entry(Apply(Requested(id), start), JOB_TTL_SECONDS)], map[id := Requested(id)],
            map[a := Worker(id, V2, Setting(Starting, start, Requested(id))),
                b := Worker(id, V2, Getting(Completing, complete))],
            [], map[id := [start]])
  {
    actions := BothRead(id, a, b);
    actions := Extend(actions, Advance(b, Done("")));
    assert [] + [StartPatch(0)] == [StartPatch(0)];
    actions := Extend(actions, Advance(b, Done("scores")));
  }

  /** Then `b` is about to publish its completion. */
  lemma {:induction false} SecondAnnounces(id: JobId, a: WorkerId, b: WorkerId) returns (actions: seq<Action>)
    requires a != b
    ensures
      var start, complete := StartPatch(0), CompletePatch("scores", 0);
      Run(actions) ==
      State(0, map[id := Entry(Apply(Apply(Requested(id), start), complete), JOB_TTL_SECONDS)],
            map[id := Requested(id)],
            map[a := Worker(id, V2, Setting(Starting, start, Requested(id))),
                b := Worker(id, V2, Publishing(EvalCompleted, "scores"))],
            [], map[id := [start] + [complete]])
  {
    actions := SecondScores(id, a, b);
    actions := Extend(actions, Advance(b, Done("")));
    actions := Extend(actions, Advance(b, Done("")));
  }

  /** Then `b` returns. */
  lemma {:induction false} SecondReturns(id: JobId, a: WorkerId, b: WorkerId) returns (actions: seq<Action>)
    requires a != b
    ensures
      var start, complete := StartPatch(0), CompletePatch("scores", 0);
      Run(actions) ==
      State(0, map[id := Entry(Apply(Apply(Requested(id), start), complete), JOB_TTL_SECONDS)],
            map[id := Requested(id)],
            map[a := Worker(id, V2, Setting(Starting, start, Requested(id))), b := Worker(id, V2, Returned)],
            [Publication(b, Event(EvalCompleted, id, "scores"))], map[id := [start] + [complete]])
  {
    actions := SecondAnnounces(id, a, b);
    actions := Extend(actions, Advance(b, Done("")));
  }

  /** `a` has set what it read at the beginning. */
  function Overwritten(id: JobId, a: WorkerId, b: WorkerId): State {
    var start, complete := StartPatch(0), CompletePatch("scores", 0);
    State(0, map[id := Entry(Apply(Requested(id), start), JOB_TTL_SECONDS)], map[id := Requested(id)],
          map[a := Worker(id, V2, Evaluating), b := Worker(id, V2, Returned)],
          [Publication(b, Event(EvalCompleted, id, "scores"))], map[id := [start] + [complete] + [start]])
  }

  lemma {:induction false} FirstOverwrites(id: JobId, a: WorkerId, b: WorkerId) returns (actions: seq<Action>)
    requires a != b
    ensures Run(actions) == Overwritten(id, a, b)
  {
    actions := SecondReturns(id, a, b);
    actions := Extend(actions, Advance(a, Done("")));
  }

  lemma {:induction false} NotFolded(id: JobId, a: WorkerId, b: WorkerId)
    requires a != b
    ensures
      var s := Overwritten(id, a, b);
      Alive(s, id) && !Folded(s, id) && exists p :: p in Calls(s, id) && p.status == To(Completed)
  {
    assert CompletePatch("scores", 0) in Calls(Overwritten(id, a, b), id);
    var job, start, complete := Requested(id), StartPatch(0), CompletePatch("scores", 0);
    ApplyAllAppend(job, [start] + [complete], start);
    ApplyAllAppend(job, [start], complete);
  }

  lemma {:induction false} NotAgreed(id: JobId, a: WorkerId, b: WorkerId)
    requires a != b
    ensures
      var s := Overwritten(id, a, b);
      Announced(s, b) == Some(Event(EvalCompleted, id, "scores")) && !Agrees(s, b)
  {
    var e := Event(EvalCompleted, id, "scores");
    EventsOfAppend([], Publication(b, e), b);
    assert Overwritten(id, a, b).events == [] + [Publication(b, e)];
  }

  /**
   With two overlapping deliveries an update is lost: the completed result is overwritten, and the record
   contradicts the event that its handling published.
  */
  lemma {:induction false} OverlapLosesUpdate() returns (actions: seq<Action>, id: JobId, w: WorkerId)
    ensures
      var s := Run(actions);
      && Alive(s, id) && !Folded(s, id) && (exists p :: p in Calls(s, id) && p.status == To(Completed))
      && id in s.entries && s.entries[id].job.status == Running && s.entries[id].job.result == None
      && Announced(s, w) == Some(Event(EvalCompleted, id, "scores")) && !Agrees(s, w)
  {
    id, w := JobId("j"), WorkerId(1);
    actions := FirstOverwrites(id, WorkerId(0), w);
    NotFolded(id, WorkerId(0), w);
    NotAgreed(id, WorkerId(0), w);
  }

  /** A completion publish that raises after its effect: both terminal events are published. */
  lemma {:induction false} CompletionThenFailure() returns (actions: seq<Action>, w: WorkerId)
    ensures
      var s := Run(actions);
      var mine := EventsOf(s.events, w);
      && Returns(s, w) == 1 && |mine| == 2
      && mine[0].topic == EvalCompleted && mine[1].topic == EvalFailed && mine[0].job == mine[1].job
  {
    var id;
    id, w := JobId("j"), WorkerId(1);
    actions := SecondAnnounces(id, WorkerId(0), w);
    assert EventsOf(Run(actions).events, w) == [];
    actions := PublishBoth(actions, w, "timeout");
  }

  /** Whenever a handling is about to publish its completion, it may end with both events. */
  lemma {:induction false} PublishBoth(actions: seq<Action>, w: WorkerId, error: string) returns (more: seq<Action>)
    requires w in Run(actions).workers && Run(actions).workers[w].kind == V2
    requires Run(actions).workers[w].pc.Publishing? && Run(actions).workers[w].pc.topic == EvalCompleted
    ensures
      var s, t := Run(actions), Run(more);
      && Returns(t, w) == 1
      && EventsOf(t.events, w) ==
           EventsOf(s.events, w) + [Publishes(s, w).event] + [Event(EvalFailed, s.workers[w].job, error)]
  {
    var s := Run(actions);
    OwnEvents(s, w, Raise(error, true));
    more := Extend(actions, Advance(w, Raise(error, true)));
    var u := Run(more);
    assert u.workers[w] == s.workers[w].(pc := Getting(Failing, FailPatch(error, s.clock)));
    UninterruptedUpdate(u, w, "");
    more := Extend(more, Advance(w, Done("")));
    if Lookup(u.entries, u.clock, u.workers[w].job).Some? {
      more := Extend(more, Advance(w, Done("")));
    }
    assert Run(more).workers[w].pc == Publishing(EvalFailed, error) && Run(more).events == u.events;
    OwnEvents(Run(more), w, Done(""));
    more := Extend(more, Advance(w, Done("")));
  }
}
