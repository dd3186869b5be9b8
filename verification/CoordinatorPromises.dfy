/** What `stop` and `shutdown` promise when they return Ok, and exactly when the promise can be broken:
    serialised calls, no deadline reached, the tasks still running beside every step. */
module CoordinatorPromises {
  import opened Common
  import opened StatusRegistry
  import opened Coordinator
  import opened CoordinatorAgreement

  /** Events that happen one after another, from any session. */
  ghost predicate Path(p: seq<Session>, es: seq<Event>) {
    && |p| == |es| + 1
    && forall k :: 0 <= k < |es| ==> CanHappen(p[k], es[k]) && p[k + 1] == Happens(p[k], es[k])
  }

  /** The event ends a `stop` of the service with Ok. */
  predicate EndsStop(s: Session, e: Event, id: ServiceId) {
    && CanHappen(s, e) && e.Advances? && StopTarget(s.call.value) == Some(id)
    && Advance(s.shared, s.call.value, e.choice).1 == Return(true)
  }

  /** The event ends a `shutdown` with Ok, at once when nothing was in `running`. */
  predicate EndsShutdown(s: Session, e: Event) {
    && CanHappen(s, e)
    && match e
       case Begins(r) => r.ShutdownRequest? && Open(s.shared, r).1 == Return(true)
       case Advances(ch) => s.call.value.ShutdownWaiting? && Advance(s.shared, s.call.value, ch).1 == Return(true)
       case TaskRuns(_, _) => false
  }

  /** Ok is returned although the service is not Stopped with its task over, or, for a shutdown,
      although some service is live or has an unfinished task. */
  ghost predicate Lies(s: Session, e: Event) {
    || (exists id :: EndsStop(s, e, id) && !(StateOf(Happens(s, e).shared, id).Stopped? && Quiet(Happens(s, e).shared, id)))
    || (EndsShutdown(s, e)
        && exists id :: id in s.shared.states && (IsLive(StateOf(Happens(s, e).shared, id)) || !Quiet(Happens(s, e).shared, id)))
  }

  lemma NothingTaken(s: Session, id: ServiceId)
    requires Agree(s) && s.shared.running == map[] && id in s.shared.states
    requires s.call.None? || (s.call.value.ShutdownWaiting? && s.call.value.fired == map[])
    ensures !IsLive(s.shared.states[id]) && Quiet(s.shared, id)
  {
    assert StateFits(s, id);
    NoTaskIsQuiet(s, id);
  }

  /** While status and task agree, Ok tells the truth. */
  lemma AgreementIsTruthful(s: Session, e: Event)
    requires Agree(s) && CanHappen(s, e)
    ensures !Lies(s, e)
  {
    forall id | EndsStop(s, e, id)
      ensures StateOf(Happens(s, e).shared, id).Stopped? && Quiet(Happens(s, e).shared, id)
    {
      StopOkMeansStopped(s, e.choice);
    }
    if EndsShutdown(s, e) {
      assert s.shared.running == map[] by {
        if e.Begins? {
          assert Open(s.shared, e.request).1 == Return(true);
        }
      }
      forall id | id in s.shared.states
        ensures !IsLive(StateOf(Happens(s, e).shared, id)) && Quiet(Happens(s, e).shared, id)
      {
        NothingTaken(s, id);
      }
    }
  }

  /** Some run from the session that strands nothing further ends with a lie. */
  ghost predicate CanLie(s: Session) {
    exists p: seq<Session>, es: seq<Event> ::
      && Path(p, es) && p[0] == s && |es| > 0
      && (forall k :: 0 <= k < |es| - 1 ==> !Strands(p[k], es[k]))
      && Lies(p[|es| - 1], es[|es| - 1])
  }

  lemma {:induction false} PathAgrees(p: seq<Session>, es: seq<Event>, i: nat)
    requires Path(p, es) && i < |p| && Agree(p[0])
    requires forall k :: 0 <= k < i ==> !Strands(p[k], es[k])
    ensures Agree(p[i])
    decreases i
  {
    if i > 0 {
      PathAgrees(p, es, i - 1);
      AgreesExactly(p[i - 1], es[i - 1]);
    }
  }

  lemma AgreementCannotLie(s: Session)
    requires Agree(s)
    ensures !CanLie(s)
  {
    if p: seq<Session>, es: seq<Event> :|
      && Path(p, es) && p[0] == s && |es| > 0
      && (forall k :: 0 <= k < |es| - 1 ==> !Strands(p[k], es[k]))
      && Lies(p[|es| - 1], es[|es| - 1])
    {
      PathAgrees(p, es, |es| - 1);
      AgreementIsTruthful(p[|es| - 1], es[|es| - 1]);
      assert false;
    }
  }

  /** A task that no call and no entry stands for any more: `stop` finds nothing to wait for. */
  lemma ForgottenCanLie(s: Session, id: ServiceId)
    requires s.call.None? && s.shared.running == map[] && id in s.shared.states
    requires !s.shared.states[id].Stopped? && !Quiet(s.shared, id)
    ensures CanLie(s)
  {
    var seen := s.shared.states[id];
    var opening := Session(s.shared, Some(StopOpening(id, false)));
    var removing := Session(s.shared, Some(StopRemoving(id, seen, false)));
    var done := Session(Record(s.shared, id, Stopped), None);
    var p := [s, opening, removing, done];
    var es := [Begins(StopRequest(id)), Advances(Proceeds), Advances(Proceeds)];
    assert Happens(s, es[0]) == opening && Happens(opening, es[1]) == removing && Happens(removing, es[2]) == done;
    assert Path(p, es);
    assert !Quiet(done.shared, id);
    assert EndsStop(removing, es[2], id);
    assert Lies(p[2], es[2]);
  }

  lemma StrandedCanLie(s: Session, e: Event)
    requires Agree(s) && CanHappen(s, e) && Strands(s, e)
    ensures CanLie(Happens(s, e))
  {
    var other :| other in s.shared.states && HasTask(s, other);
    assert StateFits(s, other);
    var v := Happens(s, e);
    var t := Handle(s, other).value;
    assert Unfinished(v.shared, t) && v.shared.tasks[t].service == other;
    ForgottenCanLie(v, other);
  }

  /** The promise of stop and shutdown can be broken after a step if and only if the step strands a
      service: a shutdown whose mark is rejected while another service it took is still running. */
  lemma LiesExactlyWhenStranded(s: Session, e: Event)
    requires Agree(s) && CanHappen(s, e)
    ensures CanLie(Happens(s, e)) <==> Strands(s, e)
  {
    AgreesExactly(s, e);
    if Strands(s, e) {
      StrandedCanLie(s, e);
    } else {
      AgreementCannotLie(Happens(s, e));
    }
  }

  // ---------------------------------------------------------------- what a caller can check before

  /** A shutdown begun now can strand a service before it returns. */
  ghost predicate CanStrand(s: Session) {
    exists p: seq<Session>, es: seq<Event> ::
      && Path(p, es) && p[0] == s && |es| > 0 && es[0] == Begins(ShutdownRequest)
      && (forall k :: 0 < k < |es| ==> p[k].call.Some?)
      && Strands(p[|es| - 1], es[|es| - 1])
  }

  ghost predicate TwoRunning(sh: Shared) {
    exists a, b :: a != b && a in sh.states && b in sh.states && sh.states[a].Running? && sh.states[b].Running?
  }

  /** The shutdown is in progress, and what is live now, or was when it was read, ran when it began. */
  ghost predicate During(s: Session, v: Session) {
    && v.call.Some? && (v.call.value.ShutdownFiring? || v.call.value.ShutdownWaiting?)
    && v.shared.states.Keys == s.shared.states.Keys
    && (forall id :: id in s.shared.states && IsLive(v.shared.states[id]) ==> s.shared.states[id].Running?)
    && (v.call.value.ShutdownFiring? ==>
          forall id :: id in v.call.value.entries && v.call.value.entries[id].stage.SeenLive? ==>
            id in s.shared.states && s.shared.states[id].Running?)
  }

  lemma DuringBegins(s: Session)
    requires Agree(s) && s.call.None? && s.shared.running != map[]
    ensures During(s, Happens(s, Begins(ShutdownRequest)))
  {
    forall id | id in s.shared.states && IsLive(s.shared.states[id]) ensures s.shared.states[id].Running? {
      assert StateFits(s, id);
    }
  }

  lemma DuringTask(s: Session, v: Session, t: nat, step: TaskStep)
    requires During(s, v) && CanRun(v.shared, t, step)
    ensures During(s, Happens(v, TaskRuns(t, step)))
  {
  }

  lemma DuringStep(s: Session, v: Session, ch: Choice)
    requires During(s, v) && CanHappen(v, Advances(ch)) && Happens(v, Advances(ch)).call.Some?
    ensures During(s, Happens(v, Advances(ch)))
  {
  }

  lemma {:induction false} DuringPath(p: seq<Session>, es: seq<Event>, k: nat)
    requires Path(p, es) && Agree(p[0]) && p[0].call.None? && |es| > 0 && es[0] == Begins(ShutdownRequest)
    requires 0 < k <= |es| && forall i :: 0 < i <= k ==> p[i].call.Some?
    ensures During(p[0], p[k]) && Agree(p[k])
    decreases k
  {
    assert p[k - 1 + 1] == Happens(p[k - 1], es[k - 1]);
    if k == 1 {
      assert p[0].shared.running != map[];
      DuringBegins(p[0]);
      AgreesExactly(p[0], es[0]);
    } else {
      DuringPath(p, es, k - 1);
      AgreesExactly(p[k - 1], es[k - 1]);
      if es[k - 1].TaskRuns? {
        DuringTask(p[0], p[k - 1], es[k - 1].task, es[k - 1].step);
      } else {
        DuringStep(p[0], p[k - 1], es[k - 1].choice);
      }
    }
  }

  lemma StrandingNeedsTwo(s: Session, v: Session, e: Event)
    requires During(s, v) && Agree(v) && Strands(v, e)
    ensures TwoRunning(s.shared)
  {
    var id := e.choice.id;
    var other :| other in v.shared.states && HasTask(v, other);
    assert StateFits(v, other) && StateFits(v, id);
    assert s.shared.states[id].Running? && s.shared.states[other].Running?;
  }

  /** A shutdown begun from the session got this far. */
  ghost predicate Reaches(s: Session, v: Session) {
    exists p: seq<Session>, es: seq<Event> ::
      && Path(p, es) && p[0] == s && |es| > 0 && es[0] == Begins(ShutdownRequest)
      && (forall k :: 0 < k <= |es| ==> p[k].call.Some?) && p[|es|] == v
  }

  lemma ExtendPath(p: seq<Session>, es: seq<Event>, e: Event)
    requires Path(p, es) && CanHappen(p[|es|], e)
    ensures Path(p + [Happens(p[|es|], e)], es + [e])
  {
    var more, longer := p + [Happens(p[|es|], e)], es + [e];
    forall k | 0 <= k < |longer|
      ensures CanHappen(more[k], longer[k]) && more[k + 1] == Happens(more[k], longer[k])
    {
      if k < |es| {
        assert CanHappen(p[k], es[k]);
      }
    }
  }

  lemma ReachesNext(s: Session, v: Session, e: Event)
    requires Reaches(s, v) && CanHappen(v, e) && Happens(v, e).call.Some?
    ensures Reaches(s, Happens(v, e))
  {
    var p: seq<Session>, es: seq<Event> :|
      && Path(p, es) && p[0] == s && |es| > 0 && es[0] == Begins(ShutdownRequest)
      && (forall k :: 0 < k <= |es| ==> p[k].call.Some?) && p[|es|] == v;
    ExtendPath(p, es, e);
    var more, longer := p + [Happens(v, e)], es + [e];
    assert more[0] == s && longer[0] == es[0] && more[|longer|] == Happens(v, e);
    assert forall k :: 0 < k <= |es| ==> more[k] == p[k];
  }

  lemma StrandsThen(s: Session, v: Session, e: Event)
    requires Reaches(s, v) && CanHappen(v, e) && Strands(v, e)
    ensures CanStrand(s)
  {
    var p: seq<Session>, es: seq<Event> :|
      && Path(p, es) && p[0] == s && |es| > 0 && es[0] == Begins(ShutdownRequest)
      && (forall k :: 0 < k <= |es| ==> p[k].call.Some?) && p[|es|] == v;
    ExtendPath(p, es, e);
    var more, longer := p + [Happens(v, e)], es + [e];
    assert more[0] == s && longer[0] == es[0] && longer[|longer| - 1] == e && more[|longer| - 1] == v;
    assert forall k :: 0 < k <= |es| ==> more[k] == p[k];
  }

  /** A running service can fail by itself at any moment. */
  lemma FailsByItself(s: Session, v: Session, id: ServiceId, t: nat) returns (w: Session)
    requires Reaches(s, v) && v.call.Some? && Unfinished(v.shared, t) && v.shared.tasks[t].service == id
    requires id in v.shared.states && v.shared.states[id].Running?
    requires v.shared.tasks[t].phase.Observed? ==> v.shared.tasks[t].phase.seen.Starting? || v.shared.tasks[t].phase.seen.Running?
    ensures Reaches(s, w) && w.call == v.call && w.shared.running == v.shared.running
    ensures w.shared.states == v.shared.states[id := Failed]
    ensures w.shared.tasks.Keys == v.shared.tasks.Keys
    ensures forall u :: u in v.shared.tasks && u != t ==> w.shared.tasks[u] == v.shared.tasks[u]
    decreases if v.shared.tasks[t].phase.Serving? then 2 else if v.shared.tasks[t].phase.Returned? then 1 else 0
  {
    var phase := v.shared.tasks[t].phase;
    if phase.Serving? {
      ReachesNext(s, v, TaskRuns(t, RunReturns(false)));
      w := FailsByItself(s, Happens(v, TaskRuns(t, RunReturns(false))), id, t);
    } else if phase.Returned? {
      ReachesNext(s, v, TaskRuns(t, Observes));
      w := FailsByItself(s, Happens(v, TaskRuns(t, Observes)), id, t);
    } else {
      ReachesNext(s, v, TaskRuns(t, Records));
      w := Happens(v, TaskRuns(t, Records));
    }
  }

  lemma Begun(s: Session)
    requires s.call.None? && s.shared.running != map[]
    ensures Reaches(s, Happens(s, Begins(ShutdownRequest)))
  {
    var v := Happens(s, Begins(ShutdownRequest));
    var p, es := [s, v], [Begins(ShutdownRequest)];
    assert Path(p, es) && p[|es|] == v && es[0] == Begins(ShutdownRequest);
  }

  /** With two running services, the first can fail between being read and being marked. */
  lemma TwoRunningCanStrand(s: Session, a: ServiceId, b: ServiceId)
    requires Agree(s) && s.call.None? && a != b && a in s.shared.states && b in s.shared.states
    requires s.shared.states[a].Running? && s.shared.states[b].Running?
    ensures CanStrand(s)
  {
    var t, u := RunningTasks(s, a, b);
    Begun(s);
    var begun := Happens(s, Begins(ShutdownRequest));
    ReachesNext(s, begun, Advances(On(a)));
    var read := Happens(begun, Advances(On(a)));
    var failed := FailsByItself(s, read, a, t);
    FailedStrands(failed, a, b, u);
    StrandsThen(s, failed, Advances(On(a)));
  }

  lemma RunningTasks(s: Session, a: ServiceId, b: ServiceId) returns (t: nat, u: nat)
    requires Agree(s) && s.call.None? && a != b && a in s.shared.states && b in s.shared.states
    requires s.shared.states[a].Running? && s.shared.states[b].Running?
    ensures t != u && a in s.shared.running && b in s.shared.running && s.shared.running[a] == t && s.shared.running[b] == u
    ensures Unfinished(s.shared, t) && s.shared.tasks[t].service == a && Unfinished(s.shared, u)
    ensures s.shared.tasks[t].phase.Observed? ==> s.shared.tasks[t].phase.seen.Starting? || s.shared.tasks[t].phase.seen.Running?
  {
    assert StateFits(s, a) && StateFits(s, b);
    t, u := s.shared.running[a], s.shared.running[b];
    assert Handle(s, a) == Some(t) && Handle(s, b) == Some(u);
  }

  lemma FailedStrands(v: Session, a: ServiceId, b: ServiceId, u: nat)
    requires v.call.Some? && v.call.value.ShutdownFiring? && v.shared.running == map[]
    requires a in v.call.value.entries && v.call.value.entries[a].stage.SeenLive?
    requires b in v.call.value.entries && v.call.value.entries[b].task == u && Unfinished(v.shared, u)
    requires a in v.shared.states && v.shared.states[a].Failed? && b in v.shared.states
    ensures CanHappen(v, Advances(On(a))) && Strands(v, Advances(On(a)))
  {
    assert HasTask(v, b);
  }

  /** Before the call: a shutdown of an agreeing, idle coordinator can strand a service if and only if
      at least two services are published as running. */
  lemma ShutdownCanStrandExactly(s: Session)
    requires Agree(s) && s.call.None?
    ensures CanStrand(s) <==> TwoRunning(s.shared)
  {
    if p: seq<Session>, es: seq<Event> :|
      && Path(p, es) && p[0] == s && |es| > 0 && es[0] == Begins(ShutdownRequest)
      && (forall k :: 0 < k < |es| ==> p[k].call.Some?)
      && Strands(p[|es| - 1], es[|es| - 1])
    {
      DuringPath(p, es, |es| - 1);
      StrandingNeedsTwo(s, p[|es| - 1], es[|es| - 1]);
    }
    if TwoRunning(s.shared) {
      var a, b :| a != b && a in s.shared.states && b in s.shared.states && s.shared.states[a].Running? && s.shared.states[b].Running?;
      TwoRunningCanStrand(s, a, b);
    }
  }

  // ---------------------------------------------------------------- starting

  /** While status and task agree, a start that returns Ok leaves the service Running, with exactly one
      unfinished task, the one filed in `running`. */
  lemma StartOkMeansRunning(s: Session, ch: Choice)
    requires Agree(s) && CanHappen(s, Advances(ch)) && s.call.value.Awaiting?
    requires Advance(s.shared, s.call.value, ch).1 == Return(true)
    ensures var id, sh := s.call.value.id, Happens(s, Advances(ch)).shared;
      && id in sh.states && sh.states[id].Running? && id in sh.running && Unfinished(sh, sh.running[id])
      && forall t :: Unfinished(sh, t) && sh.tasks[t].service == id ==> t == sh.running[id]
  {
    var id := s.call.value.id;
    assert StateFits(s, id);
    assert Handle(s, id) == Some(s.shared.running[id]);
    forall t | Unfinished(s.shared, t) && s.shared.tasks[t].service == id ensures t == s.shared.running[id] {
      assert Handle(s, id) == Some(t);
    }
  }

  /** How a supervised task ends: Stopped when it returned without an error and was seen to be stopping,
      Failed when it returned an error or nobody had asked it to stop. */
  lemma SupervisedEnd(s: Session, t: nat)
    requires Agree(s) && CanRun(s.shared, t, Records)
    ensures var v, task := Happens(s, TaskRuns(t, Records)), s.shared.tasks[t];
      && v.shared.tasks[t].phase.Finished?
      && v.shared.states == s.shared.states[task.service :=
           if task.phase.ok && task.phase.seen.Stopping? then Stopped else Failed]
  {
    var task := s.shared.tasks[t];
    assert Unfinished(s.shared, t);
    assert StateFits(s, task.service);
  }

  /** The end of a task is judged by the state that is published when it returns. */
  lemma SeenWhenReturned(sh: Shared, t: nat)
    requires CanRun(sh, t, Observes)
    ensures RunTask(sh, t, Observes).tasks[t].phase == Observed(sh.tasks[t].phase.ok, StateOf(sh, sh.tasks[t].service))
  {
  }

  /** A start begun from the session got this far. */
  ghost predicate StartReaches(s: Session, id: ServiceId, v: Session) {
    exists p: seq<Session>, es: seq<Event> ::
      && Path(p, es) && p[0] == s && |es| > 0 && es[0] == Begins(StartRequest(id))
      && (forall k :: 0 < k <= |es| ==> p[k].call.Some?) && p[|es|] == v
  }

  /** Some run of a start, alone with its service, returns Ok. */
  ghost predicate CanStart(s: Session, id: ServiceId) {
    exists v: Session :: StartReaches(s, id, v) && v.call == Some(Awaiting(id)) && StateOf(v.shared, id).Running?
                         && Advance(v.shared, v.call.value, Proceeds) == (v.shared, Return(true))
  }

  lemma StartReachesNext(s: Session, id: ServiceId, v: Session, e: Event)
    requires StartReaches(s, id, v) && CanHappen(v, e) && Happens(v, e).call.Some?
    ensures StartReaches(s, id, Happens(v, e))
  {
    var p: seq<Session>, es: seq<Event> :|
      && Path(p, es) && p[0] == s && |es| > 0 && es[0] == Begins(StartRequest(id))
      && (forall k :: 0 < k <= |es| ==> p[k].call.Some?) && p[|es|] == v;
    ExtendPath(p, es, e);
    var more, longer := p + [Happens(v, e)], es + [e];
    assert more[0] == s && longer[0] == es[0] && more[|longer|] == Happens(v, e);
    assert forall k :: 0 < k <= |es| ==> more[k] == p[k];
  }

  lemma StartBegun(s: Session, id: ServiceId)
    requires s.call.None? && id in s.shared.states && (s.shared.states[id].Stopped? || s.shared.states[id].Failed?)
    ensures StartReaches(s, id, Session(s.shared, Some(Checking(id))))
  {
    var v := Happens(s, Begins(StartRequest(id)));
    var p, es := [s, v], [Begins(StartRequest(id))];
    assert Path(p, es) && p[|es|] == v && es[0] == Begins(StartRequest(id));
  }

  lemma SpawningCanStart(s: Session, sh: Shared, id: ServiceId, t: nat)
    requires StartReaches(s, id, Session(sh, Some(Spawning(id))))
    requires id in sh.states && sh.states[id].Stopped? && id !in sh.running && t !in sh.tasks
    ensures CanStart(s, id)
  {
    var spawning := Session(sh, Some(Spawning(id)));
    StartReachesNext(s, id, spawning, Advances(Spawned(t)));
    var spawned := Happens(spawning, Advances(Spawned(t)));
    StartReachesNext(s, id, spawned, TaskRuns(t, ReportsReady));
    var ready := Happens(spawned, TaskRuns(t, ReportsReady));
    assert ready.call == Some(Awaiting(id)) && StateOf(ready.shared, id).Running?;
  }

  lemma FailedOpens(s: Session, id: ServiceId)
    requires s.call.None? && id in s.shared.states && s.shared.states[id].Failed?
    ensures StartReaches(s, id, Session(s.shared, Some(StopRemoving(id, Failed, true))))
  {
    StartBegun(s, id);
    StartReachesNext(s, id, Session(s.shared, Some(Checking(id))), Advances(Proceeds));
    StartReachesNext(s, id, Session(s.shared, Some(StopOpening(id, true))), Advances(Proceeds));
  }

  /** An entry whose task is over is taken, fired and settled at once. */
  lemma EntryIsReset(s: Session, sh: Shared, id: ServiceId, t: nat) returns (after: Shared)
    requires StartReaches(s, id, Session(sh, Some(StopMarking(id, Failed, t, true))))
    requires t in sh.tasks && sh.tasks[t].phase.Finished? && id in sh.states && sh.states[id].Failed? && id !in sh.running
    ensures StartReaches(s, id, Session(after, Some(Spawning(id))))
    ensures after.states == sh.states[id := Stopped] && after.running == sh.running && after.tasks.Keys == sh.tasks.Keys
  {
    var fired := Fire(sh, t);
    after := fired.(states := sh.states[id := Stopped]);
    StartReachesNext(s, id, Session(sh, Some(StopMarking(id, Failed, t, true))), Advances(Proceeds));
    StartReachesNext(s, id, Session(sh, Some(StopFiring(id, t, true))), Advances(Proceeds));
    StartReachesNext(s, id, Session(fired, Some(StopWaiting(id, t, true))), Advances(Proceeds));
    StartReachesNext(s, id, Session(fired, Some(StopSettling(id, true))), Advances(Proceeds));
  }

  /** A failed service is reset first: its entry, if it left one, is taken, and its task is over. */
  lemma FailedIsReset(s: Session, id: ServiceId) returns (sh: Shared)
    requires Agree(s) && s.call.None? && id in s.shared.states && s.shared.states[id].Failed?
    ensures StartReaches(s, id, Session(sh, Some(Spawning(id))))
    ensures id in sh.states && sh.states[id].Stopped? && id !in sh.running && sh.tasks.Keys == s.shared.tasks.Keys
  {
    assert StateFits(s, id);
    FailedOpens(s, id);
    var removing := Session(s.shared, Some(StopRemoving(id, Failed, true)));
    StartReachesNext(s, id, removing, Advances(Proceeds));
    if id !in s.shared.running {
      sh := Happens(removing, Advances(Proceeds)).shared;
    } else {
      var t := s.shared.running[id];
      assert Handle(s, id) == Some(t);
      sh := EntryIsReset(s, s.shared.(running := s.shared.running - {id}), id, t);
    }
  }

  lemma FreshTask(sh: Shared) returns (t: nat)
    ensures t !in sh.tasks
  {
    var bound := UpperBound(sh.tasks.Keys);
    t := bound + 1;
  }

  /** Every stopped or failed service can be started again: from an idle coordinator whose states and
      tasks agree, a start whose service reports ready returns Ok. */
  lemma StoppedOrFailedCanStart(s: Session, id: ServiceId)
    requires Agree(s) && s.call.None? && id in s.shared.states
    ensures CanStart(s, id) <==> s.shared.states[id].Stopped? || s.shared.states[id].Failed?
  {
    assert StateFits(s, id);
    var t := FreshTask(s.shared);
    if s.shared.states[id].Stopped? {
      StartBegun(s, id);
      StartReachesNext(s, id, Session(s.shared, Some(Checking(id))), Advances(Proceeds));
      SpawningCanStart(s, s.shared, id, t);
    } else if s.shared.states[id].Failed? {
      var sh := FailedIsReset(s, id);
      SpawningCanStart(s, sh, id, t);
    } else if v: Session :| StartReaches(s, id, v) {
      LiveIsRefused(s, id, v);
      assert false;
    }
  }

  lemma LiveReturns(p: seq<Session>, es: seq<Event>, id: ServiceId)
    requires Path(p, es) && |es| > 0 && es[0] == Begins(StartRequest(id))
    requires id in p[0].shared.states && IsLive(p[0].shared.states[id])
    ensures p[1].call.None?
  {
    assert p[0 + 1] == Happens(p[0], es[0]);
  }

  lemma LiveIsRefused(s: Session, id: ServiceId, v: Session)
    requires s.call.None? && id in s.shared.states && IsLive(s.shared.states[id])
    ensures !StartReaches(s, id, v)
  {
    if StartReaches(s, id, v) {
      var p: seq<Session>, es: seq<Event> :|
        && Path(p, es) && p[0] == s && |es| > 0 && es[0] == Begins(StartRequest(id))
        && (forall k :: 0 < k <= |es| ==> p[k].call.Some?) && p[|es|] == v;
      LiveReturns(p, es, id);
      assert false;
    }
  }
}
