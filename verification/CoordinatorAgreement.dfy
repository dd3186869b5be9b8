/** Status and task agree: the coordinator with its control calls one after another and no wait that
    reaches a deadline. The supervised tasks still interleave with every step of a call. */
module CoordinatorAgreement {
  import opened Common
  import opened StatusRegistry
  import opened Coordinator

  datatype Session = Session(shared: Shared, call: Option<Call>)

  datatype Event = Begins(request: Request) | Advances(choice: Choice) | TaskRuns(task: nat, step: TaskStep)

  /** A wait ends only because its task ended. */
  predicate OnTime(sh: Shared, c: Call, ch: Choice) {
    && !ch.TimesOut? && !ch.Abandoned?
    && (c.ShutdownWaiting? && ch.On? && ch.id in c.fired ==> IsFinished(sh, c.fired[ch.id]))
  }

  predicate CanHappen(s: Session, e: Event) {
    match e
    case Begins(_) => s.call.None?
    case Advances(ch) => s.call.Some? && CanAdvance(s.shared, s.call.value, ch) && OnTime(s.shared, s.call.value, ch)
    case TaskRuns(t, step) => CanRun(s.shared, t, step)
  }

  function Resume(r: (Shared, Outcome)): Session {
    Session(r.0, if r.1.Continue? then Some(r.1.call) else None)
  }

  function Happens(s: Session, e: Event): Session
    requires CanHappen(s, e)
  {
    match e
    case Begins(request) => Resume(Open(s.shared, request))
    case Advances(ch) => Resume(Advance(s.shared, s.call.value, ch))
    case TaskRuns(t, step) => s.(shared := RunTask(s.shared, t, step))
  }

  predicate IsSession(sessions: seq<Session>, events: seq<Event>) {
    && |sessions| == |events| + 1
    && sessions[0] == Session(InitShared(sessions[0].shared.states.Keys), None)
    && forall i :: 0 <= i < |events| ==>
         CanHappen(sessions[i], events[i]) && sessions[i + 1] == Happens(sessions[i], events[i])
  }

  // ---------------------------------------------------------------- the invariant

  /** The task the call in progress took for `id`. */
  function TakenFor(c: Option<Call>, id: ServiceId): Option<nat> {
    if c.None? then None
    else
      match c.value
      case DiscardFiring(i, t) => if i == id then Some(t) else None
      case DiscardWaiting(i, t) => if i == id then Some(t) else None
      case StopMarking(i, _, t, _) => if i == id then Some(t) else None
      case StopFiring(i, t, _) => if i == id then Some(t) else None
      case StopWaiting(i, t, _) => if i == id then Some(t) else None
      case ShutdownFiring(entries, fired) =>
        if id in entries then Some(entries[id].task) else if id in fired then Some(fired[id]) else None
      case ShutdownWaiting(fired, _, _) => if id in fired then Some(fired[id]) else None
      case _ => None
  }

  /** The one task that stands for the service: filed in `running`, or taken by the call. */
  function Handle(s: Session, id: ServiceId): Option<nat> {
    if id in s.shared.running then Some(s.shared.running[id]) else TakenFor(s.call, id)
  }

  /** The call is past marking `id` as stopping. */
  predicate PastMark(c: Option<Call>, id: ServiceId) {
    && c.Some?
    && match c.value
       case StopFiring(i, _, _) => i == id
       case StopWaiting(i, _, _) => i == id
       case DiscardFiring(i, _) => i == id
       case DiscardWaiting(i, _) => i == id
       case ShutdownFiring(entries, fired) => if id in entries then entries[id].stage.Marked? else id in fired
       case ShutdownWaiting(fired, _, _) => id in fired
       case _ => false
  }

  predicate Unfinished(sh: Shared, t: nat) {
    t in sh.tasks && !sh.tasks[t].phase.Finished?
  }

  /** Every unfinished task is the handle of its service, so a service has at most one. */
  ghost predicate OneTask(s: Session) {
    && (forall t :: t in s.shared.tasks ==> s.shared.tasks[t].service in s.shared.states)
    && (forall t :: Unfinished(s.shared, t) ==> Handle(s, s.shared.tasks[t].service) == Some(t))
    && (forall id :: Handle(s, id).Some? ==>
          Handle(s, id).value in s.shared.tasks && s.shared.tasks[Handle(s, id).value].service == id)
    && (forall id :: id in s.shared.running ==> TakenFor(s.call, id).None?)
  }

  predicate HasTask(s: Session, id: ServiceId) {
    Handle(s, id).Some? && Unfinished(s.shared, Handle(s, id).value)
  }

  /** What each published state says about the task of the service. */
  ghost predicate StateFits(s: Session, id: ServiceId)
    requires id in s.shared.states
  {
    match s.shared.states[id]
    case Stopped => id !in s.shared.running && !HasTask(s, id)
    case Failed => !HasTask(s, id)
    case Starting => id in s.shared.running && HasTask(s, id) && s.call == Some(Awaiting(id))
    case Running => HasTask(s, id) && !PastMark(s.call, id)
    case Stopping => HasTask(s, id) && PastMark(s.call, id)
  }

  /** What `supervise` matched on is still good enough to record the outcome. */
  ghost predicate SeenFits(s: Session) {
    forall t :: Unfinished(s.shared, t) && s.shared.tasks[t].phase.Observed? ==>
      var seen := s.shared.tasks[t].phase.seen;
      IsLive(seen) && (seen.Stopping? ==> StateOf(s.shared, s.shared.tasks[t].service).Stopping?)
  }

  /** What the call in progress relies on. */
  ghost predicate CallFits(sh: Shared, c: Call) {
    match c
    case Checking(id) => id in sh.states && (sh.states[id].Stopped? || sh.states[id].Failed?)
    case Spawning(id) => id in sh.states && sh.states[id].Stopped?
    case Awaiting(id) => id in sh.running && id in sh.states && !sh.states[id].Stopped? && !sh.states[id].Stopping?
    case Discarding(id) => id in sh.states && sh.states[id].Failed?
    case DiscardFiring(id, _) => id in sh.states && sh.states[id].Failed?
    case DiscardWaiting(id, _) => id in sh.states && sh.states[id].Failed?
    case DiscardRecording(id) => id in sh.states && sh.states[id].Failed?
    case StopOpening(id, thenStart) => id in sh.states && (thenStart ==> sh.states[id].Failed?)
    case StopRemoving(id, seen, _) => id in sh.states && SeenBy(sh, id, seen)
    case StopMarking(id, seen, _, _) => id in sh.states && SeenBy(sh, id, seen)
    case StopFiring(id, _, _) => id in sh.states
    case StopWaiting(id, _, _) => id in sh.states
    case StopSettling(id, _) => id in sh.states && id !in sh.running && (sh.states[id].Stopped? || sh.states[id].Failed?)
    case ShutdownFiring(entries, fired) =>
      && sh.running == map[] && entries.Keys + fired.Keys <= sh.states.Keys && entries.Keys !! fired.Keys
      && forall id :: id in entries && !entries[id].stage.Marked? ==> sh.states[id].Running? || sh.states[id].Failed?
    case ShutdownWaiting(fired, settled, stuck) =>
      && sh.running == map[] && fired.Keys + settled <= sh.states.Keys && fired.Keys !! settled && !stuck
      && forall id :: id in settled ==> sh.states[id].Stopped?
  }

  /** The state a stop read is the current one, except that a running service may have failed since. */
  predicate SeenBy(sh: Shared, id: ServiceId, seen: ServiceState)
    requires id in sh.states
  {
    (seen.Running? && (sh.states[id].Running? || sh.states[id].Failed?)) || (seen.Failed? && sh.states[id].Failed?)
  }

  ghost predicate Agree(s: Session) {
    && OneTask(s)
    && s.shared.running.Keys <= s.shared.states.Keys
    && (forall id :: id in s.shared.states ==> StateFits(s, id))
    && SeenFits(s)
    && (s.call.Some? ==> CallFits(s.shared, s.call.value))
  }

  lemma InitAgrees(ids: set<ServiceId>)
    ensures Agree(Session(InitShared(ids), None))
  {
  }

  lemma OpenShutdownAgrees(s: Session)
    requires Agree(s) && s.call.None? && s.shared.running != map[]
    ensures Agree(Resume(Open(s.shared, ShutdownRequest)))
  {
    var v := Resume(Open(s.shared, ShutdownRequest));
    assert forall id :: Handle(v, id) == Handle(s, id);
    assert forall id :: id in s.shared.states ==> StateFits(s, id);
  }

  lemma BeginAgrees(s: Session, r: Request)
    requires Agree(s) && s.call.None?
    ensures Agree(Resume(Open(s.shared, r)))
  {
    if r.ShutdownRequest? {
      if s.shared.running != map[] {
        OpenShutdownAgrees(s);
      }
    } else {
      assert r.id in s.shared.states ==> StateFits(s, r.id);
    }
  }

  /** A task that stays unfinished only changes what it is doing. */
  lemma RephaseAgrees(s: Session, t: nat, phase: Phase)
    requires Agree(s) && Unfinished(s.shared, t) && !phase.Finished?
    requires phase.Observed? ==> phase.seen == StateOf(s.shared, s.shared.tasks[t].service)
    ensures Agree(s.(shared := s.shared.(tasks := s.shared.tasks[t := s.shared.tasks[t].(phase := phase)])))
  {
    var v := s.(shared := s.shared.(tasks := s.shared.tasks[t := s.shared.tasks[t].(phase := phase)]));
    RephaseOneTask(s, v, t);
    assert StateFits(s, s.shared.tasks[t].service);
    RephaseSeen(s, v, t, phase);
    forall id | id in s.shared.states ensures StateFits(v, id) {
      assert StateFits(s, id);
    }
  }

  lemma RephaseSeen(s: Session, v: Session, t: nat, phase: Phase)
    requires SeenFits(s) && t in s.shared.tasks && v.shared.states == s.shared.states
    requires v.shared.tasks == s.shared.tasks[t := s.shared.tasks[t].(phase := phase)]
    requires phase.Observed? ==> phase.seen == StateOf(s.shared, s.shared.tasks[t].service) && IsLive(phase.seen)
    ensures SeenFits(v)
  {
    forall u | Unfinished(v.shared, u) && v.shared.tasks[u].phase.Observed?
      ensures IsLive(v.shared.tasks[u].phase.seen)
      ensures v.shared.tasks[u].phase.seen.Stopping? ==> StateOf(v.shared, v.shared.tasks[u].service).Stopping?
    {
      assert u != t ==> Unfinished(s.shared, u);
    }
  }

  lemma RephaseOneTask(s: Session, v: Session, t: nat)
    requires OneTask(s) && Unfinished(s.shared, t) && v.call == s.call
    requires v.shared.states == s.shared.states && v.shared.running == s.shared.running
    requires v.shared.tasks.Keys == s.shared.tasks.Keys && Unfinished(v.shared, t)
    requires v.shared.tasks[t].service == s.shared.tasks[t].service
    requires forall u :: u in s.shared.tasks && u != t ==> v.shared.tasks[u] == s.shared.tasks[u]
    ensures OneTask(v)
    ensures forall id :: Handle(v, id) == Handle(s, id)
    ensures forall u :: Unfinished(v.shared, u) <==> Unfinished(s.shared, u)
  {
    assert forall id :: Handle(v, id) == Handle(s, id);
  }

  lemma ReadyAgrees(s: Session, t: nat)
    requires Agree(s) && Unfinished(s.shared, t)
    ensures Agree(s.(shared := Record(s.shared, s.shared.tasks[t].service, Running)))
  {
    var id := s.shared.tasks[t].service;
    assert StateFits(s, id);
    var v := s.(shared := Record(s.shared, id, Running));
    assert forall i :: Handle(v, i) == Handle(s, i);
  }

  /** The task of `id` finished and `next` was recorded. */
  function AfterFinish(s: Session, t: nat, next: ServiceState): Session
    requires t in s.shared.tasks
  {
    var done := s.shared.(tasks := s.shared.tasks[t := s.shared.tasks[t].(phase := Finished)]);
    s.(shared := Record(done, s.shared.tasks[t].service, next))
  }

  lemma FinishOneTask(s: Session, t: nat, next: ServiceState)
    requires OneTask(s) && Unfinished(s.shared, t)
    ensures OneTask(AfterFinish(s, t, next))
    ensures forall i :: Handle(AfterFinish(s, t, next), i) == Handle(s, i)
    ensures forall u :: Unfinished(AfterFinish(s, t, next).shared, u) <==> Unfinished(s.shared, u) && u != t
  {
    var v := AfterFinish(s, t, next);
    assert forall i :: Handle(v, i) == Handle(s, i);
  }

  /** A finished task leaves a state that says so: `next` is where its service can legally go. */
  lemma FinishAgrees(s: Session, t: nat, next: ServiceState)
    requires Agree(s) && Unfinished(s.shared, t)
    requires next.Failed? || (next.Stopped? && StateOf(s.shared, s.shared.tasks[t].service).Stopping?)
    ensures Agree(AfterFinish(s, t, next))
  {
    var id := s.shared.tasks[t].service;
    var v := AfterFinish(s, t, next);
    assert StateFits(s, id);
    assert v.shared.states == s.shared.states[id := next];
    FinishOneTask(s, t, next);
    forall i | i in v.shared.states
      ensures StateFits(v, i)
    {
      assert StateFits(s, i);
    }
    assert SeenFits(v);
  }

  lemma TaskAgrees(s: Session, t: nat, step: TaskStep)
    requires Agree(s) && CanRun(s.shared, t, step)
    ensures Agree(s.(shared := RunTask(s.shared, t, step)))
  {
    var task := s.shared.tasks[t];
    match step {
      case ReportsReady => ReadyAgrees(s, t);
      case RunReturns(ok) => RephaseAgrees(s, t, Returned(ok));
      case Observes => RephaseAgrees(s, t, Observed(task.phase.ok, StateOf(s.shared, task.service)));
      case Records =>
        assert Unfinished(s.shared, t);
        FinishAgrees(s, t, if task.phase.ok && task.phase.seen.Stopping? then Stopped else Failed);
    }
  }

  /** Signals do not matter to agreement. */
  lemma SignalsAgree(s: Session, tasks: map<nat, Task>)
    requires Agree(s) && tasks.Keys == s.shared.tasks.Keys
    requires forall t :: t in tasks ==> tasks[t].service == s.shared.tasks[t].service && tasks[t].phase == s.shared.tasks[t].phase
    ensures Agree(s.(shared := s.shared.(tasks := tasks)))
  {
    var v := s.(shared := s.shared.(tasks := tasks));
    assert forall id :: Handle(v, id) == Handle(s, id);
    assert forall id :: id in s.shared.states ==> StateFits(s, id);
  }

  /** A call that has taken nothing may move on, or return, without touching what is shared. */
  lemma IdleCallAgrees(s: Session, next: Option<Call>)
    requires Agree(s)
    requires s.call.Some? && forall id :: TakenFor(s.call, id).None? && !PastMark(s.call, id)
    requires forall id :: TakenFor(next, id).None? && !PastMark(next, id)
    requires next.Some? ==> CallFits(s.shared, next.value)
    requires forall id :: id in s.shared.states && s.shared.states[id].Starting? ==> next == Some(Awaiting(id))
    ensures Agree(s.(call := next))
  {
    var v := s.(call := next);
    assert forall id :: Handle(v, id) == Handle(s, id);
    assert forall id :: id in s.shared.states ==> StateFits(s, id);
  }

  lemma SpawnOneTask(s: Session, id: ServiceId, t: nat)
    requires Agree(s) && s.call == Some(Spawning(id)) && t !in s.shared.tasks
    ensures id !in s.shared.running
    ensures OneTask(Resume(Spawn(s.shared, id, t)))
    ensures forall i :: i != id ==> Handle(Resume(Spawn(s.shared, id, t)), i) == Handle(s, i)
  {
    assert StateFits(s, id);
    var v := Resume(Spawn(s.shared, id, t));
    assert forall i :: i != id ==> Handle(v, i) == Handle(s, i);
    assert forall u :: Unfinished(v.shared, u) <==> Unfinished(s.shared, u) || u == t;
  }

  lemma SpawnAgrees(s: Session, id: ServiceId, t: nat)
    requires Agree(s) && s.call == Some(Spawning(id)) && t !in s.shared.tasks
    ensures Agree(Resume(Spawn(s.shared, id, t)))
  {
    SpawnOneTask(s, id, t);
    var v := Resume(Spawn(s.shared, id, t));
    forall i | i in v.shared.states
      ensures StateFits(v, i)
    {
      assert StateFits(s, i);
    }
  }

  lemma AwaitAgrees(s: Session, id: ServiceId)
    requires Agree(s) && s.call == Some(Awaiting(id))
    ensures Agree(Resume(Polled(s.shared, id)))
  {
    var next := Resume(Polled(s.shared, id)).call;
    assert forall i :: i in s.shared.states ==> StateFits(s, i);
    if next != s.call {
      IdleCallAgrees(s, next);
    }
  }

  lemma StartAgrees(s: Session, ch: Choice)
    requires Agree(s) && CanHappen(s, Advances(ch))
    requires s.call.value.Checking? || s.call.value.Spawning? || s.call.value.Awaiting?
    ensures Agree(Happens(s, Advances(ch)))
  {
    var c := s.call.value;
    assert forall i :: i in s.shared.states ==> StateFits(s, i);
    if c.Spawning? {
      SpawnAgrees(s, c.id, ch.task);
    } else if c.Awaiting? {
      AwaitAgrees(s, c.id);
    } else if ch.Refused? {
      IdleCallAgrees(s, None);
      SignalsAgree(s.(call := None), DropSenders(s.shared, {}).tasks);
    } else {
      IdleCallAgrees(s, Happens(s, Advances(ch)).call);
    }
  }

  /** The step concerned `id` alone, and its task did not run. */
  ghost predicate SameElsewhere(s: Session, v: Session, id: ServiceId) {
    && v.shared.states.Keys == s.shared.states.Keys
    && v.shared.tasks.Keys == s.shared.tasks.Keys
    && (forall t :: t in s.shared.tasks ==>
          v.shared.tasks[t].service == s.shared.tasks[t].service && v.shared.tasks[t].phase == s.shared.tasks[t].phase)
    && v.shared.running.Keys <= s.shared.running.Keys
    && (forall i :: i in s.shared.states && i != id ==> v.shared.states[i] == s.shared.states[i])
    && (forall i :: i in s.shared.running && i != id ==> i in v.shared.running && v.shared.running[i] == s.shared.running[i])
    && (forall i :: i in v.shared.running ==> v.shared.running[i] == s.shared.running[i])
    && (forall i :: i != id ==> TakenFor(v.call, i) == TakenFor(s.call, i) && (PastMark(v.call, i) <==> PastMark(s.call, i)))
  }

  lemma LocalOneTask(s: Session, v: Session, id: ServiceId)
    requires OneTask(s) && SameElsewhere(s, v, id)
    requires Handle(v, id) == Handle(s, id) || (Handle(v, id).None? && !HasTask(s, id))
    requires id in v.shared.running ==> TakenFor(v.call, id).None?
    ensures OneTask(v)
    ensures forall i :: i != id ==> Handle(v, i) == Handle(s, i)
    ensures forall u :: Unfinished(v.shared, u) <==> Unfinished(s.shared, u)
  {
    assert forall i :: i != id ==> Handle(v, i) == Handle(s, i);
  }

  /** A step about one service keeps agreement when it keeps, or properly forgets, its one task. */
  lemma LocalAgrees(s: Session, v: Session, id: ServiceId)
    requires Agree(s) && SameElsewhere(s, v, id) && id in s.shared.states
    requires s.call.Some? && !s.call.value.Awaiting?
    requires Handle(v, id) == Handle(s, id) || (Handle(v, id).None? && !HasTask(s, id))
    requires id in v.shared.running ==> TakenFor(v.call, id).None?
    requires StateFits(v, id)
    requires HasTask(s, id) && s.shared.states[id].Stopping? ==> v.shared.states[id].Stopping?
    requires v.call.Some? ==> CallFits(v.shared, v.call.value)
    ensures Agree(v)
  {
    LocalOneTask(s, v, id);
    forall i | i in v.shared.states && i != id
      ensures StateFits(v, i)
    {
      assert StateFits(s, i);
    }
    LocalSeen(s, v, id);
  }

  lemma LocalSeen(s: Session, v: Session, id: ServiceId)
    requires OneTask(s) && SeenFits(s) && SameElsewhere(s, v, id) && id in s.shared.states
    requires HasTask(s, id) && s.shared.states[id].Stopping? ==> v.shared.states[id].Stopping?
    ensures SeenFits(v)
  {
    forall t | Unfinished(v.shared, t) && v.shared.tasks[t].phase.Observed?
      ensures IsLive(v.shared.tasks[t].phase.seen)
      ensures v.shared.tasks[t].phase.seen.Stopping? ==> StateOf(v.shared, v.shared.tasks[t].service).Stopping?
    {
      assert Unfinished(s.shared, t);
    }
  }

  lemma DiscardAgrees(s: Session, ch: Choice)
    requires Agree(s) && CanHappen(s, Advances(ch))
    requires var c := s.call.value; c.Discarding? || c.DiscardFiring?
    ensures Agree(Happens(s, Advances(ch)))
  {
    var c := s.call.value;
    assert StateFits(s, c.id);
    LocalAgrees(s, Happens(s, Advances(ch)), c.id);
  }

  lemma DiscardEndAgrees(s: Session, ch: Choice)
    requires Agree(s) && CanHappen(s, Advances(ch))
    requires var c := s.call.value; c.DiscardWaiting? || c.DiscardRecording?
    ensures Agree(Happens(s, Advances(ch)))
  {
    var c := s.call.value;
    assert StateFits(s, c.id);
    LocalAgrees(s, Happens(s, Advances(ch)), c.id);
  }

  lemma StopOpeningAgrees(s: Session, ch: Choice)
    requires Agree(s) && CanHappen(s, Advances(ch)) && s.call.value.StopOpening?
    ensures Agree(Happens(s, Advances(ch)))
  {
    var c := s.call.value;
    assert StateFits(s, c.id);
    LocalAgrees(s, Happens(s, Advances(ch)), c.id);
  }

  lemma StopTakesAgrees(s: Session, id: ServiceId, seen: ServiceState, thenStart: bool)
    requires Agree(s) && s.call == Some(StopRemoving(id, seen, thenStart)) && id in s.shared.running
    ensures Agree(Resume(StopRemoved(s.shared, id, seen, thenStart)))
  {
    assert StateFits(s, id);
    LocalAgrees(s, Resume(StopRemoved(s.shared, id, seen, thenStart)), id);
  }

  lemma StopFindsNothingAgrees(s: Session, id: ServiceId, seen: ServiceState, thenStart: bool)
    requires Agree(s) && s.call == Some(StopRemoving(id, seen, thenStart)) && id !in s.shared.running
    ensures Agree(Resume(StopRemoved(s.shared, id, seen, thenStart)))
  {
    assert StateFits(s, id);
    LocalAgrees(s, Resume(StopRemoved(s.shared, id, seen, thenStart)), id);
  }

  lemma StopRemovedAgrees(s: Session, id: ServiceId, seen: ServiceState, thenStart: bool)
    requires Agree(s) && s.call == Some(StopRemoving(id, seen, thenStart))
    ensures Agree(Resume(StopRemoved(s.shared, id, seen, thenStart)))
  {
    if id in s.shared.running {
      StopTakesAgrees(s, id, seen, thenStart);
    } else {
      StopFindsNothingAgrees(s, id, seen, thenStart);
    }
  }

  lemma StopMarkedAgrees(s: Session, id: ServiceId, seen: ServiceState, t: nat, thenStart: bool)
    requires Agree(s) && s.call == Some(StopMarking(id, seen, t, thenStart))
    requires !IsLive(seen) || CanTransition(StateOf(s.shared, id), Stopping)
    ensures Agree(Resume(StopMarked(s.shared, id, seen, t, thenStart)))
  {
    assert StateFits(s, id);
    LocalAgrees(s, Resume(StopMarked(s.shared, id, seen, t, thenStart)), id);
  }

  /** The service failed between the read and the transition: its task is over, so dropping the entry
      loses nothing. */
  lemma StopRejectedAgrees(s: Session, id: ServiceId, seen: ServiceState, t: nat, thenStart: bool)
    requires Agree(s) && s.call == Some(StopMarking(id, seen, t, thenStart))
    requires IsLive(seen) && !CanTransition(StateOf(s.shared, id), Stopping)
    ensures Agree(Resume(StopMarked(s.shared, id, seen, t, thenStart)))
  {
    assert StateFits(s, id);
    LocalAgrees(s, Resume((s.shared, Return(false))), id);
    SignalsAgree(Resume((s.shared, Return(false))), DropSenders(s.shared, {t}).tasks);
  }

  lemma StopFiredAgrees(s: Session, v: Session, id: ServiceId, t: nat, thenStart: bool)
    requires Agree(s) && s.call == Some(StopFiring(id, t, thenStart))
    requires v == Session(Fire(s.shared, t), Some(StopWaiting(id, t, thenStart)))
    ensures Agree(v)
  {
    assert StateFits(s, id);
    LocalAgrees(s, v, id);
  }

  lemma StopFiringAgrees(s: Session, ch: Choice)
    requires Agree(s) && CanHappen(s, Advances(ch)) && s.call.value.StopFiring?
    ensures Agree(Happens(s, Advances(ch)))
  {
    var c, v := s.call.value, Happens(s, Advances(ch));
    StopFiredAgrees(s, v, c.id, c.task, c.thenStart);
  }

  lemma StopWaitingAgrees(s: Session, ch: Choice)
    requires Agree(s) && CanHappen(s, Advances(ch)) && s.call.value.StopWaiting?
    ensures Agree(Happens(s, Advances(ch)))
  {
    var c := s.call.value;
    assert StateFits(s, c.id);
    LocalAgrees(s, Happens(s, Advances(ch)), c.id);
  }

  lemma StopSettlingAgrees(s: Session, ch: Choice)
    requires Agree(s) && CanHappen(s, Advances(ch)) && s.call.value.StopSettling?
    ensures Agree(Happens(s, Advances(ch)))
  {
    var c := s.call.value;
    assert StateFits(s, c.id);
    LocalAgrees(s, Happens(s, Advances(ch)), c.id);
  }

  lemma StopAgrees(s: Session, ch: Choice)
    requires Agree(s) && CanHappen(s, Advances(ch))
    requires var c := s.call.value;
             c.StopOpening? || c.StopRemoving? || c.StopMarking? || c.StopFiring? || c.StopWaiting? || c.StopSettling?
    ensures Agree(Happens(s, Advances(ch)))
  {
    var c := s.call.value;
    if c.StopOpening? {
      StopOpeningAgrees(s, ch);
    } else if c.StopRemoving? {
      StopRemovedAgrees(s, c.id, c.seen, c.thenStart);
    } else if c.StopMarking? {
      if !IsLive(c.seen) || CanTransition(StateOf(s.shared, c.id), Stopping) {
        StopMarkedAgrees(s, c.id, c.seen, c.task, c.thenStart);
      } else {
        StopRejectedAgrees(s, c.id, c.seen, c.task, c.thenStart);
      }
    } else if c.StopSettling? {
      StopSettlingAgrees(s, ch);
    } else if c.StopFiring? {
      StopFiringAgrees(s, ch);
    } else {
      StopWaitingAgrees(s, ch);
    }
  }

  /** The call works on one entry of a shutdown; nothing but its own state and signals may change. */
  lemma EntryLocal(s: Session, v: Session, id: ServiceId)
    requires s.call.Some? && s.call.value.ShutdownFiring? && v.call.Some? && v.call.value.ShutdownFiring?
    requires var c, d := s.call.value, v.call.value;
             && (forall i :: i != id ==> (i in d.entries <==> i in c.entries) && (i in d.fired <==> i in c.fired))
             && (forall i :: i != id && i in c.entries ==> d.entries[i] == c.entries[i])
             && (forall i :: i != id && i in c.fired ==> d.fired[i] == c.fired[i])
    ensures forall i :: i != id ==> TakenFor(v.call, i) == TakenFor(s.call, i)
    ensures forall i :: i != id ==> (PastMark(v.call, i) <==> PastMark(s.call, i))
  {
  }

  /** Working on one entry leaves the other services alone, and the entry stays with the call. */
  lemma ShutdownStepLocal(s: Session, entries: map<ServiceId, Entry>, fired: map<ServiceId, nat>, id: ServiceId)
    requires s.call == Some(ShutdownFiring(entries, fired)) && id in entries && id in s.shared.states
    requires !entries[id].stage.SeenLive? || CanTransition(StateOf(s.shared, id), Stopping)
    ensures var v := Resume(ShutdownStep(s.shared, entries, fired, id));
            && SameElsewhere(s, v, id)
            && v.shared.running == s.shared.running
            && TakenFor(v.call, id) == Some(entries[id].task)
            && (PastMark(v.call, id) <==> !entries[id].stage.Taken? || !IsLive(StateOf(s.shared, id)))
  {
    EntryLocal(s, Resume(ShutdownStep(s.shared, entries, fired, id)), id);
  }

  lemma ShutdownStepCallFits(s: Session, entries: map<ServiceId, Entry>, fired: map<ServiceId, nat>, id: ServiceId)
    requires s.call == Some(ShutdownFiring(entries, fired)) && id in entries && CallFits(s.shared, s.call.value)
    requires !entries[id].stage.SeenLive? || CanTransition(StateOf(s.shared, id), Stopping)
    ensures var v := Resume(ShutdownStep(s.shared, entries, fired, id));
            v.call.Some? && CallFits(v.shared, v.call.value)
  {
  }

  lemma ShutdownStepAgrees(s: Session, entries: map<ServiceId, Entry>, fired: map<ServiceId, nat>, id: ServiceId)
    requires Agree(s) && s.call == Some(ShutdownFiring(entries, fired)) && id in entries
    requires !entries[id].stage.SeenLive? || CanTransition(StateOf(s.shared, id), Stopping)
    ensures Agree(Resume(ShutdownStep(s.shared, entries, fired, id)))
  {
    assert StateFits(s, id);
    var v := Resume(ShutdownStep(s.shared, entries, fired, id));
    ShutdownStepLocal(s, entries, fired, id);
    ShutdownStepCallFits(s, entries, fired, id);
    assert StateFits(v, id);
    LocalAgrees(s, v, id);
  }

  lemma SettleLocal(s: Session, id: ServiceId)
    requires s.call.Some? && s.call.value.ShutdownWaiting? && id in s.call.value.fired && id in s.shared.states
    requires IsFinished(s.shared, s.call.value.fired[id])
    requires s.shared.states[id].Stopped? || s.shared.states[id].Failed?
    ensures var v := Resume(ShutdownWaited(s.shared, s.call.value, id));
            && v.shared == s.shared.(states := s.shared.states[id := Stopped])
            && SameElsewhere(s, v, id) && TakenFor(v.call, id).None?
  {
  }

  lemma ShutdownSettlesAgrees(s: Session, id: ServiceId)
    requires Agree(s) && s.call.Some? && s.call.value.ShutdownWaiting? && id in s.call.value.fired
    requires IsFinished(s.shared, s.call.value.fired[id])
    ensures Agree(Resume(ShutdownWaited(s.shared, s.call.value, id)))
  {
    assert StateFits(s, id);
    SettleLocal(s, id);
    var v := Resume(ShutdownWaited(s.shared, s.call.value, id));
    assert CallFits(v.shared, v.call.value);
    LocalAgrees(s, v, id);
  }

  // ---------------------------------------------------------------- the one step that breaks it

  /** A shutdown read an entry as live, the service failed before it could be marked, and the early
      return drops the remaining entries although some other service it took is still running. */
  ghost predicate Strands(s: Session, e: Event) {
    && e.Advances? && e.choice.On? && s.call.Some? && s.call.value.ShutdownFiring?
    && var id := e.choice.id;
       && id in s.call.value.entries && s.call.value.entries[id].stage.SeenLive?
       && !CanTransition(StateOf(s.shared, id), Stopping)
       && exists other :: other in s.shared.states && HasTask(s, other)
  }

  lemma RejectedShutdown(s: Session, entries: map<ServiceId, Entry>, fired: map<ServiceId, nat>, id: ServiceId)
    requires Agree(s) && s.call == Some(ShutdownFiring(entries, fired)) && id in entries
    requires entries[id].stage.SeenLive? && !CanTransition(StateOf(s.shared, id), Stopping)
    ensures var v := Resume(ShutdownStep(s.shared, entries, fired, id));
            Agree(v) <==> forall other :: other in s.shared.states ==> !HasTask(s, other)
  {
    var bare := Session(s.shared, None);
    var tasks := DropSenders(s.shared, Owned(s.call.value)).tasks;
    var v := Resume(ShutdownStep(s.shared, entries, fired, id));
    assert v == bare.(shared := bare.shared.(tasks := tasks));
    assert forall i :: Handle(v, i).None?;
    if other :| other in s.shared.states && HasTask(s, other) {
      var t := Handle(s, other).value;
      assert Unfinished(v.shared, t);
    } else {
      forall t | t in s.shared.tasks
        ensures !Unfinished(s.shared, t)
      {
        assert HasTask(s, s.shared.tasks[t].service) || !Unfinished(s.shared, t);
      }
      forall i | i in s.shared.states
        ensures StateFits(bare, i)
      {
        assert StateFits(s, i);
      }
      assert Agree(bare);
      SignalsAgree(bare, tasks);
    }
  }

  lemma ShutdownAgrees(s: Session, ch: Choice)
    requires Agree(s) && CanHappen(s, Advances(ch))
    requires s.call.value.ShutdownFiring? || s.call.value.ShutdownWaiting?
    ensures Agree(Happens(s, Advances(ch))) <==> !Strands(s, Advances(ch))
  {
    var c := s.call.value;
    if c.ShutdownFiring? {
      if ch.On? {
        if c.entries[ch.id].stage.SeenLive? && !CanTransition(StateOf(s.shared, ch.id), Stopping) {
          RejectedShutdown(s, c.entries, c.fired, ch.id);
        } else {
          ShutdownStepAgrees(s, c.entries, c.fired, ch.id);
        }
      } else {
        ShutdownAllFired(s);
      }
    } else if ch.On? {
      ShutdownSettlesAgrees(s, ch.id);
    } else {
      ShutdownEnds(s);
    }
  }

  lemma ShutdownAllFired(s: Session)
    requires Agree(s) && s.call.Some? && s.call.value.ShutdownFiring? && s.call.value.entries == map[]
    ensures Agree(s.(call := Some(ShutdownWaiting(s.call.value.fired, {}, false))))
  {
    var v := s.(call := Some(ShutdownWaiting(s.call.value.fired, {}, false)));
    assert forall i :: Handle(v, i) == Handle(s, i);
    assert forall i :: i in s.shared.states ==> StateFits(s, i);
  }

  lemma ShutdownEnds(s: Session)
    requires Agree(s) && s.call.Some? && s.call.value.ShutdownWaiting? && s.call.value.fired == map[]
    ensures Agree(Session(DropSenders(s.shared, {}), None))
  {
    assert forall i :: Handle(s.(call := None), i) == Handle(s, i);
    assert forall i :: i in s.shared.states ==> StateFits(s, i);
    assert Agree(s.(call := None));
    SignalsAgree(s.(call := None), DropSenders(s.shared, {}).tasks);
  }

  /** Agreement survives a step if and only if the step strands no service. */
  lemma AgreesExactly(s: Session, e: Event)
    requires Agree(s) && CanHappen(s, e)
    ensures Agree(Happens(s, e)) <==> !Strands(s, e)
  {
    match e {
      case Begins(r) => BeginAgrees(s, r);
      case TaskRuns(t, step) => TaskAgrees(s, t, step);
      case Advances(ch) =>
        var c := s.call.value;
        if c.Checking? || c.Spawning? || c.Awaiting? {
          StartAgrees(s, ch);
        } else if c.Discarding? || c.DiscardFiring? {
          DiscardAgrees(s, ch);
        } else if c.DiscardWaiting? || c.DiscardRecording? {
          DiscardEndAgrees(s, ch);
        } else if c.ShutdownFiring? || c.ShutdownWaiting? {
          ShutdownAgrees(s, ch);
        } else {
          StopAgrees(s, ch);
        }
    }
  }

  /** Status and task agree in every session that strands nothing: each service has at most one
      unfinished task, and what is published says truthfully whether it has one. */
  lemma {:induction false} SessionAgrees(sessions: seq<Session>, events: seq<Event>, i: nat)
    requires IsSession(sessions, events) && i < |sessions|
    requires forall k :: 0 <= k < i ==> !Strands(sessions[k], events[k])
    ensures Agree(sessions[i])
    decreases i
  {
    if i == 0 {
      InitAgrees(sessions[0].shared.states.Keys);
    } else {
      SessionAgrees(sessions, events, i - 1);
      AgreesExactly(sessions[i - 1], events[i - 1]);
    }
  }

  /** No unfinished task belongs to the service. */
  predicate Quiet(sh: Shared, id: ServiceId) {
    forall t :: t in sh.tasks && sh.tasks[t].service == id ==> sh.tasks[t].phase.Finished?
  }

  /** In an agreeing session a service never has two unfinished tasks, and a service published as
      stopped or failed has none. */
  lemma AtMostOneTask(s: Session, t: nat, u: nat)
    requires Agree(s) && Unfinished(s.shared, t)
    ensures IsLive(StateOf(s.shared, s.shared.tasks[t].service))
    ensures Unfinished(s.shared, u) && s.shared.tasks[u].service == s.shared.tasks[t].service ==> u == t
  {
    assert StateFits(s, s.shared.tasks[t].service);
  }

  lemma NoTaskIsQuiet(s: Session, id: ServiceId)
    requires OneTask(s) && !HasTask(s, id)
    ensures Quiet(s.shared, id)
  {
    forall t | t in s.shared.tasks && s.shared.tasks[t].service == id
      ensures s.shared.tasks[t].phase.Finished?
    {
      assert Unfinished(s.shared, t) ==> Handle(s, id) == Some(t);
    }
  }

  /** The service the stop in progress is about. */
  function StopTarget(c: Call): Option<ServiceId> {
    match c
    case StopRemoving(id, _, thenStart) => if thenStart then None else Some(id)
    case StopSettling(id, thenStart) => if thenStart then None else Some(id)
    case _ => None
  }

  /** A `stop` that returns Ok leaves its service Stopped with its task over. */
  lemma StopOkMeansStopped(s: Session, ch: Choice)
    requires Agree(s) && CanHappen(s, Advances(ch)) && StopTarget(s.call.value).Some?
    requires Advance(s.shared, s.call.value, ch).1 == Return(true)
    ensures var v := Happens(s, Advances(ch)); var id := StopTarget(s.call.value).value;
            StateOf(v.shared, id).Stopped? && Quiet(v.shared, id)
  {
    var id := StopTarget(s.call.value).value;
    var v := Happens(s, Advances(ch));
    assert StateFits(s, id);
    StopAgrees(s, ch);
    assert StateFits(v, id);
    NoTaskIsQuiet(v, id);
  }

  /** A `shutdown` that returns Ok leaves every service it settled Stopped with its task over. */
  lemma ShutdownOkMeansStopped(s: Session, id: ServiceId)
    requires Agree(s) && CanHappen(s, Advances(Proceeds)) && s.call.value.ShutdownWaiting?
    requires id in s.call.value.settled
    ensures var v := Happens(s, Advances(Proceeds));
            v.call.None? && StateOf(v.shared, id).Stopped? && Quiet(v.shared, id)
    ensures Advance(s.shared, s.call.value, Proceeds).1 == Return(true)
  {
    assert StateFits(s, id);
    NoTaskIsQuiet(s, id);
  }

  /** The services a shutdown has taken and not forgotten. */
  function Covered(c: Call): set<ServiceId> {
    match c
    case ShutdownFiring(entries, fired) => entries.Keys + fired.Keys
    case ShutdownWaiting(fired, settled, _) => fired.Keys + settled
    case _ => {}
  }

  lemma CoverStep(s: Session, e: Event)
    requires CanHappen(s, e) && s.call.Some? && (s.call.value.ShutdownFiring? || s.call.value.ShutdownWaiting?)
    ensures var v := Happens(s, e);
            v.call.Some? ==> (v.call.value.ShutdownFiring? || v.call.value.ShutdownWaiting?)
                             && Covered(v.call.value) == Covered(s.call.value)
  {
  }

  lemma {:induction false} ShutdownCovers(sessions: seq<Session>, events: seq<Event>, i: nat, j: nat)
    requires IsSession(sessions, events) && i < j < |sessions| && events[i] == Begins(ShutdownRequest)
    requires forall k :: i < k <= j ==> sessions[k].call.Some?
    ensures sessions[j].call.value.ShutdownFiring? || sessions[j].call.value.ShutdownWaiting?
    ensures Covered(sessions[j].call.value) == sessions[i].shared.running.Keys
    decreases j
  {
    if i + 1 < j {
      ShutdownCovers(sessions, events, i, j - 1);
      CoverStep(sessions[j - 1], events[j - 1]);
    } else {
      assert sessions[j] == Happens(sessions[i], events[i]);
    }
  }

  /** A shutdown that runs to its end in a session that strands nothing returns Ok, and every service
      that was in `running` when it began is then Stopped with its task over. */
  lemma ShutdownStopsEverything(sessions: seq<Session>, events: seq<Event>, i: nat, j: nat, id: ServiceId)
    requires IsSession(sessions, events) && i < j < |events| && events[i] == Begins(ShutdownRequest)
    requires forall k :: 0 <= k < j ==> !Strands(sessions[k], events[k])
    requires forall k :: i < k <= j ==> sessions[k].call.Some?
    requires events[j] == Advances(Proceeds) && sessions[j].call.value.ShutdownWaiting?
    requires id in sessions[i].shared.running
    ensures sessions[j + 1].call.None?
    ensures StateOf(sessions[j + 1].shared, id).Stopped? && Quiet(sessions[j + 1].shared, id)
    ensures Advance(sessions[j].shared, sessions[j].call.value, Proceeds).1 == Return(true)
  {
    SessionAgrees(sessions, events, j);
    ShutdownCovers(sessions, events, i, j);
    ShutdownOkMeansStopped(sessions[j], id);
  }

  // ---------------------------------------------------------------- a session that goes wrong

  lemma ExtendSession(sessions: seq<Session>, events: seq<Event>, e: Event)
    requires IsSession(sessions, events) && CanHappen(sessions[|events|], e)
    ensures IsSession(sessions + [Happens(sessions[|events|], e)], events + [e])
  {
    var more, longer := sessions + [Happens(sessions[|events|], e)], events + [e];
    forall i | 0 <= i < |longer|
      ensures CanHappen(more[i], longer[i]) && more[i + 1] == Happens(more[i], longer[i])
    {
      if i < |events| {
        assert CanHappen(sessions[i], events[i]);
      }
    }
  }

  /** Some session ends in exactly this state. */
  ghost predicate Occurs(s: Session) {
    exists sessions: seq<Session>, events: seq<Event> :: IsSession(sessions, events) && sessions[|events|] == s
  }

  lemma OccursNext(s: Session, e: Event)
    requires Occurs(s) && CanHappen(s, e)
    ensures Occurs(Happens(s, e))
  {
    var sessions: seq<Session>, events: seq<Event> :| IsSession(sessions, events) && sessions[|events|] == s;
    ExtendSession(sessions, events, e);
    var more, longer := sessions + [Happens(s, e)], events + [e];
    assert IsSession(more, longer) && more[|longer|] == Happens(s, e);
  }

  lemma OccursSpawned(sh: Shared, id: ServiceId, t: nat)
    requires Occurs(Session(sh, None)) && id in sh.states && sh.states[id].Stopped?
    requires id !in sh.running && t !in sh.tasks
    ensures Occurs(Session(Shared(sh.states[id := Starting], sh.running[id := t], sh.tasks[t := Task(id, Serving, Waiting)]),
                           Some(Awaiting(id))))
  {
    OccursNext(Session(sh, None), Begins(StartRequest(id)));
    OccursNext(Session(sh, Some(Checking(id))), Advances(Proceeds));
    OccursNext(Session(sh, Some(Spawning(id))), Advances(Spawned(t)));
  }

  /** A stopped service can be started: it reports ready before the caller polls. */
  lemma OccursStarted(sh: Shared, id: ServiceId, t: nat)
    requires Occurs(Session(sh, None)) && id in sh.states && sh.states[id].Stopped?
    requires id !in sh.running && t !in sh.tasks
    ensures Occurs(Session(Shared(sh.states[id := Running], sh.running[id := t], sh.tasks[t := Task(id, Serving, Waiting)]), None))
  {
    OccursSpawned(sh, id, t);
    var up := Shared(sh.states[id := Starting], sh.running[id := t], sh.tasks[t := Task(id, Serving, Waiting)]);
    OccursNext(Session(up, Some(Awaiting(id))), TaskRuns(t, ReportsReady));
    var ready := up.(states := up.states[id := Running]);
    assert ready.states == sh.states[id := Running];
    OccursNext(Session(ready, Some(Awaiting(id))), Advances(Proceeds));
  }

  /** A service that is published as running and not over, although no entry stands for its task any
      more: the sender was dropped, so the task is cancelled, but nobody waits for it. */
  ghost predicate LeftBehind(v: Session, id: ServiceId, t: nat) {
    && v.call.None? && v.shared.running == map[] && StateOf(v.shared, id).Running? && id in v.shared.states
    && Unfinished(v.shared, t) && v.shared.tasks[t] == Task(id, Serving, SenderDropped)
  }

  /** The task of `id` ends with an error. */
  lemma OccursFailed(sh: Shared, call: Option<Call>, id: ServiceId, t: nat)
    requires Occurs(Session(sh, call)) && t in sh.tasks && sh.tasks[t] == Task(id, Serving, Waiting)
    requires id in sh.states && sh.states[id].Running?
    ensures Occurs(Session(sh.(states := sh.states[id := Failed], tasks := sh.tasks[t := Task(id, Finished, Waiting)]), call))
  {
    OccursNext(Session(sh, call), TaskRuns(t, RunReturns(false)));
    var b := RunTask(sh, t, RunReturns(false));
    OccursNext(Session(b, call), TaskRuns(t, Observes));
    var c := RunTask(b, t, Observes);
    OccursNext(Session(c, call), TaskRuns(t, Records));
    assert RunTask(c, t, Records).tasks == sh.tasks[t := Task(id, Finished, Waiting)];
  }

  /** A shutdown took everything and has read that `id` is live. */
  lemma OccursSeenLive(sh: Shared, id: ServiceId) returns (entries: map<ServiceId, Entry>)
    requires Occurs(Session(sh, None)) && id in sh.states && sh.states[id].Running? && id in sh.running
    ensures Occurs(Session(sh.(running := map[]), Some(ShutdownFiring(entries, map[]))))
    ensures entries.Keys == sh.running.Keys && forall i :: i in entries ==> entries[i].task == sh.running[i]
    ensures entries[id].stage.SeenLive?
  {
    OccursNext(Session(sh, None), Begins(ShutdownRequest));
    var begun := Happens(Session(sh, None), Begins(ShutdownRequest));
    OccursNext(begun, Advances(On(id)));
    entries := Happens(begun, Advances(On(id))).call.value.entries;
  }

  /** Two running services, the first of which fails while a shutdown is about to mark it. */
  lemma OccursStranded(sh: Shared, first: ServiceId, second: ServiceId)
    requires first != second && Occurs(Session(sh, None))
    requires first in sh.states && second in sh.states && sh.states[first].Running? && sh.states[second].Running?
    requires first in sh.running && second in sh.running && sh.running[second] == 1
    requires 0 in sh.tasks && sh.tasks[0] == Task(first, Serving, Waiting)
    requires 1 in sh.tasks && sh.tasks[1] == Task(second, Serving, Waiting)
    ensures exists v: Session :: Occurs(v) && LeftBehind(v, second, 1)
  {
    var entries := OccursSeenLive(sh, first);
    var call := Some(ShutdownFiring(entries, map[]));
    OccursFailed(sh.(running := map[]), call, first, 0);
    var failed := Shared(sh.states[first := Failed], map[], sh.tasks[0 := Task(first, Finished, Waiting)]);
    OccursNext(Session(failed, call), Advances(On(first)));
    assert LeftBehind(Happens(Session(failed, call), Advances(On(first))), second, 1);
  }

  /** After such a shutdown, `stop` returns Ok and changes nothing: the service is still published as
      running and its task is not over. */
  lemma StopSeesNothing(s: Session, id: ServiceId)
    requires Occurs(s) && s.call.None? && s.shared.running == map[] && id in s.shared.states && s.shared.states[id].Running?
    ensures var removing := Session(s.shared, Some(StopRemoving(id, Running, false)));
            && Occurs(removing)
            && Advance(s.shared, removing.call.value, Proceeds) == (s.shared, Return(true))
  {
    OccursNext(s, Begins(StopRequest(id)));
    OccursNext(Session(s.shared, Some(StopOpening(id, false))), Advances(Proceeds));
  }

  /** The exception is real: from a fresh coordinator with two services, serialised calls and no
      deadline reached, a session exists in which `stop` returns Ok for a service that is published as
      running and whose cancelled task is not over. */
  lemma SerialisedStopCanLie()
    ensures exists s: Session, t: nat ::
              && Occurs(s) && s.call == Some(StopRemoving(ServerSharingId, Running, false))
              && Advance(s.shared, s.call.value, Proceeds) == (s.shared, Return(true))
              && StateOf(s.shared, ServerSharingId).Running?
              && Unfinished(s.shared, t) && s.shared.tasks[t] == Task(ServerSharingId, Serving, SenderDropped)
  {
    var ids := {ClientProxyId, ServerSharingId};
    var s0 := InitShared(ids);
    assert IsSession([Session(s0, None)], []);
    assert s0.states == map[ClientProxyId := Stopped, ServerSharingId := Stopped];
    assert Occurs(Session(s0, None));
    OccursStarted(s0, ClientProxyId, 0);
    var s1 := Shared(s0.states[ClientProxyId := Running], map[ClientProxyId := 0], map[0 := Task(ClientProxyId, Serving, Waiting)]);
    OccursStarted(s1, ServerSharingId, 1);
    var s2 := Shared(s1.states[ServerSharingId := Running], s1.running[ServerSharingId := 1],
                     s1.tasks[1 := Task(ServerSharingId, Serving, Waiting)]);
    OccursStranded(s2, ClientProxyId, ServerSharingId);
    var v: Session :| Occurs(v) && LeftBehind(v, ServerSharingId, 1);
    StopSeesNothing(v, ServerSharingId);
    assert Unfinished(Session(v.shared, Some(StopRemoving(ServerSharingId, Running, false))).shared, 1);
  }
}
