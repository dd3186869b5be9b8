/** The runtime coordinator (application/coordinator.rs): control calls that start, stop and shut
    down services, interleaved with the supervised tasks themselves.

    Every control call is a small program; one `Advance` step is what it does between two points
    where another task may run. A `RunningService` entry owns the only sender that cancels its task:
    it sits in the `running` map, or in the local variables of one call, and a call that returns while
    it still owns entries drops them. */
module Coordinator {
  import opened Common
  import opened StatusRegistry

  /** What the watch channel handed to a task says (application/runtime.rs). */
  datatype Signal = Waiting | Fired | SenderDropped

  /** `Shutdown::cancelled` resolves for a task whose signal is not waiting. */
  predicate IsCancelled(s: Signal) {
    !s.Waiting?
  }

  /** A supervised task: `run` is executing, has returned, was matched against the state it saw, or
      the outcome is recorded and the task is over. */
  datatype Phase = Serving | Returned(ok: bool) | Observed(ok: bool, seen: ServiceState) | Finished

  datatype Task = Task(service: ServiceId, phase: Phase, signal: Signal)

  /** What every call and every task shares. `states` is the registry (see StatusRegistry). */
  datatype Shared = Shared(
    states: map<ServiceId, ServiceState>,
    running: map<ServiceId, nat>,
    tasks: map<nat, Task>)

  /** How far `shutdown` got with one entry it took. */
  datatype Stage = Taken | SeenLive | Marked

  datatype Entry = Entry(task: nat, stage: Stage)

  /** Where a control call is. `thenStart` marks the stop inside a start that resets a failure. */
  datatype Call =
    | Checking(id: ServiceId)
    | Spawning(id: ServiceId)
    | Awaiting(id: ServiceId)
    | Discarding(id: ServiceId)
    | DiscardFiring(id: ServiceId, task: nat)
    | DiscardWaiting(id: ServiceId, task: nat)
    | DiscardRecording(id: ServiceId)
    | StopOpening(id: ServiceId, thenStart: bool)
    | StopRemoving(id: ServiceId, seen: ServiceState, thenStart: bool)
    | StopMarking(id: ServiceId, seen: ServiceState, task: nat, thenStart: bool)
    | StopFiring(id: ServiceId, task: nat, thenStart: bool)
    | StopWaiting(id: ServiceId, task: nat, thenStart: bool)
    | StopSettling(id: ServiceId, thenStart: bool)
    | ShutdownFiring(entries: map<ServiceId, Entry>, fired: map<ServiceId, nat>)
    | ShutdownWaiting(fired: map<ServiceId, nat>, settled: set<ServiceId>, stuck: bool)

  /** What happens next in a call, where there is more than one possibility. `TimesOut` is a wait
      that reaches its deadline, `Refused` a failing precondition, `Spawned` names a new task,
      `On` picks the entry a shutdown works on, `Abandoned` is a call whose caller went away. */
  datatype Choice = Proceeds | TimesOut | Refused | Spawned(task: nat) | On(id: ServiceId) | Abandoned

  datatype Outcome = Continue(call: Call) | Return(ok: bool)

  /** The tasks whose senders the call owns and has not fired. */
  function Owned(c: Call): set<nat> {
    match c
    case DiscardFiring(_, t) => {t}
    case StopMarking(_, _, t, _) => {t}
    case StopFiring(_, t, _) => {t}
    case ShutdownFiring(entries, _) => set id | id in entries :: entries[id].task
    case _ => {}
  }

  function Record(sh: Shared, id: ServiceId, next: ServiceState): Shared {
    if id in sh.states && CanTransition(sh.states[id], next) then sh.(states := sh.states[id := next]) else sh
  }

  function Fire(sh: Shared, t: nat): Shared {
    if t in sh.tasks then sh.(tasks := sh.tasks[t := sh.tasks[t].(signal := Fired)]) else sh
  }

  /** A call is over: the senders it still owns are dropped. */
  function DropSenders(sh: Shared, owned: set<nat>): Shared {
    sh.(tasks := map t | t in sh.tasks ::
          if t in owned && sh.tasks[t].signal.Waiting? then sh.tasks[t].(signal := SenderDropped) else sh.tasks[t])
  }

  function Give(sh: Shared, c: Call, ok: bool): (Shared, Outcome) {
    (DropSenders(sh, Owned(c)), Return(ok))
  }

  predicate IsFinished(sh: Shared, t: nat) {
    t in sh.tasks ==> sh.tasks[t].phase.Finished?
  }

  /** The end of a stop that succeeded: the call returns, or the start that asked for it goes on. */
  function StopDone(sh: Shared, id: ServiceId, thenStart: bool): (Shared, Outcome) {
    (sh, if thenStart then Continue(Spawning(id)) else Return(true))
  }

  predicate CanAdvance(sh: Shared, c: Call, ch: Choice) {
    match ch
    case Abandoned => true
    case Proceeds =>
      (match c
       case DiscardWaiting(_, t) => IsFinished(sh, t)
       case StopWaiting(_, t, _) => IsFinished(sh, t)
       case Spawning(_) => false
       case ShutdownFiring(entries, _) => entries == map[]
       case ShutdownWaiting(fired, _, _) => fired == map[]
       case _ => true)
    case TimesOut => c.Awaiting? || c.DiscardWaiting? || c.StopWaiting?
    case Refused => c.Checking?
    case Spawned(t) => c.Spawning? && t !in sh.tasks
    case On(id) =>
      (match c
       case ShutdownFiring(entries, _) => id in entries
       case ShutdownWaiting(fired, _, _) => id in fired
       case _ => false)
  }

  function StateOf(sh: Shared, id: ServiceId): ServiceState {
    if id in sh.states then sh.states[id] else Stopped
  }

  /** `start` after its gate: both preflights and `prepare` passed, then the state is read again. */
  function Checked(sh: Shared, id: ServiceId): (Shared, Outcome) {
    if StateOf(sh, id).Failed? then (sh, Continue(StopOpening(id, true))) else (sh, Continue(Spawning(id)))
  }

  /** The section of `start` under the `running` lock. */
  function Spawn(sh: Shared, id: ServiceId, t: nat): (Shared, Outcome) {
    if id in sh.running || !CanTransition(StateOf(sh, id), Starting) then (sh, Return(false))
    else
      (sh.(states := sh.states[id := Starting],
           running := sh.running[id := t],
           tasks := sh.tasks[t := Task(id, Serving, Waiting)]),
       Continue(Awaiting(id)))
  }

  function Polled(sh: Shared, id: ServiceId): (Shared, Outcome) {
    match StateOf(sh, id)
    case Running => (sh, Return(true))
    case Failed => (sh, Continue(Discarding(id)))
    case _ => (sh, Continue(Awaiting(id)))
  }

  function StopRemoved(sh: Shared, id: ServiceId, seen: ServiceState, thenStart: bool): (Shared, Outcome) {
    if id in sh.running then
      (sh.(running := sh.running - {id}), Continue(StopMarking(id, seen, sh.running[id], thenStart)))
    else StopDone(Record(sh, id, Stopped), id, thenStart)
  }

  function StopMarked(sh: Shared, id: ServiceId, seen: ServiceState, t: nat, thenStart: bool): (Shared, Outcome) {
    if !IsLive(seen) then (sh, Continue(StopFiring(id, t, thenStart)))
    else if CanTransition(StateOf(sh, id), Stopping) then
      (Record(sh, id, Stopping), Continue(StopFiring(id, t, thenStart)))
    else Give(sh, StopMarking(id, seen, t, thenStart), false)
  }

  /** `settle_stopped`. */
  function Settled(sh: Shared, id: ServiceId): Shared {
    if StateOf(sh, id).Stopped? then sh else Record(sh, id, Stopped)
  }

  /** `shutdown` on one entry: read the state, mark it stopping when it is live, then fire. */
  function ShutdownStep(sh: Shared, entries: map<ServiceId, Entry>, fired: map<ServiceId, nat>, id: ServiceId): (Shared, Outcome)
    requires id in entries
  {
    var e := entries[id];
    match e.stage
    case Taken =>
      var stage := if IsLive(StateOf(sh, id)) then SeenLive else Marked;
      (sh, Continue(ShutdownFiring(entries[id := e.(stage := stage)], fired)))
    case SeenLive =>
      if CanTransition(StateOf(sh, id), Stopping) then
        (Record(sh, id, Stopping), Continue(ShutdownFiring(entries[id := e.(stage := Marked)], fired)))
      else Give(sh, ShutdownFiring(entries, fired), false)
    case Marked =>
      (Fire(sh, e.task), Continue(ShutdownFiring(entries - {id}, fired[id := e.task])))
  }

  /** Waiting for one fired task: it ended and is settled, or the deadline passed. */
  function ShutdownWaited(sh: Shared, c: Call, id: ServiceId): (Shared, Outcome)
    requires c.ShutdownWaiting? && id in c.fired
  {
    if IsFinished(sh, c.fired[id]) then
      (Settled(sh, id), Continue(ShutdownWaiting(c.fired - {id}, c.settled + {id}, c.stuck)))
    else
      (Record(sh, id, Failed), Continue(ShutdownWaiting(c.fired - {id}, c.settled, true)))
  }

  function Advance(sh: Shared, c: Call, ch: Choice): (Shared, Outcome)
    requires CanAdvance(sh, c, ch)
  {
    if ch.Abandoned? || ch.Refused? then Give(sh, c, false)
    else
      match c
      case Checking(id) => Checked(sh, id)
      case Spawning(id) => Spawn(sh, id, ch.task)
      case Awaiting(id) => if ch.TimesOut? then (sh, Continue(Discarding(id))) else Polled(sh, id)
      case Discarding(id) =>
        if id in sh.running then
          (sh.(running := sh.running - {id}), Continue(DiscardFiring(id, sh.running[id])))
        else (sh, Continue(DiscardRecording(id)))
      case DiscardFiring(id, t) => (Fire(sh, t), Continue(DiscardWaiting(id, t)))
      case DiscardWaiting(id, _) => (sh, Continue(DiscardRecording(id)))
      case DiscardRecording(id) =>
        Give(if StateOf(sh, id).Starting? then Record(sh, id, Failed) else sh, c, false)
      case StopOpening(id, thenStart) =>
        if StateOf(sh, id).Stopped? then Give(sh, c, false)
        else (sh, Continue(StopRemoving(id, StateOf(sh, id), thenStart)))
      case StopRemoving(id, seen, thenStart) => StopRemoved(sh, id, seen, thenStart)
      case StopMarking(id, seen, t, thenStart) => StopMarked(sh, id, seen, t, thenStart)
      case StopFiring(id, t, thenStart) => (Fire(sh, t), Continue(StopWaiting(id, t, thenStart)))
      case StopWaiting(id, t, thenStart) =>
        if ch.TimesOut? then Give(Record(sh, id, Failed), c, false)
        else (sh, Continue(StopSettling(id, thenStart)))
      case StopSettling(id, thenStart) => StopDone(Settled(sh, id), id, thenStart)
      case ShutdownFiring(entries, fired) =>
        if ch.On? then ShutdownStep(sh, entries, fired, ch.id)
        else (sh, Continue(ShutdownWaiting(fired, {}, false)))
      case ShutdownWaiting(fired, _, stuck) =>
        if ch.On? then ShutdownWaited(sh, c, ch.id) else Give(sh, c, !stuck)
  }

  /** What a supervised task does by itself. */
  datatype TaskStep = ReportsReady | RunReturns(ok: bool) | Observes | Records

  predicate CanRun(sh: Shared, t: nat, s: TaskStep) {
    && t in sh.tasks
    && match s
       case ReportsReady => sh.tasks[t].phase.Serving?
       case RunReturns(_) => sh.tasks[t].phase.Serving?
       case Observes => sh.tasks[t].phase.Returned?
       case Records => sh.tasks[t].phase.Observed?
  }

  /** `supervise` and the service it drives. */
  function RunTask(sh: Shared, t: nat, s: TaskStep): Shared
    requires CanRun(sh, t, s)
  {
    var task := sh.tasks[t];
    match s
    case ReportsReady => Record(sh, task.service, Running)
    case RunReturns(ok) => sh.(tasks := sh.tasks[t := task.(phase := Returned(ok))])
    case Observes =>
      sh.(tasks := sh.tasks[t := task.(phase := Observed(task.phase.ok, StateOf(sh, task.service)))])
    case Records =>
      var done := sh.(tasks := sh.tasks[t := task.(phase := Finished)]);
      if task.phase.ok && task.phase.seen.Stopping? then Record(done, task.service, Stopped)
      else if task.phase.seen.Stopped? then done
      else Record(done, task.service, Failed)
  }

  /** The first step of each control call; a call that is rejected at once changes nothing. */
  datatype Request = StartRequest(id: ServiceId) | StopRequest(id: ServiceId) | ShutdownRequest

  function Open(sh: Shared, r: Request): (Shared, Outcome) {
    match r
    case StartRequest(id) =>
      if id !in sh.states || IsLive(sh.states[id]) then (sh, Return(false)) else (sh, Continue(Checking(id)))
    case StopRequest(id) =>
      if id !in sh.states then (sh, Return(false)) else (sh, Continue(StopOpening(id, false)))
    case ShutdownRequest =>
      if sh.running == map[] then (sh, Return(true))
      else
        (sh.(running := map[]),
         Continue(ShutdownFiring(map id | id in sh.running :: Entry(sh.running[id], Taken), map[])))
  }

  function InitShared(ids: set<ServiceId>): Shared {
    Shared(map id | id in ids :: Stopped, map[], map[])
  }

  // ---------------------------------------------------------------- no orphaned service

  /** The whole coordinator: any number of calls in progress. */
  datatype World = World(shared: Shared, calls: map<nat, Call>)

  datatype Move = Begin(call: nat, request: Request) | Step(call: nat, choice: Choice) | ByTask(task: nat, step: TaskStep)

  /** The service whose start gate the call holds. */
  function Gate(c: Call): Option<ServiceId> {
    match c
    case Checking(id) => Some(id)
    case Spawning(id) => Some(id)
    case Awaiting(id) => Some(id)
    case Discarding(id) => Some(id)
    case DiscardFiring(id, _) => Some(id)
    case DiscardWaiting(id, _) => Some(id)
    case DiscardRecording(id) => Some(id)
    case StopOpening(id, thenStart) => if thenStart then Some(id) else None
    case StopRemoving(id, _, thenStart) => if thenStart then Some(id) else None
    case StopMarking(id, _, _, thenStart) => if thenStart then Some(id) else None
    case StopFiring(id, _, thenStart) => if thenStart then Some(id) else None
    case StopWaiting(id, _, thenStart) => if thenStart then Some(id) else None
    case StopSettling(id, thenStart) => if thenStart then Some(id) else None
    case _ => None
  }

  predicate GateFree(w: World, r: Request) {
    r.StartRequest? ==> forall c :: c in w.calls ==> Gate(w.calls[c]) != Some(r.id)
  }

  predicate CanMove(w: World, m: Move) {
    match m
    case Begin(c, _) => c !in w.calls
    case Step(c, ch) => c in w.calls && CanAdvance(w.shared, w.calls[c], ch)
    case ByTask(t, s) => CanRun(w.shared, t, s)
  }

  function After(w: World, c: nat, r: (Shared, Outcome)): World {
    match r.1
    case Continue(call) => World(r.0, w.calls[c := call])
    case Return(_) => World(r.0, w.calls - {c})
  }

  function NextWorld(w: World, m: Move): World
    requires CanMove(w, m)
  {
    match m
    case Begin(c, request) => if GateFree(w, request) then After(w, c, Open(w.shared, request)) else w
    case Step(c, ch) => After(w, c, Advance(w.shared, w.calls[c], ch))
    case ByTask(t, s) => w.(shared := RunTask(w.shared, t, s))
  }

  predicate IsWorldRun(worlds: seq<World>, moves: seq<Move>) {
    && |worlds| == |moves| + 1
    && worlds[0] == World(InitShared(worlds[0].shared.states.Keys), map[])
    && forall i :: 0 <= i < |moves| ==> CanMove(worlds[i], moves[i]) && worlds[i + 1] == NextWorld(worlds[i], moves[i])
  }

  /** Entries in `running` are filed under the service of their task. */
  ghost predicate Filed(sh: Shared) {
    forall id :: id in sh.running ==> sh.running[id] in sh.tasks && sh.tasks[sh.running[id]].service == id
  }

  predicate InRunning(sh: Shared, t: nat) {
    t in sh.tasks && sh.tasks[t].service in sh.running && sh.running[sh.tasks[t].service] == t
  }

  predicate Uncancelled(sh: Shared, t: nat) {
    t in sh.tasks && !IsCancelled(sh.tasks[t].signal)
  }

  /** Where the sender of an uncancelled task is after a call advanced: in `running`, with the call,
      or untouched by it. */
  ghost predicate Accounted(sh: Shared, owned: set<nat>, after: Shared, kept: set<nat>) {
    && Filed(after)
    && (forall t :: t in sh.tasks ==> t in after.tasks && after.tasks[t].service == sh.tasks[t].service)
    && (forall t :: t in sh.tasks && IsCancelled(sh.tasks[t].signal) ==> IsCancelled(after.tasks[t].signal))
    && (forall t :: t in sh.tasks && InRunning(after, t) ==> InRunning(sh, t))
    && forall t :: Uncancelled(after, t) ==>
         InRunning(after, t) || t in kept || (Uncancelled(sh, t) && !InRunning(sh, t) && t !in owned)
  }

  function Kept(o: Outcome): set<nat> {
    if o.Continue? then Owned(o.call) else {}
  }

  lemma SameAccounted(sh: Shared, owned: set<nat>, after: Shared, kept: set<nat>)
    requires Filed(sh) && after.running == sh.running && after.tasks == sh.tasks && owned <= kept
    ensures Accounted(sh, owned, after, kept)
  {
  }

  lemma FireAccounted(sh: Shared, owned: set<nat>, t: nat, kept: set<nat>)
    requires Filed(sh) && owned - {t} <= kept
    ensures Accounted(sh, owned, Fire(sh, t), kept)
  {
  }

  lemma DropAccounted(sh: Shared, owned: set<nat>, before: Shared)
    requires Filed(sh) && before.running == sh.running && before.tasks == sh.tasks
    ensures Accounted(sh, owned, DropSenders(before, owned), {})
  {
  }

  lemma TakeAccounted(sh: Shared, id: ServiceId)
    requires Filed(sh) && id in sh.running
    ensures Accounted(sh, {}, sh.(running := sh.running - {id}), {sh.running[id]})
  {
  }

  lemma SpawnAccounted(sh: Shared, id: ServiceId, t: nat)
    requires Filed(sh) && t !in sh.tasks
    ensures Accounted(sh, {}, Spawn(sh, id, t).0, {})
  {
  }

  lemma ShutdownAccounted(sh: Shared, entries: map<ServiceId, Entry>, fired: map<ServiceId, nat>, id: ServiceId)
    requires Filed(sh) && id in entries
    ensures var r := ShutdownStep(sh, entries, fired, id);
            Accounted(sh, Owned(ShutdownFiring(entries, fired)), r.0, Kept(r.1))
  {
    var r := ShutdownStep(sh, entries, fired, id);
    var owned := Owned(ShutdownFiring(entries, fired));
    if r.1.Return? {
      DropAccounted(sh, owned, sh);
    } else {
      var left := r.1.call.entries;
      forall t | t in owned && !(entries[id].stage.Marked? && t == entries[id].task)
        ensures t in Kept(r.1)
      {
        var k :| k in entries && entries[k].task == t;
        assert k in left && left[k].task == t;
      }
      if entries[id].stage.Marked? {
        FireAccounted(sh, owned, entries[id].task, Kept(r.1));
      } else {
        SameAccounted(sh, owned, r.0, Kept(r.1));
      }
    }
  }

  lemma StartAccounted(sh: Shared, c: Call, ch: Choice)
    requires Filed(sh) && CanAdvance(sh, c, ch) && !ch.Abandoned? && !ch.Refused?
    requires c.Checking? || c.Spawning? || c.Awaiting?
    ensures var r := Advance(sh, c, ch); Accounted(sh, {}, r.0, Kept(r.1))
  {
    if c.Spawning? {
      SpawnAccounted(sh, c.id, ch.task);
    } else {
      SameAccounted(sh, {}, sh, {});
    }
  }

  lemma DiscardAccounted(sh: Shared, c: Call, ch: Choice)
    requires Filed(sh) && CanAdvance(sh, c, ch) && !ch.Abandoned? && !ch.Refused?
    requires c.Discarding? || c.DiscardFiring? || c.DiscardWaiting? || c.DiscardRecording?
    ensures var r := Advance(sh, c, ch); Accounted(sh, Owned(c), r.0, Kept(r.1))
  {
    if c.DiscardFiring? {
      FireAccounted(sh, {c.task}, c.task, {});
    } else if c.DiscardRecording? {
      DropAccounted(sh, {}, if StateOf(sh, c.id).Starting? then Record(sh, c.id, Failed) else sh);
    } else if c.Discarding? && c.id in sh.running {
      TakeAccounted(sh, c.id);
    } else {
      SameAccounted(sh, {}, sh, {});
    }
  }

  lemma StopAccounted(sh: Shared, c: Call, ch: Choice)
    requires Filed(sh) && CanAdvance(sh, c, ch) && !ch.Abandoned? && !ch.Refused?
    requires c.StopOpening? || c.StopRemoving? || c.StopFiring? || c.StopWaiting? || c.StopSettling?
    ensures var r := Advance(sh, c, ch); Accounted(sh, Owned(c), r.0, Kept(r.1))
  {
    SameAccounted(sh, {}, sh, {});
    if c.StopFiring? {
      FireAccounted(sh, {c.task}, c.task, {});
    } else if c.StopOpening? {
      DropAccounted(sh, {}, sh);
    } else if c.StopWaiting? {
      DropAccounted(sh, {}, Record(sh, c.id, Failed));
    } else if c.StopRemoving? && c.id in sh.running {
      TakeAccounted(sh, c.id);
    } else {
      SameAccounted(sh, {}, Record(sh, c.id, Stopped), {});
    }
  }

  lemma MarkAccounted(sh: Shared, c: Call, ch: Choice)
    requires Filed(sh) && CanAdvance(sh, c, ch) && ch.Proceeds? && c.StopMarking?
    ensures var r := Advance(sh, c, ch); Accounted(sh, Owned(c), r.0, Kept(r.1))
  {
    if Advance(sh, c, ch).1.Return? {
      DropAccounted(sh, Owned(c), sh);
    } else {
      SameAccounted(sh, {c.task}, Advance(sh, c, ch).0, {c.task});
    }
  }

  lemma WaitAccounted(sh: Shared, c: Call, ch: Choice)
    requires Filed(sh) && CanAdvance(sh, c, ch) && !ch.Abandoned? && !ch.Refused? && c.ShutdownWaiting?
    ensures var r := Advance(sh, c, ch); Accounted(sh, {}, r.0, Kept(r.1))
  {
    var r := Advance(sh, c, ch);
    if ch.On? {
      assert r.0.running == sh.running && r.0.tasks == sh.tasks;
      SameAccounted(sh, {}, r.0, {});
    } else {
      DropAccounted(sh, {}, sh);
    }
  }

  lemma WindDownAccounted(sh: Shared, c: Call, ch: Choice)
    requires Filed(sh) && CanAdvance(sh, c, ch) && !ch.Abandoned? && !ch.Refused? && c.ShutdownFiring?
    ensures var r := Advance(sh, c, ch); Accounted(sh, Owned(c), r.0, Kept(r.1))
  {
    if ch.On? {
      ShutdownAccounted(sh, c.entries, c.fired, ch.id);
    } else {
      assert Owned(c) == {};
      SameAccounted(sh, {}, sh, {});
    }
  }

  /** One step of any call accounts for every sender. */
  lemma AdvanceAccounted(sh: Shared, c: Call, ch: Choice)
    requires Filed(sh) && CanAdvance(sh, c, ch)
    ensures var r := Advance(sh, c, ch); Accounted(sh, Owned(c), r.0, Kept(r.1))
  {
    if ch.Abandoned? || ch.Refused? {
      DropAccounted(sh, Owned(c), sh);
    } else if c.Checking? || c.Spawning? || c.Awaiting? {
      StartAccounted(sh, c, ch);
    } else if c.Discarding? || c.DiscardFiring? || c.DiscardWaiting? || c.DiscardRecording? {
      DiscardAccounted(sh, c, ch);
    } else if c.StopMarking? {
      MarkAccounted(sh, c, ch);
    } else if c.ShutdownFiring? {
      WindDownAccounted(sh, c, ch);
    } else if c.ShutdownWaiting? {
      WaitAccounted(sh, c, ch);
    } else {
      StopAccounted(sh, c, ch);
    }
  }

  lemma OpenAccounted(sh: Shared, r: Request)
    requires Filed(sh)
    ensures var o := Open(sh, r); Accounted(sh, {}, o.0, Kept(o.1))
  {
    if r.ShutdownRequest? && sh.running != map[] {
      var entries := map id | id in sh.running :: Entry(sh.running[id], Taken);
      forall t | InRunning(sh, t)
        ensures t in Kept(Open(sh, r).1)
      {
        assert entries[sh.tasks[t].service].task == t;
      }
    }
  }

  lemma PhaseAccounted(sh: Shared, t: nat, phase: Phase, after: Shared)
    requires Filed(sh) && t in sh.tasks
    requires after.running == sh.running && after.tasks == sh.tasks[t := sh.tasks[t].(phase := phase)]
    ensures Accounted(sh, {}, after, {})
  {
  }

  lemma TaskAccounted(sh: Shared, t: nat, s: TaskStep)
    requires Filed(sh) && CanRun(sh, t, s)
    ensures Accounted(sh, {}, RunTask(sh, t, s), {})
  {
    var after := RunTask(sh, t, s);
    if s.ReportsReady? {
      SameAccounted(sh, {}, after, {});
    } else {
      PhaseAccounted(sh, t, after.tasks[t].phase, after);
    }
  }

  /** An uncancelled task can still be reached: its sender is in `running`, or a call owns it. */
  ghost predicate NoOrphan(w: World) {
    && Filed(w.shared)
    && forall t :: Uncancelled(w.shared, t) ==>
         InRunning(w.shared, t) || exists c :: c in w.calls && t in Owned(w.calls[c])
  }

  lemma NoOrphanAfter(w: World, c: nat, owned: set<nat>, r: (Shared, Outcome))
    requires NoOrphan(w) && Accounted(w.shared, owned, r.0, Kept(r.1))
    requires owned == if c in w.calls then Owned(w.calls[c]) else {}
    ensures NoOrphan(After(w, c, r))
  {
    var v := After(w, c, r);
    forall t | Uncancelled(v.shared, t) && !InRunning(v.shared, t)
      ensures exists k :: k in v.calls && t in Owned(v.calls[k])
    {
      if t in Kept(r.1) {
        assert c in v.calls && t in Owned(v.calls[c]);
      } else {
        var k :| k in w.calls && t in Owned(w.calls[k]);
        assert k != c && v.calls[k] == w.calls[k];
      }
    }
  }

  lemma NoOrphanStep(w: World, m: Move)
    requires NoOrphan(w) && CanMove(w, m)
    ensures NoOrphan(NextWorld(w, m))
  {
    match m {
      case Begin(c, request) =>
        OpenAccounted(w.shared, request);
        if GateFree(w, request) {
          NoOrphanAfter(w, c, {}, Open(w.shared, request));
        }
      case Step(c, ch) =>
        AdvanceAccounted(w.shared, w.calls[c], ch);
        NoOrphanAfter(w, c, Owned(w.calls[c]), Advance(w.shared, w.calls[c], ch));
      case ByTask(t, s) =>
        TaskAccounted(w.shared, t, s);
    }
  }

  /** No orphaned service: in every run, with any number of overlapping calls, deadlines that pass,
      rejected transitions, abandoned calls and services that end by themselves, each task that was
      not cancelled has its sender in `running` or in a call that is still in progress. */
  lemma {:induction false} NoOrphanEver(worlds: seq<World>, moves: seq<Move>, i: nat)
    requires IsWorldRun(worlds, moves) && i < |worlds|
    ensures NoOrphan(worlds[i])
    decreases i
  {
    if i > 0 {
      NoOrphanEver(worlds, moves, i - 1);
      NoOrphanStep(worlds[i - 1], moves[i - 1]);
    }
  }

  /** The call still owns the sender, or the task is cancelled. */
  ghost predicate HeldOrCancelled(w: World, c: nat, t: nat) {
    && t in w.shared.tasks
    && (IsCancelled(w.shared.tasks[t].signal) || (!InRunning(w.shared, t) && c in w.calls && t in Owned(w.calls[c])))
  }

  lemma HeldAfter(w: World, k: nat, r: (Shared, Outcome), c: nat, t: nat)
    requires HeldOrCancelled(w, c, t)
    requires Accounted(w.shared, if k in w.calls then Owned(w.calls[k]) else {}, r.0, Kept(r.1))
    ensures HeldOrCancelled(After(w, k, r), c, t)
  {
  }

  lemma HeldStep(w: World, m: Move, c: nat, t: nat)
    requires Filed(w.shared) && CanMove(w, m) && HeldOrCancelled(w, c, t)
    ensures HeldOrCancelled(NextWorld(w, m), c, t)
  {
    match m {
      case Begin(k, request) =>
        OpenAccounted(w.shared, request);
        if GateFree(w, request) {
          HeldAfter(w, k, Open(w.shared, request), c, t);
        }
      case Step(k, ch) =>
        AdvanceAccounted(w.shared, w.calls[k], ch);
        HeldAfter(w, k, Advance(w.shared, w.calls[k], ch), c, t);
      case ByTask(u, s) =>
        TaskAccounted(w.shared, u, s);
    }
  }

  lemma {:induction false} HeldRun(worlds: seq<World>, moves: seq<Move>, i: nat, j: nat, c: nat, t: nat)
    requires IsWorldRun(worlds, moves) && i <= j < |worlds| && HeldOrCancelled(worlds[i], c, t)
    ensures HeldOrCancelled(worlds[j], c, t)
    decreases j
  {
    if i < j {
      HeldRun(worlds, moves, i, j - 1, c, t);
      NoOrphanEver(worlds, moves, j - 1);
      HeldStep(worlds[j - 1], moves[j - 1], c, t);
    }
  }

  /** Shutdown reaches everything: a shutdown that begins while no other call is in progress leaves
      every task that existed then cancelled, however it ends (all stopped, a deadline passed, a
      transition was rejected, or its caller went away) and whatever other calls begin meanwhile. */
  lemma ShutdownReachesEverything(worlds: seq<World>, moves: seq<Move>, i: nat, j: nat, c: nat, t: nat)
    requires IsWorldRun(worlds, moves) && i < j < |worlds|
    requires moves[i] == Begin(c, ShutdownRequest) && worlds[i].calls == map[]
    requires c !in worlds[j].calls && t in worlds[i].shared.tasks
    ensures t in worlds[j].shared.tasks && IsCancelled(worlds[j].shared.tasks[t].signal)
  {
    var w := worlds[i];
    NoOrphanEver(worlds, moves, i);
    OpenAccounted(w.shared, ShutdownRequest);
    assert worlds[i + 1] == After(w, c, Open(w.shared, ShutdownRequest));
    assert Uncancelled(w.shared, t) ==> InRunning(w.shared, t);
    assert HeldOrCancelled(worlds[i + 1], c, t);
    HeldRun(worlds, moves, i + 1, j, c, t);
  }
}
