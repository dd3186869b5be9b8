/** What `start`, `stop` and `shutdown` return, and what that means, in every run of the coordinator:
    any number of overlapping calls, deadlines that pass and services that end by themselves. */
module CoordinatorAnswers {
  import opened Common
  import opened StatusRegistry
  import opened Coordinator

  function AnswerOf(o: Outcome): Option<bool> {
    if o.Return? then Some(o.ok) else None
  }

  /** The call returns with this move; a start whose gate is taken is refused at once. */
  ghost function Answer(w: World, m: Move, c: nat): Option<bool>
    requires CanMove(w, m)
  {
    match m
    case Begin(k, r) =>
      if k != c then None
      else if !GateFree(w, r) then Some(false)
      else AnswerOf(Open(w.shared, r).1)
    case Step(k, ch) =>
      if k != c then None else AnswerOf(Advance(w.shared, w.calls[c], ch).1)
    case ByTask(_, _) => None
  }

  /** The call that began with move `i` is still in progress at `j`. */
  ghost predicate InProgress(worlds: seq<World>, moves: seq<Move>, i: nat, j: nat, c: nat, r: Request) {
    && IsWorldRun(worlds, moves) && i < j < |worlds| && moves[i] == Begin(c, r)
    && forall k :: i < k <= j ==> c in worlds[k].calls
  }

  /** What holds after the call's first move and carries over each further one holds to the end. */
  lemma {:induction false} AlongCall(p: nat -> bool, i: nat, j: nat)
    requires i < j && p(i + 1) && forall k :: i < k < j && p(k) ==> p(k + 1)
    ensures p(j)
    decreases j
  {
    if i + 1 < j {
      AlongCall(p, i, j - 1);
    }
  }

  lemma Shorter(worlds: seq<World>, moves: seq<Move>, i: nat, k: nat, j: nat, c: nat, r: Request)
    requires InProgress(worlds, moves, i, j, c, r) && i < k <= j
    ensures InProgress(worlds, moves, i, k, c, r)
  {
  }

  lemma OthersLeaveCall(w: World, m: Move, c: nat)
    requires CanMove(w, m) && c in w.calls && !(m.Step? && m.call == c)
    ensures c in NextWorld(w, m).calls && NextWorld(w, m).calls[c] == w.calls[c]
  {
  }

  /** One move of a call in progress: it takes a step of its own, or stays where it is. */
  lemma CallMoves(worlds: seq<World>, moves: seq<Move>, i: nat, j: nat, c: nat, r: Request)
    requires InProgress(worlds, moves, i, j, c, r) && j < |moves|
    ensures var w := worlds[j];
      if moves[j].Step? && moves[j].call == c then
        var (after, outcome) := Advance(w.shared, w.calls[c], moves[j].choice);
        && worlds[j + 1].shared == after
        && (c in worlds[j + 1].calls <==> outcome.Continue?)
        && (outcome.Continue? ==> worlds[j + 1].calls[c] == outcome.call)
      else c in worlds[j + 1].calls && worlds[j + 1].calls[c] == w.calls[c]
  {
    if !(moves[j].Step? && moves[j].call == c) {
      OthersLeaveCall(worlds[j], moves[j], c);
    }
  }

  /** How a call opens: a start of an unknown or live service, a stop of an unknown one, and a shutdown
      with nothing in `running` are answered at once. */
  lemma OpeningAnswers(sh: Shared, r: Request)
    ensures match r
      case StartRequest(id) =>
        if id in sh.states && (sh.states[id].Stopped? || sh.states[id].Failed?) then Open(sh, r).1.Continue?
        else Open(sh, r) == (sh, Return(false))
      case StopRequest(id) => if id in sh.states then Open(sh, r).1.Continue? else Open(sh, r) == (sh, Return(false))
      case ShutdownRequest => if sh.running == map[] then Open(sh, r) == (sh, Return(true)) else Open(sh, r).1.Continue?
  {
  }

  // ---------------------------------------------------------------- tasks that are over stay over

  /** A call never changes how far a task is. */
  lemma AdvanceKeepsPhases(sh: Shared, c: Call, ch: Choice)
    requires CanAdvance(sh, c, ch)
    ensures var after := Advance(sh, c, ch).0;
      forall t :: t in sh.tasks ==> t in after.tasks && after.tasks[t].phase == sh.tasks[t].phase
  {
  }

  lemma RunKeepsFinished(sh: Shared, u: nat, s: TaskStep, t: nat)
    requires CanRun(sh, u, s) && t in sh.tasks
    ensures t in RunTask(sh, u, s).tasks
    ensures sh.tasks[t].phase.Finished? ==> RunTask(sh, u, s).tasks[t].phase.Finished?
  {
  }

  lemma FinishedStep(w: World, m: Move, t: nat)
    requires CanMove(w, m) && t in w.shared.tasks
    ensures t in NextWorld(w, m).shared.tasks
    ensures w.shared.tasks[t].phase.Finished? ==> NextWorld(w, m).shared.tasks[t].phase.Finished?
  {
    match m {
      case Begin(c, r) =>
      case Step(c, ch) => AdvanceKeepsPhases(w.shared, w.calls[c], ch);
      case ByTask(u, s) => RunKeepsFinished(w.shared, u, s, t);
    }
  }

  /** What every move keeps holds from then on. */
  lemma {:induction false} AlongRun(worlds: seq<World>, moves: seq<Move>, kept: World -> bool, i: nat, j: nat)
    requires IsWorldRun(worlds, moves) && i <= j < |worlds| && kept(worlds[i])
    requires forall w, m :: CanMove(w, m) && kept(w) ==> kept(NextWorld(w, m))
    ensures kept(worlds[j])
    decreases j
  {
    if i < j {
      AlongRun(worlds, moves, kept, i, j - 1);
      assert CanMove(worlds[j - 1], moves[j - 1]);
    }
  }

  lemma FinishedStays(worlds: seq<World>, moves: seq<Move>, i: nat, j: nat, t: nat)
    requires IsWorldRun(worlds, moves) && i <= j < |worlds|
    requires t in worlds[i].shared.tasks && worlds[i].shared.tasks[t].phase.Finished?
    ensures t in worlds[j].shared.tasks && worlds[j].shared.tasks[t].phase.Finished?
  {
    var kept := (w: World) => t in w.shared.tasks && w.shared.tasks[t].phase.Finished?;
    forall w, m | CanMove(w, m) && kept(w) ensures kept(NextWorld(w, m)) {
      FinishedStep(w, m, t);
    }
    AlongRun(worlds, moves, kept, i, j);
  }

  /** The task exists and is over. */
  predicate Over(sh: Shared, t: nat) {
    t in sh.tasks && sh.tasks[t].phase.Finished?
  }

  // ---------------------------------------------------------------- start

  /** Where a start of the service can be, its inner stop included. */
  predicate InStart(c: Call, id: ServiceId) {
    match c
    case Checking(i) => i == id
    case Spawning(i) => i == id
    case Awaiting(i) => i == id
    case Discarding(i) => i == id
    case DiscardFiring(i, _) => i == id
    case DiscardWaiting(i, _) => i == id
    case DiscardRecording(i) => i == id
    case StopOpening(i, thenStart) => i == id && thenStart
    case StopRemoving(i, _, thenStart) => i == id && thenStart
    case StopMarking(i, _, _, thenStart) => i == id && thenStart
    case StopFiring(i, _, thenStart) => i == id && thenStart
    case StopWaiting(i, _, thenStart) => i == id && thenStart
    case StopSettling(i, thenStart) => i == id && thenStart
    case ShutdownFiring(_, _) => false
    case ShutdownWaiting(_, _, _) => false
  }

  lemma StartStep(sh: Shared, c: Call, ch: Choice, id: ServiceId)
    requires InStart(c, id) && CanAdvance(sh, c, ch)
    ensures var (after, outcome) := Advance(sh, c, ch);
      match outcome
      case Continue(next) => InStart(next, id)
      case Return(ok) => ok <==> c == Awaiting(id) && ch.Proceeds? && StateOf(sh, id).Running?
  {
  }

  lemma StartBegins(worlds: seq<World>, moves: seq<Move>, i: nat, c: nat, id: ServiceId)
    requires InProgress(worlds, moves, i, i + 1, c, StartRequest(id))
    ensures InStart(worlds[i + 1].calls[c], id)
  {
    assert worlds[i + 1] == NextWorld(worlds[i], moves[i]);
  }

  lemma StartGoesOn(worlds: seq<World>, moves: seq<Move>, i: nat, j: nat, c: nat, id: ServiceId)
    requires InProgress(worlds, moves, i, j + 1, c, StartRequest(id)) && i < j && InStart(worlds[j].calls[c], id)
    ensures InStart(worlds[j + 1].calls[c], id)
  {
    CallMoves(worlds, moves, i, j, c, StartRequest(id));
    if moves[j].Step? && moves[j].call == c {
      StartStep(worlds[j].shared, worlds[j].calls[c], moves[j].choice, id);
    }
  }

  lemma StartStays(worlds: seq<World>, moves: seq<Move>, i: nat, j: nat, c: nat, id: ServiceId)
    requires InProgress(worlds, moves, i, j, c, StartRequest(id))
    ensures InStart(worlds[j].calls[c], id)
  {
    var p := (k: nat) => InProgress(worlds, moves, i, k, c, StartRequest(id)) && InStart(worlds[k].calls[c], id);
    Shorter(worlds, moves, i, i + 1, j, c, StartRequest(id));
    StartBegins(worlds, moves, i, c, id);
    forall k | i < k < j && p(k) ensures p(k + 1) {
      Shorter(worlds, moves, i, k + 1, j, c, StartRequest(id));
      StartGoesOn(worlds, moves, i, k, c, id);
    }
    AlongCall(p, i, j);
  }

  /** What `start` returns: Ok if and only if, waiting for the service to report ready, it reads the state
      Running; so at that moment the service is published as running. */
  lemma StartAnswersExactly(worlds: seq<World>, moves: seq<Move>, i: nat, j: nat, c: nat, id: ServiceId)
    requires InProgress(worlds, moves, i, j, c, StartRequest(id)) && j < |moves| && Answer(worlds[j], moves[j], c).Some?
    ensures Answer(worlds[j], moves[j], c) == Some(true)
            <==> worlds[j].calls[c] == Awaiting(id) && moves[j] == Step(c, Proceeds) && StateOf(worlds[j].shared, id).Running?
  {
    StartStays(worlds, moves, i, j, c, id);
    StartStep(worlds[j].shared, worlds[j].calls[c], moves[j].choice, id);
  }

  // ---------------------------------------------------------------- a start that fails

  predicate Discards(c: Call, id: ServiceId) {
    c == Discarding(id) || (c.DiscardFiring? && c.id == id) || (c.DiscardWaiting? && c.id == id) || c == DiscardRecording(id)
  }

  lemma AwaitingGivesUp(sh: Shared, id: ServiceId, ch: Choice)
    requires CanAdvance(sh, Awaiting(id), ch)
    requires ch.TimesOut? || (ch.Proceeds? && StateOf(sh, id).Failed?)
    ensures Advance(sh, Awaiting(id), ch) == (sh, Continue(Discarding(id)))
  {
  }

  lemma DiscardStep(sh: Shared, c: Call, ch: Choice, id: ServiceId)
    requires Discards(c, id) && CanAdvance(sh, c, ch)
    ensures var (after, outcome) := Advance(sh, c, ch);
      match outcome
      case Continue(next) => Discards(next, id)
      case Return(ok) => !ok
    ensures c == Discarding(id) && ch.Proceeds? ==> id !in Advance(sh, c, ch).0.running
    ensures c.DiscardFiring? && ch.Proceeds? && c.task in sh.tasks ==> Advance(sh, c, ch).0.tasks[c.task].signal.Fired?
  {
  }

  lemma DiscardGoesOn(worlds: seq<World>, moves: seq<Move>, i: nat, k: nat, c: nat, id: ServiceId)
    requires InProgress(worlds, moves, i, k + 1, c, StartRequest(id)) && i < k && Discards(worlds[k].calls[c], id)
    ensures Discards(worlds[k + 1].calls[c], id)
  {
    CallMoves(worlds, moves, i, k, c, StartRequest(id));
    if moves[k].Step? && moves[k].call == c {
      DiscardStep(worlds[k].shared, worlds[k].calls[c], moves[k].choice, id);
    }
  }

  lemma DiscardStays(worlds: seq<World>, moves: seq<Move>, i: nat, k: nat, j: nat, c: nat, id: ServiceId)
    requires InProgress(worlds, moves, i, j, c, StartRequest(id)) && i < k <= j && Discards(worlds[k].calls[c], id)
    ensures Discards(worlds[j].calls[c], id)
  {
    var p := (m: nat) => InProgress(worlds, moves, i, m, c, StartRequest(id)) && Discards(worlds[m].calls[c], id);
    Shorter(worlds, moves, i, k, j, c, StartRequest(id));
    forall m | k - 1 < m < j && p(m) ensures p(m + 1) {
      Shorter(worlds, moves, i, m + 1, j, c, StartRequest(id));
      DiscardGoesOn(worlds, moves, i, m, c, id);
    }
    AlongCall(p, k - 1, j);
  }

  /** A start holds the gate of its service: no two calls ever do, and while one discards, nothing files
      the service again. */
  ghost predicate Gated(w: World) {
    && (forall a, b :: a in w.calls && b in w.calls && a != b && Gate(w.calls[a]).Some? ==> Gate(w.calls[a]) != Gate(w.calls[b]))
    && (forall a :: a in w.calls ==> Unfiled(w.shared, w.calls[a]))
  }

  /** The entry a discard took is not in `running` any more. */
  predicate Unfiled(sh: Shared, c: Call) {
    c.DiscardFiring? || c.DiscardWaiting? || c.DiscardRecording? ==> c.id !in sh.running
  }

  lemma GateStep(sh: Shared, c: Call, ch: Choice)
    requires CanAdvance(sh, c, ch)
    ensures var (after, outcome) := Advance(sh, c, ch);
      && (outcome.Continue? ==> Gate(outcome.call) == Gate(c))
      && (forall id :: id in after.running && id !in sh.running ==> Gate(c) == Some(id))
      && (outcome.Continue? && Unfiled(sh, c) ==> Unfiled(after, outcome.call))
  {
  }

  lemma GatedAfter(w: World, c: nat, r: (Shared, Outcome))
    requires Gated(w)
    requires forall id :: id in r.0.running && id !in w.shared.running ==> c in w.calls && Gate(w.calls[c]) == Some(id)
    requires r.1.Continue? ==> Unfiled(r.0, r.1.call)
    requires r.1.Continue? && c in w.calls ==> Gate(r.1.call) == Gate(w.calls[c])
    requires r.1.Continue? && c !in w.calls ==> forall a :: a in w.calls && Gate(r.1.call).Some? ==> Gate(w.calls[a]) != Gate(r.1.call)
    ensures Gated(After(w, c, r))
  {
    var v := After(w, c, r);
    forall a | a in v.calls ensures Unfiled(v.shared, v.calls[a]) {
      if a != c && (v.calls[a].DiscardFiring? || v.calls[a].DiscardWaiting? || v.calls[a].DiscardRecording?) {
        assert Unfiled(w.shared, w.calls[a]) && Gate(w.calls[a]) == Some(v.calls[a].id);
      }
    }
  }

  lemma GatedStep(w: World, m: Move)
    requires Gated(w) && CanMove(w, m)
    ensures Gated(NextWorld(w, m))
  {
    match m {
      case Begin(c, r) =>
        if GateFree(w, r) {
          GatedAfter(w, c, Open(w.shared, r));
        }
      case Step(c, ch) =>
        GateStep(w.shared, w.calls[c], ch);
        GatedAfter(w, c, Advance(w.shared, w.calls[c], ch));
      case ByTask(t, s) =>
        assert NextWorld(w, m).shared.running == w.shared.running;
    }
  }

  lemma {:induction false} AlwaysGated(worlds: seq<World>, moves: seq<Move>, i: nat)
    requires IsWorldRun(worlds, moves) && i < |worlds|
    ensures Gated(worlds[i])
    decreases i
  {
    if i > 0 {
      AlwaysGated(worlds, moves, i - 1);
      GatedStep(worlds[i - 1], moves[i - 1]);
    }
  }

  /** Every task of the service is cancelled, or a call in progress holds its sender. */
  ghost predicate CancelledOrHeld(w: World, id: ServiceId) {
    forall t :: t in w.shared.tasks && w.shared.tasks[t].service == id ==>
      IsCancelled(w.shared.tasks[t].signal) || HeldByCall(w, t)
  }

  ghost predicate HeldByCall(w: World, t: nat) {
    exists a :: a in w.calls && t in Owned(w.calls[a])
  }

  /** A start that reads Failed, or waits until its deadline, returns an error, and unless its caller goes
      away the service is then not in `running` and not starting any more: each of its tasks is
      cancelled already, or a call still in progress holds its sender. */
  lemma FailedStartIsDiscarded(worlds: seq<World>, moves: seq<Move>, i: nat, k: nat, j: nat, c: nat, id: ServiceId)
    requires InProgress(worlds, moves, i, j, c, StartRequest(id)) && i < k < j < |moves|
    requires worlds[k].calls[c] == Awaiting(id) && moves[k].Step? && moves[k].call == c
    requires moves[k].choice.TimesOut? || (moves[k].choice.Proceeds? && StateOf(worlds[k].shared, id).Failed?)
    requires Answer(worlds[j], moves[j], c).Some?
    ensures Answer(worlds[j], moves[j], c) == Some(false)
    ensures moves[j] == Step(c, Proceeds) ==>
              && id !in worlds[j + 1].shared.running && CancelledOrHeld(worlds[j + 1], id)
              && StateOf(worlds[j + 1].shared, id)
                 == if StateOf(worlds[j].shared, id).Starting? then Failed else StateOf(worlds[j].shared, id)
  {
    CallMoves(worlds, moves, i, k, c, StartRequest(id));
    AwaitingGivesUp(worlds[k].shared, id, moves[k].choice);
    DiscardStays(worlds, moves, i, k + 1, j, c, id);
    DiscardStep(worlds[j].shared, worlds[j].calls[c], moves[j].choice, id);
    AlwaysGated(worlds, moves, j);
    NoOrphanEver(worlds, moves, j + 1);
    if moves[j] == Step(c, Proceeds) {
      LastDiscardStep(worlds[j].shared, worlds[j].calls[c], id);
      CallMoves(worlds, moves, i, j, c, StartRequest(id));
      UnfiledIsCancelledOrHeld(worlds[j + 1], id);
    }
  }

  lemma UnfiledIsCancelledOrHeld(w: World, id: ServiceId)
    requires NoOrphan(w) && id !in w.shared.running
    ensures CancelledOrHeld(w, id)
  {
    forall t | t in w.shared.tasks && w.shared.tasks[t].service == id && !IsCancelled(w.shared.tasks[t].signal)
      ensures HeldByCall(w, t)
    {
      assert Uncancelled(w.shared, t) && !InRunning(w.shared, t);
    }
  }

  lemma LastDiscardStep(sh: Shared, c: Call, id: ServiceId)
    requires Discards(c, id) && CanAdvance(sh, c, Proceeds) && Advance(sh, c, Proceeds).1.Return? && Unfiled(sh, c)
    ensures c == DiscardRecording(id) && id !in Advance(sh, c, Proceeds).0.running
    ensures StateOf(Advance(sh, c, Proceeds).0, id) == if StateOf(sh, id).Starting? then Failed else StateOf(sh, id)
  {
  }

  // ---------------------------------------------------------------- stop

  /** Where a stop the caller asked for can be. */
  predicate InStop(c: Call, id: ServiceId) {
    match c
    case StopOpening(i, thenStart) => i == id && !thenStart
    case StopRemoving(i, _, thenStart) => i == id && !thenStart
    case StopMarking(i, _, _, thenStart) => i == id && !thenStart
    case StopFiring(i, _, thenStart) => i == id && !thenStart
    case StopWaiting(i, _, thenStart) => i == id && !thenStart
    case StopSettling(i, thenStart) => i == id && !thenStart
    case _ => false
  }

  /** The task a stop holds on to. */
  function StopTask(c: Call): Option<nat> {
    match c
    case StopMarking(_, _, t, _) => Some(t)
    case StopFiring(_, t, _) => Some(t)
    case StopWaiting(_, t, _) => Some(t)
    case _ => None
  }

  /** What one step of a stop does: it takes the entry in `running`, keeps it until its task is over, and
      answers Ok only with nothing to wait for or after that. */
  lemma StopStep(sh: Shared, c: Call, ch: Choice, id: ServiceId)
    requires InStop(c, id) && CanAdvance(sh, c, ch)
    ensures var (after, outcome) := Advance(sh, c, ch);
      match outcome
      case Continue(next) =>
        && InStop(next, id)
        && (StopTask(next).Some? ==>
              StopTask(c) == StopTask(next)
              || (c.StopRemoving? && ch.Proceeds? && id in sh.running && StopTask(next) == Some(sh.running[id])))
        && (next.StopSettling? ==> c.StopWaiting? && ch.Proceeds? && IsFinished(sh, c.task) && after == sh)
        && !next.StopOpening?
      case Return(ok) =>
        ok <==> ch.Proceeds? && (c.StopSettling? || (c.StopRemoving? && id !in sh.running))
    ensures c.StopWaiting? && ch.TimesOut? ==>
              Advance(sh, c, ch).1 == Return(false)
              && (id in sh.states && CanTransition(sh.states[id], Failed) ==> Advance(sh, c, ch).0.states == sh.states[id := Failed])
  {
  }

  /** At move `k` the stop took this task out of `running`. */
  ghost predicate TookTask(worlds: seq<World>, moves: seq<Move>, k: nat, c: nat, id: ServiceId, t: nat)
    requires |worlds| == |moves| + 1 && k < |moves|
  {
    && moves[k] == Step(c, Proceeds) && c in worlds[k].calls && worlds[k].calls[c].StopRemoving?
    && id in worlds[k].shared.running && worlds[k].shared.running[id] == t
  }

  /** What a stop in progress knows: the task it holds is one it took, and when it settles that task is
      over. */
  ghost predicate StopKnows(worlds: seq<World>, moves: seq<Move>, i: nat, j: nat, c: nat, id: ServiceId)
    requires |worlds| == |moves| + 1 && i < j <= |moves| && c in worlds[j].calls
  {
    var call := worlds[j].calls[c];
    && InStop(call, id)
    && (StopTask(call).Some? ==> exists k :: i < k < j && TookTask(worlds, moves, k, c, id, StopTask(call).value))
    && (call.StopSettling? ==> exists k, t :: i < k < j && TookTask(worlds, moves, k, c, id, t) && Over(worlds[j].shared, t))
  }

  lemma TasksStay(worlds: seq<World>, moves: seq<Move>, i: nat, j: nat, t: nat)
    requires IsWorldRun(worlds, moves) && i <= j < |worlds| && t in worlds[i].shared.tasks
    ensures t in worlds[j].shared.tasks
  {
    var kept := (w: World) => t in w.shared.tasks;
    forall w, m | CanMove(w, m) && kept(w) ensures kept(NextWorld(w, m)) {
      FinishedStep(w, m, t);
    }
    AlongRun(worlds, moves, kept, i, j);
  }

  lemma TakenTaskExists(worlds: seq<World>, moves: seq<Move>, k: nat, j: nat, c: nat, id: ServiceId, t: nat)
    requires IsWorldRun(worlds, moves) && k < j < |worlds| && TookTask(worlds, moves, k, c, id, t)
    ensures t in worlds[j].shared.tasks
  {
    NoOrphanEver(worlds, moves, k);
    TasksStay(worlds, moves, k, j, t);
  }

  lemma StopBegins(worlds: seq<World>, moves: seq<Move>, i: nat, c: nat, id: ServiceId)
    requires InProgress(worlds, moves, i, i + 1, c, StopRequest(id))
    ensures StopKnows(worlds, moves, i, i + 1, c, id)
  {
    assert worlds[i + 1] == NextWorld(worlds[i], moves[i]);
  }

  lemma StopKnowsAlways(worlds: seq<World>, moves: seq<Move>, i: nat, j: nat, c: nat, id: ServiceId)
    requires InProgress(worlds, moves, i, j, c, StopRequest(id))
    ensures StopKnows(worlds, moves, i, j, c, id)
  {
    var p := (k: nat) => InProgress(worlds, moves, i, k, c, StopRequest(id)) && StopKnows(worlds, moves, i, k, c, id);
    Shorter(worlds, moves, i, i + 1, j, c, StopRequest(id));
    StopBegins(worlds, moves, i, c, id);
    forall k | i < k < j && p(k) ensures p(k + 1) {
      Shorter(worlds, moves, i, k + 1, j, c, StopRequest(id));
      StopKnowsNext(worlds, moves, i, k, c, id);
    }
    AlongCall(p, i, j);
  }

  lemma StopKnowsNext(worlds: seq<World>, moves: seq<Move>, i: nat, j: nat, c: nat, id: ServiceId)
    requires InProgress(worlds, moves, i, j + 1, c, StopRequest(id)) && i < j && StopKnows(worlds, moves, i, j, c, id)
    ensures StopKnows(worlds, moves, i, j + 1, c, id)
  {
    var call := worlds[j].calls[c];
    CallMoves(worlds, moves, i, j, c, StopRequest(id));
    if moves[j].Step? && moves[j].call == c {
      StopStep(worlds[j].shared, call, moves[j].choice, id);
      var next := worlds[j + 1].calls[c];
      if StopTask(next).Some? && StopTask(call) != StopTask(next) {
        assert TookTask(worlds, moves, j, c, id, StopTask(next).value);
      } else if next.StopSettling? {
        var k :| i < k < j && TookTask(worlds, moves, k, c, id, call.task);
        TakenTaskExists(worlds, moves, k, j, c, id, call.task);
        assert TookTask(worlds, moves, k, c, id, call.task) && Over(worlds[j + 1].shared, call.task);
      }
    } else if call.StopSettling? {
      var k, t :| i < k < j && TookTask(worlds, moves, k, c, id, t) && Over(worlds[j].shared, t);
      FinishedStep(worlds[j], moves[j], t);
      assert TookTask(worlds, moves, k, c, id, t) && Over(worlds[j + 1].shared, t);
    }
  }

  /** What `stop` returns: Ok if and only if it found no task in `running`, or it settles after the task it
      took; then that task is over. In particular a stop that waits until its deadline returns an error. */
  lemma StopAnswersExactly(worlds: seq<World>, moves: seq<Move>, i: nat, j: nat, c: nat, id: ServiceId)
    requires InProgress(worlds, moves, i, j, c, StopRequest(id)) && j < |moves| && Answer(worlds[j], moves[j], c).Some?
    ensures Answer(worlds[j], moves[j], c) == Some(true) <==>
              moves[j] == Step(c, Proceeds)
              && (worlds[j].calls[c].StopSettling? || (worlds[j].calls[c].StopRemoving? && id !in worlds[j].shared.running))
    ensures Answer(worlds[j], moves[j], c) == Some(true) && id in worlds[j].shared.running ==>
              exists k, t :: i < k < j && TookTask(worlds, moves, k, c, id, t) && Over(worlds[j].shared, t)
    ensures Answer(worlds[j], moves[j], c) == Some(true) && worlds[j].calls[c].StopSettling? ==>
              exists k, t :: i < k < j && TookTask(worlds, moves, k, c, id, t) && Over(worlds[j].shared, t)
    ensures moves[j] == Step(c, TimesOut) ==> Answer(worlds[j], moves[j], c) == Some(false)
  {
    StopKnowsAlways(worlds, moves, i, j, c, id);
    StopStep(worlds[j].shared, worlds[j].calls[c], moves[j].choice, id);
  }

  // ---------------------------------------------------------------- shutdown

  /** At move `m` the shutdown stopped waiting for the task of the service, which was not over. */
  ghost predicate LateAt(worlds: seq<World>, moves: seq<Move>, m: nat, c: nat, id: ServiceId)
    requires |worlds| == |moves| + 1 && m < |moves|
  {
    && moves[m] == Step(c, On(id)) && c in worlds[m].calls && worlds[m].calls[c].ShutdownWaiting?
    && id in worlds[m].calls[c].fired && !IsFinished(worlds[m].shared, worlds[m].calls[c].fired[id])
  }

  ghost predicate WasLate(worlds: seq<World>, moves: seq<Move>, i: nat, j: nat, c: nat)
    requires |worlds| == |moves| + 1 && j <= |moves|
  {
    exists m, id :: i < m < j && LateAt(worlds, moves, m, c, id)
  }

  /** The tasks a shutdown took when it began, as far as it has come with them. */
  ghost predicate Took(taken: map<ServiceId, nat>, sh: Shared, c: Call) {
    match c
    case ShutdownFiring(entries, fired) =>
      && entries.Keys + fired.Keys == taken.Keys
      && (forall id :: id in entries ==> entries[id].task == taken[id])
      && (forall id :: id in fired ==> fired[id] == taken[id])
    case ShutdownWaiting(fired, settled, stuck) =>
      && fired.Keys <= taken.Keys && settled <= taken.Keys
      && (forall id :: id in fired ==> fired[id] == taken[id])
      && (forall id :: id in settled ==> Over(sh, taken[id]))
      && (!stuck ==> fired.Keys + settled == taken.Keys)
    case _ => false
  }

  predicate Stuck(c: Call) {
    c.ShutdownWaiting? && c.stuck
  }

  ghost predicate AllExist(taken: map<ServiceId, nat>, sh: Shared) {
    forall id :: id in taken ==> taken[id] in sh.tasks
  }

  lemma ShutdownFiringStep(taken: map<ServiceId, nat>, sh: Shared, c: Call, ch: Choice)
    requires Took(taken, sh, c) && c.ShutdownFiring? && CanAdvance(sh, c, ch)
    ensures var (after, outcome) := Advance(sh, c, ch);
      match outcome
      case Continue(next) => Took(taken, after, next) && !Stuck(next)
      case Return(ok) => !ok
  {
  }

  /** One step of a shutdown that waits: a task that is over is settled, one that is not makes the whole
      call late, and in the end it answers Ok exactly when none was late. */
  lemma ShutdownWaitingStep(taken: map<ServiceId, nat>, sh: Shared, c: Call, ch: Choice)
    requires Took(taken, sh, c) && c.ShutdownWaiting? && AllExist(taken, sh) && CanAdvance(sh, c, ch)
    ensures var (after, outcome) := Advance(sh, c, ch);
      match outcome
      case Continue(next) =>
        && ch.On? && ch.id in c.fired && Took(taken, after, next)
        && (Stuck(next) <==> c.stuck || !IsFinished(sh, c.fired[ch.id]))
      case Return(ok) => ok <==> ch.Proceeds? && !c.stuck
    ensures ch.On? && !IsFinished(sh, c.fired[ch.id]) && ch.id in sh.states && CanTransition(sh.states[ch.id], Failed) ==>
              Advance(sh, c, ch).0.states == sh.states[ch.id := Failed]
  {
  }

  lemma TookStays(taken: map<ServiceId, nat>, w: World, m: Move, c: Call)
    requires Took(taken, w.shared, c) && AllExist(taken, w.shared) && CanMove(w, m)
    ensures Took(taken, NextWorld(w, m).shared, c) && AllExist(taken, NextWorld(w, m).shared)
  {
    forall id | id in taken
      ensures taken[id] in NextWorld(w, m).shared.tasks && (Over(w.shared, taken[id]) ==> Over(NextWorld(w, m).shared, taken[id]))
    {
      FinishedStep(w, m, taken[id]);
    }
  }

  ghost predicate ShutdownKnows(worlds: seq<World>, moves: seq<Move>, i: nat, j: nat, c: nat)
    requires |worlds| == |moves| + 1 && i < j <= |moves| && c in worlds[j].calls
  {
    && Took(worlds[i].shared.running, worlds[j].shared, worlds[j].calls[c])
    && AllExist(worlds[i].shared.running, worlds[j].shared)
    && (Stuck(worlds[j].calls[c]) <==> WasLate(worlds, moves, i, j, c))
  }

  lemma LateGrows(worlds: seq<World>, moves: seq<Move>, i: nat, j: nat, c: nat)
    requires |worlds| == |moves| + 1 && i < j < |moves|
    ensures WasLate(worlds, moves, i, j + 1, c) <==> WasLate(worlds, moves, i, j, c) || exists id :: LateAt(worlds, moves, j, c, id)
  {
    if id :| LateAt(worlds, moves, j, c, id) {
      assert i < j < j + 1;
    }
  }

  lemma ShutdownBegins(worlds: seq<World>, moves: seq<Move>, i: nat, c: nat)
    requires InProgress(worlds, moves, i, i + 1, c, ShutdownRequest)
    ensures ShutdownKnows(worlds, moves, i, i + 1, c)
  {
    NoOrphanEver(worlds, moves, i);
    assert worlds[i + 1] == NextWorld(worlds[i], moves[i]);
  }

  lemma ShutdownKnowsNext(worlds: seq<World>, moves: seq<Move>, i: nat, j: nat, c: nat)
    requires InProgress(worlds, moves, i, j + 1, c, ShutdownRequest) && i < j && ShutdownKnows(worlds, moves, i, j, c)
    ensures ShutdownKnows(worlds, moves, i, j + 1, c)
  {
    var taken, call := worlds[i].shared.running, worlds[j].calls[c];
    CallMoves(worlds, moves, i, j, c, ShutdownRequest);
    TookStays(taken, worlds[j], moves[j], call);
    LateGrows(worlds, moves, i, j, c);
    if moves[j].Step? && moves[j].call == c {
      if call.ShutdownFiring? {
        ShutdownFiringStep(taken, worlds[j].shared, call, moves[j].choice);
      } else {
        ShutdownWaitingStep(taken, worlds[j].shared, call, moves[j].choice);
        assert !IsFinished(worlds[j].shared, call.fired[moves[j].choice.id]) ==> LateAt(worlds, moves, j, c, moves[j].choice.id);
      }
    }
  }

  lemma ShutdownKnowsAlways(worlds: seq<World>, moves: seq<Move>, i: nat, j: nat, c: nat)
    requires InProgress(worlds, moves, i, j, c, ShutdownRequest)
    ensures ShutdownKnows(worlds, moves, i, j, c)
  {
    var p := (k: nat) => InProgress(worlds, moves, i, k, c, ShutdownRequest) && ShutdownKnows(worlds, moves, i, k, c);
    Shorter(worlds, moves, i, i + 1, j, c, ShutdownRequest);
    ShutdownBegins(worlds, moves, i, c);
    forall k | i < k < j && p(k) ensures p(k + 1) {
      Shorter(worlds, moves, i, k + 1, j, c, ShutdownRequest);
      ShutdownKnowsNext(worlds, moves, i, k, c);
    }
    AlongCall(p, i, j);
  }

  /** What `shutdown` returns: Ok if and only if it came to its end and no task it waited for was late; then
      every task that was in `running` when it began is over. */
  lemma ShutdownAnswersExactly(worlds: seq<World>, moves: seq<Move>, i: nat, j: nat, c: nat)
    requires InProgress(worlds, moves, i, j, c, ShutdownRequest) && j < |moves| && Answer(worlds[j], moves[j], c).Some?
    ensures Answer(worlds[j], moves[j], c) == Some(true)
            <==> worlds[j].calls[c].ShutdownWaiting? && moves[j] == Step(c, Proceeds) && !WasLate(worlds, moves, i, j, c)
    ensures Answer(worlds[j], moves[j], c) == Some(true) ==>
              forall id :: id in worlds[i].shared.running ==> Over(worlds[j].shared, worlds[i].shared.running[id])
  {
    var taken, call := worlds[i].shared.running, worlds[j].calls[c];
    ShutdownKnowsAlways(worlds, moves, i, j, c);
    if call.ShutdownFiring? {
      ShutdownFiringStep(taken, worlds[j].shared, call, moves[j].choice);
    } else {
      ShutdownWaitingStep(taken, worlds[j].shared, call, moves[j].choice);
    }
  }

  /** What the end of a supervised task records, in any state: Stopped for a clean end that was asked for,
      nothing when the service was already recorded as stopped, Failed otherwise, and only where the
      lifecycle allows it. */
  lemma EndRecordsExactly(sh: Shared, t: nat)
    requires CanRun(sh, t, Records) && sh.tasks[t].service in sh.states
    ensures var after, task := RunTask(sh, t, Records), sh.tasks[t];
      var now := sh.states[task.service];
      && after.running == sh.running && after.tasks == sh.tasks[t := task.(phase := Finished)]
      && after.states == sh.states[task.service :=
           if task.phase.ok && task.phase.seen.Stopping? then
             if now.Stopping? || now.Failed? then Stopped else now
           else if task.phase.seen.Stopped? then now
           else if IsLive(now) then Failed else now]
  {
    assert sh.states[sh.tasks[t].service := sh.states[sh.tasks[t].service]] == sh.states;
  }

  /** Marking a service that was seen live: it becomes stopping, or the stop ends with Err, changes no state,
      and drops the sender it took. */
  lemma StopMarkDecides(sh: Shared, id: ServiceId, seen: ServiceState, t: nat, thenStart: bool)
    requires id in sh.states
    ensures var (after, outcome), now := Advance(sh, StopMarking(id, seen, t, thenStart), Proceeds), sh.states[id];
      after.running == sh.running &&
      if seen.Stopped? || seen.Failed? then after == sh && outcome == Continue(StopFiring(id, t, thenStart))
      else if now.Starting? || now.Running? then
        after == sh.(states := sh.states[id := Stopping]) && outcome == Continue(StopFiring(id, t, thenStart))
      else
        outcome == Return(false) && after.states == sh.states
        && (t in sh.tasks && sh.tasks[t].signal.Waiting? ==> after.tasks[t].signal.SenderDropped?)
  {
  }
}
