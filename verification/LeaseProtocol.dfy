/** The lease, drain and restart protocol: every interleaving of the tracker's critical sections,
    together with the tasks that hold leases and permits or wait for a drain.

    A `System` is the tracker's state plus what the rest of the program holds: which leases and
    permits are alive, where each drainer is in its loop, the clock, and the history of finished
    print leases. A run is any sequence of enabled actions from the initial state. */
module LeaseProtocol {
  import opened Common
  import opened JobTracker

  /** The lifetime of one finished print lease: promoted at `start`, dropped at `end`. */
  datatype Span = Span(start: nat, end: nat)

  /** Where one call of `drain` is. A `notified` drainer has a wakeup waiting for it. */
  datatype Drainer =
    | Looping(deadline: nat)
    | Registered(deadline: nat, notified: bool)
    | Parked(deadline: nat, notified: bool)
    | Drained
    | TimedOut

  datatype System = System(
    core: Core,
    created: nat,
    now: nat,
    requests: set<nat>,
    jobs: map<nat, nat>,
    retired: set<nat>,
    ended: seq<Span>,
    permits: set<nat>,
    drainers: map<nat, Drainer>)

  datatype Action =
    | Tick(delta: nat)
    | Acquire(lease: nat)
    | Promote(lease: nat)
    | Release(lease: nat)
    | CancelDrain
    | TryRestart(permit: nat, cooldown: nat)
    | DropPermit(permit: nat)
    | DrainStart(drainer: nat, timeout: nat)
    | DrainRegister(drainer: nat)
    | DrainCheck(drainer: nat)
    | DrainWake(drainer: nat)
    | DrainTimeout(drainer: nat)

  function Init(now: nat): System {
    System(InitialCore(now), now, now, {}, map[], {}, [], {}, map[])
  }

  predicate IsFresh(s: System, lease: nat) {
    lease !in s.requests && lease !in s.jobs && lease !in s.retired
  }

  /** Whether a lease is held at all. */
  predicate Live(s: System, lease: nat) {
    lease in s.requests || lease in s.jobs
  }

  predicate Enabled(s: System, a: Action) {
    match a
    case Tick(_) => true
    case Acquire(l) => IsFresh(s, l)
    case Promote(l) => l in s.requests
    case Release(l) => Live(s, l)
    case CancelDrain => true
    case TryRestart(p, _) => p !in s.permits
    case DropPermit(p) => p in s.permits
    case DrainStart(d, _) => d !in s.drainers
    case DrainRegister(d) => d in s.drainers && s.drainers[d].Looping?
    case DrainCheck(d) => d in s.drainers && s.drainers[d].Registered?
    case DrainWake(d) => d in s.drainers && s.drainers[d].Parked? && s.drainers[d].notified
    case DrainTimeout(d) => d in s.drainers && s.drainers[d].Parked? && s.drainers[d].deadline <= s.now
  }

  /** Wakes every drainer that registered before the notification. */
  function Notified(drainers: map<nat, Drainer>): map<nat, Drainer> {
    map d | d in drainers ::
      match drainers[d]
      case Registered(deadline, _) => Registered(deadline, true)
      case Parked(deadline, _) => Parked(deadline, true)
      case other => other
  }

  function ApplyRelease(s: System, l: nat): System
    requires Live(s, l)
  {
    var isPrintJob := l in s.jobs;
    var core := Released(s.core, isPrintJob, s.now);
    s.(core := core,
       requests := s.requests - {l},
       jobs := s.jobs - {l},
       retired := s.retired + {l},
       ended := if isPrintJob then s.ended + [Span(s.jobs[l], s.now)] else s.ended,
       drainers := if Clear(core) then Notified(s.drainers) else s.drainers)
  }

  function CancelledCore(c: Core): Core {
    c.(draining := false, acceptingJobs := true)
  }

  function Apply(s: System, a: Action): System
    requires Enabled(s, a)
  {
    match a
    case Tick(delta) => s.(now := s.now + delta)
    case Acquire(l) =>
      if s.core.acceptingJobs then s.(core := Acquired(s.core), requests := s.requests + {l}) else s
    case Promote(l) =>
      if CanPromote(s.core) then
        s.(core := Promoted(s.core, s.now), requests := s.requests - {l}, jobs := s.jobs[l := s.now])
      else s
    case Release(l) => ApplyRelease(s, l)
    case CancelDrain => s.(core := CancelledCore(s.core))
    case TryRestart(p, cooldown) =>
      if CanRestart(s.core, cooldown, s.now) then
        s.(core := s.core.(acceptingJobs := false), permits := s.permits + {p})
      else s
    case DropPermit(p) => s.(core := s.core.(acceptingJobs := true), permits := s.permits - {p})
    case DrainStart(d, timeout) =>
      s.(core := s.core.(draining := true), drainers := s.drainers[d := Looping(s.now + timeout)])
    case DrainRegister(d) =>
      s.(drainers := s.drainers[d := Registered(s.drainers[d].deadline, false)])
    case DrainCheck(d) =>
      var next := if Clear(s.core) then Drained
                  else Parked(s.drainers[d].deadline, s.drainers[d].notified);
      s.(drainers := s.drainers[d := next])
    case DrainWake(d) => s.(drainers := s.drainers[d := Looping(s.drainers[d].deadline)])
    case DrainTimeout(d) =>
      s.(core := CancelledCore(s.core), drainers := s.drainers[d := TimedOut])
  }

  /** `states` is the run that performs `acts` from its first state. */
  predicate IsRun(states: seq<System>, acts: seq<Action>) {
    && |states| == |acts| + 1
    && forall i :: 0 <= i < |acts| ==> Enabled(states[i], acts[i]) && states[i + 1] == Apply(states[i], acts[i])
  }

  /** A run of the program: it starts with a new tracker. */
  predicate IsHistory(states: seq<System>, acts: seq<Action>) {
    IsRun(states, acts) && states[0] == Init(states[0].now)
  }

  // ---------------------------------------------------------------- conservation

  /** The counters equal the leases alive, and no lease is in two places. */
  ghost predicate Counted(activeRequests: nat, activeJobs: nat, requests: set<nat>, jobs: map<nat, nat>, retired: set<nat>) {
    && activeRequests == |requests|
    && activeJobs == |jobs|
    && (forall l :: l in requests ==> l !in jobs && l !in retired)
    && (forall l :: l in jobs ==> l !in retired)
  }

  ghost predicate Conserved(s: System) {
    Counted(s.core.activeRequests, s.core.activeJobs, s.requests, s.jobs, s.retired)
  }

  /** What the timestamps mean for the history of print leases. */
  ghost predicate Dated(s: System) {
    && s.created <= s.core.lastBusyAt <= s.now
    && (forall l :: l in s.jobs ==> s.jobs[l] <= s.core.lastBusyAt)
    && (forall k :: 0 <= k < |s.ended| ==> s.ended[k].start <= s.ended[k].end <= s.now)
    && Stamped(s.core, s.created, s.ended)
  }

  /** The completion stamp is the end of some finished lease; while no print lease is alive it is the
      end of the last one, and the busy stamp agrees with it. */
  ghost predicate Stamped(c: Core, created: nat, ended: seq<Span>) {
    && (c.lastCompletedAt.Some? ==> exists k :: 0 <= k < |ended| && ended[k].end == c.lastCompletedAt.value)
    && (c.activeJobs == 0 ==>
          match c.lastCompletedAt
          case None => ended == [] && c.lastBusyAt == created
          case Some(t) => c.lastBusyAt == t && forall k :: 0 <= k < |ended| ==> ended[k].end <= t)
  }

  /** A drainer without a wakeup waits only while there is something to wait for. */
  ghost predicate NoLostWakeup(s: System) {
    forall d :: d in s.drainers && s.drainers[d].Parked? && !s.drainers[d].notified ==> !Clear(s.core)
  }

  ghost predicate Inv(s: System) {
    && Conserved(s)
    && Dated(s)
    && NoLostWakeup(s)
    && (s.core.acceptingJobs || s.permits != {})
  }

  lemma RemoveKey(m: map<nat, nat>, k: nat)
    requires k in m
    ensures |m - {k}| == |m| - 1
    ensures (m - {k}).Keys == m.Keys - {k}
  {
    assert (m - {k}).Keys == m.Keys - {k};
    assert |(m - {k}).Keys| == |m.Keys| - 1;
  }

  lemma AddKey(m: map<nat, nat>, k: nat, v: nat)
    requires k !in m
    ensures |m[k := v]| == |m| + 1
    ensures m[k := v].Keys == m.Keys + {k}
  {
    assert m[k := v].Keys == m.Keys + {k};
    assert |m[k := v].Keys| == |m.Keys| + 1;
  }

  lemma InitInv(now: nat)
    ensures Inv(Init(now))
  {
  }

  lemma PromoteCounted(s: System, l: nat)
    requires Conserved(s) && Enabled(s, Promote(l))
    ensures Conserved(Apply(s, Promote(l)))
  {
    AddKey(s.jobs, l, s.now);
  }

  lemma DropJobCounted(r: nat, j: nat, requests: set<nat>, jobs: map<nat, nat>, retired: set<nat>, l: nat)
    requires Counted(r, j, requests, jobs, retired) && l in jobs
    ensures j > 0 && Counted(r, j - 1, requests, jobs - {l}, retired + {l})
  {
    RemoveKey(jobs, l);
  }

  lemma DropRequestCounted(r: nat, j: nat, requests: set<nat>, jobs: map<nat, nat>, retired: set<nat>, l: nat)
    requires Counted(r, j, requests, jobs, retired) && l in requests
    ensures r > 0 && Counted(r - 1, j, requests - {l}, jobs, retired + {l})
  {
  }

  lemma ReleaseCounted(s: System, l: nat)
    requires Conserved(s) && Live(s, l)
    ensures Conserved(ApplyRelease(s, l))
  {
    var t := ApplyRelease(s, l);
    if l in s.jobs {
      DropJobCounted(s.core.activeRequests, s.core.activeJobs, s.requests, s.jobs, s.retired, l);
      assert t.requests == s.requests;
    } else {
      DropRequestCounted(s.core.activeRequests, s.core.activeJobs, s.requests, s.jobs, s.retired, l);
      assert t.jobs == s.jobs;
    }
  }

  lemma StepConserved(s: System, a: Action)
    requires Conserved(s) && Enabled(s, a)
    ensures Conserved(Apply(s, a))
  {
    match a {
      case Release(l) => ReleaseCounted(s, l);
      case Promote(l) => PromoteCounted(s, l);
      case _ =>
    }
  }

  lemma PromoteDated(s: System, l: nat)
    requires Conserved(s) && Dated(s) && Enabled(s, Promote(l))
    ensures Dated(Apply(s, Promote(l)))
  {
  }

  /** Finishing a print lease keeps the stamps right: only the one that reaches zero is stamped, and
      nothing that ended before it can have ended later. */
  lemma FinishStamped(c: Core, created: nat, now: nat, ended: seq<Span>, span: Span)
    requires c.activeJobs > 0 && span.end == now && Stamped(c, created, ended)
    requires forall k :: 0 <= k < |ended| ==> ended[k].end <= now
    ensures Stamped(Released(c, true, now), created, ended + [span])
  {
    var after := ended + [span];
    assert after[|ended|] == span;
    if c.lastCompletedAt.Some? {
      var k :| 0 <= k < |ended| && ended[k].end == c.lastCompletedAt.value;
      assert after[k] == ended[k];
    }
  }

  lemma ReleaseDated(s: System, l: nat)
    requires Conserved(s) && Dated(s) && Live(s, l)
    ensures Dated(ApplyRelease(s, l))
  {
    if l in s.jobs {
      FinishStamped(s.core, s.created, s.now, s.ended, Span(s.jobs[l], s.now));
    }
  }

  lemma StepDated(s: System, a: Action)
    requires Conserved(s) && Dated(s) && Enabled(s, a)
    ensures Dated(Apply(s, a))
  {
    match a {
      case Release(l) => ReleaseDated(s, l);
      case Promote(l) => PromoteDated(s, l);
      case _ =>
    }
  }

  lemma StepNoLostWakeup(s: System, a: Action)
    requires Conserved(s) && NoLostWakeup(s) && Enabled(s, a)
    ensures NoLostWakeup(Apply(s, a))
  {
  }

  lemma StepAdmission(s: System, a: Action)
    requires s.core.acceptingJobs || s.permits != {}
    requires Enabled(s, a)
    ensures Apply(s, a).core.acceptingJobs || Apply(s, a).permits != {}
  {
  }

  lemma StepInv(s: System, a: Action)
    requires Inv(s) && Enabled(s, a)
    ensures Inv(Apply(s, a))
  {
    StepAdmission(s, a);
    StepConserved(s, a);
    StepDated(s, a);
    StepNoLostWakeup(s, a);
  }

  /** Lease conservation: in every reachable state of every run the two counters equal the leases
      alive, and the timestamps describe the whole history of print leases. */
  lemma {:induction false} HistoryInv(states: seq<System>, acts: seq<Action>, i: nat)
    requires IsHistory(states, acts) && i < |states|
    ensures Inv(states[i])
    decreases i
  {
    if i == 0 {
      InitInv(states[0].now);
    } else {
      HistoryInv(states, acts, i - 1);
      StepInv(states[i - 1], acts[i - 1]);
    }
  }

  /** How many of the first `n` actions were granted a lease. */
  ghost function Grants(states: seq<System>, acts: seq<Action>, n: nat): nat
    requires IsRun(states, acts) && n <= |acts|
  {
    if n == 0 then 0
    else Grants(states, acts, n - 1) + (if acts[n - 1].Acquire? && states[n - 1].core.acceptingJobs then 1 else 0)
  }

  /** How many of the first `n` actions dropped a lease. */
  ghost function Drops(acts: seq<Action>, n: nat): nat
    requires n <= |acts|
  {
    if n == 0 then 0 else Drops(acts, n - 1) + (if acts[n - 1].Release? then 1 else 0)
  }

  lemma StepBalance(s: System, a: Action)
    requires Inv(s) && Enabled(s, a)
    ensures var t := Apply(s, a);
            t.core.activeJobs + t.core.activeRequests + (if a.Release? then 1 else 0)
            == s.core.activeJobs + s.core.activeRequests + (if a.Acquire? && s.core.acceptingJobs then 1 else 0)
  {
    if a.Release? {
      assert a.lease in s.jobs ==> s.core.activeJobs > 0;
      assert a.lease in s.requests ==> s.core.activeRequests > 0;
    }
  }

  /** The counters balance every grant against every drop, over the whole run: no decrement is ever
      swallowed by saturation. */
  lemma {:induction false} LeaseBalance(states: seq<System>, acts: seq<Action>, n: nat)
    requires IsHistory(states, acts) && n <= |acts|
    ensures states[n].core.activeJobs + states[n].core.activeRequests + Drops(acts, n) == Grants(states, acts, n)
    decreases n
  {
    if n > 0 {
      LeaseBalance(states, acts, n - 1);
      HistoryInv(states, acts, n - 1);
      StepBalance(states[n - 1], acts[n - 1]);
    }
  }

  lemma RetiredGrows(s: System, a: Action)
    requires Enabled(s, a)
    ensures s.retired <= Apply(s, a).retired
  {
  }

  lemma {:induction false} RetiredStays(states: seq<System>, acts: seq<Action>, i: nat, j: nat, l: nat)
    requires IsRun(states, acts) && i <= j < |states| && l in states[i].retired
    ensures l in states[j].retired
    decreases j
  {
    if i < j {
      RetiredStays(states, acts, i, j - 1, l);
    }
  }

  /** A dropped lease is never granted, promoted or dropped again. */
  lemma ReleasedOnce(states: seq<System>, acts: seq<Action>, i: nat, j: nat, l: nat)
    requires IsHistory(states, acts) && i < j < |acts| && acts[i] == Release(l)
    ensures acts[j] != Release(l) && acts[j] != Promote(l) && acts[j] != Acquire(l)
  {
    RetiredStays(states, acts, i + 1, j, l);
    HistoryInv(states, acts, j);
  }

  // ---------------------------------------------------------------- restart exclusion

  /** A held permit is the only one, and no lease is alive beside it. */
  ghost predicate Excluded(s: System) {
    s.permits != {} ==>
      s.requests == {} && s.jobs == map[] && forall p, q :: p in s.permits && q in s.permits ==> p == q
  }

  ghost predicate Sealed(s: System) {
    Excluded(s) && (s.permits != {} ==> !s.core.acceptingJobs)
  }

  /** The steps that run `cancel_drain`: a caller, or a drain whose window expired. */
  predicate Cancels(a: Action) {
    a.CancelDrain? || a.DrainTimeout?
  }

  /** One step keeps the seal unless it cancels a drain while a permit is held. */
  lemma SealStep(s: System, a: Action)
    requires Inv(s) && Sealed(s) && Enabled(s, a)
    ensures Sealed(Apply(s, a)) <==> !(Cancels(a) && s.permits != {})
  {
  }

  /** Restart exclusion: in every run in which no drain is cancelled while a permit is held, a held
      permit means that no lease and no second permit is alive. */
  lemma {:induction false} RestartExclusion(states: seq<System>, acts: seq<Action>, i: nat)
    requires IsHistory(states, acts) && i < |states|
    requires forall k :: 0 <= k < i ==> !(Cancels(acts[k]) && states[k].permits != {})
    ensures Sealed(states[i])
    decreases i
  {
    if i > 0 {
      RestartExclusion(states, acts, i - 1);
      HistoryInv(states, acts, i - 1);
      SealStep(states[i - 1], acts[i - 1]);
    }
  }

  lemma {:induction false} SealedRun(states: seq<System>, acts: seq<Action>, i: nat)
    requires IsRun(states, acts) && i < |states| && Inv(states[0]) && Sealed(states[0])
    requires forall k :: 0 <= k < |acts| ==> !Cancels(acts[k])
    ensures Inv(states[i]) && Sealed(states[i])
    decreases i
  {
    if i > 0 {
      SealedRun(states, acts, i - 1);
      StepInv(states[i - 1], acts[i - 1]);
      SealStep(states[i - 1], acts[i - 1]);
    }
  }

  /** Some run from `s` that cancels no drain ends with a permit held beside a lease or a permit. */
  ghost predicate CanBreakExclusion(s: System) {
    exists states: seq<System>, acts: seq<Action> ::
      IsRun(states, acts) && states[0] == s
      && (forall k :: 0 <= k < |acts| ==> !Cancels(acts[k]))
      && !Excluded(states[|acts|])
  }

  lemma FreshLease(s: System) returns (l: nat)
    ensures IsFresh(s, l)
  {
    l := UpperBound(s.requests + s.jobs.Keys + s.retired);
    assert l in s.jobs ==> l in s.requests + s.jobs.Keys + s.retired;
  }

  /** The side condition is exact: a step makes exclusion breakable if and only if it cancels a
      drain while a permit is held. */
  lemma ExclusionBreaksExactly(s: System, a: Action)
    requires Inv(s) && Sealed(s) && Enabled(s, a)
    ensures CanBreakExclusion(Apply(s, a)) <==> Cancels(a) && s.permits != {}
  {
    var t := Apply(s, a);
    StepInv(s, a);
    SealStep(s, a);
    if Cancels(a) && s.permits != {} {
      var l := FreshLease(t);
      var states, acts := [t, Apply(t, Acquire(l))], [Acquire(l)];
      assert l in states[1].requests;
      assert IsRun(states, acts) && !Excluded(states[|acts|]);
    } else if CanBreakExclusion(t) {
      var states: seq<System>, acts: seq<Action> :| IsRun(states, acts) && states[0] == t
        && (forall k :: 0 <= k < |acts| ==> !Cancels(acts[k])) && !Excluded(states[|acts|]);
      SealedRun(states, acts, |acts|);
      assert false;
    }
  }

  lemma Extend(states: seq<System>, acts: seq<Action>, a: Action)
    requires IsHistory(states, acts) && Enabled(states[|acts|], a)
    ensures IsHistory(states + [Apply(states[|acts|], a)], acts + [a])
  {
    var more, longer := states + [Apply(states[|acts|], a)], acts + [a];
    forall i | 0 <= i < |longer|
      ensures Enabled(more[i], longer[i]) && more[i + 1] == Apply(more[i], longer[i])
    {
      if i < |acts| {
        assert Enabled(states[i], acts[i]);
      }
    }
  }

  /** A tracker with one request alive and the given drainers. */
  function OneRequest(draining: bool, drainers: map<nat, Drainer>): System {
    System(Core(0, 1, true, draining, None, 0), 0, 0, {0}, map[], {}, [], {}, drainers)
  }

  lemma DrainerAdvances(from: Drainer, a: Action, to: Drainer)
    requires || (a == DrainRegister(0) && from == Looping(0) && to == Registered(0, false))
             || (a == DrainCheck(0) && from == Registered(0, false) && to == Parked(0, false))
    ensures Enabled(OneRequest(true, map[0 := from]), a)
    ensures Apply(OneRequest(true, map[0 := from]), a) == OneRequest(true, map[0 := to])
  {
    assert map[0 := from][0 := to] == map[0 := to];
  }

  lemma RequestThenDrain()
    ensures Enabled(Init(0), Acquire(0)) && Apply(Init(0), Acquire(0)) == OneRequest(false, map[])
    ensures Enabled(OneRequest(false, map[]), DrainStart(0, 0))
    ensures Apply(OneRequest(false, map[]), DrainStart(0, 0)) == OneRequest(true, map[0 := Looping(0)])
  {
  }

  lemma TwoSteps(s0: System, a: Action, s1: System, b: Action, s2: System)
    requires s0 == Init(s0.now) && Enabled(s0, a) && s1 == Apply(s0, a) && Enabled(s1, b) && s2 == Apply(s1, b)
    ensures IsHistory([s0, s1, s2], [a, b])
  {
    var states, acts := [s0, s1, s2], [a, b];
    forall i | 0 <= i < |acts| ensures Enabled(states[i], acts[i]) && states[i + 1] == Apply(states[i], acts[i]) {
      assert i == 0 || i == 1;
    }
  }

  /** One request, and a drain that begins while it is alive. */
  lemma DrainBesideRequest() returns (states: seq<System>, acts: seq<Action>)
    ensures IsHistory(states, acts) && |acts| == 2 && CancelDrain !in acts
    ensures states[2] == OneRequest(true, map[0 := Looping(0)])
  {
    var s1, s2 := OneRequest(false, map[]), OneRequest(true, map[0 := Looping(0)]);
    RequestThenDrain();
    TwoSteps(Init(0), Acquire(0), s1, DrainStart(0, 0), s2);
    states, acts := [Init(0), s1, s2], [Acquire(0), DrainStart(0, 0)];
  }

  /** It checks while the request is alive and parks with no time left. */
  lemma ParkedDrain() returns (states: seq<System>, acts: seq<Action>)
    ensures IsHistory(states, acts) && |acts| == 4 && CancelDrain !in acts
    ensures states[4] == OneRequest(true, map[0 := Parked(0, false)])
  {
    states, acts := DrainBesideRequest();
    DrainerAdvances(Looping(0), DrainRegister(0), Registered(0, false));
    Extend(states, acts, DrainRegister(0));
    states, acts := states + [OneRequest(true, map[0 := Registered(0, false)])], acts + [DrainRegister(0)];
    DrainerAdvances(Registered(0, false), DrainCheck(0), Parked(0, false));
    Extend(states, acts, DrainCheck(0));
    states, acts := states + [OneRequest(true, map[0 := Parked(0, false)])], acts + [DrainCheck(0)];
  }

  /** The request is dropped, which wakes the drainer, and a restart permit is issued at once. */
  lemma PermitBesideWokenDrain() returns (states: seq<System>, acts: seq<Action>)
    ensures IsHistory(states, acts) && |acts| == 6 && CancelDrain !in acts
    ensures var s := states[6];
            s.permits == {0} && s.requests == {} && s.jobs == map[] && s.retired == {0} && s.now == 0
            && 0 in s.drainers && s.drainers[0] == Parked(0, true)
  {
    states, acts := ParkedDrain();
    var s5 := Apply(states[4], Release(0));
    assert s5.requests == {} && s5.jobs == map[] && s5.drainers[0] == Parked(0, true);
    Extend(states, acts, Release(0));
    Extend(states + [s5], acts + [Release(0)], TryRestart(0, DRAIN_COOLDOWN));
    states := states + [s5] + [Apply(s5, TryRestart(0, DRAIN_COOLDOWN))];
    acts := acts + [Release(0)] + [TryRestart(0, DRAIN_COOLDOWN)];
  }

  /** The program itself can take that step: a drain that was already woken may still lose the race
      against its own deadline, cancel, and reopen admission under a permit issued meanwhile. */
  lemma TimedOutDrainReopensAdmission() returns (states: seq<System>, acts: seq<Action>)
    ensures IsHistory(states, acts) && CancelDrain !in acts
    ensures states[|acts|].permits == {0} && states[|acts|].requests == {1}
  {
    states, acts := PermitBesideWokenDrain();
    var s7 := Apply(states[6], DrainTimeout(0));
    Extend(states, acts, DrainTimeout(0));
    Extend(states + [s7], acts + [DrainTimeout(0)], Acquire(1));
    states := states + [s7] + [Apply(s7, Acquire(1))];
    acts := acts + [DrainTimeout(0)] + [Acquire(1)];
  }

  // ---------------------------------------------------------------- cooldown and quiet window

  /** The `k`-th action of the run drops a print lease. */
  predicate EndsPrint(states: seq<System>, acts: seq<Action>, k: nat)
    requires IsRun(states, acts) && k < |acts|
  {
    acts[k].Release? && acts[k].lease in states[k].jobs
  }

  /** The span the `k`-th action finishes. */
  function SpanOf(states: seq<System>, acts: seq<Action>, k: nat): Span
    requires IsRun(states, acts) && k < |acts| && EndsPrint(states, acts, k)
  {
    Span(states[k].jobs[acts[k].lease], states[k].now)
  }

  /** The recorded spans are the print leases the run dropped, all of them and nothing else. */
  lemma {:induction false} EndedIsHistory(states: seq<System>, acts: seq<Action>, i: nat, span: Span)
    requires IsHistory(states, acts) && i < |states|
    ensures span in states[i].ended
            <==> exists k: nat :: k < i && EndsPrint(states, acts, k) && SpanOf(states, acts, k) == span
    decreases i
  {
    if i > 0 {
      EndedIsHistory(states, acts, i - 1, span);
      if EndsPrint(states, acts, i - 1) {
        assert states[i].ended == states[i - 1].ended + [SpanOf(states, acts, i - 1)];
      } else {
        assert states[i].ended == states[i - 1].ended;
      }
    }
  }

  lemma CooledDownExactly(s: System, cooldown: nat)
    requires Inv(s) && s.jobs == map[]
    ensures CooledDown(s.core, cooldown, s.now) <==> forall span :: span in s.ended ==> span.end + cooldown <= s.now
  {
    if s.core.lastCompletedAt.Some? {
      var t := s.core.lastCompletedAt.value;
      var k :| 0 <= k < |s.ended| && s.ended[k].end == t;
      assert s.ended[k] in s.ended;
    }
  }

  /** The cooldown over whole histories: a restart request is granted if and only if admission is
      open, no lease is alive, and every print lease the run ever dropped was dropped at least
      `cooldown` ago, although only the drops that reach zero leave a stamp. */
  lemma PermitGrantedExactly(states: seq<System>, acts: seq<Action>, i: nat)
    requires IsHistory(states, acts) && i < |acts| && acts[i].TryRestart?
    ensures acts[i].permit in states[i + 1].permits <==>
            && states[i].core.acceptingJobs
            && states[i].requests == {} && states[i].jobs == map[]
            && forall k: nat :: k < i && EndsPrint(states, acts, k) ==>
                 states[k].now + acts[i].cooldown <= states[i].now
  {
    var s := states[i];
    HistoryInv(states, acts, i);
    if s.jobs == map[] {
      CooledDownExactly(s, acts[i].cooldown);
      forall k: nat | k < i && EndsPrint(states, acts, k)
        ensures SpanOf(states, acts, k) in s.ended
      {
        EndedIsHistory(states, acts, i, SpanOf(states, acts, k));
      }
      forall span | span in s.ended
        ensures exists k: nat :: k < i && EndsPrint(states, acts, k) && SpanOf(states, acts, k) == span
      {
        EndedIsHistory(states, acts, i, span);
      }
    }
  }

  /** Some print lease was alive at instant `t`. */
  predicate PrintingAt(s: System, t: int) {
    || (exists l :: l in s.jobs && s.jobs[l] <= t <= s.now)
    || (exists k :: 0 <= k < |s.ended| && s.ended[k].start <= t <= s.ended[k].end)
  }

  /** The quiet window: `is_idle_for(d)` answers whether the tracker is at least `d` old and no print
      lease was alive at any instant of the last `d`. */
  lemma IdleExactly(states: seq<System>, acts: seq<Action>, i: nat, d: nat)
    requires IsHistory(states, acts) && i < |states| && d > 0
    ensures var s := states[i];
            IdleFor(s.core, d, s.now) <==>
            s.created + d <= s.now && forall t :: s.now - d < t <= s.now ==> !PrintingAt(s, t)
  {
    var s := states[i];
    HistoryInv(states, acts, i);
    if s.jobs != map[] {
      var l :| l in s.jobs;
      assert PrintingAt(s, s.now);
      assert s.core.activeJobs != 0 by { RemoveKey(s.jobs, l); }
    } else {
      forall k | 0 <= k < |s.ended| && s.now - d < s.ended[k].end
        ensures PrintingAt(s, s.ended[k].end)
      {
      }
      if s.core.lastCompletedAt.Some? {
        var k :| 0 <= k < |s.ended| && s.ended[k].end == s.core.lastCompletedAt.value;
        assert s.ended[k].end == s.core.lastBusyAt;
      }
    }
  }

  // ---------------------------------------------------------------- drain

  ghost predicate Uncancelled(acts: seq<Action>, i: nat, j: nat) {
    forall k :: i <= k < j && k < |acts| ==> !Cancels(acts[k])
  }

  lemma DrainingStep(s: System, a: Action)
    requires s.core.draining && Enabled(s, a) && !Cancels(a)
    ensures var t := Apply(s, a);
            t.core.draining && t.core.activeJobs <= s.core.activeJobs && t.jobs.Keys <= s.jobs.Keys
  {
  }

  /** While draining no print lease is ever added: those alive later were alive at the start. */
  lemma {:induction false} DrainingOnlyFinishes(states: seq<System>, acts: seq<Action>, i: nat, j: nat)
    requires IsHistory(states, acts) && i <= j < |states|
    requires states[i].core.draining && Uncancelled(acts, i, j)
    ensures states[j].core.draining
    ensures states[j].core.activeJobs <= states[i].core.activeJobs
    ensures states[j].jobs.Keys <= states[i].jobs.Keys
    decreases j
  {
    if i < j {
      DrainingOnlyFinishes(states, acts, i, j - 1);
      HistoryInv(states, acts, j - 1);
      DrainingStep(states[j - 1], acts[j - 1]);
    }
  }

  /** After `drain` returns Ok with its drain still in force, no print lease exists until some drain
      is cancelled. */
  lemma DrainedStaysEmpty(states: seq<System>, acts: seq<Action>, i: nat, j: nat, d: nat)
    requires IsHistory(states, acts) && i < j < |states|
    requires acts[i] == DrainCheck(d) && states[i + 1].drainers[d].Drained?
    requires states[i].core.draining && Uncancelled(acts, i, j)
    ensures states[j].core.activeJobs == 0 && states[j].jobs == map[]
  {
    HistoryInv(states, acts, i);
    DrainingOnlyFinishes(states, acts, i, j);
    HistoryInv(states, acts, j);
  }

  /** Some run from `s` that cancels no drain reaches a state with a print lease alive. */
  ghost predicate CanPrintAgain(s: System) {
    exists states: seq<System>, acts: seq<Action> ::
      IsRun(states, acts) && states[0] == s && Uncancelled(acts, 0, |acts|) && states[|acts|].core.activeJobs > 0
  }

  lemma {:induction false} DrainingRun(states: seq<System>, acts: seq<Action>, i: nat)
    requires IsRun(states, acts) && i < |states| && Uncancelled(acts, 0, |acts|)
    requires Inv(states[0]) && states[0].core.draining && states[0].core.activeJobs == 0
    ensures Inv(states[i]) && states[i].core.draining && states[i].core.activeJobs == 0
    decreases i
  {
    if i > 0 {
      DrainingRun(states, acts, i - 1);
      StepInv(states[i - 1], acts[i - 1]);
      DrainingStep(states[i - 1], acts[i - 1]);
    }
  }

  lemma ReopenedCanPrint(s: System)
    requires Inv(s) && !s.core.draining && s.core.acceptingJobs
    ensures CanPrintAgain(s)
  {
    var l := FreshLease(s);
    var t := Apply(s, Acquire(l));
    var states, acts := [s, t, Apply(t, Promote(l))], [Acquire(l), Promote(l)];
    assert IsRun(states, acts) && Uncancelled(acts, 0, |acts|);
  }

  lemma PrependStep(s: System, a: Action)
    requires Enabled(s, a) && !Cancels(a) && CanPrintAgain(Apply(s, a))
    ensures CanPrintAgain(s)
  {
    var states: seq<System>, acts: seq<Action> :| IsRun(states, acts) && states[0] == Apply(s, a)
      && Uncancelled(acts, 0, |acts|) && states[|acts|].core.activeJobs > 0;
    var more, longer := [s] + states, [a] + acts;
    forall i | 0 <= i < |longer|
      ensures Enabled(more[i], longer[i]) && more[i + 1] == Apply(more[i], longer[i])
    {
      if i > 0 {
        assert Enabled(states[i - 1], acts[i - 1]) && states[i] == Apply(states[i - 1], acts[i - 1]);
      }
    }
    assert IsRun(more, longer) && Uncancelled(longer, 0, |longer|);
  }

  /** The condition is exact: what an idle tracker guarantees without further cancels depends only on
      whether it is still draining, which another caller's cancel may have ended. */
  lemma IdleUntilCancelExactly(s: System)
    requires Inv(s) && s.core.activeJobs == 0
    ensures CanPrintAgain(s) <==> !s.core.draining
  {
    if s.core.draining {
      if CanPrintAgain(s) {
        var states: seq<System>, acts: seq<Action> :| IsRun(states, acts) && states[0] == s
          && Uncancelled(acts, 0, |acts|) && states[|acts|].core.activeJobs > 0;
        DrainingRun(states, acts, |acts|);
        assert false;
      }
    } else if s.core.acceptingJobs {
      ReopenedCanPrint(s);
    } else {
      var p :| p in s.permits;
      StepInv(s, DropPermit(p));
      ReopenedCanPrint(Apply(s, DropPermit(p)));
      PrependStep(s, DropPermit(p));
    }
  }

  lemma ParkedStep(s: System, a: Action, d: nat)
    requires Enabled(s, a) && d in s.drainers && s.drainers[d].Parked?
    requires Apply(s, a).drainers[d].Parked? && !Apply(s, a).drainers[d].notified
    ensures !s.drainers[d].notified
  {
  }

  /** No lost wakeup: a drainer that parked after its check and has no wakeup has never, since that
      check, missed a moment in which both counts were zero. */
  lemma {:induction false} ParkedMissedNothing(states: seq<System>, acts: seq<Action>, k: nat, j: nat, d: nat, m: nat)
    requires IsHistory(states, acts) && k < m <= j < |states| && acts[k] == DrainCheck(d)
    requires forall i :: k < i <= j ==> d in states[i].drainers && states[i].drainers[d].Parked?
    requires !states[j].drainers[d].notified
    ensures !Clear(states[m].core)
    decreases j
  {
    HistoryInv(states, acts, j);
    if m < j {
      ParkedStep(states[j - 1], acts[j - 1], d);
      ParkedMissedNothing(states, acts, k, j - 1, d, m);
    }
  }

  ghost predicate Waits(s: System, d: nat) {
    d in s.drainers && (s.drainers[d].Registered? || s.drainers[d].Parked?)
  }

  /** A release that leaves nothing alive. */
  ghost predicate Empties(a: Action, after: Core) {
    a.Release? && after.activeJobs == 0 && after.activeRequests == 0
  }

  ghost predicate WasEmptied(states: seq<System>, acts: seq<Action>, k: nat, j: nat)
    requires |states| == |acts| + 1 && j <= |acts|
  {
    exists i :: k < i < j && Empties(acts[i], states[i + 1].core)
  }

  lemma RegisterStep(s: System, d: nat)
    requires Enabled(s, DrainRegister(d))
    ensures Waits(Apply(s, DrainRegister(d)), d) && !Apply(s, DrainRegister(d)).drainers[d].notified
  {
  }

  lemma WakeStep(s: System, a: Action, d: nat)
    requires Enabled(s, a) && Waits(s, d) && Waits(Apply(s, a), d)
    ensures Apply(s, a).drainers[d].notified <==> s.drainers[d].notified || Empties(a, Apply(s, a).core)
  {
  }

  lemma EmptiedStep(states: seq<System>, acts: seq<Action>, k: nat, j: nat)
    requires |states| == |acts| + 1 && k < j < |acts|
    ensures WasEmptied(states, acts, k, j + 1) <==> WasEmptied(states, acts, k, j) || Empties(acts[j], states[j + 1].core)
  {
  }

  /** A drainer that is waiting has a wakeup exactly when some release since it registered, before its check or
      after it, left nothing alive. */
  lemma {:induction false} WokenExactly(states: seq<System>, acts: seq<Action>, k: nat, j: nat, d: nat)
    requires IsRun(states, acts) && k < j < |states| && acts[k] == DrainRegister(d)
    requires Waits(states[j], d) && forall i :: k < i < j ==> Waits(states[i], d)
    ensures states[j].drainers[d].notified <==> WasEmptied(states, acts, k, j)
    decreases j
  {
    var n := j - 1;
    if k == n {
      RegisterStep(states[n], d);
    } else {
      WokenExactly(states, acts, k, n, d);
      EmptiedStep(states, acts, k, n);
      WakeStep(states[n], acts[n], d);
    }
  }
}
