/** Lease ownership in the local IPP proxy (adapters/client_proxy.rs).

    Every connection that is being served, the `pending_jobs` map of multi-step jobs, and whoever
    else holds leases of the same tracker, as one state machine over the lease protocol. A step is
    what one task does between two points where it may be preempted or aborted. */
module ClientProxy {
  import opened Common
  import opened JobTracker
  import opened LeaseProtocol

  const PENDING_LIFETIME: nat := 120

  datatype Operation = PrintJob | CreateJob | SendDocument | CancelJob | Query

  predicate IsSubmission(op: Operation) {
    op.PrintJob? || op.CreateJob?
  }

  predicate IsJobFlow(op: Operation) {
    op.SendDocument? || op.CancelJob?
  }

  /** A lease as its owner sees it. */
  datatype Handle = Handle(id: nat, isPrintJob: bool)

  datatype JobKey = JobKey(server: string, jobId: int)

  datatype PendingJob = PendingJob(lease: Handle, createdAt: nat)

  /** The decoded request: `jobId` and `lastDocument` are its own attributes. */
  datatype Request = Request(op: Operation, server: string, jobId: Option<int>, lastDocument: Option<bool>)

  /** What the trusted server answered; `jobId` is the one in a response that could be parsed. */
  datatype Reply = Forwarded(status: Option<nat>, jobId: Option<int>) | Failed

  datatype Connection =
    | Reading(lease: Handle)
    | Forwarding(request: Request, job: Option<Handle>)
    | Answering(kept: Option<Handle>)

  function Held(c: Connection): Option<Handle> {
    match c
    case Reading(lease) => Some(lease)
    case Forwarding(_, job) => job
    case Answering(kept) => kept
  }

  /** Who holds a live lease. `Elsewhere` is every other user of the tracker. */
  datatype Owner = ByConnection(connection: nat) | ByPending(key: JobKey) | Elsewhere

  /** `owner` is bookkeeping: it records where the program moved each live lease. */
  datatype Proxy = Proxy(
    tracker: System,
    connections: map<nat, Connection>,
    pending: map<JobKey, PendingJob>,
    owner: map<nat, Owner>)

  datatype Step =
    | Accept(connection: nat, lease: nat)
    | Decode(connection: nat, request: Request)
    | Finish(connection: nat, reply: Reply)
    | Close(connection: nat)
    | Sweep(key: JobKey)
    | Outside(action: Action)

  /** A usable IPP job id. */
  function Positive(id: Option<int>): Option<int> {
    if id.Some? && id.value > 0 then id else None
  }

  predicate Successful(status: Option<nat>) {
    status.Some? && status.value <= 0xff
  }

  /** The pending entry that an answered request creates. */
  function CreatedKey(request: Request, reply: Reply): Option<JobKey> {
    if request.op.CreateJob? && reply.Forwarded? && Successful(reply.status) && Positive(reply.jobId).Some? then
      Some(JobKey(request.server, reply.jobId.value))
    else None
  }

  /** The pending entry that an answered request ends. */
  function EndedKey(request: Request, reply: Reply): Option<JobKey> {
    if !IsJobFlow(request.op) || Positive(request.jobId).None? then None
    else
      var key := JobKey(request.server, request.jobId.value);
      match reply
      case Failed => Some(key)
      case Forwarded(status, _) =>
        var isLast := request.lastDocument.None? || request.lastDocument.value;
        if request.op.CancelJob? || isLast || !Successful(status) then Some(key) else None
  }

  /** The pending entry whose lease the step drops: one that is ended, swept, or overwritten. */
  function DroppedKey(p: Proxy, a: Step): Option<JobKey>
    requires CanStep(p, a)
  {
    match a
    case Sweep(key) => Some(key)
    case Finish(c, reply) =>
      var request := p.connections[c].request;
      var touched := if CreatedKey(request, reply).Some? && p.connections[c].job.Some?
                     then CreatedKey(request, reply) else EndedKey(request, reply);
      if touched.Some? && touched.value in p.pending then touched else None
    case _ => None
  }

  predicate CanStep(p: Proxy, a: Step) {
    match a
    case Accept(c, l) => c !in p.connections && IsFresh(p.tracker, l)
    case Decode(c, _) => c in p.connections && p.connections[c].Reading?
    case Finish(c, _) => c in p.connections && p.connections[c].Forwarding?
    case Close(c) => c in p.connections
    case Sweep(key) =>
      key in p.pending && Elapsed(p.tracker.now, p.pending[key].createdAt) >= PENDING_LIFETIME
    case Outside(action) =>
      && Enabled(p.tracker, action)
      && match action
         case Promote(l) => l in p.owner && p.owner[l].Elsewhere?
         case Release(l) => l in p.owner && p.owner[l].Elsewhere?
         case _ => true
  }

  /** The one tracker section the step enters, if any. */
  function TrackerAction(p: Proxy, a: Step): Option<Action>
    requires CanStep(p, a)
  {
    match a
    case Accept(_, l) => Some(Acquire(l))
    case Decode(c, request) =>
      var l := p.connections[c].lease.id;
      if IsSubmission(request.op) then Some(Promote(l))
      else if IsJobFlow(request.op) then None
      else Some(Release(l))
    case Finish(_, _) =>
      if DroppedKey(p, a).Some? then Some(Release(p.pending[DroppedKey(p, a).value].lease.id)) else None
    case Close(c) =>
      if Held(p.connections[c]).Some? then Some(Release(Held(p.connections[c]).value.id)) else None
    case Sweep(key) => Some(Release(p.pending[key].lease.id))
    case Outside(action) => Some(action)
  }

  function NextTracker(p: Proxy, a: Step): System
    requires CanStep(p, a)
    requires TrackerAction(p, a).Some? ==> Enabled(p.tracker, TrackerAction(p, a).value)
  {
    if TrackerAction(p, a).Some? then Apply(p.tracker, TrackerAction(p, a).value) else p.tracker
  }

  predicate Runnable(p: Proxy, a: Step) {
    CanStep(p, a) && (TrackerAction(p, a).Some? ==> Enabled(p.tracker, TrackerAction(p, a).value))
  }

  function Accepted(p: Proxy, c: nat, l: nat): Proxy
    requires Runnable(p, Accept(c, l))
  {
    var q := p.(tracker := NextTracker(p, Accept(c, l)));
    if p.tracker.core.acceptingJobs then
      q.(connections := p.connections[c := Reading(Handle(l, false))], owner := p.owner[l := ByConnection(c)])
    else q
  }

  function Decoded(p: Proxy, c: nat, request: Request): Proxy
    requires Runnable(p, Decode(c, request))
  {
    var lease := p.connections[c].lease;
    var q := p.(tracker := NextTracker(p, Decode(c, request)));
    if IsSubmission(request.op) then
      if CanPromote(p.tracker.core) then
        q.(connections := p.connections[c := Forwarding(request, Some(lease.(isPrintJob := true)))])
      else
        q.(connections := p.connections[c := Answering(Some(lease))])
    else if IsJobFlow(request.op) then
      q.(connections := p.connections[c := Forwarding(request, Some(lease))])
    else
      q.(connections := p.connections[c := Forwarding(request, None)], owner := p.owner - {lease.id})
  }

  function Finished(p: Proxy, c: nat, reply: Reply): Proxy
    requires Runnable(p, Finish(c, reply))
  {
    var conn := p.connections[c];
    var dropped := DroppedKey(p, Finish(c, reply));
    var owner := if dropped.Some? then p.owner - {p.pending[dropped.value].lease.id} else p.owner;
    var q := p.(tracker := NextTracker(p, Finish(c, reply)), owner := owner);
    var created := CreatedKey(conn.request, reply);
    if created.Some? && conn.job.Some? then
      q.(pending := p.pending[created.value := PendingJob(conn.job.value, p.tracker.now)],
         owner := owner[conn.job.value.id := ByPending(created.value)],
         connections := p.connections[c := Answering(None)])
    else
      q.(pending := if dropped.Some? then p.pending - {dropped.value} else p.pending,
         connections := p.connections[c := Answering(conn.job)])
  }

  function Closed(p: Proxy, c: nat): Proxy
    requires Runnable(p, Close(c))
  {
    var held := Held(p.connections[c]);
    p.(tracker := NextTracker(p, Close(c)),
       connections := p.connections - {c},
       owner := if held.Some? then p.owner - {held.value.id} else p.owner)
  }

  function Swept(p: Proxy, key: JobKey): Proxy
    requires Runnable(p, Sweep(key))
  {
    p.(tracker := NextTracker(p, Sweep(key)),
       pending := p.pending - {key},
       owner := p.owner - {p.pending[key].lease.id})
  }

  function OutsideStep(p: Proxy, action: Action): Proxy
    requires Runnable(p, Outside(action))
  {
    var q := p.(tracker := NextTracker(p, Outside(action)));
    match action
    case Acquire(l) => if p.tracker.core.acceptingJobs then q.(owner := p.owner[l := Elsewhere]) else q
    case Release(l) => q.(owner := p.owner - {l})
    case _ => q
  }

  function Next(p: Proxy, a: Step): Proxy
    requires Runnable(p, a)
  {
    match a
    case Accept(c, l) => Accepted(p, c, l)
    case Decode(c, request) => Decoded(p, c, request)
    case Finish(c, reply) => Finished(p, c, reply)
    case Close(c) => Closed(p, c)
    case Sweep(key) => Swept(p, key)
    case Outside(action) => OutsideStep(p, action)
  }

  function InitProxy(now: nat): Proxy {
    Proxy(Init(now), map[], map[], map[])
  }

  /** A run of the proxy beside everything else that uses the tracker. */
  predicate IsProxyRun(states: seq<Proxy>, steps: seq<Step>) {
    && |states| == |steps| + 1
    && states[0] == InitProxy(states[0].tracker.now)
    && forall i :: 0 <= i < |steps| ==> Runnable(states[i], steps[i]) && states[i + 1] == Next(states[i], steps[i])
  }

  // ---------------------------------------------------------------- ownership

  /** A handle's flag says where the tracker counts the lease. */
  predicate Counted(t: System, h: Handle) {
    if h.isPrintJob then h.id in t.jobs else h.id in t.requests
  }

  ghost predicate ConnectionsOwn(p: Proxy) {
    forall c :: c in p.connections && Held(p.connections[c]).Some? ==>
      var h := Held(p.connections[c]).value;
      Counted(p.tracker, h) && h.id in p.owner && p.owner[h.id] == ByConnection(c)
  }

  ghost predicate PendingOwns(p: Proxy) {
    forall k :: k in p.pending ==>
      var h := p.pending[k].lease;
      h.isPrintJob && h.id in p.tracker.jobs && h.id in p.owner && p.owner[h.id] == ByPending(k)
  }

  ghost predicate OwnersHold(p: Proxy) {
    forall l :: l in p.owner ==>
      match p.owner[l]
      case ByConnection(c) => c in p.connections && Held(p.connections[c]).Some? && Held(p.connections[c]).value.id == l
      case ByPending(k) => k in p.pending && p.pending[k].lease.id == l
      case Elsewhere => true
  }

  /** A connection forwards a submission only with a promoted lease. */
  ghost predicate SubmissionsPromoted(p: Proxy) {
    forall c :: c in p.connections ==>
      match p.connections[c]
      case Reading(lease) => !lease.isPrintJob
      case Forwarding(request, job) => 
        && (IsSubmission(request.op) ==> job.Some? && job.value.isPrintJob)
        && (IsJobFlow(request.op) ==> job.Some? && !job.value.isPrintJob)
      case Answering(_) => true
  }

  /** Every live lease has exactly one owner, and every owner's lease is alive. */
  ghost predicate Owned(p: Proxy) {
    && p.tracker.requests !! p.tracker.jobs.Keys
    && (forall l :: l in p.owner <==> Live(p.tracker, l))
    && ConnectionsOwn(p)
    && PendingOwns(p)
    && OwnersHold(p)
    && SubmissionsPromoted(p)
  }

  lemma OwnedAccept(p: Proxy, c: nat, l: nat)
    requires Owned(p) && Runnable(p, Accept(c, l))
    ensures Owned(Accepted(p, c, l))
  {
  }

  lemma OwnedSubmission(p: Proxy, c: nat, request: Request)
    requires Owned(p) && Runnable(p, Decode(c, request)) && IsSubmission(request.op)
    ensures Owned(Decoded(p, c, request))
  {
  }

  lemma OwnedJobFlow(p: Proxy, c: nat, request: Request)
    requires Owned(p) && Runnable(p, Decode(c, request)) && IsJobFlow(request.op)
    ensures Owned(Decoded(p, c, request))
  {
  }

  lemma OwnedQuery(p: Proxy, c: nat, request: Request)
    requires Owned(p) && Runnable(p, Decode(c, request)) && request.op.Query?
    ensures Owned(Decoded(p, c, request))
  {
  }

  lemma OwnedCreated(p: Proxy, c: nat, reply: Reply)
    requires Owned(p) && Runnable(p, Finish(c, reply)) && CreatedKey(p.connections[c].request, reply).Some?
    requires CreatedKey(p.connections[c].request, reply).value !in p.pending
    ensures Owned(Finished(p, c, reply))
  {
  }

  /** The server reused a job id: the entry that is overwritten drops its own lease. */
  lemma OwnedOverwritten(p: Proxy, c: nat, reply: Reply)
    requires Owned(p) && Runnable(p, Finish(c, reply)) && CreatedKey(p.connections[c].request, reply).Some?
    requires CreatedKey(p.connections[c].request, reply).value in p.pending
    ensures Owned(Finished(p, c, reply))
  {
    var key := CreatedKey(p.connections[c].request, reply).value;
    assert p.owner[p.pending[key].lease.id] == ByPending(key);
    assert p.owner[p.connections[c].job.value.id] == ByConnection(c);
  }

  lemma OwnedEnded(p: Proxy, c: nat, reply: Reply)
    requires Owned(p) && Runnable(p, Finish(c, reply)) && CreatedKey(p.connections[c].request, reply).None?
    ensures Owned(Finished(p, c, reply))
  {
  }

  lemma OwnedClose(p: Proxy, c: nat)
    requires Owned(p) && Runnable(p, Close(c))
    ensures Owned(Closed(p, c))
  {
  }

  lemma OwnedSweep(p: Proxy, key: JobKey)
    requires Owned(p) && Runnable(p, Sweep(key))
    ensures Owned(Swept(p, key))
  {
  }

  lemma OwnedOutsideRelease(p: Proxy, l: nat)
    requires Owned(p) && Runnable(p, Outside(Release(l)))
    ensures Owned(OutsideStep(p, Release(l)))
  {
  }

  lemma OwnedOutsidePromote(p: Proxy, l: nat)
    requires Owned(p) && Runnable(p, Outside(Promote(l)))
    ensures Owned(OutsideStep(p, Promote(l)))
  {
  }

  lemma OwnedOutside(p: Proxy, action: Action)
    requires Owned(p) && Runnable(p, Outside(action)) && !action.Release? && !action.Promote?
    ensures Owned(OutsideStep(p, action))
  {
  }

  lemma OwnedStep(p: Proxy, a: Step)
    requires Owned(p) && Runnable(p, a)
    ensures Owned(Next(p, a))
  {
    match a {
      case Accept(c, l) => OwnedAccept(p, c, l);
      case Decode(c, request) =>
        if IsSubmission(request.op) {
          OwnedSubmission(p, c, request);
        } else if IsJobFlow(request.op) {
          OwnedJobFlow(p, c, request);
        } else {
          OwnedQuery(p, c, request);
        }
      case Finish(c, reply) =>
        var created := CreatedKey(p.connections[c].request, reply);
        if created.None? {
          OwnedEnded(p, c, reply);
        } else if created.value in p.pending {
          OwnedOverwritten(p, c, reply);
        } else {
          OwnedCreated(p, c, reply);
        }
      case Close(c) => OwnedClose(p, c);
      case Sweep(key) => OwnedSweep(p, key);
      case Outside(action) =>
        if action.Release? {
          OwnedOutsideRelease(p, action.lease);
        } else if action.Promote? {
          OwnedOutsidePromote(p, action.lease);
        } else {
          OwnedOutside(p, action);
        }
    }
  }

  /** Ownership in every reachable state: each live lease is held by exactly one connection, pending
      job or outside user, and everything they hold is alive and counted where its flag says. */
  lemma {:induction false} ProxyInvariant(states: seq<Proxy>, steps: seq<Step>, i: nat)
    requires IsProxyRun(states, steps) && i < |states|
    ensures Inv(states[i].tracker) && Owned(states[i])
    decreases i
  {
    if i == 0 {
      InitInv(states[0].tracker.now);
    } else {
      var p, a := states[i - 1], steps[i - 1];
      ProxyInvariant(states, steps, i - 1);
      OwnedStep(p, a);
      if TrackerAction(p, a).Some? {
        StepInv(p.tracker, TrackerAction(p, a).value);
      }
      TrackerFollows(p, a);
    }
  }

  lemma TrackerFollows(p: Proxy, a: Step)
    requires Runnable(p, a)
    ensures Next(p, a).tracker == NextTracker(p, a)
  {
  }

  /** Every lease a step must touch is there to touch: a step is runnable as soon as the program can
      reach it, so no tracker section ever runs for a lease that is gone. */
  lemma StepsNeverMiss(states: seq<Proxy>, steps: seq<Step>, i: nat, a: Step)
    requires IsProxyRun(states, steps) && i < |states| && CanStep(states[i], a)
    ensures Runnable(states[i], a)
  {
    ProxyInvariant(states, steps, i);
  }

  // ---------------------------------------------------------------- conservation

  /** The connections that hold a promoted (or unpromoted) lease, with that lease. */
  function Holding(p: Proxy, isPrintJob: bool): map<nat, nat> {
    map c | c in p.connections && Held(p.connections[c]).Some? && Held(p.connections[c]).value.isPrintJob == isPrintJob
      :: Held(p.connections[c]).value.id
  }

  function PendingLeases(p: Proxy): map<JobKey, nat> {
    map k | k in p.pending :: p.pending[k].lease.id
  }

  /** The live leases of other users of the tracker. */
  function OutsideLeases(p: Proxy, ids: set<nat>): set<nat> {
    set l | l in ids && l in p.owner && p.owner[l].Elsewhere?
  }

  lemma {:induction false} InjectiveSize<K>(m: map<K, nat>)
    requires forall a, b :: a in m && b in m && m[a] == m[b] ==> a == b
    ensures |m.Values| == |m|
    decreases |m|
  {
    if m != map[] {
      var k :| k in m;
      var rest := m - {k};
      InjectiveSize(rest);
      assert m.Keys == rest.Keys + {k};
      assert m.Values == rest.Values + {m[k]} by {
        forall v | v in m.Values
          ensures v in rest.Values + {m[k]}
        {
          var a :| a in m && m[a] == v;
          assert a == k || (a in rest && rest[a] == v);
        }
      }
      assert |m.Keys| == |rest.Keys| + 1;
    }
  }

  /** Lease conservation: `active_jobs` counts exactly the connections that hold a promoted lease, the
      entries of `pending_jobs` and the print leases of other users; `active_requests` counts exactly
      the connections that hold an unpromoted lease and the requests of other users. */
  lemma CountersAreOwners(states: seq<Proxy>, steps: seq<Step>, i: nat)
    requires IsProxyRun(states, steps) && i < |states|
    ensures var p := states[i];
            && p.tracker.core.activeJobs
               == |Holding(p, true)| + |p.pending| + |OutsideLeases(p, p.tracker.jobs.Keys)|
            && p.tracker.core.activeRequests
               == |Holding(p, false)| + |OutsideLeases(p, p.tracker.requests)|
  {
    var p := states[i];
    ProxyInvariant(states, steps, i);
    JobsPartition(p);
    RequestsPartition(p);
    InjectiveSize(Holding(p, true));
    InjectiveSize(Holding(p, false));
    InjectiveSize(PendingLeases(p));
    assert PendingLeases(p).Keys == p.pending.Keys;
    assert |PendingLeases(p).Keys| == |p.pending.Keys|;
  }

  lemma JobsPartition(p: Proxy)
    requires Owned(p)
    ensures p.tracker.jobs.Keys
            == Holding(p, true).Values + PendingLeases(p).Values + OutsideLeases(p, p.tracker.jobs.Keys)
    ensures Holding(p, true).Values !! PendingLeases(p).Values
    ensures (Holding(p, true).Values + PendingLeases(p).Values) !! OutsideLeases(p, p.tracker.jobs.Keys)
  {
    forall l | l in p.tracker.jobs
      ensures l in Holding(p, true).Values + PendingLeases(p).Values + OutsideLeases(p, p.tracker.jobs.Keys)
    {
      assert Live(p.tracker, l);
      match p.owner[l]
      case ByConnection(c) => assert c in Holding(p, true) && Holding(p, true)[c] == l;
      case ByPending(k) => assert k in PendingLeases(p) && PendingLeases(p)[k] == l;
      case Elsewhere =>
    }
  }

  lemma RequestsPartition(p: Proxy)
    requires Owned(p)
    ensures p.tracker.requests == Holding(p, false).Values + OutsideLeases(p, p.tracker.requests)
    ensures Holding(p, false).Values !! OutsideLeases(p, p.tracker.requests)
  {
    forall l | l in p.tracker.requests
      ensures l in Holding(p, false).Values + OutsideLeases(p, p.tracker.requests)
    {
      assert Live(p.tracker, l);
      match p.owner[l]
      case ByConnection(c) => assert c in Holding(p, false) && Holding(p, false)[c] == l;
      case ByPending(k) => assert false;
      case Elsewhere =>
    }
  }

  // ---------------------------------------------------------------- restart exclusion

  /** No connection is submitting, continuing or cancelling a print job, and no multi-step job is
      waiting for its document. */
  ghost predicate NoJobInFlight(p: Proxy) {
    && p.pending == map[]
    && forall c :: c in p.connections ==>
         && !p.connections[c].Reading?
         && (p.connections[c].Forwarding? ==> p.connections[c].request.op.Query?)
         && Held(p.connections[c]).None?
  }

  /** The tracker state stays sealed along a proxy run that cancels no drain under a permit. */
  lemma {:induction false} SealedProxy(states: seq<Proxy>, steps: seq<Step>, i: nat)
    requires IsProxyRun(states, steps) && i < |states|
    requires forall k, action :: 0 <= k < i && steps[k] == Outside(action) ==>
               !(Cancels(action) && states[k].tracker.permits != {})
    ensures Sealed(states[i].tracker)
    decreases i
  {
    if i > 0 {
      var p, a := states[i - 1], steps[i - 1];
      SealedProxy(states, steps, i - 1);
      ProxyInvariant(states, steps, i - 1);
      TrackerFollows(p, a);
      if TrackerAction(p, a).Some? {
        SealStep(p.tracker, TrackerAction(p, a).value);
      }
    }
  }

  /** Restart exclusion for the proxy: while a restart permit is held (and no drain was cancelled
      under one) nothing of any print job is in flight and `pending_jobs` is empty. */
  lemma PermitMeansNoJobInFlight(states: seq<Proxy>, steps: seq<Step>, i: nat)
    requires IsProxyRun(states, steps) && i < |states| && states[i].tracker.permits != {}
    requires forall k, action :: 0 <= k < i && steps[k] == Outside(action) ==>
               !(Cancels(action) && states[k].tracker.permits != {})
    ensures NoJobInFlight(states[i])
  {
    SealedProxy(states, steps, i);
    ProxyInvariant(states, steps, i);
    var p := states[i];
    forall c | c in p.connections
      ensures Held(p.connections[c]).None?
    {
    }
    if k :| k in p.pending {
      assert false;
    }
  }

  // ---------------------------------------------------------------- each lease is dropped once

  /** The lease the step drops. */
  function DroppedLease(p: Proxy, a: Step): Option<nat>
    requires Runnable(p, a)
  {
    var action := TrackerAction(p, a);
    if action.Some? && action.value.Release? then Some(action.value.lease) else None
  }

  lemma ProxyRetiredGrows(states: seq<Proxy>, steps: seq<Step>, i: nat)
    requires IsProxyRun(states, steps) && i < |steps|
    ensures states[i].tracker.retired <= states[i + 1].tracker.retired
  {
    var p, a := states[i], steps[i];
    TrackerFollows(p, a);
    if TrackerAction(p, a).Some? {
      RetiredGrows(p.tracker, TrackerAction(p, a).value);
    }
  }

  lemma {:induction false} GrowsAlong(states: seq<Proxy>, i: nat, j: nat)
    requires i <= j < |states|
    requires forall k :: i <= k < j ==> states[k].tracker.retired <= states[k + 1].tracker.retired
    ensures states[i].tracker.retired <= states[j].tracker.retired
    decreases j
  {
    if i < j {
      GrowsAlong(states, i, j - 1);
      assert states[j - 1].tracker.retired <= states[j - 1 + 1].tracker.retired;
    }
  }

  /** Whatever mix of overwritten entries, expiry sweeps, document and cancel requests, early returns
      and aborted connections a run contains, no lease is dropped twice. */
  lemma EachLeaseDroppedOnce(states: seq<Proxy>, steps: seq<Step>, i: nat, j: nat)
    requires IsProxyRun(states, steps) && i < j < |steps| && DroppedLease(states[i], steps[i]).Some?
    ensures DroppedLease(states[j], steps[j]) != DroppedLease(states[i], steps[i])
  {
    var l := DroppedLease(states[i], steps[i]).value;
    TrackerFollows(states[i], steps[i]);
    forall k | i + 1 <= k < j
      ensures states[k].tracker.retired <= states[k + 1].tracker.retired
    {
      ProxyRetiredGrows(states, steps, k);
    }
    GrowsAlong(states, i + 1, j);
    ProxyInvariant(states, steps, j);
  }

  /** A live lease stays alive and keeps its owner unless the step that the owner takes drops or
      moves it: a step drops one lease, or none, and loses none. */
  lemma NothingLeaks(states: seq<Proxy>, steps: seq<Step>, i: nat, l: nat)
    requires IsProxyRun(states, steps) && i < |steps| && Live(states[i].tracker, l)
    ensures Live(states[i + 1].tracker, l) <==> DroppedLease(states[i], steps[i]) != Some(l)
  {
    ProxyInvariant(states, steps, i);
    TrackerFollows(states[i], steps[i]);
  }

  // ---------------------------------------------------------------- multi-step jobs

  /** The step answers a Create-Job of this job: the server accepted it and gave a usable job id. */
  ghost predicate Files(p: Proxy, a: Step, key: JobKey) {
    && a.Finish? && a.connection in p.connections && p.connections[a.connection].Forwarding?
    && var request := p.connections[a.connection].request;
       && request.op == CreateJob && request.server == key.server
       && a.reply.Forwarded? && a.reply.jobId == Some(key.jobId) && key.jobId > 0
       && a.reply.status.Some? && 0 <= a.reply.status.value <= 0xff
  }

  /** The step answers the last Send-Document of this job, one that failed or was not answered, or a
      Cancel-Job, or it sweeps the job out after two minutes. */
  ghost predicate Ends(p: Proxy, a: Step, key: JobKey) {
    match a
    case Finish(c, reply) =>
      && c in p.connections && p.connections[c].Forwarding?
      && var request := p.connections[c].request;
         && request.server == key.server && request.jobId == Some(key.jobId) && key.jobId > 0
         && (|| request.op == CancelJob
             || (request.op == SendDocument
                 && (request.lastDocument != Some(false) || reply == Failed
                     || (reply.Forwarded? && (reply.status.None? || reply.status.value > 0xff)))))
    case Sweep(k) => k == key && key in p.pending && p.pending[key].createdAt + 120 <= p.tracker.now
    case _ => false
  }

  /** A connection is served exactly while requests are admitted, with an unpromoted lease of its own. */
  lemma AcceptDecides(p: Proxy, c: nat, l: nat)
    requires Owned(p) && Runnable(p, Accept(c, l))
    ensures var q := Next(p, Accept(c, l));
      if p.tracker.core.acceptingJobs then
        q.connections == p.connections[c := Reading(Handle(l, false))] && l in q.tracker.requests && q.pending == p.pending
      else q == p
  {
  }

  /** However a connection ends, it drops the lease it still holds and leaves the pending jobs alone. */
  lemma CloseDecides(p: Proxy, c: nat)
    requires Owned(p) && Runnable(p, Close(c))
    ensures var q := Next(p, Close(c));
      && q.connections == p.connections - {c} && q.pending == p.pending
      && (Held(p.connections[c]).Some? ==> !Live(q.tracker, Held(p.connections[c]).value.id))
  {
  }

  /** What a Decode does with the request lease: print jobs are promoted or refused, the requests that
      continue a job keep it as it is, and a query gives it back before it is forwarded. */
  lemma DecodeDecides(p: Proxy, c: nat, request: Request)
    requires Owned(p) && Runnable(p, Decode(c, request))
    ensures var q, lease := Next(p, Decode(c, request)), p.connections[c].lease;
      match request.op
      case PrintJob => PromotedOrRefused(p, q, c, request, lease)
      case CreateJob => PromotedOrRefused(p, q, c, request, lease)
      case SendDocument => q == p.(connections := p.connections[c := Forwarding(request, Some(lease))])
      case CancelJob => q == p.(connections := p.connections[c := Forwarding(request, Some(lease))])
      case Query => q.connections[c] == Forwarding(request, None) && lease.id !in q.owner && !Live(q.tracker, lease.id)
  {
  }

  ghost predicate PromotedOrRefused(p: Proxy, q: Proxy, c: nat, request: Request, lease: Handle) {
    if !p.tracker.core.draining && p.tracker.core.acceptingJobs then
      c in q.connections && q.connections[c] == Forwarding(request, Some(Handle(lease.id, true))) && lease.id in q.tracker.jobs
    else
      q == p.(connections := p.connections[c := Answering(Some(lease))])
  }

  lemma FilesCreates(p: Proxy, c: nat, reply: Reply, key: JobKey)
    requires Owned(p) && Runnable(p, Finish(c, reply)) && Files(p, Finish(c, reply), key)
    ensures var q := Next(p, Finish(c, reply));
      && p.connections[c].job.Some?
      && q.pending == p.pending[key := PendingJob(p.connections[c].job.value, p.tracker.now)]
      && q.connections == p.connections[c := Answering(None)]
  {
  }

  lemma OtherAnswers(p: Proxy, c: nat, reply: Reply)
    requires Owned(p) && Runnable(p, Finish(c, reply)) && forall key :: !Files(p, Finish(c, reply), key)
    ensures var q := Next(p, Finish(c, reply));
      && (forall key :: key in q.pending <==> key in p.pending && !Ends(p, Finish(c, reply), key))
      && (forall key :: key in q.pending ==> q.pending[key] == p.pending[key])
      && q.connections == p.connections[c := Answering(p.connections[c].job)]
  {
    var request := p.connections[c].request;
    if request.op.CreateJob? && reply.Forwarded? && reply.jobId.Some? {
      assert !Files(p, Finish(c, reply), JobKey(request.server, reply.jobId.value));
    }
  }

  /** Exactly what one step does to one entry of the pending jobs. */
  lemma StepDecidesPending(p: Proxy, a: Step, key: JobKey)
    requires Owned(p) && Runnable(p, a)
    ensures var q := Next(p, a);
      && (Files(p, a, key) ==>
            p.connections[a.connection].job.Some? && key in q.pending
            && q.pending[key] == PendingJob(p.connections[a.connection].job.value, p.tracker.now))
      && (Ends(p, a, key) ==> key !in q.pending)
      && (!Files(p, a, key) && !Ends(p, a, key) ==>
            (key in q.pending <==> key in p.pending) && (key in p.pending ==> q.pending[key] == p.pending[key]))
  {
    if a.Finish? {
      if other :| Files(p, a, other) {
        FilesCreates(p, a.connection, a.reply, other);
      } else {
        OtherAnswers(p, a.connection, a.reply);
      }
    }
  }

  /** The job was filed by step `k`, and nothing filed or ended it since. */
  ghost predicate FiledBy(states: seq<Proxy>, steps: seq<Step>, k: nat, i: nat, key: JobKey)
    requires |states| == |steps| + 1 && k < i <= |steps|
  {
    Files(states[k], steps[k], key)
    && forall m :: k < m < i ==> !Files(states[m], steps[m], key) && !Ends(states[m], steps[m], key)
  }

  /** The entry that step `k` filed. */
  ghost function EntryOf(p: Proxy, a: Step): PendingJob
    requires a.Finish? && a.connection in p.connections && p.connections[a.connection].Forwarding?
    requires p.connections[a.connection].job.Some?
  {
    PendingJob(p.connections[a.connection].job.value, p.tracker.now)
  }

  /** The entry of `q` is what step `k` filed. */
  ghost predicate HoldsFiled(q: Proxy, p: Proxy, a: Step, key: JobKey) {
    && key in q.pending && a.Finish? && a.connection in p.connections && p.connections[a.connection].Forwarding?
    && p.connections[a.connection].job.Some? && q.pending[key] == EntryOf(p, a)
  }

  ghost predicate SaidSoFar(states: seq<Proxy>, steps: seq<Step>, i: nat, key: JobKey)
    requires |states| == |steps| + 1 && i <= |steps|
  {
    && (key in states[i].pending ==> exists k: nat :: k < i && FiledBy(states, steps, k, i, key))
    && (forall k: nat :: k < i && FiledBy(states, steps, k, i, key) ==> HoldsFiled(states[i], states[k], steps[k], key))
  }

  lemma FiledByGrows(states: seq<Proxy>, steps: seq<Step>, k: nat, i: nat, key: JobKey)
    requires |states| == |steps| + 1 && k < i < |steps|
    ensures FiledBy(states, steps, k, i + 1, key)
            <==> FiledBy(states, steps, k, i, key) && !Files(states[i], steps[i], key) && !Ends(states[i], steps[i], key)
  {
  }

  /** What the step from `p` to `q` did to the entry. */
  ghost predicate Decided(p: Proxy, a: Step, q: Proxy, key: JobKey) {
    if Files(p, a, key) then HoldsFiled(q, p, a, key)
    else if Ends(p, a, key) then key !in q.pending
    else (key in q.pending <==> key in p.pending) && (key in p.pending ==> q.pending[key] == p.pending[key])
  }

  lemma {:induction false} SaidAlong(states: seq<Proxy>, steps: seq<Step>, i: nat, key: JobKey)
    requires |states| == |steps| + 1 && i < |states| && key !in states[0].pending
    requires forall m :: 0 <= m < i ==> Decided(states[m], steps[m], states[m + 1], key)
    ensures SaidSoFar(states, steps, i, key)
    ensures key in states[i].pending <==> exists k: nat :: k < i && FiledBy(states, steps, k, i, key)
    decreases i
  {
    if i > 0 {
      var files, ends := Files(states[i - 1], steps[i - 1], key), Ends(states[i - 1], steps[i - 1], key);
      SaidAlong(states, steps, i - 1, key);
      assert Decided(states[i - 1], steps[i - 1], states[i - 1 + 1], key);
      if files {
        assert FiledBy(states, steps, i - 1, i, key);
      }
      forall k: nat | k < i - 1
        ensures FiledBy(states, steps, k, i, key) <==> FiledBy(states, steps, k, i - 1, key) && !files && !ends
      {
        FiledByGrows(states, steps, k, i - 1, key);
      }
      if !files && key in states[i].pending {
        var k: nat :| k < i - 1 && FiledBy(states, steps, k, i - 1, key);
        assert FiledBy(states, steps, k, i, key);
      }
    }
  }

  /** The pending jobs are exactly what the answers so far say: a job is there if and only if a
      Create-Job filed it and nothing ended it since, with that connection's print lease and the moment
      of that answer. */
  lemma PendingIsHistory(states: seq<Proxy>, steps: seq<Step>, i: nat, key: JobKey)
    requires IsProxyRun(states, steps) && i < |states|
    ensures key in states[i].pending <==> exists k: nat :: k < i && FiledBy(states, steps, k, i, key)
    ensures forall k: nat :: k < i && FiledBy(states, steps, k, i, key) ==> HoldsFiled(states[i], states[k], steps[k], key)
  {
    forall m | 0 <= m < i ensures Decided(states[m], steps[m], states[m + 1], key) {
      RunDecides(states, steps, m, key);
    }
    SaidAlong(states, steps, i, key);
  }

  lemma RunDecides(states: seq<Proxy>, steps: seq<Step>, m: nat, key: JobKey)
    requires IsProxyRun(states, steps) && m < |steps|
    ensures Decided(states[m], steps[m], states[m + 1], key)
  {
    ProxyInvariant(states, steps, m);
    StepDecidesPending(states[m], steps[m], key);
  }

  /** Between Create-Job and its last document a multi-step job keeps its print lease: the entry is
      unchanged and its lease alive after every step except the ones that end it or file it anew. */
  lemma PendingKeepsLease(states: seq<Proxy>, steps: seq<Step>, i: nat, key: JobKey)
    requires IsProxyRun(states, steps) && i < |steps| && key in states[i].pending
    requires !Ends(states[i], steps[i], key) && !Files(states[i], steps[i], key)
    ensures key in states[i + 1].pending && states[i + 1].pending[key] == states[i].pending[key]
    ensures states[i].pending[key].lease.id in states[i + 1].tracker.jobs
  {
    ProxyInvariant(states, steps, i);
    StepDecidesPending(states[i], steps[i], key);
    ProxyInvariant(states, steps, i + 1);
  }

  /** The step that ends a job, or files it anew, drops its lease. */
  lemma EndedLeaseIsDropped(states: seq<Proxy>, steps: seq<Step>, i: nat, key: JobKey)
    requires IsProxyRun(states, steps) && i < |steps| && key in states[i].pending
    requires Ends(states[i], steps[i], key) || Files(states[i], steps[i], key)
    ensures !Live(states[i + 1].tracker, states[i].pending[key].lease.id)
  {
    var p, a := states[i], steps[i];
    var l := p.pending[key].lease.id;
    ProxyInvariant(states, steps, i);
    StepDecidesPending(p, a, key);
    ProxyInvariant(states, steps, i + 1);
    OwnersOfOthers(p, a, key);
  }

  /** The dropped lease has no owner any more. */
  lemma OwnersOfOthers(p: Proxy, a: Step, key: JobKey)
    requires Owned(p) && Runnable(p, a) && key in p.pending && (Ends(p, a, key) || Files(p, a, key))
    ensures p.pending[key].lease.id !in Next(p, a).owner
  {
  }

  /** An entry may be swept exactly from two minutes after its job was created. */
  lemma SweptWhenDue(p: Proxy, key: JobKey)
    requires key in p.pending && p.pending[key].createdAt <= p.tracker.now
    ensures CanStep(p, Sweep(key)) <==> p.pending[key].createdAt + 120 <= p.tracker.now
  {
  }
}
