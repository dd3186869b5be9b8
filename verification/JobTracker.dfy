/** The print job tracker (application/job_tracker.rs): counters, admission flags and timestamps
    that every lease, drain and restart permit updates under one lock.

    `Core` is the locked state. The functions over it say what one locked section does; the classes
    below are the source's objects, whose methods are proved to perform exactly those sections. */
module JobTracker {
  import opened Common

  const DRAIN_COOLDOWN: nat := 8
  const QUIET_WINDOW: nat := 15 * 60

  /** The fields of the tracker's locked state; instants are seconds of a monotone clock. */
  datatype Core = Core(
    activeJobs: nat,
    activeRequests: nat,
    acceptingJobs: bool,
    draining: bool,
    lastCompletedAt: Option<nat>,
    lastBusyAt: nat)

  function SaturatingDecrement(n: nat): nat {
    if n == 0 then 0 else n - 1
  }

  function InitialCore(now: nat): Core {
    Core(0, 0, true, false, None, now)
  }

  predicate CanPromote(c: Core) {
    !c.draining && c.acceptingJobs
  }

  function Promoted(c: Core, now: nat): Core {
    if !CanPromote(c) then c
    else c.(activeRequests := SaturatingDecrement(c.activeRequests), activeJobs := c.activeJobs + 1, lastBusyAt := now)
  }

  predicate Clear(c: Core) {
    c.activeJobs == 0 && c.activeRequests == 0
  }

  function Released(c: Core, isPrintJob: bool, now: nat): Core {
    if isPrintJob then
      var jobs := SaturatingDecrement(c.activeJobs);
      if jobs == 0 then c.(activeJobs := 0, lastCompletedAt := Some(now), lastBusyAt := now)
      else c.(activeJobs := jobs)
    else c.(activeRequests := SaturatingDecrement(c.activeRequests))
  }

  function Acquired(c: Core): Core {
    if c.acceptingJobs then c.(activeRequests := c.activeRequests + 1) else c
  }

  function Elapsed(now: nat, since: nat): nat {
    if since <= now then now - since else 0
  }

  predicate CooledDown(c: Core, cooldown: nat, now: nat) {
    c.lastCompletedAt.Some? ==> Elapsed(now, c.lastCompletedAt.value) >= cooldown
  }

  predicate CanRestart(c: Core, cooldown: nat, now: nat) {
    c.acceptingJobs && Clear(c) && CooledDown(c, cooldown, now)
  }

  predicate IdleFor(c: Core, duration: nat, now: nat) {
    c.activeJobs == 0 && Elapsed(now, c.lastBusyAt) >= duration
  }

  /** The shared tracker. Each method is one critical section of the source. */
  class PrintJobTracker {
    var activeJobs: nat
    var activeRequests: nat
    var acceptingJobs: bool
    var draining: bool
    var lastCompletedAt: Option<nat>
    var lastBusyAt: nat

    ghost function View(): Core
      reads this
    {
      Core(activeJobs, activeRequests, acceptingJobs, draining, lastCompletedAt, lastBusyAt)
    }

    constructor (now: nat)
      ensures View() == InitialCore(now)
    {
      activeJobs, activeRequests := 0, 0;
      acceptingJobs, draining := true, false;
      lastCompletedAt, lastBusyAt := None, now;
    }

    method PromoteRequest(now: nat) returns (ok: bool)
      modifies this
      ensures ok <==> !old(draining) && old(acceptingJobs)
      ensures View() == Promoted(old(View()), now)
      ensures ok ==> activeJobs == old(activeJobs) + 1 && lastBusyAt == now
      ensures !ok ==> View() == old(View())
    {
      if draining || !acceptingJobs {
        return false;
      }
      activeRequests := SaturatingDecrement(activeRequests);
      activeJobs := activeJobs + 1;
      lastBusyAt := now;
      return true;
    }

    /** Releases one lease; `notify` says whether parked drainers are woken. */
    method Release(isPrintJob: bool, now: nat) returns (notify: bool)
      modifies this
      ensures View() == Released(old(View()), isPrintJob, now)
      ensures notify == Clear(View())
    {
      if isPrintJob {
        activeJobs := SaturatingDecrement(activeJobs);
        if activeJobs == 0 {
          lastCompletedAt := Some(now);
          lastBusyAt := now;
        }
      } else {
        activeRequests := SaturatingDecrement(activeRequests);
      }
      notify := activeJobs == 0 && activeRequests == 0;
    }

    method TryAcquireRequest() returns (lease: Option<RequestLease>)
      modifies this
      ensures View() == Acquired(old(View()))
      ensures lease.Some? <==> old(acceptingJobs)
      ensures lease.Some? ==> fresh(lease.value) && lease.value.tracker == this
                              && lease.value.held && !lease.value.isPrintJob
    {
      if !acceptingJobs {
        return None;
      }
      activeRequests := activeRequests + 1;
      var granted := new RequestLease(this);
      return Some(granted);
    }

    method BeginDrain()
      modifies this
      ensures View() == old(View()).(draining := true)
    {
      draining := true;
    }

    method CancelDrain()
      modifies this
      ensures View() == old(View()).(draining := false, acceptingJobs := true)
    {
      draining := false;
      acceptingJobs := true;
    }

    method TryBeginRestart(cooldown: nat, now: nat) returns (permit: Option<RestartPermit>)
      modifies this
      ensures permit.Some? <==>
                && old(acceptingJobs) && old(activeJobs) == 0 && old(activeRequests) == 0
                && (old(lastCompletedAt).Some? ==> Elapsed(now, old(lastCompletedAt).value) >= cooldown)
      ensures View() == if permit.Some? then old(View()).(acceptingJobs := false) else old(View())
      ensures permit.Some? ==> fresh(permit.value) && permit.value.tracker == this && permit.value.held
    {
      if !acceptingJobs || activeJobs > 0 || activeRequests > 0 {
        return None;
      }
      match lastCompletedAt {
        case Some(finished) =>
          if Elapsed(now, finished) < cooldown {
            return None;
          }
        case None =>
      }
      acceptingJobs := false;
      var granted := new RestartPermit(this);
      return Some(granted);
    }

    method IsRestartSafe(cooldown: nat, now: nat) returns (safe: bool)
      ensures safe <==>
                && activeJobs == 0 && activeRequests == 0
                && (lastCompletedAt.Some? ==> Elapsed(now, lastCompletedAt.value) >= cooldown)
    {
      if activeJobs > 0 || activeRequests > 0 {
        return false;
      }
      if lastCompletedAt.Some? {
        if Elapsed(now, lastCompletedAt.value) < cooldown {
          return false;
        }
      }
      return true;
    }

    method IsIdleFor(duration: nat, now: nat) returns (idle: bool)
      ensures idle == IdleFor(View(), duration, now)
      ensures idle <==> activeJobs == 0 && Elapsed(now, lastBusyAt) >= duration
    {
      if activeJobs > 0 {
        return false;
      }
      return Elapsed(now, lastBusyAt) >= duration;
    }
  }

  /** A request lease. `held` is cleared by Drop, which Rust calls exactly once per lease. */
  class RequestLease {
    const tracker: PrintJobTracker
    var isPrintJob: bool
    var held: bool

    constructor (tracker: PrintJobTracker)
      ensures this.tracker == tracker && held && !isPrintJob
    {
      this.tracker := tracker;
      isPrintJob, held := false, true;
    }

    method MarkPrintJob(now: nat) returns (ok: bool)
      requires held
      modifies this`isPrintJob, tracker
      ensures ok <==> old(isPrintJob) || (!old(tracker.draining) && old(tracker.acceptingJobs))
      ensures isPrintJob == ok
      ensures tracker.View() ==
              if old(isPrintJob) then old(tracker.View()) else Promoted(old(tracker.View()), now)
    {
      if isPrintJob {
        return true;
      }
      var promoted := tracker.PromoteRequest(now);
      if !promoted {
        return false;
      }
      isPrintJob := true;
      return true;
    }

    method Drop(now: nat) returns (notify: bool)
      requires held
      modifies this`held, tracker
      ensures !held
      ensures tracker.View() == Released(old(tracker.View()), isPrintJob, now)
      ensures notify == Clear(tracker.View())
    {
      notify := tracker.Release(isPrintJob, now);
      held := false;
    }
  }

  /** Closes admission until it is dropped. */
  class RestartPermit {
    const tracker: PrintJobTracker
    var held: bool

    constructor (tracker: PrintJobTracker)
      ensures this.tracker == tracker && held
    {
      this.tracker := tracker;
      held := true;
    }

    method Drop()
      requires held
      modifies this`held, tracker
      ensures !held
      ensures tracker.View() == old(tracker.View()).(acceptingJobs := true)
    {
      tracker.acceptingJobs := true;
      held := false;
    }
  }
}
