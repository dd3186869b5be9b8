/** Reclaiming a fixed port from stale ShaPrint processes (adapters/port_binding.rs). */
module PortReclaim {
  import opened Common
  import opened Text

  datatype Owner = Owner(pid: nat, name: string, identity: Option<(string, nat)>)

  const UNKNOWN_PROCESS := "<unknown>"

  // ---------------------------------------------------------------- process names

  predicate IsSeparator(c: char) {
    c == '\\' || c == '/'
  }

  /** What follows the last separator. */
  function FileName(path: string): string {
    if path == "" || IsSeparator(path[|path| - 1]) then ""
    else FileName(path[..|path| - 1]) + [path[|path| - 1]]
  }

  const EXE := ".exe"

  /** Without any `.exe` endings. */
  function WithoutExe(name: string): string {
    if |name| >= 4 && name[|name| - 4..] == EXE then WithoutExe(name[..|name| - 4]) else name
  }

  predicate IsShaPrintName(name: string) {
    var plain := Lower(WithoutExe(FileName(name)));
    plain == "shaprint" || plain == "shaprint-desktop" || plain == "shaprintd"
  }

  predicate IsShaPrint(o: Owner) {
    IsShaPrintName(o.name)
  }

  lemma {:induction false} FileNameOf(directory: string, base: string)
    requires forall k :: 0 <= k < |base| ==> base[k] != '/' && base[k] != '\\'
    requires directory == "" || directory[|directory| - 1] == '/' || directory[|directory| - 1] == '\\'
    ensures FileName(directory + base) == base
    decreases |base|
  {
    if base == "" {
      assert directory + base == directory;
    } else {
      var n := |base| - 1;
      assert (directory + base)[..|directory| + n] == directory + base[..n];
      FileNameOf(directory, base[..n]);
    }
  }

  /** Neither the directory a process was started from nor `.exe` endings matter. */
  lemma PlaceDoesNotMatter(directory: string, base: string)
    requires forall k :: 0 <= k < |base| ==> base[k] != '/' && base[k] != '\\'
    requires directory == "" || directory[|directory| - 1] == '/' || directory[|directory| - 1] == '\\'
    ensures IsShaPrintName(directory + base + EXE) <==> IsShaPrintName(base)
  {
    FileNameOf(directory, base + EXE);
    FileNameOf("", base);
    ExeDropped(base);
    assert "" + base == base;
    Regroup(directory, base, EXE);
  }

  lemma ExeDropped(base: string)
    ensures WithoutExe(base + EXE) == WithoutExe(base)
  {
    assert (base + EXE)[|base|..] == EXE && (base + EXE)[..|base|] == base;
  }

  /** The names of ShaPrint's programs, in any case. */
  lemma ProgramNamesExactly(base: string)
    requires forall k :: 0 <= k < |base| ==> base[k] != '/' && base[k] != '\\'
    requires |base| < 4 || base[|base| - 4..] != ".exe"
    ensures IsShaPrintName(base) <==> Lower(base) == "shaprint" || Lower(base) == "shaprint-desktop" || Lower(base) == "shaprintd"
  {
    FileNameOf("", base);
    assert "" + base == base;
  }

  // ---------------------------------------------------------------- the system

  datatype ReclaimError = InspectionFailed | OwnerUnknown | Conflict(owner: Owner) | TerminationFailed(owner: Owner) | NotReleased(owner: Owner)

  /** The operating system: what each inspection and termination answers and how long things take are
      not known beforehand. */
  class World {
    /** The answer of the n-th inspection; None is a failure. */
    const answers: nat -> Option<seq<Owner>>
    const terminates: nat -> bool
    const delays: nat -> nat
    const current: nat

    var now: int
    var asked: nat
    /** Every process that was asked to end, oldest first, and whether it could be. */
    var ended: seq<Owner>
    var results: seq<bool>

    constructor (answers: nat -> Option<seq<Owner>>, terminates: nat -> bool, delays: nat -> nat, current: nat, now: int)
      ensures this.answers == answers && this.terminates == terminates && this.delays == delays && this.current == current
      ensures this.now == now && asked == 0 && ended == [] && results == []
    {
      this.answers, this.terminates, this.delays, this.current := answers, terminates, delays, current;
      this.now, asked, ended, results := now, 0, [], [];
    }

    /** Asking the system takes time. */
    method Inspect() returns (owners: Option<seq<Owner>>)
      modifies this`now, this`asked
      ensures owners == answers(old(asked)) && asked == old(asked) + 1 && now > old(now)
    {
      owners := answers(asked);
      now := now + 1 + delays(asked);
      asked := asked + 1;
    }

    method Terminate(o: Owner) returns (ok: bool)
      modifies this`ended, this`results
      ensures ended == old(ended) + [o] && results == old(results) + [ok]
    {
      ok := terminates(|ended|);
      ended := ended + [o];
      results := results + [ok];
    }

    method Sleep(interval: nat)
      modifies this`now
      ensures now >= old(now) + interval
    {
      now := now + interval;
    }
  }

  /** A process that may be ended: another ShaPrint process. */
  predicate IsStale(o: Owner, current: nat) {
    o.pid != current && IsShaPrint(o)
  }

  /** The first owner that must not be ended, or the number of owners. */
  function FirstConflict(owners: seq<Owner>, current: nat): (k: nat)
    ensures k <= |owners|
    ensures k < |owners| ==> !IsStale(owners[k], current)
    ensures forall i :: 0 <= i < k ==> IsStale(owners[i], current)
  {
    if owners == [] || !IsStale(owners[0], current) then 0 else 1 + FirstConflict(owners[1..], current)
  }

  /** A process that may still hold the port while it ends: unnamed, but one that was ended. */
  predicate MayLinger(o: Owner, current: nat, pids: set<nat>) {
    o.pid != current && (IsShaPrint(o) || (o.name == UNKNOWN_PROCESS && o.pid in pids))
  }

  function FirstIntruder(owners: seq<Owner>, current: nat, pids: set<nat>): (k: nat)
    ensures k <= |owners|
    ensures k < |owners| ==> !MayLinger(owners[k], current, pids)
    ensures forall i :: 0 <= i < k ==> MayLinger(owners[i], current, pids)
  {
    if owners == [] || !MayLinger(owners[0], current, pids) then 0 else 1 + FirstIntruder(owners[1..], current, pids)
  }

  function Pids(owners: seq<Owner>): (pids: set<nat>)
    ensures forall p :: p in pids <==> exists k :: 0 <= k < |owners| && owners[k].pid == p
  {
    if owners == [] then {}
    else
      var n := |owners| - 1;
      assert forall k :: 0 <= k < n ==> owners[k] == owners[..n][k];
      Pids(owners[..n]) + {owners[n].pid}
  }

  /** Who may be ended, and who may still hold the port meanwhile: another ShaPrint process, or one without
      a name that was asked to end; never this process. */
  lemma WhoMayHold(o: Owner, current: nat, pids: set<nat>)
    ensures IsStale(o, current) <==> o.pid != current && IsShaPrintName(o.name)
    ensures MayLinger(o, current, pids)
            <==> o.pid != current && (IsShaPrintName(o.name) || (o.name == "<unknown>" && o.pid in pids))
  {
  }

  /** All of the owners may be ended. */
  predicate Vetted(owners: Option<seq<Owner>>, current: nat) {
    owners.Some? && owners.value != [] && FirstConflict(owners.value, current) == |owners.value|
  }

  /** Asks every owner to end, in order, until one cannot be. */
  method TerminateAll(w: World, owners: seq<Owner>) returns (failed: Option<Owner>)
    modifies w`ended, w`results
    ensures exists n :: 0 <= n <= |owners| && w.ended == old(w.ended) + owners[..n]
                        && (failed.None? ==> n == |owners|) && (failed.Some? ==> n > 0 && owners[n - 1] == failed.value)
    ensures failed.None? ==> w.results == old(w.results) + seq(|owners|, _ => true)
  {
    var i := 0;
    while i < |owners|
      invariant 0 <= i <= |owners|
      invariant w.ended == old(w.ended) + owners[..i]
      invariant w.results == old(w.results) + seq(i, _ => true)
    {
      var ok := w.Terminate(owners[i]);
      i := i + 1;
      assert owners[..i] == owners[..i - 1] + [owners[i - 1]];
      if !ok {
        assert w.ended == old(w.ended) + owners[..i];
        return Some(owners[i - 1]);
      }
      assert seq(i, _ => true) == seq(i - 1, _ => true) + [true];
    }
    assert owners[..i] == owners;
    return None;
  }

  /** What the last inspection of a poll means. */
  function Verdict(owners: Option<seq<Owner>>, current: nat, pids: set<nat>): (r: Result<(), ReclaimError>)
    ensures r.Ok? <==> owners == Some([])
  {
    if owners.None? then Err(InspectionFailed)
    else if owners.value == [] then Ok(())
    else
      var intruder := FirstIntruder(owners.value, current, pids);
      if intruder < |owners.value| then Err(Conflict(owners.value[intruder])) else Err(NotReleased(owners.value[0]))
  }

  /** So many polls fit the deadline: before the last one the others, one tick each at least, and the
      pauses between them were over. */
  ghost predicate InTime(polls: int, timeout: nat, interval: nat) {
    polls <= 1 || polls - 1 + (polls - 2) * interval < timeout
  }

  /** Polls until nobody holds the port any more. */
  method AwaitRelease(w: World, pids: set<nat>, timeout: nat, interval: nat) returns (r: Result<(), ReclaimError>)
    modifies w`now, w`asked
    ensures w.asked > old(w.asked)
    ensures r == Verdict(w.answers(w.asked - 1), w.current, pids)
    ensures r.Err? && r.error.NotReleased? ==> w.now >= old(w.now) + timeout
    ensures forall k :: old(w.asked) <= k < w.asked - 1 ==>
              w.answers(k).Some? && w.answers(k).value != [] && forall o :: o in w.answers(k).value ==> MayLinger(o, w.current, pids)
    ensures InTime(w.asked - old(w.asked), timeout, interval)
  {
    var deadline := w.now + timeout;
    ghost var start := w.now;
    ghost var sleeps := 0;
    while true
      invariant w.asked == old(w.asked) + sleeps
      invariant w.now >= start + sleeps + sleeps * interval
      invariant sleeps > 0 ==> sleeps + (sleeps - 1) * interval < timeout
      invariant forall k :: old(w.asked) <= k < w.asked ==>
                  w.answers(k).Some? && w.answers(k).value != [] && forall o :: o in w.answers(k).value ==> MayLinger(o, w.current, pids)
      decreases if w.now < deadline then deadline - w.now + 1 else 0
    {
      var remaining := w.Inspect();
      if remaining.None? {
        return Err(InspectionFailed);
      }
      if remaining.value == [] {
        return Ok(());
      }
      var intruder := FirstIntruder(remaining.value, w.current, pids);
      if intruder < |remaining.value| {
        return Err(Conflict(remaining.value[intruder]));
      }
      if w.now >= deadline {
        return Err(NotReleased(remaining.value[0]));
      }
      assert sleeps + 1 + sleeps * interval < timeout;
      w.Sleep(interval);
      sleeps := sleeps + 1;
      assert sleeps * interval == (sleeps - 1) * interval + interval;
    }
  }

  /** Why nothing may be ended. */
  function Refusal(owners: Option<seq<Owner>>, current: nat): ReclaimError
    requires !Vetted(owners, current)
  {
    if owners.None? then InspectionFailed
    else if owners.value == [] then OwnerUnknown
    else Conflict(owners.value[FirstConflict(owners.value, current)])
  }

  /** Reclaims a busy port. Nothing is ended unless every owner found first is a stale ShaPrint process,
      only those are, and success means that nobody holds the port. */
  method Reclaim(w: World, timeout: nat, interval: nat) returns (r: Result<(), ReclaimError>)
    modifies w
    ensures w.asked > old(w.asked)
    ensures !Vetted(w.answers(old(w.asked)), w.current) ==>
              r == Err(Refusal(w.answers(old(w.asked)), w.current)) && w.ended == old(w.ended) && w.asked == old(w.asked) + 1
    ensures Vetted(w.answers(old(w.asked)), w.current) ==>
              exists n :: 0 < n <= |w.answers(old(w.asked)).value| && w.ended == old(w.ended) + w.answers(old(w.asked)).value[..n]
    ensures r.Err? && r.error.TerminationFailed? ==> w.ended != [] && w.ended[|w.ended| - 1] == r.error.owner
    ensures forall k :: |old(w.ended)| <= k < |w.ended| ==> w.ended[k].pid != w.current && IsShaPrintName(w.ended[k].name)
    ensures r.Ok? ==>
              && Vetted(w.answers(old(w.asked)), w.current)
              && w.ended == old(w.ended) + w.answers(old(w.asked)).value
              && w.results == old(w.results) + seq(|w.answers(old(w.asked)).value|, _ => true)
              && w.asked > old(w.asked) + 1 && w.answers(w.asked - 1) == Some([])
    ensures InTime(w.asked - old(w.asked) - 1, timeout, interval)
  {
    var owners := w.Inspect();
    if owners.None? {
      return Err(InspectionFailed);
    }
    if owners.value == [] {
      return Err(OwnerUnknown);
    }
    var conflict := FirstConflict(owners.value, w.current);
    if conflict < |owners.value| {
      return Err(Conflict(owners.value[conflict]));
    }
    var failed := TerminateAll(w, owners.value);
    if failed.Some? {
      return Err(TerminationFailed(failed.value));
    }
    assert owners.value[..|owners.value|] == owners.value;
    r := AwaitRelease(w, Pids(owners.value), timeout, interval);
  }
}
