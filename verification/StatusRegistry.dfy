/** Service states and the status registry (domain/service.rs, application/coordinator.rs). */
module StatusRegistry {
  import opened Common
  import CleanText

  datatype ServiceId = ClientProxyId | ServerSharingId | ServerDiscoveryId

  datatype ServiceState = Stopped | Starting | Running | Stopping | Failed

  datatype RegistryError = UnknownService | InvalidState

  predicate IsLive(s: ServiceState) {
    s.Starting? || s.Running? || s.Stopping?
  }

  /** The legal lifecycle moves. */
  predicate CanTransition(from: ServiceState, to: ServiceState) {
    match from
    case Stopped => to.Starting?
    case Starting => to.Running? || to.Stopping? || to.Failed?
    case Running => to.Stopping? || to.Failed?
    case Stopping => to.Stopped? || to.Failed?
    case Failed => to.Starting? || to.Stopped?
  }

  /** What the lifecycle allows: a service starts from rest, runs only after starting, is asked to stop only
      while it is coming up or running, comes to rest only from stopping or a failure, and can fail whenever
      it is live; nothing stays where it is. */
  lemma LegalMoves(from: ServiceState, to: ServiceState)
    ensures CanTransition(from, Starting) <==> from == Stopped || from == Failed
    ensures CanTransition(from, Running) <==> from == Starting
    ensures CanTransition(from, Stopping) <==> from == Starting || from == Running
    ensures CanTransition(from, Stopped) <==> from == Stopping || from == Failed
    ensures CanTransition(from, Failed) <==> IsLive(from)
    ensures CanTransition(from, to) ==> from != to
  {
  }

  datatype ServiceStatus = ServiceStatus(id: ServiceId, state: ServiceState, detail: string)

  /** The first entry for `id`, or the length of the list when there is none. */
  function IndexOf(statuses: seq<ServiceStatus>, id: ServiceId): (i: nat)
    ensures i <= |statuses|
    ensures i < |statuses| ==> statuses[i].id == id
    ensures forall k :: 0 <= k < i ==> statuses[k].id != id
  {
    if statuses == [] || statuses[0].id == id then 0 else 1 + IndexOf(statuses[1..], id)
  }

  /** What the registry holds after `id` was asked to move to `next`. */
  function Transitioned(statuses: seq<ServiceStatus>, id: ServiceId, next: ServiceState): seq<ServiceStatus> {
    var i := IndexOf(statuses, id);
    if i < |statuses| && CanTransition(statuses[i].state, next) then statuses[i := statuses[i].(state := next)]
    else statuses
  }

  function Detailed(statuses: seq<ServiceStatus>, id: ServiceId, detail: string): seq<ServiceStatus> {
    var i := IndexOf(statuses, id);
    if i < |statuses| then statuses[i := statuses[i].(detail := CleanText.Sanitized(detail, CleanText.DETAIL_LIMIT))] else statuses
  }

  predicate Accepts(statuses: seq<ServiceStatus>, id: ServiceId, next: ServiceState) {
    var i := IndexOf(statuses, id);
    i < |statuses| && CanTransition(statuses[i].state, next)
  }

  /** A detail changes no state, so whatever comes between the two steps of `Record` sees the recorded
      state already, and a later detail takes none of it back. */
  lemma DetailLeavesStates(statuses: seq<ServiceStatus>, id: ServiceId, detail: string, k: nat)
    requires k < |statuses|
    ensures |Detailed(statuses, id, detail)| == |statuses|
    ensures Detailed(statuses, id, detail)[k].id == statuses[k].id && Detailed(statuses, id, detail)[k].state == statuses[k].state
    ensures Detailed(statuses, id, detail)[k].detail
            == if k == IndexOf(statuses, id) then CleanText.Sanitized(detail, 120) else statuses[k].detail
  {
  }

  /** The registry; `published` is the snapshot subscribers last received. */
  class Registry {
    var statuses: seq<ServiceStatus>
    var published: seq<ServiceStatus>
    /** Every snapshot sent, oldest first. */
    ghost var sent: seq<seq<ServiceStatus>>

    /** Subscribers always see exactly what the registry holds. */
    ghost predicate Valid()
      reads this
    {
      published == statuses
    }

    constructor (ids: seq<ServiceId>)
      ensures Valid() && sent == []
      ensures |statuses| == |ids|
      ensures forall k :: 0 <= k < |ids| ==> statuses[k] == ServiceStatus(ids[k], Stopped, "")
    {
      statuses := seq(|ids|, k requires 0 <= k < |ids| => ServiceStatus(ids[k], Stopped, ""));
      published := seq(|ids|, k requires 0 <= k < |ids| => ServiceStatus(ids[k], Stopped, ""));
      sent := [];
    }

    method FindEntry(id: ServiceId) returns (i: nat)
      ensures i == IndexOf(statuses, id)
    {
      i := 0;
      while i < |statuses| && statuses[i].id != id
        invariant i <= |statuses|
        invariant forall k :: 0 <= k < i ==> statuses[k].id != id
      {
        i := i + 1;
      }
    }

    method Transition(id: ServiceId, next: ServiceState) returns (error: Option<RegistryError>)
      requires Valid()
      modifies this
      ensures Valid()
      ensures statuses == Transitioned(old(statuses), id, next)
      ensures error.None? <==> Accepts(old(statuses), id, next)
      ensures error == Some(UnknownService) <==> IndexOf(old(statuses), id) == |old(statuses)|
      ensures sent == if error.None? then old(sent) + [statuses] else old(sent)
    {
      var i := FindEntry(id);
      if i == |statuses| {
        return Some(UnknownService);
      }
      if !CanTransition(statuses[i].state, next) {
        return Some(InvalidState);
      }
      statuses := statuses[i := statuses[i].(state := next)];
      published := statuses;
      sent := sent + [statuses];
      return None;
    }

    method SetDetail(id: ServiceId, detail: string) returns (error: Option<RegistryError>)
      requires Valid()
      modifies this
      ensures Valid()
      ensures statuses == Detailed(old(statuses), id, detail)
      ensures error.Some? <==> IndexOf(old(statuses), id) == |old(statuses)|
      ensures sent == if error.None? then old(sent) + [statuses] else old(sent)
    {
      var i := FindEntry(id);
      if i == |statuses| {
        return Some(UnknownService);
      }
      var cleaned := CleanText.Sanitize(detail, CleanText.DETAIL_LIMIT);
      statuses := statuses[i := statuses[i].(detail := cleaned)];
      published := statuses;
      sent := sent + [statuses];
      return None;
    }

    /** Records a state nobody asked for, in two steps: the state is published before the detail is
        replaced. A rejected move leaves both alone. */
    method Record(id: ServiceId, next: ServiceState, detail: string)
      requires Valid()
      modifies this
      ensures Valid()
      ensures Accepts(old(statuses), id, next) ==>
                var moved := Transitioned(old(statuses), id, next);
                statuses == Detailed(moved, id, detail) && sent == old(sent) + [moved, statuses]
      ensures !Accepts(old(statuses), id, next) ==> statuses == old(statuses) && sent == old(sent)
    {
      var rejected := Transition(id, next);
      if rejected.Some? {
        return;
      }
      StillThere(old(statuses), id, next);
      var missing := SetDetail(id, detail);
    }
  }

  /** Moving a service does not move its entry. */
  lemma StillThere(statuses: seq<ServiceStatus>, id: ServiceId, next: ServiceState)
    ensures IndexOf(Transitioned(statuses, id, next), id) == IndexOf(statuses, id)
    ensures |Transitioned(statuses, id, next)| == |statuses|
  {
    var moved := Transitioned(statuses, id, next);
    assert forall k :: 0 <= k < |statuses| ==> moved[k].id == statuses[k].id;
  }
}
