/** The sharing service's advertisement (the run loop in adapters/server_sharing.rs) next to changes of
    the selection (set_shared in application/sharing.rs), as atomic steps. */
module Advertising {
  import opened Common
  import Text

  /** Where the service's run stands. `printers` is the list last handed to the advertiser; `late` says
      that the last replacement failed, so the network still shows an older list. */
  datatype Phase =
    | Idle
    | Subscribed
    | Opening(printers: seq<string>)
    | Serving(printers: seq<string>, late: bool)
    | Replacing(printers: seq<string>)
    | Bare
    | Closing(outcome: Result<(), string>)
    | Returned(outcome: Result<(), string>)

  /** `selection` is the selection, `channel` and `version` the watch channel, `changing` a change that
      stored its selection and did not publish it yet; `seen` is the version the service's receiver saw
      last, `network` the list that is advertised. */
  datatype System = System(
    selection: seq<string>, channel: seq<string>, version: nat, changing: bool,
    phase: Phase, seen: nat, network: Option<seq<string>>, openings: nat, withdrawals: nat)

  datatype Action =
    | Store(names: seq<string>)
    | Publish
    | Start
    | Read
    | AdvertiseDone(error: Option<string>)
    | Wake
    | ReplaceDone(ok: bool)
    | ServeEnds(result: Result<(), string>)
    | WithdrawDone

  /** The advertiser errors that make the start fail. */
  const FATAL: seq<string> := [
    " is in use", " remains in use", "did not release UDP port", "holding UDP port",
    "cannot inspect the process using UDP port"]

  predicate Contains(s: string, part: string) {
    exists i :: 0 <= i <= |s| && Text.HasPrefix(s[i..], part)
  }

  predicate IsFatal(message: string) {
    exists k :: 0 <= k < |FATAL| && Contains(message, FATAL[k])
  }

  /** Changes are serialised: one is published before the next is stored. */
  ghost predicate Enabled(s: System, a: Action) {
    match a
    case Store(_) => !s.changing
    case Publish => s.changing
    case Start => s.phase.Idle? || s.phase.Returned?
    case Read => s.phase.Subscribed?
    case AdvertiseDone(_) => s.phase.Opening?
    case Wake => s.phase.Serving? && s.seen < s.version
    case ReplaceDone(_) => s.phase.Replacing?
    case ServeEnds(_) => s.phase.Serving? || s.phase.Bare?
    case WithdrawDone => s.phase.Closing?
  }

  function Step(s: System, a: Action): System {
    match a
    case Store(names) => s.(selection := names, changing := true)
    case Publish =>
      if s.channel != s.selection then s.(channel := s.selection, version := s.version + 1, changing := false)
      else s.(changing := false)
    case Start => s.(phase := Subscribed, seen := s.version)
    case Read => s.(phase := Opening(s.selection))
    case AdvertiseDone(error) =>
      if s.phase.Opening? then
        if error.None? then s.(phase := Serving(s.phase.printers, false), network := Some(s.phase.printers), openings := s.openings + 1)
        else if IsFatal(error.value) then s.(phase := Returned(Err(error.value)))
        else s.(phase := Bare)
      else s
    case Wake => s.(phase := Replacing(s.channel), seen := s.version)
    case ReplaceDone(ok) =>
      if s.phase.Replacing? then
        s.(phase := Serving(s.phase.printers, !ok), network := if ok then Some(s.phase.printers) else s.network)
      else s
    case ServeEnds(result) => if s.phase.Bare? then s.(phase := Returned(result)) else s.(phase := Closing(result))
    case WithdrawDone =>
      if s.phase.Closing? then s.(phase := Returned(s.phase.outcome), network := None, withdrawals := s.withdrawals + 1) else s
  }

  ghost predicate Initial(s: System) {
    s.channel == s.selection && !s.changing && s.phase.Idle? && s.network.None? && s.seen <= s.version && s.openings == 0 && s.withdrawals == 0
  }

  ghost predicate IsRun(states: seq<System>, actions: seq<Action>) {
    && |states| == |actions| + 1 && Initial(states[0])
    && forall k :: 0 <= k < |actions| ==> Enabled(states[k], actions[k]) && states[k + 1] == Step(states[k], actions[k])
  }

  /** An advertisement is open. */
  predicate Live(p: Phase) {
    p.Serving? || p.Replacing? || p.Closing?
  }

  /** The list the service holds is current, or a change is on its way that will say so. */
  ghost predicate Current(s: System, printers: seq<string>) {
    s.seen == s.version ==> printers == s.channel || (s.changing && printers == s.selection)
  }

  ghost predicate Inv(s: System) {
    && (!s.changing ==> s.channel == s.selection)
    && s.seen <= s.version
    && (s.phase.Opening? || s.phase.Serving? || s.phase.Replacing? ==> Current(s, s.phase.printers))
    && (s.phase.Serving? && !s.phase.late ==> s.network == Some(s.phase.printers))
    && (s.network.Some? <==> Live(s.phase))
    && s.openings == s.withdrawals + if Live(s.phase) then 1 else 0
  }

  lemma {:induction false} RunKeepsInv(states: seq<System>, actions: seq<Action>, k: nat)
    requires IsRun(states, actions) && k < |states|
    ensures Inv(states[k])
    decreases k
  {
    if k > 0 {
      RunKeepsInv(states, actions, k - 1);
    }
  }

  /** The run loop is waiting and has nothing to react to. */
  ghost predicate Settled(s: System) {
    s.phase.Serving? && s.seen == s.version && !s.changing
  }

  /** The advertised list follows the selection: whenever the running service has seen every change,
      none is being made and the last replacement did not fail, the network shows exactly the current
      selection, changes made while the advertisement was being opened included. */
  lemma AdvertisementFollows(states: seq<System>, actions: seq<Action>, k: nat)
    requires IsRun(states, actions) && k < |states|
    requires Settled(states[k]) && !states[k].phase.late
    ensures states[k].network == Some(states[k].selection)
  {
    RunKeepsInv(states, actions, k);
  }

  /** A change is never lost: while the service runs and the network does not show the selection, a
      publication, a reaction to one, or a failed replacement accounts for it. */
  lemma NoChangeIsLost(states: seq<System>, actions: seq<Action>, k: nat)
    requires IsRun(states, actions) && k < |states|
    requires states[k].phase.Serving? && states[k].network != Some(states[k].selection)
    ensures Enabled(states[k], Publish) || Enabled(states[k], Wake) || states[k].phase.late
  {
    RunKeepsInv(states, actions, k);
  }

  /** Every advertisement that was opened is withdrawn exactly once before the run returns, and while
      the service is not running nothing is advertised. */
  lemma WithdrawnOnce(states: seq<System>, actions: seq<Action>, k: nat)
    requires IsRun(states, actions) && k < |states|
    ensures states[k].phase.Returned? || states[k].phase.Idle? || states[k].phase.Bare?
            ==> states[k].openings == states[k].withdrawals && states[k].network.None?
    ensures states[k].withdrawals <= states[k].openings <= states[k].withdrawals + 1
  {
    RunKeepsInv(states, actions, k);
  }

  /** An advertiser error ends the start only when it says that the discovery port is taken; any other
      leaves the service running without an advertisement. */
  lemma AdvertiserErrors(s: System, message: string)
    requires s.phase.Opening?
    ensures var t := Step(s, AdvertiseDone(Some(message)));
      && t.network == s.network && t.openings == s.openings
      && t.phase == if Contains(message, " is in use") || Contains(message, " remains in use")
                       || Contains(message, "did not release UDP port") || Contains(message, "holding UDP port")
                       || Contains(message, "cannot inspect the process using UDP port")
                    then Returned(Err(message)) else Bare
  {
    assert FATAL[0] == " is in use" && FATAL[1] == " remains in use" && FATAL[2] == "did not release UDP port"
        && FATAL[3] == "holding UDP port" && FATAL[4] == "cannot inspect the process using UDP port";
  }

  /** What the run is to return, once that is settled. */
  function Outcome(p: Phase): Option<Result<(), string>> {
    match p
    case Closing(outcome) => Some(outcome)
    case Returned(outcome) => Some(outcome)
    case _ => None
  }

  /** The run returns what serving returned, or the advertiser's fatal error, whatever the withdrawal does. */
  lemma {:induction false} OutcomeIsServings(states: seq<System>, actions: seq<Action>, k: nat)
    requires IsRun(states, actions) && k < |states| && Outcome(states[k].phase).Some?
    ensures exists m :: 0 <= m < k
              && (actions[m] == ServeEnds(Outcome(states[k].phase).value)
                  || (actions[m].AdvertiseDone? && actions[m].error.Some?
                      && Outcome(states[k].phase) == Some(Err(actions[m].error.value))))
    decreases k
  {
    var s, a := states[k - 1], actions[k - 1];
    if Outcome(s.phase) == Outcome(states[k].phase) {
      OutcomeIsServings(states, actions, k - 1);
    } else {
      assert 0 <= k - 1 < k;
    }
  }

  /** A failed replacement is not repaired by itself: the old list stays until the next change. */
  lemma FailedReplacementStays(s: System)
    requires Inv(s) && s.phase.Replacing? && s.seen == s.version && !s.changing && s.network != Some(s.selection)
    ensures var t := Step(s, ReplaceDone(false)); Settled(t) && t.network != Some(t.selection) && !Enabled(t, Wake)
  {
  }

  /** Why the source subscribes first: the other way round, which it does not take, a change in between
      would be missed. */
  lemma ReadingFirstLosesChanges(names: seq<string>, other: seq<string>)
    requires names != other
    ensures var s := System(names, names, 0, false, Opening(names), 0, None, 0, 0);
      var changed := Step(Step(s, Store(other)), Publish);
      var subscribedLate := changed.(seen := changed.version);
      var t := Step(subscribedLate, AdvertiseDone(None));
      Settled(t) && !t.phase.late && t.network != Some(t.selection)
  {
  }

  /** The latest change before step k is the one at step j, and nobody has looked at it since. */
  ghost predicate UnseenChange(states: seq<System>, actions: seq<Action>, j: nat, k: nat)
    requires |actions| < |states| && k <= |actions|
  {
    && j < k && actions[j].Publish? && states[j].selection != states[j].channel
    && states[k].channel == states[j].selection
    && forall i :: j < i < k ==> actions[i] != Start && actions[i] != Wake
                                 && (actions[i].Publish? ==> states[i].selection == states[i].channel)
  }

  lemma {:induction false} UnseenIsAChange(states: seq<System>, actions: seq<Action>, k: nat)
    requires IsRun(states, actions) && k < |states| && !states[k].phase.Idle? && states[k].seen < states[k].version
    ensures exists j: nat :: UnseenChange(states, actions, j, k)
    decreases k
  {
    var n := k - 1;
    var s, a := states[n], actions[n];
    if a.Publish? && s.selection != s.channel {
      assert UnseenChange(states, actions, n, k);
    } else {
      UnseenIsAChange(states, actions, n);
      var j: nat :| UnseenChange(states, actions, j, n);
      assert UnseenChange(states, actions, j, k);
    }
  }

  /** The loop wakes exactly for changes it has not seen, and takes the latest of them to the network. */
  lemma WakesForTheLatest(states: seq<System>, actions: seq<Action>, k: nat)
    requires IsRun(states, actions) && k < |actions| && actions[k] == Wake
    ensures exists j: nat :: UnseenChange(states, actions, j, k) && states[k + 1].phase == Replacing(states[j].selection)
  {
    UnseenIsAChange(states, actions, k);
    var j: nat :| UnseenChange(states, actions, j, k);
    assert states[k + 1].phase == Replacing(states[j].selection);
  }
}
