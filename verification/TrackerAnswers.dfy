/** What the tracker answers its callers, over whole histories: when a request is admitted, when a
    print job is, and what `drain` returns. */
module TrackerAnswers {
  import opened Common
  import opened JobTracker
  import opened LeaseProtocol

  // ---------------------------------------------------------------- the flags are the history

  /** Before action `i` some drain began that nothing has cancelled since. */
  ghost predicate InDrain(acts: seq<Action>, i: nat)
    requires i <= |acts|
  {
    exists k :: 0 <= k < i && acts[k].DrainStart? && forall m :: k < m < i ==> !acts[m].CancelDrain? && !acts[m].DrainTimeout?
  }

  /** The action issues a restart permit. */
  ghost predicate IssuesPermit(states: seq<System>, acts: seq<Action>, k: nat)
    requires |states| == |acts| + 1 && k < |acts|
  {
    acts[k].TryRestart? && acts[k].permit in states[k + 1].permits
  }

  /** Before action `i` some permit was issued, and since then no permit was dropped and no drain
      cancelled. */
  ghost predicate ClosedForRestart(states: seq<System>, acts: seq<Action>, i: nat)
    requires |states| == |acts| + 1 && i <= |acts|
  {
    exists k :: 0 <= k < i && IssuesPermit(states, acts, k)
                && forall m :: k < m < i ==> !acts[m].CancelDrain? && !acts[m].DrainTimeout? && !acts[m].DropPermit?
  }

  lemma DrainFlagStep(s: System, a: Action)
    requires Enabled(s, a)
    ensures Apply(s, a).core.draining <==> a.DrainStart? || (s.core.draining && !a.CancelDrain? && !a.DrainTimeout?)
  {
  }

  lemma AdmissionStep(s: System, a: Action)
    requires Enabled(s, a)
    ensures Apply(s, a).core.acceptingJobs
            <==> a.CancelDrain? || a.DrainTimeout? || a.DropPermit?
                 || (s.core.acceptingJobs && !(a.TryRestart? && a.permit in Apply(s, a).permits))
  {
  }

  lemma InDrainStep(acts: seq<Action>, i: nat)
    requires i < |acts|
    ensures InDrain(acts, i + 1) <==> acts[i].DrainStart? || (InDrain(acts, i) && !acts[i].CancelDrain? && !acts[i].DrainTimeout?)
  {
    if InDrain(acts, i) && !acts[i].CancelDrain? && !acts[i].DrainTimeout? {
      var k :| 0 <= k < i && acts[k].DrainStart? && forall m :: k < m < i ==> !acts[m].CancelDrain? && !acts[m].DrainTimeout?;
      assert forall m :: k < m < i + 1 ==> !acts[m].CancelDrain? && !acts[m].DrainTimeout?;
    }
    if InDrain(acts, i + 1) && !acts[i].DrainStart? {
      var k :| 0 <= k < i + 1 && acts[k].DrainStart? && forall m :: k < m < i + 1 ==> !acts[m].CancelDrain? && !acts[m].DrainTimeout?;
      assert k < i;
    }
  }

  lemma ClosedStep(states: seq<System>, acts: seq<Action>, i: nat)
    requires |states| == |acts| + 1 && i < |acts|
    ensures ClosedForRestart(states, acts, i + 1)
            <==> IssuesPermit(states, acts, i)
                 || (ClosedForRestart(states, acts, i) && !acts[i].CancelDrain? && !acts[i].DrainTimeout? && !acts[i].DropPermit?)
  {
    if ClosedForRestart(states, acts, i) && !acts[i].CancelDrain? && !acts[i].DrainTimeout? && !acts[i].DropPermit? {
      var k :| 0 <= k < i && IssuesPermit(states, acts, k)
               && forall m :: k < m < i ==> !acts[m].CancelDrain? && !acts[m].DrainTimeout? && !acts[m].DropPermit?;
      assert forall m :: k < m < i + 1 ==> !acts[m].CancelDrain? && !acts[m].DrainTimeout? && !acts[m].DropPermit?;
    }
    if ClosedForRestart(states, acts, i + 1) && !IssuesPermit(states, acts, i) {
      var k :| 0 <= k < i + 1 && IssuesPermit(states, acts, k)
               && forall m :: k < m < i + 1 ==> !acts[m].CancelDrain? && !acts[m].DrainTimeout? && !acts[m].DropPermit?;
      assert k < i;
    }
  }

  lemma {:induction false} DrainingIsHistory(states: seq<System>, acts: seq<Action>, i: nat)
    requires IsHistory(states, acts) && i < |states|
    ensures states[i].core.draining <==> InDrain(acts, i)
    decreases i
  {
    if i > 0 {
      DrainingIsHistory(states, acts, i - 1);
      DrainFlagStep(states[i - 1], acts[i - 1]);
      InDrainStep(acts, i - 1);
    }
  }

  lemma {:induction false} AdmissionIsHistory(states: seq<System>, acts: seq<Action>, i: nat)
    requires IsHistory(states, acts) && i < |states|
    ensures states[i].core.acceptingJobs <==> !ClosedForRestart(states, acts, i)
    decreases i
  {
    if i > 0 {
      AdmissionIsHistory(states, acts, i - 1);
      AdmissionStep(states[i - 1], acts[i - 1]);
      ClosedStep(states, acts, i - 1);
    }
  }

  /** The two admission flags say exactly what happened: a drain that is not over, and a permit after
      which nothing has reopened admission. */
  lemma FlagsAreHistory(states: seq<System>, acts: seq<Action>, i: nat)
    requires IsHistory(states, acts) && i < |states|
    ensures states[i].core.draining <==> InDrain(acts, i)
    ensures states[i].core.acceptingJobs <==> !ClosedForRestart(states, acts, i)
  {
    DrainingIsHistory(states, acts, i);
    AdmissionIsHistory(states, acts, i);
  }

  // ---------------------------------------------------------------- admission

  /** A request is admitted if and only if no restart is in progress, drain or no drain. */
  lemma RequestGrantedExactly(states: seq<System>, acts: seq<Action>, i: nat)
    requires IsHistory(states, acts) && i < |acts| && acts[i].Acquire?
    ensures acts[i].lease in states[i + 1].requests <==> !ClosedForRestart(states, acts, i)
    ensures acts[i].lease !in states[i + 1].requests ==> states[i + 1] == states[i]
  {
    FlagsAreHistory(states, acts, i);
  }

  /** A print job is admitted if and only if no drain is in force and no restart in progress, whatever
      else is printing; a refusal changes nothing. */
  lemma PromotionGrantedExactly(states: seq<System>, acts: seq<Action>, i: nat)
    requires IsHistory(states, acts) && i < |acts| && acts[i].Promote?
    ensures var l := acts[i].lease;
      && (l in states[i + 1].jobs <==> !InDrain(acts, i) && !ClosedForRestart(states, acts, i))
      && (l in states[i + 1].jobs ==>
            states[i + 1].jobs == states[i].jobs[l := states[i].now] && states[i + 1].requests == states[i].requests - {l})
      && (l !in states[i + 1].jobs ==> states[i + 1] == states[i])
  {
    FlagsAreHistory(states, acts, i);
    HistoryInv(states, acts, i);
  }

  // ---------------------------------------------------------------- what drain returns

  /** A check answers Ok exactly when both counts are zero; otherwise the drainer waits on. */
  lemma CheckDecides(s: System, d: nat)
    requires Enabled(s, DrainCheck(d))
    ensures var t := Apply(s, DrainCheck(d));
      if s.core.activeJobs == 0 && s.core.activeRequests == 0 then t.drainers[d] == Drained
      else t.drainers[d] == Parked(s.drainers[d].deadline, s.drainers[d].notified)
  {
  }

  /** The deadline has come; the drain is over and admission is open again. */
  lemma TimeoutDecides(s: System, d: nat)
    requires Enabled(s, DrainTimeout(d))
    ensures s.drainers[d].deadline <= s.now
    ensures Apply(s, DrainTimeout(d)).drainers[d] == TimedOut
    ensures !Apply(s, DrainTimeout(d)).core.draining && Apply(s, DrainTimeout(d)).core.acceptingJobs
  {
  }

  /** The action is the check of `d` that found nothing left. */
  ghost predicate FindsNothing(states: seq<System>, acts: seq<Action>, k: nat, d: nat)
    requires |states| == |acts| + 1 && k < |acts|
  {
    acts[k] == DrainCheck(d) && states[k].core.activeJobs == 0 && states[k].core.activeRequests == 0
  }

  lemma AnswerStep(s: System, a: Action, d: nat)
    requires Enabled(s, a)
    ensures var t := Apply(s, a);
      && ((d in t.drainers && t.drainers[d].Drained?)
          <==> (d in s.drainers && s.drainers[d].Drained?)
               || (a == DrainCheck(d) && s.core.activeJobs == 0 && s.core.activeRequests == 0))
      && ((d in t.drainers && t.drainers[d].TimedOut?)
          <==> (d in s.drainers && s.drainers[d].TimedOut?) || a == DrainTimeout(d))
  {
  }

  /** `drain` returns Ok if and only if one of its checks found both counts zero. */
  lemma {:induction false} DrainOkExactly(states: seq<System>, acts: seq<Action>, j: nat, d: nat)
    requires IsHistory(states, acts) && j < |states|
    ensures d in states[j].drainers && states[j].drainers[d].Drained? <==> exists k :: 0 <= k < j && FindsNothing(states, acts, k, d)
    decreases j
  {
    if j > 0 {
      DrainOkExactly(states, acts, j - 1, d);
      AnswerStep(states[j - 1], acts[j - 1], d);
      if FindsNothing(states, acts, j - 1, d) {
        assert 0 <= j - 1 < j;
      }
    }
  }

  /** And it returns the timeout error if and only if it waited until its deadline. */
  lemma {:induction false} DrainErrExactly(states: seq<System>, acts: seq<Action>, j: nat, d: nat)
    requires IsHistory(states, acts) && j < |states|
    ensures d in states[j].drainers && states[j].drainers[d].TimedOut? <==> exists k :: 0 <= k < j && acts[k] == DrainTimeout(d)
    decreases j
  {
    if j > 0 {
      DrainErrExactly(states, acts, j - 1, d);
      AnswerStep(states[j - 1], acts[j - 1], d);
    }
  }

  /** The call of `drain` began with the action, and this is its deadline. */
  ghost predicate Began(states: seq<System>, acts: seq<Action>, m: nat, d: nat, deadline: nat)
    requires |states| == |acts| + 1 && m < |acts|
  {
    acts[m].DrainStart? && acts[m].drainer == d && states[m].now + acts[m].timeout == deadline
  }

  lemma {:induction false} DeadlineIsFromStart(states: seq<System>, acts: seq<Action>, j: nat, d: nat)
    requires IsHistory(states, acts) && j < |states|
    requires d in states[j].drainers && !states[j].drainers[d].Drained? && !states[j].drainers[d].TimedOut?
    ensures exists m :: 0 <= m < j && Began(states, acts, m, d, states[j].drainers[d].deadline)
    decreases j
  {
    var s, a := states[j - 1], acts[j - 1];
    if a.DrainStart? && a.drainer == d {
      assert Began(states, acts, j - 1, d, states[j].drainers[d].deadline);
    } else {
      DeadlineIsFromStart(states, acts, j - 1, d);
    }
  }

  /** A drain never gives up early: when it times out, its whole timeout has passed since it began. */
  lemma TimesOutInTime(states: seq<System>, acts: seq<Action>, k: nat, d: nat)
    requires IsHistory(states, acts) && k < |acts| && acts[k] == DrainTimeout(d)
    ensures exists m :: 0 <= m < k && acts[m].DrainStart? && acts[m].drainer == d && states[m].now + acts[m].timeout <= states[k].now
  {
    DeadlineIsFromStart(states, acts, k, d);
    var m :| 0 <= m < k && Began(states, acts, m, d, states[k].drainers[d].deadline);
  }

  lemma {:induction false} DrainersStay(states: seq<System>, acts: seq<Action>, i: nat, j: nat, d: nat)
    requires IsHistory(states, acts) && i <= j < |states| && d in states[i].drainers
    ensures d in states[j].drainers
    decreases j
  {
    if i < j {
      DrainersStay(states, acts, i, j - 1, d);
    }
  }

  /** After `drain` returned Ok, and as long as nothing has cancelled a drain since it began, there is no
      print work. */
  lemma DrainOkStaysEmpty(states: seq<System>, acts: seq<Action>, m: nat, j: nat, d: nat)
    requires IsHistory(states, acts) && m < j < |states|
    requires acts[m].DrainStart? && acts[m].drainer == d && Uncancelled(acts, m, j)
    requires d in states[j].drainers && states[j].drainers[d].Drained?
    ensures states[j].core.activeJobs == 0 && states[j].jobs == map[]
  {
    DrainOkExactly(states, acts, j, d);
    var k :| 0 <= k < j && FindsNothing(states, acts, k, d);
    if k <= m {
      DrainersStay(states, acts, k, m, d);
      assert false;
    }
    DrainingOnlyFinishes(states, acts, m + 1, k);
    DrainedStaysEmpty(states, acts, k, j, d);
  }
}
