/** No timer of a run is lost, invented or used twice. */
module TimerConservation {
  import opened Options
  import opened Registrations
  import opened Documents
  import opened PatchSemantics
  import opened FsmRuns

  /** How many timers a step schedules: one for each expiry of an accepted destination. */
  function ScheduledBy(log: Log, s: Sys, e: Event): nat {
    if Commits(log, s, e) && OutcomeOf(log, s, e).Accepted? then
      |Expiries(log, OutcomeOf(log, s, e).destination)|
    else 0
  }

  /** How a timer can end: its patch accepted, its patch not accepted, or its GET unreadable. */
  datatype Fate = PatchAccepted | PatchRefused | Lost

  function FateOf(log: Log, s: Sys, e: Event): Option<Fate> {
    match e
    case GetAnswered(_, false) => Some(Lost)
    case Deliver(Expiry(_), _, _) => Some(if Commits(log, s, e) then PatchAccepted else PatchRefused)
    case _ => None
  }

  ghost function TotalScheduled(log: Log, r: Run, n: nat): nat
    requires n <= |r.events| < |r.states|
  {
    if n == 0 then 0
    else TotalScheduled(log, r, n - 1) + ScheduledBy(log, r.states[n - 1], r.events[n - 1])
  }

  ghost function TotalEnded(log: Log, r: Run, n: nat, fate: Fate): nat
    requires n <= |r.events| < |r.states|
  {
    if n == 0 then 0
    else
      TotalEnded(log, r, n - 1, fate) +
      (if FateOf(log, r.states[n - 1], r.events[n - 1]) == Some(fate) then 1 else 0)
  }

  /** The three places a timer can be are disjoint, and no timer is newer than the document. */
  ghost predicate Separate(s: Sys) {
    && s.executor.timers !! s.fetching !! s.inFlight
    && forall t | s.Holds(t) :: t.serial <= s.doc.version
  }

  function Held(s: Sys): nat {
    |s.executor.timers| + |s.fetching| + |s.inFlight|
  }

  lemma StepKeepsSeparate(log: Log, s: Sys, e: Event)
    requires Separate(s) && Enabled(s, e)
    ensures Separate(Next(log, s, e)) && s.doc.version <= Next(log, s, e).doc.version
  {
    var s' := Next(log, s, e);
    forall t | s'.Holds(t) ensures t.serial <= s'.doc.version {
      if !s.Holds(t) {
        NewTimerIsScheduled(log, s, e, t);
      }
    }
  }

  lemma {:induction false} AlwaysSeparate(log: Log, r: Run, n: nat)
    requires IsRun(log, r) && n <= |r.events|
    ensures Separate(r.states[n])
  {
    if n > 0 {
      AlwaysSeparate(log, r, n - 1);
      StepKeepsSeparate(log, r.states[n - 1], r.events[n - 1]);
    }
  }

  /** What a step ends and what it schedules account for the change in what is held. */
  lemma StepBalances(log: Log, s: Sys, e: Event)
    requires Separate(s) && Enabled(s, e)
    ensures Held(Next(log, s, e)) + (if FateOf(log, s, e).Some? then 1 else 0)
            == Held(s) + ScheduledBy(log, s, e)
  {
    if e.Deliver? {
      DeliveryBalances(log, s, e);
    } else if e.TimerDue? {
      assert s.executor.timers == (s.executor.timers - {e.timer}) + {e.timer};
    } else if e.GetAnswered? {
      assert s.fetching == (s.fetching - {e.timer}) + {e.timer};
    }
  }

  lemma DeliveryBalances(log: Log, s: Sys, e: Event)
    requires Separate(s) && Enabled(s, e) && e.Deliver?
    ensures Held(Next(log, s, e)) + (if FateOf(log, s, e).Some? then 1 else 0)
            == Held(s) + ScheduledBy(log, s, e)
  {
    hide PatchOutcome, Next, Commits, ScheduledBy;
    ExecutorGrows(log, s, e);
    DeliveryMovesTimers(log, s, e);
    if e.origin.Expiry? {
      assert s.inFlight == (s.inFlight - {e.origin.timer}) + {e.origin.timer};
    }
  }

  lemma ExecutorGrows(log: Log, s: Sys, e: Event)
    requires Separate(s) && Enabled(s, e) && e.Deliver?
    ensures |Next(log, s, e).executor.timers| == |s.executor.timers| + ScheduledBy(log, s, e)
  {
    hide PatchOutcome, Next, Expiries;
    DeliveryMovesTimers(log, s, e);
    if Commits(log, s, e) && OutcomeOf(log, s, e).Accepted? {
      var d := OutcomeOf(log, s, e).destination;
      ScheduleCount(s.executor, Expiries(log, d), d, s.doc.version + 1, s.clock);
    }
  }

  lemma ScheduleCount(executor: Executor, delays: map<string, int>, from: string, serial: int, now: int)
    requires forall t | t in executor.timers :: t.serial < serial
    ensures |executor.Schedule(delays, from, serial, now).timers| == |executor.timers| + |delays|
  {
    NewTimersCount(delays, from, serial, now);
    var added := NewTimers(delays, from, serial, now);
    assert added !! executor.timers;
    assert |executor.timers + added| == |executor.timers| + |added|;
  }

  /**
   At every point of every run, the timers scheduled by the accepted transitions so far, counted
   by the expiry maps of their destinations, are exactly those pending, being fetched or in
   flight, and those whose patch was accepted, was refused, or was lost with its GET.
   */
  lemma {:induction false} TimersAreConserved(log: Log, r: Run, n: nat)
    requires IsRun(log, r) && n <= |r.events|
    ensures TotalScheduled(log, r, n) ==
            Held(r.states[n]) + TotalEnded(log, r, n, PatchAccepted)
            + TotalEnded(log, r, n, PatchRefused) + TotalEnded(log, r, n, Lost)
  {
    if n > 0 {
      TimersAreConserved(log, r, n - 1);
      AlwaysSeparate(log, r, n - 1);
      StepBalances(log, r.states[n - 1], r.events[n - 1]);
    }
  }

  /** A timer that has left the system never comes back. */
  lemma {:induction false} GoneForGood(log: Log, r: Run, t: Timer, i: nat, n: nat)
    requires IsRun(log, r) && i <= n <= |r.events|
    requires !r.states[i].Holds(t) && t.serial <= r.states[i].doc.version
    ensures !r.states[n].Holds(t) && t.serial <= r.states[n].doc.version
  {
    if i < n {
      GoneForGood(log, r, t, i, n - 1);
      AlwaysSeparate(log, r, n - 1);
      StepKeepsSeparate(log, r.states[n - 1], r.events[n - 1]);
      if r.states[n].Holds(t) {
        NewTimerIsScheduled(log, r.states[n - 1], r.events[n - 1], t);
        assert false;
      }
    }
  }

  /** No timer delivers two patches, so none yields two accepted transitions. */
  lemma NoTimerFiresTwice(log: Log, r: Run, i: nat, j: nat)
    requires IsRun(log, r) && i < j < |r.events|
    requires r.events[i].Deliver? && r.events[i].origin.Expiry?
    requires r.events[j].Deliver? && r.events[j].origin.Expiry?
    ensures r.events[i].origin.timer != r.events[j].origin.timer
  {
    var t := r.events[i].origin.timer;
    AlwaysSeparate(log, r, i);
    StepKeepsSeparate(log, r.states[i], r.events[i]);
    DeliveredIsGone(log, r.states[i], r.events[i], t);
    GoneForGood(log, r, t, i + 1, j);
  }

  lemma DeliveredIsGone(log: Log, s: Sys, e: Event, t: Timer)
    requires Separate(s) && Enabled(s, e) && e.Deliver? && e.origin == Expiry(t)
    ensures !Next(log, s, e).Holds(t)
  {
  }

  /**
   An expiry patch for a state the document is not in is refused as stale: nothing is stored, no
   timer is scheduled, no action runs, and the timer is gone for good.
   */
  lemma ForeignExpiryIsRefused(log: Log, r: Run, k: nat, n: nat)
    requires IsRun(log, r) && k < n <= |r.events|
    requires r.events[k].Deliver? && r.events[k].origin.Expiry?
    requires r.states[k].doc.state != Some(r.events[k].origin.timer.fromState)
    ensures OutcomeOf(log, r.states[k], r.events[k]).StateMismatch? && !Commits(log, r.states[k], r.events[k])
    ensures var (s, s') := (r.states[k], r.states[k + 1]);
            && s'.doc == s.doc && s'.history == s.history && s'.executor == s.executor && s'.effects == s.effects
    ensures !r.states[n].Holds(r.events[k].origin.timer)
  {
    var (s, e) := (r.states[k], r.events[k]);
    var t := e.origin.timer;
    AlwaysSeparate(log, r, k);
    StepKeepsSeparate(log, s, e);
    DeliveredIsGone(log, s, e, t);
    GoneForGood(log, r, t, k + 1, n);
    assert OutcomeOf(log, s, e).StateMismatch?;
    NothingStored(log, s, e);
  }
}
