/** A timer belongs to a state, not to a visit of it: which configurations notice. */
module StaleTimers {
  import opened Options
  import opened Registrations
  import opened Documents
  import opened PatchSemantics
  import opened FsmRuns
  import opened RunInvariants
  import opened Reachability

  /** Versions grow exactly with the committed steps. */
  lemma {:induction false} VersionsGrow(log: Log, r: Run, m: nat, n: nat)
    requires IsRun(log, r) && m <= n <= |r.events|
    ensures r.states[m].doc.version <= r.states[n].doc.version
    ensures r.states[m].doc.version == r.states[n].doc.version <==>
            forall i | m <= i < n :: !Commits(log, r.states[i], r.events[i])
  {
    hide Next, Commits, StepEdge;
    if m < n {
      var (s, e) := (r.states[n - 1], r.events[n - 1]);
      VersionsGrow(log, r, m, n - 1);
      if Commits(log, s, e) {
        CommitStores(log, s, e);
      } else {
        NothingStored(log, s, e);
      }
    }
  }

  /**
   An accepted expiry ends the very visit that scheduled it if and only if the document still has
   the version the timer was scheduled with; only then has the visit lasted the whole delay.
   */
  lemma EndsItsOwnVisitIff(log: Log, r: Run, k: nat) returns (j: nat)
    requires IsRun(log, r) && k < |r.events|
    requires Commits(log, r.states[k], r.events[k]) && r.events[k].origin.Expiry?
    ensures var t := r.events[k].origin.timer;
            && j < k && ScheduledAt(log, r, j, t)
            && r.states[j].clock + Expiries(log, t.fromState)[t.trigger] <= r.states[k].clock
            && (t.serial == r.states[k].doc.version <==>
                  forall i | j < i < k :: !Commits(log, r.states[i], r.events[i]))
  {
    j := TimerSafety(log, r, k);
    VersionsGrow(log, r, j + 1, k);
  }

  /** Step `k` accepts the expiry `t` that step `j` scheduled, although step `i` has left that visit. */
  ghost predicate Outlives(log: Log, r: Run, j: nat, i: nat, k: nat, t: Timer) {
    && IsRun(log, r) && j < i < k < |r.events| && ScheduledAt(log, r, j, t)
    && Commits(log, r.states[i], r.events[i])
    && Commits(log, r.states[k], r.events[k]) && r.events[k].origin == Expiry(t)
  }

  /** Some guards let `trigger` fire in `b`. */
  ghost predicate CanFire(log: Log, b: string, trigger: string) {
    exists env :: FireOutcome(log, Some(b), trigger, env).Writes()
  }

  lemma Waits(log: Log, s: Sys, elapsed: nat)
    ensures Next(log, s, ClockAdvances(elapsed)) == s.(clock := s.clock + elapsed)
  {
  }

  /** A timer that is due gets from the executor into a patch, the document staying as it is. */
  lemma Fires(log: Log, s: Sys, t: Timer)
    requires t in s.executor.timers && t.dueAt <= s.clock
    ensures var s' := Next(log, s, TimerDue(t));
            && Enabled(s', GetAnswered(t, true)) && s'.doc == s.doc && s'.clock == s.clock
            && var s'' := Next(log, s', GetAnswered(t, true));
               t in s''.inFlight && s''.doc == s.doc && s''.clock == s.clock
  {
  }

  lemma ExpiryCommits(log: Log, s: Sys, t: Timer, env: Env)
    requires t in s.inFlight && s.doc.state == Some(t.fromState)
    requires FireOutcome(log, s.doc.state, t.trigger, env).Writes()
    ensures Commits(log, s, Deliver(Expiry(t), env, true))
  {
    hide FireOutcome;
    assert PatchOf(s, Expiry(t)) == Patch(Some(t.fromState), Some(t.trigger));
  }

  /** A due timer of the present state is delivered: two steps of its own, then its patch. */
  lemma FireAtEnd(log: Log, r: Run, t: Timer, env: Env) returns (r': Run)
    requires IsRun(log, r) && t in r.states[|r.events|].executor.timers && t.dueAt <= r.states[|r.events|].clock
    requires r.states[|r.events|].doc.state == Some(t.fromState)
    requires FireOutcome(log, Some(t.fromState), t.trigger, env).Writes()
    ensures IsRun(log, r') && Continues(r, r') && |r'.events| == |r.events| + 3
    ensures !Commits(log, r'.states[|r.events|], r'.events[|r.events|])
    ensures !Commits(log, r'.states[|r.events| + 1], r'.events[|r.events| + 1])
    ensures Commits(log, r'.states[|r.events| + 2], r'.events[|r.events| + 2])
    ensures r'.events[|r.events| + 2].origin == Expiry(t)
    ensures r'.states[|r.events| + 2].clock == r.states[|r.events|].clock
  {
    hide Next, FireOutcome;
    Fires(log, r.states[|r.events|], t);
    r' := Extend(log, r, TimerDue(t));
    r' := Extend(log, r', GetAnswered(t, true));
    ExpiryCommits(log, r'.states[|r'.events|], t, env);
    r' := Extend(log, r', Deliver(Expiry(t), env, true));
  }

  /** Into `b`, around a cycle, a wait, and around it again: the first timer is due and pending. */
  lemma SecondVisit(log: Log, a: string, there: seq<Hop>, b: string, back: string, hops: seq<Hop>)
    returns (r: Run, t: Timer)
    requires Path(log, a, there, b) && hops != [] && Path(log, b, hops, b) && back in Expiries(log, b)
    ensures IsRun(log, r) && r.states[0] == Posted(a) && |r.events| == |there| + 2 * |hops| + 1
    ensures r.states[|r.events|].doc.state == Some(b) && r.states[|r.events|].doc.version == |there| + 2 * |hops|
    ensures Commits(log, r.states[|r.events| - 1], r.events[|r.events| - 1])
    ensures t.fromState == b && t.trigger == back && t.serial == |there| + |hops|
    ensures t in r.states[|r.events|].executor.timers && t.dueAt <= r.states[|r.events|].clock
  {
    hide Next, Commits, Expiries, Path;
    var (n, d) := (|there| + |hops|, Expiries(log, b)[back]);
    var wait := if d < 0 then 0 else d;
    t := Timer(n, back, b, 0 + d);
    r := PostedRun(log, a);
    r := Follow(log, r, a, there, b, 0, 0);
    r := Follow(log, r, b, hops, b, 0, |there|);
    Waits(log, r.states[n], wait);
    r := Extend(log, r, ClockAdvances(wait));
    r := Follow(log, r, b, hops, b, wait, n);
  }

  /**
   A state that can be reached, lies on a cycle, and whose expiry can fire: there is a run that
   enters it, goes around the cycle, and in which the first visit's expiry ends the second one.
   Step `i` is the last commit before step `k`, it enters the state, and no time has passed
   since, so that a positive delay is cut short.
   */
  lemma StaleTimerEndsALaterVisit(log: Log, a: string, there: seq<Hop>, b: string, back: string, env: Env,
                                  hops: seq<Hop>)
    returns (r: Run, j: nat, i: nat, k: nat, t: Timer)
    requires Path(log, a, there, b) && hops != [] && Path(log, b, hops, b)
    requires back in Expiries(log, b) && FireOutcome(log, Some(b), back, env).Writes()
    ensures Outlives(log, r, j, i, k, t) && t.fromState == b && t.trigger == back
    ensures r.states[0] == Posted(a) && r.states[i + 1].doc.state == Some(b)
    ensures forall m | i < m < k :: !Commits(log, r.states[m], r.events[m])
    ensures r.states[k].clock == r.states[i + 1].clock
  {
    hide Next, Commits, Expiries, FireOutcome, Path;
    r, t := SecondVisit(log, a, there, b, back, hops);
    i, k := |r.events| - 1, |r.events| + 2;
    r := FireAtEnd(log, r, t, env);
    j := TimerSafety(log, r, k);
    if j >= i {
      VersionsGrow(log, r, i + 1, j + 1);
    }
  }

  /** A timer that outlives its visit has taken the document around a cycle. */
  lemma OutlivedOnACycle(log: Log, r: Run, j: nat, i: nat, k: nat, t: Timer)
    requires Outlives(log, r, j, i, k, t)
    ensures t.trigger in Expiries(log, t.fromState) && CanFire(log, t.fromState, t.trigger)
    ensures OnCycle(log, t.fromState) && Reaches(log, r.states[0].doc.state.value, t.fromState)
  {
    hide Next, FireOutcome, Path;
    CommitStores(log, r.states[k], r.events[k]);
    assert FireOutcome(log, Some(t.fromState), t.trigger, r.events[k].env).Writes();
    if !InConfiguredState(log, r.states[k]) {
      UnconfiguredIsForever(log, r, k, k);
    }
    var there := PathTaken(log, r, 0, k);
    var hops := PathTaken(log, r, j + 1, k);
    VersionsGrow(log, r, j + 1, k);
    assert hops != [];
  }

  /** In some run of a document posted in state `a`, an expiry of `b` outlives the visit that scheduled it. */
  ghost predicate CanGoStale(log: Log, a: string, b: string, back: string) {
    exists r, j, i, k, t :: && Outlives(log, r, j, i, k, t) && r.states[0].doc.state == Some(a)
                            && t.fromState == b && t.trigger == back
  }

  /**
   For documents posted in state `a`, an expiry can end a visit other than the one that scheduled
   it if and only if it can fire at all and its state can be reached and lies on a cycle of the
   configuration. Everywhere else timers are safe.
   */
  lemma StaleTimerIff(log: Log, a: string, b: string, back: string)
    ensures CanGoStale(log, a, b, back) <==>
            back in Expiries(log, b) && CanFire(log, b, back) && Reaches(log, a, b) && OnCycle(log, b)
  {
    hide Expiries, FireOutcome, Path;
    if CanGoStale(log, a, b, back) {
      var r, j, i, k, t :| && Outlives(log, r, j, i, k, t) && r.states[0].doc.state == Some(a)
                           && t.fromState == b && t.trigger == back;
      OutlivedOnACycle(log, r, j, i, k, t);
    }
    if back in Expiries(log, b) && CanFire(log, b, back) && Reaches(log, a, b) && OnCycle(log, b) {
      var env :| FireOutcome(log, Some(b), back, env).Writes();
      var there :| Path(log, a, there, b);
      var hops :| hops != [] && Path(log, b, hops, b);
      var r, j, i, k, t := StaleTimerEndsALaterVisit(log, a, there, b, back, env, hops);
    }
  }
}
