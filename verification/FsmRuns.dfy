/**
 Runs of one state machine document. Client patches, the self-patch and expiry patches arrive
 in any order; a timer becomes due, is answered by a GET and then sends its patch, each a step
 of its own, so that everything may interleave.
 */
module FsmRuns {
  import opened Options
  import opened Registrations
  import opened Documents
  import opened PatchSemantics

  datatype Sys = Sys(
    doc: Doc,
    clock: int,
    selfPatch: Option<Patch>,
    executor: Executor,
    fetching: set<Timer>,
    inFlight: set<Timer>,
    history: seq<Doc>,
    effects: seq<Effect>)
  {
    ghost predicate Holds(t: Timer) {
      t in executor.timers || t in fetching || t in inFlight
    }
  }

  datatype Origin = Client(patch: Patch) | Self | Expiry(timer: Timer)

  /**
   `early` says whether an exit action had already completed the request, so that its document
   is stored although entering an unknown destination then throws.
   */
  datatype Event =
    | ClockAdvances(elapsed: nat)
    | TimerDue(timer: Timer)
    | GetAnswered(timer: Timer, readable: bool)
    | Deliver(origin: Origin, env: Env, early: bool)

  predicate Enabled(s: Sys, e: Event) {
    match e
    case ClockAdvances(_) => true
    case TimerDue(t) => t in s.executor.timers && t.dueAt <= s.clock
    case GetAnswered(t, _) => t in s.fetching
    case Deliver(Client(_), _, _) => true
    case Deliver(Self, _, _) => s.selfPatch.Some?
    case Deliver(Expiry(t), _, _) => t in s.inFlight
  }

  function PatchOf(s: Sys, origin: Origin): Patch
    requires origin.Self? ==> s.selfPatch.Some?
  {
    match origin
    case Client(p) => p
    case Self => s.selfPatch.value
    case Expiry(t) => Patch(Some(t.fromState), Some(t.trigger))
  }

  function OutcomeOf(log: Log, s: Sys, e: Event): Outcome
    requires e.Deliver? && Enabled(s, e)
  {
    PatchOutcome(log, s.doc.state, PatchOf(s, e.origin), e.env)
  }

  /** The step fires its trigger: it writes the new state and runs actions, stored or not. */
  predicate Acts(log: Log, s: Sys, e: Event) {
    e.Deliver? && Enabled(s, e) && OutcomeOf(log, s, e).Writes()
  }

  /** The step stores a new version of the document. */
  predicate Commits(log: Log, s: Sys, e: Event) {
    Acts(log, s, e) && (OutcomeOf(log, s, e).Accepted? || e.early)
  }

  /** The edge of the machine that a step takes, or tries to take. */
  function StepEdge(log: Log, s: Sys, e: Event): Edge
    requires Acts(log, s, e)
  {
    WritesAlongAnEdge(log, s.doc.state, PatchOf(s, e.origin), e.env);
    Edge(s.doc.state.value, PatchOf(s, e.origin).trigger.value, OutcomeOf(log, s, e).destination)
  }

  function Taken(s: Sys, origin: Origin): Sys {
    match origin
    case Client(_) => s
    case Self => s.(selfPatch := None)
    case Expiry(t) => s.(inFlight := s.inFlight - {t})
  }

  function Next(log: Log, s: Sys, e: Event): Sys
    requires Enabled(s, e)
  {
    match e
    case ClockAdvances(elapsed) => s.(clock := s.clock + elapsed)
    case TimerDue(t) => s.(executor := Executor(s.executor.timers - {t}), fetching := s.fetching + {t})
    case GetAnswered(t, readable) =>
      s.(fetching := s.fetching - {t}, inFlight := if readable then s.inFlight + {t} else s.inFlight)
    case Deliver(_, _, _) => Delivered(log, s, e)
  }

  function Delivered(log: Log, s: Sys, e: Event): Sys
    requires e.Deliver? && Enabled(s, e)
  {
    var o := OutcomeOf(log, s, e);
    var s' := Taken(s, e.origin);
    if !o.Writes() then s'
    else
      WritesAlongAnEdge(log, s.doc.state, PatchOf(s, e.origin), e.env);
      var trigger := PatchOf(s, e.origin).trigger.value;
      var s'' := s'.(effects := s.effects + PatchEffects(log, s.doc.state.value, trigger, o));
      if !Commits(log, s, e) then s''
      else
        var serial := s.doc.version + 1;
        var doc := DocAfter(log, s.doc, trigger, o).(version := serial);
        s''.(doc := doc,
             history := s.history + [doc],
             executor := ExecutorAfter(log, s.executor, o, serial, s.clock))
  }

  /** A freshly created document: one version, no timers, perhaps the self-patch on its way. */
  ghost predicate Initial(s: Sys) {
    && s.doc.state.Some?
    && s.history == [s.doc]
    && s.executor == Executor({}) && s.fetching == {} && s.inFlight == {} && s.effects == []
    && (s.selfPatch.Some? ==> s.selfPatch.value.state == s.doc.state)
  }

  datatype Run = Run(states: seq<Sys>, events: seq<Event>)

  ghost predicate IsRun(log: Log, r: Run) {
    && |r.states| == |r.events| + 1
    && Initial(r.states[0])
    && forall i | 0 <= i < |r.events| ::
         Enabled(r.states[i], r.events[i]) && r.states[i + 1] == Next(log, r.states[i], r.events[i])
  }

  /** What the creating POST leaves behind starts a run. */
  lemma StartIsInitial(init: Option<string>, posted: Doc, initialTrigger: Option<string>, now: int)
    ensures var doc := StartedDoc(init, posted);
            Initial(Sys(doc, now, SelfPatch(init, doc, initialTrigger), Executor({}), {}, {}, [doc], []))
  {
  }

  /**
   A step that does not commit leaves the document, its versions and the executor alone, and it
   runs actions exactly when it fires a trigger all the same.
   */
  lemma NothingStored(log: Log, s: Sys, e: Event)
    requires Enabled(s, e) && !Commits(log, s, e)
    ensures Next(log, s, e).doc == s.doc && Next(log, s, e).history == s.history
    ensures e.Deliver? ==> Next(log, s, e).executor == s.executor
    ensures Next(log, s, e).effects == s.effects <==> !Acts(log, s, e)
  {
  }

  /** What the steps of a timer do: it becomes due, and its GET either yields a patch or loses it. */
  lemma TimerSteps(log: Log, s: Sys, t: Timer)
    ensures Enabled(s, TimerDue(t)) <==> t in s.executor.timers && t.dueAt <= s.clock
    ensures Enabled(s, TimerDue(t)) ==>
              Next(log, s, TimerDue(t)) ==
              s.(executor := Executor(s.executor.timers - {t}), fetching := s.fetching + {t})
    ensures forall readable :: Enabled(s, GetAnswered(t, readable)) <==> t in s.fetching
    ensures t in s.fetching ==>
              && Next(log, s, GetAnswered(t, false)) == s.(fetching := s.fetching - {t})
              && Next(log, s, GetAnswered(t, true)) == s.(fetching := s.fetching - {t}, inFlight := s.inFlight + {t})
  {
  }

  /** What can be delivered: any client patch, the self-patch on its way, an expiry in flight; and what it carries. */
  lemma Deliveries(s: Sys, patch: Patch, t: Timer, env: Env, early: bool)
    ensures Enabled(s, Deliver(Client(patch), env, early)) && PatchOf(s, Client(patch)) == patch
    ensures Enabled(s, Deliver(Self, env, early)) <==> s.selfPatch != None
    ensures s.selfPatch != None ==> Some(PatchOf(s, Self)) == s.selfPatch
    ensures Enabled(s, Deliver(Expiry(t), env, early)) <==> t in s.inFlight
    ensures PatchOf(s, Expiry(t)) == Patch(Some(t.fromState), Some(t.trigger))
  {
  }

  /** The self-patch is delivered at most once. */
  lemma {:induction false} SelfPatchOnce(log: Log, r: Run, k: nat, n: nat)
    requires IsRun(log, r) && k < n <= |r.events| && r.events[k].Deliver? && r.events[k].origin.Self?
    ensures r.states[n].selfPatch == None
    ensures n < |r.events| && r.events[n].Deliver? ==> !r.events[n].origin.Self?
  {
    if k + 1 < n {
      SelfPatchOnce(log, r, k, n - 1);
    }
  }

  /** What a delivery does to the timers. */
  lemma DeliveryMovesTimers(log: Log, s: Sys, e: Event)
    requires Enabled(s, e) && e.Deliver?
    ensures Next(log, s, e).fetching == s.fetching
    ensures Next(log, s, e).inFlight == if e.origin.Expiry? then s.inFlight - {e.origin.timer} else s.inFlight
    ensures Next(log, s, e).executor ==
            if Commits(log, s, e)
            then ExecutorAfter(log, s.executor, OutcomeOf(log, s, e), s.doc.version + 1, s.clock)
            else s.executor
  {
  }

  /** A committing step stores a new version, reached from the old one along an edge of the log. */
  lemma CommitStores(log: Log, s: Sys, e: Event)
    requires Commits(log, s, e)
    ensures var (edge, s') := (StepEdge(log, s, e), Next(log, s, e));
            && s.doc.state == Some(edge.source)
            && s'.doc.state == Some(edge.destination)
            && s'.doc.trigger == Some(edge.trigger)
            && s'.doc.version == s.doc.version + 1
            && s'.history == s.history + [s'.doc]
    ensures StepEdge(log, s, e) in LogEdges(log)
    ensures PatchOf(s, e.origin).state.Some? ==> PatchOf(s, e.origin).state == s.doc.state
  {
    WritesAlongAnEdge(log, s.doc.state, PatchOf(s, e.origin), e.env);
  }

  // ---- Competing triggers ----

  /** While nothing enters state `st`, a document outside of it stays outside. */
  lemma {:induction false} StaysOutside(log: Log, r: Run, st: string, i: nat, n: nat)
    requires IsRun(log, r) && i <= n <= |r.events|
    requires r.states[i].doc.state != Some(st)
    requires forall k | i <= k < n && Commits(log, r.states[k], r.events[k]) ::
               r.states[k + 1].doc.state != Some(st)
    ensures r.states[n].doc.state != Some(st)
  {
    if i < n {
      StaysOutside(log, r, st, i, n - 1);
      if !Commits(log, r.states[n - 1], r.events[n - 1]) {
        NothingStored(log, r.states[n - 1], r.events[n - 1]);
      }
    }
  }

  ghost predicate DeliversTagged(s: Sys, e: Event, st: string) {
    e.Deliver? && Enabled(s, e) && PatchOf(s, e.origin).state == Some(st)
  }

  /**
   Of all patches tagged with state `st` that are delivered, in whatever order, while `st` is
   not entered or re-entered, at most one is accepted.
   */
  lemma CompetingTriggers(log: Log, r: Run, st: string, i: nat, j: nat, k: nat, k': nat)
    requires IsRun(log, r) && i <= k < k' < j <= |r.events|
    requires forall m | i <= m < j && Commits(log, r.states[m], r.events[m]) ::
               r.states[m + 1].doc.state != Some(st)
    requires DeliversTagged(r.states[k], r.events[k], st)
    requires DeliversTagged(r.states[k'], r.events[k'], st)
    ensures !(Commits(log, r.states[k], r.events[k]) && Commits(log, r.states[k'], r.events[k']))
  {
    if Commits(log, r.states[k], r.events[k]) {
      StaysOutside(log, r, st, k + 1, k');
      if Commits(log, r.states[k'], r.events[k']) {
        CommitStores(log, r.states[k'], r.events[k']);
        assert false;
      }
    }
  }

  // ---- Timer safety ----

  /** Step `j` accepted the transition that scheduled `t`. */
  ghost predicate ScheduledAt(log: Log, r: Run, j: nat, t: Timer) {
    && j < |r.events| < |r.states|
    && Commits(log, r.states[j], r.events[j])
    && OutcomeOf(log, r.states[j], r.events[j]) == Accepted(t.fromState)
    && r.states[j + 1].doc.state == Some(t.fromState)
    && t.serial == r.states[j + 1].doc.version
    && t.trigger in Expiries(log, t.fromState)
    && t.dueAt == r.states[j].clock + Expiries(log, t.fromState)[t.trigger]
  }

  lemma NewTimerIsScheduled(log: Log, s: Sys, e: Event, t: Timer)
    requires Enabled(s, e) && Next(log, s, e).Holds(t) && !s.Holds(t)
    ensures Commits(log, s, e) && OutcomeOf(log, s, e) == Accepted(t.fromState)
    ensures t.serial == s.doc.version + 1 && t.trigger in Expiries(log, t.fromState)
    ensures t.dueAt == s.clock + Expiries(log, t.fromState)[t.trigger]
  {
  }

  /** Every timer the system holds was scheduled by an earlier accepted transition into its state. */
  lemma {:induction false} TimerHasOrigin(log: Log, r: Run, n: nat, t: Timer) returns (j: nat)
    requires IsRun(log, r) && n <= |r.events| && r.states[n].Holds(t)
    ensures j < n && ScheduledAt(log, r, j, t)
  {
    if r.states[n - 1].Holds(t) {
      j := TimerHasOrigin(log, r, n - 1, t);
    } else {
      j := n - 1;
      NewTimerIsScheduled(log, r.states[j], r.events[j], t);
      CommitStores(log, r.states[j], r.events[j]);
    }
  }

  lemma {:induction false} OnlyDueTimersFetch(log: Log, r: Run, n: nat, t: Timer)
    requires IsRun(log, r) && n <= |r.events|
    requires t in r.states[n].fetching || t in r.states[n].inFlight
    ensures t.dueAt <= r.states[n].clock
  {
    if t in r.states[n - 1].fetching || t in r.states[n - 1].inFlight {
      OnlyDueTimersFetch(log, r, n - 1, t);
    }
  }

  /**
   An accepted expiry patch finds the document in the very state whose entry scheduled it; its
   trigger is an expiry of that state, and an accepted transition into that state happened at
   least the trigger's delay before.
   */
  lemma TimerSafety(log: Log, r: Run, k: nat) returns (j: nat)
    requires IsRun(log, r) && k < |r.events|
    requires Commits(log, r.states[k], r.events[k]) && r.events[k].origin.Expiry?
    ensures var t := r.events[k].origin.timer;
            && r.states[k].doc.state == Some(t.fromState)
            && j < k && ScheduledAt(log, r, j, t)
            && r.states[j].clock + Expiries(log, t.fromState)[t.trigger] <= r.states[k].clock
            && r.states[k + 1].doc.trigger == Some(t.trigger)
  {
    var t := r.events[k].origin.timer;
    CommitStores(log, r.states[k], r.events[k]);
    j := TimerHasOrigin(log, r, k, t);
    OnlyDueTimersFetch(log, r, k, t);
  }
}
