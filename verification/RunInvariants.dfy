/** What holds of every run: no missing states, the trace of actions, and the expiry fields. */
module RunInvariants {
  import opened Options
  import opened Registrations
  import opened Documents
  import opened PatchSemantics
  import opened FsmRuns

  // ---- Closed machines ----

  /** Every registered destination is itself configured. */
  ghost predicate Closed(log: Log) {
    forall r | r in log && r.Permitted? :: IsConfigured(log, r.behaviour.destination)
  }

  ghost predicate InConfiguredState(log: Log, s: Sys) {
    s.doc.state.Some? && IsConfigured(log, s.doc.state.value)
  }

  lemma ClosedDestinationsExist(log: Log, src: Option<string>, patch: Patch, env: Env)
    requires Closed(log) && src.Some? && IsConfigured(log, src.value)
    ensures !PatchOutcome(log, src, patch, env).SourceUnknown?
    ensures !PatchOutcome(log, src, patch, env).DestinationUnknown?
    ensures PatchOutcome(log, src, patch, env).Accepted? ==>
              IsConfigured(log, PatchOutcome(log, src, patch, env).destination)
  {
    if patch.trigger.Some? && Find(log, src.value, patch.trigger.value, env).Handler? {
      HandlerWasPermitted(log, src.value, patch.trigger.value, env);
    }
  }

  lemma {:induction false} ClosedStaysConfigured(log: Log, r: Run, n: nat)
    requires Closed(log) && IsRun(log, r) && n <= |r.events|
    requires InConfiguredState(log, r.states[0])
    ensures InConfiguredState(log, r.states[n])
  {
    if n > 0 {
      var (s, e) := (r.states[n - 1], r.events[n - 1]);
      ClosedStaysConfigured(log, r, n - 1);
      if Commits(log, s, e) {
        CommitStores(log, s, e);
        ClosedDestinationsExist(log, s.doc.state, PatchOf(s, e.origin), e.env);
      } else {
        NothingStored(log, s, e);
      }
    }
  }

  /**
   A closed machine that starts in a configured state never meets a missing state: every patch
   of every run is accepted, refused, or stopped by the ambiguity error, and one that is not
   accepted leaves the document, its versions, the timers' executor and the actions alone.
   */
  lemma ClosedNeverStuck(log: Log, r: Run, k: nat)
    requires Closed(log) && IsRun(log, r) && k < |r.events| && r.events[k].Deliver?
    requires InConfiguredState(log, r.states[0])
    ensures var (s, s', o) := (r.states[k], r.states[k + 1], OutcomeOf(log, r.states[k], r.events[k]));
            && (o.Accepted? || o.TriggerMissing? || o.StateMismatch? || o.NotPermitted? || o.Ambiguous?)
            && (o.Accepted? <==> Commits(log, s, r.events[k]))
            && (!o.Accepted? ==>
                  s'.doc == s.doc && s'.history == s.history && s'.executor == s.executor && s'.effects == s.effects)
  {
    var (s, e) := (r.states[k], r.events[k]);
    ClosedStaysConfigured(log, r, k);
    ClosedDestinationsExist(log, s.doc.state, PatchOf(s, e.origin), e.env);
  }

  /** A document that is once stored in an unconfigured state stays there for good. */
  lemma {:induction false} UnconfiguredIsForever(log: Log, r: Run, n: nat, m: nat)
    requires IsRun(log, r) && n <= m <= |r.events|
    requires !InConfiguredState(log, r.states[n])
    ensures r.states[m].doc == r.states[n].doc
    ensures m < |r.events| ==> !Commits(log, r.states[m], r.events[m])
  {
    if n < m {
      UnconfiguredIsForever(log, r, n, m - 1);
      NothingStored(log, r.states[m - 1], r.events[m - 1]);
    }
  }

  // ---- The trace of actions ----

  function StepEffects(log: Log, s: Sys, e: Event): (effects: seq<Effect>)
    requires Acts(log, s, e)
    ensures effects != []
  {
    PatchEffects(log, StepEdge(log, s, e).source, StepEdge(log, s, e).trigger, OutcomeOf(log, s, e))
  }

  /** The effects of the patches that fired a trigger in the first `n` steps, in order. */
  ghost function FiredEffects(log: Log, r: Run, n: nat): seq<Effect>
    requires IsRun(log, r) && n <= |r.events|
  {
    if n == 0 then []
    else
      var (s, e) := (r.states[n - 1], r.events[n - 1]);
      FiredEffects(log, r, n - 1) +
      if Acts(log, s, e) then StepEffects(log, s, e) else []
  }

  /** The effects of the committed patches only. */
  ghost function CommittedEffects(log: Log, r: Run, n: nat): seq<Effect>
    requires IsRun(log, r) && n <= |r.events|
  {
    if n == 0 then []
    else
      var (s, e) := (r.states[n - 1], r.events[n - 1]);
      CommittedEffects(log, r, n - 1) +
      if Commits(log, s, e) then StepEffects(log, s, e) else []
  }

  lemma StepTrace(log: Log, s: Sys, e: Event)
    requires Enabled(s, e)
    ensures Next(log, s, e).effects ==
            if Acts(log, s, e) then s.effects + StepEffects(log, s, e) else s.effects
  {
  }

  /** The actions of any run are those of the patches that fired a trigger, in order, and no others. */
  lemma {:induction false} ActionTrace(log: Log, r: Run, n: nat)
    requires IsRun(log, r) && n <= |r.events|
    ensures r.states[n].effects == FiredEffects(log, r, n)
  {
    if n > 0 {
      ActionTrace(log, r, n - 1);
      StepTrace(log, r.states[n - 1], r.events[n - 1]);
    }
  }

  /** A patch that fires a trigger towards an unknown destination before any action has completed it. */
  ghost predicate Strays(log: Log, s: Sys, e: Event) {
    e.Deliver? && Enabled(s, e) && OutcomeOf(log, s, e).DestinationUnknown? && !e.early
  }

  /** Such a patch is not stored, and has run the exit actions of a state that is not left. */
  lemma StrayPatchActs(log: Log, s: Sys, e: Event)
    requires Strays(log, s, e)
    ensures !Commits(log, s, e)
    ensures var (edge, s') := (StepEdge(log, s, e), Next(log, s, e));
            && s'.doc == s.doc && s'.history == s.history && s'.executor == s.executor
            && s'.effects == s.effects + LeaveEffects(log, edge.source, edge.trigger, edge.destination)
            && s'.effects != s.effects
  {
  }

  lemma {:induction false} CommittedAmongFired(log: Log, r: Run, n: nat)
    requires IsRun(log, r) && n <= |r.events|
    ensures |CommittedEffects(log, r, n)| <= |FiredEffects(log, r, n)|
    ensures |CommittedEffects(log, r, n)| == |FiredEffects(log, r, n)| <==>
            forall k | 0 <= k < n :: !Strays(log, r.states[k], r.events[k])
    ensures (forall k | 0 <= k < n :: !Strays(log, r.states[k], r.events[k])) ==>
              CommittedEffects(log, r, n) == FiredEffects(log, r, n)
  {
    hide StepEffects;
    if n > 0 {
      CommittedAmongFired(log, r, n - 1);
    }
  }

  /** The actions of a run are those of its committed patches exactly when no patch strays. */
  lemma CommittedTraceIff(log: Log, r: Run, n: nat)
    requires IsRun(log, r) && n <= |r.events|
    ensures r.states[n].effects == CommittedEffects(log, r, n) <==>
            forall k | 0 <= k < n :: !Strays(log, r.states[k], r.events[k])
  {
    ActionTrace(log, r, n);
    CommittedAmongFired(log, r, n);
  }

  /** In a closed machine no patch strays. */
  lemma ClosedActionTrace(log: Log, r: Run, n: nat)
    requires Closed(log) && IsRun(log, r) && n <= |r.events|
    requires InConfiguredState(log, r.states[0])
    ensures r.states[n].effects == CommittedEffects(log, r, n)
  {
    forall k | 0 <= k < n ensures !Strays(log, r.states[k], r.events[k]) {
      if r.events[k].Deliver? {
        ClosedNeverStuck(log, r, k);
      }
    }
    CommittedTraceIff(log, r, n);
  }

  // ---- The expiry fields ----

  /** The step accepts a transition whose destination has expiries. */
  ghost predicate Schedules(log: Log, s: Sys, e: Event) {
    && Commits(log, s, e) && OutcomeOf(log, s, e).Accepted?
    && Expiries(log, OutcomeOf(log, s, e).destination) != map[]
  }

  ghost predicate SameExpiryFields(d: Doc, d': Doc) {
    d.expireFromState == d'.expireFromState && d.expiryTriggerAndDelays == d'.expiryTriggerAndDelays
  }

  lemma StepExpiryFields(log: Log, s: Sys, e: Event)
    requires Enabled(s, e)
    ensures !Schedules(log, s, e) ==> SameExpiryFields(s.doc, Next(log, s, e).doc)
    ensures Schedules(log, s, e) ==>
              && Next(log, s, e).doc.expireFromState == Some(OutcomeOf(log, s, e).destination)
              && Next(log, s, e).doc.expiryTriggerAndDelays ==
                 Some(Expiries(log, OutcomeOf(log, s, e).destination))
  {
  }

  /** Without a scheduling step the fields stay what they were. */
  lemma {:induction false} ExpiryFieldsStay(log: Log, r: Run, i: nat, n: nat)
    requires IsRun(log, r) && i <= n <= |r.events|
    requires forall k | i <= k < n :: !Schedules(log, r.states[k], r.events[k])
    ensures SameExpiryFields(r.states[i].doc, r.states[n].doc)
  {
    if i < n {
      ExpiryFieldsStay(log, r, i, n - 1);
      StepExpiryFields(log, r.states[n - 1], r.events[n - 1]);
    }
  }

  /**
   The expiry fields are those of the latest accepted transition whose destination has
   expiries, and the posted ones when there was none.
   */
  lemma ExpiryFieldsRemember(log: Log, r: Run, n: nat)
    requires IsRun(log, r) && n <= |r.events|
    ensures (forall k | 0 <= k < n :: !Schedules(log, r.states[k], r.events[k])) ==>
              SameExpiryFields(r.states[0].doc, r.states[n].doc)
    ensures forall k | 0 <= k < n && Schedules(log, r.states[k], r.events[k])
                       && (forall m | k < m < n :: !Schedules(log, r.states[m], r.events[m])) ::
              var d := OutcomeOf(log, r.states[k], r.events[k]).destination;
              && r.states[n].doc.expireFromState == Some(d)
              && r.states[n].doc.expiryTriggerAndDelays == Some(Expiries(log, d))
  {
    if forall k | 0 <= k < n :: !Schedules(log, r.states[k], r.events[k]) {
      ExpiryFieldsStay(log, r, 0, n);
    }
    forall k | 0 <= k < n && Schedules(log, r.states[k], r.events[k])
               && (forall m | k < m < n :: !Schedules(log, r.states[m], r.events[m]))
      ensures var d := OutcomeOf(log, r.states[k], r.events[k]).destination;
              && r.states[n].doc.expireFromState == Some(d)
              && r.states[n].doc.expiryTriggerAndDelays == Some(Expiries(log, d))
    {
      StepExpiryFields(log, r.states[k], r.events[k]);
      ExpiryFieldsStay(log, r, k + 1, n);
    }
  }
}
