/** Which configurations let a patch run actions although it is not stored. */
module StrayActions {
  import opened Options
  import opened Registrations
  import opened PatchSemantics
  import opened FsmRuns
  import opened RunInvariants
  import opened Reachability

  /** From `a` the configuration reaches a state with a behaviour towards an unconfigured one. */
  ghost predicate ReachesLooseEnd(log: Log, a: string) {
    exists b, trigger, env :: Reaches(log, a, b) && FireOutcome(log, Some(b), trigger, env).DestinationUnknown?
  }

  lemma StrayFoundALooseEnd(log: Log, r: Run, k: nat)
    requires IsRun(log, r) && k < |r.events| && Strays(log, r.states[k], r.events[k])
    ensures ReachesLooseEnd(log, r.states[0].doc.state.value)
  {
    hide Next, Path;
    var (s, e) := (r.states[k], r.events[k]);
    var hops := PathTaken(log, r, 0, k);
    var (b, trigger) := (s.doc.state.value, PatchOf(s, e.origin).trigger.value);
    assert Reaches(log, r.states[0].doc.state.value, b);
    assert FireOutcome(log, Some(b), trigger, e.env).DestinationUnknown?;
  }

  lemma LooseEndStrays(log: Log, a: string, hops: seq<Hop>, b: string, trigger: string, env: Env) returns (r: Run)
    requires Path(log, a, hops, b) && FireOutcome(log, Some(b), trigger, env).DestinationUnknown?
    ensures IsRun(log, r) && r.states[0] == Posted(a) && |r.events| == |hops| + 1
    ensures Strays(log, r.states[|hops|], r.events[|hops|])
  {
    hide Next, FireOutcome, Path;
    r := PostedRun(log, a);
    r := Follow(log, r, a, hops, b, 0, 0);
    var s := r.states[|hops|];
    assert PatchOf(s, Client(Patch(None, Some(trigger)))) == Patch(None, Some(trigger));
    r := Extend(log, r, Sends(trigger, env));
  }

  /**
   Documents posted in state `a` can run actions of patches that are not stored if and only if
   the configuration reaches, from `a`, a state with a behaviour towards an unconfigured one.
   */
  lemma StrayActionsIff(log: Log, a: string)
    ensures (exists r, n: nat :: IsRun(log, r) && r.states[0].doc.state == Some(a) && n <= |r.events|
                               && r.states[n].effects != CommittedEffects(log, r, n))
            <==> ReachesLooseEnd(log, a)
  {
    hide Next, Path, FireOutcome, Strays;
    if r, n: nat :| IsRun(log, r) && r.states[0].doc.state == Some(a) && n <= |r.events|
                    && r.states[n].effects != CommittedEffects(log, r, n) {
      CommittedTraceIff(log, r, n);
      var k :| 0 <= k < n && Strays(log, r.states[k], r.events[k]);
      StrayFoundALooseEnd(log, r, k);
    }
    if ReachesLooseEnd(log, a) {
      var b, trigger, env :| Reaches(log, a, b) && FireOutcome(log, Some(b), trigger, env).DestinationUnknown?;
      var hops :| Path(log, a, hops, b);
      var r := LooseEndStrays(log, a, hops, b, trigger, env);
      CommittedTraceIff(log, r, |r.events|);
    }
  }
}
