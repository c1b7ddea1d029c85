/** The paths of a configuration, and the runs that follow them. */
module Reachability {
  import opened Options
  import opened Registrations
  import opened Documents
  import opened PatchSemantics
  import opened FsmRuns
  import opened RunInvariants

  /** Firing `trigger` in `src` enters the configured state `dest`. */
  ghost predicate Leads(log: Log, src: string, trigger: string, env: Env, dest: string) {
    FireOutcome(log, Some(src), trigger, env) == Accepted(dest)
  }

  /** One transition of a path: the state it leaves, and what makes it leave. */
  datatype Hop = Hop(source: string, trigger: string, env: Env)

  /** A chain of transitions from `a` to `b`, the guards answering anew for each. */
  ghost predicate Path(log: Log, a: string, hops: seq<Hop>, b: string) {
    if hops == [] then a == b
    else
      var last := hops[|hops| - 1];
      Path(log, a, hops[..|hops| - 1], last.source) && Leads(log, last.source, last.trigger, last.env, b)
  }

  ghost predicate Reaches(log: Log, a: string, b: string) {
    exists hops :: Path(log, a, hops, b)
  }

  ghost predicate OnCycle(log: Log, b: string) {
    exists hops :: hops != [] && Path(log, b, hops, b)
  }

  // ---- From paths to runs ----

  function Sends(trigger: string, env: Env): Event {
    Deliver(Client(Patch(None, Some(trigger))), env, false)
  }

  lemma SendLeads(log: Log, s: Sys, trigger: string, env: Env, dest: string)
    requires s.doc.state.Some? && Leads(log, s.doc.state.value, trigger, env, dest)
    ensures var (e, s') := (Sends(trigger, env), Next(log, s, Sends(trigger, env)));
            && Commits(log, s, e)
            && s'.doc.state == Some(dest) && s'.doc.version == s.doc.version + 1 && s'.clock == s.clock
            && s'.executor == s.executor.Schedule(Expiries(log, dest), dest, s.doc.version + 1, s.clock)
  {
    hide FireOutcome, Expiries, PatchEffects;
    assert PatchOf(s, Client(Patch(None, Some(trigger)))) == Patch(None, Some(trigger));
    assert OutcomeOf(log, s, Sends(trigger, env)) == FireOutcome(log, s.doc.state, trigger, env) == Accepted(dest);
  }

  /** A run that ends in state `b`, at time `now`, with the given version. */
  ghost predicate Ends(log: Log, r: Run, b: string, now: int, version: int) {
    && IsRun(log, r)
    && var s := r.states[|r.events|];
       s.doc.state == Some(b) && s.clock == now && s.doc.version == version
  }

  /** The document posted in state `a`, at time 0. */
  function Posted(a: string): Sys {
    var doc := Doc(Some(a), None, None, None, 0);
    Sys(doc, 0, None, Executor({}), {}, {}, [doc], [])
  }

  lemma PostedRun(log: Log, a: string) returns (r: Run)
    ensures Ends(log, r, a, 0, 0) && r.events == [] && r.states == [Posted(a)]
  {
    r := Run([Posted(a)], []);
  }

  lemma Extend(log: Log, r: Run, e: Event) returns (r': Run)
    requires IsRun(log, r) && Enabled(r.states[|r.events|], e)
    ensures IsRun(log, r') && r'.events == r.events + [e]
    ensures r'.states == r.states + [Next(log, r.states[|r.events|], e)]
  {
    hide Next;
    r' := Run(r.states + [Next(log, r.states[|r.events|], e)], r.events + [e]);
  }

  /** `r'` goes on where `r` stops. */
  ghost predicate Continues(r: Run, r': Run) {
    r.events <= r'.events && r.states <= r'.states
  }

  /** Every path can be followed: a client sends its triggers one after the other. */
  lemma {:induction false} Follow(log: Log, r: Run, a: string, hops: seq<Hop>, b: string, now: int, version: int)
    returns (r': Run)
    requires Ends(log, r, a, now, version) && Path(log, a, hops, b)
    ensures Ends(log, r', b, now, version + |hops|) && Continues(r, r')
    ensures |r'.events| == |r.events| + |hops|
    ensures forall k | |r.events| <= k < |r'.events| :: Commits(log, r'.states[k], r'.events[k])
    ensures r.states[|r.events|].executor.timers <= r'.states[|r'.events|].executor.timers
    ensures hops != [] ==> forall t | t in Expiries(log, b) ::
              Timer(version + |hops|, t, b, now + Expiries(log, b)[t]) in r'.states[|r'.events|].executor.timers
  {
    hide Next, Commits, Expiries, Leads;
    if hops == [] {
      r' := r;
    } else {
      var last := hops[|hops| - 1];
      var before := Follow(log, r, a, hops[..|hops| - 1], last.source, now, version);
      var s := before.states[|before.events|];
      SendLeads(log, s, last.trigger, last.env, b);
      r' := Extend(log, before, Sends(last.trigger, last.env));
    }
  }

  // ---- From runs to paths ----

  /** Between any two points of a run from which it can still move, the commits are a path. */
  lemma {:induction false} PathTaken(log: Log, r: Run, i: nat, n: nat) returns (hops: seq<Hop>)
    requires IsRun(log, r) && i <= n <= |r.events| && InConfiguredState(log, r.states[n])
    ensures InConfiguredState(log, r.states[i])
    ensures Path(log, r.states[i].doc.state.value, hops, r.states[n].doc.state.value)
    ensures |hops| == r.states[n].doc.version - r.states[i].doc.version
  {
    if i == n {
      hops := [];
    } else {
      var (s, e) := (r.states[n - 1], r.events[n - 1]);
      if Commits(log, s, e) {
        CommitIsHop(log, s, e);
        var front := PathTaken(log, r, i, n - 1);
        hops := front + [Hop(s.doc.state.value, PatchOf(s, e.origin).trigger.value, e.env)];
        assert hops[..|front|] == front;
      } else {
        NothingStored(log, s, e);
        hops := PathTaken(log, r, i, n - 1);
      }
    }
  }

  /** A commit into a configured state is a transition between configured states. */
  lemma CommitIsHop(log: Log, s: Sys, e: Event)
    requires Commits(log, s, e) && InConfiguredState(log, Next(log, s, e))
    ensures InConfiguredState(log, s) && PatchOf(s, e.origin).trigger.Some?
    ensures Leads(log, s.doc.state.value, PatchOf(s, e.origin).trigger.value, e.env, Next(log, s, e).doc.state.value)
    ensures Next(log, s, e).doc.version == s.doc.version + 1
  {
    CommitStores(log, s, e);
  }
}
