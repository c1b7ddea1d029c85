/**
 The flat log of everything a program registers while it configures a state machine, and
 what that log means: which behaviours a state has for a trigger, which handler a trigger
 finds, which actions run, which expiries are set. The configuration classes keep nested
 mutable tables; they are proved to represent this log.
 */
module Registrations {

  /** What guard `id` answers for a trigger while one patch is handled. */
  type Env = (nat, string) -> bool

  /** `NoGuard` is the always-true predicate of `permit`; the others are named by a number. */
  datatype Guard = NoGuard | GuardedBy(id: nat)

  datatype Behaviour = Behaviour(trigger: string, destination: string, guard: Guard) {
    predicate Met(env: Env) {
      guard.NoGuard? || env(guard.id, trigger)
    }
  }

  datatype EntryAction = Always(id: nat) | OnlyFrom(trigger: string, id: nat) {
    predicate RunsOn(t: string) {
      Always? || trigger == t
    }
  }

  datatype Registration =
    | Configured(state: string)
    | Permitted(state: string, behaviour: Behaviour)
    | EntryAdded(state: string, action: EntryAction)
    | ExitAdded(state: string, exitId: nat)
    | ExpiryAdded(state: string, trigger: string, delay: int)
  {
    predicate Permits(s: string, t: string) {
      Permitted? && state == s && behaviour.trigger == t
    }
  }

  type Log = seq<Registration>

  /** What a lookup of a trigger gives: no handler, the one handler, or the ambiguity error. */
  datatype Found = NoHandler | Handler(behaviour: Behaviour) | AmbiguousHandlers

  datatype Edge = Edge(source: string, trigger: string, destination: string)

  predicate IsConfigured(log: Log, s: string) {
    exists r | r in log :: r.state == s
  }

  /** The behaviours registered for trigger `t` of state `s`, in registration order. */
  function Behaviours(log: Log, s: string, t: string): seq<Behaviour> {
    if log == [] then []
    else
      var (front, last) := (log[..|log| - 1], log[|log| - 1]);
      Behaviours(front, s, t) + (if last.Permits(s, t) then [last.behaviour] else [])
  }

  function MetOnly(bs: seq<Behaviour>, env: Env): seq<Behaviour> {
    if bs == [] then []
    else
      var last := bs[|bs| - 1];
      MetOnly(bs[..|bs| - 1], env) + (if last.Met(env) then [last] else [])
  }

  function Choose(met: seq<Behaviour>): Found {
    if met == [] then NoHandler
    else if |met| == 1 then Handler(met[0])
    else AmbiguousHandlers
  }

  function Find(log: Log, s: string, t: string, env: Env): Found {
    Choose(MetOnly(Behaviours(log, s, t), env))
  }

  function EntryActions(log: Log, s: string): seq<EntryAction> {
    if log == [] then []
    else
      var (front, last) := (log[..|log| - 1], log[|log| - 1]);
      EntryActions(front, s) + (if last.EntryAdded? && last.state == s then [last.action] else [])
  }

  function ExitActions(log: Log, s: string): seq<nat> {
    if log == [] then []
    else
      var (front, last) := (log[..|log| - 1], log[|log| - 1]);
      ExitActions(front, s) + (if last.ExitAdded? && last.state == s then [last.exitId] else [])
  }

  function Expiries(log: Log, s: string): map<string, int> {
    if log == [] then map[]
    else
      var (front, last) := (log[..|log| - 1], log[|log| - 1]);
      if last.ExpiryAdded? && last.state == s then Expiries(front, s)[last.trigger := last.delay]
      else Expiries(front, s)
  }

  /** The edges the log registers, one for each permitted behaviour. */
  function LogEdges(log: Log): seq<Edge> {
    if log == [] then []
    else
      var (front, last) := (log[..|log| - 1], log[|log| - 1]);
      LogEdges(front) +
      (if last.Permitted? then [EdgeOf(last.state, last.behaviour)] else [])
  }

  function EdgeOf(s: string, b: Behaviour): Edge {
    Edge(s, b.trigger, b.destination)
  }

  /** The positions of the log whose behaviour serves `t` in `s` with its guard met. */
  ghost function MetAt(log: Log, s: string, t: string, env: Env): set<nat> {
    set i: nat | i < |log| && log[i].Permits(s, t) && log[i].behaviour.Met(env)
  }

  lemma MetOnlyAppend(bs: seq<Behaviour>, b: Behaviour, env: Env)
    ensures MetOnly(bs + [b], env) == MetOnly(bs, env) + (if b.Met(env) then [b] else [])
  {
    assert (bs + [b])[..|bs|] == bs;
  }

  /** One more registration adds at most its own behaviour to the met ones. */
  lemma MetStep(log: Log, s: string, t: string, env: Env)
    requires log != []
    ensures var (front, last) := (log[..|log| - 1], log[|log| - 1]);
            MetOnly(Behaviours(log, s, t), env) ==
            MetOnly(Behaviours(front, s, t), env) +
            (if last.Permits(s, t) && last.behaviour.Met(env) then [last.behaviour] else [])
  {
    var (front, last) := (log[..|log| - 1], log[|log| - 1]);
    if last.Permits(s, t) {
      MetOnlyAppend(Behaviours(front, s, t), last.behaviour, env);
    } else {
      assert Behaviours(log, s, t) == Behaviours(front, s, t);
    }
  }

  /** The positions of a longer log: those of the shorter one, and perhaps the last. */
  lemma MetAtStep(log: Log, s: string, t: string, env: Env)
    requires log != []
    ensures var (front, last) := (log[..|log| - 1], log[|log| - 1]);
            MetAt(log, s, t, env) == MetAt(front, s, t, env) +
              (if last.Permits(s, t) && last.behaviour.Met(env) then {|log| - 1} else {})
  {
    var front := log[..|log| - 1];
    assert forall i | 0 <= i < |front| :: log[i] == front[i];
  }

  lemma {:induction false} MetAtCounts(log: Log, s: string, t: string, env: Env)
    ensures |MetOnly(Behaviours(log, s, t), env)| == |MetAt(log, s, t, env)|
  {
    if log == [] {
      assert MetAt(log, s, t, env) == {};
    } else {
      MetAtCounts(log[..|log| - 1], s, t, env);
      MetStep(log, s, t, env);
      MetAtStep(log, s, t, env);
    }
  }

  lemma {:induction false} MetAtIsMet(log: Log, s: string, t: string, env: Env, i: nat)
    requires i in MetAt(log, s, t, env)
    ensures log[i].behaviour in MetOnly(Behaviours(log, s, t), env)
  {
    MetStep(log, s, t, env);
    if i < |log| - 1 {
      MetAtIsMet(log[..|log| - 1], s, t, env, i);
    }
  }

  /**
   The lookup answers exactly as counting the log entries for (state, trigger) whose guards
   are met does: none, the only one, or the ambiguity error.
   */
  lemma FindCountsTheLog(log: Log, s: string, t: string, env: Env)
    ensures var met := MetAt(log, s, t, env);
            match Find(log, s, t, env)
            case NoHandler => |met| == 0
            case Handler(b) => |met| == 1 && forall i | i in met :: log[i].behaviour == b
            case AmbiguousHandlers => |met| > 1
  {
    MetAtCounts(log, s, t, env);
    forall i | i in MetAt(log, s, t, env)
      ensures log[i].behaviour in MetOnly(Behaviours(log, s, t), env)
    {
      MetAtIsMet(log, s, t, env, i);
    }
  }

  lemma {:induction false} BehavioursServeTheirTrigger(log: Log, s: string, t: string)
    ensures forall b | b in Behaviours(log, s, t) :: b.trigger == t && Permitted(s, b) in log
  {
    if log != [] {
      var (front, last) := (log[..|log| - 1], log[|log| - 1]);
      BehavioursServeTheirTrigger(front, s, t);
    }
  }

  lemma {:induction false} MetAreBehaviours(bs: seq<Behaviour>, env: Env)
    ensures forall b | b in MetOnly(bs, env) :: b in bs && b.Met(env)
  {
    if bs != [] {
      MetAreBehaviours(bs[..|bs| - 1], env);
    }
  }

  lemma NeverMet(log: Log, s: string, t: string, env: Env, b: Behaviour)
    requires !(b.trigger == t && b.Met(env))
    ensures b !in MetOnly(Behaviours(log, s, t), env)
  {
    BehavioursServeTheirTrigger(log, s, t);
    MetAreBehaviours(Behaviours(log, s, t), env);
  }

  /** How often a behaviour occurs among the met ones depends on the log as a multiset only. */
  lemma {:induction false} MetMultiplicity(log: Log, s: string, t: string, env: Env, b: Behaviour)
    requires b.trigger == t && b.Met(env)
    ensures multiset(MetOnly(Behaviours(log, s, t), env))[b] == multiset(log)[Permitted(s, b)]
  {
    if log != [] {
      var (front, last) := (log[..|log| - 1], log[|log| - 1]);
      MetMultiplicity(front, s, t, env, b);
      MetStep(log, s, t, env);
      var met := MetOnly(Behaviours(front, s, t), env);
      assert log == front + [last];
      AppendCounts(front, last, Permitted(s, b));
      if last.Permits(s, t) && last.behaviour.Met(env) {
        AppendCounts(met, last.behaviour, b);
      } else {
        assert MetOnly(Behaviours(log, s, t), env) == met;
      }
    }
  }

  lemma AppendCounts<T>(xs: seq<T>, x: T, y: T)
    ensures multiset(xs + [x])[y] == multiset(xs)[y] + (if x == y then 1 else 0)
  {
    assert multiset(xs + [x]) == multiset(xs) + multiset{x};
  }

  lemma SameConfigured(log: Log, log': Log)
    requires multiset(log) == multiset(log')
    ensures forall s :: IsConfigured(log, s) <==> IsConfigured(log', s)
  {
    assert forall r :: r in log <==> r in multiset(log);
    assert forall r :: r in log' <==> r in multiset(log');
  }

  /** Any permutation of the registrations finds the same handlers. */
  lemma OrderIsIrrelevant(log: Log, log': Log, s: string, t: string, env: Env)
    requires multiset(log) == multiset(log')
    ensures Find(log, s, t, env) == Find(log', s, t, env)
  {
    hide Behaviours, MetOnly;
    var met, met' := MetOnly(Behaviours(log, s, t), env), MetOnly(Behaviours(log', s, t), env);
    forall b: Behaviour ensures multiset(met)[b] == multiset(met')[b] {
      if b.trigger == t && b.Met(env) {
        MetMultiplicity(log, s, t, env, b);
        MetMultiplicity(log', s, t, env, b);
      } else {
        NeverMet(log, s, t, env, b);
        NeverMet(log', s, t, env, b);
      }
    }
    assert multiset(met) == multiset(met');
    assert |met| == |multiset(met)| == |multiset(met')| == |met'|;
    if |met| == 1 {
      assert met[0] in multiset(met');
    }
  }

  /** The expiry map keeps, for each trigger, the delay registered last. */
  lemma {:induction false} LastDelayWins(log: Log, s: string, t: string)
    ensures t in Expiries(log, s) <==>
            exists i :: 0 <= i < |log| && log[i].ExpiryAdded? && log[i].state == s && log[i].trigger == t
    ensures forall i | 0 <= i < |log| && log[i].ExpiryAdded? && log[i].state == s && log[i].trigger == t
                       && (forall j | i < j < |log| ::
                             !(log[j].ExpiryAdded? && log[j].state == s && log[j].trigger == t)) ::
              Expiries(log, s)[t] == log[i].delay
  {
    if log != [] {
      var (front, last) := (log[..|log| - 1], log[|log| - 1]);
      LastDelayWins(front, s, t);
      assert forall i | 0 <= i < |front| :: front[i] == log[i];
    }
  }

  /** The edges drawn from one (state, trigger) cell of the table. */
  function CellEdges(s: string, bs: seq<Behaviour>): seq<Edge> {
    seq(|bs|, i requires 0 <= i < |bs| => EdgeOf(s, bs[i]))
  }

  /** An edge occurs in the log as often as in the one cell of its source and trigger. */
  lemma {:induction false} EdgesByCell(log: Log, e: Edge)
    ensures multiset(LogEdges(log))[e] ==
            multiset(CellEdges(e.source, Behaviours(log, e.source, e.trigger)))[e]
  {
    if log != [] {
      var (front, last) := (log[..|log| - 1], log[|log| - 1]);
      EdgesByCell(front, e);
      if last.Permits(e.source, e.trigger) {
        var bs := Behaviours(front, e.source, e.trigger);
        assert CellEdges(e.source, bs + [last.behaviour]) ==
               CellEdges(e.source, bs) + [EdgeOf(e.source, last.behaviour)];
      } else {
        assert Behaviours(log, e.source, e.trigger) == Behaviours(front, e.source, e.trigger);
      }
    }
  }

  /** A handler that is found was permitted, for that state and trigger, with its guard met. */
  lemma HandlerWasPermitted(log: Log, s: string, t: string, env: Env)
    requires Find(log, s, t, env).Handler?
    ensures var b := Find(log, s, t, env).behaviour;
            Permitted(s, b) in log && b.trigger == t && b.Met(env)
  {
    BehavioursServeTheirTrigger(log, s, t);
    MetAreBehaviours(Behaviours(log, s, t), env);
    var b := Find(log, s, t, env).behaviour;
    assert b in MetOnly(Behaviours(log, s, t), env);
  }

  lemma {:induction false} PermittedIsDrawn(log: Log, s: string, b: Behaviour)
    requires Permitted(s, b) in log
    ensures EdgeOf(s, b) in LogEdges(log)
  {
    var (front, last) := (log[..|log| - 1], log[|log| - 1]);
    if last != Permitted(s, b) {
      assert Permitted(s, b) in front;
      PermittedIsDrawn(front, s, b);
    }
  }

  /** What one more registration changes in each projection of the log. */
  lemma Appended(log: Log, r: Registration, s: string)
    ensures forall t :: Behaviours(log + [r], s, t) ==
                        Behaviours(log, s, t) + (if r.Permits(s, t) then [r.behaviour] else [])
    ensures EntryActions(log + [r], s) ==
            EntryActions(log, s) + (if r.EntryAdded? && r.state == s then [r.action] else [])
    ensures ExitActions(log + [r], s) ==
            ExitActions(log, s) + (if r.ExitAdded? && r.state == s then [r.exitId] else [])
    ensures Expiries(log + [r], s) ==
            if r.ExpiryAdded? && r.state == s then Expiries(log, s)[r.trigger := r.delay] else Expiries(log, s)
  {
    assert (log + [r])[..|log|] == log;
  }

  lemma ConfiguredAppended(log: Log, r: Registration)
    ensures forall s :: IsConfigured(log + [r], s) <==> IsConfigured(log, s) || r.state == s
  {
    assert r in log + [r];
    forall s | IsConfigured(log, s) ensures IsConfigured(log + [r], s) {
      var q :| q in log && q.state == s;
      assert q in log + [r];
    }
  }

  lemma {:induction false} NothingRegistered(log: Log, s: string)
    requires !IsConfigured(log, s)
    ensures forall t :: Behaviours(log, s, t) == []
    ensures EntryActions(log, s) == [] && ExitActions(log, s) == [] && Expiries(log, s) == map[]
  {
    if log != [] {
      var (front, last) := (log[..|log| - 1], log[|log| - 1]);
      assert last in log;
      assert forall r | r in front :: r in log;
      NothingRegistered(front, s);
    }
  }

  lemma {:induction false} DrawnWasPermitted(log: Log, e: Edge)
    requires e in LogEdges(log)
    ensures exists r :: r in log && r.Permitted? && EdgeOf(r.state, r.behaviour) == e
  {
    var (front, last) := (log[..|log| - 1], log[|log| - 1]);
    assert last in log;
    if !(last.Permitted? && EdgeOf(last.state, last.behaviour) == e) {
      DrawnWasPermitted(front, e);
      var r :| r in front && r.Permitted? && EdgeOf(r.state, r.behaviour) == e;
      assert r in log;
    }
  }

  lemma {:induction false} SomeMet(bs: seq<Behaviour>, i: nat, env: Env)
    requires i < |bs| && bs[i].Met(env)
    ensures MetOnly(bs, env) != []
  {
    if i < |bs| - 1 {
      SomeMet(bs[..|bs| - 1], i, env);
    }
  }

  lemma CellEdgesAt(s: string, bs: seq<Behaviour>, t: string, e: Edge)
    requires forall b | b in bs :: b.trigger == t
    requires e.source != s || e.trigger != t
    ensures multiset(CellEdges(s, bs))[e] == 0
  {
    forall i | 0 <= i < |bs| ensures CellEdges(s, bs)[i] != e {
      assert bs[i] in bs;
    }
  }
}
