/**
 The nested mutable table behind a state machine: state -> trigger -> behaviours, with the
 action lists and expiry map of each state. Every method is proved against the flat log.
 */
module StateTable {
  import opened Options
  import opened Registrations
  import opened Documents
  import opened PatchSemantics
  import opened ExpiryScheduling

  /** Everything configured for one state. */
  class StateRepresentation {
    const state: string
    var triggerBehaviours: map<string, seq<Behaviour>>
    var entryActions: seq<EntryAction>
    var expiryActions: map<string, int>
    var exitActions: seq<nat>

    /** The tables of this state hold exactly what the log registers for it. */
    ghost predicate Holds(log: Log)
      reads this
    {
      && (forall t :: t in triggerBehaviours <==> Behaviours(log, state, t) != [])
      && (forall t | t in triggerBehaviours :: triggerBehaviours[t] == Behaviours(log, state, t))
      && entryActions == EntryActions(log, state)
      && expiryActions == Expiries(log, state)
      && exitActions == ExitActions(log, state)
    }

    constructor (state: string, ghost log: Log)
      requires !IsConfigured(log, state)
      ensures this.state == state && Holds(log)
    {
      this.state := state;
      triggerBehaviours, entryActions, expiryActions, exitActions := map[], [], map[], [];
      new;
      NothingRegistered(log, state);
    }

    /** A registration that adds nothing to this state leaves its tables as they are. */
    lemma Unaffected(log: Log, r: Registration)
      requires Holds(log)
      requires r.Configured? || r.state != state
      ensures Holds(log + [r])
    {
      Appended(log, r, state);
    }

    method TryFindHandler(trigger: string, env: Env, ghost log: Log) returns (found: Found)
      requires Holds(log)
      ensures found == Find(log, state, trigger, env)
    {
      if trigger !in triggerBehaviours {
        return NoHandler;
      }
      var possible := triggerBehaviours[trigger];
      var actual: seq<Behaviour> := [];
      for i := 0 to |possible|
        invariant actual == MetOnly(possible[..i], env)
      {
        assert possible[..i + 1][..i] == possible[..i];
        if possible[i].Met(env) {
          actual := actual + [possible[i]];
        }
      }
      assert possible[..|possible|] == possible;
      if |actual| > 1 {
        return AmbiguousHandlers;
      }
      return if actual == [] then NoHandler else Handler(actual[0]);
    }

    /** The triggers some behaviour of this state would accept now; the error message lists them. */
    method GetPermittedTriggers(env: Env, ghost log: Log) returns (result: set<string>)
      requires Holds(log)
      ensures forall t :: t in result <==> MetOnly(Behaviours(log, state, t), env) != []
    {
      result := {};
      var left := triggerBehaviours.Keys;
      while left != {}
        invariant left <= triggerBehaviours.Keys
        invariant forall t :: t in result <==>
                    t in triggerBehaviours && t !in left && MetOnly(Behaviours(log, state, t), env) != []
      {
        var t :| t in left;
        left := left - {t};
        var behaviours := triggerBehaviours[t];
        ghost var before := result;
        for i := 0 to |behaviours|
          invariant result == before
          invariant MetOnly(behaviours[..i], env) == []
        {
          assert behaviours[..i + 1][..i] == behaviours[..i];
          if behaviours[i].Met(env) {
            result := result + {t};
            SomeMet(behaviours, i, env);
            break;
          }
        }
        assert behaviours[..|behaviours|] == behaviours;
      }
    }

    /** The edges out of this state: the two inner loops of the drawing. */
    method DotEdges(ghost log: Log) returns (edges: seq<Edge>)
      requires Holds(log)
      ensures forall e: Edge :: multiset(edges)[e] == if e.source == state then multiset(LogEdges(log))[e] else 0
    {
      edges := [];
      var left := triggerBehaviours.Keys;
      while left != {}
        invariant left <= triggerBehaviours.Keys
        invariant forall e: Edge :: multiset(edges)[e] ==
                    if e.source == state && e.trigger in triggerBehaviours.Keys - left
                    then multiset(LogEdges(log))[e] else 0
      {
        var t :| t in left;
        left := left - {t};
        var cell := Cell(t, log);
        forall e: Edge ensures multiset(edges + cell)[e] ==
                 if e.source == state && e.trigger in triggerBehaviours.Keys - left
                 then multiset(LogEdges(log))[e] else 0
        {
          assert multiset(edges + cell)[e] == multiset(edges)[e] + multiset(cell)[e];
        }
        edges := edges + cell;
      }
      forall e: Edge | e.source == state && e.trigger !in triggerBehaviours
        ensures multiset(LogEdges(log))[e] == 0
      {
        EdgesByCell(log, e);
      }
    }

    /** The edges of one cell: the innermost loop of the drawing. */
    method Cell(t: string, ghost log: Log) returns (cell: seq<Edge>)
      requires Holds(log) && t in triggerBehaviours
      ensures forall e: Edge :: multiset(cell)[e] ==
                if e.source == state && e.trigger == t then multiset(LogEdges(log))[e] else 0
    {
      cell := [];
      var behaviours := triggerBehaviours[t];
      for i := 0 to |behaviours|
        invariant cell == CellEdges(state, behaviours[..i])
      {
        assert CellEdges(state, behaviours[..i + 1]) ==
               CellEdges(state, behaviours[..i]) + [EdgeOf(state, behaviours[i])];
        cell := cell + [EdgeOf(state, behaviours[i])];
      }
      assert behaviours[..|behaviours|] == behaviours;
      BehavioursServeTheirTrigger(log, state, t);
      forall e: Edge ensures multiset(cell)[e] ==
               if e.source == state && e.trigger == t then multiset(LogEdges(log))[e] else 0
      {
        if e.source == state && e.trigger == t {
          EdgesByCell(log, e);
        } else {
          CellEdgesAt(state, behaviours, t, e);
        }
      }
    }

    method AddEntryAction(action: EntryAction, ghost log: Log)
      requires Holds(log)
      modifies this`entryActions
      ensures Holds(log + [EntryAdded(state, action)])
    {
      Appended(log, EntryAdded(state, action), state);
      entryActions := entryActions + [action];
    }

    method AddExitAction(id: nat, ghost log: Log)
      requires Holds(log)
      modifies this`exitActions
      ensures Holds(log + [ExitAdded(state, id)])
    {
      Appended(log, ExitAdded(state, id), state);
      exitActions := exitActions + [id];
    }

    method AddExpiryAction(trigger: string, delay: int, ghost log: Log)
      requires Holds(log)
      modifies this`expiryActions
      ensures Holds(log + [ExpiryAdded(state, trigger, delay)])
    {
      Appended(log, ExpiryAdded(state, trigger, delay), state);
      expiryActions := expiryActions[trigger := delay];
    }

    method AddTriggerBehaviour(behaviour: Behaviour, ghost log: Log)
      requires Holds(log)
      modifies this`triggerBehaviours
      ensures Holds(log + [Permitted(state, behaviour)])
    {
      Appended(log, Permitted(state, behaviour), state);
      if behaviour.trigger !in triggerBehaviours {
        triggerBehaviours := triggerBehaviours[behaviour.trigger := []];
      }
      var allowed := triggerBehaviours[behaviour.trigger];
      triggerBehaviours := triggerBehaviours[behaviour.trigger := allowed + [behaviour]];
    }

    method Enter(transition: Transition, host: Host, ghost log: Log)
      requires Holds(log)
      modifies host`effects
      ensures host.effects == old(host.effects) + EntryEffects(EntryActions(log, state), transition.trigger)
    {
      for i := 0 to |entryActions|
        invariant host.effects == old(host.effects) + EntryEffects(entryActions[..i], transition.trigger)
      {
        assert entryActions[..i + 1][..i] == entryActions[..i];
        if entryActions[i].RunsOn(transition.trigger) {
          host.effects := host.effects + [Entered(entryActions[i].id)];
        }
      }
      assert entryActions[..|entryActions|] == entryActions;
    }

    method Exit(host: Host, ghost log: Log)
      requires Holds(log)
      modifies host`effects
      ensures host.effects == old(host.effects) + ExitEffects(ExitActions(log, state))
      ensures |host.effects| == |old(host.effects)| + |ExitActions(log, state)|
      ensures forall k | 0 <= k < |ExitActions(log, state)| ::
                host.effects[|old(host.effects)| + k] == Exited(ExitActions(log, state)[k])
    {
      for i := 0 to |exitActions|
        invariant host.effects == old(host.effects) + ExitEffects(exitActions[..i])
      {
        assert ExitEffects(exitActions[..i + 1]) == ExitEffects(exitActions[..i]) + [Exited(exitActions[i])];
        host.effects := host.effects + [Exited(exitActions[i])];
      }
      assert exitActions[..|exitActions|] == exitActions;
    }

    /** Hands the expiry map to the scheduler, if there is anything to expire and a scheduler. */
    method Expiry(transition: Transition, scheduler: ExpiryScheduler?, host: Host, ghost log: Log)
      requires Holds(log) && transition.destination == state
      requires scheduler != null ==> scheduler.host == host
      modifies transition.cause`linked, host`executor, host`effects
      ensures transition.cause.linked ==
                WithExpiry(old(transition.cause.linked), Delays(log, state, scheduler != null), state)
      ensures host.effects == old(host.effects) +
                ScheduleEffects(Delays(log, state, scheduler != null), state)
      ensures host.executor == old(host.executor).Schedule(Delays(log, state, scheduler != null), state,
                old(transition.cause.linked.version) + 1, host.clock)
    {
      assert old(host.executor).timers + {} == old(host.executor).timers;
      if |expiryActions| > 0 {
        if scheduler == null {
          return;
        }
        scheduler.Accept(expiryActions, transition);
      }
    }
  }

  /** The registered table of a whole machine. */
  class StateMachineConfig {
    const initState: Option<string>
    var stateConfiguration: map<string, StateRepresentation>
    /** Every registration made so far. */
    ghost var log: Log

    /** A state is in the table exactly when the log configures it, and its tables hold the log. */
    ghost predicate Valid()
      reads this, stateConfiguration.Values
    {
      && (forall s :: s in stateConfiguration <==> IsConfigured(log, s))
      && (forall s | s in stateConfiguration ::
            stateConfiguration[s].state == s && stateConfiguration[s].Holds(log))
    }

    constructor (initState: Option<string>)
      ensures this.initState == initState && log == [] && stateConfiguration == map[] && Valid()
    {
      this.initState := initState;
      stateConfiguration, log := map[], [];
    }

    /** The representation of a state; null when the state was never configured. */
    method GetRepresentation(state: Option<string>) returns (r: StateRepresentation?)
      requires Valid()
      ensures r != null <==> state.Some? && IsConfigured(log, state.value)
      ensures r != null ==> r.state == state.value && r.Holds(log)
    {
      r := null;
      if state.Some? && state.value in stateConfiguration {
        r := stateConfiguration[state.value];
      }
    }

    method GetOrCreateRepresentation(state: string) returns (r: StateRepresentation)
      requires Valid()
      modifies this`stateConfiguration, this`log
      ensures Valid() && log == old(log) + [Configured(state)]
      ensures state in stateConfiguration && stateConfiguration[state] == r && r.state == state
      ensures state in old(stateConfiguration) ==> stateConfiguration == old(stateConfiguration)
      ensures state !in old(stateConfiguration) ==>
                fresh(r) && stateConfiguration == old(stateConfiguration)[state := r]
    {
      if state !in stateConfiguration {
        r := new StateRepresentation(state, log);
        stateConfiguration := stateConfiguration[state := r];
      }
      r := stateConfiguration[state];
      forall s | s in stateConfiguration ensures stateConfiguration[s].Holds(log + [Configured(state)]) {
        stateConfiguration[s].Unaffected(log, Configured(state));
      }
      ConfiguredAppended(log, Configured(state));
      log := log + [Configured(state)];
    }

    method Configure(state: string) returns (c: StateConfiguration)
      requires Valid()
      modifies this`stateConfiguration, this`log
      ensures Valid() && log == old(log) + [Configured(state)]
      ensures c.config == this && c.representation.state == state && c.Attached()
      ensures state in old(stateConfiguration) ==> stateConfiguration == old(stateConfiguration)
      ensures fresh(c)
      ensures state !in old(stateConfiguration) ==>
                fresh(c.representation) &&
                stateConfiguration == old(stateConfiguration)[state := c.representation]
    {
      var r := GetOrCreateRepresentation(state);
      c := new StateConfiguration(r, this);
    }

    /** Draws every registered behaviour: nested loops over the states, triggers and behaviours. */
    method GenerateDotFile() returns (graph: seq<Edge>)
      requires Valid()
      ensures multiset(graph) == multiset(LogEdges(log))
    {
      graph := [];
      var states := stateConfiguration.Keys;
      while states != {}
        invariant states <= stateConfiguration.Keys
        invariant forall e: Edge :: multiset(graph)[e] ==
                    if e.source in stateConfiguration.Keys - states then multiset(LogEdges(log))[e] else 0
      {
        var s :| s in states;
        states := states - {s};
        var edges := stateConfiguration[s].DotEdges(log);
        forall e: Edge ensures multiset(graph + edges)[e] ==
                 if e.source in stateConfiguration.Keys - states then multiset(LogEdges(log))[e] else 0
        {
          assert multiset(graph + edges)[e] == multiset(graph)[e] + multiset(edges)[e];
        }
        graph := graph + edges;
      }
      forall e: Edge ensures multiset(graph)[e] == multiset(LogEdges(log))[e] {
        if e in LogEdges(log) {
          DrawnWasPermitted(log, e);
        }
      }
    }
  }

  /** The fluent interface through which one state is configured. */
  class StateConfiguration {
    const representation: StateRepresentation
    ghost const config: StateMachineConfig

    ghost predicate Attached()
      reads config, config.stateConfiguration.Values
    {
      && config.Valid()
      && representation.state in config.stateConfiguration
      && config.stateConfiguration[representation.state] == representation
    }

    constructor (representation: StateRepresentation, ghost config: StateMachineConfig)
      ensures this.representation == representation && this.config == config
    {
      this.representation := representation;
      this.config := config;
    }

    /** `permit`; a destination equal to the state itself is an error and registers nothing. */
    method Permit(trigger: string, destination: string) returns (ok: bool)
      requires Attached()
      modifies config`log, representation`triggerBehaviours
      ensures Attached() && ok == (destination != representation.state)
      ensures config.log == if ok
                then old(config.log) +
                     [Permitted(representation.state, Behaviour(trigger, destination, NoGuard))]
                else old(config.log)
    {
      if destination == representation.state {
        return false;
      }
      PublicPermitIf(trigger, destination, NoGuard);
      return true;
    }

    /** `permitIf`; a destination equal to the state itself is an error and registers nothing. */
    method PermitIf(trigger: string, destination: string, guard: Guard) returns (ok: bool)
      requires Attached()
      modifies config`log, representation`triggerBehaviours
      ensures Attached() && ok == (destination != representation.state)
      ensures config.log == if ok
                then old(config.log) + [Permitted(representation.state, Behaviour(trigger, destination, guard))]
                else old(config.log)
    {
      if destination == representation.state {
        return false;
      }
      PublicPermitIf(trigger, destination, guard);
      return true;
    }

    method PermitReentry(trigger: string)
      requires Attached()
      modifies config`log, representation`triggerBehaviours
      ensures Attached()
      ensures config.log == old(config.log) +
                [Permitted(representation.state, Behaviour(trigger, representation.state, NoGuard))]
    {
      PublicPermitIf(trigger, representation.state, NoGuard);
    }

    method PermitReentryIf(trigger: string, guard: Guard)
      requires Attached()
      modifies config`log, representation`triggerBehaviours
      ensures Attached()
      ensures config.log == old(config.log) +
                [Permitted(representation.state, Behaviour(trigger, representation.state, guard))]
    {
      PublicPermitIf(trigger, representation.state, guard);
    }

    method PublicPermitIf(trigger: string, destination: string, guard: Guard)
      requires Attached()
      modifies config`log, representation`triggerBehaviours
      ensures Attached()
      ensures config.log == old(config.log) +
                [Permitted(representation.state, Behaviour(trigger, destination, guard))]
    {
      var behaviour := Behaviour(trigger, destination, guard);
      representation.AddTriggerBehaviour(behaviour, config.log);
      Record(Permitted(representation.state, behaviour));
    }

    method OnEntry(id: nat)
      requires Attached()
      modifies config`log, representation`entryActions
      ensures Attached() && config.log == old(config.log) + [EntryAdded(representation.state, Always(id))]
    {
      representation.AddEntryAction(Always(id), config.log);
      Record(EntryAdded(representation.state, Always(id)));
    }

    method OnEntryFrom(trigger: string, id: nat)
      requires Attached()
      modifies config`log, representation`entryActions
      ensures Attached()
      ensures config.log == old(config.log) + [EntryAdded(representation.state, OnlyFrom(trigger, id))]
    {
      representation.AddEntryAction(OnlyFrom(trigger, id), config.log);
      Record(EntryAdded(representation.state, OnlyFrom(trigger, id)));
    }

    method OnExpiry(trigger: string, delay: int)
      requires Attached()
      modifies config`log, representation`expiryActions
      ensures Attached()
      ensures config.log == old(config.log) + [ExpiryAdded(representation.state, trigger, delay)]
    {
      representation.AddExpiryAction(trigger, delay, config.log);
      Record(ExpiryAdded(representation.state, trigger, delay));
    }

    method OnExit(id: nat)
      requires Attached()
      modifies config`log, representation`exitActions
      ensures Attached() && config.log == old(config.log) + [ExitAdded(representation.state, id)]
    {
      representation.AddExitAction(id, config.log);
      Record(ExitAdded(representation.state, id));
    }

    /** Notes in the log what the representation has just been given. */
    ghost method Record(r: Registration)
      requires r.state == representation.state
      requires representation.state in config.stateConfiguration
      requires config.stateConfiguration[representation.state] == representation
      requires representation.Holds(config.log + [r])
      requires forall s :: s in config.stateConfiguration <==> IsConfigured(config.log, s)
      requires forall s | s in config.stateConfiguration :: config.stateConfiguration[s].state == s
      requires forall s | s in config.stateConfiguration && s != representation.state ::
                 config.stateConfiguration[s].Holds(config.log)
      modifies config`log
      ensures Attached() && config.log == old(config.log) + [r]
    {
      forall s | s in config.stateConfiguration
        ensures config.stateConfiguration[s].Holds(config.log + [r])
      {
        if s != representation.state {
          config.stateConfiguration[s].Unaffected(config.log, r);
        }
      }
      ConfiguredAppended(config.log, r);
      config.log := config.log + [r];
    }
  }
}
