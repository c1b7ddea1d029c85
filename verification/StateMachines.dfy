/** The state machine and the document service around it: how a request fires a trigger. */
module StateMachines {
  import opened Options
  import opened Registrations
  import opened Documents
  import opened PatchSemantics
  import opened ExpiryScheduling
  import opened StateTable

  /** The mutable door to a configuration. */
  class StateMachine {
    const config: StateMachineConfig
    const host: Host
    var expiryScheduler: ExpiryScheduler?

    ghost predicate Valid()
      reads this, config, config.stateConfiguration.Values
    {
      config.Valid() && (expiryScheduler != null ==> expiryScheduler.host == host)
    }

    constructor (config: StateMachineConfig, host: Host)
      requires config.Valid()
      ensures this.config == config && this.host == host && expiryScheduler == null && Valid()
    {
      this.config, this.host, expiryScheduler := config, host, null;
    }

    method SetExpiryScheduler(scheduler: ExpiryScheduler)
      requires Valid() && scheduler.host == host
      modifies this`expiryScheduler
      ensures Valid() && expiryScheduler == scheduler
    {
      expiryScheduler := scheduler;
    }

    /** Nothing when the trigger can be fired, and otherwise how the request ends instead. */
    method ValidateTrigger(state: Option<string>, trigger: string, op: Operation, env: Env)
      returns (refused: Option<Outcome>)
      requires Valid()
      modifies op`failed
      ensures refused == if FireOutcome(config.log, state, trigger, env).Writes() then None
                         else Some(FireOutcome(config.log, state, trigger, env))
      ensures op.failed == (old(op.failed) || refused == Some(NotPermitted))
    {
      hide StateMachineConfig.Valid, StateRepresentation.Holds;
      var representation := config.GetRepresentation(state);
      if representation == null {
        return Some(SourceUnknown);
      }
      var found := representation.TryFindHandler(trigger, env, config.log);
      if found.AmbiguousHandlers? {
        return Some(Ambiguous);
      }
      if found.NoHandler? {
        var permitted := representation.GetPermittedTriggers(env, config.log);
        assert trigger !in permitted;
        op.failed := true;
        return Some(NotPermitted);
      }
      return None;
    }

    /** After a successful validation there always is a transition. */
    method Transit(src: string, trigger: string, op: Operation, env: Env) returns (transition: Option<Transition>)
      requires Valid() && IsConfigured(config.log, src)
      ensures match Find(config.log, src, trigger, env)
              case Handler(b) => transition == Some(Transition(src, b.destination, trigger, op))
              case _ => transition == None
    {
      hide StateMachineConfig.Valid, StateRepresentation.Holds;
      var representation := config.GetRepresentation(Some(src));
      var found := representation.TryFindHandler(trigger, env, config.log);
      if !found.Handler? {
        return None;
      }
      return Some(Transition(src, found.behaviour.destination, trigger, op));
    }

    method FireTrigger(src: Option<string>, trigger: string, patch: Operation, env: Env) returns (o: Outcome)
      requires Valid()
      modifies patch, host`executor, host`effects
      ensures o == FireOutcome(config.log, src, trigger, env)
      ensures patch.linked == DocAfter(config.log, old(patch.linked), trigger, o, expiryScheduler != null)
      ensures host.effects == if o.Writes() then
                old(host.effects) + PatchEffects(config.log, src.value, trigger, o, expiryScheduler != null)
                else old(host.effects)
      ensures host.executor ==
                ExecutorAfter(config.log, old(host.executor), o, old(patch.linked.version) + 1, host.clock,
                              expiryScheduler != null)
      ensures patch.bodyTrigger == if o.Writes() then Some(trigger) else old(patch.bodyTrigger)
      ensures patch.bodyState == if o.Writes() then Some(o.destination) else old(patch.bodyState)
      ensures patch.statusCode == old(patch.statusCode) && patch.completed == old(patch.completed)
      ensures patch.failed == (old(patch.failed) || o.NotPermitted?)
    {
      hide StateMachineConfig.Valid, StateRepresentation.Holds;
      var refused := ValidateTrigger(src, trigger, patch, env);
      if refused.Some? {
        return refused.value;
      }
      var transition := Transit(src.value, trigger, patch, env);
      o := Perform(transition.value, patch);
    }

    /** The effects of a transition, in order: persist, exit, schedule, enter. */
    method Perform(transition: Transition, patch: Operation) returns (o: Outcome)
      requires Valid() && IsConfigured(config.log, transition.source) && transition.cause == patch
      modifies patch`linked, patch`bodyTrigger, patch`bodyState, host`executor, host`effects
      ensures o == if IsConfigured(config.log, transition.destination) then Accepted(transition.destination)
                   else DestinationUnknown(transition.destination)
      ensures patch.linked == DocAfter(config.log, old(patch.linked), transition.trigger, o, expiryScheduler != null)
      ensures host.effects == old(host.effects) +
                PatchEffects(config.log, transition.source, transition.trigger, o, expiryScheduler != null)
      ensures host.executor ==
                ExecutorAfter(config.log, old(host.executor), o, old(patch.linked.version) + 1, host.clock,
                              expiryScheduler != null)
      ensures patch.bodyTrigger == Some(transition.trigger)
      ensures patch.bodyState == Some(transition.destination)
    {
      hide StateMachineConfig.Valid, StateRepresentation.Holds;
      StatePopulator(transition);
      Leave(transition);
      var entered := config.GetRepresentation(Some(transition.destination));
      if entered == null {
        return DestinationUnknown(transition.destination);
      }
      ArriveAt(transition, entered);
      return Accepted(transition.destination);
    }

    method Leave(transition: Transition)
      requires Valid() && IsConfigured(config.log, transition.source)
      modifies host`effects
      ensures host.effects == old(host.effects) +
                LeaveEffects(config.log, transition.source, transition.trigger, transition.destination)
    {
      hide StateMachineConfig.Valid, StateRepresentation.Holds;
      host.effects := host.effects + [Persisted(transition.source, transition.trigger, transition.destination)];
      var left := config.GetRepresentation(Some(transition.source));
      left.Exit(host, config.log);
    }

    method ArriveAt(transition: Transition, entered: StateRepresentation)
      requires entered.Holds(config.log) && entered.state == transition.destination
      requires expiryScheduler != null ==> expiryScheduler.host == host
      modifies transition.cause`linked, host`executor, host`effects
      ensures var delays := Delays(config.log, transition.destination, expiryScheduler != null);
              && transition.cause.linked == WithExpiry(old(transition.cause.linked), delays, transition.destination)
              && host.executor == old(host.executor).Schedule(delays, transition.destination,
                   old(transition.cause.linked.version) + 1, host.clock)
      ensures host.effects == old(host.effects) +
                EnterEffects(config.log, transition.trigger, transition.destination, expiryScheduler != null)
    {
      hide StateRepresentation.Holds;
      entered.Expiry(transition, expiryScheduler, host, config.log);
      entered.Enter(transition, host, config.log);
    }
  }

  /** Writes the transition into the document and into the body of the request. */
  method StatePopulator(transition: Transition)
    modifies transition.cause`linked, transition.cause`bodyTrigger, transition.cause`bodyState
    ensures transition.cause.linked == old(transition.cause.linked).(
              state := Some(transition.destination), trigger := Some(transition.trigger))
    ensures transition.cause.bodyTrigger == Some(transition.trigger)
    ensures transition.cause.bodyState == Some(transition.destination)
  {
    var op := transition.cause;
    var curState := op.linked;
    curState := curState.(trigger := Some(transition.trigger));
    curState := curState.(state := Some(transition.destination));
    op.bodyTrigger := Some(transition.trigger);
    op.bodyState := Some(transition.destination);
    op.linked := curState;
  }

  class FsmService {
    const stateMachine: StateMachine

    constructor (config: StateMachineConfig, host: Host)
      requires config.Valid()
      ensures stateMachine.Valid() && fresh(stateMachine)
      ensures stateMachine.config == config && stateMachine.host == host
    {
      stateMachine := new StateMachine(config, host);
    }

    /** `valid` is the answer of the service's own validation of the posted body. */
    method HandleStart(op: Operation, valid: bool, initialTrigger: Option<string>) returns (sent: Option<Patch>)
      modifies op
      ensures valid ==> op.linked == StartedDoc(stateMachine.config.initState, old(op.linked))
      ensures valid ==> sent == SelfPatch(stateMachine.config.initState, op.linked, initialTrigger)
      ensures var init := stateMachine.config.initState;
              var start := if init == None then "Start" else init.value;
              && (valid ==> op.linked == old(op.linked).(
                    state := if old(op.linked.state) == None then Some(start) else old(op.linked.state)))
              && (sent != None <==> valid && op.linked.state == Some(start) && initialTrigger != None)
              && (sent != None ==> sent == Some(Patch(Some(start), initialTrigger)))
      ensures valid ==> op.completed && op.failed == old(op.failed) && op.statusCode == old(op.statusCode)
      ensures !valid ==> sent == None && op.linked == old(op.linked) && op.completed == old(op.completed)
      ensures !valid ==> if old(op.statusCode) == 200 then op.failed && op.statusCode == 400
                         else op.failed == old(op.failed) && op.statusCode == old(op.statusCode)
    {
      sent := None;
      if valid {
        var initState := StartState(stateMachine.config.initState);
        if op.linked.state.None? {
          op.linked := op.linked.(state := Some(initState));
        }
        op.completed := true;
        if op.linked.state == Some(initState) && initialTrigger.Some? {
          sent := Some(Patch(op.linked.state, initialTrigger));
        }
      } else if op.statusCode == 200 {
        op.statusCode := 400;
        op.failed := true;
      }
    }

    /** Compare-and-swap on the state, then the trigger. */
    method HandlePatch(op: Operation, env: Env) returns (o: Outcome)
      requires stateMachine.Valid()
      modifies op, stateMachine`expiryScheduler, stateMachine.host`executor, stateMachine.host`effects
      ensures stateMachine.Valid()
      ensures o == PatchOutcome(stateMachine.config.log, old(op.linked.state),
                                Patch(old(op.bodyState), old(op.bodyTrigger)), env)
      ensures o.Writes() ==> old(op.linked.state.Some? && op.bodyTrigger.Some?)
      ensures op.linked == if o.Writes()
                then DocAfter(stateMachine.config.log, old(op.linked), old(op.bodyTrigger.value), o)
                else old(op.linked)
      ensures stateMachine.host.effects == if o.Writes()
                then old(stateMachine.host.effects) + PatchEffects(stateMachine.config.log,
                       old(op.linked.state.value), old(op.bodyTrigger.value), o)
                else old(stateMachine.host.effects)
      ensures stateMachine.host.executor == ExecutorAfter(stateMachine.config.log, old(stateMachine.host.executor),
                o, old(op.linked.version) + 1, stateMachine.host.clock)
      ensures op.statusCode == if o.TriggerMissing? || o.StateMismatch? then 400 else old(op.statusCode)
      ensures op.failed == (old(op.failed) || o.TriggerMissing? || o.StateMismatch? || o.NotPermitted?)
      ensures op.bodyTrigger == old(op.bodyTrigger) && op.completed == old(op.completed)
      ensures op.bodyState == if o.Writes() then Some(o.destination)
                              else if old(op.bodyState.Some?) then old(op.bodyState) else old(op.linked.state)
    {
      hide StateMachineConfig.Valid, StateRepresentation.Holds;
      var src := op.linked.state;
      var trigger := op.bodyTrigger;
      op.bodyState := if op.bodyState.Some? then op.bodyState else src;
      if trigger.None? {
        o := TriggerMissing;
        BadRequest(op);
      } else if op.bodyState != src {
        o := StateMismatch;
        BadRequest(op);
      } else {
        o := Fire(op, src, trigger.value, env);
      }
    }

    method BadRequest(op: Operation)
      modifies op`statusCode, op`failed
      ensures op.statusCode == 400 && op.failed
    {
      op.statusCode := 400;
      op.failed := true;
    }

    /** Fires a trigger that passed both checks, with a scheduler for this document. */
    method Fire(op: Operation, src: Option<string>, trigger: string, env: Env) returns (o: Outcome)
      requires stateMachine.Valid()
      modifies op, stateMachine`expiryScheduler, stateMachine.host`executor, stateMachine.host`effects
      ensures stateMachine.Valid()
      ensures o == FireOutcome(stateMachine.config.log, src, trigger, env)
      ensures op.linked == if o.Writes() then DocAfter(stateMachine.config.log, old(op.linked), trigger, o)
                           else old(op.linked)
      ensures stateMachine.host.effects == if o.Writes()
                then old(stateMachine.host.effects) + PatchEffects(stateMachine.config.log, src.value, trigger, o)
                else old(stateMachine.host.effects)
      ensures stateMachine.host.executor == ExecutorAfter(stateMachine.config.log, old(stateMachine.host.executor),
                o, old(op.linked.version) + 1, stateMachine.host.clock)
      ensures op.statusCode == old(op.statusCode) && op.failed == (old(op.failed) || o.NotPermitted?)
      ensures op.completed == old(op.completed)
      ensures op.bodyState == if o.Writes() then Some(o.destination) else old(op.bodyState)
      ensures op.bodyTrigger == if o.Writes() then Some(trigger) else old(op.bodyTrigger)
    {
      hide StateMachineConfig.Valid, StateRepresentation.Holds;
      var scheduler := new ExpiryScheduler(stateMachine.host);
      stateMachine.SetExpiryScheduler(scheduler);
      o := stateMachine.FireTrigger(src, trigger, op, env);
    }
  }
}
