/** Whole configuration programs: any sequence of fluent calls builds the table of its log. */
module MachineBuilder {
  import opened Options
  import opened Registrations
  import opened Positions
  import opened StateTable

  /** One call on a state's configuration. */
  datatype Call =
    | Permit(trigger: string, destination: string)
    | PermitIf(trigger: string, destination: string, guard: Guard)
    | PermitReentry(trigger: string)
    | PermitReentryIf(trigger: string, guard: Guard)
    | OnEntry(id: nat)
    | OnEntryFrom(trigger: string, id: nat)
    | OnExpiry(trigger: string, delay: int)
    | OnExit(id: nat)

  /**
   One step of a program: it asks the builder for the configuration of a state, or makes a call
   on the configuration it was given by its `handle`-th request. A refused permit is an exception
   that the program may catch and go on from.
   */
  datatype Step = Configure(state: string) | On(handle: nat, call: Call)

  /** The state of each configuration handed out so far. */
  function Handles(steps: seq<Step>): seq<string> {
    if steps == [] then []
    else
      var last := steps[|steps| - 1];
      Handles(steps[..|steps| - 1]) + (if last.Configure? then [last.state] else [])
  }

  /** Every call is made on a configuration handed out before. */
  ghost predicate WellScoped(steps: seq<Step>) {
    forall i | 0 <= i < |steps| && steps[i].On? :: steps[i].handle < |Handles(steps[..i])|
  }

  /** What one call on state `s` registers; a permit towards the state itself is refused. */
  function Registers(s: string, call: Call): seq<Registration> {
    match call
    case Permit(t, d) => if d == s then [] else [Permitted(s, Behaviour(t, d, NoGuard))]
    case PermitIf(t, d, g) => if d == s then [] else [Permitted(s, Behaviour(t, d, g))]
    case PermitReentry(t) => [Permitted(s, Behaviour(t, s, NoGuard))]
    case PermitReentryIf(t, g) => [Permitted(s, Behaviour(t, s, g))]
    case OnEntry(id) => [EntryAdded(s, Always(id))]
    case OnEntryFrom(t, id) => [EntryAdded(s, OnlyFrom(t, id))]
    case OnExpiry(t, delay) => [ExpiryAdded(s, t, delay)]
    case OnExit(id) => [ExitAdded(s, id)]
  }

  function StepRegisters(handles: seq<string>, step: Step): seq<Registration>
    requires step.On? ==> step.handle < |handles|
  {
    match step
    case Configure(s) => [Configured(s)]
    case On(h, call) => Registers(handles[h], call)
  }

  /** The flat log of a program. */
  ghost function LogOf(steps: seq<Step>): Log
    requires WellScoped(steps)
  {
    if steps == [] then []
    else
      var front := steps[..|steps| - 1];
      ScopedPrefix(steps, |steps| - 1);
      LogOf(front) + StepRegisters(Handles(front), steps[|steps| - 1])
  }

  lemma ScopedPrefix(steps: seq<Step>, n: nat)
    requires WellScoped(steps) && n <= |steps|
    ensures WellScoped(steps[..n])
  {
    forall i | 0 <= i < n && steps[i].On? ensures steps[i].handle < |Handles(steps[..n][..i])| {
      assert steps[..n][..i] == steps[..i];
    }
  }

  /** The configurations handed out are those of the program's requests, in their order. */
  lemma {:induction false} HandlesAt(steps: seq<Step>) returns (at: seq<nat>)
    ensures Lists(at, steps, (step: Step) => step.Configure?)
    ensures |Handles(steps)| == |at|
    ensures forall h | 0 <= h < |at| :: steps[at[h]].Configure? && Handles(steps)[h] == steps[at[h]].state
  {
    var kind := (step: Step) => step.Configure?;
    hide Lists;
    if steps == [] {
      at := [];
      ListsNothing(kind);
    } else {
      var (front, last) := (steps[..|steps| - 1], steps[|steps| - 1]);
      at := HandlesAt(front);
      ListedAre(at, front, kind);
      ListsAppended(at, front, last, kind);
      at := at + (if last.Configure? then [|front|] else []);
      assert steps == front + [last];
    }
  }

  /** A program with one more step registers what that step registers. */
  lemma LogGrows(steps: seq<Step>, s: string, h: nat, call: Call)
    requires WellScoped(steps)
    ensures WellScoped([]) && LogOf([]) == []
    ensures WellScoped(steps + [Configure(s)]) && LogOf(steps + [Configure(s)]) == LogOf(steps) + [Configured(s)]
    ensures h < |Handles(steps)| ==>
              WellScoped(steps + [On(h, call)])
              && LogOf(steps + [On(h, call)]) == LogOf(steps) + Registers(Handles(steps)[h], call)
  {
    ScopedAppended(steps, Configure(s));
    assert (steps + [Configure(s)])[..|steps|] == steps;
    if h < |Handles(steps)| {
      ScopedAppended(steps, On(h, call));
      assert (steps + [On(h, call)])[..|steps|] == steps;
    }
  }

  lemma ScopedAppended(steps: seq<Step>, step: Step)
    requires WellScoped(steps) && (step.On? ==> step.handle < |Handles(steps)|)
    ensures WellScoped(steps + [step])
  {
    var all := steps + [step];
    forall i | 0 <= i < |all| && all[i].On? ensures all[i].handle < |Handles(all[..i])| {
      if i < |steps| {
        assert all[..i] == steps[..i];
      } else {
        assert all[..i] == steps;
      }
    }
  }

  /** Makes one call. */
  method Apply(c: StateConfiguration, call: Call)
    requires c.Attached()
    modifies c.config`log, c.representation
    ensures c.Attached()
    ensures c.config.log == old(c.config.log) + Registers(c.representation.state, call)
    ensures var (s, before, after) := (c.representation.state, old(c.config.log), c.config.log);
            match call
            case Permit(t, d) =>
              after == if d == s then before else before + [Permitted(s, Behaviour(t, d, NoGuard))]
            case PermitIf(t, d, g) =>
              after == if d == s then before else before + [Permitted(s, Behaviour(t, d, g))]
            case PermitReentry(t) => after == before + [Permitted(s, Behaviour(t, s, NoGuard))]
            case PermitReentryIf(t, g) => after == before + [Permitted(s, Behaviour(t, s, g))]
            case OnEntry(id) => after == before + [EntryAdded(s, Always(id))]
            case OnEntryFrom(t, id) => after == before + [EntryAdded(s, OnlyFrom(t, id))]
            case OnExpiry(t, delay) => after == before + [ExpiryAdded(s, t, delay)]
            case OnExit(id) => after == before + [ExitAdded(s, id)]
  {
    hide StateMachineConfig.Valid, StateRepresentation.Holds;
    match call {
      case Permit(t, d) => var ok := c.Permit(t, d);
      case PermitIf(t, d, g) => var ok := c.PermitIf(t, d, g);
      case PermitReentry(t) => c.PermitReentry(t);
      case PermitReentryIf(t, g) => c.PermitReentryIf(t, g);
      case OnEntry(id) => c.OnEntry(id);
      case OnEntryFrom(t, id) => c.OnEntryFrom(t, id);
      case OnExpiry(t, delay) => c.OnExpiry(t, delay);
      case OnExit(id) => c.OnExit(id);
    }
  }

  /** The configurations handed out are those of the program's requests, and work on one table. */
  ghost predicate HandedOut(cs: seq<StateConfiguration>, states: seq<string>, config: StateMachineConfig)
    reads config
  {
    && |cs| == |states|
    && forall h | 0 <= h < |cs| ::
         && cs[h].config == config && cs[h].representation.state == states[h]
         && states[h] in config.stateConfiguration
         && config.stateConfiguration[states[h]] == cs[h].representation
  }

  /** One step of a program, on the configurations handed out so far. */
  method Take(config: StateMachineConfig, handed: seq<StateConfiguration>, ghost states: seq<string>, step: Step)
    returns (handed': seq<StateConfiguration>)
    requires config.Valid() && HandedOut(handed, states, config) && (step.On? ==> step.handle < |states|)
    modifies config, config.stateConfiguration.Values
    ensures config.Valid() && config.log == old(config.log) + StepRegisters(states, step)
    ensures HandedOut(handed', states + (if step.Configure? then [step.state] else []), config)
    ensures forall s | s in config.stateConfiguration ::
              || fresh(config.stateConfiguration[s])
              || config.stateConfiguration[s] in old(config.stateConfiguration.Values)
  {
    hide StateRepresentation.Holds;
    match step {
      case Configure(s) =>
        var c := config.Configure(s);
        handed' := handed + [c];
      case On(h, call) =>
        Apply(handed[h], call);
        handed' := handed;
    }
  }

  lemma OneMoreStep(steps: seq<Step>, i: nat)
    requires WellScoped(steps) && i < |steps|
    ensures WellScoped(steps[..i]) && WellScoped(steps[..i + 1])
    ensures steps[i].On? ==> steps[i].handle < |Handles(steps[..i])|
    ensures LogOf(steps[..i + 1]) == LogOf(steps[..i]) + StepRegisters(Handles(steps[..i]), steps[i])
    ensures Handles(steps[..i + 1]) == Handles(steps[..i]) + (if steps[i].Configure? then [steps[i].state] else [])
  {
    ScopedPrefix(steps, i);
    ScopedPrefix(steps, i + 1);
    assert steps[..i + 1][..i] == steps[..i];
  }

  /** Runs a program: the table it builds holds exactly the program's log. */
  method Build(initState: Option<string>, steps: seq<Step>) returns (config: StateMachineConfig)
    requires WellScoped(steps)
    ensures fresh(config) && config.initState == initState
    ensures config.Valid() && config.log == LogOf(steps)
    ensures forall s | s in config.stateConfiguration :: fresh(config.stateConfiguration[s])
  {
    hide StateMachineConfig.Valid, HandedOut, Handles, StepRegisters, LogOf, WellScoped;
    config := new StateMachineConfig(initState);
    var handed: seq<StateConfiguration> := [];
    ghost var states: seq<string> := [];
    NothingYet(config, steps);
    for i := 0 to |steps|
      invariant fresh(config) && config.initState == initState && config.Valid()
      invariant forall s | s in config.stateConfiguration :: fresh(config.stateConfiguration[s])
      invariant WellScoped(steps[..i]) && config.log == LogOf(steps[..i])
      invariant states == Handles(steps[..i]) && HandedOut(handed, states, config)
    {
      OneMoreStep(steps, i);
      handed := Take(config, handed, states, steps[i]);
      states := Handles(steps[..i + 1]);
    }
    assert steps[..|steps|] == steps;
  }

  lemma NothingYet(config: StateMachineConfig, steps: seq<Step>)
    ensures WellScoped(steps[..0]) && LogOf(steps[..0]) == [] && Handles(steps[..0]) == []
    ensures HandedOut([], [], config)
  {
  }
}
