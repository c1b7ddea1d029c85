/**
 What one patch of a state machine document means, as functions of the registration log: its
 outcome, the document it leaves, the actions it runs and the timers it schedules.
 */
module PatchSemantics {
  import opened Options
  import opened Registrations
  import opened Documents

  datatype Patch = Patch(state: Option<string>, trigger: Option<string>)

  /**
   `TriggerMissing` and `StateMismatch` fail the request with status 400, `NotPermitted` fails
   it, and `SourceUnknown`, `Ambiguous` and `DestinationUnknown` end in an exception; the last of
   them only after the new state has been written and the exit actions have run.
   */
  datatype Outcome =
    | TriggerMissing
    | StateMismatch
    | SourceUnknown
    | Ambiguous
    | NotPermitted
    | DestinationUnknown(destination: string)
    | Accepted(destination: string)
  {
    predicate Writes() {
      Accepted? || DestinationUnknown?
    }
  }

  function FireOutcome(log: Log, src: Option<string>, trigger: string, env: Env): (o: Outcome)
    ensures !o.TriggerMissing? && !o.StateMismatch?
    ensures o.Writes() ==> src.Some?
  {
    if src.None? || !IsConfigured(log, src.value) then SourceUnknown
    else
      match Find(log, src.value, trigger, env)
      case NoHandler => NotPermitted
      case AmbiguousHandlers => Ambiguous
      case Handler(b) =>
        if IsConfigured(log, b.destination) then Accepted(b.destination) else DestinationUnknown(b.destination)
  }

  function PatchOutcome(log: Log, src: Option<string>, patch: Patch, env: Env): Outcome {
    if patch.trigger.None? then TriggerMissing
    else if patch.state.Some? && patch.state != src then StateMismatch
    else FireOutcome(log, src, patch.trigger.value, env)
  }

  /** The expiries a destination schedules; none when the machine has no scheduler. */
  function Delays(log: Log, destination: string, scheduling: bool): map<string, int> {
    if scheduling then Expiries(log, destination) else map[]
  }

  function Moved(doc: Doc, trigger: string, destination: string): Doc {
    doc.(state := Some(destination), trigger := Some(trigger))
  }

  function WithExpiry(doc: Doc, delays: map<string, int>, from: string): Doc {
    if delays == map[] then doc
    else doc.(expireFromState := Some(from), expiryTriggerAndDelays := Some(delays))
  }

  function DocAfter(log: Log, doc: Doc, trigger: string, o: Outcome, scheduling: bool := true): Doc {
    match o
    case Accepted(d) => WithExpiry(Moved(doc, trigger, d), Delays(log, d, scheduling), d)
    case DestinationUnknown(d) => Moved(doc, trigger, d)
    case _ => doc
  }

  function EntryEffects(actions: seq<EntryAction>, t: string): seq<Effect> {
    if actions == [] then []
    else
      var last := actions[|actions| - 1];
      EntryEffects(actions[..|actions| - 1], t) + (if last.RunsOn(t) then [Entered(last.id)] else [])
  }

  function ExitEffects(ids: seq<nat>): seq<Effect> {
    seq(|ids|, i requires 0 <= i < |ids| => Exited(ids[i]))
  }

  function ScheduleEffects(delays: map<string, int>, destination: string): seq<Effect> {
    if delays == map[] then [] else [Scheduled(delays, destination)]
  }

  /** Persist, then the exit actions, then one schedule call if there is anything to expire, then entry. */
  function PatchEffects(log: Log, src: string, trigger: string, o: Outcome, scheduling: bool := true)
    : seq<Effect>
    requires o.Writes()
  {
    LeaveEffects(log, src, trigger, o.destination) +
    (if o.Accepted? then EnterEffects(log, trigger, o.destination, scheduling) else [])
  }

  function LeaveEffects(log: Log, src: string, trigger: string, destination: string): seq<Effect> {
    [Persisted(src, trigger, destination)] + ExitEffects(ExitActions(log, src))
  }

  function EnterEffects(log: Log, trigger: string, destination: string, scheduling: bool): seq<Effect> {
    ScheduleEffects(Delays(log, destination, scheduling), destination) +
    EntryEffects(EntryActions(log, destination), trigger)
  }

  /** The executor after a patch: an accepted one adds a timer for every expiry of its destination. */
  function ExecutorAfter(log: Log, executor: Executor, o: Outcome, serial: int, now: int, scheduling: bool := true)
    : Executor
  {
    if o.Accepted? then executor.Schedule(Delays(log, o.destination, scheduling), o.destination, serial, now)
    else executor
  }

  /** What the creating POST leaves behind: the first document, and the self-patch it sends. */
  function StartState(config: Option<string>): string {
    config.GetOr("Start")
  }

  function StartedDoc(init: Option<string>, posted: Doc): Doc {
    if posted.state.None? then posted.(state := Some(StartState(init))) else posted
  }

  function SelfPatch(init: Option<string>, doc: Doc, initialTrigger: Option<string>): Option<Patch> {
    if doc.state == Some(StartState(init)) && initialTrigger.Some? then Some(Patch(doc.state, initialTrigger))
    else None
  }

  /** An entry action runs exactly when the log adds it unconditionally or for the fired trigger. */
  lemma {:induction false} EntryActionRuns(log: Log, d: string, t: string, id: nat)
    ensures Entered(id) in EntryEffects(EntryActions(log, d), t) <==>
            EntryAdded(d, Always(id)) in log || EntryAdded(d, OnlyFrom(t, id)) in log
  {
    if log != [] {
      var (front, last) := (log[..|log| - 1], log[|log| - 1]);
      EntryActionRuns(front, d, t, id);
      assert log == front + [last];
      var actions := EntryActions(front, d);
      if last.EntryAdded? && last.state == d {
        assert (actions + [last.action])[..|actions|] == actions;
        assert EntryEffects(EntryActions(log, d), t) ==
               EntryEffects(actions, t) + (if last.action.RunsOn(t) then [Entered(last.action.id)] else []);
      } else {
        assert EntryActions(log, d) == actions;
      }
    }
  }

  /** A patch that writes goes from its source to its destination along a registered behaviour. */
  lemma WritesAlongAnEdge(log: Log, src: Option<string>, patch: Patch, env: Env)
    requires PatchOutcome(log, src, patch, env).Writes()
    ensures src.Some? && patch.trigger.Some? && (patch.state.Some? ==> patch.state == src)
    ensures Edge(src.value, patch.trigger.value, PatchOutcome(log, src, patch, env).destination) in LogEdges(log)
  {
    HandlerWasPermitted(log, src.value, patch.trigger.value, env);
    var b := Find(log, src.value, patch.trigger.value, env).behaviour;
    PermittedIsDrawn(log, src.value, b);
  }

  /** Any permutation of the registrations gives the same transition function. */
  lemma OrderKeepsOutcomes(log: Log, log': Log, src: Option<string>, patch: Patch, env: Env)
    requires multiset(log) == multiset(log')
    ensures PatchOutcome(log, src, patch, env) == PatchOutcome(log', src, patch, env)
  {
    hide Find, IsConfigured;
    if src.Some? && patch.trigger.Some? {
      OrderIsIrrelevant(log, log', src.value, patch.trigger.value, env);
      SameConfigured(log, log');
    }
  }
}
