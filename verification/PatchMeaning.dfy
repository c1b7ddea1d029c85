/**
 What one patch does, read off the log entry by entry: which behaviour it fires, which actions
 run and in which order, what it writes and which timers it schedules.
 */
module PatchMeaning {
  import opened Options
  import opened Registrations
  import opened Documents
  import opened PatchSemantics
  import opened Positions

  // ---- The outcome ----

  /**
   The outcome of a patch, from the entries of the log that serve its trigger in the document's
   state with an absent or a satisfied guard: exactly one such entry fires.
   */
  lemma OutcomeOfPatch(log: Log, src: Option<string>, patch: Patch, env: Env)
    ensures patch.trigger == None ==> PatchOutcome(log, src, patch, env) == TriggerMissing
    ensures patch.trigger != None && patch.state != None && patch.state != src ==>
              PatchOutcome(log, src, patch, env) == StateMismatch
    ensures patch.trigger != None && (patch.state == None || patch.state == src) ==>
              PatchOutcome(log, src, patch, env) == FireOutcome(log, src, patch.trigger.value, env)
  {
  }

  lemma OutcomeOfFiring(log: Log, src: Option<string>, t: string, env: Env)
    ensures src == None || (forall r | r in log :: r.state != src.value) ==>
              FireOutcome(log, src, t, env) == SourceUnknown
    ensures src != None && (exists r :: r in log && r.state == src.value) ==>
              var met := set i: nat | i < |log| && log[i].Permitted? && log[i].state == src.value
                                      && log[i].behaviour.trigger == t
                                      && (log[i].behaviour.guard == NoGuard || env(log[i].behaviour.guard.id, t));
              && (|met| == 0 ==> FireOutcome(log, src, t, env) == NotPermitted)
              && (|met| > 1 ==> FireOutcome(log, src, t, env) == Ambiguous)
              && (forall i | met == {i} ::
                    FireOutcome(log, src, t, env) ==
                    if exists r :: r in log && r.state == log[i].behaviour.destination
                    then Accepted(log[i].behaviour.destination)
                    else DestinationUnknown(log[i].behaviour.destination))
  {
    hide Find;
    if src.Some? && IsConfigured(log, src.value) {
      var s := src.value;
      var met := set i: nat | i < |log| && log[i].Permitted? && log[i].state == s && log[i].behaviour.trigger == t
                              && (log[i].behaviour.guard == NoGuard || env(log[i].behaviour.guard.id, t));
      MetAtIs(log, s, t, env);
      assert met == MetAt(log, s, t, env);
      FindCountsTheLog(log, s, t, env);
      forall i | met == {i} ensures Find(log, s, t, env) == Handler(log[i].behaviour) {
        assert |met| == 1 && i in met;
      }
    }
  }

  lemma MetAtIs(log: Log, s: string, t: string, env: Env)
    ensures forall i: nat :: i in MetAt(log, s, t, env) <==>
              i < |log| && log[i].Permitted? && log[i].state == s && log[i].behaviour.trigger == t
              && (log[i].behaviour.guard == NoGuard || env(log[i].behaviour.guard.id, t))
  {
  }

  /** A state permits a trigger when some entry serves it with an absent or a satisfied guard. */
  lemma PermittedNow(log: Log, s: string, t: string, env: Env)
    ensures MetOnly(Behaviours(log, s, t), env) != [] <==>
            exists i :: 0 <= i < |log| && log[i].Permitted? && log[i].state == s && log[i].behaviour.trigger == t
                        && (log[i].behaviour.guard == NoGuard || env(log[i].behaviour.guard.id, t))
  {
    MetAtIs(log, s, t, env);
    MetAtCounts(log, s, t, env);
    if i :| 0 <= i < |log| && log[i].Permitted? && log[i].state == s && log[i].behaviour.trigger == t
            && (log[i].behaviour.guard == NoGuard || env(log[i].behaviour.guard.id, t)) {
      assert i in MetAt(log, s, t, env);
    }
    if MetOnly(Behaviours(log, s, t), env) != [] {
      assert MetAt(log, s, t, env) != {};
    }
  }

  // ---- The actions ----

  /** The exit actions of a state are those the log adds to it, each as often, in their order. */
  lemma {:induction false} ExitActionsAt(log: Log, s: string) returns (at: seq<nat>)
    ensures Lists(at, log, (r: Registration) => r.ExitAdded? && r.state == s)
    ensures |ExitActions(log, s)| == |at|
    ensures forall k | 0 <= k < |at| :: log[at[k]].ExitAdded? && ExitActions(log, s)[k] == log[at[k]].exitId
  {
    var kind := (r: Registration) => r.ExitAdded? && r.state == s;
    hide Lists;
    if log == [] {
      at := [];
      ListsNothing(kind);
    } else {
      var (front, last) := (log[..|log| - 1], log[|log| - 1]);
      at := ExitActionsAt(front, s);
      ListedAre(at, front, kind);
      ListsAppended(at, front, last, kind);
      at := at + (if kind(last) then [|front|] else []);
      assert log == front + [last];
    }
  }

  /** The entry actions that run on a trigger are those the log adds always or for it, in their order. */
  lemma {:induction false} EntryActionsAt(log: Log, d: string, t: string) returns (at: seq<nat>)
    ensures Lists(at, log, (r: Registration) =>
                    r.EntryAdded? && r.state == d && (r.action.Always? || r.action.trigger == t))
    ensures |EntryEffects(EntryActions(log, d), t)| == |at|
    ensures forall k | 0 <= k < |at| ::
              log[at[k]].EntryAdded? && EntryEffects(EntryActions(log, d), t)[k] == Entered(log[at[k]].action.id)
  {
    var kind := (r: Registration) => r.EntryAdded? && r.state == d && (r.action.Always? || r.action.trigger == t);
    hide Lists;
    if log == [] {
      at := [];
      ListsNothing(kind);
    } else {
      var (front, last) := (log[..|log| - 1], log[|log| - 1]);
      hide EntryEffects, EntryActions;
      assert log == front + [last];
      at := EntryActionsAt(front, d, t);
      EntryEffectsAppended(front, last, d, t);
      ListedAre(at, front, kind);
      ListsAppended(at, front, last, kind);
      at := at + (if kind(last) then [|front|] else []);
    }
  }

  lemma EntryEffectsAppended(front: Log, last: Registration, d: string, t: string)
    ensures EntryEffects(EntryActions(front + [last], d), t) ==
            EntryEffects(EntryActions(front, d), t) +
            (if last.EntryAdded? && last.state == d && (last.action.Always? || last.action.trigger == t)
             then [Entered(last.action.id)] else [])
  {
    Appended(front, last, d);
    var actions := EntryActions(front, d);
    if last.EntryAdded? && last.state == d {
      assert (actions + [last.action])[..|actions|] == actions;
    } else {
      assert EntryActions(front + [last], d) == actions;
    }
  }

  /**
   The whole trace of an accepted patch: the write first, then every exit action of the source,
   then one schedule call if the destination has expiries, then every entry action of the
   destination that runs on the trigger, each in registration order.
   */
  lemma TraceOfPatch(log: Log, src: string, t: string, d: string, scheduling: bool)
    returns (exits: seq<nat>, entries: seq<nat>)
    ensures Lists(exits, log, (r: Registration) => r.ExitAdded? && r.state == src)
    ensures Lists(entries, log, (r: Registration) =>
                    r.EntryAdded? && r.state == d && (r.action.Always? || r.action.trigger == t))
    ensures var effects := PatchEffects(log, src, t, Accepted(d), scheduling);
            var before := if scheduling && Expiries(log, d) != map[] then 2 + |exits| else 1 + |exits|;
            && |effects| == before + |entries|
            && effects[0] == Persisted(src, t, d)
            && (forall k | 0 <= k < |exits| ::
                  log[exits[k]].ExitAdded? && effects[1 + k] == Exited(log[exits[k]].exitId))
            && (scheduling && Expiries(log, d) != map[] ==> effects[1 + |exits|] == Scheduled(Expiries(log, d), d))
            && (forall k | 0 <= k < |entries| ::
                  log[entries[k]].EntryAdded? && effects[before + k] == Entered(log[entries[k]].action.id))
  {
    exits := ExitActionsAt(log, src);
    entries := EntryActionsAt(log, d, t);
    hide Lists, ExitActions, EntryActions, EntryEffects, Expiries;
    var written, left := [Persisted(src, t, d)], ExitEffects(ExitActions(log, src));
    var scheduled := ScheduleEffects(Delays(log, d, scheduling), d);
    var entered := EntryEffects(EntryActions(log, d), t);
    InParts(written, left, scheduled, entered);
    assert PatchEffects(log, src, t, Accepted(d), scheduling) == written + left + (scheduled + entered);
  }

  lemma InParts<T>(a: seq<T>, b: seq<T>, c: seq<T>, d: seq<T>)
    ensures forall k | 0 <= k < |a| :: (a + b + (c + d))[k] == a[k]
    ensures forall k | 0 <= k < |b| :: (a + b + (c + d))[|a| + k] == b[k]
    ensures forall k | 0 <= k < |c| :: (a + b + (c + d))[|a| + |b| + k] == c[k]
    ensures forall k | 0 <= k < |d| :: (a + b + (c + d))[|a| + |b| + |c| + k] == d[k]
  {
  }

  /** Towards an unconfigured destination the trace ends with the exit actions. */
  lemma TraceOfStray(log: Log, src: string, t: string, d: string, scheduling: bool) returns (exits: seq<nat>)
    ensures Lists(exits, log, (r: Registration) => r.ExitAdded? && r.state == src)
    ensures var effects := PatchEffects(log, src, t, DestinationUnknown(d), scheduling);
            && |effects| == 1 + |exits|
            && effects[0] == Persisted(src, t, d)
            && (forall k | 0 <= k < |exits| ::
                  log[exits[k]].ExitAdded? && effects[1 + k] == Exited(log[exits[k]].exitId))
  {
    exits := ExitActionsAt(log, src);
  }

  // ---- The document and the timers ----

  /**
   The document after a patch that fires: state and trigger are those of the transition; the
   expiry fields are set when the destination has expiries, and kept otherwise.
   */
  lemma DocumentAfter(log: Log, doc: Doc, t: string, d: string, scheduling: bool)
    ensures var doc' := DocAfter(log, doc, t, Accepted(d), scheduling);
            && doc'.state == Some(d) && doc'.trigger == Some(t) && doc'.version == doc.version
            && (scheduling && Expiries(log, d) != map[] ==>
                  doc'.expireFromState == Some(d) && doc'.expiryTriggerAndDelays == Some(Expiries(log, d)))
            && (!scheduling || Expiries(log, d) == map[] ==>
                  && doc'.expireFromState == doc.expireFromState
                  && doc'.expiryTriggerAndDelays == doc.expiryTriggerAndDelays)
    ensures DocAfter(log, doc, t, DestinationUnknown(d), scheduling) == doc.(state := Some(d), trigger := Some(t))
    ensures DocAfter(log, doc, t, NotPermitted, scheduling) == doc
    ensures DocAfter(log, doc, t, Ambiguous, scheduling) == doc
  {
  }

  /**
   The timers after an accepted patch: the old ones, and for each trigger with an expiry in the
   destination one that is due after the delay registered last.
   */
  lemma TimersAfter(log: Log, executor: Executor, d: string, serial: int, now: int, timer: Timer)
    ensures timer in ExecutorAfter(log, executor, Accepted(d), serial, now).timers <==>
            || timer in executor.timers
            || (timer.serial == serial && timer.fromState == d
                && exists i :: 0 <= i < |log| && LastExpiry(log, d, timer.trigger, i)
                               && timer.dueAt == now + log[i].delay)
    ensures ExecutorAfter(log, executor, Accepted(d), serial, now, false) == executor
    ensures ExecutorAfter(log, executor, DestinationUnknown(d), serial, now) == executor
  {
    hide Expiries;
    LastDelayWins(log, d, timer.trigger);
    LastExpiryExists(log, d, timer.trigger);
    NoNewTimers(executor, d, serial, now);
    if timer.trigger in Expiries(log, d) {
      var i :| 0 <= i < |log| && LastExpiry(log, d, timer.trigger, i);
      assert Expiries(log, d)[timer.trigger] == log[i].delay;
      assert timer.trigger in Expiries(log, d).Keys;
    }
  }

  lemma NoNewTimers(executor: Executor, d: string, serial: int, now: int)
    ensures executor.Schedule(map[], d, serial, now) == executor
  {
    assert NewTimers(map[], d, serial, now) == {};
  }

  /** Entry `i` is the last one that sets an expiry of state `s` for trigger `t`. */
  ghost predicate LastExpiry(log: Log, s: string, t: string, i: nat)
    requires i < |log|
  {
    && log[i].ExpiryAdded? && log[i].state == s && log[i].trigger == t
    && forall j | i < j < |log| :: !(log[j].ExpiryAdded? && log[j].state == s && log[j].trigger == t)
  }

  lemma {:induction false} LastExpiryExists(log: Log, s: string, t: string)
    ensures (exists i :: 0 <= i < |log| && log[i].ExpiryAdded? && log[i].state == s && log[i].trigger == t) <==>
            (exists i :: 0 <= i < |log| && LastExpiry(log, s, t, i))
  {
    if i :| 0 <= i < |log| && log[i].ExpiryAdded? && log[i].state == s && log[i].trigger == t {
      var (front, last) := (log[..|log| - 1], log[|log| - 1]);
      if last.ExpiryAdded? && last.state == s && last.trigger == t {
        assert LastExpiry(log, s, t, |log| - 1);
      } else {
        assert front[i] == log[i];
        LastExpiryExists(front, s, t);
        var j :| 0 <= j < |front| && LastExpiry(front, s, t, j);
        assert forall k | 0 <= k < |front| :: front[k] == log[k];
        assert LastExpiry(log, s, t, j);
      }
    }
  }

  // ---- The drawn edges ----

  /** The log's edges are those of its behaviours, each as often as it is registered, in their order. */
  lemma {:induction false} LogEdgesAt(log: Log) returns (at: seq<nat>)
    ensures Lists(at, log, (r: Registration) => r.Permitted?)
    ensures |LogEdges(log)| == |at|
    ensures forall k | 0 <= k < |at| ::
              var r := log[at[k]];
              r.Permitted? && LogEdges(log)[k] == Edge(r.state, r.behaviour.trigger, r.behaviour.destination)
  {
    var kind := (r: Registration) => r.Permitted?;
    hide Lists;
    if log == [] {
      at := [];
      ListsNothing(kind);
    } else {
      var (front, last) := (log[..|log| - 1], log[|log| - 1]);
      at := LogEdgesAt(front);
      ListedAre(at, front, kind);
      ListsAppended(at, front, last, kind);
      at := at + (if kind(last) then [|front|] else []);
      assert log == front + [last];
    }
  }
}
