/** Runs of the store and a cache that lags behind it, read and notified at any moment. */
module FeatureRuns {
  import opened Options
  import opened Features

  /** `committed` lists the store's changes in commit order; the cache has been told the first `delivered`. */
  datatype Sys = Sys(store: Store, committed: seq<Change>, delivered: nat, cache: Store)

  datatype Event =
    | Operate(op: StoreOp)
    | Find(group: string, name: string)
    | Notify(batch: seq<Notified>, upto: nat)

  /** A notification reports the next stretch of commits. */
  ghost predicate Enabled(s: Sys, e: Event) {
    e.Notify? ==>
      && s.delivered <= e.upto <= |s.committed|
      && IsBatch(FeatureChanges(e.batch), s.committed[s.delivered..e.upto])
  }

  ghost function Next(s: Sys, e: Event): Sys {
    match e
    case Operate(op) =>
      if Committed(s.store, op).None? then s
      else
        var change := Committed(s.store, op).value;
        s.(store := Apply(s.store, change), committed := s.committed + [change])
    case Find(group, name) => s.(cache := AfterFind(s.cache, group, name))
    case Notify(batch, upto) => s.(cache := ApplyAll(s.cache, FeatureChanges(batch)), delivered := upto)
  }

  /** What an operation of a client does to the store, and what it commits. */
  lemma OperationSteps(s: Sys, p: Posted, id: string, enable: bool, strategy: Option<Strategy>)
    ensures var s' := Next(s, Operate(New(p)));
            if p.group == None || p.name == None || p.group.value + "::" + p.name.value in s.store then s' == s
            else
              var f := Feature(p.group.value, p.name.value, p.description, p.enable,
                               if p.strategy == None then Some(DEFAULT) else p.strategy);
              s' == s.(store := s.store[p.group.value + "::" + p.name.value := f], committed := s.committed + [Put(f)])
    ensures var s' := Next(s, Operate(Patch(id, enable, strategy)));
            if id !in s.store then s' == s
            else
              var old' := s.store[id];
              var f := old'.(enable := enable, strategy := if strategy == None then old'.strategy else strategy);
              s' == s.(store := s.store[f.group + "::" + f.name := f], committed := s.committed + [Put(f)])
    ensures var s' := Next(s, Operate(Delete(id)));
            if id !in s.store then s' == s
            else
              var f := s.store[id];
              s' == s.(store := s.store - {f.group + "::" + f.name}, committed := s.committed + [Removed(f)])
  {
  }

  /** The cache starts empty; the first notification may report the documents already stored. */
  ghost predicate Initial(s: Sys) {
    && Consistent(s.store) && ApplyAll(map[], s.committed) == s.store
    && s.delivered == 0 && s.cache == map[]
  }

  datatype Run = Run(states: seq<Sys>, events: seq<Event>)

  ghost predicate IsRun(r: Run) {
    && |r.states| == |r.events| + 1
    && Initial(r.states[0])
    && forall i | 0 <= i < |r.events| ::
         Enabled(r.states[i], r.events[i]) && r.states[i + 1] == Next(r.states[i], r.events[i])
  }

  /** The store as the cache has been told it. */
  ghost function Told(s: Sys): Store
    requires s.delivered <= |s.committed|
  {
    ApplyAll(map[], s.committed[..s.delivered])
  }

  /** The cache holds what it has been told, and besides that only disabled placeholders. */
  ghost predicate Follows(cache: Store, told: Store) {
    && (forall id | id in told :: id in cache && cache[id] == told[id])
    && (forall id | id in cache && id !in told :: IdOf(cache[id]) == id && !cache[id].enable)
  }

  ghost predicate Good(s: Sys) {
    && s.delivered <= |s.committed|
    && Consistent(s.store) && ApplyAll(map[], s.committed) == s.store
    && Follows(s.cache, Told(s))
  }

  /** Applying the same changes to the cache and to what it was told keeps the one following the other. */
  lemma {:induction false} FollowsAll(cache: Store, told: Store, changes: seq<Change>)
    requires Follows(cache, told)
    ensures Follows(ApplyAll(cache, changes), ApplyAll(told, changes))
  {
    if changes != [] {
      FollowsAll(cache, told, changes[..|changes| - 1]);
    }
  }

  lemma NotifyKeepsGood(s: Sys, batch: seq<Notified>, upto: nat)
    requires Good(s) && Enabled(s, Notify(batch, upto))
    ensures Good(Next(s, Notify(batch, upto)))
  {
    var window := s.committed[s.delivered..upto];
    BatchIsWindow(s.cache, FeatureChanges(batch), window);
    FollowsAll(s.cache, Told(s), window);
    ApplyAppended(map[], s.committed[..s.delivered], window);
    assert s.committed[..s.delivered] + window == s.committed[..upto];
  }

  lemma OperateKeepsGood(s: Sys, op: StoreOp)
    requires Good(s)
    ensures Good(Next(s, Operate(op)))
  {
    if Committed(s.store, op).Some? {
      var change := Committed(s.store, op).value;
      assert (s.committed + [change])[..|s.committed|] == s.committed;
      assert (s.committed + [change])[..s.delivered] == s.committed[..s.delivered];
    }
  }

  lemma {:induction false} AlwaysGood(r: Run, n: nat)
    requires IsRun(r) && n <= |r.events|
    ensures Good(r.states[n])
  {
    if n == 0 {
      assert r.states[0].committed[..0] == [];
    } else {
      AlwaysGood(r, n - 1);
      match r.events[n - 1] {
        case Operate(op) => OperateKeepsGood(r.states[n - 1], op);
        case Find(_, _) =>
        case Notify(batch, upto) => NotifyKeepsGood(r.states[n - 1], batch, upto);
      }
    }
  }

  ghost predicate EnabledIn(store: Store, id: string) {
    id in store && store[id].enable
  }

  /**
   At every point of every run the cache's answer is what the store held as of the last delivered
   notification, absent meaning disabled; once everything is delivered it is what the store holds.
   */
  lemma CacheAgreement(r: Run, n: nat, group: string, name: string)
    requires IsRun(r) && n <= |r.events|
    ensures var (s, id) := (r.states[n], FormId(group, name));
            && s.delivered <= |s.committed|
            && (Answer(s.cache, group, name).enable <==> EnabledIn(Told(s), id))
            && (id in Told(s) ==> Answer(s.cache, group, name) == Told(s)[id])
            && (s.delivered == |s.committed| ==> Told(s) == s.store)
  {
    AlwaysGood(r, n);
    var s := r.states[n];
    if s.delivered == |s.committed| {
      assert s.committed[..s.delivered] == s.committed;
    }
  }

  // ---- Groups without colons ----

  ghost predicate ColonFreeStore(m: Store) {
    forall id | id in m :: ColonFree(m[id].group)
  }

  ghost predicate ColonFreeChanges(changes: seq<Change>) {
    forall c | c in changes :: ColonFree(c.feature.group)
  }

  ghost predicate AsksColonFree(e: Event) {
    && (e.Operate? && e.op.New? && e.op.posted.group.Some? ==> ColonFree(e.op.posted.group.value))
    && (e.Find? ==> ColonFree(e.group))
  }

  /** No group that is posted or asked for has a colon. */
  ghost predicate ColonFreeRun(r: Run) {
    && r.states != []
    && ColonFreeChanges(r.states[0].committed)
    && forall e | e in r.events :: AsksColonFree(e)
  }

  lemma {:induction false} ApplyKeepsColonFree(m: Store, changes: seq<Change>)
    requires ColonFreeStore(m) && ColonFreeChanges(changes)
    ensures ColonFreeStore(ApplyAll(m, changes))
  {
    if changes != [] {
      assert changes[|changes| - 1] in changes;
      ApplyKeepsColonFree(m, changes[..|changes| - 1]);
    }
  }

  lemma BatchIsColonFree(s: Sys, e: Event)
    requires e.Notify? && Enabled(s, e) && ColonFreeChanges(s.committed)
    ensures ColonFreeChanges(FeatureChanges(e.batch))
  {
    var window := s.committed[s.delivered..e.upto];
    forall c | c in FeatureChanges(e.batch) ensures ColonFree(c.feature.group) {
      LastOfDistinct(window, c.Id());
      assert c in window;
      assert c in s.committed;
    }
  }

  lemma StepKeepsColonFree(s: Sys, e: Event)
    requires Enabled(s, e) && AsksColonFree(e)
    requires ColonFreeChanges(s.committed) && ColonFreeStore(s.cache) && ColonFreeStore(s.store)
    ensures ColonFreeChanges(Next(s, e).committed) && ColonFreeStore(Next(s, e).cache)
    ensures ColonFreeStore(Next(s, e).store)
  {
    if e.Notify? {
      BatchIsColonFree(s, e);
      ApplyKeepsColonFree(s.cache, FeatureChanges(e.batch));
    }
  }

  lemma {:induction false} AlwaysColonFree(r: Run, n: nat)
    requires IsRun(r) && n <= |r.events| && ColonFreeRun(r)
    ensures ColonFreeChanges(r.states[n].committed) && ColonFreeStore(r.states[n].cache)
    ensures ColonFreeStore(r.states[n].store)
  {
    if n == 0 {
      ApplyKeepsColonFree(map[], r.states[0].committed);
    } else {
      assert r.events[n - 1] in r.events;
      AlwaysColonFree(r, n - 1);
      StepKeepsColonFree(r.states[n - 1], r.events[n - 1]);
    }
  }

  /** Where no group has a colon, the answer is about the feature that was asked for. */
  lemma AnswerIsForThePair(r: Run, n: nat, group: string, name: string)
    requires IsRun(r) && n <= |r.events| && ColonFreeRun(r) && ColonFree(group)
    ensures var f := Answer(r.states[n].cache, group, name); f.group == group && f.name == name
    ensures r.states[n].delivered == |r.states[n].committed| ==>
              (Answer(r.states[n].cache, group, name).enable <==>
               exists id :: id in r.states[n].store && r.states[n].store[id].group == group
                            && r.states[n].store[id].name == name && r.states[n].store[id].enable)
  {
    AlwaysGood(r, n);
    AlwaysColonFree(r, n);
    CacheAgreement(r, n, group, name);
    var s := r.states[n];
    ToldIsKeyed(s.committed[..s.delivered]);
    var f := Answer(s.cache, group, name);
    SameIdIff(f.group, f.name, group, name);
  }

  lemma {:induction false} ToldIsKeyed(changes: seq<Change>)
    ensures Consistent(ApplyAll(map[], changes))
  {
    if changes != [] {
      ToldIsKeyed(changes[..|changes| - 1]);
    }
  }

  /** A lookup changes no later answer. */
  lemma FindChangesNoAnswer(cache: Store, group: string, name: string, changes: seq<Change>,
                            group': string, name': string)
    ensures Answer(ApplyAll(AfterFind(cache, group, name), changes), group', name').enable ==
            Answer(ApplyAll(cache, changes), group', name').enable
    ensures FormId(group', name') in ApplyAll(cache, changes) ==>
            Answer(ApplyAll(AfterFind(cache, group, name), changes), group', name') ==
            Answer(ApplyAll(cache, changes), group', name')
  {
    var id := FormId(group', name');
    OnlyTheLastCounts(cache, changes, id);
    OnlyTheLastCounts(AfterFind(cache, group, name), changes, id);
  }
}
