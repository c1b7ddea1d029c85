/**
 Feature flags: the documents kept by the store, and the cache that follows them through
 notifications. Both are keyed by the identifier formed from a feature's group and name.
 */
module Features {
  import opened Options
  import opened Positions

  datatype Strategy = DEFAULT

  /** A stored feature, and what a client posts or patches; nulls are absent. */
  datatype Feature = Feature(group: string, name: string, description: Option<string>, enable: bool,
                             strategy: Option<Strategy>)

  datatype Posted = Posted(group: Option<string>, name: Option<string>, description: Option<string>,
                           enable: bool, strategy: Option<Strategy>)

  function FormId(group: string, name: string): string {
    group + "::" + name
  }

  function IdOf(f: Feature): string {
    FormId(f.group, f.name)
  }

  type Store = map<string, Feature>

  // ---- Identifiers ----

  predicate ColonFree(s: string) {
    ':' !in s
  }

  /** How the longer group `g'` can hide the separator of (g, n): whole, or by one colon. */
  predicate Absorbs(g: string, n: string, g': string, n': string) {
    || (|g'| >= |g| + 2 && g' == g + "::" + g'[|g| + 2..] && n == g'[|g| + 2..] + "::" + n')
    || (g' == g + ":" && n == ":" + n')
  }

  /**
   Two pairs share an identifier exactly when they are the same pair or one group absorbs the
   other's separator; so identifiers of colon-free groups are unambiguous.
   */
  lemma SameIdIff(g: string, n: string, g': string, n': string)
    ensures FormId(g, n) == FormId(g', n') <==>
            (g == g' && n == n') || Absorbs(g, n, g', n') || Absorbs(g', n', g, n)
    ensures ColonFree(g) && ColonFree(g') && FormId(g, n) == FormId(g', n') ==> g == g' && n == n'
  {
    if |g| <= |g'| {
      SameIdOrdered(g, n, g', n');
    } else {
      SameIdOrdered(g', n', g, n);
    }
  }

  lemma SameIdOrdered(g: string, n: string, g': string, n': string)
    requires |g| <= |g'|
    ensures FormId(g, n) == FormId(g', n') <==> (g == g' && n == n') || Absorbs(g, n, g', n')
    ensures Absorbs(g, n, g', n') ==> !ColonFree(g')
    ensures !Absorbs(g', n', g, n)
  {
    var (id, id', d) := (FormId(g, n), FormId(g', n'), |g'| - |g|);
    assert id[..|g|] == g && id[|g| + 2..] == n && id'[..|g'|] == g' && id'[|g'| + 2..] == n';
    assert id[|g|] == ':' && id[|g| + 1] == ':';
    if id == id' {
      assert g' == id[..|g'|] && n' == id[|g'| + 2..];
      if d == 1 {
        assert g' == g + [id[|g|]];
        assert n == [id'[|g'| + 1]] + n';
      } else if d >= 2 {
        assert g' == g + "::" + g'[|g| + 2..];
        assert n == id'[|g| + 2..] == g'[|g| + 2..] + "::" + n';
      }
    }
  }

  // ---- The store ----

  /** A stored change as a subscriber sees it: the document, and whether it was deleted. */
  datatype Change = Put(feature: Feature) | Removed(feature: Feature) {
    function Id(): string {
      IdOf(feature)
    }
  }

  function Apply(m: Store, c: Change): Store {
    match c
    case Put(f) => m[IdOf(f) := f]
    case Removed(f) => m - {IdOf(f)}
  }

  function ApplyAll(m: Store, changes: seq<Change>): Store {
    if changes == [] then m
    else Apply(ApplyAll(m, changes[..|changes| - 1]), changes[|changes| - 1])
  }

  datatype StoreOp =
    | New(posted: Posted)
    | Patch(id: string, enable: bool, strategy: Option<Strategy>)
    | Delete(id: string)

  /** The feature a post creates; nothing when a required field is missing. */
  function Started(p: Posted): Option<Feature> {
    if p.group.None? || p.name.None? then None
    else Some(Feature(p.group.value, p.name.value, p.description, p.enable, Some(p.strategy.GetOr(DEFAULT))))
  }

  function Patched(f: Feature, enable: bool, strategy: Option<Strategy>): Feature {
    f.(enable := enable, strategy := if strategy.Some? then strategy else f.strategy)
  }

  /** The change an operation commits; nothing when the store refuses it. */
  function Committed(store: Store, op: StoreOp): Option<Change> {
    match op
    case New(p) =>
      if Started(p).None? || IdOf(Started(p).value) in store then None else Some(Put(Started(p).value))
    case Patch(id, enable, strategy) =>
      if id in store then Some(Put(Patched(store[id], enable, strategy))) else None
    case Delete(id) =>
      if id in store then Some(Removed(store[id])) else None
  }

  /** At each identifier stands a feature whose own group and name form it. */
  ghost predicate Consistent(store: Store) {
    forall id | id in store :: IdOf(store[id]) == id
  }

  class FeatureDao {
    var documents: Store

    /** Stores a posted feature under the identifier of its group and name, unless it is taken. */
    method NewFeature(posted: Posted) returns (ok: bool)
      modifies this
      ensures ok == Committed(old(documents), New(posted)).Some?
      ensures documents == if ok then Apply(old(documents), Committed(old(documents), New(posted)).value)
                           else old(documents)
      ensures ok == (posted.group != None && posted.name != None
                     && posted.group.value + "::" + posted.name.value !in old(documents))
      ensures ok ==> documents == old(documents)[posted.group.value + "::" + posted.name.value :=
                Feature(posted.group.value, posted.name.value, posted.description, posted.enable,
                        if posted.strategy == None then Some(DEFAULT) else posted.strategy)]
      ensures !ok ==> documents == old(documents)
    {
      var feature := posted;
      if feature.strategy == None {
        feature := feature.(strategy := Some(DEFAULT));
      }
      if feature.group.None? || feature.name.None? {
        return false;
      }
      var selfLink := FormId(feature.group.value, feature.name.value);
      if selfLink in documents {
        return false;
      }
      documents := documents[selfLink := Feature(feature.group.value, feature.name.value, feature.description,
                                                 feature.enable, feature.strategy)];
      return true;
    }

    /** Changes the enable flag, and the strategy if one is given, of the document at `id`. */
    method HandlePatch(id: string, enable: bool, strategy: Option<Strategy>) returns (ok: bool)
      requires Consistent(documents)
      modifies this
      ensures Consistent(documents)
      ensures ok == Committed(old(documents), Patch(id, enable, strategy)).Some?
      ensures documents ==
              if ok then Apply(old(documents), Committed(old(documents), Patch(id, enable, strategy)).value)
              else old(documents)
      ensures ok == (id in old(documents)) && (!ok ==> documents == old(documents))
      ensures ok ==> documents == old(documents)[id := old(documents)[id].(enable := enable,
                strategy := if strategy == None then old(documents)[id].strategy else strategy)]
    {
      if id !in documents {
        return false;
      }
      var current := documents[id];
      current := current.(enable := enable);
      if strategy.Some? {
        current := current.(strategy := strategy);
      }
      documents := documents[id := current];
      return true;
    }

    method EnableFeature(group: string, name: string, isEnabled: bool) returns (ok: bool)
      requires Consistent(documents)
      modifies this
      ensures Consistent(documents) && documents.Keys == old(documents.Keys)
      ensures ok == (FormId(group, name) in documents)
      ensures ok ==> documents[FormId(group, name)] == old(documents)[FormId(group, name)].(enable := isEnabled)
      ensures forall id | id in documents && id != FormId(group, name) :: documents[id] == old(documents)[id]
    {
      ok := HandlePatch(FormId(group, name), isEnabled, None);
    }
  }

  // ---- The cache ----

  /** What a lookup invents for an identifier the cache does not know: a disabled feature. */
  function Placeholder(group: string, name: string): Feature {
    Feature(group, name, None, false, None)
  }

  function Answer(cache: Store, group: string, name: string): Feature {
    if FormId(group, name) in cache then cache[FormId(group, name)] else Placeholder(group, name)
  }

  function AfterFind(cache: Store, group: string, name: string): Store {
    cache[FormId(group, name) := Answer(cache, group, name)]
  }

  /** A document of a notification; those of other kinds are skipped. */
  datatype Notified = FeatureDocument(change: Change) | OtherKind

  function FeatureChanges(batch: seq<Notified>): seq<Change> {
    if batch == [] then []
    else
      var last := batch[|batch| - 1];
      FeatureChanges(batch[..|batch| - 1]) + (if last.FeatureDocument? then [last.change] else [])
  }

  class FeaturesCache {
    var cache: Store

    method FindFeature(group: string, name: string) returns (feature: Feature)
      modifies this
      ensures feature == Answer(old(cache), group, name)
      ensures cache == AfterFind(old(cache), group, name)
      ensures var id := group + "::" + name;
              && feature == (if id in old(cache) then old(cache)[id] else Feature(group, name, None, false, None))
              && cache == old(cache)[id := feature]
    {
      var id := FormId(group, name);
      if id !in cache {
        cache := cache[id := Feature(group, name, None, false, None)];
      }
      feature := cache[id];
    }

    method HandleFeatureUpdate(change: Change)
      modifies this
      ensures cache == Apply(old(cache), change)
      ensures var id := change.feature.group + "::" + change.feature.name;
              match change
              case Put(f) => cache == old(cache)[id := f]
              case Removed(_) => cache == old(cache) - {id}
    {
      var id := FormId(change.feature.group, change.feature.name);
      if change.Removed? {
        cache := cache - {id};
      } else {
        cache := cache[id := change.feature];
      }
    }

    method HandleFeatureUpdates(batch: seq<Notified>)
      modifies this
      ensures cache == ApplyAll(old(cache), FeatureChanges(batch))
      ensures forall id | (forall d | d in batch && d.FeatureDocument? :: IdOf(d.change.feature) != id) ::
                At(cache, id) == At(old(cache), id)
      ensures forall i | 0 <= i < |batch| && batch[i].FeatureDocument? && IsLastDocument(batch, i) ::
                At(cache, IdOf(batch[i].change.feature)) ==
                match batch[i].change
                case Put(f) => Some(f)
                case Removed(_) => None
    {
      for i := 0 to |batch|
        invariant cache == ApplyAll(old(cache), FeatureChanges(batch[..i]))
      {
        assert batch[..i + 1][..i] == batch[..i];
        ghost var changes := FeatureChanges(batch[..i]);
        if batch[i].FeatureDocument? {
          HandleFeatureUpdate(batch[i].change);
          assert (changes + [batch[i].change])[..|changes|] == changes;
          assert FeatureChanges(batch[..i + 1]) == changes + [batch[i].change];
        } else {
          assert FeatureChanges(batch[..i + 1]) == changes;
        }
      }
      assert batch[..|batch|] == batch;
      forall id | (forall d | d in batch && d.FeatureDocument? :: IdOf(d.change.feature) != id)
        ensures At(cache, id) == At(old(cache), id)
      {
        UnreportedStays(old(cache), batch, id);
      }
      forall i | 0 <= i < |batch| && batch[i].FeatureDocument? && IsLastDocument(batch, i)
        ensures At(cache, IdOf(batch[i].change.feature)) ==
                match batch[i].change
                case Put(f) => Some(f)
                case Removed(_) => None
      {
        LastDocumentCounts(old(cache), batch, i);
      }
    }
  }

  /** No later document of the notification is about the same identifier. */
  ghost predicate IsLastDocument(batch: seq<Notified>, i: nat)
    requires i < |batch| && batch[i].FeatureDocument?
  {
    forall j | i < j < |batch| && batch[j].FeatureDocument? ::
      IdOf(batch[j].change.feature) != IdOf(batch[i].change.feature)
  }

  /** The changes of a notification are those of its feature documents, in their order. */
  lemma {:induction false} FeatureChangesAt(batch: seq<Notified>) returns (at: seq<nat>)
    ensures Lists(at, batch, (d: Notified) => d.FeatureDocument?)
    ensures |FeatureChanges(batch)| == |at|
    ensures forall k | 0 <= k < |at| ::
              batch[at[k]].FeatureDocument? && FeatureChanges(batch)[k] == batch[at[k]].change
  {
    var kind := (d: Notified) => d.FeatureDocument?;
    hide Lists;
    if batch == [] {
      at := [];
      ListsNothing(kind);
    } else {
      var (front, last) := (batch[..|batch| - 1], batch[|batch| - 1]);
      at := FeatureChangesAt(front);
      ListedAre(at, front, kind);
      ListsAppended(at, front, last, kind);
      at := at + (if last.FeatureDocument? then [|front|] else []);
      assert batch == front + [last];
    }
  }

  lemma {:induction false} UnreportedStays(m: Store, batch: seq<Notified>, id: string)
    requires forall d | d in batch && d.FeatureDocument? :: IdOf(d.change.feature) != id
    ensures At(ApplyAll(m, FeatureChanges(batch)), id) == At(m, id)
  {
    if batch != [] {
      var (front, last) := (batch[..|batch| - 1], batch[|batch| - 1]);
      assert last in batch;
      UnreportedStays(m, front, id);
      ReportStep(m, front, last);
      assert batch == front + [last];
    }
  }

  lemma ReportStep(m: Store, batch: seq<Notified>, d: Notified)
    ensures ApplyAll(m, FeatureChanges(batch + [d])) ==
            if d.FeatureDocument? then Apply(ApplyAll(m, FeatureChanges(batch)), d.change)
            else ApplyAll(m, FeatureChanges(batch))
  {
    assert (batch + [d])[..|batch|] == batch;
    var changes := FeatureChanges(batch);
    if d.FeatureDocument? {
      assert (changes + [d.change])[..|changes|] == changes;
    } else {
      assert FeatureChanges(batch + [d]) == changes;
    }
  }

  /** What the last document about an identifier says is what the cache then holds. */
  lemma {:induction false} LastDocumentCounts(m: Store, batch: seq<Notified>, i: nat)
    requires i < |batch| && batch[i].FeatureDocument? && IsLastDocument(batch, i)
    ensures At(ApplyAll(m, FeatureChanges(batch)), IdOf(batch[i].change.feature)) ==
            match batch[i].change
            case Put(f) => Some(f)
            case Removed(_) => None
  {
    var (front, last) := (batch[..|batch| - 1], batch[|batch| - 1]);
    ReportStep(m, front, last);
    assert batch == front + [last];
    if i < |front| {
      assert forall j | 0 <= j < |front| :: front[j] == batch[j];
      LastDocumentCounts(m, front, i);
    }
  }

  // ---- What changes amount to ----

  function LastChange(changes: seq<Change>, id: string): Option<Change> {
    if changes == [] then None
    else if changes[|changes| - 1].Id() == id then Some(changes[|changes| - 1])
    else LastChange(changes[..|changes| - 1], id)
  }

  /** What a map holds at an identifier. */
  function At(m: Store, id: string): Option<Feature> {
    if id in m then Some(m[id]) else None
  }

  /** Only the last change of an identifier counts for it. */
  lemma {:induction false} OnlyTheLastCounts(m: Store, changes: seq<Change>, id: string)
    ensures At(ApplyAll(m, changes), id) ==
            match LastChange(changes, id)
            case None => At(m, id)
            case Some(Put(f)) => Some(f)
            case Some(Removed(_)) => None
  {
    if changes != [] && changes[|changes| - 1].Id() != id {
      OnlyTheLastCounts(m, changes[..|changes| - 1], id);
    }
  }

  lemma {:induction false} ApplyAppended(m: Store, a: seq<Change>, b: seq<Change>)
    ensures ApplyAll(m, a + b) == ApplyAll(ApplyAll(m, a), b)
  {
    if b == [] {
      assert a + b == a;
    } else {
      ApplyAppended(m, a, b[..|b| - 1]);
      assert (a + b)[..|a + b| - 1] == a + b[..|b| - 1];
    }
  }

  ghost predicate DistinctIds(changes: seq<Change>) {
    forall i, j | 0 <= i < j < |changes| :: changes[i].Id() != changes[j].Id()
  }

  /**
   A notification for a stretch of committed changes: each document once, in any order, as the
   last change of the stretch left it.
   */
  ghost predicate IsBatch(batch: seq<Change>, window: seq<Change>) {
    && DistinctIds(batch)
    && (forall c | c in batch :: LastChange(window, c.Id()) == Some(c))
    && (forall c | c in window :: exists b :: b in batch && b.Id() == c.Id())
  }

  lemma {:induction false} LastOfDistinct(batch: seq<Change>, id: string)
    ensures match LastChange(batch, id)
            case None => forall c | c in batch :: c.Id() != id
            case Some(c) => c in batch && c.Id() == id
  {
    if batch != [] && batch[|batch| - 1].Id() != id {
      LastOfDistinct(batch[..|batch| - 1], id);
    }
  }

  /** A batch amounts to the stretch it reports, whatever its order. */
  lemma BatchIsWindow(m: Store, batch: seq<Change>, window: seq<Change>)
    requires IsBatch(batch, window)
    ensures ApplyAll(m, batch) == ApplyAll(m, window)
  {
    forall id ensures At(ApplyAll(m, batch), id) == At(ApplyAll(m, window), id) {
      OnlyTheLastCounts(m, batch, id);
      OnlyTheLastCounts(m, window, id);
      LastOfDistinct(batch, id);
      LastOfDistinct(window, id);
    }
    SameEverywhere(ApplyAll(m, batch), ApplyAll(m, window));
  }

  lemma SameEverywhere(m: Store, m': Store)
    requires forall id :: At(m, id) == At(m', id)
    ensures m == m'
  {
    forall id ensures id in m <==> id in m' {
      assert At(m, id) == At(m', id);
    }
    forall id | id in m ensures m[id] == m'[id] {
      assert At(m, id) == At(m', id);
    }
  }
}
