/** Drawing the walk of a document from its stored versions, in whatever order they come. */
module History {
  import opened Options
  import opened Registrations
  import opened Documents
  import opened FsmRuns
  import opened Positions

  /** An edge as it is drawn from two stored versions, whose source and trigger may be null. */
  datatype DrawnEdge = DrawnEdge(source: Option<string>, trigger: Option<string>, destination: string)

  function Drawn(e: Edge): DrawnEdge {
    DrawnEdge(Some(e.source), Some(e.trigger), e.destination)
  }

  ghost predicate Ordered(docs: seq<Doc>) {
    forall i, j | 0 <= i < j < |docs| :: docs[i].version <= docs[j].version
  }

  /** Each version is one more than the one before. */
  ghost predicate Consecutive(docs: seq<Doc>) {
    forall i | 0 <= i < |docs| :: docs[i].version == docs[0].version + i
  }

  /** Inserts before the first version that is not smaller: `Sorted` is then stable. */
  function Insert(d: Doc, docs: seq<Doc>): seq<Doc> {
    if docs == [] || d.version <= docs[0].version then [d] + docs
    else [docs[0]] + Insert(d, docs[1..])
  }

  function Sorted(docs: seq<Doc>): seq<Doc> {
    if docs == [] then [] else Insert(docs[0], Sorted(docs[1..]))
  }

  lemma {:induction false} InsertKeeps(d: Doc, docs: seq<Doc>)
    ensures multiset(Insert(d, docs)) == multiset(docs) + multiset{d}
  {
    if !(docs == [] || d.version <= docs[0].version) {
      InsertKeeps(d, docs[1..]);
      assert docs == [docs[0]] + docs[1..];
    }
  }

  lemma {:induction false} InsertOrders(d: Doc, docs: seq<Doc>)
    requires Ordered(docs)
    ensures Ordered(Insert(d, docs))
  {
    if !(docs == [] || d.version <= docs[0].version) {
      var rest := Insert(d, docs[1..]);
      InsertOrders(d, docs[1..]);
      InsertKeeps(d, docs[1..]);
      forall x | x in rest ensures docs[0].version <= x.version {
        assert x in multiset(rest);
        assert x == d || x in docs[1..];
      }
    }
  }

  lemma {:induction false} SortedSorts(docs: seq<Doc>)
    ensures Ordered(Sorted(docs)) && multiset(Sorted(docs)) == multiset(docs)
  {
    if docs != [] {
      SortedSorts(docs[1..]);
      InsertOrders(docs[0], Sorted(docs[1..]));
      InsertKeeps(docs[0], Sorted(docs[1..]));
      assert docs == [docs[0]] + docs[1..];
    }
  }

  /** The documents of one version, in the order they stand in. */
  function OfVersion(docs: seq<Doc>, v: int): seq<Doc> {
    if docs == [] then []
    else (if docs[0].version == v then [docs[0]] else []) + OfVersion(docs[1..], v)
  }

  lemma {:induction false} InsertIsStable(d: Doc, docs: seq<Doc>, v: int)
    ensures OfVersion(Insert(d, docs), v) == OfVersion([d] + docs, v)
  {
    assert ([d] + docs)[1..] == docs;
    if !(docs == [] || d.version <= docs[0].version) {
      InsertIsStable(d, docs[1..], v);
      assert ([d] + docs[1..])[1..] == docs[1..];
    }
  }

  /** The sort is stable: documents of the same version keep their order. */
  lemma {:induction false} SortedIsStable(docs: seq<Doc>, v: int)
    ensures OfVersion(Sorted(docs), v) == OfVersion(docs, v)
  {
    if docs != [] {
      SortedIsStable(docs[1..], v);
      InsertIsStable(docs[0], Sorted(docs[1..]), v);
      assert ([docs[0]] + Sorted(docs[1..]))[1..] == Sorted(docs[1..]);
    }
  }

  /** The edges between neighbouring versions; a version without a state is not drawn as a target. */
  function PairEdges(docs: seq<Doc>): seq<DrawnEdge> {
    if |docs| < 2 then []
    else
      var (prev, last) := (docs[|docs| - 2], docs[|docs| - 1]);
      PairEdges(docs[..|docs| - 1]) +
      (if last.state.Some? then [DrawnEdge(prev.state, last.trigger, last.state.value)] else [])
  }

  /** Sorts the array in place by version, as the library sort does. */
  method SortByVersion(docs: array<Doc>)
    modifies docs
    ensures docs[..] == Sorted(old(docs[..]))
  {
    var sorted := Sorted(docs[..]);
    SortedSorts(docs[..]);
    assert |sorted| == |multiset(sorted)| == |multiset(docs[..])| == docs.Length;
    forall i | 0 <= i < docs.Length {
      docs[i] := sorted[i];
    }
  }

  method GenerateDotFile(docs: array<Doc>) returns (graph: seq<DrawnEdge>)
    modifies docs
    ensures docs[..] == Sorted(old(docs[..]))
    ensures graph == PairEdges(Sorted(old(docs[..])))
  {
    SortByVersion(docs);
    ghost var sorted := docs[..];
    graph := [];
    for cur := 0 to docs.Length
      invariant docs[..] == sorted
      invariant graph == PairEdges(if cur < |sorted| then sorted[..cur + 1] else sorted)
    {
      var src := docs[cur].state;
      var nxt := cur + 1;
      var trigger: Option<string>, dest: Option<string> := None, None;
      if nxt < docs.Length {
        trigger, dest := docs[nxt].trigger, docs[nxt].state;
        PairAppend(sorted[..nxt], docs[nxt]);
        assert sorted[..nxt] + [docs[nxt]] == sorted[..nxt + 1];
      } else {
        assert sorted[..nxt] == sorted;
      }
      if dest.Some? {
        graph := graph + [DrawnEdge(src, trigger, dest.value)];
      }
    }
  }

  /**
   The drawn edges are, in order, one for each version but the first that has a state: from the
   state of the version before, which may be null, labelled with its own trigger.
   */
  lemma {:induction false} PairEdgesAt(docs: seq<Doc>) returns (at: seq<nat>)
    requires docs != []
    ensures Lists(at, docs[1..], (d: Doc) => d.state != None)
    ensures |PairEdges(docs)| == |at|
    ensures forall k | 0 <= k < |at| ::
              docs[at[k] + 1].state != None
              && PairEdges(docs)[k] ==
                 DrawnEdge(docs[at[k]].state, docs[at[k] + 1].trigger, docs[at[k] + 1].state.value)
  {
    var kind := (d: Doc) => d.state != None;
    hide Lists;
    if |docs| == 1 {
      at := [];
      ListsNothing(kind);
      assert docs[1..] == [];
    } else {
      hide PairEdges;
      var (front, last) := (docs[..|docs| - 1], docs[|docs| - 1]);
      assert docs == front + [last];
      assert docs[1..] == front[1..] + [last];
      at := PairEdgesAt(front);
      ListedAre(at, front[1..], kind);
      ListsAppended(at, front[1..], last, kind);
      PairAppend(front, last);
      at := at + (if last.state != None then [|front[1..]|] else []);
    }
  }

  lemma PairAppend(docs: seq<Doc>, d: Doc)
    requires docs != []
    ensures PairEdges(docs + [d]) == PairEdges(docs) +
            (if d.state.Some? then [DrawnEdge(docs[|docs| - 1].state, d.trigger, d.state.value)] else [])
  {
    assert (docs + [d])[..|docs|] == docs;
  }

  // ---- The walk of a run ----

  /** The edges of the committed steps among the first `n`, in order. */
  ghost function Walk(log: Log, r: Run, n: nat): seq<Edge>
    requires IsRun(log, r) && n <= |r.events|
  {
    if n == 0 then []
    else
      var (s, e) := (r.states[n - 1], r.events[n - 1]);
      Walk(log, r, n - 1) +
      if Commits(log, s, e) then [StepEdge(log, s, e)] else []
  }

  function DrawnAll(es: seq<Edge>): seq<DrawnEdge> {
    seq(|es|, i requires 0 <= i < |es| => Drawn(es[i]))
  }

  /** The stored versions of a run are in order, end with the document, and draw its walk. */
  ghost predicate Records(s: Sys, walk: seq<Edge>) {
    && s.history != [] && s.history[|s.history| - 1] == s.doc && s.doc.state.Some?
    && Consecutive(s.history)
    && |s.history| == |walk| + 1
    && PairEdges(s.history) == DrawnAll(walk)
  }

  lemma CommitRecords(log: Log, s: Sys, e: Event, walk: seq<Edge>)
    requires Records(s, walk) && Commits(log, s, e)
    ensures Records(Next(log, s, e), walk + [StepEdge(log, s, e)])
  {
    hide Next, StepEdge;
    CommitStores(log, s, e);
    PairAppend(s.history, Next(log, s, e).doc);
    var edge := StepEdge(log, s, e);
    assert DrawnAll(walk + [edge]) == DrawnAll(walk) + [Drawn(edge)];
  }

  lemma {:induction false} RunRecords(log: Log, r: Run, n: nat)
    requires IsRun(log, r) && n <= |r.events|
    ensures Records(r.states[n], Walk(log, r, n))
    ensures forall edge | edge in Walk(log, r, n) :: edge in LogEdges(log)
  {
    if n > 0 {
      var (s, e) := (r.states[n - 1], r.events[n - 1]);
      RunRecords(log, r, n - 1);
      if Commits(log, s, e) {
        CommitRecords(log, s, e, Walk(log, r, n - 1));
        CommitStores(log, s, e);
      } else {
        NothingStored(log, s, e);
      }
    }
  }

  lemma WithoutFirst(docs: seq<Doc>)
    requires docs != []
    ensures multiset(docs[1..]) == multiset(docs) - multiset{docs[0]}
  {
    assert docs == [docs[0]] + docs[1..];
  }

  /** Only one order of different versions is sorted. */
  lemma {:induction false} OrderIsUnique(a: seq<Doc>, b: seq<Doc>)
    requires multiset(a) == multiset(b) && Ordered(a) && Consecutive(b)
    ensures a == b
  {
    assert |a| == |multiset(a)| == |multiset(b)| == |b|;
    if a != [] {
      assert a[0] in multiset(b);
      assert b[0] in multiset(a);
      assert a[0] == b[0];
      WithoutFirst(a);
      WithoutFirst(b);
      OrderIsUnique(a[1..], b[1..]);
    }
  }

  /**
   In every run, whatever the order in which the stored versions are handed over, sorting and
   pairing them draws exactly the committed walk: one edge fewer than there are versions, each
   of them an edge of the configuration.
   */
  lemma HistorySoundness(log: Log, r: Run, n: nat, docs: seq<Doc>)
    requires IsRun(log, r) && n <= |r.events|
    requires multiset(docs) == multiset(r.states[n].history)
    ensures PairEdges(Sorted(docs)) == DrawnAll(Walk(log, r, n))
    ensures |PairEdges(Sorted(docs))| == |docs| - 1
    ensures forall edge | edge in Walk(log, r, n) :: edge in LogEdges(log)
  {
    RunRecords(log, r, n);
    SortedSorts(docs);
    OrderIsUnique(Sorted(docs), r.states[n].history);
    assert |docs| == |multiset(docs)| == |r.states[n].history|;
  }
}
