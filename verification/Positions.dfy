/** Where in a sequence the elements of one kind stand. */
module Positions {

  /** `at` lists, in order and each once, exactly the positions of `xs` whose elements are of the kind. */
  ghost predicate Lists<T(!new)>(at: seq<nat>, xs: seq<T>, kind: T -> bool) {
    && (forall k | 0 <= k < |at| :: at[k] < |xs| && kind(xs[at[k]]))
    && (forall j, k | 0 <= j < k < |at| :: at[j] < at[k])
    && (forall i | 0 <= i < |xs| && kind(xs[i]) :: i in at)
  }

  lemma ListsNothing<T(!new)>(kind: T -> bool)
    ensures Lists([], [], kind)
  {
  }

  lemma ListedAre<T(!new)>(at: seq<nat>, xs: seq<T>, kind: T -> bool)
    requires Lists(at, xs, kind)
    ensures forall k | 0 <= k < |at| :: at[k] < |xs| && kind(xs[at[k]])
  {
  }

  lemma ListsAppended<T(!new)>(at: seq<nat>, xs: seq<T>, x: T, kind: T -> bool)
    requires Lists(at, xs, kind)
    ensures Lists(at + (if kind(x) then [|xs|] else []), xs + [x], kind)
  {
    var (all, at') := (xs + [x], at + (if kind(x) then [|xs|] else []));
    forall i | 0 <= i < |all| && kind(all[i]) ensures i in at' {
      if i == |xs| {
        assert at'[|at|] == i;
      } else {
        assert all[i] == xs[i] && i in at;
      }
    }
  }
}
