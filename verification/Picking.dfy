/** Picking some elements of a sequence, in order: the shape of every filter in the program. */
module Picking {

  /** `kept` is the elements of `all` at the positions `at`, in order. */
  ghost predicate Picks<T(!new)>(all: seq<T>, kept: seq<T>, at: seq<nat>) {
    && |kept| == |at|
    && (forall i | 0 <= i < |at| :: at[i] < |all| && kept[i] == all[at[i]])
    && forall i, j | 0 <= i < j < |at| :: at[i] < at[j]
  }

  lemma PicksNothing<T(!new)>(all: seq<T>)
    ensures Picks(all, [], [])
  {
  }

  /** Another element, passed or not. */
  lemma PicksNext<T(!new)>(all: seq<T>, x: T, kept: seq<T>, at: seq<nat>)
    requires Picks(all, kept, at)
    ensures Picks(all + [x], kept, at)
    ensures Picks(all + [x], kept + [x], at + [|all|])
    ensures |all| !in at
  {
  }
}
