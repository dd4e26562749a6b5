/**
 * What the two scans of the channel have in common: each visits the entries of a list one by one and
 * erases those that are over.
 */
module Survival {

  /** After a visit an entry stays in the list, or has been erased from it. */
  datatype Visit<+T> = Kept(entry: T) | Left(entry: T)

  /** Those of the first `n` elements that a pass leaves in the list, in order. */
  ghost function Survivors<T, U>(xs: seq<T>, outcomes: seq<Visit<U>>, n: nat): seq<T>
    requires n <= |xs| == |outcomes|
  {
    if n == 0 then []
    else Survivors(xs, outcomes, n - 1) + (if outcomes[n - 1].Kept? then [xs[n - 1]] else [])
  }

  lemma {:induction false} SurvivorsFrom<T, U>(xs: seq<T>, outcomes: seq<Visit<U>>, n: nat)
    requires n <= |xs| == |outcomes|
    ensures forall x | x in Survivors(xs, outcomes, n) :: exists i :: 0 <= i < n && xs[i] == x
  {
    if n > 0 {
      SurvivorsFrom(xs, outcomes, n - 1);
    }
  }

  ghost predicate Pairwise<T>(xs: seq<T>, apart: (T, T) -> bool)
  {
    forall i, j :: 0 <= i < j < |xs| ==> apart(xs[i], xs[j])
  }

  /** What holds between any two elements holds between any two survivors. */
  lemma {:induction false} SurvivorsPairwise<T, U>(xs: seq<T>, outcomes: seq<Visit<U>>, n: nat, apart: (T, T) -> bool)
    requires n <= |xs| == |outcomes| && Pairwise(xs, apart)
    ensures Pairwise(Survivors(xs, outcomes, n), apart)
  {
    if n > 0 {
      SurvivorsPairwise(xs, outcomes, n - 1, apart);
      SurvivorsFrom(xs, outcomes, n - 1);
      var before := Survivors(xs, outcomes, n - 1);
      forall i | 0 <= i < |before| ensures apart(before[i], xs[n - 1]) {
        assert before[i] in before;
      }
    }
  }

  /**
   * In the middle of a pass the list is the survivors so far and the entries not yet visited: passing over
   * one entry or erasing it keeps that.
   */
  lemma {:induction false} Advance<T, U>(list: seq<T>, xs: seq<T>, outcomes: seq<Visit<U>>, it: nat, k: nat)
    requires k < |xs| == |outcomes| && it == |Survivors(xs, outcomes, k)|
    requires list == Survivors(xs, outcomes, k) + xs[k..]
    ensures it < |list| && list[it] == xs[k]
    ensures var rest := if outcomes[k].Kept? then list else list[..it] + list[it + 1..];
            && rest == Survivors(xs, outcomes, k + 1) + xs[k + 1..]
            && |Survivors(xs, outcomes, k + 1)| == if outcomes[k].Kept? then it + 1 else it
  {
  }

  ghost predicate Increasing(at: seq<nat>)
  {
    forall i, j :: 0 <= i < j < |at| ==> at[i] < at[j]
  }

  /** The survivors are those that were kept, all of them and in order: `at` are their places before the pass. */
  lemma {:induction false} SurvivorsAt<T, U>(xs: seq<T>, outcomes: seq<Visit<U>>, n: nat) returns (at: seq<nat>)
    requires n <= |xs| == |outcomes|
    ensures Increasing(at) && |Survivors(xs, outcomes, n)| == |at|
    ensures forall m :: 0 <= m < |at| ==> at[m] < n && Survivors(xs, outcomes, n)[m] == xs[at[m]]
    ensures forall i: nat :: i in at <==> i < n && outcomes[i].Kept?
  {
    at := [];
    if n > 0 {
      at := SurvivorsAt(xs, outcomes, n - 1);
      if outcomes[n - 1].Kept? {
        at := at + [n - 1];
      }
    }
  }
}
