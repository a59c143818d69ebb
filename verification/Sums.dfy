/** Finite sums of integer weights, the arithmetic behind every ledger of this project. */
module Sums {

  ghost function One(b: bool): int {
    if b then 1 else 0
  }

  function Sum(ws: seq<int>): int {
    if ws == [] then 0 else Sum(ws[..|ws| - 1]) + ws[|ws| - 1]
  }

  predicate NonNegative(ws: seq<int>) {
    forall i | 0 <= i < |ws| :: 0 <= ws[i]
  }

  /** Replacing one weight moves the sum by exactly the difference. */
  lemma {:induction false} SumUpdate(ws: seq<int>, i: nat, x: int)
    requires i < |ws|
    ensures Sum(ws[i := x]) == Sum(ws) - ws[i] + x
  {
    var n := |ws| - 1;
    if i == n {
      assert ws[i := x][..n] == ws[..n];
    } else {
      assert ws[i := x][..n] == ws[..n][i := x];
      SumUpdate(ws[..n], i, x);
    }
  }

  lemma {:induction false} SumNonNegative(ws: seq<int>)
    requires NonNegative(ws)
    ensures 0 <= Sum(ws)
  {
    if ws != [] {
      SumNonNegative(ws[..|ws| - 1]);
    }
  }

  /** A sum of non-negative weights is at least any one of them. */
  lemma SumAtLeast(ws: seq<int>, i: nat)
    requires NonNegative(ws) && i < |ws|
    ensures ws[i] <= Sum(ws)
  {
    SumUpdate(ws, i, 0);
    SumNonNegative(ws[i := 0]);
  }

  /** ... and at least any two of them together. */
  lemma SumAtLeastTwo(ws: seq<int>, i: nat, j: nat)
    requires NonNegative(ws) && i < |ws| && j < |ws| && i != j
    ensures ws[i] + ws[j] <= Sum(ws)
  {
    SumUpdate(ws, i, 0);
    SumAtLeast(ws[i := 0], j);
  }

  lemma {:induction false} SumZero(ws: seq<int>)
    requires forall i | 0 <= i < |ws| :: ws[i] == 0
    ensures Sum(ws) == 0
  {
    if ws != [] {
      SumZero(ws[..|ws| - 1]);
    }
  }

  /** A non-zero sum has a non-zero weight. */
  lemma {:induction false} SumWitness(ws: seq<int>) returns (i: nat)
    requires Sum(ws) != 0
    ensures i < |ws| && ws[i] != 0
  {
    var n := |ws| - 1;
    if ws[n] != 0 {
      i := n;
    } else {
      i := SumWitness(ws[..n]);
    }
  }

  /** Weights of at most one give a sum of at most their number. */
  lemma {:induction false} SumAtMostCount(ws: seq<int>)
    requires forall i | 0 <= i < |ws| :: ws[i] <= 1
    ensures Sum(ws) <= |ws|
  {
    if ws != [] {
      SumAtMostCount(ws[..|ws| - 1]);
    }
  }

  /** Weights that are no greater one by one are no greater in sum. */
  lemma {:induction false} SumMonotone(ws: seq<int>, vs: seq<int>)
    requires |ws| == |vs|
    requires forall i | 0 <= i < |ws| :: ws[i] <= vs[i]
    ensures Sum(ws) <= Sum(vs)
  {
    if ws != [] {
      SumMonotone(ws[..|ws| - 1], vs[..|vs| - 1]);
    }
  }
}
