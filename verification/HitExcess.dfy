/**
 Additions and corrections of one hit counter, as a game on numbers. `over` is how far the counter is
 above its maximum, `es[i]` the excess thread `i` has computed and not taken back yet, 0 if it has none.
 The schedule may add at any time and let any thread take back late, so that an excess is computed
 from hits whose own correction is outstanding. With at most 57 threads the outstanding excesses
 never exceed the counter, whatever the schedule.
 */
module HitExcess {
  import opened Sums
  import opened MetaWord
  import opened ClockTable
  import opened ClockMachine

  /** The largest number of threads whose outstanding excesses always stay below the counter. */
  const CROWD: nat := 57

  // ---- Counting excesses ----

  /** How many excesses are greater than `x`. */
  ghost function Larger(es: seq<int>, x: int): nat {
    if es == [] then 0 else Larger(es[..|es| - 1], x) + One(es[|es| - 1] > x)
  }

  lemma {:induction false} LargerUpdate(es: seq<int>, i: nat, e: int, x: int)
    requires i < |es|
    ensures Larger(es[i := e], x) == Larger(es, x) - One(es[i] > x) + One(e > x)
  {
    var n := |es| - 1;
    if i == n {
      assert es[i := e][..n] == es[..n];
    } else {
      assert es[i := e][..n] == es[..n][i := e];
      LargerUpdate(es[..n], i, e, x);
    }
  }

  lemma {:induction false} LargerAtMost(es: seq<int>, x: int)
    ensures Larger(es, x) <= |es|
  {
    if es != [] {
      LargerAtMost(es[..|es| - 1], x);
    }
  }

  lemma {:induction false} NoneLarger(es: seq<int>, x: int)
    requires forall i | 0 <= i < |es| :: es[i] <= x
    ensures Larger(es, x) == 0
  {
    if es != [] {
      NoneLarger(es[..|es| - 1], x);
    }
  }

  /** The excess `x` itself, if some thread has it, is not counted at `x` any more. */
  lemma {:induction false} LargerBelow(es: seq<int>, x: int)
    ensures Larger(es, x - 1) >= Larger(es, x) + One(x in es)
  {
    if es != [] {
      var n := |es| - 1;
      assert es == es[..n] + [es[n]];
      LargerBelow(es[..n], x);
    }
  }

  // ---- What is missing among the small excesses ----

  /** The values from 1 to `u` that no thread has, each priced one below itself. */
  ghost function Gap(u: int, es: seq<int>): nat
    decreases if u < 0 then 0 else u
  {
    if u <= 0 then 0 else Gap(u - 1, es) + (if u in es then 0 else u - 1)
  }

  /** How many of the values from 1 to `u` no thread has. */
  ghost function Missing(u: nat, es: seq<int>): nat {
    if u == 0 then 0 else Missing(u - 1, es) + One(u !in es)
  }

  ghost function Triangle(d: int): int {
    d * (d - 1) / 2
  }

  lemma TriangleNext(d: int)
    ensures Triangle(d + 1) == Triangle(d) + d
  {
    assert (d + 1) * d == d * (d - 1) + 2 * d;
  }

  /** Missing values are different ones, so `d` of them cost at least 0 + 1 + ... + (d - 1). */
  lemma {:induction false} MissingCosts(u: nat, es: seq<int>)
    ensures Missing(u, es) <= u && Triangle(Missing(u, es)) <= Gap(u, es)
  {
    if u > 0 {
      MissingCosts(u - 1, es);
      TriangleNext(Missing(u - 1, es));
    }
  }

  /** The values that are there are held by as many threads at least. */
  lemma {:induction false} SmallOnes(u: nat, es: seq<int>)
    ensures Larger(es, 0) >= Larger(es, u) + u - Missing(u, es)
  {
    if u > 0 {
      SmallOnes(u - 1, es);
      LargerBelow(es, u);
    }
  }

  lemma {:induction false} GapMonotone(u: int, v: int, es: seq<int>)
    requires u <= v
    ensures Gap(u, es) <= Gap(v, es)
    decreases v - u
  {
    if u < v {
      GapMonotone(u, v - 1, es);
    }
  }

  /** A thread without an excess that gets one leaves no value missing that was there. */
  lemma {:induction false} GapAdd(u: int, es: seq<int>, i: nat, e: int)
    requires i < |es| && es[i] == 0
    ensures Gap(u, es[i := e]) <= Gap(u, es)
    decreases if u < 0 then 0 else u
  {
    if u > 0 {
      GapAdd(u - 1, es, i, e);
      StillIn(es, i, e, u);
    }
  }

  /** A thread that takes back `p` leaves at most `p` missing. */
  lemma {:induction false} GapTake(u: int, es: seq<int>, i: nat)
    requires i < |es| && es[i] >= 1
    ensures Gap(u, es[i := 0]) <= Gap(u, es) + (if u >= es[i] then es[i] - 1 else 0)
    decreases if u < 0 then 0 else u
  {
    if u > 0 {
      GapTake(u - 1, es, i);
      if u != es[i] {
        StillIn(es, i, 0, u);
      }
    }
  }

  lemma StillIn(es: seq<int>, i: nat, e: int, u: int)
    requires i < |es| && es[i] != u
    ensures u in es ==> u in es[i := e]
  {
    if u in es {
      var j :| 0 <= j < |es| && es[j] == u;
      assert es[i := e][j] == u;
    }
  }

  // ---- The caps ----

  /** The greatest `d` whose triangle is at most `g`. */
  ghost function Most(g: nat): nat {
    if g == 0 then 1
    else
      var d := Most(g - 1);
      if Triangle(d + 1) <= g then d + 1 else d
  }

  lemma {:induction false} MostIsMost(d: nat, g: nat)
    requires Triangle(d) <= g
    ensures d <= Most(g)
  {
    if d >= 2 {
      TriangleNext(d - 1);
      TrianglePositive(d - 1);
      if g > 0 {
        MostIsMost(d - 1, g - 1);
        if Triangle(d) <= g - 1 {
          MostIsMost(d, g - 1);
        }
      }
    }
  }

  lemma TrianglePositive(d: nat)
    ensures 0 <= Triangle(d)
  {
    if d > 0 {
      assert 0 <= d * (d - 1);
    }
  }

  /** At most this many threads have an excess greater than `x` at the same time. */
  ghost function Cap(x: nat): nat
    requires x < CROWD
  {
    CROWD - x + Most(CROWD - x - 1)
  }

  ghost function CapSum(x: nat): int
    requires x <= CROWD
  {
    if x == 0 then 0 else CapSum(x - 1) + Min(CROWD - 1, Cap(x - 1))
  }

  /** The sum of the excesses cut off at `x`. */
  ghost function Clipped(es: seq<int>, x: int): int {
    if es == [] then 0 else Clipped(es[..|es| - 1], x) + Min(es[|es| - 1], x)
  }

  lemma {:induction false} ClippedNext(es: seq<int>, x: int)
    ensures Clipped(es, x + 1) == Clipped(es, x) + Larger(es, x)
  {
    if es != [] {
      ClippedNext(es[..|es| - 1], x);
    }
  }

  lemma {:induction false} ClippedAtZero(es: seq<int>)
    requires NonNegative(es)
    ensures Clipped(es, 0) == 0
  {
    if es != [] {
      ClippedAtZero(es[..|es| - 1]);
    }
  }

  lemma {:induction false} ClippedIsAll(es: seq<int>, x: int)
    requires forall i | 0 <= i < |es| :: es[i] <= x
    ensures Clipped(es, x) == Sum(es)
  {
    if es != [] {
      ClippedIsAll(es[..|es| - 1], x);
    }
  }

  // ---- The invariant of the game ----

  ghost predicate Balanced(over: int, es: seq<int>) {
    && |es| <= CROWD
    && (forall i | 0 <= i < |es| :: 0 <= es[i] <= CROWD)
    && Gap(over, es) + Max(over, 0) <= Larger(es, 0)
    && (forall x: nat | x < CROWD :: Larger(es, x) <= Cap(x))
    && Sum(es) - over <= MAX_HIT_COUNT
  }

  /** What the caps say about a state that has just computed the excess `u`. */
  lemma {:induction false} ClippedBound(es: seq<int>, x: nat, u: nat)
    requires x <= CROWD && |es| <= CROWD && NonNegative(es) && u in es
    requires forall y: nat | y < CROWD :: Larger(es, y) <= Cap(y)
    ensures Clipped(es, x) <= CapSum(x) + Min(x, u)
  {
    if x == 0 {
      ClippedAtZero(es);
    } else {
      ClippedBound(es, x - 1, u);
      ClippedNext(es, x - 1);
      LargerAtMost(es, x - 1);
      if u <= x - 1 {
        SomeNotLarger(es, x - 1, u);
      }
    }
  }

  lemma SomeNotLarger(es: seq<int>, x: int, u: int)
    requires u in es && u <= x
    ensures Larger(es, x) <= |es| - 1
  {
    var i :| 0 <= i < |es| && es[i] == u;
    LargerUpdate(es, i, x + 1, x);
    LargerAtMost(es[i := x + 1], x);
  }

  lemma {:induction false} MostAtMost(g: nat, d: nat)
    requires g < Triangle(d + 1)
    ensures Most(g) <= d
  {
    if g > 0 {
      MostAtMost(g - 1, d);
    }
  }

  /** `k` caps in a row at which at most `d` values can be missing. */
  lemma {:induction false} CapRun(x: nat, k: nat, d: nat)
    requires x + k <= CROWD && CROWD - x <= Triangle(d + 1)
    ensures CapSum(x + k) <= CapSum(x) + k * (CROWD - x + d) - Triangle(k)
  {
    if k > 0 {
      CapRun(x, k - 1, d);
      MostAtMost(CROWD - (x + k - 1) - 1, d);
      TriangleNext(k - 1);
      assert k * (CROWD - x + d) == (k - 1) * (CROWD - x + d) + (CROWD - x + d);
    }
  }

  lemma {:induction false} FirstCaps(k: nat)
    requires k <= CROWD
    ensures CapSum(k) <= k * (CROWD - 1)
  {
    if k > 0 {
      FirstCaps(k - 1);
    }
  }

  /** 57 is the largest number for which this sum is no more than the maximum. */
  lemma CapsFit()
    ensures CapSum(CROWD) <= MAX_HIT_COUNT - 8
  {
    hide CapSum;
    FirstCaps(11);
    CapRun(11, 1, 10);
    CapRun(12, 9, 9);
    CapRun(21, 8, 8);
    CapRun(29, 7, 7);
    CapRun(36, 6, 6);
    CapRun(42, 5, 5);
    CapRun(47, 4, 4);
    CapRun(51, 3, 3);
    CapRun(54, 2, 2);
    CapRun(56, 1, 1);
  }

  lemma AddKeepsCaps(over: nat, es: seq<int>, i: nat, x: nat)
    requires Balanced(over, es) && i < |es| && es[i] == 0 && x < CROWD
    ensures Larger(es[i := over + 1], x) <= Cap(x)
  {
    var es' := es[i := over + 1];
    LargerUpdate(es, i, over + 1, x);
    if x <= over {
      LargerUpdate(es, i, over + 1, 0);
      LargerAtMost(es', 0);
      GapAdd(over, es, i, over + 1);
      GapMonotone(x, over, es');
      MissingCosts(x, es');
      SmallOnes(x, es');
      MostIsMost(Missing(x, es'), CROWD - x - 1);
    }
  }

  lemma AddFits(es: seq<int>, u: nat)
    requires |es| <= CROWD && u in es && forall i | 0 <= i < |es| :: 0 <= es[i] <= CROWD
    requires forall y: nat | y < CROWD :: Larger(es, y) <= Cap(y)
    ensures Sum(es) - u <= MAX_HIT_COUNT
  {
    hide Cap, Larger, Clipped, Sum, CapSum;
    ClippedBound(es, CROWD, u);
    ClippedIsAll(es, CROWD);
    CapsFit();
  }

  /** A thread adds a hit at or above the maximum. */
  lemma AddKeeps(over: nat, es: seq<int>, i: nat)
    requires Balanced(over, es) && i < |es| && es[i] == 0
    ensures Balanced(over + 1, es[i := over + 1])
  {
    var u, es' := over + 1, es[i := over + 1];
    LargerUpdate(es, i, u, 0);
    LargerAtMost(es', 0);
    GapAdd(over, es, i, u);
    assert es'[i] == u;
    forall x: nat | x < CROWD ensures Larger(es', x) <= Cap(x) {
      AddKeepsCaps(over, es, i, x);
    }
    AddFits(es', u);
    SumUpdate(es, i, u);
  }

  /** A thread takes its excess back. */
  lemma TakeKeeps(over: int, es: seq<int>, i: nat)
    requires Balanced(over, es) && i < |es| && es[i] >= 1
    ensures Balanced(over - es[i], es[i := 0])
  {
    var p, es' := es[i], es[i := 0];
    SumUpdate(es, i, 0);
    LargerUpdate(es, i, 0, 0);
    GapTake(over - p, es, i);
    GapMonotone(over - p, over, es);
    forall x: nat | x < CROWD ensures Larger(es', x) <= Cap(x) {
      LargerUpdate(es, i, 0, x);
    }
  }

  /** A hit below the maximum leaves nothing to take back. */
  lemma RaiseKeeps(over: int, es: seq<int>)
    requires Balanced(over, es) && over < 0
    ensures Balanced(over + 1, es)
  {
  }

  /** Nobody has an excess, and the counter is between zero and its maximum. */
  lemma SettledIsBalanced(over: int, es: seq<int>)
    requires |es| <= CROWD && -MAX_HIT_COUNT <= over <= 0 && forall i | 0 <= i < |es| :: es[i] == 0
    ensures Balanced(over, es)
  {
    SumZero(es);
    forall x: nat | x < CROWD ensures Larger(es, x) == 0 {
      NoneLarger(es, x);
    }
  }

  /** The counter is at most the threads above its maximum, and at least what is still to be taken back. */
  lemma BalancedBounds(over: int, es: seq<int>)
    requires Balanced(over, es)
    ensures Sum(es) - MAX_HIT_COUNT <= over <= Larger(es, 0) <= |es| && 0 <= Sum(es)
  {
    LargerAtMost(es, 0);
    SumNonNegative(es);
  }
}
