/**
 What the unwritten sum changes. The offset of an eviction is never reset, so the sum over the first
 4996 positions is used once, for one round, and after that the decrement is drawn from a round at a
 time, which gives 1. The stored decrement is therefore wrong exactly if the eviction ends with the
 round that uses the sum.
 */
module ClockDecrement {
  import opened Walk
  import opened MetaWord
  import opened ClockTable
  import opened ClockMachine
  import opened ClockIndex
  import opened ClockSweep

  /** Positions passed when the sum is first used, and the rounds they make. */
  const FIRST_USE: nat := DECR_HIT_PER_ENTRY_COUNT - STEP_SIZE
  const FIRST_ROUNDS: nat := FIRST_USE / STEP_SIZE

  ghost predicate HitsBounded(slots: seq<Slot>) {
    forall t: nat | t < |slots| && slots[t].meta.state.Visible? :: slots[t].meta.hits <= MAX_HIT_COUNT
  }

  // ---- Late rounds ----

  lemma SweptBounded(p: Probe, slots: seq<Slot>, t: nat, delta: int)
    requires t < |slots| && delta >= 1 && HitsBounded(slots)
    ensures HitsBounded(Swept(p, slots, t, delta))
  {
  }

  /** A round cools at most 4 * 2000 hits. */
  lemma {:induction false} RoundSum(p: Probe, s: Sweep, n: nat, written: bool)
    requires |s.slots| > 0 && s.delta >= 1 && HitsBounded(s.slots)
    ensures var r := Passed(p, s, n, written);
            HitsBounded(r.slots) && s.sum <= r.sum <= s.sum + n * MAX_HIT_COUNT
  {
    if n > 0 {
      RoundSum(p, s, n - 1, written);
      var before := Passed(p, s, n - 1, written);
      PassedLast(p, s, n, written);
      SweptBounded(p, before.slots, (s.at + n - 1) % |s.slots|, s.delta);
      hide Swept, Passed;
    }
  }

  /** A round's hits are too few for an average above 1. */
  lemma SmallSum(sum: int, min: int)
    requires 0 <= sum <= STEP_SIZE * MAX_HIT_COUNT
    ensures DeltaFor(sum, min) == DeltaFor(0, min) == Max(1, min)
  {
  }

  /** From the second use on the decrement is the minimum or 1, written sum or not. */
  lemma {:induction false} LateDelta(p: Probe, s: Sweep, requested: int, max: nat, min: int, written: bool)
    requires |s.slots| > 0 && s.delta == Max(1, min) && s.sum == 0 && HitsBounded(s.slots)
    requires s.offset + STEP_SIZE >= DECR_HIT_PER_ENTRY_COUNT
    ensures EvictionFrom(p, s, requested, max, min, written).delta == Max(1, min)
    decreases max + STEP_SIZE - s.at
  {
    hide Visited;
    var r := Passed(p, s, STEP_SIZE, written);
    RoundSum(p, s, STEP_SIZE, written);
    hide Passed;
    if !Stops(r, requested, max) {
      SmallSum(r.sum, min);
      LateDelta(p, Onward(r, min), requested, max, min, written);
    }
  }

  // ---- The round that uses the sum ----

  /** Two sweeps that differ in the decrement they have just drawn end together, or both go on. */
  lemma {:induction false} FirstUse(p: Probe, a: Sweep, b: Sweep, requested: int, max: nat, min: int)
    requires |a.slots| >= STEP_SIZE && a.slots == b.slots && a.data == b.data && a.at == b.at && a.offset == b.offset
    requires a.offset == FIRST_USE && a.sum == b.sum == 0 && HitsBounded(a.slots)
    requires a.delta == Max(1, min) && b.delta >= 1
    ensures var was, meant := EvictionFrom(p, a, requested, max, min, false), EvictionFrom(p, b, requested, max, min, true);
            if was.at == a.at then meant.at == a.at && was.delta == a.delta && meant.delta == b.delta
            else meant.at != a.at && was.delta == meant.delta
  {
    hide Visited;
    var ra, rb := Passed(p, a, STEP_SIZE, false), Passed(p, b, STEP_SIZE, true);
    DataOfTurn(p, a, b, STEP_SIZE, false, true);
    RoundSum(p, a, STEP_SIZE, false);
    RoundSum(p, b, STEP_SIZE, true);
    hide Passed;
    if !Stops(ra, requested, max) {
      OnwardLate(p, ra, requested, max, min, false);
      OnwardLate(p, rb, requested, max, min, true);
    }
  }

  lemma {:induction false} OnwardLate(p: Probe, r: Sweep, requested: int, max: nat, min: int, written: bool)
    requires |r.slots| > 0 && r.offset == FIRST_USE && 0 <= r.sum <= STEP_SIZE * MAX_HIT_COUNT && HitsBounded(r.slots) && r.at < max
    ensures var end := EvictionFrom(p, Onward(r, min), requested, max, min, written);
            end.delta == Max(1, min) && end.at > r.at
  {
    hide Visited;
    SmallSum(r.sum, min);
    LateDelta(p, Onward(r, min), requested, max, min, written);
    hide EvictionFrom;
  }

  // ---- The rounds before ----

  /** The two forms go together until the sum is used. */
  ghost predicate Compared(p: Probe, slots: seq<Slot>, clock: nat, delta: int, min: int, was: Sweep, meant: Sweep)
    requires |slots| > 0
  {
    if Moved(was, clock) == DECR_HIT_PER_ENTRY_COUNT then
      was.delta == Max(1, min) && meant.delta == DeltaFor(CooledSum(p, slots, clock, FIRST_USE, delta), min) && meant.at == was.at
    else
      was.delta == meant.delta
  }

  /** Round `j` ends alike in both forms, and the next one begins as it should. */
  lemma {:induction false} RoundTogether(p: Probe, slots: seq<Slot>, clock: nat, delta: int, requested: int, max: nat, min: int, j: nat)
    requires |slots| > 0 && j < FIRST_ROUNDS
    ensures var ra, rb := Passed(p, Before(p, slots, clock, delta, j, false), STEP_SIZE, false), Passed(p, Before(p, slots, clock, delta, j, true), STEP_SIZE, true);
            && ra.at == rb.at == clock + STEP_SIZE * j && ra.delta == rb.delta == delta && (Stops(ra, requested, max) <==> Stops(rb, requested, max))
            && Onward(ra, min) == AfterRound(p, slots, clock, delta, j, min, false)
            && Onward(rb, min) == AfterRound(p, slots, clock, delta, j, min, true)
  {
    hide Visited;
    RoundPassed(p, slots, clock, delta, j, false);
    RoundPassed(p, slots, clock, delta, j, true);
    OnlyTheSum(p, Begun(slots, clock, delta), STEP_SIZE * (j + 1));
    hide Passed;
  }

  /** The state after round `j`: before the next one, with the decrement drawn if it is time. */
  ghost function AfterRound(p: Probe, slots: seq<Slot>, clock: nat, delta: int, j: nat, min: int, written: bool): (s: Sweep)
    requires |slots| > 0
    ensures |s.slots| == |slots|
  {
    var s := Before(p, slots, clock, delta, j + 1, written);
    if j + 1 < FIRST_ROUNDS then s else s.(delta := DeltaFor(s.sum, min), sum := 0)
  }

  lemma {:induction false} AtFirstUse(p: Probe, slots: seq<Slot>, clock: nat, delta: int, min: int, written: bool)
    requires |slots| > 0
    ensures var s, r := AfterRound(p, slots, clock, delta, FIRST_ROUNDS - 1, min, written), Passed(p, Begun(slots, clock, delta), FIRST_USE, true);
            && s.slots == r.slots && s.data == r.data && s.sum == 0 && s.at == clock + FIRST_USE && s.offset == FIRST_USE
            && s.delta == DeltaFor(if written then CooledSum(p, slots, clock, FIRST_USE, delta) else 0, min)
  {
    hide Visited;
    OnlyTheSum(p, Begun(slots, clock, delta), FIRST_USE);
    hide Passed;
  }

  /** The round that uses the sum begins in both forms with the same table. */
  lemma {:induction false} LastTogether(p: Probe, slots: seq<Slot>, clock: nat, delta: int, requested: int, min: int)
    requires |slots| >= STEP_SIZE && delta >= 1 && HitsBounded(slots)
    ensures var j := FIRST_ROUNDS - 1;
            ComparedFrom(p, slots, clock, delta, requested, min, AfterRound(p, slots, clock, delta, j, min, false), AfterRound(p, slots, clock, delta, j, min, true))
  {
    hide Visited;
    var max, j := clock + MAX_COUNTDOWN * |slots|, FIRST_ROUNDS - 1;
    AtFirstUse(p, slots, clock, delta, min, false);
    AtFirstUse(p, slots, clock, delta, min, true);
    RoundSum(p, Begun(slots, clock, delta), FIRST_USE, true);
    SmallSum(0, min);
    hide Passed, EvictionFrom, AfterRound, CooledSum;
    FirstUse(p, AfterRound(p, slots, clock, delta, j, min, false), AfterRound(p, slots, clock, delta, j, min, true), requested, max, min);
  }

  lemma NotStopped(s: Sweep, requested: int, max: nat)
    requires !Stops(s, requested, max)
    ensures s.at < max
  {
  }

  lemma AfterEarly(p: Probe, slots: seq<Slot>, clock: nat, delta: int, j: nat, min: int)
    requires |slots| > 0
    ensures j + 1 < FIRST_ROUNDS ==>
              && AfterRound(p, slots, clock, delta, j, min, false) == Before(p, slots, clock, delta, j + 1, false)
              && AfterRound(p, slots, clock, delta, j, min, true) == Before(p, slots, clock, delta, j + 1, true)
  {
    hide Before;
  }

  lemma StoppedEarly(p: Probe, slots: seq<Slot>, clock: nat, delta: int, min: int, was: Sweep, meant: Sweep)
    requires |slots| > 0 && was.delta == meant.delta && Moved(was, clock) != DECR_HIT_PER_ENTRY_COUNT
    ensures Compared(p, slots, clock, delta, min, was, meant)
  {
  }

  /** The two forms from round `j` on. */
  ghost predicate ComparedFrom(p: Probe, slots: seq<Slot>, clock: nat, delta: int, requested: int, min: int, a: Sweep, b: Sweep)
    requires |slots| > 0 && |a.slots| > 0 && |b.slots| > 0
  {
    var max := clock + MAX_COUNTDOWN * |slots|;
    Compared(p, slots, clock, delta, min, EvictionFrom(p, a, requested, max, min, false), EvictionFrom(p, b, requested, max, min, true))
  }

  /** If they compare after round `j`, they do before it. */
  lemma {:induction false} RoundBefore(p: Probe, slots: seq<Slot>, clock: nat, delta: int, requested: int, min: int, j: nat)
    requires |slots| > 0 && j < FIRST_ROUNDS
    requires var a, b := AfterRound(p, slots, clock, delta, j, min, false), AfterRound(p, slots, clock, delta, j, min, true);
             STEP_SIZE * j < MAX_COUNTDOWN * |slots| ==> ComparedFrom(p, slots, clock, delta, requested, min, a, b)
    ensures ComparedFrom(p, slots, clock, delta, requested, min, Before(p, slots, clock, delta, j, false), Before(p, slots, clock, delta, j, true))
  {
    hide Visited;
    var max := clock + MAX_COUNTDOWN * |slots|;
    var a, b := Before(p, slots, clock, delta, j, false), Before(p, slots, clock, delta, j, true);
    var ra := Passed(p, a, STEP_SIZE, false);
    RoundTogether(p, slots, clock, delta, requested, max, min, j);
    EvictionRound(p, a, requested, max, min, false);
    EvictionRound(p, b, requested, max, min, true);
    hide Passed, EvictionFrom, Before, Onward, Compared, AfterRound, Stops;
    if Stops(ra, requested, max) {
      StoppedEarly(p, slots, clock, delta, min, ra, Passed(p, b, STEP_SIZE, true));
    } else {
      NotStopped(ra, requested, max);
    }
  }

  lemma {:induction false} EarlyRounds(p: Probe, slots: seq<Slot>, clock: nat, delta: int, requested: int, min: int, j: nat)
    requires |slots| > 0 && delta >= 1 && HitsBounded(slots) && j < FIRST_ROUNDS
    ensures ComparedFrom(p, slots, clock, delta, requested, min, Before(p, slots, clock, delta, j, false), Before(p, slots, clock, delta, j, true))
    decreases FIRST_ROUNDS - j
  {
    hide Visited;
    AfterEarly(p, slots, clock, delta, j, min);
    if j + 1 < FIRST_ROUNDS {
      EarlyRounds(p, slots, clock, delta, requested, min, j + 1);
    } else if STEP_SIZE * j < MAX_COUNTDOWN * |slots| {
      LastTogether(p, slots, clock, delta, requested, min);
    }
    RoundBefore(p, slots, clock, delta, requested, min, j);
  }

  /**
   The program stores what it would store with the sum written, if and only if the hand does not move
   exactly 5000 positions, or the average over the first 4996 of them does not exceed 1 or the minimum.
   */
  lemma {:induction false} StoredDeltaIff(p: Probe, slots: seq<Slot>, clock: nat, delta: int, requested: int, min: int)
    requires |slots| > 0 && delta >= 1 && HitsBounded(slots)
    ensures var was, meant := EvictionOf(p, slots, clock, delta, requested, min, false), EvictionOf(p, slots, clock, delta, requested, min, true);
            was.delta == meant.delta <==>
              Moved(was, clock) != DECR_HIT_PER_ENTRY_COUNT || DeltaFor(CooledSum(p, slots, clock, FIRST_USE, delta), min) == Max(1, min)
    ensures var was, meant := EvictionOf(p, slots, clock, delta, requested, min, false), EvictionOf(p, slots, clock, delta, requested, min, true);
            Moved(was, clock) == DECR_HIT_PER_ENTRY_COUNT ==>
              && meant.at == was.at && was.delta == Max(1, min)
              && meant.delta == DeltaFor(CooledSum(p, slots, clock, FIRST_USE, delta), min)
  {
    hide Visited;
    EarlyRounds(p, slots, clock, delta, requested, min, 0);
    hide EvictionFrom;
  }

  /** What the sum should be after the hand has passed `n` slots from `from`, each for the first time. */
  function IntendedSum(slots: seq<Slot>, from: nat, n: nat, delta: int): int
    requires |slots| > 0
  {
    if n == 0 then 0 else IntendedSum(slots, from, n - 1, delta) + CooledAt(slots, from + n - 1, delta)
  }

  /** The hits the hand leaves at position `pos`. */
  function CooledAt(slots: seq<Slot>, pos: nat, delta: int): int
    requires |slots| > 0
  {
    CooledHits(slots[pos % |slots|], delta)
  }

  /** From position `from` on, `k` entries with the greatest number of hits, and nothing to cool in the rest of 4996 positions. */
  ghost predicate HotUnderHand(slots: seq<Slot>, from: nat, k: nat) {
    && 0 < |slots| && k <= DECR_HIT_PER_ENTRY_COUNT - STEP_SIZE
    && forall x: nat | from <= x < from + (DECR_HIT_PER_ENTRY_COUNT - STEP_SIZE) ::
         if x < from + k then slots[x % |slots|].meta == Meta(0, MAX_HIT_COUNT, false, Visible)
         else CooledHits(slots[x % |slots|], 1) == 0
  }

  lemma {:induction false} HotSum(slots: seq<Slot>, from: nat, k: nat, n: nat)
    requires HotUnderHand(slots, from, k) && n <= DECR_HIT_PER_ENTRY_COUNT - STEP_SIZE
    ensures IntendedSum(slots, from, n, 1) == (if n < k then n else k) * (MAX_HIT_COUNT - 1)
  {
    if n > 0 {
      HotSum(slots, from, k, n - 1);
      assert from <= from + n - 1 < from + (DECR_HIT_PER_ENTRY_COUNT - STEP_SIZE);
    }
  }

  /**
   When the sum is first used, 4996 positions have been passed. With `k` entries of 2000 hits among
   them the average is a `k`-th part of that, and at least 2 from six entries on; a sum that was
   never written gives 1.
   */
  lemma IntendedDeltaDiffers(slots: seq<Slot>, from: nat, k: nat)
    requires HotUnderHand(slots, from, k) && k >= 6
    ensures var delta := DeltaFor(IntendedSum(slots, from, DECR_HIT_PER_ENTRY_COUNT - STEP_SIZE, 1), 1);
            delta == k * (MAX_HIT_COUNT - 1) / DECR_HIT_PER_ENTRY_COUNT && delta >= 2
    ensures DeltaFor(0, 1) == 1
  {
    HotSum(slots, from, k, DECR_HIT_PER_ENTRY_COUNT - STEP_SIZE);
  }

  lemma CooledAlike(a: Slot, b: Slot, delta: int)
    requires SameContent(a, b)
    ensures CooledHits(a, delta) == CooledHits(b, delta)
  {
  }

  lemma VisitedSum(p: Probe, s: Sweep, pos: nat, a: Slot)
    requires |s.slots| > 0 && pos % |s.slots| < |s.slots| && SameContent(s.slots[pos % |s.slots|], a)
    ensures Visited(p, s, pos, true).sum == s.sum + CooledHits(a, s.delta)
  {
    CooledAlike(s.slots[pos % |s.slots|], a, s.delta);
    hide CooledHits, Swept, SweptData;
  }

  lemma {:induction false} TurnSum(p: Probe, s: Sweep, n: nat)
    requires 0 < n <= |s.slots|
    ensures Passed(p, s, n, true).sum == Passed(p, s, n - 1, true).sum + CooledAt(s.slots, s.at + n - 1, s.delta)
  {
    hide Visited;
    AheadOfHand(p, s, n - 1, true);
    PassedLast(p, s, n, true);
    var before, x := Passed(p, s, n - 1, true), s.at + n - 1;
    assert before.delta == s.delta;
    hide Passed, SameAhead;
    AheadAt(before.slots, s.slots, x, s.at + |s.slots|, x);
    VisitedSum(p, before, x, s.slots[x % |s.slots|]);
    hide CooledHits;
  }

  /** As long as the hand meets each slot for the first time, the sum can be read off the table it began with. */
  lemma {:induction false} CooledIsIntended(p: Probe, slots: seq<Slot>, clock: nat, n: nat, delta: int)
    requires 0 < |slots| && n <= |slots|
    ensures CooledSum(p, slots, clock, n, delta) == IntendedSum(slots, clock, n, delta)
  {
    hide Visited;
    if n > 0 {
      hide CooledAt;
      CooledIsIntended(p, slots, clock, n - 1, delta);
      TurnSum(p, Begun(slots, clock, delta), n);
      hide Passed;
    }
  }

  // ---- An eviction that ends with the round that uses the sum ----

  /** The hand passes the slot without freeing anything or meeting a pinned entry. */
  ghost predicate Quiet(a: Slot) {
    !a.Resident() || (a.meta.refs <= 0 && a.meta.state.Visible? && a.meta.hits > 0)
  }

  /** The hand frees the entry, and its charge is enough. */
  ghost predicate Suffices(a: Slot, requested: int) {
    a.Resident() && a.meta.refs <= 0 && !(a.meta.state.Visible? && a.meta.hits > 0) && a.entry.charge >= requested
  }

  ghost predicate QuietAhead(slots: seq<Slot>, clock: nat) {
    |slots| > 0 && forall x: nat | clock <= x < clock + FIRST_USE :: Quiet(slots[x % |slots|])
  }

  lemma {:induction false} QuietPassed(p: Probe, slots: seq<Slot>, clock: nat, delta: int, n: nat)
    requires n <= FIRST_USE <= |slots| && QuietAhead(slots, clock)
    ensures Passed(p, Begun(slots, clock, delta), n, false).data == EvictionData(0, 0, 0)
  {
    hide Visited;
    if n > 0 {
      QuietPassed(p, slots, clock, delta, n - 1);
      TurnData(p, Begun(slots, clock, delta), n, false);
      hide Passed;
      var x := clock + n - 1;
      assert Quiet(slots[x % |slots|]);
    }
  }

  lemma {:induction false} QuietRound(p: Probe, slots: seq<Slot>, clock: nat, delta: int, requested: int, min: int, j: nat)
    requires FIRST_USE <= |slots| && requested > 0 && j < FIRST_ROUNDS
    requires QuietAhead(slots, clock)
    ensures !Stops(Passed(p, Before(p, slots, clock, delta, j, false), STEP_SIZE, false), requested, clock + MAX_COUNTDOWN * |slots|)
  {
    hide Visited;
    RoundPassed(p, slots, clock, delta, j, false);
    QuietPassed(p, slots, clock, delta, STEP_SIZE * (j + 1));
    hide Passed;
  }

  ghost function FromRound(p: Probe, slots: seq<Slot>, clock: nat, delta: int, requested: int, min: int, j: nat): Sweep
    requires |slots| > 0
  {
    EvictionFrom(p, Before(p, slots, clock, delta, j, false), requested, clock + MAX_COUNTDOWN * |slots|, min, false)
  }

  ghost function FromFirstUse(p: Probe, slots: seq<Slot>, clock: nat, delta: int, requested: int, min: int): Sweep
    requires |slots| > 0
  {
    EvictionFrom(p, AfterRound(p, slots, clock, delta, FIRST_ROUNDS - 1, min, false), requested, clock + MAX_COUNTDOWN * |slots|, min, false)
  }

  lemma {:induction false} QuietRoundGoesOn(p: Probe, slots: seq<Slot>, clock: nat, delta: int, requested: int, min: int, j: nat)
    requires FIRST_USE <= |slots| && requested > 0 && j < FIRST_ROUNDS && QuietAhead(slots, clock)
    ensures FromRound(p, slots, clock, delta, requested, min, j) ==
            if j + 1 < FIRST_ROUNDS then FromRound(p, slots, clock, delta, requested, min, j + 1) else FromFirstUse(p, slots, clock, delta, requested, min)
  {
    hide Visited;
    hide QuietAhead;
    QuietRound(p, slots, clock, delta, requested, min, j);
    RoundTogether(p, slots, clock, delta, requested, clock + MAX_COUNTDOWN * |slots|, min, j);
    EvictionRound(p, Before(p, slots, clock, delta, j, false), requested, clock + MAX_COUNTDOWN * |slots|, min, false);
    AfterEarly(p, slots, clock, delta, j, min);
    hide Passed, EvictionFrom, AfterRound, Onward, Before, Stops;
  }

  /** Up to there no round ends the eviction. */
  lemma {:induction false} QuietRounds(p: Probe, slots: seq<Slot>, clock: nat, delta: int, requested: int, min: int, j: nat)
    requires FIRST_USE <= |slots| && requested > 0 && j < FIRST_ROUNDS && QuietAhead(slots, clock)
    ensures FromRound(p, slots, clock, delta, requested, min, j) == FromFirstUse(p, slots, clock, delta, requested, min)
    decreases FIRST_ROUNDS - j
  {
    hide FromRound, FromFirstUse, QuietAhead;
    QuietRoundGoesOn(p, slots, clock, delta, requested, min, j);
    if j + 1 < FIRST_ROUNDS {
      QuietRounds(p, slots, clock, delta, requested, min, j + 1);
    }
  }

  lemma {:induction false} FreedGrows(p: Probe, s: Sweep, m: nat, n: nat, written: bool)
    requires |s.slots| > 0 && m <= n
    ensures Passed(p, s, m, written).data.freedCharge <= Passed(p, s, n, written).data.freedCharge
  {
    if m < n {
      FreedGrows(p, s, m, n - 1, written);
      PassedLast(p, s, n, written);
      hide Passed;
    }
  }

  /** Nothing is freed before the round that uses the sum, and enough in it: the hand moves exactly 5000 positions. */
  lemma {:induction false} EndsAtFirstUse(p: Probe, slots: seq<Slot>, clock: nat, delta: int, requested: int, min: int, x: nat)
    requires DECR_HIT_PER_ENTRY_COUNT <= |slots| && requested > 0
    requires QuietAhead(slots, clock)
    requires clock + FIRST_USE <= x < clock + DECR_HIT_PER_ENTRY_COUNT && Suffices(slots[x % |slots|], requested)
    ensures Moved(EvictionOf(p, slots, clock, delta, requested, min, false), clock) == DECR_HIT_PER_ENTRY_COUNT
  {
    hide Visited;
    var max, s0 := clock + MAX_COUNTDOWN * |slots|, Begun(slots, clock, delta);
    var s := AfterRound(p, slots, clock, delta, FIRST_ROUNDS - 1, min, false);
    QuietRounds(p, slots, clock, delta, requested, min, 0);
    assert Before(p, slots, clock, delta, 0, false) == s0;
    EvictionRound(p, s, requested, max, min, false);
    UseRoundFrees(p, slots, clock, delta, requested, min, x);
    hide Passed, EvictionFrom, Before;
    assert s.at == clock + FIRST_USE;
  }

  lemma {:induction false} UseRoundFrees(p: Probe, slots: seq<Slot>, clock: nat, delta: int, requested: int, min: int, x: nat)
    requires DECR_HIT_PER_ENTRY_COUNT <= |slots| && clock + FIRST_USE <= x < clock + DECR_HIT_PER_ENTRY_COUNT && Suffices(slots[x % |slots|], requested)
    ensures var s := AfterRound(p, slots, clock, delta, FIRST_ROUNDS - 1, min, false);
            Passed(p, s, STEP_SIZE, false).data.freedCharge >= requested
  {
    hide Visited;
    var s := AfterRound(p, slots, clock, delta, FIRST_ROUNDS - 1, min, false);
    var n := x - (clock + FIRST_USE) + 1;
    AtFirstUse(p, slots, clock, delta, min, false);
    AheadOfHand(p, Begun(slots, clock, delta), FIRST_USE, true);
    TurnData(p, s, n, false);
    FreedGrows(p, s, n, STEP_SIZE, false);
    hide Passed, AfterRound, SameAhead;
    AheadAt(s.slots, slots, clock + FIRST_USE, clock + |slots|, x);
    assert SameContent(s.slots[x % |slots|], slots[x % |slots|]);
  }
}
