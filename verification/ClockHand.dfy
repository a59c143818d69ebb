/**
 What the clock hand does to a table, in closed form: which entries it frees, which pinned ones it
 counts, and where it stops, each from the table it began with and the positions it has passed.
 */
module ClockHand {
  import opened Sums
  import opened Walk
  import opened MetaWord
  import opened ClockTable
  import opened ClockMachine
  import opened ClockIndex
  import opened ClockSweep
  import opened ClockDecrement

  ghost predicate Pinned(a: Slot) {
    a.Resident() && a.meta.refs > 0
  }

  // ---- One slot ----

  /** Visits, each taking `delta` hits, after which an unpinned entry is gone. */
  ghost predicate Used(a: Slot, delta: int, v: int) {
    v >= 1 && (a.meta.state.Invisible? || (v - 1) * delta >= a.meta.hits)
  }

  /** What `v` visits make of a slot. */
  ghost predicate After(a: Slot, b: Slot, delta: int, v: int) {
    if !a.Resident() || a.meta.refs > 0 then SameContent(a, b)
    else if Used(a, delta, v) then Gone(a, b)
    else b.entry == a.entry && b.meta == a.meta.(hits := if a.meta.state.Visible? then Max(a.meta.hits - v * delta, 0) else a.meta.hits)
  }

  ghost predicate HitsNatural(slots: seq<Slot>) {
    forall t: nat | t < |slots| :: 0 <= slots[t].meta.hits
  }

  lemma OneMoreVisit(p: Probe, a: Slot, slots: seq<Slot>, t: nat, delta: int, v: nat)
    requires t < |slots| && delta >= 1 && 0 <= a.meta.hits && After(a, slots[t], delta, v)
    ensures After(a, Swept(p, slots, t, delta)[t], delta, v + 1)
  {
    assert v * delta == (v - 1) * delta + delta;
    assert (v + 1) * delta == v * delta + delta;
    if v == 0 {
      assert (v - 1) * delta == -delta;
    }
  }

  lemma AfterElsewhere(a: Slot, b: Slot, c: Slot, delta: int, v: int)
    requires After(a, b, delta, v) && SameContent(b, c)
    ensures After(a, c, delta, v)
  {
  }

  lemma VisitsOne(from: nat, end: nat, length: nat, t: nat)
    requires length > 0 && from <= end
    ensures Visits(from, end + 1, length, t) == Visits(from, end, length, t) + if end % length == t then 1 else 0
  {
  }

  /** With one decrement throughout, what has become of each slot after `n` positions. */
  lemma {:induction false} PassedExactly(p: Probe, s: Sweep, n: nat, written: bool, t: nat)
    requires t < |s.slots| && s.delta >= 1 && 0 <= s.slots[t].meta.hits
    ensures After(s.slots[t], Passed(p, s, n, written).slots[t], s.delta, Visits(s.at, s.at + n, |s.slots|, t))
  {
    hide Visited;
    if n > 0 {
      hide After;
      PassedExactly(p, s, n - 1, written, t);
      PassedLast(p, s, n, written);
      var before, pos := Passed(p, s, n - 1, written), s.at + n - 1;
      hide Passed;
      VisitsOne(s.at, pos, |s.slots|, t);
      PassedVisit(p, s.slots[t], before, pos, written, t, Visits(s.at, pos, |s.slots|, t));
    } else {
      assert s.slots[t].meta.(hits := Max(s.slots[t].meta.hits - 0, 0)) == s.slots[t].meta;
    }
  }

  lemma PassedVisit(p: Probe, a: Slot, before: Sweep, pos: nat, written: bool, t: nat, v: nat)
    requires t < |before.slots| && before.delta >= 1 && 0 <= a.meta.hits && After(a, before.slots[t], before.delta, v)
    ensures After(a, Visited(p, before, pos, written).slots[t], before.delta, if pos % |before.slots| == t then v + 1 else v)
  {
    var u := pos % |before.slots|;
    hide After;
    if u == t {
      OneMoreVisit(p, a, before.slots, t, before.delta, v);
    } else {
      SweptElsewhere(p, before.slots, u, before.delta, t);
      AfterElsewhere(a, before.slots[t], Swept(p, before.slots, u, before.delta)[t], before.delta, v);
    }
  }

  /** A new entry outlives three visits that take one hit each, and not a fourth. */
  lemma NewEntryOutlivesThree(h: Handle, d: int, b: Slot, v: nat)
    requires After(Slot(Published(), h, d), b, 1, v)
    ensures if v <= 3 then b.Resident() && b.entry == h && b.meta.hits == 3 - v else b.meta == Vacant()
  {
  }

  // ---- Counting pinned entries ----

  ghost function PinnedWeights(slots: seq<Slot>, from: nat, end: nat): (ws: seq<int>)
    requires |slots| > 0
    ensures |ws| == |slots|
  {
    seq(|slots|, t requires 0 <= t < |slots| => if Pinned(slots[t]) then Visits(from, end, |slots|, t) else 0)
  }

  /** How often the hand meets a pinned entry at the positions from `from` to before `end`. */
  ghost function PinnedVisits(slots: seq<Slot>, from: nat, end: nat): int
    requires |slots| > 0
  {
    Sum(PinnedWeights(slots, from, end))
  }

  lemma PinnedNone(slots: seq<Slot>, from: nat)
    requires |slots| > 0
    ensures PinnedVisits(slots, from, from) == 0
  {
    SumZero(PinnedWeights(slots, from, from));
  }

  lemma PinnedOne(slots: seq<Slot>, from: nat, end: nat, t: nat)
    requires t < |slots| && from <= end && end % |slots| == t
    ensures PinnedVisits(slots, from, end + 1) == PinnedVisits(slots, from, end) + One(Pinned(slots[t]))
  {
    var ws, ws' := PinnedWeights(slots, from, end), PinnedWeights(slots, from, end + 1);
    forall u: nat | u < |slots| ensures ws'[u] == ws[t := ws[t] + One(Pinned(slots[t]))][u] {
      VisitsOne(from, end, |slots|, u);
    }
    assert ws' == ws[t := ws[t] + One(Pinned(slots[t]))];
    SumUpdate(ws, t, ws[t] + One(Pinned(slots[t])));
  }

  /** The same slots hold the same pinned entries. */
  ghost predicate SamePinned(a: seq<Slot>, b: seq<Slot>) {
    |a| == |b| && forall t: nat | t < |a| :: Pinned(a[t]) == Pinned(b[t])
  }

  lemma SamePinnedVisits(a: seq<Slot>, b: seq<Slot>, from: nat, end: nat)
    requires SamePinned(a, b) && |a| > 0
    ensures PinnedVisits(a, from, end) == PinnedVisits(b, from, end)
  {
    assert PinnedWeights(a, from, end) == PinnedWeights(b, from, end);
  }

  /** What the hand has counted and freed between two moments of a sweep. */
  ghost predicate Tallied(p: Probe, s: Sweep, r: Sweep, end: nat)
    requires |s.slots| > 0
  {
    && SamePinned(s.slots, r.slots)
    && r.data.seenPinned == s.data.seenPinned + PinnedVisits(s.slots, s.at, end)
    && r.data.freedCharge - s.data.freedCharge == SlotTotal(p, Charges, s.slots) - SlotTotal(p, Charges, r.slots)
    && r.data.freedCount - s.data.freedCount == SlotTotal(p, Residents, s.slots) - SlotTotal(p, Residents, r.slots)
  }

  lemma SweptPinned(p: Probe, slots: seq<Slot>, t: nat, delta: int)
    requires t < |slots|
    ensures SamePinned(slots, Swept(p, slots, t, delta))
  {
  }

  lemma SweptCounted(a: Slot, d: EvictionData)
    ensures SweptData(a, d).seenPinned == d.seenPinned + One(Pinned(a))
  {
  }

  lemma VisitTallied(p: Probe, s: Sweep, r: Sweep, pos: nat, written: bool)
    requires |s.slots| > 0 && |r.slots| > 0 && s.at <= pos && Tallied(p, s, r, pos)
    ensures Tallied(p, s, Visited(p, r, pos, written), pos + 1)
  {
    var t := pos % |r.slots|;
    SweptPinned(p, r.slots, t, r.delta);
    SweptCounted(r.slots[t], r.data);
    SweptTotals(p, r.slots, t, r.delta, r.data);
    PinnedOne(s.slots, s.at, pos, t);
    hide Swept, SweptData, SlotTotal, PinnedVisits, Pinned;
  }

  lemma {:induction false} PassedTallied(p: Probe, s: Sweep, n: nat, written: bool)
    requires |s.slots| > 0
    ensures Tallied(p, s, Passed(p, s, n, written), s.at + n)
  {
    hide Visited;
    if n == 0 {
      PassedNone(p, s, written);
      PinnedNone(s.slots, s.at);
      hide PinnedVisits, SlotTotal;
    } else {
      PassedTallied(p, s, n - 1, written);
      PassedLast(p, s, n, written);
      hide Tallied;
      VisitTallied(p, s, Passed(p, s, n - 1, written), s.at + n - 1, written);
    }
  }

  lemma TalliedTransitive(p: Probe, a: Sweep, b: Sweep, c: Sweep, end: nat)
    requires |a.slots| > 0 && |b.slots| > 0 && a.at <= b.at <= end
    requires Tallied(p, a, b, b.at) && Tallied(p, b, c, end)
    ensures Tallied(p, a, c, end)
  {
    SamePinnedVisits(a.slots, b.slots, b.at, end);
    PinnedAdd(a.slots, a.at, b.at, end);
    hide PinnedVisits, SlotTotal, Pinned;
  }

  lemma {:induction false} PinnedAdd(slots: seq<Slot>, from: nat, mid: nat, end: nat)
    requires |slots| > 0 && from <= mid <= end
    ensures PinnedVisits(slots, from, end) == PinnedVisits(slots, from, mid) + PinnedVisits(slots, mid, end)
  {
    if mid == end {
      PinnedNone(slots, mid);
    } else {
      PinnedAdd(slots, from, mid, end - 1);
      PinnedOne(slots, from, end - 1, (end - 1) % |slots|);
      PinnedOne(slots, mid, end - 1, (end - 1) % |slots|);
    }
  }

  // ---- Where the hand stops ----

  /** The state of an eviction before its round `j`, if it has come that far. */
  ghost function RoundStart(p: Probe, slots: seq<Slot>, clock: nat, delta: int, min: int, j: nat): (s: Sweep)
    requires |slots| > 0
    ensures |s.slots| == |slots| && s.at == clock + 4 * j
  {
    if j == 0 then Begun(slots, clock, delta)
    else Onward(Passed(p, RoundStart(p, slots, clock, delta, min, j - 1), 4, false), min)
  }

  /** The table after round `j`. */
  ghost function RoundEnd(p: Probe, slots: seq<Slot>, clock: nat, delta: int, min: int, j: nat): (s: Sweep)
    requires |slots| > 0
    ensures |s.slots| == |slots| && s.at == clock + 4 * j
  {
    Passed(p, RoundStart(p, slots, clock, delta, min, j), 4, false)
  }

  /** Charge and entries that were in the table `a` and are not in `b`. */
  ghost function Freed(p: Probe, q: Query, a: seq<Slot>, b: seq<Slot>): int {
    SlotTotal(p, q, a) - SlotTotal(p, q, b)
  }

  /**
   A reason to stop after round `j`: enough is freed, the hand has passed three turns, or it has met
   30 pinned entries for every entry freed and one more.
   */
  ghost predicate Enough(p: Probe, slots: seq<Slot>, clock: nat, after: seq<Slot>, requested: int, j: nat)
    requires |slots| > 0
  {
    || Freed(p, Charges, slots, after) >= requested
    || 4 * j >= 3 * |slots|
    || PinnedVisits(slots, clock, clock + 4 * (j + 1)) >= 30 * (Freed(p, Residents, slots, after) + 1)
  }

  lemma {:induction false} RoundTallied(p: Probe, slots: seq<Slot>, clock: nat, delta: int, min: int, j: nat)
    requires |slots| > 0
    ensures var b := Begun(slots, clock, delta);
            && Tallied(p, b, RoundStart(p, slots, clock, delta, min, j), clock + 4 * j)
            && Tallied(p, b, RoundEnd(p, slots, clock, delta, min, j), clock + 4 * (j + 1))
  {
    hide Passed;
    var b, s := Begun(slots, clock, delta), RoundStart(p, slots, clock, delta, min, j);
    if j == 0 {
      PinnedNone(slots, clock);
    } else {
      RoundTallied(p, slots, clock, delta, min, j - 1);
    }
    PassedTallied(p, s, 4, false);
    hide PinnedVisits, SlotTotal;
    TalliedTransitive(p, b, s, RoundEnd(p, slots, clock, delta, min, j), clock + 4 * (j + 1));
  }

  lemma {:induction false} StopsIffEnough(p: Probe, slots: seq<Slot>, clock: nat, delta: int, min: int, requested: int, j: nat)
    requires |slots| > 0
    ensures var r := RoundEnd(p, slots, clock, delta, min, j);
            && (Stops(r, requested, clock + MAX_COUNTDOWN * |slots|) <==> Enough(p, slots, clock, r.slots, requested, j))
            && r.data.freedCharge == Freed(p, Charges, slots, r.slots) && r.data.freedCount == Freed(p, Residents, slots, r.slots)
            && r.data.seenPinned == PinnedVisits(slots, clock, clock + 4 * (j + 1))
  {
    RoundTallied(p, slots, clock, delta, min, j);
    hide Passed, PinnedVisits, SlotTotal, RoundStart;
  }

  /** The eviction as the rounds up to the first one with a reason to stop. */
  lemma {:induction false} StopsFirst(p: Probe, slots: seq<Slot>, clock: nat, delta: int, min: int, requested: int, j: nat) returns (last: nat)
    requires |slots| > 0
    requires forall i: nat | i < j :: !Enough(p, slots, clock, RoundEnd(p, slots, clock, delta, min, i).slots, requested, i)
    ensures var end := RoundEnd(p, slots, clock, delta, min, last);
            && EvictionFrom(p, RoundStart(p, slots, clock, delta, min, j), requested, clock + MAX_COUNTDOWN * |slots|, min, false) == end
            && j <= last && Enough(p, slots, clock, end.slots, requested, last)
    ensures forall i: nat | i < last :: !Enough(p, slots, clock, RoundEnd(p, slots, clock, delta, min, i).slots, requested, i)
    decreases 3 * |slots| - 4 * j
  {
    hide Passed;
    var max, s, r := clock + MAX_COUNTDOWN * |slots|, RoundStart(p, slots, clock, delta, min, j), RoundEnd(p, slots, clock, delta, min, j);
    EvictionRound(p, s, requested, max, min, false);
    StopsIffEnough(p, slots, clock, delta, min, requested, j);
    hide EvictionFrom, PinnedVisits, SlotTotal;
    if Stops(r, requested, max) {
      last := j;
    } else {
      hide Stops;
      last := StopsFirst(p, slots, clock, delta, min, requested, j + 1);
    }
  }

  /**
   What an eviction counts, frees, and stops for: it ends with the first round after which enough charge
   is gone from the table, three turns are done, or the pinned entries met are 30 times the entries
   gone and one more; and it has counted exactly the visits of the hand to pinned entries.
   */
  lemma {:induction false} EvictionStopsFirst(p: Probe, slots: seq<Slot>, clock: nat, delta: int, requested: int, min: int) returns (last: nat)
    requires |slots| > 0
    ensures var e := EvictionOf(p, slots, clock, delta, requested, min, false);
            && e.at == clock + 4 * last && e == RoundEnd(p, slots, clock, delta, min, last)
            && Enough(p, slots, clock, e.slots, requested, last)
            && e.data.seenPinned == PinnedVisits(slots, clock, clock + 4 * (last + 1))
            && e.data.freedCharge == Freed(p, Charges, slots, e.slots) && e.data.freedCount == Freed(p, Residents, slots, e.slots)
    ensures forall i: nat | i < last :: !Enough(p, slots, clock, RoundEnd(p, slots, clock, delta, min, i).slots, requested, i)
  {
    last := StopsFirst(p, slots, clock, delta, min, requested, 0);
    StopsIffEnough(p, slots, clock, delta, min, requested, last);
    hide EvictionFrom, Passed, PinnedVisits, SlotTotal, Enough;
  }

  /** Round `last` is the first one with a reason to stop, and what it left is `after`. */
  ghost predicate EndsAfter(p: Probe, slots: seq<Slot>, clock: nat, delta: int, min: int, requested: int, last: nat, after: seq<Slot>, hand: int)
    requires |slots| > 0
  {
    && hand == clock + 4 * (last + 1) && after == RoundEnd(p, slots, clock, delta, min, last).slots
    && Enough(p, slots, clock, after, requested, last)
    && forall i: nat | i < last :: !Enough(p, slots, clock, RoundEnd(p, slots, clock, delta, min, i).slots, requested, i)
  }

  ghost predicate EndsFirst(p: Probe, slots: seq<Slot>, clock: nat, delta: int, min: int, requested: int, after: seq<Slot>, hand: int)
    requires |slots| > 0
  {
    exists last: nat :: EndsAfter(p, slots, clock, delta, min, requested, last, after, hand)
  }

  lemma {:induction false} EvictionEnds(p: Probe, slots: seq<Slot>, clock: nat, delta: int, requested: int, min: int)
    requires |slots| > 0
    ensures var e := EvictionOf(p, slots, clock, delta, requested, min, false);
            EndsFirst(p, slots, clock, delta, min, requested, e.slots, e.at + 4) && e.data.seenPinned == PinnedVisits(slots, clock, e.at + 4)
  {
    var last := EvictionStopsFirst(p, slots, clock, delta, requested, min);
    var e := EvictionOf(p, slots, clock, delta, requested, min, false);
    var after, hand := e.slots, e.at + 4;
    hide EvictionOf, Enough;
    EndsHere(p, slots, clock, delta, min, requested, last, after, hand);
  }

  lemma EndsHere(p: Probe, slots: seq<Slot>, clock: nat, delta: int, min: int, requested: int, last: nat, after: seq<Slot>, hand: int)
    requires |slots| > 0 && EndsAfter(p, slots, clock, delta, min, requested, last, after, hand)
    ensures EndsFirst(p, slots, clock, delta, min, requested, after, hand)
  {
  }

  /** While the decrement stays the same, rounds follow one another like the positions of one. */
  lemma {:induction false} RoundsJoin(p: Probe, slots: seq<Slot>, clock: nat, delta: int, min: int, j: nat)
    requires |slots| > 0 && (delta == Max(1, min) || 4 * (j + 1) < DECR_HIT_PER_ENTRY_COUNT)
    ensures RoundStart(p, slots, clock, delta, min, j) == Before(p, slots, clock, delta, j, false)
  {
    hide Visited;
    if j == 0 {
      PassedNone(p, Begun(slots, clock, delta), false);
    } else {
      RoundsJoin(p, slots, clock, delta, min, j - 1);
      RoundPassed(p, slots, clock, delta, j - 1, false);
      OnlyTheSum(p, Begun(slots, clock, delta), 4 * j);
      hide Passed;
      SmallSum(0, min);
    }
  }

  /**
   What an eviction leaves in each slot, if it stores no new decrement or the one it began with: an
   empty or pinned slot is as it was; a hidden entry is gone once the hand has come by; a visible one
   loses `delta` hits a visit and is gone with the first visit that finds none.
   */
  lemma {:induction false} EvictedExactly(p: Probe, slots: seq<Slot>, clock: nat, delta: int, requested: int, min: int, t: nat)
    requires t < |slots| && delta >= 1 && 0 <= slots[t].meta.hits
    requires delta == Max(1, min) || Moved(EvictionOf(p, slots, clock, delta, requested, min, false), clock) < DECR_HIT_PER_ENTRY_COUNT
    ensures var e := EvictionOf(p, slots, clock, delta, requested, min, false);
            After(slots[t], e.slots[t], delta, Visits(clock, e.at + 4, |slots|, t))
  {
    hide Visited, EvictionOf, After;
    var last := EvictionStopsFirst(p, slots, clock, delta, requested, min);
    hide Enough;
    RoundsJoin(p, slots, clock, delta, min, last);
    RoundPassed(p, slots, clock, delta, last, false);
    PassedExactly(p, Begun(slots, clock, delta), 4 * (last + 1), false, t);
    hide Passed;
  }
}
