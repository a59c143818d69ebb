/**
 An eviction of the CLOCK cache as a function of the table it finds. Its hit decrement is drawn from a
 sum of cooled hits; the program never writes that sum. The function takes both forms, so that what the
 program stores can be compared with what it would store if the sum were written.
 */
module ClockSweep {
  import opened Walk
  import opened MetaWord
  import opened ClockTable
  import opened ClockIndex

  datatype EvictionData = EvictionData(freedCharge: nat, freedCount: nat, seenPinned: nat) {
    predicate EffortExceeded() {
      (freedCount + 1) * EFFORT_CAP <= seenPinned
    }
  }

  ghost function SweptData(a: Slot, d: EvictionData): EvictionData {
    var m := a.meta;
    if !m.Shareable() then d
    else if m.refs > 0 then d.(seenPinned := d.seenPinned + 1)
    else if m.state.Visible? && m.hits > 0 then d
    else d.(freedCharge := d.freedCharge + a.entry.charge, freedCount := d.freedCount + 1)
  }

  /** The hits a visit of the clock hand leaves on an entry it cools, which is what it should add to the sum. */
  function CooledHits(a: Slot, delta: int): int {
    var m := a.meta;
    if m.state.Visible? && m.refs <= 0 && 0 < m.hits && delta < m.hits then m.hits - delta else 0
  }

  /** The decrement drawn from a sum: the average over 5000 entries, cut to a whole number, at least 1 and the minimum. */
  function DeltaFor(sum: int, min: int): (delta: int)
    ensures delta >= 1 && delta >= min
  {
    var average := sum as real / DECR_HIT_PER_ENTRY_COUNT as real;
    var delta := if average > 1.0 then average.Floor else 1;
    if delta < min then min else delta
  }

  /** The decrement an eviction stores after its hand has moved `moved` positions. */
  function StoredDelta(moved: int, was: int, min: int): int {
    if moved < DECR_HIT_PER_ENTRY_COUNT then was else if min > 1 then min else 1
  }

  /** A sweep between two rounds or within one; the hand is at `at` for the whole of a round. */
  datatype Sweep = Sweep(slots: seq<Slot>, data: EvictionData, sum: int, delta: int, at: nat, offset: nat)

  ghost function Visited(p: Probe, s: Sweep, pos: nat, written: bool): (s': Sweep)
    requires |s.slots| > 0
    ensures |s'.slots| == |s.slots| && s'.at == s.at && s'.offset == s.offset && s'.delta == s.delta
  {
    var t := pos % |s.slots|;
    s.(slots := Swept(p, s.slots, t, s.delta), data := SweptData(s.slots[t], s.data),
       sum := if written then s.sum + CooledHits(s.slots[t], s.delta) else s.sum)
  }

  /** After `n` positions from `s.at` on. */
  ghost function Passed(p: Probe, s: Sweep, n: nat, written: bool): (s': Sweep)
    requires |s.slots| > 0
    ensures |s'.slots| == |s.slots| && s'.at == s.at && s'.offset == s.offset && s'.delta == s.delta
  {
    if n == 0 then s else Visited(p, Passed(p, s, n - 1, written), s.at + n - 1, written)
  }

  ghost predicate Stops(s: Sweep, requested: int, max: nat) {
    s.data.freedCharge >= requested || s.at >= max || s.data.EffortExceeded()
  }

  /** The hand moves on, and the decrement is drawn anew, every time from the 5000th position on. */
  ghost function Onward(s: Sweep, min: int): Sweep {
    var s' := s.(at := s.at + STEP_SIZE, offset := s.offset + STEP_SIZE);
    if s'.offset + STEP_SIZE >= DECR_HIT_PER_ENTRY_COUNT then s'.(delta := DeltaFor(s.sum, min), sum := 0) else s'
  }

  ghost function EvictionFrom(p: Probe, s: Sweep, requested: int, max: nat, min: int, written: bool): (s': Sweep)
    requires |s.slots| > 0
    ensures |s'.slots| == |s.slots| && s.at <= s'.at
    decreases max + STEP_SIZE - s.at
  {
    var r := Passed(p, s, STEP_SIZE, written);
    if Stops(r, requested, max) then r else EvictionFrom(p, Onward(r, min), requested, max, min, written)
  }

  ghost function Begun(slots: seq<Slot>, clock: nat, delta: int): Sweep {
    Sweep(slots, EvictionData(0, 0, 0), 0, delta, clock, 0)
  }

  /** The end of the eviction; `written` says whether the sum is. */
  ghost function EvictionOf(p: Probe, slots: seq<Slot>, clock: nat, delta: int, requested: int, min: int, written: bool): (s: Sweep)
    requires |slots| > 0
    ensures |s.slots| == |slots| && clock <= s.at
  {
    EvictionFrom(p, Begun(slots, clock, delta), requested, clock + MAX_COUNTDOWN * |slots|, min, written)
  }

  /** How far the hand has moved. */
  ghost function Moved(s: Sweep, clock: nat): int {
    s.at + STEP_SIZE - clock
  }

  /** The hits left on the entries cooled at the first `n` positions, which is what the sum is for. */
  ghost function CooledSum(p: Probe, slots: seq<Slot>, clock: nat, n: nat, delta: int): int
    requires |slots| > 0
  {
    Passed(p, Begun(slots, clock, delta), n, true).sum
  }

  // ---- Rounds ----

  lemma EvictionRound(p: Probe, s: Sweep, requested: int, max: nat, min: int, written: bool)
    requires |s.slots| > 0
    ensures var r := Passed(p, s, STEP_SIZE, written);
            EvictionFrom(p, s, requested, max, min, written) ==
            if Stops(r, requested, max) then r else EvictionFrom(p, Onward(r, min), requested, max, min, written)
  {
    hide Visited;
    hide Passed;
  }

  /** The state before round `j`, while the decrement is still the one the eviction began with. */
  ghost function Before(p: Probe, slots: seq<Slot>, clock: nat, delta: int, j: nat, written: bool): Sweep
    requires |slots| > 0
  {
    Passed(p, Begun(slots, clock, delta), STEP_SIZE * j, written).(at := clock + STEP_SIZE * j, offset := STEP_SIZE * j)
  }

  /** A round with the sum unwritten, in the program's own terms. */
  lemma PlainRound(p: Probe, s: Sweep, r: Sweep, requested: int, max: nat, min: int)
    requires |s.slots| > 0 && s.sum == 0 && r == Passed(p, s, STEP_SIZE, false)
    ensures var end := EvictionFrom(p, s, requested, max, min, false);
            if r.data.freedCharge >= requested || r.at >= max || r.data.EffortExceeded() then end == r
            else end == EvictionFrom(p, Sweep(r.slots, r.data, 0, if r.offset + 2 * STEP_SIZE >= DECR_HIT_PER_ENTRY_COUNT then DeltaFor(0, min) else r.delta,
                                              r.at + STEP_SIZE, r.offset + STEP_SIZE), requested, max, min, false)
  {
    hide Visited;
    OnlyTheSum(p, s, STEP_SIZE);
    hide Passed;
  }

  lemma {:induction false} StoredFrom(p: Probe, s: Sweep, requested: int, max: nat, min: int, was: int)
    requires |s.slots| > 0 && s.sum == 0 && s.delta == StoredDelta(s.offset + STEP_SIZE, was, min)
    ensures var end := EvictionFrom(p, s, requested, max, min, false);
            end.delta == StoredDelta(end.at - s.at + s.offset + STEP_SIZE, was, min)
    decreases max + STEP_SIZE - s.at
  {
    hide Visited;
    var r := Passed(p, s, STEP_SIZE, false);
    OnlyTheSum(p, s, STEP_SIZE);
    hide Passed;
    if !Stops(r, requested, max) {
      StoredFrom(p, Onward(r, min), requested, max, min, was);
    }
  }

  /** With the sum unwritten, what is stored depends on how far the hand has moved and on nothing else. */
  lemma StoredIsPlain(p: Probe, slots: seq<Slot>, clock: nat, delta: int, requested: int, min: int)
    requires |slots| > 0
    ensures var e := EvictionOf(p, slots, clock, delta, requested, min, false);
            e.delta == StoredDelta(Moved(e, clock), delta, min)
  {
    hide Visited;
    StoredFrom(p, Begun(slots, clock, delta), requested, clock + MAX_COUNTDOWN * |slots|, min, delta);
    hide EvictionFrom;
  }

  lemma {:induction false} PassedOn(p: Probe, s: Sweep, m: nat, n: nat, offset: nat, written: bool)
    requires |s.slots| > 0
    ensures Passed(p, Passed(p, s, m, written).(at := s.at + m, offset := offset), n, written)
         == Passed(p, s, m + n, written).(at := s.at + m, offset := offset)
  {
    hide Visited;
    var mid := Passed(p, s, m, written).(at := s.at + m, offset := offset);
    if n == 0 {
      PassedNone(p, mid, written);
    } else {
      PassedOn(p, s, m, n - 1, offset, written);
      PassedOnce(p, s, mid, m + n - 1, n - 1, offset, written);
    }
  }

  lemma PassedOnce(p: Probe, s: Sweep, mid: Sweep, k: nat, n: nat, offset: nat, written: bool)
    requires |s.slots| > 0 && |mid.slots| > 0 && mid.at + n == s.at + k
    requires Passed(p, mid, n, written) == Passed(p, s, k, written).(at := mid.at, offset := offset)
    ensures Passed(p, mid, n + 1, written) == Passed(p, s, k + 1, written).(at := mid.at, offset := offset)
  {
    hide Visited;
    PassedLast(p, mid, n + 1, written);
    PassedLast(p, s, k + 1, written);
    VisitedElsewhere(p, Passed(p, s, k, written), mid.at, offset, s.at + k, written);
    hide Passed;
  }

  lemma VisitedElsewhere(p: Probe, s: Sweep, at: nat, offset: nat, pos: nat, written: bool)
    requires |s.slots| > 0
    ensures Visited(p, s.(at := at, offset := offset), pos, written) == Visited(p, s, pos, written).(at := at, offset := offset)
  {
    hide Swept, SweptData, CooledHits;
  }

  lemma RoundPassed(p: Probe, slots: seq<Slot>, clock: nat, delta: int, j: nat, written: bool)
    requires |slots| > 0
    ensures var r := Passed(p, Before(p, slots, clock, delta, j, written), STEP_SIZE, written);
            r.(at := clock + STEP_SIZE * (j + 1), offset := STEP_SIZE * (j + 1)) == Before(p, slots, clock, delta, j + 1, written)
  {
    hide Visited;
    hide Passed;
    PassedOn(p, Begun(slots, clock, delta), STEP_SIZE * j, STEP_SIZE, STEP_SIZE * j, written);
  }

  /** Writing the sum changes nothing else until it is used. */
  lemma {:induction false} OnlyTheSum(p: Probe, s: Sweep, n: nat)
    requires |s.slots| > 0
    ensures Passed(p, s, n, false) == Passed(p, s, n, true).(sum := s.sum)
  {
    if n > 0 {
      OnlyTheSum(p, s, n - 1);
    }
  }

  // ---- A round does not depend on its decrement ----

  lemma WithinOneTurn(x: nat, y: nat, length: nat)
    requires x < y < x + length
    ensures x % length != y % length
  {
    var q := y / length - x / length;
    assert y - x == length * q + (y % length - x % length);
    if q <= 0 {
      assert length * q <= 0;
    } else {
      assert length * q >= length;
    }
  }

  lemma SweptElsewhere(p: Probe, slots: seq<Slot>, t: nat, delta: int, u: nat)
    requires t < |slots| && u < |slots| && u != t
    ensures SameContent(Swept(p, slots, t, delta)[u], slots[u])
  {
  }

  /** The next turn finds the same entries at the positions ahead. */
  ghost predicate SameAhead(a: seq<Slot>, b: seq<Slot>, from: nat, end: nat)
    requires |a| == |b| > 0
  {
    forall x: nat | from <= x < end :: SameContent(a[x % |a|], b[x % |b|])
  }

  lemma {:induction false} AheadOfHand(p: Probe, s: Sweep, n: nat, written: bool)
    requires |s.slots| > 0 && n <= |s.slots|
    ensures SameAhead(Passed(p, s, n, written).slots, s.slots, s.at + n, s.at + |s.slots|)
  {
    if n > 0 {
      AheadOfHand(p, s, n - 1, written);
      hide Passed;
      var before, pos, length := Passed(p, s, n - 1, written), s.at + n - 1, |s.slots|;
      forall x: nat | s.at + n <= x < s.at + length
        ensures SameContent(Swept(p, before.slots, pos % length, before.delta)[x % length], s.slots[x % length])
      {
        WithinOneTurn(pos, x, length);
        SweptElsewhere(p, before.slots, pos % length, before.delta, x % length);
        assert SameContent(before.slots[x % length], s.slots[x % length]);
      }
      hide Swept, SweptData, CooledHits;
      PassedLast(p, s, n, written);
    }
  }

  lemma PassedNone(p: Probe, s: Sweep, written: bool)
    requires |s.slots| > 0
    ensures Passed(p, s, 0, written) == s
  {
  }

  lemma PassedLast(p: Probe, s: Sweep, n: nat, written: bool)
    requires |s.slots| > 0 && n > 0
    ensures Passed(p, s, n, written) == Visited(p, Passed(p, s, n - 1, written), s.at + n - 1, written)
  {
  }

  lemma AheadAt(a: seq<Slot>, b: seq<Slot>, from: nat, end: nat, x: nat)
    requires |a| == |b| > 0 && SameAhead(a, b, from, end) && from <= x < end
    ensures x % |a| < |a| && SameContent(a[x % |a|], b[x % |a|])
  {
  }

  lemma VisitedData(p: Probe, s: Sweep, pos: nat, written: bool, a: Slot)
    requires |s.slots| > 0 && pos % |s.slots| < |s.slots| && SameContent(s.slots[pos % |s.slots|], a)
    ensures Visited(p, s, pos, written).data == SweptData(a, s.data)
  {
  }

  /** What the hand makes of the entry at `pos`, as the table was when the turn began. */
  ghost function DataAt(slots: seq<Slot>, pos: nat, d: EvictionData): EvictionData
    requires |slots| > 0
  {
    SweptData(slots[pos % |slots|], d)
  }

  lemma {:induction false} TurnData(p: Probe, s: Sweep, n: nat, written: bool)
    requires 0 < n <= |s.slots|
    ensures Passed(p, s, n, written).data == DataAt(s.slots, s.at + n - 1, Passed(p, s, n - 1, written).data)
  {
    hide Visited;
    AheadOfHand(p, s, n - 1, written);
    PassedLast(p, s, n, written);
    hide Passed, SameAhead;
    var before := Passed(p, s, n - 1, written);
    AheadAt(before.slots, s.slots, s.at + n - 1, s.at + |s.slots|, s.at + n - 1);
    VisitedData(p, before, s.at + n - 1, written, s.slots[(s.at + n - 1) % |s.slots|]);
  }

  /** Within one turn, which entries are freed and which pinned ones are met does not depend on the decrement. */
  lemma {:induction false} DataOfTurn(p: Probe, a: Sweep, b: Sweep, n: nat, w: bool, w': bool)
    requires |a.slots| > 0 && a.slots == b.slots && a.data == b.data && a.at == b.at && n <= |a.slots|
    ensures Passed(p, a, n, w).data == Passed(p, b, n, w').data
  {
    hide Visited;
    if n > 0 {
      hide DataAt;
      DataOfTurn(p, a, b, n - 1, w, w');
      TurnData(p, a, n, w);
      TurnData(p, b, n, w');
    }
  }

  // ---- What a visit takes from the totals ----

  lemma SweptTotal(p: Probe, q: Query, slots: seq<Slot>, t: nat, delta: int)
    requires t < |slots|
    ensures var m := slots[t].meta;
            SlotTotal(p, q, Swept(p, slots, t, delta)) == SlotTotal(p, q, slots) -
              (if m.Shareable() && m.refs <= 0 && !(m.state.Visible? && m.hits > 0) then SlotWeight(p, q, t, slots[t]) else 0)
  {
    var m := slots[t].meta;
    hide SlotWeight;
    hide SlotTotal;
    if m.Shareable() && m.refs <= 0 {
      if m.state.Visible? && m.hits > 0 {
        SameResidentsSameTotal(p, q, slots, Swept(p, slots, t, delta));
      } else {
        ReclaimTotal(p, q, slots, t);
      }
    }
  }

  /** One more visit takes from the totals what it adds to the data. */
  lemma SweptTotals(p: Probe, slots: seq<Slot>, t: nat, delta: int, d: EvictionData)
    requires t < |slots|
    ensures var after, d' := Swept(p, slots, t, delta), SweptData(slots[t], d);
            && d'.freedCharge - d.freedCharge == SlotTotal(p, Charges, slots) - SlotTotal(p, Charges, after)
            && d'.freedCount - d.freedCount == SlotTotal(p, Residents, slots) - SlotTotal(p, Residents, after)
            && (d'.freedCount == d.freedCount ==> d'.freedCharge == d.freedCharge)
  {
    SweptTotal(p, Charges, slots, t, delta);
    SweptTotal(p, Residents, slots, t, delta);
    assert slots[t].Resident() ==> SlotWeight(p, Charges, t, slots[t]) == slots[t].entry.charge && SlotWeight(p, Residents, t, slots[t]) == 1;
    hide SlotTotal, SlotWeight, Swept;
  }
}
