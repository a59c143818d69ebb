/** How single changes of the slot array move the displacement counters and the totals. */
module ClockIndex {
  import opened Sums
  import opened Walk
  import opened MetaWord
  import opened ClockTable

  /** `slots` with `d` added to the counters of the first `n` slots on the path of `k`. */
  ghost function Adjusted(p: Probe, slots: seq<Slot>, k: Key, n: nat, d: int): (r: seq<Slot>)
    ensures |r| == |slots|
  {
    seq(|slots|, s requires 0 <= s < |slots| =>
      if p.index(k, s) < n then slots[s].(displacements := slots[s].displacements + d) else slots[s])
  }

  /** Every displacement counter is the number of residents whose path passes its slot. */
  ghost predicate IndexOk(p: Probe, slots: seq<Slot>) {
    && Permutes(p) && |slots| == p.length
    && forall s: nat | s < |slots| :: slots[s].displacements == SlotTotal(p, Passing(s), slots)
  }

  ghost predicate SameContent(a: Slot, b: Slot) {
    a.meta == b.meta && a.entry == b.entry
  }

  /** The two slots hold the same entry for accounting purposes, or both hold none. */
  ghost predicate SameResident(a: Slot, b: Slot) {
    a.Resident() == b.Resident() && (a.Resident() ==> a.entry == b.entry)
  }

  lemma SameResidentsSameTotal(p: Probe, q: Query, a: seq<Slot>, b: seq<Slot>)
    requires |a| == |b| && forall t | 0 <= t < |a| :: SameResident(a[t], b[t])
    ensures SlotTotal(p, q, a) == SlotTotal(p, q, b)
  {
    assert SlotWeights(p, q, a) == SlotWeights(p, q, b);
  }

  lemma AdjustedTotal(p: Probe, q: Query, slots: seq<Slot>, k: Key, n: nat, d: int)
    ensures SlotTotal(p, q, Adjusted(p, slots, k, n, d)) == SlotTotal(p, q, slots)
  {
    SameResidentsSameTotal(p, q, slots, Adjusted(p, slots, k, n, d));
  }

  /** One more step along the path. */
  lemma AdjustedStep(p: Probe, slots: seq<Slot>, k: Key, n: nat, d: int)
    requires Permutes(p) && |slots| == p.length && n < p.length
    ensures p.at(k, n) < p.length
    ensures var r, t := Adjusted(p, slots, k, n, d), p.at(k, n);
            && r[t] == slots[t]
            && Adjusted(p, slots, k, n + 1, d) == r[t := r[t].(displacements := r[t].displacements + d)]
  {
    var r, t := Adjusted(p, slots, k, n, d), p.at(k, n);
    assert p.index(k, t) == n;
    var r' := r[t := r[t].(displacements := r[t].displacements + d)];
    forall s: nat | s < |slots|
      ensures Adjusted(p, slots, k, n + 1, d)[s] == r'[s]
    {
      assert p.at(k, p.index(k, s)) == s;
    }
    assert Adjusted(p, slots, k, n + 1, d) == r';
  }

  lemma AdjustedNone(p: Probe, slots: seq<Slot>, k: Key, d: int)
    requires Permutes(p) && |slots| == p.length
    ensures Adjusted(p, slots, k, 0, d) == slots
  {
  }

  /** Rolling back an abandoned insertion restores the table. */
  lemma AdjustedBack(p: Probe, slots: seq<Slot>, k: Key, n: nat)
    ensures Adjusted(p, Adjusted(p, slots, k, n, 1), k, n, -1) == slots
  {
    var r := Adjusted(p, Adjusted(p, slots, k, n, 1), k, n, -1);
    forall s: nat | s < |slots|
      ensures r[s] == slots[s]
    {
    }
  }

  /** A new entry at position `n` of its path, with the path before it marked. */
  lemma PlaceKeepsIndex(p: Probe, slots: seq<Slot>, k: Key, n: nat, x: Slot)
    requires IndexOk(p, slots) && n < p.length && p.at(k, n) < p.length
    requires !slots[p.at(k, n)].Resident() && x.Resident() && x.entry.key == k
    requires x.displacements == slots[p.at(k, n)].displacements
    ensures IndexOk(p, Adjusted(p, slots, k, n, 1)[p.at(k, n) := x])
  {
    var r, t := Adjusted(p, slots, k, n, 1), p.at(k, n);
    var after: seq<Slot> := r[t := x];
    forall s: nat | s < |slots|
      ensures after[s].displacements == SlotTotal(p, Passing(s), after)
    {
      AdjustedTotal(p, Passing(s), slots, k, n, 1);
      SlotTotalUpdate(p, Passing(s), r, t, x);
      assert p.index(k, t) == n && p.at(k, p.index(k, s)) == s;
    }
  }

  /** An entry leaves slot `t`, and the path before it is unmarked. */
  ghost function Reclaimed(p: Probe, slots: seq<Slot>, t: nat): seq<Slot>
    requires t < |slots|
  {
    var k := slots[t].entry.key;
    Adjusted(p, slots, k, p.index(k, t), -1)[t := slots[t].(meta := Vacant(), entry := slots[t].entry.FreeData())]
  }

  lemma ReclaimKeepsIndex(p: Probe, slots: seq<Slot>, t: nat)
    requires IndexOk(p, slots) && t < |slots| && slots[t].Resident()
    ensures IndexOk(p, Reclaimed(p, slots, t))
  {
    hide SlotTotal;
    var k := slots[t].entry.key;
    var n := p.index(k, t);
    var r, x := Adjusted(p, slots, k, n, -1), slots[t].(meta := Vacant(), entry := slots[t].entry.FreeData());
    var after: seq<Slot> := r[t := x];
    forall s: nat | s < |slots|
      ensures after[s].displacements == SlotTotal(p, Passing(s), after)
    {
      AdjustedTotal(p, Passing(s), slots, k, n, -1);
      SlotTotalUpdate(p, Passing(s), r, t, x);
      assert p.at(k, n) == t && p.at(k, p.index(k, s)) == s;
    }
  }

  /** What a reclaimed entry takes out of the totals. */
  lemma ReclaimTotal(p: Probe, q: Query, slots: seq<Slot>, t: nat)
    requires t < |slots| && slots[t].Resident()
    ensures SlotTotal(p, q, Reclaimed(p, slots, t)) == SlotTotal(p, q, slots) - SlotWeight(p, q, t, slots[t])
  {
    var k := slots[t].entry.key;
    var r, x := Adjusted(p, slots, k, p.index(k, t), -1), slots[t].(meta := Vacant(), entry := slots[t].entry.FreeData());
    AdjustedTotal(p, q, slots, k, p.index(k, t), -1);
    SlotTotalUpdate(p, q, r, t, x);
    assert SlotWeight(p, q, t, r[t]) == SlotWeight(p, q, t, slots[t]);
  }

  /** What a placed entry adds to the totals. */
  lemma PlaceTotal(p: Probe, q: Query, slots: seq<Slot>, k: Key, n: nat, t: nat, x: Slot)
    requires t < |slots| && !slots[t].Resident()
    ensures SlotTotal(p, q, Adjusted(p, slots, k, n, 1)[t := x]) == SlotTotal(p, q, slots) + SlotWeight(p, q, t, x)
  {
    AdjustedTotal(p, q, slots, k, n, 1);
    SlotTotalUpdate(p, q, Adjusted(p, slots, k, n, 1), t, x);
  }

  /** A change that moves no entry leaves the index right. */
  lemma RelabelKeepsIndex(p: Probe, a: seq<Slot>, b: seq<Slot>)
    requires IndexOk(p, a) && |a| == |b|
    requires forall t | 0 <= t < |a| :: SameResident(a[t], b[t]) && a[t].displacements == b[t].displacements
    ensures IndexOk(p, b)
  {
    forall s: nat | s < |b|
      ensures b[s].displacements == SlotTotal(p, Passing(s), b)
    {
      SameResidentsSameTotal(p, Passing(s), a, b);
    }
  }

  /** A zero counter ends the search: no resident of that key lies beyond it. */
  lemma ZeroEndsPath(p: Probe, slots: seq<Slot>, k: Key, n: nat, t: nat)
    requires IndexOk(p, slots) && n < p.length && p.at(k, n) < |slots|
    requires slots[p.at(k, n)].displacements == 0
    requires t < |slots| && slots[t].Resident() && slots[t].entry.key == k
    ensures p.index(k, t) <= n
  {
    var s := p.at(k, n);
    if n < p.index(k, t) {
      assert p.index(k, s) == n;
      assert SlotWeight(p, Passing(s), t, slots[t]) == 1;
      SlotTotalAtLeast(p, Passing(s), slots, t);
    }
  }

  /** With fewer residents than slots some slot is not resident. */
  lemma {:induction false} RoomLeft(p: Probe, slots: seq<Slot>) returns (t: nat)
    requires SlotTotal(p, Residents, slots) < |slots|
    ensures t < |slots| && !slots[t].Resident()
  {
    var ws := SlotWeights(p, Residents, slots);
    if forall i | 0 <= i < |slots| :: slots[i].Resident() {
      SumOfOnes(ws);
      assert false;
    } else {
      t :| t < |slots| && !slots[t].Resident();
    }
  }

  lemma {:induction false} SumOfOnes(ws: seq<int>)
    requires forall i | 0 <= i < |ws| :: ws[i] == 1
    ensures Sum(ws) == |ws|
  {
    if ws != [] {
      SumOfOnes(ws[..|ws| - 1]);
    }
  }

  // ---- Sweeping the clock hand ----

  /** Where the hand stood: how many of the positions in `[from, end)` fall on slot `t`. */
  ghost function Visits(from: nat, end: nat, length: nat, t: nat): nat
    requires length > 0
    decreases end
  {
    if end <= from then 0 else Visits(from, end - 1, length, t) + (if (end - 1) % length == t then 1 else 0)
  }

  lemma {:induction false} VisitsAdd(from: nat, mid: nat, end: nat, length: nat, t: nat)
    requires length > 0 && from <= mid <= end
    ensures Visits(from, end, length, t) == Visits(from, mid, length, t) + Visits(mid, end, length, t)
  {
    if end > mid {
      VisitsAdd(from, mid, end - 1, length, t);
    }
  }

  lemma {:induction false} VisitsHit(from: nat, end: nat, length: nat, t: nat, x: nat)
    requires length > 0 && from <= x < end && x % length == t
    ensures Visits(from, end, length, t) >= 1
  {
    if x < end - 1 {
      VisitsHit(from, end - 1, length, t, x);
    }
  }

  /** A full turn of the hand visits every slot. */
  lemma FullTurn(from: nat, length: nat, t: nat)
    requires t < length
    ensures Visits(from, from + length, length, t) >= 1
  {
    var q, r := from / length, from % length;
    assert from == length * q + r;
    if r <= t {
      Residue(q, t, length);
      VisitsHit(from, from + length, length, t, length * q + t);
    } else {
      Residue(q + 1, t, length);
      assert length * (q + 1) == length * q + length;
      VisitsHit(from, from + length, length, t, length * (q + 1) + t);
    }
  }

  lemma Residue(q: nat, t: nat, length: nat)
    requires t < length
    ensures (length * q + t) % length == t
  {
    var x := length * q + t;
    CongruentBy(x, t, length, q);
    ResidueOf(x, t, length);
  }

  /** Three turns visit every slot three times. */
  lemma ThreeTurns(from: nat, end: nat, length: nat, t: nat)
    requires t < length && from + 3 * length <= end
    ensures Visits(from, end, length, t) >= 3
  {
    var a, b, c := from + length, from + 2 * length, from + 3 * length;
    FullTurn(from, length, t);
    FullTurn(a, length, t);
    FullTurn(b, length, t);
    VisitsAdd(from, a, b, length, t);
    VisitsAdd(from, b, c, length, t);
    VisitsAdd(from, c, end, length, t);
  }

  /** The entry of `a` was evicted and its data freed. */
  ghost predicate Gone(a: Slot, b: Slot) {
    a.Resident() && b.meta == Vacant() && b.entry == a.entry.FreeData()
  }

  /**
   What a sweep that visited a slot `v` times may have done to it: nothing to an empty or pinned
   slot; an unpinned entry is gone, or is still there with at least `v` hits fewer.
   */
  ghost predicate SlotSwept(a: Slot, b: Slot, v: nat) {
    if !a.Resident() || a.meta.refs > 0 then SameContent(a, b)
    else Gone(a, b) || (b.entry == a.entry && b.meta == a.meta.(hits := b.meta.hits) && 0 <= b.meta.hits && b.meta.hits + v <= a.meta.hits)
  }

  /** One visit of the clock hand with hit decrement `delta`. */
  ghost function Swept(p: Probe, slots: seq<Slot>, t: nat, delta: int): (r: seq<Slot>)
    requires t < |slots|
    ensures |r| == |slots|
  {
    var m := slots[t].meta;
    if !m.Shareable() || m.refs > 0 then slots
    else if m.state.Visible? && m.hits > 0 then
      slots[t := slots[t].(meta := m.(hits := if m.hits > delta then m.hits - delta else 0))]
    else Reclaimed(p, slots, t)
  }

  lemma SweptKeepsIndex(p: Probe, slots: seq<Slot>, t: nat, delta: int)
    requires IndexOk(p, slots) && t < |slots|
    ensures IndexOk(p, Swept(p, slots, t, delta))
  {
    var m := slots[t].meta;
    if m.Shareable() && m.refs <= 0 {
      if m.state.Visible? && m.hits > 0 {
        RelabelKeepsIndex(p, slots, Swept(p, slots, t, delta));
      } else {
        ReclaimKeepsIndex(p, slots, t);
      }
    }
  }

  /** The visit moves every slot on within `SlotSwept`. */
  lemma SweptSlots(p: Probe, before: seq<Slot>, slots: seq<Slot>, t: nat, delta: int, s: nat, v: nat)
    requires |before| == |slots| && t < |slots| && s < |slots| && delta >= 1
    requires SlotSwept(before[s], slots[s], v)
    ensures SlotSwept(before[s], Swept(p, slots, t, delta)[s], if s == t then v + 1 else v)
  {
  }
}
