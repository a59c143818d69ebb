/** The slot array of the CLOCK cache and the weights its ledgers are made of. */
module ClockTable {
  import opened Sums
  import opened Walk
  import opened MetaWord

  /** An eviction looks at this many slots at a time, and at the whole table at most this many times. */
  const STEP_SIZE: nat := 4
  const MAX_COUNTDOWN: nat := 3
  /** It gives up after this many pinned entries for each entry it has freed, and one more. */
  const EFFORT_CAP: nat := 30
  /** Positions after which the decrement of hit counters is drawn anew. */
  const DECR_HIT_PER_ENTRY_COUNT: nat := 5000

  /** What a caller inserts. A `value` of 0 is the null pointer. */
  datatype Handle = Handle(value: nat, hasDeleter: bool, key: Key, charge: nat) {
    /** Freeing this handle runs the deleter. */
    predicate Deletes() {
      hasDeleter && value != 0
    }

    function FreeData(): Handle {
      if Deletes() then this.(value := 0) else this
    }
  }

  datatype Slot = Slot(meta: Meta, entry: Handle, displacements: int) {
    predicate Resident() {
      meta.Shareable()
    }

    predicate ShowsKey(k: Key) {
      meta.state.Visible? && entry.key == k
    }
  }

  /** The quantities accounted for. The last two are carried by threads only. */
  datatype Query =
    | Passing(slot: nat)
    | Charges
    | Residents
    | Values(value: nat)
    | Owners(slot: nat)
    | Holders(slot: nat)

  /** Slot `s` lies on the probe path of `k` at a position in `[lo, hi)`. */
  ghost predicate OnPath(p: Probe, k: Key, lo: nat, hi: nat, s: nat) {
    lo <= p.index(k, s) < hi
  }

  /** What slot number `t` contributes; only a resident entry contributes anything. */
  ghost function SlotWeight(p: Probe, q: Query, t: nat, slot: Slot): int {
    if !slot.Resident() then 0 else
      match q
      case Passing(s) => One(OnPath(p, slot.entry.key, 0, p.index(slot.entry.key, t), s))
      case Charges => slot.entry.charge
      case Residents => 1
      case Values(v) => One(slot.entry.Deletes() && slot.entry.value == v)
      case Owners(_) => 0
      case Holders(_) => 0
  }

  ghost function SlotWeights(p: Probe, q: Query, slots: seq<Slot>): (ws: seq<int>)
    ensures |ws| == |slots|
  {
    seq(|slots|, t requires 0 <= t < |slots| => SlotWeight(p, q, t, slots[t]))
  }

  ghost function SlotTotal(p: Probe, q: Query, slots: seq<Slot>): int {
    Sum(SlotWeights(p, q, slots))
  }

  lemma SlotTotalUpdate(p: Probe, q: Query, slots: seq<Slot>, t: nat, x: Slot)
    requires t < |slots|
    ensures SlotTotal(p, q, slots[t := x]) == SlotTotal(p, q, slots) - SlotWeight(p, q, t, slots[t]) + SlotWeight(p, q, t, x)
  {
    var ws := SlotWeights(p, q, slots);
    assert SlotWeights(p, q, slots[t := x]) == ws[t := SlotWeight(p, q, t, x)];
    SumUpdate(ws, t, SlotWeight(p, q, t, x));
  }

  lemma SlotTotalNonNegative(p: Probe, q: Query, slots: seq<Slot>)
    ensures NonNegative(SlotWeights(p, q, slots)) && 0 <= SlotTotal(p, q, slots)
  {
    SumNonNegative(SlotWeights(p, q, slots));
  }

  lemma SlotTotalAtLeast(p: Probe, q: Query, slots: seq<Slot>, t: nat)
    requires t < |slots|
    ensures SlotWeight(p, q, t, slots[t]) <= SlotTotal(p, q, slots)
  {
    SlotTotalNonNegative(p, q, slots);
    SumAtLeast(SlotWeights(p, q, slots), t);
  }

  /** A table without residents accounts for nothing. */
  lemma SlotTotalEmpty(p: Probe, q: Query, slots: seq<Slot>)
    requires forall t | 0 <= t < |slots| :: !slots[t].Resident()
    ensures SlotTotal(p, q, slots) == 0
  {
    SumZero(SlotWeights(p, q, slots));
  }

  /**
   The accounts of a table at rest: no slot is under construction, each displacement counter is the
   number of residents probing past its slot, every reference is a loan, and `usage` and
   `occupancy` are the totals over the residents.
   */
  ghost predicate Settled(p: Probe, slots: seq<Slot>, loans: seq<int>, usage: int, occupancy: int) {
    && |slots| == |loans| == p.length
    && (forall s: nat | s < |slots| :: slots[s].displacements == SlotTotal(p, Passing(s), slots))
    && (forall t: nat | t < |slots| :: SlotAtRest(slots[t], loans[t]))
    && usage == SlotTotal(p, Charges, slots)
    && occupancy == SlotTotal(p, Residents, slots)
  }

  ghost predicate SlotAtRest(slot: Slot, loan: int) {
    && !slot.meta.state.Construction?
    && (if slot.Resident() then 0 <= loan == slot.meta.refs else loan == 0 <= slot.meta.refs)
  }
}
