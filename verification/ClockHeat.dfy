/**
 A cache built and used as any caller may, whose eviction should draw a greater decrement, to make
 hits decay faster, and does not.
 */
module ClockHeat {
  import opened Walk
  import opened MetaWord
  import opened ClockTable
  import opened ClockMachine
  import opened ClockIndex
  import opened ClockSweep
  import opened ClockDecrement
  import opened ClockObject

  const LENGTH: nat := 8192
  /** Entries that are looked up, and places for one more. */
  const HOT: nat := 6
  const PLACES: nat := 7
  /** The slot of the entry that is hidden: the hand comes to it in the round that uses the sum. */
  const HIDDEN: nat := FIRST_USE

  /** An entry whose walk begins at slot `t`. */
  function HotEntry(t: nat): (h: Handle)
    requires t < LENGTH
    ensures First(h.key, LENGTH) == t
  {
    Handle(1, false, Key(0, t), 1)
  }

  /** The first slots hold the entries for them with these hits, and the others are empty. */
  ghost predicate Warm(c: ClockCache, hits: seq<int>)
    reads c, c.slots
  {
    && c.Valid() && c.length == LENGTH && c.occupancyLimit == PLACES && PLACES < c.capacity && c.hitDecrDeltaMin == 1
    && c.clockPointer == 0 && c.hitDecrDelta == 1
    && c.usage == c.occupancy == |hits| <= HOT
    && (forall t: nat | t < |hits| :: c.slots[t].meta == Meta(0, hits[t], false, Visible) && c.slots[t].entry == HotEntry(t))
    && (forall t: nat | |hits| <= t < LENGTH :: c.slots[t].meta.state.Empty?)
  }

  lemma PlacedTotals(p: Probe, slots: seq<Slot>, t: nat, h: Handle)
    requires t < |slots| && slots[t].meta.state.Empty?
    ensures var after := slots[t := Slot(Published(), h, slots[t].displacements)];
            && SlotTotal(p, Charges, after) == SlotTotal(p, Charges, slots) + h.charge
            && SlotTotal(p, Residents, after) == SlotTotal(p, Residents, slots) + 1
  {
    var x := Slot(Published(), h, slots[t].displacements);
    SlotTotalUpdate(p, Charges, slots, t, x);
    SlotTotalUpdate(p, Residents, slots, t, x);
  }

  /** Inserts the next entry. */
  method AddEntry(c: ClockCache, ghost hits: seq<int>, t: nat)
    requires Warm(c, hits) && t == |hits| < HOT
    modifies c, c.slots
    ensures Warm(c, hits + [INIT_HIT_COUNT])
  {
    hide NewestFirst, IndexOk, SlotTotal, SlotWeight, AllHot, InsertedAt, AllCarried, Placeable, AllPinned, SlotSwept;
    ghost var before := c.slots[..];
    var h := HotEntry(t);
    assert c.probe.at(h.key, 0) == t && c.probe.index(h.key, t) == 0;
    PlacementStarts(c.probe, before, h.key);
    PlacedTotals(c.probe, before, t, h);
    ghost var swept;
    var ok;
    ok, swept := c.Insert(h);
    assert c.slots[..] == before[t := Slot(Published(), h, before[t].displacements)];
  }

  /** A lookup of entry `t` and its release leave it with one hit more. */
  method HeatEntry(c: ClockCache, ghost hits: seq<int>, t: nat)
    requires Warm(c, hits) && t < |hits| && 0 < hits[t] < MAX_HIT_COUNT
    modifies c.slots, c`loans
    ensures Warm(c, hits[t := hits[t] + 1])
  {
    hide NewestFirst, IndexOk, SlotTotal, SlotWeight;
    ghost var before := c.slots[..];
    var h := HotEntry(t);
    assert before[t].ShowsKey(h.key);
    assert forall u: nat | u < LENGTH && before[u].ShowsKey(h.key) :: u == t;
    var r := c.Lookup(h.key);
    assert r == t;
    c.Release(r);
  }

  function Same(n: nat, hits: int): (s: seq<int>) {
    seq(n, _ => hits)
  }

  method AddAll(c: ClockCache)
    requires Warm(c, [])
    modifies c, c.slots
    ensures Warm(c, Same(HOT, INIT_HIT_COUNT))
  {
    hide Warm;
    ghost var hits: seq<int> := [];
    for t := 0 to HOT
      invariant Warm(c, hits) && hits == Same(t, INIT_HIT_COUNT)
    {
      AddEntry(c, hits, t);
      hits := hits + [INIT_HIT_COUNT];
    }
  }

  /** Looks entry `t` up until it has all hits there are. */
  method Overheat(c: ClockCache, ghost hits: seq<int>, t: nat)
    requires Warm(c, hits) && t < |hits| && hits[t] == INIT_HIT_COUNT
    modifies c.slots, c`loans
    ensures Warm(c, hits[t := MAX_HIT_COUNT])
  {
    hide Warm;
    assert hits[t := INIT_HIT_COUNT] == hits;
    for n := INIT_HIT_COUNT to MAX_HIT_COUNT
      invariant Warm(c, hits[t := n])
    {
      HeatEntry(c, hits[t := n], t);
      assert hits[t := n][t := n + 1] == hits[t := n + 1];
    }
  }

  method OverheatAll(c: ClockCache)
    requires Warm(c, Same(HOT, INIT_HIT_COUNT))
    modifies c.slots, c`loans
    ensures Warm(c, Same(HOT, MAX_HIT_COUNT))
  {
    hide Warm;
    ghost var hits := Same(HOT, INIT_HIT_COUNT);
    for t := 0 to HOT
      invariant Warm(c, hits) && hits == Same(t, MAX_HIT_COUNT) + Same(HOT - t, INIT_HIT_COUNT)
    {
      Overheat(c, hits, t);
      hits := hits[t := MAX_HIT_COUNT];
    }
    assert hits == Same(HOT, MAX_HIT_COUNT);
  }

  /** A cache of 8192 slots with room for seven entries; six have been looked up until they have all hits there are. */
  method Overheated() returns (c: ClockCache)
    ensures fresh(c) && fresh(c.slots) && Warm(c, Same(HOT, MAX_HIT_COUNT))
  {
    assert IsPow2(LENGTH);
    c := new ClockCache(100, LENGTH, PLACES, 1);
    hide NewestFirst, IndexOk, SlotTotal, SlotWeight, IsPow2;
    AddAll(c);
    OverheatAll(c);
  }

  /** The six hot entries, and in slot 4996 an entry that is hidden and unpinned; the places are used up. */
  ghost predicate Primed(c: ClockCache, refs: int)
    reads c, c.slots
  {
    && c.Valid() && c.length == LENGTH && c.occupancyLimit == PLACES && PLACES < c.capacity && c.hitDecrDeltaMin == 1
    && c.clockPointer == 0 && c.hitDecrDelta == 1 && c.usage == c.occupancy == PLACES
    && (forall t: nat | t < HOT :: c.slots[t].meta == Meta(0, MAX_HIT_COUNT, false, Visible) && c.slots[t].entry == HotEntry(t))
    && c.slots[HIDDEN].entry == HotEntry(HIDDEN) && c.slots[HIDDEN].Resident() && c.slots[HIDDEN].meta.refs == refs
    && (forall t: nat | HOT <= t < LENGTH && t != HIDDEN :: c.slots[t].meta.state.Empty?)
  }

  method AddLast(c: ClockCache)
    requires Warm(c, Same(HOT, MAX_HIT_COUNT))
    modifies c, c.slots
    ensures Primed(c, 0) && c.slots[HIDDEN].meta.state.Visible?
  {
    hide NewestFirst, IndexOk, SlotTotal, SlotWeight, AllHot, InsertedAt, AllCarried, Placeable, AllPinned, SlotSwept;
    ghost var before := c.slots[..];
    var h := HotEntry(HIDDEN);
    assert c.probe.at(h.key, 0) == HIDDEN && c.probe.index(h.key, HIDDEN) == 0;
    PlacementStarts(c.probe, before, h.key);
    PlacedTotals(c.probe, before, HIDDEN, h);
    ghost var swept;
    var ok;
    ok, swept := c.Insert(h);
    assert c.slots[..] == before[HIDDEN := Slot(Published(), h, before[HIDDEN].displacements)];
  }

  method TakeLast(c: ClockCache) returns (r: int)
    requires Primed(c, 0) && c.slots[HIDDEN].meta.state.Visible?
    modifies c.slots, c`loans
    ensures Primed(c, 1) && c.slots[HIDDEN].meta.state.Visible? && r == HIDDEN
  {
    hide NewestFirst, IndexOk, SlotTotal, SlotWeight;
    ghost var before := c.slots[..];
    var h := HotEntry(HIDDEN);
    assert before[HIDDEN].ShowsKey(h.key);
    assert forall u: nat | u < LENGTH && before[u].ShowsKey(h.key) :: u == HIDDEN;
    r := c.Lookup(h.key);
    assert r == HIDDEN;
  }

  /** An erasure while the entry is on loan hides it. */
  method HideLast(c: ClockCache)
    requires Primed(c, 1) && c.slots[HIDDEN].meta.state.Visible?
    modifies c, c.slots
    ensures Primed(c, 1) && c.slots[HIDDEN].meta.state.Invisible? && c.loans == old(c.loans)
  {
    hide NewestFirst, IndexOk, SlotTotal, SlotWeight;
    ghost var held := c.slots[..];
    var ok := c.Erase(HotEntry(HIDDEN).key);
    assert forall t: nat | t < LENGTH :: SameResident(held[t], c.slots[t]);
    SameResidentsSameTotal(c.probe, Charges, held, c.slots[..]);
    SameResidentsSameTotal(c.probe, Residents, held, c.slots[..]);
  }

  method ReleaseLast(c: ClockCache)
    requires Primed(c, 1) && c.slots[HIDDEN].meta.state.Invisible?
    modifies c.slots, c`loans
    ensures Primed(c, 0) && c.slots[HIDDEN].meta.state.Invisible?
  {
    hide NewestFirst, IndexOk, SlotTotal, SlotWeight;
    assert SlotOk(c.slots[..][HIDDEN], c.loans[HIDDEN]);
    c.Release(HIDDEN);
  }

  method Prime() returns (c: ClockCache)
    ensures fresh(c) && fresh(c.slots) && Primed(c, 0) && c.slots[HIDDEN].meta.state.Invisible?
  {
    c := Overheated();
    hide Warm, Primed;
    AddLast(c);
    var r := TakeLast(c);
    HideLast(c);
    ReleaseLast(c);
  }

  /** What such a table means for the hand. */
  lemma PrimedSweep(p: Probe, slots: seq<Slot>)
    requires |slots| == LENGTH
    requires forall t: nat | t < HOT :: slots[t].meta == Meta(0, MAX_HIT_COUNT, false, Visible)
    requires forall t: nat | HOT <= t < LENGTH && t != HIDDEN :: slots[t].meta.state.Empty?
    requires slots[HIDDEN].meta.state.Invisible? && slots[HIDDEN].meta.refs == 0 && slots[HIDDEN].entry.charge == 1
    requires HitsBounded(slots)
    ensures var was, meant := EvictionOf(p, slots, 0, 1, 1, 1, false), EvictionOf(p, slots, 0, 1, 1, 1, true);
            was.at == meant.at == FIRST_USE && was.delta == 1 && meant.delta == 2
  {
    assert QuietAhead(slots, 0);
    assert Suffices(slots[HIDDEN % |slots|], 1);
    assert HotUnderHand(slots, 0, HOT);
    hide EvictionOf, QuietAhead, Suffices, HotUnderHand, CooledSum, IntendedSum, DeltaFor;
    EndsAtFirstUse(p, slots, 0, 1, 1, 1, HIDDEN);
    CooledIsIntended(p, slots, 0, FIRST_USE, 1);
    IntendedDeltaDiffers(slots, 0, HOT);
    StoredDeltaIff(p, slots, 0, 1, 1, 1);
  }

  /**
   One more insertion has to evict. The hand passes exactly 5000 positions and frees the hidden entry.
   The six hot entries give an average of 2, which is what the cache would store and keep for its next
   eviction if the sum were written; it stores 1.
   */
  method LosesAverage(c: ClockCache)
    requires Primed(c, 0) && c.slots[HIDDEN].meta.state.Invisible?
    modifies c, c.slots
    ensures c.Valid() && c.clockPointer == old(c.clockPointer) + 5000 && c.hitDecrDelta == 1
    ensures var meant := EvictionOf(c.probe, old(c.slots[..]), old(c.clockPointer), old(c.hitDecrDelta), 1, c.hitDecrDeltaMin, true);
            meant.at + STEP_SIZE == c.clockPointer && meant.delta == 2
  {
    hide NewestFirst, IndexOk, SlotTotal, SlotWeight, InsertedAt, AllCarried, Placeable, AllPinned, SlotSwept, AllHot;
    ghost var before := c.slots[..];
    assert HitsBounded(before) by {
      forall t: nat | t < LENGTH && before[t].meta.state.Visible? ensures before[t].meta.hits <= MAX_HIT_COUNT {
        assert SlotOk(before[t], c.loans[t]);
      }
    }
    PrimedSweep(c.probe, before);
    hide EvictionOf;
    ghost var swept;
    var ok;
    ok, swept := c.Insert(HotEntry(HOT));
  }
}
