/** The sweep of an eviction in the interleaved cache, when only its thread moves, is the eviction of the class. */
module ClockSoloSweep {
  import opened Sums
  import opened Walk
  import opened MetaWord
  import opened ClockTable
  import opened ClockMachine
  import opened ClockLedger
  import opened ClockSafety
  import opened ClockIndex
  import opened ClockSweep
  import opened ClockHand
  import ClockDecrement
  import ClockCalls
  import ClockSolo

  /** What the sweep of the class has made of the table after `i` slots of round `j`, with `delta` throughout. */
  ghost function Stage(p: Probe, before: seq<Slot>, at0: nat, delta: int, j: nat, i: nat): (s: Sweep)
    requires |before| > 0
    ensures |s.slots| == |before|
  {
    Passed(p, RoundStart(p, before, at0, delta, delta, j), i, false)
  }

  ghost predicate Matches(slots: seq<Slot>, s: seq<Slot>) {
    |slots| == |s| && forall t: nat | t < |s| :: SameContent(slots[t], s[t])
  }

  /** The same, but slot `t` has been taken and holds `x`. */
  ghost predicate Taken(slots: seq<Slot>, s: seq<Slot>, t: nat, x: Handle) {
    && |slots| == |s| && t < |s| && slots[t].meta.state.Construction? && slots[t].entry == x
    && forall u: nat | u < |s| && u != t :: SameContent(slots[u], s[u])
  }

  ghost predicate DataIs(e: Eviction, d: EvictionData) {
    e.freedCharge == d.freedCharge && e.freedCount == d.freedCount && e.pinned == d.seenPinned
  }

  /** The hand passes the entry, or cools it, or takes it. */
  ghost predicate Cools(a: Slot) {
    a.meta.state.Visible? && a.meta.refs == 0 && a.meta.hits > 0
  }

  ghost predicate Takes(a: Slot) {
    a.Resident() && a.meta.refs == 0 && !(a.meta.state.Visible? && a.meta.hits > 0)
  }

  /** The thread's slot of the current round. */
  ghost function Spot(before: seq<Slot>, at: int, i: nat): nat
    requires |before| > 0
  {
    (at + i) % |before|
  }

  ghost predicate PhaseOk(p: Probe, before: seq<Slot>, at0: nat, delta: int, j: nat, e: Eviction, phase: EvictPhase, slots: seq<Slot>)
    requires |before| > 0
  {
    match phase
    case EvictLoad(i) => i < 4 && Matches(slots, Stage(p, before, at0, delta, j, i).slots) && DataIs(e, Stage(p, before, at0, delta, j, i).data)
    case EvictDecay(i, seen) =>
      && i < 4 && Matches(slots, Stage(p, before, at0, delta, j, i).slots) && DataIs(e, Stage(p, before, at0, delta, j, i).data)
      && var a := Stage(p, before, at0, delta, j, i).slots[Spot(before, e.at, i)]; seen == a.meta && Cools(a)
    case EvictTake(i, seen) =>
      && i < 4 && Matches(slots, Stage(p, before, at0, delta, j, i).slots) && DataIs(e, Stage(p, before, at0, delta, j, i).data)
      && var a := Stage(p, before, at0, delta, j, i).slots[Spot(before, e.at, i)]; seen == a.meta && Takes(a)
    case EvictUnwind(i, x, t, _) =>
      && i < 4 && t == Spot(before, e.at, i) && Taken(slots, Stage(p, before, at0, delta, j, i).slots, t, x)
      && DataIs(e, Stage(p, before, at0, delta, j, i + 1).data)
      && var a := Stage(p, before, at0, delta, j, i).slots[t]; x == a.entry && Takes(a)
    case EvictFree(i, x, t) =>
      && i < 4 && t == Spot(before, e.at, i) && Taken(slots, Stage(p, before, at0, delta, j, i).slots, t, x)
      && DataIs(e, Stage(p, before, at0, delta, j, i + 1).data)
      && var a := Stage(p, before, at0, delta, j, i).slots[t]; x == a.entry && Takes(a)
    case EvictEmpty(i, t) =>
      && i < 4 && t == Spot(before, e.at, i)
      && DataIs(e, Stage(p, before, at0, delta, j, i + 1).data)
      && var a := Stage(p, before, at0, delta, j, i).slots[t]; Takes(a) && Taken(slots, Stage(p, before, at0, delta, j, i).slots, t, a.entry.FreeData())
    case EvictClock =>
      && Matches(slots, Stage(p, before, at0, delta, j, 4).slots) && DataIs(e, Stage(p, before, at0, delta, j, 4).data)
      && !Stops(Stage(p, before, at0, delta, j, 4), e.Request(), e.max)
    case SettleOccupancy =>
      && Matches(slots, Stage(p, before, at0, delta, j, 4).slots) && DataIs(e, Stage(p, before, at0, delta, j, 4).data)
      && Stops(Stage(p, before, at0, delta, j, 4), e.Request(), e.max)
    case _ => false
  }

  // ---- The stages, slot by slot ----

  lemma StageNext(p: Probe, before: seq<Slot>, at0: nat, delta: int, j: nat, i: nat)
    requires |before| > 0 && delta >= 1
    ensures var s, s' := Stage(p, before, at0, delta, j, i), Stage(p, before, at0, delta, j, i + 1);
            var t := Spot(before, at0 + 4 * j, i);
            && s'.slots == Swept(p, s.slots, t, delta) && s'.data == SweptData(s.slots[t], s.data) && s.at == s'.at == at0 + 4 * j
  {
    StartDelta(p, before, at0, delta, j);
    PassedLast(p, RoundStart(p, before, at0, delta, delta, j), i + 1, false);
    hide Passed, Swept, SweptData, CooledHits;
  }

  lemma {:induction false} StartDelta(p: Probe, before: seq<Slot>, at0: nat, delta: int, j: nat)
    requires |before| > 0 && delta >= 1
    ensures var s := RoundStart(p, before, at0, delta, delta, j); s.delta == delta && s.sum == 0
  {
    hide Visited;
    if j > 0 {
      StartDelta(p, before, at0, delta, j - 1);
      OnlyTheSum(p, RoundStart(p, before, at0, delta, delta, j - 1), 4);
      ClockDecrement.SmallSum(0, delta);
      hide Passed;
    }
  }

  /** What one visit does to the contents. */
  lemma SweptContents(p: Probe, slots: seq<Slot>, t: nat, delta: int)
    requires t < |slots| && delta >= 1
    ensures forall u: nat | u < |slots| && u != t :: SameContent(Swept(p, slots, t, delta)[u], slots[u])
    ensures var a, b := slots[t], Swept(p, slots, t, delta)[t];
            && (!a.Resident() || a.meta.refs > 0 ==> SameContent(b, a))
            && (Cools(a) ==> b.entry == a.entry && b.meta == Meta(0, Max(a.meta.hits - delta, 0), a.meta.hitBit, Visible))
            && (Takes(a) ==> b.entry == a.entry.FreeData() && b.meta == Vacant())
  {
  }

  lemma SweptCounts(a: Slot, d: EvictionData)
    ensures var d' := SweptData(a, d);
            && (!a.Resident() || Cools(a) ==> d' == d)
            && (a.Resident() && a.meta.refs > 0 ==> d' == d.(seenPinned := d.seenPinned + 1))
            && (Takes(a) ==> d' == d.(freedCharge := d.freedCharge + a.entry.charge, freedCount := d.freedCount + 1))
  {
  }

  // ---- One step ----

  /** The end of a slot: the next one, the next round, or the settlement. */
  lemma AfterSlotOk(p: Probe, before: seq<Slot>, at0: nat, delta: int, j: nat, e: Eviction, i: nat, slots: seq<Slot>)
    requires |before| > 0 && delta >= 1 && i < 4 && e.at == at0 + 4 * j
    requires Matches(slots, Stage(p, before, at0, delta, j, i + 1).slots) && DataIs(e, Stage(p, before, at0, delta, j, i + 1).data)
    ensures AfterSlot(e, i).Evicting? && AfterSlot(e, i).e == e && PhaseOk(p, before, at0, delta, j, e, AfterSlot(e, i).evict, slots)
  {
    StageNext(p, before, at0, delta, j, i);
    hide Stage, Matches;
  }

  lemma LoadOk(c: Config, before: seq<Slot>, at0: nat, delta: int, j: nat, e: Eviction, i: nat, slots: seq<Slot>, sh: Shared, ch: Choice)
    requires c.probe.length == |before| > 0 && delta >= 1 && e.at == at0 + 4 * j
    requires PhaseOk(c.probe, before, at0, delta, j, e, EvictLoad(i), slots)
    requires |slots| == |before| && sh.slot == slots[Spot(before, e.at, i)] && (sh.slot.Resident() ==> 0 <= sh.slot.meta.refs)
    ensures var f := ExecEvict(c, e, EvictLoad(i), sh, ch);
            && f.now == sh && f.pc.Evicting? && f.pc.e.at == e.at && f.pc.e.max == e.max && f.pc.e.Request() == e.Request()
            && PhaseOk(c.probe, before, at0, delta, j, f.pc.e, f.pc.evict, slots)
  {
    var t := Spot(before, e.at, i);
    var a := Stage(c.probe, before, at0, delta, j, i).slots[t];
    assert SameContent(slots[t], a);
    StageNext(c.probe, before, at0, delta, j, i);
    SweptContents(c.probe, Stage(c.probe, before, at0, delta, j, i).slots, t, delta);
    SweptCounts(a, Stage(c.probe, before, at0, delta, j, i).data);
    hide Stage, Swept, SweptData;
    if !a.Resident() {
      AfterSlotOk(c.probe, before, at0, delta, j, e, i, slots);
    } else if a.meta.refs > 0 {
      AfterSlotOk(c.probe, before, at0, delta, j, e.(pinned := e.pinned + 1), i, slots);
    }
  }

  lemma DecayOk(c: Config, before: seq<Slot>, at0: nat, delta: int, j: nat, e: Eviction, i: nat, seen: Meta, slots: seq<Slot>, sh: Shared, ch: Choice)
    requires c.probe.length == |before| > 0 && delta == ch.decay + 1 && e.at == at0 + 4 * j
    requires PhaseOk(c.probe, before, at0, delta, j, e, EvictDecay(i, seen), slots)
    requires |slots| == |before| && sh.slot == slots[Spot(before, e.at, i)]
    ensures var f := ExecEvict(c, e, EvictDecay(i, seen), sh, ch);
            && f.now == sh.(slot := f.now.slot) && f.pc.Evicting? && f.pc.e == e
            && PhaseOk(c.probe, before, at0, delta, j, e, f.pc.evict, slots[Spot(before, e.at, i) := f.now.slot])
  {
    var t := Spot(before, e.at, i);
    var a := Stage(c.probe, before, at0, delta, j, i).slots[t];
    assert SameContent(slots[t], a);
    StageNext(c.probe, before, at0, delta, j, i);
    SweptContents(c.probe, Stage(c.probe, before, at0, delta, j, i).slots, t, delta);
    SweptCounts(a, Stage(c.probe, before, at0, delta, j, i).data);
    hide Stage, Swept, SweptData;
    AfterSlotOk(c.probe, before, at0, delta, j, e, i, slots[t := ExecEvict(c, e, EvictDecay(i, seen), sh, ch).now.slot]);
  }

  lemma TakeOk(c: Config, before: seq<Slot>, at0: nat, delta: int, j: nat, e: Eviction, i: nat, seen: Meta, slots: seq<Slot>, sh: Shared, ch: Choice)
    requires c.probe.length == |before| > 0 && delta >= 1 && e.at == at0 + 4 * j
    requires PhaseOk(c.probe, before, at0, delta, j, e, EvictTake(i, seen), slots)
    requires |slots| == |before| && sh.slot == slots[Spot(before, e.at, i)]
    ensures var f := ExecEvict(c, e, EvictTake(i, seen), sh, ch);
            && f.now == sh.(slot := f.now.slot) && f.pc.Evicting? && f.pc.e.at == e.at && f.pc.e.max == e.max && f.pc.e.Request() == e.Request()
            && PhaseOk(c.probe, before, at0, delta, j, f.pc.e, f.pc.evict, slots[Spot(before, e.at, i) := f.now.slot])
  {
    var t := Spot(before, e.at, i);
    var a := Stage(c.probe, before, at0, delta, j, i).slots[t];
    assert SameContent(slots[t], a);
    StageNext(c.probe, before, at0, delta, j, i);
    SweptCounts(a, Stage(c.probe, before, at0, delta, j, i).data);
    hide Stage, Swept, SweptData;
  }

  lemma UnwindOk(c: Config, before: seq<Slot>, at0: nat, delta: int, j: nat, e: Eviction, phase: EvictPhase, slots: seq<Slot>, u: nat, sh: Shared, ch: Choice)
    requires c.probe.length == |before| > 0 && delta >= 1 && e.at == at0 + 4 * j && |slots| == |before| && u < |slots| && sh.slot == slots[u]
    requires phase.EvictUnwind? && PhaseOk(c.probe, before, at0, delta, j, e, phase, slots)
    ensures var f := ExecEvict(c, e, phase, sh, ch);
            && f.now == sh.(slot := f.now.slot) && f.pc.Evicting? && f.pc.e == e
            && PhaseOk(c.probe, before, at0, delta, j, e, f.pc.evict, slots[u := f.now.slot])
  {
    hide Stage, Takes, DataIs;
  }

  lemma FreeOk(c: Config, before: seq<Slot>, at0: nat, delta: int, j: nat, e: Eviction, phase: EvictPhase, slots: seq<Slot>, sh: Shared, ch: Choice)
    requires c.probe.length == |before| > 0 && delta >= 1 && e.at == at0 + 4 * j && |slots| == |before|
    requires phase.EvictFree? && phase.t < |slots| && sh.slot == slots[phase.t] && PhaseOk(c.probe, before, at0, delta, j, e, phase, slots)
    ensures var f := ExecEvict(c, e, phase, sh, ch);
            && f.now == sh.(slot := f.now.slot) && f.pc.Evicting? && f.pc.e == e
            && PhaseOk(c.probe, before, at0, delta, j, e, f.pc.evict, slots[phase.t := f.now.slot])
  {
    hide Stage, Takes, DataIs;
  }

  lemma EmptyOk(c: Config, before: seq<Slot>, at0: nat, delta: int, j: nat, e: Eviction, phase: EvictPhase, slots: seq<Slot>, sh: Shared, ch: Choice)
    requires c.probe.length == |before| > 0 && delta >= 1 && e.at == at0 + 4 * j && |slots| == |before|
    requires phase.EvictEmpty? && phase.t < |slots| && sh.slot == slots[phase.t] && PhaseOk(c.probe, before, at0, delta, j, e, phase, slots)
    ensures var f := ExecEvict(c, e, phase, sh, ch);
            && f.now == sh.(slot := f.now.slot) && f.pc.Evicting? && f.pc.e == e
            && PhaseOk(c.probe, before, at0, delta, j, e, f.pc.evict, slots[phase.t := f.now.slot])
  {
    var t, i := phase.t, phase.i;
    StageNext(c.probe, before, at0, delta, j, i);
    SweptContents(c.probe, Stage(c.probe, before, at0, delta, j, i).slots, t, delta);
    hide Stage, Swept, SweptData;
    AfterSlotOk(c.probe, before, at0, delta, j, e, i, slots[t := ExecEvict(c, e, phase, sh, ch).now.slot]);
  }

  lemma ClockOk(c: Config, before: seq<Slot>, at0: nat, delta: int, j: nat, e: Eviction, slots: seq<Slot>, sh: Shared, ch: Choice)
    requires c.probe.length == |before| > 0 && delta >= 1 && e.at == at0 + 4 * j && sh.clock == e.at + 4
    requires PhaseOk(c.probe, before, at0, delta, j, e, EvictClock, slots)
    ensures var f := ExecEvict(c, e, EvictClock, sh, ch);
            && f.now == sh.(clock := sh.clock + 4) && f.pc == Evicting(e.(at := at0 + 4 * (j + 1)), EvictLoad(0))
            && PhaseOk(c.probe, before, at0, delta, j + 1, f.pc.e, EvictLoad(0), slots)
  {
    PassedNone(c.probe, RoundStart(c.probe, before, at0, delta, delta, j + 1), false);
    hide Passed, Matches;
  }

  // ---- The whole sweep ----

  /** The sweep of thread `id`, in its round `j`. */
  ghost predicate SoloSweep(c: Config, before: seq<Slot>, at0: nat, delta: int, w: World, id: nat, j: nat)
    requires Shape(c, w) && |before| > 0
  {
    && |before| == |w.slots| && id < |w.threads| && w.threads[id].Evicting?
    && var e, phase := w.threads[id].e, w.threads[id].evict;
       && e.at == at0 + 4 * j && e.max == at0 + MAX_COUNTDOWN * |before| && w.clock == e.at + 4
       && PhaseOk(c.probe, before, at0, delta, j, e, phase, w.slots)
       && EvictionFrom(c.probe, RoundStart(c.probe, before, at0, delta, delta, j), e.Request(), e.max, delta, false)
          == EvictionOf(c.probe, before, at0, delta, e.Request(), delta, false)
  }

  lemma RoundGoesOn(p: Probe, before: seq<Slot>, at0: nat, delta: int, j: nat, requested: int, max: nat)
    requires |before| > 0
    ensures var s := Stage(p, before, at0, delta, j, 4);
            EvictionFrom(p, RoundStart(p, before, at0, delta, delta, j), requested, max, delta, false) ==
            if Stops(s, requested, max) then s else EvictionFrom(p, RoundStart(p, before, at0, delta, delta, j + 1), requested, max, delta, false)
  {
    EvictionRound(p, RoundStart(p, before, at0, delta, delta, j), requested, max, delta, false);
    hide Passed, EvictionFrom, Stops;
  }

  /** The facts about one step of a sweep that all slots share. */
  lemma EvictApplies(c: Config, w: World, id: nat, ch: Choice)
    requires Inv(c, w) && id < |w.threads| && w.threads[id].Evicting?
    ensures var pc := w.threads[id]; var t := Target(c, pc, ch);
            && c.Valid() && t < c.probe.length == |w.slots| == |w.loans| && (w.slots[t].Resident() ==> 0 <= w.slots[t].meta.refs)
            && Step(c, w, id, ch) == Apply(w, id, t, ExecEvict(c, pc.e, pc.evict, See(w, t), ch))
            && CleanStep(c, w, id, ch)
  {
    var pc := w.threads[id];
    assert PcOk(c, pc);
    TargetInRange(c, pc, ch);
    InvGivesLocalPre(c, w, id, Target(c, pc, ch));
    hide Inv, ExecEvict;
  }

  /** One step within a round, whatever its phase. */
  lemma WithinRound(c: Config, before: seq<Slot>, at0: nat, delta: int, j: nat, e: Eviction, phase: EvictPhase, slots: seq<Slot>, u: nat, sh: Shared, ch: Choice)
    requires c.probe.length == |before| == |slots| > 0 && delta == ch.decay + 1 && e.at == at0 + 4 * j && u < |slots| && sh.slot == slots[u]
    requires u == EvictAccess(c, e, phase) && (sh.slot.Resident() ==> 0 <= sh.slot.meta.refs)
    requires !phase.EvictClock? && !phase.SettleOccupancy? && PhaseOk(c.probe, before, at0, delta, j, e, phase, slots)
    ensures var f := ExecEvict(c, e, phase, sh, ch);
            && f.now == sh.(slot := f.now.slot) && f.pc.Evicting? && f.pc.e.at == e.at && f.pc.e.max == e.max && f.pc.e.Request() == e.Request()
            && PhaseOk(c.probe, before, at0, delta, j, f.pc.e, f.pc.evict, slots[u := f.now.slot])
  {
    PhasePlace(c, before, at0, delta, j, e, phase, slots);
    hide PhaseOk, ExecEvict, Eviction.Request;
    match phase
    case EvictLoad(i) =>
      LoadOk(c, before, at0, delta, j, e, i, slots, sh, ch);
      assert slots[u := slots[u]] == slots;
    case EvictDecay(i, seen) => DecayOk(c, before, at0, delta, j, e, i, seen, slots, sh, ch);
    case EvictTake(i, seen) => TakeOk(c, before, at0, delta, j, e, i, seen, slots, sh, ch);
    case EvictUnwind(_, _, _, _) => UnwindOk(c, before, at0, delta, j, e, phase, slots, u, sh, ch);
    case EvictFree(_, _, _) => FreeOk(c, before, at0, delta, j, e, phase, slots, sh, ch);
    case EvictEmpty(_, _) => EmptyOk(c, before, at0, delta, j, e, phase, slots, sh, ch);
  }

  /** Which slot a phase is at. */
  lemma PhasePlace(c: Config, before: seq<Slot>, at0: nat, delta: int, j: nat, e: Eviction, phase: EvictPhase, slots: seq<Slot>)
    requires c.probe.length == |before| > 0 && PhaseOk(c.probe, before, at0, delta, j, e, phase, slots)
    ensures !phase.EvictStart? && !phase.SettleUsage?
    ensures phase.EvictLoad? || phase.EvictDecay? || phase.EvictTake? ==> EvictAccess(c, e, phase) == Spot(before, e.at, phase.i)
    ensures phase.EvictFree? || phase.EvictEmpty? ==> EvictAccess(c, e, phase) == phase.t
  {
    hide Stage, Matches, Taken, DataIs, Takes, Cools, Stops;
  }

  lemma SoloSweepOpens(c: Config, before: seq<Slot>, at0: nat, delta: int, w: World, id: nat, j: nat)
    requires Shape(c, w) && |before| > 0 && SoloSweep(c, before, at0, delta, w, id, j)
    ensures |before| == |w.slots| == c.probe.length && id < |w.threads| && w.threads[id].Evicting?
    ensures var e := w.threads[id].e;
            && e.at == at0 + 4 * j && e.max == at0 + MAX_COUNTDOWN * |before| && w.clock == e.at + 4
            && PhaseOk(c.probe, before, at0, delta, j, e, w.threads[id].evict, w.slots)
  {
    hide PhaseOk, EvictionFrom, EvictionOf, RoundStart;
  }

  lemma SoloSweepCloses(c: Config, before: seq<Slot>, at0: nat, delta: int, w: World, w': World, id: nat, j: nat)
    requires Shape(c, w) && Shape(c, w') && |before| > 0 && SoloSweep(c, before, at0, delta, w, id, j) && |before| == |w'.slots| && id < |w'.threads|
    requires w'.clock == w.clock && w'.threads[id].Evicting?
    requires var e, e' := w.threads[id].e, w'.threads[id].e; e'.at == e.at && e'.max == e.max && e'.Request() == e.Request()
    requires PhaseOk(c.probe, before, at0, delta, j, w'.threads[id].e, w'.threads[id].evict, w'.slots)
    ensures SoloSweep(c, before, at0, delta, w', id, j)
  {
    hide PhaseOk, EvictionFrom, EvictionOf, RoundStart, Eviction.Request;
  }

  /** The step of a sweep that nobody disturbs. */
  lemma SoloSweepStep(c: Config, before: seq<Slot>, at0: nat, delta: int, w: World, id: nat, j: nat, ch: Choice) returns (j': nat)
    requires Inv(c, w) && Shape(c, w) && |before| > 0 && SoloSweep(c, before, at0, delta, w, id, j) && delta == ch.decay + 1
    requires id < |w.threads| && w.threads[id].Evicting? && !w.threads[id].evict.SettleOccupancy?
    ensures SoloSweep(c, before, at0, delta, Step(c, w, id, ch), id, j')
    ensures Step(c, w, id, ch).threads[id].Evicting? && Step(c, w, id, ch).threads[id].e.Request() == w.threads[id].e.Request()
  {
    hide Inv, CleanStep, PhaseOk, ExecEvict, SoloSweep, Eviction.Request;
    SoloSweepOpens(c, before, at0, delta, w, id, j);
    var pc := w.threads[id];
    var u := Target(c, pc, ch);
    EvictApplies(c, w, id, ch);
    if pc.evict.EvictClock? {
      j' := j + 1;
      ClockStepOk(c, before, at0, delta, w, id, j, ch);
    } else {
      j' := j;
      WithinRound(c, before, at0, delta, j, pc.e, pc.evict, w.slots, u, See(w, u), ch);
      hide Step;
      SoloSweepCloses(c, before, at0, delta, w, Step(c, w, id, ch), id, j);
    }
  }

  lemma ClockStepOk(c: Config, before: seq<Slot>, at0: nat, delta: int, w: World, id: nat, j: nat, ch: Choice)
    requires Shape(c, w) && |before| > 0 && SoloSweep(c, before, at0, delta, w, id, j) && delta >= 1
    requires id < |w.threads| && w.threads[id].Evicting? && w.threads[id].evict.EvictClock?
    requires var t := Target(c, w.threads[id], ch); t < |w.slots| == |w.loans| && Step(c, w, id, ch) == Apply(w, id, t, ExecEvict(c, w.threads[id].e, EvictClock, See(w, t), ch))
    ensures SoloSweep(c, before, at0, delta, Step(c, w, id, ch), id, j + 1)
    ensures Step(c, w, id, ch).threads[id].Evicting? && Step(c, w, id, ch).threads[id].e.Request() == w.threads[id].e.Request()
  {
    var e, t := w.threads[id].e, Target(c, w.threads[id], ch);
    NotStopped(c.probe, before, at0, delta, j, e, w.slots);
    hide PhaseOk, EvictionFrom, EvictionOf, RoundStart;
    ClockOk(c, before, at0, delta, j, e, w.slots, See(w, t), ch);
    RoundGoesOn(c.probe, before, at0, delta, j, e.Request(), e.max);
    hide ExecEvict, Step;
    assert w.slots[t := w.slots[t]] == w.slots;
  }

  lemma NotStopped(p: Probe, before: seq<Slot>, at0: nat, delta: int, j: nat, e: Eviction, slots: seq<Slot>)
    requires |before| > 0 && PhaseOk(p, before, at0, delta, j, e, EvictClock, slots)
    ensures !Stops(Stage(p, before, at0, delta, j, 4), e.Request(), e.max)
  {
  }

  ghost predicate FreshEviction(e: Eviction) {
    e.freedCharge == 0 && e.freedCount == 0 && e.pinned == 0
  }

  lemma StartsOk(p: Probe, before: seq<Slot>, at0: nat, delta: int, e: Eviction)
    requires |before| > 0 && FreshEviction(e)
    ensures PhaseOk(p, before, at0, delta, 0, e, EvictLoad(0), before)
  {
    PassedNone(p, Begun(before, at0, delta), false);
    hide Passed;
  }

  lemma SoloSweepStarts(c: Config, w: World, id: nat, delta: int, ch: Choice)
    requires Inv(c, w) && Shape(c, w) && id < |w.threads| && w.threads[id].Evicting? && w.threads[id].evict.EvictStart?
    requires FreshEviction(w.threads[id].e) && delta >= 1
    ensures |w.slots| > 0 && SoloSweep(c, w.slots, w.clock, delta, Step(c, w, id, ch), id, 0)
    ensures Step(c, w, id, ch).threads[id].e.Request() == w.threads[id].e.Request()
  {
    hide Inv, CleanStep, PhaseOk, EvictionFrom;
    var e, t := w.threads[id].e, Target(c, w.threads[id], ch);
    EvictApplies(c, w, id, ch);
    assert w.slots[t := w.slots[t]] == w.slots;
    hide Step;
    StartsOk(c.probe, w.slots, w.clock, delta, e.(at := w.clock, max := w.clock + MAX_COUNTDOWN * c.probe.length));
  }

  /** What a sweep comes to: the table, the freed charge and entries, and the hand of the class's eviction. */
  ghost predicate SweptAs(c: Config, before: seq<Slot>, at0: nat, delta: int, w: World, e: Eviction)
    requires |before| > 0
  {
    var end := EvictionOf(c.probe, before, at0, delta, e.Request(), delta, false);
    Matches(w.slots, end.slots) && DataIs(e, end.data) && w.clock == end.at + 4
  }

  lemma SoloSweepEnds(c: Config, before: seq<Slot>, at0: nat, delta: int, w: World, id: nat, j: nat)
    requires Shape(c, w) && |before| > 0 && SoloSweep(c, before, at0, delta, w, id, j) && delta >= 1
    requires w.threads[id].evict.SettleOccupancy?
    ensures SweptAs(c, before, at0, delta, w, w.threads[id].e)
  {
    var e := w.threads[id].e;
    StageNext(c.probe, before, at0, delta, j, 3);
    RoundGoesOn(c.probe, before, at0, delta, j, e.Request(), e.max);
    hide EvictionFrom, EvictionOf, Stage, Matches, Stops, RoundStart, Eviction.Request;
  }
}
