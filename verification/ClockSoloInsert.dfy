/**
 A whole insertion of the interleaved cache, when only its thread moves: reservation, eviction, settlement,
 placement, erasure and second placement together do what Insert does in the class.
 */
module ClockSoloInsert {
  import opened Sums
  import opened Walk
  import opened MetaWord
  import opened ClockTable
  import opened ClockMachine
  import opened ClockLedger
  import opened ClockSafety
  import opened ClockIndex
  import opened ClockSweep
  import ClockCalls
  import ClockObject
  import ClockSolo
  import opened ClockSoloSweep
  import opened ClockSoloPlace

  // ---- What the insertion comes to, from the state it begins in ----

  /** What the insertion evicts with, if it evicts. */
  ghost function Plan(c: Config, w0: World, h: Handle): Eviction {
    Eviction(h, w0.occupancy + 1 > c.limit, w0.usage, Min(c.capacity, w0.usage + h.charge), 0, 0, 0, 0, 0)
  }

  ghost predicate Evicts(c: Config, w0: World, h: Handle) {
    Plan(c, w0, h).Request() > 0
  }

  ghost function Eviction1(c: Config, w0: World, h: Handle, delta: int): Sweep
    requires |w0.slots| > 0
  {
    EvictionOf(c.probe, w0.slots, w0.clock, delta, Plan(c, w0, h).Request(), delta, false)
  }

  /** The table after the eviction, if there is one. */
  ghost function Table1(c: Config, w0: World, h: Handle, delta: int): seq<Slot>
    requires |w0.slots| > 0
  {
    if Evicts(c, w0, h) then Eviction1(c, w0, h, delta).slots else w0.slots
  }

  /** The eviction has not freed what is short: charge, or at least one place. */
  ghost predicate FallsShort(c: Config, w0: World, h: Handle, delta: int)
    requires |w0.slots| > 0
  {
    Evicts(c, w0, h) &&
    var d, e := Eviction1(c, w0, h, delta).data, Plan(c, w0, h);
    d.freedCharge < e.Need() || (d.freedCharge == e.Need() && e.crowded && d.freedCount == 0)
  }

  /** The table after the copies of the key are erased as well. */
  ghost function Table2(c: Config, w0: World, h: Handle, delta: int): (s: seq<Slot>)
    requires |w0.slots| > 0
    ensures |s| == |Table1(c, w0, h, delta)|
  {
    var s := Table1(c, w0, h, delta);
    seq(|s|, t requires 0 <= t < |s| => ClockObject.AfterErase(h.key, s[t]))
  }

  /** A copy of the key comes before every empty slot of the path. */
  ghost predicate CopyComesFirst(p: Probe, base: seq<Slot>, k: Key) {
    exists t: nat :: t < |base| && base[t].ShowsKey(k) && Passable(p, base, k, p.index(k, t))
  }

  /** `h` sits in the first empty slot of the path on the table `base`, before any copy; all else is as it was there. */
  ghost predicate PlacedOn(p: Probe, base: seq<Slot>, h: Handle, after: seq<Slot>) {
    exists t: nat :: t < |base| && base[t].meta.state.Empty? && Passable(p, base, h.key, p.index(h.key, t)) && MatchesBut(after, base, t, Published(), h)
  }

  /** The end of a successful insertion. */
  ghost predicate Succeeded(c: Config, w0: World, h: Handle, delta: int, after: seq<Slot>)
    requires |w0.slots| > 0
  {
    && !FallsShort(c, w0, h, delta)
    && (|| PlacedOn(c.probe, Table1(c, w0, h, delta), h, after)
        || (CopyComesFirst(c.probe, Table1(c, w0, h, delta), h.key) && ClockSolo.EraseSucceeds(Table1(c, w0, h, delta), h.key)
            && PlacedOn(c.probe, Table2(c, w0, h, delta), h, after)))
  }

  /** The end of a failed one: it does not fit, or the table is full without a copy, or every copy was pinned and is hidden now. */
  ghost predicate Failed(c: Config, w0: World, h: Handle, delta: int, after: seq<Slot>)
    requires |w0.slots| > 0
  {
    || (FallsShort(c, w0, h, delta) && Matches(after, Table1(c, w0, h, delta)))
    || (!FallsShort(c, w0, h, delta) && Passable(c.probe, Table1(c, w0, h, delta), h.key, c.probe.length) && Matches(after, Table1(c, w0, h, delta)))
    || (!FallsShort(c, w0, h, delta) && CopyComesFirst(c.probe, Table1(c, w0, h, delta), h.key)
        && !ClockSolo.EraseSucceeds(Table1(c, w0, h, delta), h.key) && Matches(after, Table2(c, w0, h, delta)))
  }

  // ---- Where the insertion stands ----

  ghost predicate SameTerms(e: Eviction, plan: Eviction) {
    e.h == plan.h && e.crowded == plan.crowded && e.oldUsage == plan.oldUsage && e.newUsage == plan.newUsage
  }

  ghost predicate ReserveState(c: Config, w0: World, w: World, h: Handle, h': Handle, phase: ReservePhase) {
    && h' == h && w.slots == w0.slots && w.clock == w0.clock && w.usage == w0.usage
    && match phase
       case InsertOccupy => w.occupancy == w0.occupancy
       case ChargeLoad(crowded) => crowded == Plan(c, w0, h).crowded
       case ChargeCas(crowded, was) => crowded == Plan(c, w0, h).crowded && was == w0.usage && Plan(c, w0, h).newUsage != w0.usage
  }

  ghost predicate EvictState(c: Config, w0: World, w: World, id: nat, h: Handle, delta: int, e: Eviction, phase: EvictPhase)
    requires Shape(c, w) && |w0.slots| > 0
  {
    && Evicts(c, w0, h) && SameTerms(e, Plan(c, w0, h))
    && (if phase.EvictStart? then FreshEviction(e) && w.slots == w0.slots && w.clock == w0.clock
        else if phase.SettleUsage? then
          Matches(w.slots, Eviction1(c, w0, h, delta).slots) && DataIs(e, Eviction1(c, w0, h, delta).data)
        else exists j: nat :: SoloSweep(c, w0.slots, w0.clock, delta, w, id, j))
  }

  ghost predicate PlaceState(c: Config, w0: World, w: World, h: Handle, delta: int, pc: Pc)
    requires |w0.slots| > 0 && pc.Placing?
  {
    && pc.h == h && !FallsShort(c, w0, h, delta) && pc.n < c.probe.length
    && (if pc.again then
          CopyComesFirst(c.probe, Table1(c, w0, h, delta), h.key) && ClockSolo.EraseSucceeds(Table1(c, w0, h, delta), h.key)
          && PlaceOk(c.probe, Table2(c, w0, h, delta), h, pc.n, pc.place, w.slots, c.probe.at(h.key, pc.n))
        else
          PlaceOk(c.probe, Table1(c, w0, h, delta), h, pc.n, pc.place, w.slots, c.probe.at(h.key, pc.n)))
  }

  ghost predicate HuntState(c: Config, w0: World, w: World, id: nat, h: Handle, delta: int)
    requires Shape(c, w) && |w0.slots| > 0 && id < |w.threads| && w.threads[id].Hunting?
  {
    && w.threads[id].er.why == ForInsert(h) && !FallsShort(c, w0, h, delta)
    && CopyComesFirst(c.probe, Table1(c, w0, h, delta), h.key)
    && ClockSolo.RefsNatural(Table1(c, w0, h, delta))
    && ClockSolo.SoloErase(c, Table1(c, w0, h, delta), w, id, h.key)
  }

  /** The insertion of `h` by thread `id`, begun in `w0`, has come as far as its program counter says. */
  ghost predicate SoloInsert(c: Config, w0: World, w: World, id: nat, h: Handle, delta: int)
    requires Shape(c, w) && |w0.slots| > 0
  {
    && id < |w.threads|
    && match w.threads[id]
       case Reserving(h', phase) => ReserveState(c, w0, w, h, h', phase)
       case Evicting(e, phase) => EvictState(c, w0, w, id, h, delta, e, phase)
       case Placing(_, _, _, _) => PlaceState(c, w0, w, h, delta, w.threads[id])
       case Hunting(_, _, _) => HuntState(c, w0, w, id, h, delta)
       case Failing(h', _) => h' == h && Failed(c, w0, h, delta, w.slots)
       case Done(result) =>
         || (result == Inserted(true) && Succeeded(c, w0, h, delta, w.slots))
         || (result == Inserted(false) && Failed(c, w0, h, delta, w.slots))
       case _ => false
  }

  lemma AtPlacing(c: Config, w0: World, w: World, id: nat, h: Handle, delta: int)
    requires Shape(c, w) && |w0.slots| > 0 && id < |w.threads| && w.threads[id].Placing?
    ensures SoloInsert(c, w0, w, id, h, delta) <==> PlaceState(c, w0, w, h, delta, w.threads[id])
  {
    hide PlaceState;
  }

  lemma AtHunting(c: Config, w0: World, w: World, id: nat, h: Handle, delta: int)
    requires Shape(c, w) && |w0.slots| > 0 && id < |w.threads| && w.threads[id].Hunting?
    ensures SoloInsert(c, w0, w, id, h, delta) <==> HuntState(c, w0, w, id, h, delta)
  {
    hide HuntState;
  }

  lemma AtEnd(c: Config, w0: World, w: World, id: nat, h: Handle, delta: int)
    requires Shape(c, w) && |w0.slots| > 0 && id < |w.threads|
    ensures w.threads[id].Failing? ==> (SoloInsert(c, w0, w, id, h, delta) <==> w.threads[id].h == h && Failed(c, w0, h, delta, w.slots))
    ensures w.threads[id] == Done(Inserted(true)) ==> (SoloInsert(c, w0, w, id, h, delta) <==> Succeeded(c, w0, h, delta, w.slots))
    ensures w.threads[id] == Done(Inserted(false)) ==> (SoloInsert(c, w0, w, id, h, delta) <==> Failed(c, w0, h, delta, w.slots))
  {
    hide Failed, Succeeded;
  }

  // ---- Steps ----

  /** The facts about one step that all slots share. */
  lemma Applies(c: Config, w: World, id: nat, ch: Choice)
    requires Inv(c, w) && id < |w.threads| && !w.threads[id].Done?
    ensures var pc := w.threads[id]; var t := Target(c, pc, ch);
            && c.Valid() && t < c.probe.length == |w.slots| == |w.loans|
            && Step(c, w, id, ch) == Apply(w, id, t, Exec(c, pc, See(w, t), ch))
            && (pc.Placing? ==> pc.n < c.probe.length && c.probe.at(pc.h.key, pc.n) < |w.slots| && (!pc.place.PlaceUnwind? ==> t == c.probe.at(pc.h.key, pc.n)))
  {
    var pc := w.threads[id];
    assert PcOk(c, pc);
    TargetInRange(c, pc, ch);
    assert pc.Placing? ==> c.probe.at(pc.h.key, pc.n) < c.probe.length;
    hide Inv, Exec;
  }

  /** A step of the reservation touches no slot and leads on, or to the plan. */
  lemma ReserveExec(c: Config, w0: World, w: World, h: Handle, h': Handle, phase: ReservePhase, sh: Shared, ch: Choice)
    requires ReserveState(c, w0, w, h, h', phase) && sh.usage == w.usage && sh.occupancy == w.occupancy && sh.clock == w.clock
    ensures var f, plan := ExecReserve(c, h', phase, sh, ch), Plan(c, w0, h);
            && f.now.slot == sh.slot && f.now.loans == sh.loans && f.now.clock == sh.clock
            && match f.pc
               case Reserving(h'', phase') => ReserveState(c, w0, w.(usage := f.now.usage, occupancy := f.now.occupancy), h, h'', phase')
               case Evicting(e, phase') => e == plan && phase' == EvictStart && plan.Request() > 0
               case Placing(h'', again, n, phase') => h'' == h && !again && n == 0 && phase' == PlaceOr && plan.Request() <= 0
               case _ => false
  {
  }

  lemma PlaceStarts(p: Probe, base: seq<Slot>, h: Handle, slots: seq<Slot>)
    requires Permutes(p) && |base| == p.length && Matches(slots, base)
    ensures p.length > 0 && PlaceOk(p, base, h, 0, PlaceOr, slots, p.at(h.key, 0))
  {
    ClockObject.PlacementStarts(p, base, h.key);
    assert p.at(h.key, 0) < p.length;
  }

  lemma ReserveStep(c: Config, w0: World, w: World, id: nat, h: Handle, delta: int, ch: Choice)
    requires Inv(c, w) && Shape(c, w) && |w0.slots| > 0 && SoloInsert(c, w0, w, id, h, delta) && w.threads[id].Reserving?
    ensures SoloInsert(c, w0, Step(c, w, id, ch), id, h, delta)
  {
    var pc, t := w.threads[id], Target(c, w.threads[id], ch);
    Applies(c, w, id, ch);
    assert w.slots[t := w.slots[t]] == w.slots;
    ReserveExec(c, w0, w, h, pc.h, pc.reserve, See(w, t), ch);
    var f := ExecReserve(c, pc.h, pc.reserve, See(w, t), ch);
    assert Matches(w.slots, w.slots);
    if f.pc.Placing? {
      PlaceStarts(c.probe, w.slots, h, w.slots);
      ReserveToPlace(c, w0, Apply(w, id, t, f), h, delta, f.pc);
    } else if f.pc.Reserving? {
      ReserveAgain(c, w0, w, Apply(w, id, t, f), h, f.pc.h, f.pc.reserve);
    }
    hide Inv, Step, ExecReserve, Matches, EvictionOf, PlaceState, ReserveState;
  }

  lemma ReserveAgain(c: Config, w0: World, w: World, w': World, h: Handle, h': Handle, phase: ReservePhase)
    requires ReserveState(c, w0, w.(usage := w'.usage, occupancy := w'.occupancy), h, h', phase)
    requires w'.slots == w.slots && w'.clock == w.clock
    ensures ReserveState(c, w0, w', h, h', phase)
  {
  }

  lemma ReserveToPlace(c: Config, w0: World, w: World, h: Handle, delta: int, pc: Pc)
    requires |w0.slots| > 0 && w.slots == w0.slots && !Evicts(c, w0, h) && pc == Placing(h, false, 0, PlaceOr) && c.probe.length > 0
    requires PlaceOk(c.probe, w0.slots, h, 0, PlaceOr, w.slots, c.probe.at(h.key, 0))
    ensures PlaceState(c, w0, w, h, delta, pc)
  {
    hide PlaceOk;
  }

  lemma TermsKept(c: Config, e: Eviction, phase: EvictPhase, sh: Shared, ch: Choice)
    requires c.probe.length > 0
    ensures var f := ExecEvict(c, e, phase, sh, ch);
            && (f.pc.Evicting? ==> SameTerms(f.pc.e, e))
            && (phase.SettleOccupancy? ==> f.pc == Evicting(e, SettleUsage) && f.now.slot == sh.slot)
            && (phase.EvictStart? ==> f.pc.Evicting? && f.pc.evict == EvictLoad(0))
            && (f.pc.Evicting? && f.pc.evict.SettleUsage? ==> phase.SettleOccupancy?)
            && (f.pc.Evicting? ==> !f.pc.evict.EvictStart?)
            && (!phase.SettleUsage? ==> f.pc.Evicting?)
  {
  }

  lemma TermsRequest(a: Eviction, b: Eviction)
    requires SameTerms(a, b)
    ensures a.Request() == b.Request() && a.Need() == b.Need()
  {
  }

  lemma SweepStarts(c: Config, w0: World, w: World, id: nat, h: Handle, delta: int, ch: Choice)
    requires Inv(c, w) && Shape(c, w) && |w0.slots| > 0 && id < |w.threads| && w.threads[id].Evicting? && delta == ch.decay + 1
    requires EvictState(c, w0, w, id, h, delta, w.threads[id].e, EvictStart) && w.threads[id].evict.EvictStart?
    ensures SoloSweep(c, w0.slots, w0.clock, delta, Step(c, w, id, ch), id, 0)
  {
    hide Inv, Step, SoloSweep, Evicts, EvictionOf, Eviction1, Matches, Plan;
    SoloSweepStarts(c, w, id, delta, ch);
  }

  lemma SweepGoesOn(c: Config, w0: World, w: World, id: nat, h: Handle, delta: int, ch: Choice) returns (j: nat)
    requires Inv(c, w) && Shape(c, w) && |w0.slots| > 0 && id < |w.threads| && w.threads[id].Evicting? && delta == ch.decay + 1
    requires EvictState(c, w0, w, id, h, delta, w.threads[id].e, w.threads[id].evict)
    requires !w.threads[id].evict.EvictStart? && !w.threads[id].evict.SettleOccupancy? && !w.threads[id].evict.SettleUsage?
    ensures SoloSweep(c, w0.slots, w0.clock, delta, Step(c, w, id, ch), id, j)
  {
    hide Inv, Step, SoloSweep, Evicts, EvictionOf, Eviction1, Matches, Plan;
    var i: nat :| SoloSweep(c, w0.slots, w0.clock, delta, w, id, i);
    j := SoloSweepStep(c, w0.slots, w0.clock, delta, w, id, i, ch);
  }

  lemma TermsOfStep(c: Config, w: World, id: nat, ch: Choice)
    requires Inv(c, w) && Shape(c, w) && id < |w.threads| && w.threads[id].Evicting? && !w.threads[id].evict.SettleUsage? && !w.threads[id].evict.SettleOccupancy?
    ensures var pc' := Step(c, w, id, ch).threads[id];
            pc'.Evicting? && SameTerms(pc'.e, w.threads[id].e) && !pc'.evict.EvictStart? && !pc'.evict.SettleUsage?
  {
    var pc, t := w.threads[id], Target(c, w.threads[id], ch);
    EvictApplies(c, w, id, ch);
    TermsKept(c, pc.e, pc.evict, See(w, t), ch);
    hide Inv, ExecEvict, CleanStep, Step, Target;
  }

  /** A step of the sweep. */
  lemma SweepStep(c: Config, w0: World, w: World, id: nat, h: Handle, delta: int, ch: Choice)
    requires Inv(c, w) && Shape(c, w) && |w0.slots| > 0 && id < |w.threads| && w.threads[id].Evicting? && delta == ch.decay + 1
    requires EvictState(c, w0, w, id, h, delta, w.threads[id].e, w.threads[id].evict)
    requires !w.threads[id].evict.SettleOccupancy? && !w.threads[id].evict.SettleUsage?
    ensures var pc' := Step(c, w, id, ch).threads[id];
            pc'.Evicting? && EvictState(c, w0, Step(c, w, id, ch), id, h, delta, pc'.e, pc'.evict)
  {
    hide Inv, Step, SoloSweep, Evicts, EvictionOf, Eviction1, Matches, Plan;
    TermsOfStep(c, w, id, ch);
    if w.threads[id].evict.EvictStart? {
      SweepStarts(c, w0, w, id, h, delta, ch);
    } else {
      var j := SweepGoesOn(c, w0, w, id, h, delta, ch);
    }
  }

  /** The settlement: the end of the sweep is the eviction of the class. */
  lemma SettleStep(c: Config, w0: World, w: World, id: nat, h: Handle, delta: int, ch: Choice)
    requires Inv(c, w) && Shape(c, w) && |w0.slots| > 0 && id < |w.threads| && w.threads[id].Evicting? && delta == ch.decay + 1
    requires EvictState(c, w0, w, id, h, delta, w.threads[id].e, SettleOccupancy) && w.threads[id].evict.SettleOccupancy?
    ensures var pc' := Step(c, w, id, ch).threads[id];
            pc'.Evicting? && pc'.evict.SettleUsage? && EvictState(c, w0, Step(c, w, id, ch), id, h, delta, pc'.e, SettleUsage)
  {
    var pc, t := w.threads[id], Target(c, w.threads[id], ch);
    EvictApplies(c, w, id, ch);
    TermsKept(c, pc.e, pc.evict, See(w, t), ch);
    TermsRequest(pc.e, Plan(c, w0, h));
    assert w.slots[t := w.slots[t]] == w.slots;
    hide Inv, ExecEvict, CleanStep, SoloSweep, Evicts, EvictionOf, Matches, Plan, Target;
    var j: nat :| SoloSweep(c, w0.slots, w0.clock, delta, w, id, j);
    SoloSweepEnds(c, w0.slots, w0.clock, delta, w, id, j);
    hide Step;
  }

  lemma SettleExec(c: Config, w0: World, h: Handle, delta: int, e: Eviction, sh: Shared, ch: Choice)
    requires |w0.slots| > 0 && c.probe.length > 0 && Evicts(c, w0, h) && SameTerms(e, Plan(c, w0, h)) && DataIs(e, Eviction1(c, w0, h, delta).data)
    requires Eviction1(c, w0, h, delta).data.freedCount == 0 ==> Eviction1(c, w0, h, delta).data.freedCharge == 0
    ensures var f := ExecEvict(c, e, SettleUsage, sh, ch);
            && f.now.slot == sh.slot
            && f.pc == if FallsShort(c, w0, h, delta) then Failing(h, FailOccupancy(false)) else Placing(h, false, 0, PlaceOr)
  {
    TermsRequest(e, Plan(c, w0, h));
    hide Eviction1;
  }

  /** An eviction that has freed no entry has freed no charge. */
  lemma {:induction false} NothingForNothing(p: Probe, slots: seq<Slot>, clock: nat, delta: int, requested: int, min: int)
    requires |slots| > 0
    ensures var d := EvictionOf(p, slots, clock, delta, requested, min, false).data; d.freedCount == 0 ==> d.freedCharge == 0
  {
    FromNothing(p, Begun(slots, clock, delta), requested, clock + MAX_COUNTDOWN * |slots|, min);
    hide EvictionFrom;
  }

  lemma {:induction false} FromNothing(p: Probe, s: Sweep, requested: int, max: nat, min: int)
    requires |s.slots| > 0 && (s.data.freedCount == 0 ==> s.data.freedCharge == 0)
    ensures var d := EvictionFrom(p, s, requested, max, min, false).data; d.freedCount == 0 ==> d.freedCharge == 0
    decreases max + STEP_SIZE - s.at
  {
    var r := Passed(p, s, STEP_SIZE, false);
    PassedNothing(p, s, STEP_SIZE);
    hide Passed;
    if !Stops(r, requested, max) {
      FromNothing(p, Onward(r, min), requested, max, min);
    }
  }

  lemma {:induction false} PassedNothing(p: Probe, s: Sweep, n: nat)
    requires |s.slots| > 0 && (s.data.freedCount == 0 ==> s.data.freedCharge == 0)
    ensures var d := Passed(p, s, n, false).data; d.freedCount == 0 ==> d.freedCharge == 0
  {
    if n > 0 {
      PassedNothing(p, s, n - 1);
    }
  }

  lemma LengthOf(c: Config, w0: World, h: Handle, delta: int)
    requires |w0.slots| > 0
    ensures |Table1(c, w0, h, delta)| == |w0.slots|
  {
    hide EvictionOf;
  }

  lemma SettledStep(c: Config, w0: World, w: World, id: nat, h: Handle, delta: int, ch: Choice)
    requires Inv(c, w) && Shape(c, w) && |w0.slots| > 0 && id < |w.threads| && w.threads[id].Evicting?
    requires EvictState(c, w0, w, id, h, delta, w.threads[id].e, SettleUsage) && w.threads[id].evict.SettleUsage?
    ensures SoloInsert(c, w0, Step(c, w, id, ch), id, h, delta)
  {
    var pc, t := w.threads[id], Target(c, w.threads[id], ch);
    EvictApplies(c, w, id, ch);
    NothingForNothing(c.probe, w0.slots, w0.clock, delta, Plan(c, w0, h).Request(), delta);
    SettleExec(c, w0, h, delta, pc.e, See(w, t), ch);
    assert w.slots[t := w.slots[t]] == w.slots;
    hide Inv, ExecEvict, CleanStep, EvictionOf, Target, FallsShort, Plan;
    PlaceStarts(c.probe, Table1(c, w0, h, delta), h, w.slots);
    hide Matches, PlaceOk, Step, Eviction1;
  }

  // ---- Placement and erasure ----

  lemma ErasedTable(c: Config, w0: World, h: Handle, delta: int, u: nat)
    requires |w0.slots| > 0 && u < |Table1(c, w0, h, delta)|
    ensures var s1, s2 := Table1(c, w0, h, delta), Table2(c, w0, h, delta);
            && s2[u] == ClockObject.AfterErase(h.key, s1[u]) && !s2[u].ShowsKey(h.key)
            && (s1[u].ShowsKey(h.key) && s1[u].meta.refs == 0 ==> s2[u].meta.state.Empty?)
  {
    hide EvictionOf;
  }

  /** A table with an empty slot and no copy takes the entry. */
  lemma RoomTaken(p: Probe, base: seq<Slot>, h: Handle, pc': Pc, after: seq<Slot>, u: nat)
    requires Permutes(p) && |base| == p.length && u < |base| && base[u].meta.state.Empty?
    requires forall x: nat | x < |base| :: !base[x].ShowsKey(h.key)
    requires PlaceEnds(p, base, h, true, pc', after)
    ensures pc' == Done(Inserted(true)) && PlacedOn(p, base, h, after)
  {
    assert p.index(h.key, u) < p.length;
  }

  /** After a successful erasure the second placement finds an empty slot and no copy. */
  lemma SecondSucceeds(c: Config, w0: World, h: Handle, delta: int, pc': Pc, after: seq<Slot>)
    requires c.Valid() && |w0.slots| == c.probe.length && ClockSolo.EraseSucceeds(Table1(c, w0, h, delta), h.key)
    requires CopyComesFirst(c.probe, Table1(c, w0, h, delta), h.key)
    requires PlaceEnds(c.probe, Table2(c, w0, h, delta), h, true, pc', after)
    ensures pc' == Done(Inserted(true)) && PlacedOn(c.probe, Table2(c, w0, h, delta), h, after)
  {
    LengthOf(c, w0, h, delta);
    var s1, s2 := Table1(c, w0, h, delta), Table2(c, w0, h, delta);
    var u: nat :| u < |s1| && s1[u].ShowsKey(h.key) && s1[u].meta.refs == 0;
    ErasedTable(c, w0, h, delta, u);
    forall x: nat | x < |s2| ensures !s2[x].ShowsKey(h.key) {
      ErasedTable(c, w0, h, delta, x);
    }
    assert |s2| == |s1|;
    hide Table1, Table2, PlaceEnds, PlacedOn, ClockObject.AfterErase, Permutes;
    RoomTaken(c.probe, s2, h, pc', after, u);
  }

  /** A placement on one of the two tables, one step further. */
  lemma PlacingExec(c: Config, w: World, id: nat, base: seq<Slot>, h: Handle, ch: Choice)
    requires Inv(c, w) && id < |w.threads| && w.threads[id].Placing? && w.threads[id].h == h && |base| == c.probe.length
    requires var pc := w.threads[id]; PlaceOk(c.probe, base, h, pc.n, pc.place, w.slots, c.probe.at(h.key, pc.n))
    ensures var pc, w' := w.threads[id], Step(c, w, id, ch);
            var pc' := w'.threads[id];
            if pc'.Placing? && pc'.again == pc.again then
              pc'.h == h && pc'.n < c.probe.length && PlaceOk(c.probe, base, h, pc'.n, pc'.place, w'.slots, c.probe.at(h.key, pc'.n))
            else PlaceEnds(c.probe, base, h, pc.again, pc', w'.slots)
  {
    ClockCalls.InvShape(c, w);
    hide Inv, PlaceOk, PlaceEnds, Step;
    var pc, u := w.threads[id], Target(c, w.threads[id], ch);
    Applies(c, w, id, ch);
    PlaceStep(c, base, h, pc.again, pc.n, pc.place, w.slots, c.probe.at(h.key, pc.n), u, See(w, u));
    hide ExecPlace;
  }

  /** An erasure may begin on any table of the same contents. */
  lemma HuntStarts(c: Config, base: seq<Slot>, w: World, id: nat, k: Key, why: Why)
    requires Inv(c, w) && Shape(c, w) && Matches(w.slots, base) && id < |w.threads|
    requires w.threads[id] == Hunting(Erasing(k, false, false, why), 0, EraseIncr)
    ensures ClockSolo.RefsNatural(base) && ClockSolo.SoloErase(c, base, w, id, k)
  {
    ClockSolo.NaturalFromInv(c, w);
    hide Inv;
    ClockSolo.IndexAt(c, k, 0);
    forall t: nat | t < |base| ensures 0 <= base[t].meta.refs {
      assert SameContent(w.slots[t], base[t]);
    }
    CellsStartOn(c, base, w, k);
    ClockSolo.TallyStarts(c, base, k, why, base[c.probe.at(k, 0)]);
    hide ClockSolo.EraseCells, ClockSolo.EraseTally;
  }

  lemma CellsStartOn(c: Config, base: seq<Slot>, w: World, k: Key)
    requires c.Valid() && |w.slots| == c.probe.length && Matches(w.slots, base)
    ensures ClockSolo.EraseCells(c, k, base, w, 0, EraseIncr)
  {
    forall t: nat | t < |base| ensures ClockSolo.EraseCell(k, base[t], w.slots[t], c.probe.index(k, t), 0, EraseIncr) {
      assert c.probe.index(k, t) < c.probe.length && SameContent(w.slots[t], base[t]);
    }
    hide Permutes;
  }

  lemma FirstPlacing(c: Config, w0: World, w: World, id: nat, h: Handle, delta: int, ch: Choice)
    requires Inv(c, w) && Shape(c, w) && |w0.slots| == c.probe.length && SoloInsert(c, w0, w, id, h, delta)
    requires id < |w.threads| && w.threads[id].Placing? && !w.threads[id].again
    ensures |w0.slots| > 0 && SoloInsert(c, w0, Step(c, w, id, ch), id, h, delta)
  {
    assert |w0.slots| > 0;
    LengthOf(c, w0, h, delta);
    var base, w' := Table1(c, w0, h, delta), Step(c, w, id, ch);
    AtPlacing(c, w0, w, id, h, delta);
    hide Table1, Inv, PlaceOk, PlaceEnds, Step, EvictionOf, SoloInsert, FallsShort, Succeeded, Failed;
    PlacingExec(c, w, id, base, h, ch);
    var pc' := w'.threads[id];
    if pc'.Placing? && !pc'.again {
      AtPlacing(c, w0, w', id, h, delta);
    } else {
      hide PlaceState;
      FirstEnds(c, w0, w', h, delta, pc');
      if pc'.Hunting? {
        StepKeepsInvFree(c, w, id, ch);
        HuntStarts(c, base, w', id, h.key, ForInsert(h));
        AtHunting(c, w0, w', id, h, delta);
      } else {
        AtEnd(c, w0, w', id, h, delta);
      }
    }
  }

  /** A thread that is not erasing keeps the invariant. */
  lemma StepKeepsInvFree(c: Config, w: World, id: nat, ch: Choice)
    requires Inv(c, w) && Shape(c, w) && id < |w.threads| && !w.threads[id].Hunting?
    ensures Inv(c, Step(c, w, id, ch))
  {
    assert CleanStep(c, w, id, ch);
    hide CleanStep, Step, Inv;
    CleanStepKeepsInv(c, w, id, ch);
  }

  lemma FirstEnds(c: Config, w0: World, w': World, h: Handle, delta: int, pc': Pc)
    requires |w0.slots| > 0 && !FallsShort(c, w0, h, delta)
    requires PlaceEnds(c.probe, Table1(c, w0, h, delta), h, false, pc', w'.slots)
    ensures pc' == Done(Inserted(true)) ==> Succeeded(c, w0, h, delta, w'.slots)
    ensures pc'.Failing? ==> pc'.h == h && Failed(c, w0, h, delta, w'.slots)
    ensures pc'.Hunting? ==>
              && pc' == Hunting(Erasing(h.key, false, false, ForInsert(h)), 0, EraseIncr)
              && CopyComesFirst(c.probe, Table1(c, w0, h, delta), h.key) && Matches(w'.slots, Table1(c, w0, h, delta))
    ensures pc' == Done(Inserted(true)) || pc'.Failing? || pc'.Hunting?
  {
    hide Table1, Passable, Matches, MatchesBut, FallsShort;
  }

  lemma SecondPlacing(c: Config, w0: World, w: World, id: nat, h: Handle, delta: int, ch: Choice)
    requires Inv(c, w) && Shape(c, w) && |w0.slots| == c.probe.length && SoloInsert(c, w0, w, id, h, delta)
    requires w.threads[id].Placing? && w.threads[id].again
    ensures |w0.slots| > 0 && SoloInsert(c, w0, Step(c, w, id, ch), id, h, delta)
  {
    LengthOf(c, w0, h, delta);
    var base, w' := Table2(c, w0, h, delta), Step(c, w, id, ch);
    assert |base| == c.probe.length && c.Valid();
    hide Table1, Table2, Inv, PlaceOk, PlaceEnds, Step, EvictionOf;
    PlacingExec(c, w, id, base, h, ch);
    var pc' := w'.threads[id];
    if !(pc'.Placing? && pc'.again) {
      SecondSucceeds(c, w0, h, delta, pc', w'.slots);
    }
    hide FallsShort, Failed, ClockSolo.SoloErase, ClockSolo.EraseSucceeds, Matches, CopyComesFirst, PlacedOn;
  }

  lemma HuntingOn(c: Config, w0: World, w: World, id: nat, h: Handle, delta: int, ch: Choice)
    requires Inv(c, w) && Shape(c, w) && |w0.slots| == c.probe.length && SoloInsert(c, w0, w, id, h, delta)
    requires id < |w.threads| && w.threads[id].Hunting?
    ensures |w0.slots| > 0 && CleanStep(c, w, id, ch) && SoloInsert(c, w0, Step(c, w, id, ch), id, h, delta)
  {
    assert |w0.slots| > 0;
    var base, w' := Table1(c, w0, h, delta), Step(c, w, id, ch);
    AtHunting(c, w0, w, id, h, delta);
    hide Table1, Inv, Step, EvictionOf, ClockSolo.SoloErase, ClockSolo.RefsNatural, FallsShort, CleanStep, CopyComesFirst, ClockSolo.EraseSucceeds, SoloInsert, ClockSolo.Erased;
    ClockSolo.SoloEraseIsClean(c, base, w, id, h.key, ch);
    if w'.threads[id].Hunting? {
      ClockSolo.SoloEraseStep(c, base, w, id, h.key, ch);
      ClockSolo.HuntKeeps(c, w, id, ch);
      AtHunting(c, w0, w', id, h, delta);
    } else {
      ClockSolo.SoloEraseEnds(c, base, w, id, h.key, ForInsert(h), ch);
      HuntEnds(c, w0, w', id, h, delta);
    }
  }

  lemma HuntEnds(c: Config, w0: World, w': World, id: nat, h: Handle, delta: int)
    requires Shape(c, w') && |w0.slots| == c.probe.length && id < |w'.threads| && !FallsShort(c, w0, h, delta)
    requires CopyComesFirst(c.probe, Table1(c, w0, h, delta), h.key) && ClockSolo.Erased(Table1(c, w0, h, delta), w'.slots, h.key)
    requires w'.threads[id] == ClockCalls.EraseAnswer(ForInsert(h), ClockSolo.EraseSucceeds(Table1(c, w0, h, delta), h.key))
    ensures SoloInsert(c, w0, w', id, h, delta)
  {
    ErasedMatches(c, w0, w', h, delta);
    LengthOf(c, w0, h, delta);
    assert |Table2(c, w0, h, delta)| == c.probe.length && c.Valid();
    hide Table1, Table2, EvictionOf, FallsShort, CopyComesFirst, ClockSolo.EraseSucceeds, Matches, PlaceOk, ClockSolo.Erased;
    PlaceStarts(c.probe, Table2(c, w0, h, delta), h, w'.slots);
  }

  lemma ErasedMatches(c: Config, w0: World, w': World, h: Handle, delta: int)
    requires |w0.slots| > 0 && ClockSolo.Erased(Table1(c, w0, h, delta), w'.slots, h.key)
    ensures Matches(w'.slots, Table2(c, w0, h, delta))
  {
    forall t: nat | t < |Table2(c, w0, h, delta)| ensures SameContent(w'.slots[t], Table2(c, w0, h, delta)[t]) {
      ErasedTable(c, w0, h, delta, t);
    }
    hide Table1, ClockObject.AfterErase;
  }

  lemma FailExec(c: Config, w: World, id: nat, ch: Choice)
    requires Inv(c, w) && id < |w.threads| && w.threads[id].Failing?
    ensures var w' := Step(c, w, id, ch);
            w'.slots == w.slots && (w'.threads[id] == Done(Inserted(false)) || (w'.threads[id].Failing? && w'.threads[id].h == w.threads[id].h))
  {
    ClockCalls.InvShape(c, w);
    hide Inv, Step;
    var t := Target(c, w.threads[id], ch);
    Applies(c, w, id, ch);
    assert w.slots[t := w.slots[t]] == w.slots;
  }

  lemma FailingOn(c: Config, w0: World, w: World, id: nat, h: Handle, delta: int, ch: Choice)
    requires Inv(c, w) && Shape(c, w) && |w0.slots| > 0 && id < |w.threads| && SoloInsert(c, w0, w, id, h, delta) && w.threads[id].Failing?
    ensures SoloInsert(c, w0, Step(c, w, id, ch), id, h, delta)
  {
    hide Inv, Failed, Succeeded, SoloInsert, Step;
    FailExec(c, w, id, ch);
    AtEnd(c, w0, w, id, h, delta);
    AtEnd(c, w0, Step(c, w, id, ch), id, h, delta);
  }

  // ---- The whole insertion ----

  lemma SoloInsertStep(c: Config, w0: World, w: World, id: nat, h: Handle, delta: int, ch: Choice)
    requires Inv(c, w) && Shape(c, w) && |w0.slots| == c.probe.length && |w0.slots| > 0 && delta == ch.decay + 1
    requires SoloInsert(c, w0, w, id, h, delta) && id < |w.threads| && !w.threads[id].Done?
    ensures SoloInsert(c, w0, Step(c, w, id, ch), id, h, delta) && Inv(c, Step(c, w, id, ch))
  {
    var pc := w.threads[id];
    if pc.Hunting? {
      HuntingOn(c, w0, w, id, h, delta, ch);
      CleanStepKeepsInv(c, w, id, ch);
    } else {
      StepKeepsInvFree(c, w, id, ch);
      NotLooking(c, w0, w, id, h, delta);
      hide Inv, Step;
      if pc.Placing? {
        hide SoloInsert;
        if pc.again {
          SecondPlacing(c, w0, w, id, h, delta, ch);
        } else {
          FirstPlacing(c, w0, w, id, h, delta, ch);
        }
      } else if pc.Failing? {
        hide SoloInsert;
        FailingOn(c, w0, w, id, h, delta, ch);
      } else if pc.Reserving? {
        hide SoloInsert;
        ReserveStep(c, w0, w, id, h, delta, ch);
      } else {
        hide SoloInsert;
        EvictingOn(c, w0, w, id, h, delta, ch);
      }
    }
  }

  lemma NotLooking(c: Config, w0: World, w: World, id: nat, h: Handle, delta: int)
    requires Shape(c, w) && |w0.slots| > 0 && SoloInsert(c, w0, w, id, h, delta)
    ensures id < |w.threads| && !w.threads[id].Looking?
  {
    hide EvictState, PlaceState, ReserveState, HuntState, Failed, Succeeded;
  }

  lemma AtEvicting(c: Config, w0: World, w: World, id: nat, h: Handle, delta: int)
    requires Shape(c, w) && |w0.slots| > 0 && id < |w.threads| && w.threads[id].Evicting?
    ensures SoloInsert(c, w0, w, id, h, delta) <==> EvictState(c, w0, w, id, h, delta, w.threads[id].e, w.threads[id].evict)
  {
    hide EvictState;
  }

  lemma EvictingOn(c: Config, w0: World, w: World, id: nat, h: Handle, delta: int, ch: Choice)
    requires Inv(c, w) && Shape(c, w) && |w0.slots| == c.probe.length && |w0.slots| > 0 && delta == ch.decay + 1
    requires SoloInsert(c, w0, w, id, h, delta) && id < |w.threads| && w.threads[id].Evicting?
    ensures SoloInsert(c, w0, Step(c, w, id, ch), id, h, delta)
  {
    hide Inv, Step, SoloInsert, EvictState;
    AtEvicting(c, w0, w, id, h, delta);
    if w.threads[id].evict.SettleUsage? {
      SettledStep(c, w0, w, id, h, delta, ch);
    } else {
      if w.threads[id].evict.SettleOccupancy? {
        SettleStep(c, w0, w, id, h, delta, ch);
      } else {
        SweepStep(c, w0, w, id, h, delta, ch);
      }
      AtEvicting(c, w0, Step(c, w, id, ch), id, h, delta);
    }
  }

  /** All moves are the thread's own, and the hand takes `delta` hits at each of them. */
  ghost predicate AloneWith(moves: seq<Move>, id: nat, delta: int) {
    forall i: nat | i < |moves| :: moves[i].id == id && moves[i].ch.decay + 1 == delta
  }

  lemma SoloInsertStarts(c: Config, w: World, id: nat, h: Handle, delta: int)
    requires Inv(c, w) && Shape(c, w) && id < |w.threads| && w.threads[id] == Reserving(h, InsertOccupy)
    ensures |w.slots| > 0 && SoloInsert(c, w, w, id, h, delta)
  {
  }

  lemma {:induction false} SoloInsertRun(c: Config, w: World, moves: seq<Move>, id: nat, h: Handle, delta: int)
    requires Inv(c, w) && id < |w.threads| && w.threads[id] == Reserving(h, InsertOccupy)
    requires AloneWith(moves, id, delta) && ClockCalls.InsertsThroughout(c, w, moves, id)
    ensures Inv(c, Run(c, w, moves)) && |w.slots| == c.probe.length && |w.slots| > 0 && SoloInsert(c, w, Run(c, w, moves), id, h, delta)
  {
    ClockCalls.InvShape(c, w);
    SoloInsertStarts(c, w, id, h, delta);
    hide Inv, Step, Run, SoloInsert;
    if moves == [] {
      ClockCalls.RunOfNothing(c, w);
    } else {
      var n := |moves| - 1;
      ClockCalls.InsertsPrefix(c, w, moves, id, n);
      ClockCalls.RunLast(c, w, moves);
      SoloInsertRun(c, w, moves[..n], id, h, delta);
      SoloInsertStep(c, w, Run(c, w, moves[..n]), id, h, delta, moves[n].ch);
    }
  }

  /**
   An insertion that nobody disturbs, from any state, ends as Insert of the class does: on the table
   that the class's eviction leaves, it succeeds if and only if the entry fits and an empty slot comes
   first on its path or some copy is unpinned; then the entry is in the first empty slot, before any
   copy, and otherwise every copy is hidden, if it fitted at all.
   */
  lemma {:induction false} UndisturbedInsert(c: Config, w: World, moves: seq<Move>, id: nat, h: Handle, delta: int, ch: Choice)
    requires Inv(c, w) && id < |w.threads| && w.threads[id] == Reserving(h, InsertOccupy)
    requires AloneWith(moves, id, delta) && ClockCalls.InsertsThroughout(c, w, moves, id) && ch.decay + 1 == delta
    requires Step(c, Run(c, w, moves), id, ch).threads[id].Done?
    ensures var end := Step(c, Run(c, w, moves), id, ch);
            && Inv(c, end) && |w.slots| > 0
            && (|| (end.threads[id] == Done(Inserted(true)) && Succeeded(c, w, h, delta, end.slots))
                || (end.threads[id] == Done(Inserted(false)) && Failed(c, w, h, delta, end.slots)))
  {
    ClockCalls.InvShape(c, w);
    SoloInsertRun(c, w, moves, id, h, delta);
    var here := Run(c, w, moves);
    ClockCalls.InsertsPrefix(c, w, moves, id, |moves|);
    assert moves[..|moves|] == moves;
    hide Inv, Step, Run, SoloInsert, Succeeded, Failed;
    SoloInsertStep(c, w, here, id, h, delta, ch);
    EndedWell(c, w, Step(c, here, id, ch), id, h, delta);
  }

  lemma EndedWell(c: Config, w0: World, w: World, id: nat, h: Handle, delta: int)
    requires Shape(c, w) && |w0.slots| > 0 && SoloInsert(c, w0, w, id, h, delta) && id < |w.threads| && w.threads[id].Done?
    ensures (w.threads[id] == Done(Inserted(true)) && Succeeded(c, w0, h, delta, w.slots))
         || (w.threads[id] == Done(Inserted(false)) && Failed(c, w0, h, delta, w.slots))
  {
    hide Succeeded, Failed;
  }

  /** The two ends exclude each other: success is decided by the table after the eviction. */
  lemma SuccessIsPlaceable(c: Config, w0: World, h: Handle, delta: int, after: seq<Slot>)
    requires c.Valid() && |w0.slots| == c.probe.length && |w0.slots| > 0
    ensures Succeeded(c, w0, h, delta, after) ==> !FallsShort(c, w0, h, delta) && ClockObject.Placeable(c.probe, Table1(c, w0, h, delta), h.key)
    ensures Failed(c, w0, h, delta, after) ==> FallsShort(c, w0, h, delta) || !ClockObject.Placeable(c.probe, Table1(c, w0, h, delta), h.key)
  {
    LengthOf(c, w0, h, delta);
    var base := Table1(c, w0, h, delta);
    hide Table1, Table2, EvictionOf, FallsShort;
    PlaceableMeans(c.probe, base, h, after);
  }

  lemma PlaceableMeans(p: Probe, base: seq<Slot>, h: Handle, after: seq<Slot>)
    requires Permutes(p) && |base| == p.length
    ensures PlacedOn(p, base, h, after) ==> ClockObject.Placeable(p, base, h.key)
    ensures CopyComesFirst(p, base, h.key) && ClockSolo.EraseSucceeds(base, h.key) ==> ClockObject.Placeable(p, base, h.key)
    ensures Passable(p, base, h.key, p.length) ==> !ClockObject.Placeable(p, base, h.key)
    ensures CopyComesFirst(p, base, h.key) && !ClockSolo.EraseSucceeds(base, h.key) ==> !ClockObject.Placeable(p, base, h.key)
  {
    if Passable(p, base, h.key, p.length) {
      ClockObject.WholePath(p, base, h.key);
    }
    if t: nat :| t < |base| && base[t].ShowsKey(h.key) && Passable(p, base, h.key, p.index(h.key, t)) {
      var n := p.index(h.key, t);
      assert n < p.length && p.at(h.key, n) == t;
      ClockObject.CopyFirst(p, base, h.key, n);
    }
  }
}
