/**
 The occupancy limit of the interleaved cache. The `occupancy` counter also counts insertions that may
 still fail; what stays within the limit is the slots in use together with the places that
 insertions under way are entitled to.
 */
module ClockRoom {
  import opened Sums
  import opened Walk
  import opened MetaWord
  import opened ClockTable
  import opened ClockMachine
  import opened ClockLedger
  import opened ClockSafety

  /** The slot holds an entry or is being filled or emptied. */
  ghost predicate InUse(slot: Slot) {
    !slot.meta.state.Empty?
  }

  ghost function UseWeights(slots: seq<Slot>): (ws: seq<int>)
    ensures |ws| == |slots|
  {
    seq(|slots|, t requires 0 <= t < |slots| => One(InUse(slots[t])))
  }

  ghost function SlotsInUse(slots: seq<Slot>): int {
    Sum(UseWeights(slots))
  }

  /** Slots the eviction has emptied: those it has taken but for the one in hand. */
  ghost function Emptied(e: Eviction, phase: EvictPhase): int {
    e.freedCount - One(phase.EvictUnwind? || phase.EvictFree? || phase.EvictEmpty?)
  }

  /** The thread may yet bring a slot into use: it was let in below the limit, or has emptied a slot itself. */
  ghost predicate Entitled(pc: Pc) {
    match pc
    case Reserving(_, phase) => !phase.InsertOccupy? && !phase.crowded
    case Evicting(e, phase) => !e.crowded || Emptied(e, phase) > 0
    case Placing(_, _, _, phase) => !phase.PlaceWrite? && !phase.PlacePublish?
    case Hunting(er, _, _) => er.why.ForInsert?
    case _ => false
  }

  /** What the thread contributes to `occupancy` beyond the slots in use. */
  ghost function Surplus(pc: Pc): int {
    match pc
    case Reserving(_, phase) => if phase.InsertOccupy? then 0 else 1
    case Evicting(e, phase) => if phase.SettleUsage? then 1 else 1 + Emptied(e, phase)
    case Placing(_, _, _, phase) => One(!phase.PlaceWrite? && !phase.PlacePublish?)
    case Failing(_, phase) => if phase.FailUsage? then 0 else 1
    case Hunting(er, _, phase) => One(er.why.ForInsert?) + One(phase.EraseOccupancy?)
    case _ => 0
  }

  /** An eviction has freed charge only with an entry, and has one in hand while it takes it apart. */
  ghost predicate TallyOk(pc: Pc) {
    pc.Evicting? ==>
      && 0 <= Emptied(pc.e, pc.evict)
      && (pc.e.freedCount == 0 ==> pc.e.freedCharge == 0)
  }

  ghost function EntitledWeights(threads: seq<Pc>): (ws: seq<int>)
    ensures |ws| == |threads|
  {
    seq(|threads|, i requires 0 <= i < |threads| => One(Entitled(threads[i])))
  }

  ghost function SurplusWeights(threads: seq<Pc>): (ws: seq<int>)
    ensures |ws| == |threads|
  {
    seq(|threads|, i requires 0 <= i < |threads| => Surplus(threads[i]))
  }

  ghost predicate RoomOk(c: Config, w: World) {
    && (forall id: nat | id < |w.threads| :: TallyOk(w.threads[id]))
    && SlotsInUse(w.slots) + Sum(SurplusWeights(w.threads)) == w.occupancy
    && SlotsInUse(w.slots) + Sum(EntitledWeights(w.threads)) <= c.limit
  }

  // ---- One step ----

  /** What a step does to the use of its slot, to `occupancy`, and to its thread's entitlement. */
  ghost predicate RoomPost(c: Config, pc: Pc, sh: Shared, f: Effect) {
    var used := One(InUse(f.now.slot)) - One(InUse(sh.slot));
    var gained := One(Entitled(f.pc)) - One(Entitled(pc));
    && TallyOk(f.pc)
    && f.now.occupancy - sh.occupancy == used + Surplus(f.pc) - Surplus(pc)
    && (used + gained <= 0 || (used + gained == 1 && sh.occupancy < c.limit))
  }

  lemma RoomLookup(c: Config, pc: Pc, sh: Shared, ch: Choice)
    requires c.probe.length > 0 && pc.Looking? && LocalPre(c, pc, Target(c, pc, ch), sh)
    ensures RoomPost(c, pc, sh, Exec(c, pc, sh, ch))
  {
    hide Claims, ChargeHeld, PlacesHeld, Dooms, SlotWeight;
  }

  lemma RoomErase(c: Config, pc: Pc, sh: Shared, ch: Choice)
    requires c.probe.length > 0 && pc.Hunting? && LocalPre(c, pc, Target(c, pc, ch), sh)
    ensures RoomPost(c, pc, sh, Exec(c, pc, sh, ch))
  {
    hide Claims, ChargeHeld, PlacesHeld, Dooms, SlotWeight, ViewOk;
  }

  lemma RoomSweep(c: Config, pc: Pc, sh: Shared, ch: Choice)
    requires c.probe.length > 0 && pc.Evicting? && LocalPre(c, pc, Target(c, pc, ch), sh) && TallyOk(pc)
    requires pc.evict.EvictLoad? || pc.evict.EvictDecay? || pc.evict.EvictTake?
    ensures RoomPost(c, pc, sh, Exec(c, pc, sh, ch))
  {
    hide Claims, ChargeHeld, PlacesHeld, Dooms, SlotWeight, Owns, Holds, ViewOk;
  }

  lemma RoomEmptying(c: Config, pc: Pc, sh: Shared, ch: Choice)
    requires c.probe.length > 0 && pc.Evicting? && LocalPre(c, pc, Target(c, pc, ch), sh) && TallyOk(pc)
    requires pc.evict.EvictUnwind? || pc.evict.EvictFree? || pc.evict.EvictEmpty?
    ensures RoomPost(c, pc, sh, Exec(c, pc, sh, ch))
  {
    hide Claims, ChargeHeld, PlacesHeld, Dooms, SlotWeight, Holds, ViewOk;
  }

  lemma RoomSettle(c: Config, pc: Pc, sh: Shared, ch: Choice)
    requires c.probe.length > 0 && pc.Evicting? && LocalPre(c, pc, Target(c, pc, ch), sh) && TallyOk(pc)
    requires pc.evict.EvictStart? || pc.evict.EvictClock? || pc.evict.SettleOccupancy? || pc.evict.SettleUsage?
    ensures RoomPost(c, pc, sh, Exec(c, pc, sh, ch))
  {
    hide Claims, ChargeHeld, PlacesHeld, Dooms, SlotWeight, Owns, Holds, ViewOk;
  }

  lemma RoomEvict(c: Config, pc: Pc, sh: Shared, ch: Choice)
    requires c.probe.length > 0 && pc.Evicting? && LocalPre(c, pc, Target(c, pc, ch), sh) && TallyOk(pc)
    ensures RoomPost(c, pc, sh, Exec(c, pc, sh, ch))
  {
    hide LocalPre, RoomPost, Exec, Target, TallyOk;
    if pc.evict.EvictLoad? || pc.evict.EvictDecay? || pc.evict.EvictTake? {
      RoomSweep(c, pc, sh, ch);
    } else if pc.evict.EvictUnwind? || pc.evict.EvictFree? || pc.evict.EvictEmpty? {
      RoomEmptying(c, pc, sh, ch);
    } else {
      RoomSettle(c, pc, sh, ch);
    }
  }

  lemma RoomPlace(c: Config, pc: Pc, sh: Shared, ch: Choice)
    requires c.probe.length > 0 && pc.Placing? && LocalPre(c, pc, Target(c, pc, ch), sh)
    ensures RoomPost(c, pc, sh, Exec(c, pc, sh, ch))
  {
    hide Claims, ChargeHeld, PlacesHeld, Dooms, SlotWeight, ViewOk, Holds;
  }

  lemma RoomOther(c: Config, pc: Pc, sh: Shared, ch: Choice)
    requires c.probe.length > 0 && LocalPre(c, pc, Target(c, pc, ch), sh)
    requires pc.Done? || pc.Reserving? || pc.Failing?
    ensures RoomPost(c, pc, sh, Exec(c, pc, sh, ch))
  {
    hide Claims, ChargeHeld, PlacesHeld, Dooms, SlotWeight;
  }

  lemma RoomLocal(c: Config, pc: Pc, sh: Shared, ch: Choice)
    requires c.probe.length > 0 && LocalPre(c, pc, Target(c, pc, ch), sh) && TallyOk(pc)
    ensures RoomPost(c, pc, sh, Exec(c, pc, sh, ch))
  {
    hide LocalPre, RoomPost, Exec, Target;
    match pc
    case Looking(_, _, _) => RoomLookup(c, pc, sh, ch);
    case Hunting(_, _, _) => RoomErase(c, pc, sh, ch);
    case Evicting(_, _) => RoomEvict(c, pc, sh, ch);
    case Placing(_, _, _, _) => RoomPlace(c, pc, sh, ch);
    case _ => RoomOther(c, pc, sh, ch);
  }

  // ---- Sums ----

  lemma UseUpdate(slots: seq<Slot>, t: nat, x: Slot)
    requires t < |slots|
    ensures SlotsInUse(slots[t := x]) == SlotsInUse(slots) - One(InUse(slots[t])) + One(InUse(x))
  {
    var ws := UseWeights(slots);
    assert UseWeights(slots[t := x]) == ws[t := One(InUse(x))];
    SumUpdate(ws, t, One(InUse(x)));
  }

  lemma ThreadsUpdate(threads: seq<Pc>, id: nat, pc: Pc)
    requires id < |threads|
    ensures Sum(SurplusWeights(threads[id := pc])) == Sum(SurplusWeights(threads)) - Surplus(threads[id]) + Surplus(pc)
    ensures Sum(EntitledWeights(threads[id := pc])) == Sum(EntitledWeights(threads)) - One(Entitled(threads[id])) + One(Entitled(pc))
  {
    hide Surplus, Entitled;
    var ss, es := SurplusWeights(threads), EntitledWeights(threads);
    assert SurplusWeights(threads[id := pc]) == ss[id := Surplus(pc)];
    assert EntitledWeights(threads[id := pc]) == es[id := One(Entitled(pc))];
    SumUpdate(ss, id, Surplus(pc));
    SumUpdate(es, id, One(Entitled(pc)));
  }

  /** Whoever is entitled to a slot is counted in `occupancy`. */
  lemma EntitledAreCounted(threads: seq<Pc>)
    requires forall id: nat | id < |threads| :: TallyOk(threads[id])
    ensures Sum(EntitledWeights(threads)) <= Sum(SurplusWeights(threads))
  {
    forall id: nat | id < |threads| ensures One(Entitled(threads[id])) <= Surplus(threads[id]) {
      assert TallyOk(threads[id]);
    }
    SumMonotone(EntitledWeights(threads), SurplusWeights(threads));
  }

  lemma StepKeepsRoom(c: Config, w: World, id: nat, ch: Choice)
    requires Inv(c, w) && RoomOk(c, w)
    ensures RoomOk(c, Step(c, w, id, ch))
  {
    if id < |w.threads| && Target(c, w.threads[id], ch) < c.probe.length {
      var pc, t := w.threads[id], Target(c, w.threads[id], ch);
      InvGivesLocalPre(c, w, id, t);
      RoomLocal(c, pc, See(w, t), ch);
      hide Inv, Exec, Target, LocalPre, TallyOk, Entitled, Surplus, SlotsInUse;
      var f := Exec(c, pc, See(w, t), ch);
      UseUpdate(w.slots, t, f.now.slot);
      ThreadsUpdate(w.threads, id, f.pc);
      EntitledAreCounted(w.threads);
    }
  }

  // ---- Runs ----

  lemma InitialRoom(c: Config, n: nat)
    requires c.Valid()
    ensures RoomOk(c, Initial(c, n))
  {
    var w := Initial(c, n);
    SumZero(UseWeights(w.slots));
    SumZero(SurplusWeights(w.threads));
    SumZero(EntitledWeights(w.threads));
  }

  lemma {:induction false} RunKeepsRoom(c: Config, w: World, moves: seq<Move>)
    requires Shape(c, w) && Inv(c, w) && RoomOk(c, w) && CleanRun(c, w, moves)
    ensures RoomOk(c, Run(c, w, moves))
  {
    hide Inv, RoomOk, CleanStep, Step;
    if moves != [] {
      var n := |moves| - 1;
      CleanPrefix(c, w, moves, n);
      RunKeepsRoom(c, w, moves[..n]);
      RunKeepsInv(c, w, moves[..n]);
      StepKeepsRoom(c, Run(c, w, moves[..n]), moves[n].id, moves[n].ch);
    }
  }

  lemma {:induction false} ResidentsAreInUse(p: Probe, slots: seq<Slot>)
    ensures SlotTotal(p, Residents, slots) <= SlotsInUse(slots)
  {
    SumMonotone(SlotWeights(p, Residents, slots), UseWeights(slots));
  }

  /** Fewer slots in use than there are leave one empty. */
  lemma {:induction false} SomeEmpty(slots: seq<Slot>) returns (t: nat)
    requires SlotsInUse(slots) < |slots|
    ensures t < |slots| && slots[t].meta.state.Empty?
  {
    var n := |slots| - 1;
    if InUse(slots[n]) {
      assert UseWeights(slots)[..n] == UseWeights(slots[..n]);
      t := SomeEmpty(slots[..n]);
    } else {
      t := n;
    }
  }

  /**
   After every clean run of any number of threads, the slots in use, with the entries in them, stay
   within the occupancy limit, whatever `occupancy` says; if the limit is below the length, some slot
   is empty.
   */
  lemma RoomIsLeft(c: Config, n: nat, moves: seq<Move>)
    requires c.Valid() && CleanRun(c, Initial(c, n), moves)
    ensures var w := Run(c, Initial(c, n), moves);
            && SlotTotal(c.probe, Residents, w.slots) <= SlotsInUse(w.slots) <= c.limit
            && SlotsInUse(w.slots) <= w.occupancy
            && (c.limit < c.probe.length ==> exists t: nat :: t < c.probe.length && w.slots[t].meta.state.Empty?)
  {
    InitialInv(c, n);
    InitialRoom(c, n);
    RunKeepsRoom(c, Initial(c, n), moves);
    var w := Run(c, Initial(c, n), moves);
    ResidentsAreInUse(c.probe, w.slots);
    EntitledAreCounted(w.threads);
    SumNonNegative(EntitledWeights(w.threads));
    if c.limit < c.probe.length {
      var t := SomeEmpty(w.slots);
    }
  }
}
