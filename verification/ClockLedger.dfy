/**
 The ledgers of the interleaved cache: what each program counter contributes to the displacement
 counters, the reference counters, slot ownership, `usage`, `occupancy` and the deleter log, and
 the proof that every step of one thread balances every ledger locally.
 */
module ClockLedger {
  import opened Sums
  import opened Walk
  import opened MetaWord
  import opened ClockTable
  import opened ClockMachine

  // ---- What a thread contributes ----

  /** The thread has taken slot `t` and alone may write it. */
  ghost predicate Owns(c: Config, pc: Pc, t: nat) {
    match pc
    case Evicting(_, phase) => (phase.EvictUnwind? || phase.EvictFree? || phase.EvictEmpty?) && phase.t == t
    case Placing(h, _, n, phase) => (phase.PlaceWrite? || phase.PlacePublish?) && c.probe.at(h.key, n) == t
    case Hunting(er, n, phase) => (phase.EraseFree? || phase.EraseEmpty?) && c.probe.at(er.key, n) == t
    case _ => false
  }

  /** The thread holds a counted reference to slot `t`. */
  ghost predicate Holds(c: Config, pc: Pc, t: nat) {
    match pc
    case Looking(k, n, phase) => !phase.LookupIncr? && !phase.LookupStop? && c.probe.at(k, n) == t
    case Placing(h, _, n, phase) => (phase.PlaceCompare? || phase.PlaceDecr?) && c.probe.at(h.key, n) == t
    case Hunting(er, n, phase) =>
      (phase.EraseCompare? || phase.EraseHide? || phase.EraseTake? || phase.EraseDecr?) && c.probe.at(er.key, n) == t
    case _ => false
  }

  /** The thread is answerable for one unit of the displacement counter of slot `s`. */
  ghost predicate Claims(c: Config, pc: Pc, s: nat) {
    match pc
    case Evicting(_, phase) =>
      phase.EvictUnwind? && OnPath(c.probe, phase.x.key, phase.j, c.probe.index(phase.x.key, phase.t), s)
    case Placing(h, _, n, phase) => OnPath(c.probe, h.key, if phase.PlaceUnwind? then phase.j else 0, n, s)
    case Hunting(er, n, phase) =>
      (match phase
       case EraseFree(_) => OnPath(c.probe, er.key, 0, n, s)
       case EraseEmpty(_) => OnPath(c.probe, er.key, 0, n, s)
       case EraseOccupancy(_) => OnPath(c.probe, er.key, 0, n, s)
       case EraseUsage(_) => OnPath(c.probe, er.key, 0, n, s)
       case EraseUnwind(j) => OnPath(c.probe, er.key, j, n, s)
       case _ => false)
    case _ => false
  }

  /** Charge taken out of a slot by an erasure and not yet returned. */
  ghost function TakenCharge(phase: ErasePhase): int {
    match phase
    case EraseFree(x) => x.charge
    case EraseEmpty(charge) => charge
    case EraseOccupancy(charge) => charge
    case EraseUsage(charge) => charge
    case _ => 0
  }

  /** The thread's in-flight share of `usage`. */
  ghost function ChargeHeld(pc: Pc): int {
    match pc
    case Evicting(e, _) => e.newUsage - e.oldUsage + e.freedCharge
    case Placing(h, _, _, _) => h.charge
    case Failing(h, phase) => if phase == FailOccupancy(false) then 0 else h.charge
    case Hunting(er, _, phase) => (if er.why.ForInsert? then er.why.h.charge else 0) + TakenCharge(phase)
    case _ => 0
  }

  /** The thread's in-flight share of `occupancy`. */
  ghost function PlacesHeld(pc: Pc): int {
    match pc
    case Reserving(_, phase) => if phase.InsertOccupy? then 0 else 1
    case Evicting(e, phase) => if phase.SettleUsage? then 1 else 1 + e.freedCount
    case Placing(_, _, _, _) => 1
    case Failing(_, phase) => if phase.FailUsage? then 0 else 1
    case Hunting(er, _, phase) =>
      One(er.why.ForInsert?) + One(phase.EraseFree? || phase.EraseEmpty? || phase.EraseOccupancy?)
    case _ => 0
  }

  /** The thread has taken an entry whose deleter is still to run on `v`. */
  ghost predicate Dooms(pc: Pc, v: nat) {
    match pc
    case Evicting(_, phase) => (phase.EvictUnwind? || phase.EvictFree?) && phase.x.Deletes() && phase.x.value == v
    case Hunting(_, _, phase) => phase.EraseFree? && phase.x.Deletes() && phase.x.value == v
    case _ => false
  }

  ghost function PcWeight(c: Config, q: Query, pc: Pc): int {
    match q
    case Passing(s) => One(Claims(c, pc, s))
    case Charges => ChargeHeld(pc)
    case Residents => PlacesHeld(pc)
    case Values(v) => One(Dooms(pc, v))
    case Owners(t) => One(Owns(c, pc, t))
    case Holders(t) => One(Holds(c, pc, t))
  }

  // ---- Well-formed program counters ----

  ghost predicate EvictionOk(c: Config, e: Eviction) {
    && 0 <= e.oldUsage <= e.newUsage <= c.capacity
    && e.newUsage <= e.oldUsage + e.h.charge
    && 0 <= e.freedCharge && 0 <= e.freedCount && 0 <= e.pinned
  }

  ghost predicate EvictPhaseOk(c: Config, phase: EvictPhase) {
    match phase
    case EvictLoad(i) => i < STEP_SIZE
    case EvictDecay(i, seen) => i < STEP_SIZE && seen.refs == 0 && seen.state.Visible?
    case EvictTake(i, seen) => i < STEP_SIZE && seen.refs == 0 && seen.Shareable()
    case EvictUnwind(i, x, t, j) => i < STEP_SIZE && t < c.probe.length && j < c.probe.index(x.key, t)
    case EvictFree(i, _, t) => i < STEP_SIZE && t < c.probe.length
    case EvictEmpty(i, t) => i < STEP_SIZE && t < c.probe.length
    case _ => true
  }

  ghost predicate PcOk(c: Config, pc: Pc) {
    match pc
    case Done(_) => true
    case Looking(_, n, _) => n < c.probe.length
    case Reserving(_, phase) => phase.ChargeCas? ==> 0 <= phase.was <= c.capacity
    case Evicting(e, phase) => EvictionOk(c, e) && EvictPhaseOk(c, phase)
    case Placing(_, _, n, phase) => n < c.probe.length && (phase.PlaceUnwind? ==> phase.j < n)
    case Failing(_, _) => true
    case Hunting(_, n, phase) =>
      n < c.probe.length && (phase.EraseUnwind? ==> phase.j < n) && (phase.EraseTake? ==> phase.seen.refs <= 1)
  }

  /** What a thread relies on about slot `t` while it owns or holds it. */
  ghost predicate ViewOk(c: Config, pc: Pc, t: nat, slot: Slot) {
    match pc
    case Looking(k, n, phase) =>
      (phase.LookupHit? || phase.LookupHitFix?) && c.probe.at(k, n) == t ==> slot.entry.key == k
    case Evicting(_, phase) =>
      (phase.EvictUnwind? || phase.EvictFree?) && phase.t == t ==> slot.entry == phase.x
    case Placing(h, _, n, phase) =>
      phase.PlacePublish? && c.probe.at(h.key, n) == t ==> slot.entry == h
    case Hunting(er, n, phase) =>
      c.probe.at(er.key, n) == t ==>
        && (phase.EraseHide? || phase.EraseTake? ==> slot.entry.key == er.key)
        && (phase.EraseFree? ==> slot.entry == phase.x)
    case _ => true
  }

  lemma WeightsNonNegative(c: Config, q: Query, pc: Pc)
    requires PcOk(c, pc)
    ensures 0 <= PcWeight(c, q, pc)
  {
  }

  /** A view binds only a thread that owns or holds the slot. */
  lemma ViewNeedsTitle(c: Config, pc: Pc, t: nat, slot: Slot)
    requires !Owns(c, pc, t) && !Holds(c, pc, t)
    ensures ViewOk(c, pc, t, slot)
  {
  }

  // ---- One step, seen locally ----

  /** What one thread knows about the slot it is about to access. */
  ghost predicate LocalPre(c: Config, pc: Pc, t: nat, sh: Shared) {
    var m := sh.slot.meta;
    && c.Valid() && PcOk(c, pc) && t < c.probe.length
    && ViewOk(c, pc, t, sh.slot)
    && 0 <= sh.loans && 0 <= sh.usage <= c.capacity
    && (Owns(c, pc, t) ==> m.state.Construction?)
    && (if m.Shareable() then One(Holds(c, pc, t)) + sh.loans <= m.refs
        else sh.loans == 0 && !Holds(c, pc, t) && 0 <= m.refs)
  }

  /** The displacement ledger balances at every slot. */
  ghost predicate Displaces(c: Config, pc: Pc, t: nat, sh: Shared, f: Effect) {
    forall s: nat | s < c.probe.length ::
      (if s == t then f.now.slot.displacements - sh.slot.displacements else 0)
      == SlotWeight(c.probe, Passing(s), t, f.now.slot) - SlotWeight(c.probe, Passing(s), t, sh.slot)
         + PcWeight(c, Passing(s), f.pc) - PcWeight(c, Passing(s), pc)
  }

  /** Ownership follows the Construction state of the slot, and of that slot only. */
  ghost predicate Conveys(c: Config, pc: Pc, t: nat, sh: Shared, f: Effect) {
    && One(f.now.slot.meta.state.Construction?) - One(sh.slot.meta.state.Construction?)
       == PcWeight(c, Owners(t), f.pc) - PcWeight(c, Owners(t), pc)
    && (forall u: nat | u != t :: Owns(c, f.pc, u) <==> Owns(c, pc, u))
    && (f.now.slot.entry != sh.slot.entry ==> Owns(c, pc, t))
  }

  /**
   The reference counter moves with the references held and lent; it restarts at zero when the
   slot is published, and the slot stops being shareable only when its last reference is the
   thread's own.
   */
  ghost predicate Counts(c: Config, pc: Pc, t: nat, sh: Shared, f: Effect) {
    var m, m' := sh.slot.meta, f.now.slot.meta;
    && 0 <= f.now.loans
    && (forall u: nat | u != t :: Holds(c, f.pc, u) <==> Holds(c, pc, u))
    && (if m'.Shareable() then
          if m.Shareable() then
            m'.refs - m.refs == f.now.loans - sh.loans + PcWeight(c, Holders(t), f.pc) - PcWeight(c, Holders(t), pc)
          else
            m'.refs == f.now.loans == 0 && !Holds(c, f.pc, t)
        else
          && f.now.loans == 0 && !Holds(c, f.pc, t) && 0 <= m'.refs
          && (m.Shareable() ==> m.refs == One(Holds(c, pc, t))))
  }

  ghost predicate Balances(c: Config, pc: Pc, t: nat, sh: Shared, f: Effect) {
    var p := c.probe;
    && f.now.usage - sh.usage
       == SlotWeight(p, Charges, t, f.now.slot) - SlotWeight(p, Charges, t, sh.slot) + PcWeight(c, Charges, f.pc) - PcWeight(c, Charges, pc)
    && f.now.usage <= c.capacity
    && f.now.occupancy - sh.occupancy
       == SlotWeight(p, Residents, t, f.now.slot) - SlotWeight(p, Residents, t, sh.slot) + PcWeight(c, Residents, f.pc) - PcWeight(c, Residents, pc)
    && (forall v: nat {:trigger f.inserted[v]} {:trigger f.deleted[v]} ::
          f.inserted[v] + SlotWeight(p, Values(v), t, sh.slot) + PcWeight(c, Values(v), pc)
          == f.deleted[v] + SlotWeight(p, Values(v), t, f.now.slot) + PcWeight(c, Values(v), f.pc))
  }

  ghost predicate Keeps(c: Config, pc: Pc, t: nat, sh: Shared, f: Effect) {
    && PcOk(c, f.pc)
    && ViewOk(c, f.pc, t, f.now.slot)
    && (forall u: nat, x: Slot | u != t && ViewOk(c, pc, u, x) :: ViewOk(c, f.pc, u, x))
  }

  ghost predicate LocalPost(c: Config, pc: Pc, t: nat, sh: Shared, f: Effect) {
    && Displaces(c, pc, t, sh, f)
    && Conveys(c, pc, t, sh, f)
    && Counts(c, pc, t, sh, f)
    && Balances(c, pc, t, sh, f)
    && Keeps(c, pc, t, sh, f)
  }

  // ---- Every step balances every ledger ----

  /** Erase's decrement of a slot it did not find shareable must cancel a stray increment. */
  ghost predicate Clean(pc: Pc, sh: Shared) {
    pc.Hunting? && pc.erase.EraseStray? ==> !sh.slot.meta.Shareable() && sh.slot.meta.refs > 0
  }

  lemma LookupDisplaces(c: Config, k: Key, n: nat, phase: LookupPhase, sh: Shared)
    requires LocalPre(c, Looking(k, n, phase), c.probe.at(k, n), sh)
    ensures Displaces(c, Looking(k, n, phase), c.probe.at(k, n), sh, ExecLookup(c, k, n, phase, sh))
  {
    hide ChargeHeld;
    hide PlacesHeld;
    hide Dooms;
  }

  lemma LookupConveys(c: Config, k: Key, n: nat, phase: LookupPhase, sh: Shared)
    requires LocalPre(c, Looking(k, n, phase), c.probe.at(k, n), sh)
    ensures Conveys(c, Looking(k, n, phase), c.probe.at(k, n), sh, ExecLookup(c, k, n, phase, sh))
  {
    hide ChargeHeld;
    hide PlacesHeld;
    hide Dooms;
    hide Claims;
    hide SlotWeight;
  }

  lemma LookupCounts(c: Config, k: Key, n: nat, phase: LookupPhase, sh: Shared)
    requires LocalPre(c, Looking(k, n, phase), c.probe.at(k, n), sh)
    ensures Counts(c, Looking(k, n, phase), c.probe.at(k, n), sh, ExecLookup(c, k, n, phase, sh))
  {
    hide ChargeHeld;
    hide PlacesHeld;
    hide Dooms;
    hide Claims;
    hide SlotWeight;
  }

  lemma LookupBalances(c: Config, k: Key, n: nat, phase: LookupPhase, sh: Shared)
    requires LocalPre(c, Looking(k, n, phase), c.probe.at(k, n), sh)
    ensures Balances(c, Looking(k, n, phase), c.probe.at(k, n), sh, ExecLookup(c, k, n, phase, sh))
  {
    hide Claims;
    hide OnPath;
  }

  lemma LookupKeeps(c: Config, k: Key, n: nat, phase: LookupPhase, sh: Shared)
    requires LocalPre(c, Looking(k, n, phase), c.probe.at(k, n), sh)
    ensures Keeps(c, Looking(k, n, phase), c.probe.at(k, n), sh, ExecLookup(c, k, n, phase, sh))
  {
    hide ChargeHeld;
    hide PlacesHeld;
    hide Dooms;
    hide Claims;
    hide SlotWeight;
  }

  lemma LookupLocal(c: Config, k: Key, n: nat, phase: LookupPhase, sh: Shared)
    requires LocalPre(c, Looking(k, n, phase), c.probe.at(k, n), sh)
    ensures LocalPost(c, Looking(k, n, phase), c.probe.at(k, n), sh, ExecLookup(c, k, n, phase, sh))
  {
    hide ExecLookup;
    hide LocalPre;
    hide Displaces;
    hide Conveys;
    hide Counts;
    hide Balances;
    hide Keeps;
    LookupDisplaces(c, k, n, phase, sh);
    LookupConveys(c, k, n, phase, sh);
    LookupCounts(c, k, n, phase, sh);
    LookupBalances(c, k, n, phase, sh);
    LookupKeeps(c, k, n, phase, sh);
  }

  lemma DoneDisplaces(c: Config, result: Result, t: nat, sh: Shared, ch: Choice)
    requires LocalPre(c, Done(result), t, sh)
    ensures Displaces(c, Done(result), t, sh, ExecDone(result, sh, ch))
  {
    hide ChargeHeld;
    hide PlacesHeld;
    hide Dooms;
  }

  lemma DoneConveys(c: Config, result: Result, t: nat, sh: Shared, ch: Choice)
    requires LocalPre(c, Done(result), t, sh)
    ensures Conveys(c, Done(result), t, sh, ExecDone(result, sh, ch))
  {
    hide ChargeHeld;
    hide PlacesHeld;
    hide Dooms;
    hide Claims;
    hide SlotWeight;
  }

  lemma DoneCounts(c: Config, result: Result, t: nat, sh: Shared, ch: Choice)
    requires LocalPre(c, Done(result), t, sh)
    ensures Counts(c, Done(result), t, sh, ExecDone(result, sh, ch))
  {
    hide ChargeHeld;
    hide PlacesHeld;
    hide Dooms;
    hide Claims;
    hide SlotWeight;
  }

  lemma DoneBalances(c: Config, result: Result, t: nat, sh: Shared, ch: Choice)
    requires LocalPre(c, Done(result), t, sh)
    ensures Balances(c, Done(result), t, sh, ExecDone(result, sh, ch))
  {
    hide Claims;
    hide OnPath;
  }

  lemma DoneKeeps(c: Config, result: Result, t: nat, sh: Shared, ch: Choice)
    requires LocalPre(c, Done(result), t, sh)
    ensures Keeps(c, Done(result), t, sh, ExecDone(result, sh, ch))
  {
    hide ChargeHeld;
    hide PlacesHeld;
    hide Dooms;
    hide Claims;
    hide SlotWeight;
  }

  lemma DoneLocal(c: Config, result: Result, t: nat, sh: Shared, ch: Choice)
    requires LocalPre(c, Done(result), t, sh)
    ensures LocalPost(c, Done(result), t, sh, ExecDone(result, sh, ch))
  {
    hide ExecDone;
    hide LocalPre;
    hide Displaces;
    hide Conveys;
    hide Counts;
    hide Balances;
    hide Keeps;
    DoneDisplaces(c, result, t, sh, ch);
    DoneConveys(c, result, t, sh, ch);
    DoneCounts(c, result, t, sh, ch);
    DoneBalances(c, result, t, sh, ch);
    DoneKeeps(c, result, t, sh, ch);
  }

  lemma ReserveDisplaces(c: Config, h: Handle, phase: ReservePhase, t: nat, sh: Shared, ch: Choice)
    requires LocalPre(c, Reserving(h, phase), t, sh)
    ensures Displaces(c, Reserving(h, phase), t, sh, ExecReserve(c, h, phase, sh, ch))
  {
    hide ChargeHeld;
    hide PlacesHeld;
    hide Dooms;
  }

  lemma ReserveConveys(c: Config, h: Handle, phase: ReservePhase, t: nat, sh: Shared, ch: Choice)
    requires LocalPre(c, Reserving(h, phase), t, sh)
    ensures Conveys(c, Reserving(h, phase), t, sh, ExecReserve(c, h, phase, sh, ch))
  {
    hide ChargeHeld;
    hide PlacesHeld;
    hide Dooms;
    hide Claims;
    hide SlotWeight;
  }

  lemma ReserveCounts(c: Config, h: Handle, phase: ReservePhase, t: nat, sh: Shared, ch: Choice)
    requires LocalPre(c, Reserving(h, phase), t, sh)
    ensures Counts(c, Reserving(h, phase), t, sh, ExecReserve(c, h, phase, sh, ch))
  {
    hide ChargeHeld;
    hide PlacesHeld;
    hide Dooms;
    hide Claims;
    hide SlotWeight;
  }

  lemma ReserveBalances(c: Config, h: Handle, phase: ReservePhase, t: nat, sh: Shared, ch: Choice)
    requires LocalPre(c, Reserving(h, phase), t, sh)
    ensures Balances(c, Reserving(h, phase), t, sh, ExecReserve(c, h, phase, sh, ch))
  {
    hide Claims;
    hide OnPath;
  }

  lemma ReserveKeeps(c: Config, h: Handle, phase: ReservePhase, t: nat, sh: Shared, ch: Choice)
    requires LocalPre(c, Reserving(h, phase), t, sh)
    ensures Keeps(c, Reserving(h, phase), t, sh, ExecReserve(c, h, phase, sh, ch))
  {
    hide ChargeHeld;
    hide PlacesHeld;
    hide Dooms;
    hide Claims;
    hide SlotWeight;
  }

  lemma ReserveLocal(c: Config, h: Handle, phase: ReservePhase, t: nat, sh: Shared, ch: Choice)
    requires LocalPre(c, Reserving(h, phase), t, sh)
    ensures LocalPost(c, Reserving(h, phase), t, sh, ExecReserve(c, h, phase, sh, ch))
  {
    hide ExecReserve;
    hide LocalPre;
    hide Displaces;
    hide Conveys;
    hide Counts;
    hide Balances;
    hide Keeps;
    ReserveDisplaces(c, h, phase, t, sh, ch);
    ReserveConveys(c, h, phase, t, sh, ch);
    ReserveCounts(c, h, phase, t, sh, ch);
    ReserveBalances(c, h, phase, t, sh, ch);
    ReserveKeeps(c, h, phase, t, sh, ch);
  }

  lemma EvictDisplaces(c: Config, e: Eviction, phase: EvictPhase, t: nat, sh: Shared, ch: Choice)
    requires c.probe.length > 0 && t == EvictAccess(c, e, phase)
    requires LocalPre(c, Evicting(e, phase), t, sh)
    ensures Displaces(c, Evicting(e, phase), t, sh, ExecEvict(c, e, phase, sh, ch))
  {
    hide ChargeHeld;
    hide PlacesHeld;
    hide Dooms;
  }

  lemma EvictConveys(c: Config, e: Eviction, phase: EvictPhase, t: nat, sh: Shared, ch: Choice)
    requires c.probe.length > 0 && t == EvictAccess(c, e, phase)
    requires LocalPre(c, Evicting(e, phase), t, sh)
    ensures Conveys(c, Evicting(e, phase), t, sh, ExecEvict(c, e, phase, sh, ch))
  {
    hide ChargeHeld;
    hide PlacesHeld;
    hide Dooms;
    hide Claims;
    hide SlotWeight;
  }

  lemma EvictCounts(c: Config, e: Eviction, phase: EvictPhase, t: nat, sh: Shared, ch: Choice)
    requires c.probe.length > 0 && t == EvictAccess(c, e, phase)
    requires LocalPre(c, Evicting(e, phase), t, sh)
    ensures Counts(c, Evicting(e, phase), t, sh, ExecEvict(c, e, phase, sh, ch))
  {
    hide ChargeHeld;
    hide PlacesHeld;
    hide Dooms;
    hide Claims;
    hide SlotWeight;
  }

  lemma EvictBalances(c: Config, e: Eviction, phase: EvictPhase, t: nat, sh: Shared, ch: Choice)
    requires c.probe.length > 0 && t == EvictAccess(c, e, phase)
    requires LocalPre(c, Evicting(e, phase), t, sh)
    ensures Balances(c, Evicting(e, phase), t, sh, ExecEvict(c, e, phase, sh, ch))
  {
    hide Claims;
    hide OnPath;
    hide Holds;
  }

  lemma EvictKeepsPc(c: Config, e: Eviction, phase: EvictPhase, t: nat, sh: Shared, ch: Choice)
    requires c.probe.length > 0 && t == EvictAccess(c, e, phase)
    requires LocalPre(c, Evicting(e, phase), t, sh)
    ensures PcOk(c, ExecEvict(c, e, phase, sh, ch).pc)
  {
    hide ChargeHeld;
    hide PlacesHeld;
    hide Dooms;
    hide Claims;
    hide SlotWeight;
  }

  lemma EvictKeepsViews(c: Config, e: Eviction, phase: EvictPhase, t: nat, sh: Shared, ch: Choice)
    requires c.probe.length > 0 && t == EvictAccess(c, e, phase)
    requires LocalPre(c, Evicting(e, phase), t, sh)
    ensures ViewOk(c, ExecEvict(c, e, phase, sh, ch).pc, t, ExecEvict(c, e, phase, sh, ch).now.slot)
    ensures forall u: nat, x: Slot | u != t && ViewOk(c, Evicting(e, phase), u, x) :: ViewOk(c, ExecEvict(c, e, phase, sh, ch).pc, u, x)
  {
    hide ChargeHeld;
    hide PlacesHeld;
    hide Dooms;
    hide Claims;
    hide SlotWeight;
  }

  lemma EvictKeeps(c: Config, e: Eviction, phase: EvictPhase, t: nat, sh: Shared, ch: Choice)
    requires c.probe.length > 0 && t == EvictAccess(c, e, phase)
    requires LocalPre(c, Evicting(e, phase), t, sh)
    ensures Keeps(c, Evicting(e, phase), t, sh, ExecEvict(c, e, phase, sh, ch))
  {
    hide ExecEvict, LocalPre, PcOk, ViewOk;
    EvictKeepsPc(c, e, phase, t, sh, ch);
    EvictKeepsViews(c, e, phase, t, sh, ch);
  }

  lemma EvictLocal(c: Config, e: Eviction, phase: EvictPhase, t: nat, sh: Shared, ch: Choice)
    requires c.probe.length > 0 && t == EvictAccess(c, e, phase)
    requires LocalPre(c, Evicting(e, phase), t, sh)
    ensures LocalPost(c, Evicting(e, phase), t, sh, ExecEvict(c, e, phase, sh, ch))
  {
    hide ExecEvict;
    hide LocalPre;
    hide Displaces;
    hide Conveys;
    hide Counts;
    hide Balances;
    hide Keeps;
    EvictDisplaces(c, e, phase, t, sh, ch);
    EvictConveys(c, e, phase, t, sh, ch);
    EvictCounts(c, e, phase, t, sh, ch);
    EvictBalances(c, e, phase, t, sh, ch);
    EvictKeeps(c, e, phase, t, sh, ch);
  }

  lemma PlaceDisplacesAt(c: Config, h: Handle, again: bool, n: nat, phase: PlacePhase, t: nat, sh: Shared, s: nat)
    requires t == c.probe.at(h.key, if phase.PlaceUnwind? then phase.j else n) && s < c.probe.length
    requires LocalPre(c, Placing(h, again, n, phase), t, sh)
    ensures var f := ExecPlace(c, h, again, n, phase, sh);
            (if s == t then f.now.slot.displacements - sh.slot.displacements else 0)
            == SlotWeight(c.probe, Passing(s), t, f.now.slot) - SlotWeight(c.probe, Passing(s), t, sh.slot)
               + PcWeight(c, Passing(s), f.pc) - PcWeight(c, Passing(s), Placing(h, again, n, phase))
  {
    hide ChargeHeld;
    hide PlacesHeld;
    hide Dooms;
    var p := c.probe;
    assert p.index(h.key, p.at(h.key, n)) == n;
    if phase.PlaceUnwind? {
      assert p.index(h.key, p.at(h.key, phase.j)) == phase.j;
    }
    assert p.at(h.key, p.index(h.key, s)) == s;
  }

  lemma PlaceDisplaces(c: Config, h: Handle, again: bool, n: nat, phase: PlacePhase, t: nat, sh: Shared)
    requires t == c.probe.at(h.key, if phase.PlaceUnwind? then phase.j else n)
    requires LocalPre(c, Placing(h, again, n, phase), t, sh)
    ensures Displaces(c, Placing(h, again, n, phase), t, sh, ExecPlace(c, h, again, n, phase, sh))
  {
    hide ExecPlace;
    hide LocalPre;
    hide SlotWeight;
    hide PcWeight;
    var f := ExecPlace(c, h, again, n, phase, sh);
    forall s: nat | s < c.probe.length
      ensures (if s == t then f.now.slot.displacements - sh.slot.displacements else 0)
              == SlotWeight(c.probe, Passing(s), t, f.now.slot) - SlotWeight(c.probe, Passing(s), t, sh.slot)
                 + PcWeight(c, Passing(s), f.pc) - PcWeight(c, Passing(s), Placing(h, again, n, phase))
    {
      PlaceDisplacesAt(c, h, again, n, phase, t, sh, s);
    }
  }

  lemma PlaceConveys(c: Config, h: Handle, again: bool, n: nat, phase: PlacePhase, t: nat, sh: Shared)
    requires t == c.probe.at(h.key, if phase.PlaceUnwind? then phase.j else n)
    requires LocalPre(c, Placing(h, again, n, phase), t, sh)
    ensures Conveys(c, Placing(h, again, n, phase), t, sh, ExecPlace(c, h, again, n, phase, sh))
  {
    hide ChargeHeld;
    hide PlacesHeld;
    hide Dooms;
    hide Claims;
    hide SlotWeight;
  }

  lemma PlaceCounts(c: Config, h: Handle, again: bool, n: nat, phase: PlacePhase, t: nat, sh: Shared)
    requires t == c.probe.at(h.key, if phase.PlaceUnwind? then phase.j else n)
    requires LocalPre(c, Placing(h, again, n, phase), t, sh)
    ensures Counts(c, Placing(h, again, n, phase), t, sh, ExecPlace(c, h, again, n, phase, sh))
  {
    hide ChargeHeld;
    hide PlacesHeld;
    hide Dooms;
    hide Claims;
    hide SlotWeight;
  }

  lemma PlaceBalances(c: Config, h: Handle, again: bool, n: nat, phase: PlacePhase, t: nat, sh: Shared)
    requires t == c.probe.at(h.key, if phase.PlaceUnwind? then phase.j else n)
    requires LocalPre(c, Placing(h, again, n, phase), t, sh)
    ensures Balances(c, Placing(h, again, n, phase), t, sh, ExecPlace(c, h, again, n, phase, sh))
  {
    hide Claims;
    hide OnPath;
  }

  lemma PlaceKeeps(c: Config, h: Handle, again: bool, n: nat, phase: PlacePhase, t: nat, sh: Shared)
    requires t == c.probe.at(h.key, if phase.PlaceUnwind? then phase.j else n)
    requires LocalPre(c, Placing(h, again, n, phase), t, sh)
    ensures Keeps(c, Placing(h, again, n, phase), t, sh, ExecPlace(c, h, again, n, phase, sh))
  {
    hide ChargeHeld;
    hide PlacesHeld;
    hide Dooms;
    hide Claims;
    hide SlotWeight;
  }

  lemma PlaceLocal(c: Config, h: Handle, again: bool, n: nat, phase: PlacePhase, t: nat, sh: Shared)
    requires t == c.probe.at(h.key, if phase.PlaceUnwind? then phase.j else n)
    requires LocalPre(c, Placing(h, again, n, phase), t, sh)
    ensures LocalPost(c, Placing(h, again, n, phase), t, sh, ExecPlace(c, h, again, n, phase, sh))
  {
    hide ExecPlace;
    hide LocalPre;
    hide Displaces;
    hide Conveys;
    hide Counts;
    hide Balances;
    hide Keeps;
    PlaceDisplaces(c, h, again, n, phase, t, sh);
    PlaceConveys(c, h, again, n, phase, t, sh);
    PlaceCounts(c, h, again, n, phase, t, sh);
    PlaceBalances(c, h, again, n, phase, t, sh);
    PlaceKeeps(c, h, again, n, phase, t, sh);
  }

  lemma FailLocal(c: Config, h: Handle, phase: FailPhase, t: nat, sh: Shared)
    requires LocalPre(c, Failing(h, phase), t, sh)
    ensures LocalPost(c, Failing(h, phase), t, sh, ExecFail(h, phase, sh))
  {
  }

  lemma EraseDisplaces(c: Config, er: Erasing, n: nat, phase: ErasePhase, t: nat, sh: Shared, ch: Choice)
    requires t == c.probe.at(er.key, if phase.EraseUnwind? then phase.j else n)
    requires Clean(Hunting(er, n, phase), sh)
    requires LocalPre(c, Hunting(er, n, phase), t, sh)
    ensures Displaces(c, Hunting(er, n, phase), t, sh, ExecErase(c, er, n, phase, sh, ch))
  {
    assert n < c.probe.length && c.probe.index(er.key, c.probe.at(er.key, n)) == n;
    hide ChargeHeld;
    hide PlacesHeld;
    hide Dooms;
  }

  lemma EraseConveys(c: Config, er: Erasing, n: nat, phase: ErasePhase, t: nat, sh: Shared, ch: Choice)
    requires t == c.probe.at(er.key, if phase.EraseUnwind? then phase.j else n)
    requires Clean(Hunting(er, n, phase), sh)
    requires LocalPre(c, Hunting(er, n, phase), t, sh)
    ensures Conveys(c, Hunting(er, n, phase), t, sh, ExecErase(c, er, n, phase, sh, ch))
  {
    hide ChargeHeld;
    hide PlacesHeld;
    hide Dooms;
    hide Claims;
    hide SlotWeight;
  }

  lemma EraseCounts(c: Config, er: Erasing, n: nat, phase: ErasePhase, t: nat, sh: Shared, ch: Choice)
    requires t == c.probe.at(er.key, if phase.EraseUnwind? then phase.j else n)
    requires Clean(Hunting(er, n, phase), sh)
    requires LocalPre(c, Hunting(er, n, phase), t, sh)
    ensures Counts(c, Hunting(er, n, phase), t, sh, ExecErase(c, er, n, phase, sh, ch))
  {
    hide ChargeHeld;
    hide PlacesHeld;
    hide Dooms;
    hide Claims;
    hide SlotWeight;
  }

  lemma EraseBalances(c: Config, er: Erasing, n: nat, phase: ErasePhase, t: nat, sh: Shared, ch: Choice)
    requires t == c.probe.at(er.key, if phase.EraseUnwind? then phase.j else n)
    requires Clean(Hunting(er, n, phase), sh)
    requires LocalPre(c, Hunting(er, n, phase), t, sh)
    ensures Balances(c, Hunting(er, n, phase), t, sh, ExecErase(c, er, n, phase, sh, ch))
  {
    hide Claims;
    hide OnPath;
  }

  lemma EraseKeeps(c: Config, er: Erasing, n: nat, phase: ErasePhase, t: nat, sh: Shared, ch: Choice)
    requires t == c.probe.at(er.key, if phase.EraseUnwind? then phase.j else n)
    requires Clean(Hunting(er, n, phase), sh)
    requires LocalPre(c, Hunting(er, n, phase), t, sh)
    ensures Keeps(c, Hunting(er, n, phase), t, sh, ExecErase(c, er, n, phase, sh, ch))
  {
    hide ChargeHeld;
    hide PlacesHeld;
    hide Dooms;
    hide Claims;
    hide SlotWeight;
  }

  lemma EraseLocal(c: Config, er: Erasing, n: nat, phase: ErasePhase, t: nat, sh: Shared, ch: Choice)
    requires t == c.probe.at(er.key, if phase.EraseUnwind? then phase.j else n)
    requires Clean(Hunting(er, n, phase), sh)
    requires LocalPre(c, Hunting(er, n, phase), t, sh)
    ensures LocalPost(c, Hunting(er, n, phase), t, sh, ExecErase(c, er, n, phase, sh, ch))
  {
    hide ExecErase;
    hide LocalPre;
    hide Displaces;
    hide Conveys;
    hide Counts;
    hide Balances;
    hide Keeps;
    EraseDisplaces(c, er, n, phase, t, sh, ch);
    EraseConveys(c, er, n, phase, t, sh, ch);
    EraseCounts(c, er, n, phase, t, sh, ch);
    EraseBalances(c, er, n, phase, t, sh, ch);
    EraseKeeps(c, er, n, phase, t, sh, ch);
  }
}
