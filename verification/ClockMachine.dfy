/**
 The CLOCK cache as an interleaving of atomic steps of any number of threads.

 A thread is a program counter with its local variables. Each step performs at most one atomic
 access to shared memory (plus reads or writes of a slot the thread has taken or holds), so it
 touches at most one slot. `Exec` gives the step of one thread; `Step` applies it to the world.
 */
module ClockMachine {
  import opened Sums
  import opened Walk
  import opened MetaWord
  import opened ClockTable

  /** `probe` is the probe order, `limit` the occupancy limit. */
  datatype Config = Config(probe: Probe, capacity: nat, limit: nat) {
    ghost predicate Valid() {
      Permutes(probe)
    }
  }

  datatype Result = Nothing | Found(slot: nat) | Missed(key: Key) | Inserted(ok: bool) | Erased(ok: bool) | Released

  /** Local variables of an insertion while it makes room. */
  datatype Eviction = Eviction(
    h: Handle, crowded: bool, oldUsage: int, newUsage: int,
    freedCharge: int, freedCount: int, pinned: int, at: nat, max: nat)
  {
    function Need(): int {
      oldUsage + h.charge - newUsage
    }

    function Request(): int {
      if crowded && Need() == 0 then 1 else Need()
    }

    predicate EffortExceeded() {
      (freedCount + 1) * EFFORT_CAP <= pinned
    }
  }

  datatype Why = Alone | ForInsert(h: Handle)

  /** Local variables of an erasure, which is an operation of its own or part of an insertion. */
  datatype Erasing = Erasing(key: Key, found: bool, succ: bool, why: Why)

  // Program counters are named after the next shared access of the thread.

  datatype LookupPhase =
    | LookupIncr | LookupCompare | LookupHit | LookupHitFix(excess: int) | LookupDecr | LookupStop

  datatype ReservePhase =
    | InsertOccupy | ChargeLoad(crowded: bool) | ChargeCas(crowded: bool, was: int)

  /** `i` counts the slots of the current round; `x` is the entry taken from slot `t`. */
  datatype EvictPhase =
    | EvictStart | EvictLoad(i: nat) | EvictDecay(i: nat, seen: Meta) | EvictTake(i: nat, seen: Meta)
    | EvictUnwind(i: nat, x: Handle, t: nat, j: nat) | EvictFree(i: nat, x: Handle, t: nat) | EvictEmpty(i: nat, t: nat)
    | EvictClock | SettleOccupancy | SettleUsage

  datatype PlacePhase =
    | PlaceOr | PlaceWrite | PlacePublish | PlaceIncr | PlaceCompare | PlaceDecr(matched: bool)
    | PlaceNext | PlaceUnwind(j: nat, matched: bool)

  datatype FailPhase = FailOccupancy(refund: bool) | FailUsage

  datatype ErasePhase =
    | EraseIncr | EraseCompare | EraseHide | EraseTake(seen: Meta) | EraseFree(x: Handle) | EraseEmpty(charge: nat)
    | EraseOccupancy(charge: nat) | EraseUsage(charge: nat) | EraseUnwind(j: nat)
    | EraseDecr | EraseStray | EraseStop

  /** In the probing phases `n` counts the slots already passed; `again` marks the second attempt. */
  datatype Pc =
    | Done(result: Result)
    | Looking(k: Key, n: nat, look: LookupPhase)
    | Reserving(h: Handle, reserve: ReservePhase)
    | Evicting(e: Eviction, evict: EvictPhase)
    | Placing(h: Handle, again: bool, n: nat, place: PlacePhase)
    | Failing(h: Handle, fail: FailPhase)
    | Hunting(er: Erasing, n: nat, erase: ErasePhase)

  /** What the environment decides about a step. */
  datatype Op = Rest | StartLookup(k: Key) | StartInsert(h: Handle) | StartErase(k: Key) | StartRelease(t: nat)
  datatype Choice = Choice(op: Op, spurious: bool, decay: nat)

  /** The part of the world one step can see: the slot it targets and the global counters. */
  datatype Shared = Shared(slot: Slot, loans: int, usage: int, occupancy: int, clock: nat)

  /** The outcome of a step; the last two fields log deleter-carrying values put in and deleted. */
  datatype Effect = Effect(pc: Pc, now: Shared, inserted: multiset<nat>, deleted: multiset<nat>)

  ghost function Go(pc: Pc, now: Shared): Effect {
    Effect(pc, now, multiset{}, multiset{})
  }

  ghost function WithMeta(sh: Shared, m: Meta): Shared {
    sh.(slot := sh.slot.(meta := m))
  }

  ghost function WithDisplacements(sh: Shared, delta: int): Shared {
    sh.(slot := sh.slot.(displacements := sh.slot.displacements + delta))
  }

  // ---- Lookup and Release ----

  ghost function ExecLookup(c: Config, k: Key, n: nat, phase: LookupPhase, sh: Shared): Effect {
    var m := sh.slot.meta;
    match phase
    case LookupIncr =>
      Go(Looking(k, n, match m.state
                       case Visible => LookupCompare
                       case Invisible => LookupDecr
                       case _ => LookupStop),
         WithMeta(sh, AddRefs(m, 1)))
    case LookupCompare =>
      Go(Looking(k, n, if sh.slot.entry.key == k then LookupHit else LookupDecr), sh)
    case LookupHit =>
      var excess := m.hits + 1 - MAX_HIT_COUNT;
      if excess > 0 then
        Go(Looking(k, n, LookupHitFix(excess)), WithMeta(sh, AddHits(m, 1)))
      else
        Go(Done(Found(c.probe.at(k, n))), WithMeta(sh, AddHits(m, 1)).(loans := sh.loans + 1))
    case LookupHitFix(excess) =>
      Go(Done(Found(c.probe.at(k, n))), WithMeta(sh, AddHits(m, -excess)).(loans := sh.loans + 1))
    case LookupDecr =>
      Go(Looking(k, n, LookupStop), WithMeta(sh, AddRefs(m, -1)))
    case LookupStop =>
      Go(if sh.slot.displacements == 0 || n + 1 == c.probe.length then Done(Missed(k)) else Looking(k, n + 1, LookupIncr), sh)
  }

  ghost function ExecDone(result: Result, sh: Shared, ch: Choice): Effect {
    match ch.op
    case Rest => Go(Done(result), sh)
    case StartLookup(k) => Go(Looking(k, 0, LookupIncr), sh)
    case StartInsert(h) => Go(Reserving(h, InsertOccupy), sh)
    case StartErase(k) => Go(Hunting(Erasing(k, false, false, Alone), 0, EraseIncr), sh)
    case StartRelease(t) =>
      // callers release what Lookup gave out, and nothing else
      if sh.loans > 0 then
        Go(Done(Released), WithMeta(sh, AddRefs(sh.slot.meta, -1)).(loans := sh.loans - 1))
      else
        Go(Done(result), sh)
  }

  // ---- Insert: reservation ----

  ghost function AfterCharge(h: Handle, crowded: bool, was: int, becomes: int): Pc {
    var e := Eviction(h, crowded, was, becomes, 0, 0, 0, 0, 0);
    if e.Request() > 0 then Evicting(e, EvictStart) else Placing(h, false, 0, PlaceOr)
  }

  /** The loop breaks without a compare-and-swap when there is nothing to add. */
  ghost function ToChargeCas(c: Config, h: Handle, crowded: bool, was: int): Pc {
    if Min(c.capacity, was + h.charge) == was then AfterCharge(h, crowded, was, was)
    else Reserving(h, ChargeCas(crowded, was))
  }

  ghost function Min(a: int, b: int): int {
    if a < b then a else b
  }

  ghost function Max(a: int, b: int): int {
    if a < b then b else a
  }

  ghost function ExecReserve(c: Config, h: Handle, phase: ReservePhase, sh: Shared, ch: Choice): Effect {
    match phase
    case InsertOccupy =>
      Go(Reserving(h, ChargeLoad(sh.occupancy + 1 > c.limit)), sh.(occupancy := sh.occupancy + 1))
    case ChargeLoad(crowded) =>
      Go(ToChargeCas(c, h, crowded, sh.usage), sh)
    case ChargeCas(crowded, was) =>
      if ch.spurious || sh.usage != was then
        Go(ToChargeCas(c, h, crowded, sh.usage), sh)
      else
        var becomes := Min(c.capacity, was + h.charge);
        Go(AfterCharge(h, crowded, was, becomes), sh.(usage := becomes))
  }

  // ---- Insert: eviction ----

  /** The local decision after slot `i` of a round. */
  ghost function AfterSlot(e: Eviction, i: nat): Pc {
    Evicting(e,
      if i + 1 < STEP_SIZE then EvictLoad(i + 1)
      else if e.freedCharge >= e.Request() || e.at >= e.max || e.EffortExceeded() then SettleOccupancy
      else EvictClock)
  }

  ghost function ToEvictUnwind(c: Config, e: Eviction, i: nat, x: Handle, t: nat, j: nat): Pc {
    Evicting(e, if c.probe.at(x.key, j) != t then EvictUnwind(i, x, t, j) else EvictFree(i, x, t))
  }

  ghost function EvictTarget(c: Config, e: Eviction, i: nat): nat
    requires c.probe.length > 0
  {
    (e.at + i) % c.probe.length
  }

  ghost function ExecEvict(c: Config, e: Eviction, phase: EvictPhase, sh: Shared, ch: Choice): Effect
    requires c.probe.length > 0
  {
    var m := sh.slot.meta;
    match phase
    case EvictStart =>
      Go(Evicting(e.(at := sh.clock, max := sh.clock + MAX_COUNTDOWN * c.probe.length), EvictLoad(0)),
         sh.(clock := sh.clock + STEP_SIZE))
    case EvictLoad(i) =>
      Go(if !m.Shareable() then AfterSlot(e, i)
         else if m.refs > 0 then AfterSlot(e.(pinned := e.pinned + 1), i)
         else if m.state.Visible? && m.hits > 0 then Evicting(e, EvictDecay(i, m))
         else Evicting(e, EvictTake(i, m)), sh)
    case EvictDecay(i, seen) =>
      var hits := Max(seen.hits - (ch.decay + 1), 0);
      Go(AfterSlot(e, i), if m == seen then WithMeta(sh, Meta(0, hits, seen.hitBit, Visible)) else sh)
    case EvictTake(i, seen) =>
      if m == seen then
        var x := sh.slot.entry;
        var e' := e.(freedCharge := e.freedCharge + x.charge, freedCount := e.freedCount + 1);
        Go(ToEvictUnwind(c, e', i, x, EvictTarget(c, e, i), 0), WithMeta(sh, Meta(0, 0, seen.hitBit, Construction)))
      else
        Go(AfterSlot(e, i), sh)
    case EvictUnwind(i, x, t, j) =>
      Go(ToEvictUnwind(c, e, i, x, t, j + 1), WithDisplacements(sh, -1))
    case EvictFree(i, x, t) =>
      Free(Evicting(e, EvictEmpty(i, t)), sh)
    case EvictEmpty(i, t) =>
      Go(AfterSlot(e, i), WithMeta(sh, Vacant()))
    case EvictClock =>
      Go(Evicting(e.(at := sh.clock), EvictLoad(0)), sh.(clock := sh.clock + STEP_SIZE))
    case SettleOccupancy =>
      Go(Evicting(e, SettleUsage), sh.(occupancy := sh.occupancy - e.freedCount))
    case SettleUsage =>
      if e.freedCharge > e.Need() then
        Go(Placing(e.h, false, 0, PlaceOr), sh.(usage := sh.usage - (e.freedCharge - e.Need())))
      else if e.freedCharge < e.Need() || (e.crowded && e.freedCount == 0) then
        Go(Failing(e.h, FailOccupancy(false)), sh.(usage := sh.usage - (e.freedCharge + (e.newUsage - e.oldUsage))))
      else
        Go(Placing(e.h, false, 0, PlaceOr), sh)
  }

  /** `FreeData` on the targeted slot: the deleter runs on its value, if it has both. */
  ghost function Free(pc: Pc, sh: Shared): Effect {
    var x := sh.slot.entry;
    Effect(pc, sh.(slot := sh.slot.(entry := x.FreeData())), multiset{}, Logged(x))
  }

  ghost function Logged(h: Handle): multiset<nat> {
    if h.Deletes() then multiset{h.value} else multiset{}
  }

  // ---- Insert: placement ----

  ghost function PlaceEnd(h: Handle, again: bool, matched: bool): Pc {
    if matched && !again then Hunting(Erasing(h.key, false, false, ForInsert(h)), 0, EraseIncr)
    else Failing(h, FailOccupancy(true))
  }

  ghost function ToPlaceUnwind(c: Config, h: Handle, again: bool, n: nat, j: nat, matched: bool): Pc {
    if c.probe.at(h.key, j) != c.probe.at(h.key, n) then Placing(h, again, n, PlaceUnwind(j, matched))
    else PlaceEnd(h, again, matched)
  }

  ghost function ExecPlace(c: Config, h: Handle, again: bool, n: nat, phase: PlacePhase, sh: Shared): Effect {
    var m := sh.slot.meta;
    match phase
    case PlaceOr =>
      Go(Placing(h, again, n, match m.state
                              case Empty => PlaceWrite
                              case Visible => PlaceIncr
                              case _ => PlaceNext),
         WithMeta(sh, Occupy(m)))
    case PlaceWrite =>
      Go(Placing(h, again, n, PlacePublish), sh.(slot := sh.slot.(entry := h)))
    case PlacePublish =>
      Effect(Done(Inserted(true)), WithMeta(sh, Published()), Logged(h), multiset{})
    case PlaceIncr =>
      Go(Placing(h, again, n, match m.state
                              case Visible => PlaceCompare
                              case Invisible => PlaceDecr(false)
                              case _ => PlaceNext),
         WithMeta(sh, AddRefs(m, 1)))
    case PlaceCompare =>
      Go(Placing(h, again, n, PlaceDecr(sh.slot.entry.key == h.key)), sh)
    case PlaceDecr(matched) =>
      Go(if matched then ToPlaceUnwind(c, h, again, n, 0, true) else Placing(h, again, n, PlaceNext), WithMeta(sh, AddRefs(m, -1)))
    case PlaceNext =>
      if n + 1 == c.probe.length then
        Go(ToPlaceUnwind(c, h, again, n, 0, false), sh)
      else
        Go(Placing(h, again, n + 1, PlaceOr), WithDisplacements(sh, 1))
    case PlaceUnwind(j, matched) =>
      Go(ToPlaceUnwind(c, h, again, n, j + 1, matched), WithDisplacements(sh, -1))
  }

  ghost function ExecFail(h: Handle, phase: FailPhase, sh: Shared): Effect {
    match phase
    case FailOccupancy(refund) =>
      Go(if refund then Failing(h, FailUsage) else Done(Inserted(false)), sh.(occupancy := sh.occupancy - 1))
    case FailUsage =>
      Go(Done(Inserted(false)), sh.(usage := sh.usage - h.charge))
  }

  // ---- Erase ----

  ghost function EraseEnd(er: Erasing): Pc {
    var ok := er.succ || !er.found;
    match er.why
    case Alone => Done(Erased(ok))
    case ForInsert(h) => if ok then Placing(h, true, 0, PlaceOr) else Failing(h, FailOccupancy(true))
  }

  /** The retry loop around the compare-and-swap, up to its next shared access. */
  ghost function ToEraseTake(er: Erasing, n: nat, seen: Meta): Pc {
    Hunting(er, n, if seen.refs > 1 then EraseDecr else EraseTake(seen))
  }

  ghost function ToEraseUnwind(c: Config, er: Erasing, n: nat, j: nat): Pc {
    if c.probe.at(er.key, j) != c.probe.at(er.key, n) then Hunting(er, n, EraseUnwind(j))
    else Hunting(er.(succ := true), n, EraseStop)
  }

  ghost function ExecErase(c: Config, er: Erasing, n: nat, phase: ErasePhase, sh: Shared, ch: Choice): Effect {
    var m := sh.slot.meta;
    match phase
    case EraseIncr =>
      Go(Hunting(er, n, match m.state
                        case Visible => EraseCompare
                        case Invisible => EraseDecr
                        case _ => EraseStray),
         WithMeta(sh, AddRefs(m, 1)))
    case EraseCompare =>
      Go(if sh.slot.entry.key == er.key then Hunting(er.(found := true), n, EraseHide) else Hunting(er, n, EraseDecr), sh)
    case EraseHide =>
      Go(ToEraseTake(er, n, Hide(m)), WithMeta(sh, Hide(m)))
    case EraseTake(seen) =>
      if ch.spurious || m != seen then
        Go(ToEraseTake(er, n, m), sh)
      else
        Go(Hunting(er, n, EraseFree(sh.slot.entry)), WithMeta(sh, Meta(0, 0, false, Construction)))
    case EraseFree(x) =>
      Free(Hunting(er, n, EraseEmpty(x.charge)), sh)
    case EraseEmpty(charge) =>
      Go(Hunting(er, n, EraseOccupancy(charge)), WithMeta(sh, Vacant()))
    case EraseOccupancy(charge) =>
      Go(Hunting(er, n, EraseUsage(charge)), sh.(occupancy := sh.occupancy - 1))
    case EraseUsage(charge) =>
      Go(ToEraseUnwind(c, er, n, 0), sh.(usage := sh.usage - charge))
    case EraseUnwind(j) =>
      Go(ToEraseUnwind(c, er, n, j + 1), WithDisplacements(sh, -1))
    case EraseDecr =>
      Go(Hunting(er, n, EraseStop), WithMeta(sh, AddRefs(m, -1)))
    case EraseStray =>
      Go(Hunting(er, n, EraseStop), WithMeta(sh, AddRefs(m, -1)))
    case EraseStop =>
      Go(if sh.slot.displacements == 0 || n + 1 == c.probe.length then EraseEnd(er) else Hunting(er, n + 1, EraseIncr), sh)
  }

  // ---- One step of one thread ----

  ghost function Exec(c: Config, pc: Pc, sh: Shared, ch: Choice): Effect
    requires c.probe.length > 0
  {
    match pc
    case Done(result) => ExecDone(result, sh, ch)
    case Looking(k, n, phase) => ExecLookup(c, k, n, phase, sh)
    case Reserving(h, phase) => ExecReserve(c, h, phase, sh, ch)
    case Evicting(e, phase) => ExecEvict(c, e, phase, sh, ch)
    case Placing(h, again, n, phase) => ExecPlace(c, h, again, n, phase, sh)
    case Failing(h, phase) => ExecFail(h, phase, sh)
    case Hunting(er, n, phase) => ExecErase(c, er, n, phase, sh, ch)
  }

  ghost function EvictAccess(c: Config, e: Eviction, phase: EvictPhase): nat
    requires c.probe.length > 0
  {
    match phase
    case EvictLoad(i) => EvictTarget(c, e, i)
    case EvictDecay(i, _) => EvictTarget(c, e, i)
    case EvictTake(i, _) => EvictTarget(c, e, i)
    case EvictUnwind(_, x, _, j) => c.probe.at(x.key, j)
    case EvictFree(_, _, t) => t
    case EvictEmpty(_, t) => t
    case _ => 0
  }

  /** The slot a step accesses; steps that access none are given slot 0 and leave it alone. */
  ghost function Target(c: Config, pc: Pc, ch: Choice): nat
    requires c.probe.length > 0
  {
    match pc
    case Done(_) => if ch.op.StartRelease? then ch.op.t else 0
    case Looking(k, n, _) => c.probe.at(k, n)
    case Reserving(_, _) => 0
    case Evicting(e, phase) => EvictAccess(c, e, phase)
    case Placing(h, _, n, phase) => c.probe.at(h.key, if phase.PlaceUnwind? then phase.j else n)
    case Failing(_, _) => 0
    case Hunting(er, n, phase) => c.probe.at(er.key, if phase.EraseUnwind? then phase.j else n)
  }

  // ---- The world ----

  /** `loans[t]` counts the references to slot `t` handed out by Lookup and not yet released. */
  datatype World = World(
    slots: seq<Slot>, loans: seq<int>, threads: seq<Pc>, usage: int, occupancy: int, clock: nat,
    inserted: multiset<nat>, deleted: multiset<nat>)

  ghost predicate Shape(c: Config, w: World) {
    c.Valid() && |w.slots| == |w.loans| == c.probe.length
  }

  ghost function See(w: World, t: nat): Shared
    requires t < |w.slots| == |w.loans|
  {
    Shared(w.slots[t], w.loans[t], w.usage, w.occupancy, w.clock)
  }

  ghost function Apply(w: World, id: nat, t: nat, f: Effect): World
    requires t < |w.slots| == |w.loans| && id < |w.threads|
  {
    World(w.slots[t := f.now.slot], w.loans[t := f.now.loans], w.threads[id := f.pc],
          f.now.usage, f.now.occupancy, f.now.clock, w.inserted + f.inserted, w.deleted + f.deleted)
  }

  ghost function Step(c: Config, w: World, id: nat, ch: Choice): (w': World)
    requires Shape(c, w)
    ensures Shape(c, w') && |w'.threads| == |w.threads|
  {
    if id >= |w.threads| then w else
      var t := Target(c, w.threads[id], ch);
      if t >= c.probe.length then w else Apply(w, id, t, Exec(c, w.threads[id], See(w, t), ch))
  }

  ghost function FreshSlot(): Slot {
    Slot(Vacant(), Handle(0, false, Key(0, 0), 0), 0)
  }

  /** An empty cache with `n` idle threads. */
  ghost function Initial(c: Config, n: nat): World
    requires c.Valid()
  {
    World(seq(c.probe.length, _ => FreshSlot()), seq(c.probe.length, _ => 0), seq(n, _ => Done(Nothing)),
          0, 0, 0, multiset{}, multiset{})
  }

  /** Thread `id` takes one step, with the environment deciding as in `ch`. */
  datatype Move = Move(id: nat, ch: Choice)

  /** The world after a sequence of moves. */
  ghost function Run(c: Config, w: World, moves: seq<Move>): (w': World)
    requires Shape(c, w)
    ensures Shape(c, w') && |w'.threads| == |w.threads|
  {
    if moves == [] then w else
      var n := |moves| - 1;
      Step(c, Run(c, w, moves[..n]), moves[n].id, moves[n].ch)
  }
}
