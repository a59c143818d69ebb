/**
 What holds in every reachable state of the interleaved cache: the displacement, reference, charge,
 occupancy and deleter ledgers, and the guarantees callers get from them.
 */
module ClockSafety {
  import opened Sums
  import opened Walk
  import opened MetaWord
  import opened ClockTable
  import opened ClockMachine
  import opened ClockLedger

  ghost function ThreadWeights(c: Config, q: Query, threads: seq<Pc>): (ws: seq<int>)
    ensures |ws| == |threads|
  {
    seq(|threads|, i requires 0 <= i < |threads| => PcWeight(c, q, threads[i]))
  }

  ghost function ThreadTotal(c: Config, q: Query, threads: seq<Pc>): int {
    Sum(ThreadWeights(c, q, threads))
  }

  /** Resident entries plus in-flight contributions. */
  ghost function Account(c: Config, q: Query, w: World): int {
    SlotTotal(c.probe, q, w.slots) + ThreadTotal(c, q, w.threads)
  }

  // ---- The invariant ----

  ghost predicate PcsOk(c: Config, w: World) {
    forall id: nat | id < |w.threads| :: PcOk(c, w.threads[id])
  }

  ghost predicate ViewsOk(c: Config, w: World) {
    forall id: nat, t: nat {:trigger w.threads[id], w.slots[t]} | id < |w.threads| && t < |w.slots| ::
      ViewOk(c, w.threads[id], t, w.slots[t])
  }

  ghost predicate DisplacementLedger(c: Config, w: World) {
    forall s: nat | s < |w.slots| :: w.slots[s].displacements == Account(c, Passing(s), w)
  }

  ghost predicate OwnershipLedger(c: Config, w: World) {
    forall t: nat | t < |w.slots| :: ThreadTotal(c, Owners(t), w.threads) == One(w.slots[t].meta.state.Construction?)
  }

  ghost predicate RefsAgree(c: Config, w: World, t: nat)
    requires t < |w.slots| == |w.loans|
  {
    var m := w.slots[t].meta;
    if m.Shareable() then
      0 <= w.loans[t] && m.refs == ThreadTotal(c, Holders(t), w.threads) + w.loans[t]
    else
      w.loans[t] == 0 && ThreadTotal(c, Holders(t), w.threads) == 0 && 0 <= m.refs
  }

  ghost predicate ReferenceLedger(c: Config, w: World)
    requires |w.slots| == |w.loans|
  {
    forall t: nat | t < |w.slots| :: RefsAgree(c, w, t)
  }

  ghost predicate ChargeLedger(c: Config, w: World) {
    w.usage == Account(c, Charges, w) && w.usage <= c.capacity
  }

  ghost predicate OccupancyLedger(c: Config, w: World) {
    w.occupancy == Account(c, Residents, w)
  }

  ghost predicate DeleterLedger(c: Config, w: World) {
    forall v: nat :: w.inserted[v] as int == w.deleted[v] as int + Account(c, Values(v), w)
  }

  ghost predicate Inv(c: Config, w: World) {
    && Shape(c, w)
    && PcsOk(c, w)
    && ViewsOk(c, w)
    && DisplacementLedger(c, w)
    && OwnershipLedger(c, w)
    && ReferenceLedger(c, w)
    && ChargeLedger(c, w)
    && OccupancyLedger(c, w)
    && DeleterLedger(c, w)
  }

  // ---- Sums over threads ----

  lemma ThreadTotalUpdate(c: Config, q: Query, threads: seq<Pc>, id: nat, pc: Pc)
    requires id < |threads|
    ensures ThreadTotal(c, q, threads[id := pc])
         == ThreadTotal(c, q, threads) - PcWeight(c, q, threads[id]) + PcWeight(c, q, pc)
  {
    hide PcWeight;
    var ws := ThreadWeights(c, q, threads);
    assert ThreadWeights(c, q, threads[id := pc]) == ws[id := PcWeight(c, q, pc)];
    SumUpdate(ws, id, PcWeight(c, q, pc));
  }

  lemma ThreadWeightsNonNegative(c: Config, q: Query, w: World)
    requires PcsOk(c, w)
    ensures NonNegative(ThreadWeights(c, q, w.threads)) && 0 <= ThreadTotal(c, q, w.threads)
  {
    hide PcWeight;
    hide PcOk;
    forall id: nat | id < |w.threads|
      ensures 0 <= PcWeight(c, q, w.threads[id])
    {
      WeightsNonNegative(c, q, w.threads[id]);
    }
    SumNonNegative(ThreadWeights(c, q, w.threads));
  }

  lemma ThreadTotalAtLeast(c: Config, q: Query, w: World, id: nat)
    requires PcsOk(c, w) && id < |w.threads|
    ensures PcWeight(c, q, w.threads[id]) <= ThreadTotal(c, q, w.threads)
  {
    hide PcWeight;
    hide PcOk;
    ThreadWeightsNonNegative(c, q, w);
    SumAtLeast(ThreadWeights(c, q, w.threads), id);
  }

  lemma ThreadTotalAtLeastTwo(c: Config, q: Query, w: World, id: nat, id': nat)
    requires PcsOk(c, w) && id < |w.threads| && id' < |w.threads| && id != id'
    ensures PcWeight(c, q, w.threads[id]) + PcWeight(c, q, w.threads[id']) <= ThreadTotal(c, q, w.threads)
  {
    hide PcWeight;
    hide PcOk;
    ThreadWeightsNonNegative(c, q, w);
    SumAtLeastTwo(ThreadWeights(c, q, w.threads), id, id');
  }

  lemma AccountUpdate(c: Config, q: Query, w: World, id: nat, t: nat, f: Effect)
    requires t < |w.slots| == |w.loans| && id < |w.threads|
    ensures Account(c, q, Apply(w, id, t, f))
         == Account(c, q, w) - SlotWeight(c.probe, q, t, w.slots[t]) + SlotWeight(c.probe, q, t, f.now.slot)
            - PcWeight(c, q, w.threads[id]) + PcWeight(c, q, f.pc)
  {
    hide PcWeight;
    hide SlotWeight;
    SlotTotalUpdate(c.probe, q, w.slots, t, f.now.slot);
    ThreadTotalUpdate(c, q, w.threads, id, f.pc);
  }

  // ---- One step preserves the invariant ----

  lemma TargetInRange(c: Config, pc: Pc, ch: Choice)
    requires c.Valid() && PcOk(c, pc)
    ensures (pc.Done? && ch.op.StartRelease?) || Target(c, pc, ch) < c.probe.length
  {
  }

  /** In a state that satisfies the invariant a step is skipped only if it releases a slot there is not. */
  lemma NoStepIsSkipped(c: Config, w: World, id: nat, ch: Choice)
    requires Inv(c, w) && id < |w.threads|
    requires w.threads[id].Done? && ch.op.StartRelease? ==> ch.op.t < c.probe.length
    ensures var t := Target(c, w.threads[id], ch);
            t < c.probe.length && Step(c, w, id, ch) == Apply(w, id, t, Exec(c, w.threads[id], See(w, t), ch))
  {
    hide Exec;
    assert PcOk(c, w.threads[id]);
    TargetInRange(c, w.threads[id], ch);
  }

  /** A slot owned by a thread is under construction, and owned by no other thread. */
  lemma OwnerFacts(c: Config, w: World, id: nat, t: nat)
    requires Inv(c, w) && id < |w.threads| && t < |w.slots| && Owns(c, w.threads[id], t)
    ensures w.slots[t].meta.state.Construction?
    ensures forall other: nat | other < |w.threads| && other != id :: !Owns(c, w.threads[other], t)
  {
    hide Account;
    hide ThreadTotal;
    hide PcOk;
    hide ViewOk;
    hide Owns;
    hide Holds;
    ThreadTotalAtLeast(c, Owners(t), w, id);
    assert ThreadTotal(c, Owners(t), w.threads) == One(w.slots[t].meta.state.Construction?);
    forall other: nat | other < |w.threads| && other != id
      ensures !Owns(c, w.threads[other], t)
    {
      ThreadTotalAtLeastTwo(c, Owners(t), w, id, other);
    }
  }

  /** The reference counter of a held slot covers the thread's own reference and all loans. */
  lemma HolderFacts(c: Config, w: World, id: nat, t: nat)
    requires Inv(c, w) && id < |w.threads| && t < |w.slots|
    ensures if w.slots[t].meta.Shareable() then One(Holds(c, w.threads[id], t)) + w.loans[t] <= w.slots[t].meta.refs
            else w.loans[t] == 0 && !Holds(c, w.threads[id], t) && 0 <= w.slots[t].meta.refs
    ensures 0 <= w.loans[t]
  {
    hide Account;
    hide ThreadTotal;
    hide PcOk;
    hide ViewOk;
    hide Owns;
    hide Holds;
    ThreadTotalAtLeast(c, Holders(t), w, id);
    assert RefsAgree(c, w, t);
  }

  /** The invariant gives the acting thread what it relies on. */
  lemma InvGivesLocalPre(c: Config, w: World, id: nat, t: nat)
    requires Inv(c, w) && id < |w.threads| && t < c.probe.length
    ensures LocalPre(c, w.threads[id], t, See(w, t))
  {
    var pc := w.threads[id];
    hide DisplacementLedger;
    hide OwnershipLedger;
    hide ReferenceLedger;
    hide DeleterLedger;
    hide ChargeLedger;
    hide OccupancyLedger;
    hide PcOk;
    hide ViewOk;
    hide Owns;
    hide Holds;
    if Owns(c, pc, t) {
      OwnerFacts(c, w, id, t);
    }
    HolderFacts(c, w, id, t);
    UsageNonNegative(c, w);
    assert PcOk(c, pc);
    assert ViewOk(c, pc, t, w.slots[t]);
  }

  lemma UsageNonNegative(c: Config, w: World)
    requires Inv(c, w)
    ensures 0 <= SlotTotal(c.probe, Charges, w.slots) <= w.usage <= c.capacity
    ensures 0 <= SlotTotal(c.probe, Residents, w.slots) <= w.occupancy
  {
    SlotTotalNonNegative(c.probe, Charges, w.slots);
    ThreadWeightsNonNegative(c, Charges, w);
    SlotTotalNonNegative(c.probe, Residents, w.slots);
    ThreadWeightsNonNegative(c, Residents, w);
  }

  lemma ExecLocal(c: Config, pc: Pc, sh: Shared, ch: Choice)
    requires c.probe.length > 0 && LocalPre(c, pc, Target(c, pc, ch), sh) && Clean(pc, sh)
    ensures LocalPost(c, pc, Target(c, pc, ch), sh, Exec(c, pc, sh, ch))
  {
    hide LocalPre;
    hide LocalPost;
    hide ExecDone;
    hide ExecLookup;
    hide ExecReserve;
    hide ExecEvict;
    hide ExecPlace;
    hide ExecFail;
    hide ExecErase;
    var t := Target(c, pc, ch);
    match pc
    case Done(result) => DoneLocal(c, result, t, sh, ch);
    case Looking(k, n, phase) => LookupLocal(c, k, n, phase, sh);
    case Reserving(h, phase) => ReserveLocal(c, h, phase, t, sh, ch);
    case Evicting(e, phase) => EvictLocal(c, e, phase, t, sh, ch);
    case Placing(h, again, n, phase) => PlaceLocal(c, h, again, n, phase, t, sh);
    case Failing(h, phase) => FailLocal(c, h, phase, t, sh);
    case Hunting(er, n, phase) => EraseLocal(c, er, n, phase, t, sh, ch);
  }

  lemma DisplacementsKept(c: Config, w: World, id: nat, t: nat, f: Effect)
    requires Shape(c, w) && id < |w.threads| && t < |w.slots| && DisplacementLedger(c, w)
    requires Displaces(c, w.threads[id], t, See(w, t), f)
    ensures DisplacementLedger(c, Apply(w, id, t, f))
  {
    hide Account;
    hide SlotWeight;
    hide PcWeight;
    forall s: nat | s < |w.slots|
      ensures Apply(w, id, t, f).slots[s].displacements == Account(c, Passing(s), Apply(w, id, t, f))
    {
      AccountUpdate(c, Passing(s), w, id, t, f);
      assert w.slots[s].displacements == Account(c, Passing(s), w);
    }
  }

  lemma OwnershipKept(c: Config, w: World, id: nat, t: nat, f: Effect)
    requires Shape(c, w) && id < |w.threads| && t < |w.slots| && OwnershipLedger(c, w)
    requires Conveys(c, w.threads[id], t, See(w, t), f)
    ensures OwnershipLedger(c, Apply(w, id, t, f))
  {
    hide ThreadTotal;
    hide Owns;
    forall u: nat | u < |w.slots|
      ensures ThreadTotal(c, Owners(u), Apply(w, id, t, f).threads)
           == One(Apply(w, id, t, f).slots[u].meta.state.Construction?)
    {
      ThreadTotalUpdate(c, Owners(u), w.threads, id, f.pc);
      assert ThreadTotal(c, Owners(u), w.threads) == One(w.slots[u].meta.state.Construction?);
    }
  }

  lemma ReferencesKept(c: Config, w: World, id: nat, t: nat, f: Effect)
    requires Shape(c, w) && id < |w.threads| && t < |w.slots| && PcsOk(c, w) && ReferenceLedger(c, w)
    requires Counts(c, w.threads[id], t, See(w, t), f)
    ensures ReferenceLedger(c, Apply(w, id, t, f))
  {
    hide ThreadTotal;
    hide Holds;
    forall u: nat | u < |w.slots|
      ensures RefsAgree(c, Apply(w, id, t, f), u)
    {
      ThreadTotalUpdate(c, Holders(u), w.threads, id, f.pc);
      ThreadTotalAtLeast(c, Holders(u), w, id);
      assert RefsAgree(c, w, u);
    }
  }

  lemma BalancesKept(c: Config, w: World, id: nat, t: nat, f: Effect)
    requires Shape(c, w) && id < |w.threads| && t < |w.slots|
    requires ChargeLedger(c, w) && OccupancyLedger(c, w) && DeleterLedger(c, w)
    requires Balances(c, w.threads[id], t, See(w, t), f)
    ensures ChargeLedger(c, Apply(w, id, t, f)) && OccupancyLedger(c, Apply(w, id, t, f)) && DeleterLedger(c, Apply(w, id, t, f))
  {
    hide Account;
    hide SlotWeight;
    hide PcWeight;
    var w' := Apply(w, id, t, f);
    AccountUpdate(c, Charges, w, id, t, f);
    AccountUpdate(c, Residents, w, id, t, f);
    forall v: nat
      ensures w'.inserted[v] as int == w'.deleted[v] as int + Account(c, Values(v), w')
    {
      AccountUpdate(c, Values(v), w, id, t, f);
      assert w.inserted[v] as int == w.deleted[v] as int + Account(c, Values(v), w);
      assert w'.inserted[v] == w.inserted[v] + f.inserted[v];
      assert w'.deleted[v] == w.deleted[v] + f.deleted[v];
    }
  }

  /** A thread that owns or holds slot `t` finds its entry as it left it, whoever acts on the slot. */
  lemma ViewStable(c: Config, w: World, id: nat, t: nat, f: Effect, other: nat)
    requires Inv(c, w) && id < |w.threads| && t < |w.slots| && other < |w.threads| && other != id
    requires Conveys(c, w.threads[id], t, See(w, t), f)
    ensures ViewOk(c, w.threads[other], t, f.now.slot)
  {
    var pc := w.threads[other];
    hide DisplacementLedger;
    hide OwnershipLedger;
    hide ReferenceLedger;
    hide DeleterLedger;
    hide ChargeLedger;
    hide OccupancyLedger;
    hide PcOk;
    hide ViewOk;
    hide Owns;
    hide Holds;
    assert ViewOk(c, pc, t, w.slots[t]);
    if f.now.slot.entry != w.slots[t].entry {
      OwnerFacts(c, w, id, t);
      HolderFacts(c, w, other, t);
      ViewNeedsTitle(c, pc, t, f.now.slot);
    } else {
      SameEntrySameView(c, pc, t, w.slots[t], f.now.slot);
    }
  }

  lemma SameEntrySameView(c: Config, pc: Pc, t: nat, a: Slot, b: Slot)
    requires a.entry == b.entry && ViewOk(c, pc, t, a)
    ensures ViewOk(c, pc, t, b)
  {
  }

  lemma ViewsKept(c: Config, w: World, id: nat, t: nat, f: Effect)
    requires Inv(c, w) && id < |w.threads| && t < |w.slots|
    requires Conveys(c, w.threads[id], t, See(w, t), f) && Keeps(c, w.threads[id], t, See(w, t), f)
    ensures ViewsOk(c, Apply(w, id, t, f)) && PcsOk(c, Apply(w, id, t, f))
  {
    var w' := Apply(w, id, t, f);
    forall i: nat, u: nat | i < |w'.threads| && u < |w'.slots|
      ensures ViewOk(c, w'.threads[i], u, w'.slots[u])
    {
      assert ViewOk(c, w.threads[i], u, w.slots[u]);
      if i != id && u == t {
        ViewStable(c, w, id, t, f, i);
      }
      hide Inv;
      hide ViewOk;
      hide Conveys;
    }
    hide ViewOk;
    hide Account;
    hide ThreadTotal;
    assert PcsOk(c, w);
    hide PcOk;
  }

  /** The step is not an Erase decrement landing on a slot without a stray increment to cancel. */
  ghost predicate CleanStep(c: Config, w: World, id: nat, ch: Choice)
    requires Shape(c, w)
  {
    id < |w.threads| && Target(c, w.threads[id], ch) < c.probe.length ==>
      Clean(w.threads[id], See(w, Target(c, w.threads[id], ch)))
  }

  lemma {:induction false} CleanStepKeepsInv(c: Config, w: World, id: nat, ch: Choice)
    requires Inv(c, w) && CleanStep(c, w, id, ch)
    ensures Inv(c, Step(c, w, id, ch))
  {
    if id < |w.threads| && Target(c, w.threads[id], ch) < c.probe.length {
      var pc, t := w.threads[id], Target(c, w.threads[id], ch);
      InvGivesLocalPre(c, w, id, t);
      var sh := See(w, t);
      var f := Exec(c, pc, sh, ch);
      ExecLocal(c, pc, sh, ch);
      hide Exec;
      hide Target;
      hide Account;
      hide ThreadTotal;
      hide LocalPre;
      hide Displaces;
      hide Conveys;
      hide Counts;
      hide Balances;
      hide Keeps;
      DisplacementsKept(c, w, id, t, f);
      OwnershipKept(c, w, id, t, f);
      ReferencesKept(c, w, id, t, f);
      BalancesKept(c, w, id, t, f);
      ViewsKept(c, w, id, t, f);
      hide DisplacementLedger;
      hide OwnershipLedger;
      hide ReferenceLedger;
      hide ViewsOk;
      hide PcsOk;
      hide DeleterLedger;
      hide ChargeLedger;
      hide OccupancyLedger;
      assert Step(c, w, id, ch) == Apply(w, id, t, f);
    }
  }

  /**
   Erase decrements a slot it found empty or under construction in a second step. That decrement
   is the only step that can break the accounts, and it breaks them exactly when the slot has
   become shareable, or was reset, in between.
   */
  lemma StepKeepsInvExactly(c: Config, w: World, id: nat, ch: Choice)
    requires Inv(c, w)
    ensures Inv(c, Step(c, w, id, ch)) <==> CleanStep(c, w, id, ch)
  {
    if CleanStep(c, w, id, ch) {
      CleanStepKeepsInv(c, w, id, ch);
    } else {
      UncleanStepBreaksReferences(c, w, id, ch);
    }
  }

  lemma UncleanStepBreaksReferences(c: Config, w: World, id: nat, ch: Choice)
    requires Inv(c, w) && !CleanStep(c, w, id, ch)
    ensures !ReferenceLedger(c, Step(c, w, id, ch))
  {
    var pc, t := w.threads[id], Target(c, w.threads[id], ch);
    var f := Exec(c, pc, See(w, t), ch);
    hide ThreadTotal;
    hide Account;
    hide ViewOk;
    hide PcOk;
    ThreadTotalUpdate(c, Holders(t), w.threads, id, f.pc);
    assert RefsAgree(c, w, t);
    assert f.now.slot.meta == AddRefs(w.slots[t].meta, -1);
    assert !RefsAgree(c, Step(c, w, id, ch), t);
  }

  // ---- Runs ----

  lemma InitialInv(c: Config, n: nat)
    requires c.Valid()
    ensures Inv(c, Initial(c, n))
  {
    var w := Initial(c, n);
    forall q: Query
      ensures Account(c, q, w) == 0 && ThreadTotal(c, q, w.threads) == 0
    {
      SlotTotalEmpty(c.probe, q, w.slots);
      SumZero(ThreadWeights(c, q, w.threads));
    }
    hide Account;
    hide ThreadTotal;
  }

  ghost predicate CleanRun(c: Config, w: World, moves: seq<Move>)
    requires Shape(c, w)
  {
    forall i: nat | i < |moves| :: CleanStep(c, Run(c, w, moves[..i]), moves[i].id, moves[i].ch)
  }

  lemma CleanPrefix(c: Config, w: World, moves: seq<Move>, i: nat)
    requires Shape(c, w) && CleanRun(c, w, moves) && i <= |moves|
    ensures CleanRun(c, w, moves[..i])
  {
    hide CleanStep;
    forall j: nat | j < i
      ensures CleanStep(c, Run(c, w, moves[..i][..j]), moves[..i][j].id, moves[..i][j].ch)
    {
      assert moves[..i][..j] == moves[..j];
      assert CleanStep(c, Run(c, w, moves[..j]), moves[j].id, moves[j].ch);
    }
  }

  lemma CleanExtend(c: Config, w: World, moves: seq<Move>, m: Move)
    requires Shape(c, w) && CleanRun(c, w, moves) && CleanStep(c, Run(c, w, moves), m.id, m.ch)
    ensures CleanRun(c, w, moves + [m]) && Run(c, w, moves + [m]) == Step(c, Run(c, w, moves), m.id, m.ch)
  {
    hide CleanStep;
    hide Step;
    var ms := moves + [m];
    assert ms[..|moves|] == moves;
    forall j: nat | j < |ms|
      ensures CleanStep(c, Run(c, w, ms[..j]), ms[j].id, ms[j].ch)
    {
      if j < |moves| {
        assert ms[..j] == moves[..j];
        assert CleanStep(c, Run(c, w, moves[..j]), moves[j].id, moves[j].ch);
      }
    }
  }

  /** Every ledger holds after every clean run, for any number of threads. */
  lemma {:induction false} RunKeepsInv(c: Config, w: World, moves: seq<Move>)
    requires Inv(c, w) && CleanRun(c, w, moves)
    ensures Inv(c, Run(c, w, moves))
  {
    if moves != [] {
      var n := |moves| - 1;
      CleanPrefix(c, w, moves, n);
      RunKeepsInv(c, w, moves[..n]);
      assert CleanStep(c, Run(c, w, moves[..n]), moves[n].id, moves[n].ch);
      CleanStepKeepsInv(c, Run(c, w, moves[..n]), moves[n].id, moves[n].ch);
    }
  }

  /** `usage` and `occupancy` never fall below what the entries account for, nor `usage` above the capacity. */
  lemma UsageStaysInBounds(c: Config, n: nat, moves: seq<Move>)
    requires c.Valid() && CleanRun(c, Initial(c, n), moves)
    ensures var w := Run(c, Initial(c, n), moves);
            && 0 <= SlotTotal(c.probe, Charges, w.slots) <= w.usage <= c.capacity
            && 0 <= SlotTotal(c.probe, Residents, w.slots) <= w.occupancy
  {
    InitialInv(c, n);
    RunKeepsInv(c, Initial(c, n), moves);
    UsageNonNegative(c, Run(c, Initial(c, n), moves));
  }

  lemma UncleanRunBreaksReferences(c: Config, n: nat, moves: seq<Move>, m: Move)
    requires c.Valid() && CleanRun(c, Initial(c, n), moves)
    requires !CleanStep(c, Run(c, Initial(c, n), moves), m.id, m.ch)
    ensures !ReferenceLedger(c, Run(c, Initial(c, n), moves + [m]))
  {
    hide CleanRun;
    hide Initial;
    InitialInv(c, n);
    RunKeepsInv(c, Initial(c, n), moves);
    UncleanStepBreaksReferences(c, Run(c, Initial(c, n), moves), m.id, m.ch);
    assert (moves + [m])[..|moves|] == moves;
  }

  // ---- A lookup never misses an entry that stays ----

  /** Slot `t` shows key `k` in every state of the run. */
  ghost predicate StaysVisible(c: Config, w: World, moves: seq<Move>, t: nat, k: Key)
    requires Shape(c, w) && t < c.probe.length
  {
    forall i: nat | i <= |moves| :: Run(c, w, moves[..i]).slots[t].ShowsKey(k)
  }

  /** Thread `id` is inside a lookup of `k` up to the last state of the run, which may end it. */
  ghost predicate LooksThroughout(c: Config, w: World, moves: seq<Move>, id: nat, k: Key)
    requires Shape(c, w) && id < |w.threads|
  {
    forall i: nat | i < |moves| :: Run(c, w, moves[..i]).threads[id].Looking? && Run(c, w, moves[..i]).threads[id].k == k
  }

  /** The lookup has not yet passed slot `t`. */
  ghost predicate NotPast(c: Config, pc: Pc, k: Key, t: nat) {
    && pc.Looking? && pc.k == k
    && pc.n <= c.probe.index(k, t)
    && (pc.look.LookupDecr? || pc.look.LookupStop? ==> pc.n < c.probe.index(k, t))
  }

  /** While an entry for `k` rests in slot `t`, the counters before it on the path are positive. */
  lemma PathIsMarked(c: Config, w: World, k: Key, t: nat, n: nat)
    requires Inv(c, w) && t < |w.slots| && w.slots[t].ShowsKey(k) && n < c.probe.index(k, t)
    ensures c.probe.at(k, n) < |w.slots| && w.slots[c.probe.at(k, n)].displacements > 0
  {
    assert c.probe.index(k, t) < c.probe.length;
    var s := c.probe.at(k, n);
    assert s < c.probe.length && c.probe.index(k, s) == n;
    assert SlotWeight(c.probe, Passing(s), t, w.slots[t]) == 1;
    SlotTotalAtLeast(c.probe, Passing(s), w.slots, t);
    ThreadWeightsNonNegative(c, Passing(s), w);
    hide SlotTotal;
    hide ThreadTotal;
    hide SlotWeight;
    assert w.slots[s].displacements == Account(c, Passing(s), w);
  }

  lemma LookupExecNotPast(c: Config, k: Key, n: nat, phase: LookupPhase, sh: Shared, t: nat)
    requires c.Valid() && t < c.probe.length && NotPast(c, Looking(k, n, phase), k, t)
    requires n == c.probe.index(k, t) ==> sh.slot.ShowsKey(k)
    requires phase.LookupStop? ==> sh.slot.displacements > 0
    ensures var pc := ExecLookup(c, k, n, phase, sh).pc; NotPast(c, pc, k, t) || (pc.Done? && pc.result.Found?)
  {
  }

  lemma LookupStepNotPast(c: Config, w: World, id: nat, k: Key, t: nat, ch: Choice)
    requires Inv(c, w) && id < |w.threads| && t < |w.slots|
    requires w.slots[t].ShowsKey(k) && NotPast(c, w.threads[id], k, t)
    ensures var pc := Step(c, w, id, ch).threads[id]; NotPast(c, pc, k, t) || (pc.Done? && pc.result.Found?)
  {
    var n, phase := w.threads[id].n, w.threads[id].look;
    LookupSees(c, w, id, k, t);
    LookupExecNotPast(c, k, n, phase, See(w, c.probe.at(k, n)), t);
    hide Inv, ExecLookup, NotPast;
  }

  /** What a lookup that has not passed slot `t` reads there, and before it. */
  lemma LookupSees(c: Config, w: World, id: nat, k: Key, t: nat)
    requires Inv(c, w) && id < |w.threads| && t < |w.slots|
    requires w.slots[t].ShowsKey(k) && NotPast(c, w.threads[id], k, t)
    ensures var pc := w.threads[id];
            && c.Valid() && t < c.probe.length && c.probe.at(k, pc.n) < c.probe.length == |w.slots|
            && (pc.n == c.probe.index(k, t) ==> c.probe.at(k, pc.n) == t)
            && (pc.look.LookupStop? ==> w.slots[c.probe.at(k, pc.n)].displacements > 0)
  {
    var n := w.threads[id].n;
    assert c.probe.index(k, t) < c.probe.length && c.probe.at(k, c.probe.index(k, t)) == t;
    assert c.probe.at(k, n) < c.probe.length;
    if w.threads[id].look.LookupStop? {
      PathIsMarked(c, w, k, t, n);
    }
    hide DisplacementLedger, OwnershipLedger, ReferenceLedger, DeleterLedger, ChargeLedger, OccupancyLedger, PcsOk, ViewsOk;
  }

  /** Own steps left before a lookup must end, at most. */
  ghost function LookupRank(c: Config, pc: Pc): int
    requires pc.Looking?
  {
    6 * (c.probe.length - pc.n) -
      match pc.look
      case LookupIncr => 0
      case LookupCompare => 1
      case LookupHit => 2
      case LookupHitFix(_) => 3
      case LookupDecr => 4
      case LookupStop => 5
  }

  /** A lookup is wait-free: each of its own steps ends it or lowers a rank that starts at `6 * length`. */
  lemma LookupIsWaitFree(c: Config, w: World, id: nat, ch: Choice)
    requires Inv(c, w) && id < |w.threads| && w.threads[id].Looking?
    ensures 0 < LookupRank(c, w.threads[id]) <= 6 * c.probe.length
    ensures var pc := Step(c, w, id, ch).threads[id];
            pc.Done? || (pc.Looking? && pc.k == w.threads[id].k && LookupRank(c, pc) < LookupRank(c, w.threads[id]))
  {
    var pc := w.threads[id];
    assert PcOk(c, pc);
    assert c.probe.at(pc.k, pc.n) < c.probe.length;
    hide Inv;
    hide ExecLookup;
    LookupExecRank(c, pc.k, pc.n, pc.look, See(w, c.probe.at(pc.k, pc.n)));
  }

  lemma LookupExecRank(c: Config, k: Key, n: nat, phase: LookupPhase, sh: Shared)
    requires n < c.probe.length
    ensures var pc := ExecLookup(c, k, n, phase, sh).pc;
            pc.Done? || (pc.Looking? && pc.k == k && LookupRank(c, pc) < LookupRank(c, Looking(k, n, phase)))
  {
  }

  /**
   If some slot shows `k` in every state from the start of a lookup of `k` on, that lookup does not
   end in a miss, whatever the other threads do meanwhile.
   */
  lemma {:induction false} LookupNeverMisses(c: Config, w: World, moves: seq<Move>, id: nat, k: Key, t: nat)
    requires Inv(c, w) && CleanRun(c, w, moves) && id < |w.threads| && t < c.probe.length
    requires w.threads[id] == Looking(k, 0, LookupIncr)
    requires StaysVisible(c, w, moves, t, k) && LooksThroughout(c, w, moves, id, k)
    ensures var pc := Run(c, w, moves).threads[id]; NotPast(c, pc, k, t) || (pc.Done? && pc.result.Found?)
  {
    if moves == [] {
      assert c.probe.index(k, t) < c.probe.length;
    } else {
      var n := |moves| - 1;
      var w' := Run(c, w, moves[..n]);
      CleanPrefix(c, w, moves, n);
      VisiblePrefix(c, w, moves, id, k, t);
      LookupNeverMisses(c, w, moves[..n], id, k, t);
      RunKeepsInv(c, w, moves[..n]);
      assert w'.slots[t].ShowsKey(k);
      assert w'.threads[id].Looking?;
      hide Inv;
      hide NotPast;
      if moves[n].id == id {
        LookupStepNotPast(c, w', id, k, t, moves[n].ch);
      } else {
        OthersKeepPc(c, w', moves[n].id, moves[n].ch, id);
      }
    }
  }

  lemma VisiblePrefix(c: Config, w: World, moves: seq<Move>, id: nat, k: Key, t: nat)
    requires Shape(c, w) && id < |w.threads| && t < c.probe.length && moves != []
    requires StaysVisible(c, w, moves, t, k) && LooksThroughout(c, w, moves, id, k)
    ensures StaysVisible(c, w, moves[..|moves| - 1], t, k) && LooksThroughout(c, w, moves[..|moves| - 1], id, k)
  {
    var n := |moves| - 1;
    forall i: nat | i <= n
      ensures Run(c, w, moves[..n][..i]).slots[t].ShowsKey(k)
      ensures Run(c, w, moves[..n][..i]).threads[id].Looking? && Run(c, w, moves[..n][..i]).threads[id].k == k
    {
      assert moves[..n][..i] == moves[..i];
      assert Run(c, w, moves[..i]).slots[t].ShowsKey(k);
      assert Run(c, w, moves[..i]).threads[id].Looking?;
    }
  }

  lemma OthersKeepPc(c: Config, w: World, id: nat, ch: Choice, other: nat)
    requires Shape(c, w) && other < |w.threads| && other != id
    ensures Step(c, w, id, ch).threads[other] == w.threads[other]
  {
    hide Exec;
    hide Target;
  }

  /** The two steps that end a lookup with a find. */
  lemma FoundExec(c: Config, k: Key, n: nat, phase: LookupPhase, sh: Shared)
    requires c.Valid() && n < c.probe.length && 0 <= sh.loans
    requires Holds(c, Looking(k, n, phase), c.probe.at(k, n)) ==> sh.slot.meta.Shareable()
    requires ViewOk(c, Looking(k, n, phase), c.probe.at(k, n), sh.slot)
    ensures var f := ExecLookup(c, k, n, phase, sh);
            f.pc.Done? && f.pc.result.Found? ==>
              && f.pc.result.slot == c.probe.at(k, n) && f.now.loans > 0
              && f.now.slot.Resident() && f.now.slot.entry.key == k
  {
  }

  /** What a successful lookup hands out is a loan on a resident entry for the key it looked up. */
  lemma FoundEntryHasKey(c: Config, w: World, id: nat, ch: Choice)
    requires Inv(c, w) && id < |w.threads| && w.threads[id].Looking? && CleanStep(c, w, id, ch)
    requires var pc := Step(c, w, id, ch).threads[id]; pc.Done? && pc.result.Found?
    ensures var w' := Step(c, w, id, ch);
            var t := w'.threads[id].result.slot;
            t < |w'.slots| && w'.loans[t] > 0 && w'.slots[t].Resident() && w'.slots[t].entry.key == w.threads[id].k
  {
    var pc := w.threads[id];
    var t := c.probe.at(pc.k, pc.n);
    assert PcOk(c, pc);
    assert t < c.probe.length;
    assert ViewOk(c, pc, t, w.slots[t]);
    HolderFacts(c, w, id, t);
    FoundExec(c, pc.k, pc.n, pc.look, See(w, t));
    hide DisplacementLedger, OwnershipLedger, ReferenceLedger, DeleterLedger, ChargeLedger, OccupancyLedger, PcsOk, ViewsOk;
    hide ExecLookup, Holds, ViewOk;
  }

  // ---- Loans protect entries ----

  /** No step touches the key, charge or value of a slot on loan, nor takes it out of service. */
  lemma LoanProtects(c: Config, w: World, id: nat, ch: Choice, t: nat)
    requires Inv(c, w) && CleanStep(c, w, id, ch) && t < |w.slots| && w.loans[t] > 0
    ensures w.slots[t].Resident()
    ensures Step(c, w, id, ch).slots[t].entry == w.slots[t].entry
  {
    assert RefsAgree(c, w, t);
    if id < |w.threads| && Target(c, w.threads[id], ch) == t {
      var pc := w.threads[id];
      InvGivesLocalPre(c, w, id, t);
      ExecLocal(c, pc, See(w, t), ch);
      hide Exec;
      hide Target;
      hide ThreadTotal;
      hide Account;
      if Owns(c, pc, t) {
        OwnerFacts(c, w, id, t);
      }
    }
  }

  /** From Lookup to Release the entry stays what it was, and its deleter does not run. */
  lemma {:induction false} LoanedEntrySurvives(c: Config, w: World, moves: seq<Move>, t: nat)
    requires Inv(c, w) && CleanRun(c, w, moves) && t < c.probe.length
    requires forall i: nat | i <= |moves| :: Run(c, w, moves[..i]).loans[t] > 0
    ensures Run(c, w, moves).slots[t].Resident()
    ensures Run(c, w, moves).slots[t].entry == w.slots[t].entry
  {
    hide Step;
    hide CleanStep;
    hide Account;
    hide ThreadTotal;
    assert moves[..|moves|] == moves;
    RunKeepsInv(c, w, moves);
    assert RefsAgree(c, Run(c, w, moves), t);
    hide Inv;
    if moves != [] {
      var n := |moves| - 1;
      CleanPrefix(c, w, moves, n);
      RunKeepsInv(c, w, moves[..n]);
      forall i: nat | i <= n
        ensures Run(c, w, moves[..n][..i]).loans[t] > 0
      {
        assert moves[..n][..i] == moves[..i];
      }
      LoanedEntrySurvives(c, w, moves[..n], t);
      assert CleanStep(c, Run(c, w, moves[..n]), moves[n].id, moves[n].ch);
      LoanProtects(c, Run(c, w, moves[..n]), moves[n].id, moves[n].ch, t);
    }
  }

  // ---- Quiescence ----

  ghost predicate Quiescent(w: World) {
    forall id: nat | id < |w.threads| :: w.threads[id].Done?
  }

  lemma NothingInFlight(c: Config, w: World, q: Query)
    requires Quiescent(w)
    ensures ThreadTotal(c, q, w.threads) == 0
  {
    SumZero(ThreadWeights(c, q, w.threads));
  }

  lemma SlotsAtRest(c: Config, w: World, t: nat)
    requires Inv(c, w) && Quiescent(w) && t < |w.slots|
    ensures SlotAtRest(w.slots[t], w.loans[t])
  {
    NothingInFlight(c, w, Owners(t));
    NothingInFlight(c, w, Holders(t));
    hide ThreadTotal, SlotTotal;
    assert RefsAgree(c, w, t);
    assert ThreadTotal(c, Owners(t), w.threads) == One(w.slots[t].meta.state.Construction?);
  }

  /** With no operation in flight the in-flight contributions vanish and the accounts are exact. */
  lemma QuiescentIsSettled(c: Config, w: World)
    requires Inv(c, w) && Quiescent(w)
    ensures Settled(c.probe, w.slots, w.loans, w.usage, w.occupancy)
    ensures forall v: nat :: w.inserted[v] as int == w.deleted[v] as int + SlotTotal(c.probe, Values(v), w.slots)
  {
    forall q: Query
      ensures ThreadTotal(c, q, w.threads) == 0
    {
      NothingInFlight(c, w, q);
    }
    forall t: nat | t < |w.slots|
      ensures SlotAtRest(w.slots[t], w.loans[t])
    {
      SlotsAtRest(c, w, t);
    }
    hide ThreadTotal, SlotTotal, SlotAtRest, PcsOk, ViewsOk, OwnershipLedger, ReferenceLedger;
  }
}
