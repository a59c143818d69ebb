/**
 The counters of the packed word in the interleaved cache. A lookup adds its hit first and takes an
 excess over the maximum back in a later step, computed from what it saw; several lookups doing so at
 once take back more than they added. With at most 57 threads the hit counter cannot fall below
 zero, so it never borrows from the reference counter or the state beside it.
 */
module ClockHits {
  import opened Sums
  import opened Walk
  import opened MetaWord
  import opened ClockTable
  import opened ClockMachine
  import opened ClockLedger
  import opened ClockSafety
  import opened HitExcess

  /** The thread has added a hit to slot `t` and has its excess still to take back. */
  ghost predicate Fixing(c: Config, pc: Pc, t: nat) {
    pc.Looking? && pc.look.LookupHitFix? && c.probe.at(pc.k, pc.n) == t
  }

  ghost function Excess(c: Config, pc: Pc, t: nat): int {
    if Fixing(c, pc, t) then pc.look.excess else 0
  }

  /** What each thread has still to take back from slot `t`. */
  ghost function Excesses(c: Config, threads: seq<Pc>, t: nat): (es: seq<int>)
    ensures |es| == |threads|
  {
    seq(|threads|, i requires 0 <= i < |threads| => Excess(c, threads[i], t))
  }

  /** In service, the additions and corrections of the slot's hits are balanced; else there are no hits. */
  ghost predicate HitsOk(c: Config, w: World, t: nat)
    requires t < |w.slots|
  {
    var m := w.slots[t].meta;
    if m.Shareable() then Balanced(m.hits - MAX_HIT_COUNT, Excesses(c, w.threads, t)) else m.hits == 0
  }

  ghost predicate ExcessOk(pc: Pc) {
    pc.Looking? && pc.look.LookupHitFix? ==> 1 <= pc.look.excess
  }

  ghost predicate AllHitsOk(c: Config, w: World) {
    && (forall id: nat | id < |w.threads| :: ExcessOk(w.threads[id]))
    && (forall t: nat | t < |w.slots| :: HitsOk(c, w, t))
  }

  lemma ExcessesUpdate(c: Config, threads: seq<Pc>, id: nat, pc: Pc, t: nat)
    requires id < |threads|
    ensures Excesses(c, threads[id := pc], t) == Excesses(c, threads, t)[id := Excess(c, pc, t)]
  {
    hide Excess;
  }

  lemma FixingHolds(c: Config, pc: Pc, t: nat)
    requires Fixing(c, pc, t)
    ensures PcWeight(c, Holders(t), pc) == 1
  {
  }

  /** The references of a slot are its loans and the threads that hold it. */
  lemma RefsLeft(c: Config, w: World, t: nat)
    requires Inv(c, w) && t < |w.slots|
    ensures Shape(c, w) && PcsOk(c, w)
    ensures w.slots[t].meta.Shareable() ==> ThreadTotal(c, Holders(t), w.threads) <= w.slots[t].meta.refs
    ensures !w.slots[t].meta.Shareable() ==> ThreadTotal(c, Holders(t), w.threads) == 0
  {
    assert RefsAgree(c, w, t);
  }

  /** Fixers hold references; a slot without references, or out of service, has none. */
  lemma FixersHold(c: Config, w: World, t: nat)
    requires Inv(c, w) && t < |w.slots|
    requires !w.slots[t].meta.Shareable() || w.slots[t].meta.refs <= 0
    ensures forall id: nat | id < |w.threads| :: !Fixing(c, w.threads[id], t)
  {
    RefsLeft(c, w, t);
    hide Inv, PcsOk, ThreadTotal, Fixing, PcWeight;
    forall id: nat | id < |w.threads| ensures !Fixing(c, w.threads[id], t) {
      ThreadTotalAtLeast(c, Holders(t), w, id);
      if Fixing(c, w.threads[id], t) {
        FixingHolds(c, w.threads[id], t);
      }
    }
  }

  // ---- One step ----

  /** What a step may do to the hit counter of its slot, and to its own excess. */
  ghost predicate HitsPost(c: Config, pc: Pc, t: nat, sh: Shared, f: Effect) {
    var m, m' := sh.slot.meta, f.now.slot.meta;
    && (forall u: nat | u != t :: !Fixing(c, f.pc, u) && !Fixing(c, pc, u))
    && (Fixing(c, pc, t) ==> m.Shareable() && m'.Shareable())
    && (Fixing(c, f.pc, t) ==> m.Shareable() && m'.Shareable())
    && (if m'.Shareable() then
         if m.Shareable() then
           || (m'.hits == m.hits && Excess(c, f.pc, t) == Excess(c, pc, t) && Fixing(c, f.pc, t) == Fixing(c, pc, t))
           || (!Fixing(c, pc, t) && !Fixing(c, f.pc, t) && m'.hits == m.hits + 1 <= MAX_HIT_COUNT)
           || (!Fixing(c, pc, t) && Fixing(c, f.pc, t) && m'.hits == m.hits + 1 && f.pc.look.excess == m'.hits - MAX_HIT_COUNT >= 1)
           || (Fixing(c, pc, t) && !Fixing(c, f.pc, t) && m'.hits == m.hits - pc.look.excess)
           || (!Fixing(c, pc, t) && !Fixing(c, f.pc, t) && m.refs == 0 && 0 <= m'.hits <= Max(m.hits, 0))
         else 0 <= m'.hits <= MAX_HIT_COUNT
       else m'.hits == 0 || (!m.Shareable() && m'.hits == m.hits))
  }

  lemma HitsLookup(c: Config, pc: Pc, sh: Shared, ch: Choice)
    requires c.probe.length > 0 && pc.Looking? && LocalPre(c, pc, Target(c, pc, ch), sh)
    ensures HitsPost(c, pc, Target(c, pc, ch), sh, Exec(c, pc, sh, ch))
  {
    hide Claims, ChargeHeld, PlacesHeld, Dooms, SlotWeight;
  }

  lemma HitsErase(c: Config, pc: Pc, sh: Shared, ch: Choice)
    requires c.probe.length > 0 && pc.Hunting? && LocalPre(c, pc, Target(c, pc, ch), sh)
    ensures HitsPost(c, pc, Target(c, pc, ch), sh, Exec(c, pc, sh, ch))
  {
    hide Claims, ChargeHeld, PlacesHeld, Dooms, SlotWeight;
  }

  lemma HitsEvict(c: Config, pc: Pc, sh: Shared, ch: Choice)
    requires c.probe.length > 0 && pc.Evicting? && LocalPre(c, pc, Target(c, pc, ch), sh)
    ensures HitsPost(c, pc, Target(c, pc, ch), sh, Exec(c, pc, sh, ch))
  {
    hide Claims, ChargeHeld, PlacesHeld, Dooms, SlotWeight;
  }

  lemma HitsPlace(c: Config, pc: Pc, sh: Shared, ch: Choice)
    requires c.probe.length > 0 && pc.Placing? && LocalPre(c, pc, Target(c, pc, ch), sh)
    ensures HitsPost(c, pc, Target(c, pc, ch), sh, Exec(c, pc, sh, ch))
  {
    hide Claims, ChargeHeld, PlacesHeld, Dooms, SlotWeight;
  }

  lemma HitsOther(c: Config, pc: Pc, sh: Shared, ch: Choice)
    requires c.probe.length > 0 && LocalPre(c, pc, Target(c, pc, ch), sh)
    requires pc.Done? || pc.Reserving? || pc.Failing?
    ensures HitsPost(c, pc, Target(c, pc, ch), sh, Exec(c, pc, sh, ch))
  {
    hide Claims, ChargeHeld, PlacesHeld, Dooms, SlotWeight;
  }

  lemma HitsLocal(c: Config, pc: Pc, sh: Shared, ch: Choice)
    requires c.probe.length > 0 && LocalPre(c, pc, Target(c, pc, ch), sh)
    ensures HitsPost(c, pc, Target(c, pc, ch), sh, Exec(c, pc, sh, ch))
  {
    hide LocalPre, HitsPost, Exec, Target;
    match pc
    case Looking(_, _, _) => HitsLookup(c, pc, sh, ch);
    case Hunting(_, _, _) => HitsErase(c, pc, sh, ch);
    case Evicting(_, _) => HitsEvict(c, pc, sh, ch);
    case Placing(_, _, _, _) => HitsPlace(c, pc, sh, ch);
    case _ => HitsOther(c, pc, sh, ch);
  }

  /** The step at a slot that nobody has an excess on. */
  lemma SettledHere(c: Config, pc: Pc, t: nat, sh: Shared, f: Effect, es: seq<int>, id: nat)
    requires HitsPost(c, pc, t, sh, f) && f.now.slot.meta.Shareable() && |es| <= CROWD && id < |es|
    requires forall i | 0 <= i < |es| :: es[i] == 0
    requires !sh.slot.meta.Shareable() || (sh.slot.meta.refs <= 0 && Balanced(sh.slot.meta.hits - MAX_HIT_COUNT, es))
    requires !Fixing(c, pc, t) && !Fixing(c, f.pc, t)
    ensures Balanced(f.now.slot.meta.hits - MAX_HIT_COUNT, es)
  {
    var over, over' := sh.slot.meta.hits - MAX_HIT_COUNT, f.now.slot.meta.hits - MAX_HIT_COUNT;
    if sh.slot.meta.Shareable() {
      BalancedBounds(over, es);
      NoneLarger(es, 0);
      SumZero(es);
    }
    hide Balanced;
    if over' <= 0 {
      SettledIsBalanced(over', es);
    }
  }

  /** The step at its own slot, as a move of the game. */
  lemma MovedHere(c: Config, pc: Pc, t: nat, sh: Shared, f: Effect, es: seq<int>, id: nat)
    requires HitsPost(c, pc, t, sh, f) && ExcessOk(pc) && id < |es| && es[id] == Excess(c, pc, t)
    requires sh.slot.meta.Shareable() && f.now.slot.meta.Shareable() && Balanced(sh.slot.meta.hits - MAX_HIT_COUNT, es)
    requires sh.slot.meta.refs > 0 || Fixing(c, pc, t) || Fixing(c, f.pc, t)
    ensures Balanced(f.now.slot.meta.hits - MAX_HIT_COUNT, es[id := Excess(c, f.pc, t)])
  {
    hide Balanced;
    var over, over' := sh.slot.meta.hits - MAX_HIT_COUNT, f.now.slot.meta.hits - MAX_HIT_COUNT;
    if Fixing(c, pc, t) && !Fixing(c, f.pc, t) {
      TakeKeeps(over, es, id);
    } else if !Fixing(c, pc, t) && Fixing(c, f.pc, t) {
      AddKeeps(over, es, id);
    } else {
      assert es[id := Excess(c, f.pc, t)] == es;
      if over' != over {
        RaiseKeeps(over, es);
      }
    }
  }

  lemma FixInService(c: Config, pc: Pc, t: nat, sh: Shared, f: Effect)
    requires HitsPost(c, pc, t, sh, f)
    ensures Fixing(c, pc, t) || Fixing(c, f.pc, t) ==> sh.slot.meta.Shareable()
    ensures !f.now.slot.meta.Shareable() ==> f.now.slot.meta.hits == 0 || (f.now.slot.meta.hits == sh.slot.meta.hits && !sh.slot.meta.Shareable())
  {
  }

  /** The game after the step at its own slot. */
  lemma ExcessesHere(c: Config, w: World, id: nat, t: nat, f: Effect)
    requires Shape(c, w) && Inv(c, w) && AllHitsOk(c, w) && id < |w.threads| <= CROWD && t < |w.slots|
    requires HitsPost(c, w.threads[id], t, See(w, t), f) && f.now.slot.meta.Shareable()
    ensures Balanced(f.now.slot.meta.hits - MAX_HIT_COUNT, Excesses(c, w.threads, t)[id := Excess(c, f.pc, t)])
  {
    hide Inv, Fixing, Balanced, HitsPost;
    var pc, m, es := w.threads[id], w.slots[t].meta, Excesses(c, w.threads, t);
    assert HitsOk(c, w, t) && ExcessOk(pc);
    FixInService(c, pc, t, See(w, t), f);
    if m.Shareable() && (m.refs > 0 || Fixing(c, pc, t) || Fixing(c, f.pc, t)) {
      MovedHere(c, pc, t, See(w, t), f, es, id);
    } else {
      FixersHold(c, w, t);
      SettledHere(c, pc, t, See(w, t), f, es, id);
      assert es[id := Excess(c, f.pc, t)] == es;
    }
  }

  lemma HitsHere(c: Config, w: World, id: nat, t: nat, f: Effect)
    requires Inv(c, w) && AllHitsOk(c, w) && id < |w.threads| <= CROWD && t < |w.slots|
    requires HitsPost(c, w.threads[id], t, See(w, t), f)
    ensures HitsOk(c, Apply(w, id, t, f), t)
  {
    InvShape(c, w);
    hide Inv, Excess, Balanced, HitsPost;
    assert HitsOk(c, w, t);
    FixInService(c, w.threads[id], t, See(w, t), f);
    ExcessesUpdate(c, w.threads, id, f.pc, t);
    if f.now.slot.meta.Shareable() {
      ExcessesHere(c, w, id, t, f);
    }
  }

  lemma HitsKept(c: Config, w: World, id: nat, t: nat, f: Effect, u: nat)
    requires Inv(c, w) && AllHitsOk(c, w) && id < |w.threads| <= CROWD && t < |w.slots| && u < |w.slots|
    requires HitsPost(c, w.threads[id], t, See(w, t), f)
    ensures HitsOk(c, Apply(w, id, t, f), u)
  {
    hide Inv, Balanced;
    if u == t {
      HitsHere(c, w, id, t, f);
    } else {
      assert HitsOk(c, w, u);
      ExcessesUpdate(c, w.threads, id, f.pc, u);
      assert Excesses(c, w.threads[id := f.pc], u) == Excesses(c, w.threads, u);
    }
  }

  lemma ExcessKept(c: Config, pc: Pc, t: nat, sh: Shared, f: Effect)
    requires HitsPost(c, pc, t, sh, f) && ExcessOk(pc)
    requires f.pc.Looking? && f.pc.look.LookupHitFix? ==> c.probe.at(f.pc.k, f.pc.n) == t
    ensures ExcessOk(f.pc)
  {
  }

  lemma StepKeepsHits(c: Config, w: World, id: nat, ch: Choice)
    requires Inv(c, w) && AllHitsOk(c, w) && |w.threads| <= CROWD
    ensures AllHitsOk(c, Step(c, w, id, ch))
  {
    hide HitsOk, ExcessOk;
    if id < |w.threads| && Target(c, w.threads[id], ch) < c.probe.length {
      var pc, t := w.threads[id], Target(c, w.threads[id], ch);
      InvGivesLocalPre(c, w, id, t);
      HitsLocal(c, pc, See(w, t), ch);
      FixTarget(c, pc, See(w, t), ch);
      hide Inv, Exec, Target, HitsPost, LocalPre;
      var f := Exec(c, pc, See(w, t), ch);
      ExcessKept(c, pc, t, See(w, t), f);
      forall u: nat | u < |w.slots| ensures HitsOk(c, Step(c, w, id, ch), u) {
        HitsKept(c, w, id, t, f, u);
      }
    }
  }

  /** An excess is for the slot it was taken from. */
  lemma FixTarget(c: Config, pc: Pc, sh: Shared, ch: Choice)
    requires c.probe.length > 0
    ensures var f := Exec(c, pc, sh, ch);
            f.pc.Looking? && f.pc.look.LookupHitFix? ==> c.probe.at(f.pc.k, f.pc.n) == Target(c, pc, ch)
  {
  }

  // ---- Runs ----

  lemma InitialHitsOk(c: Config, n: nat)
    requires c.Valid()
    ensures AllHitsOk(c, Initial(c, n))
  {
  }

  lemma {:induction false} RunKeepsHits(c: Config, w: World, moves: seq<Move>)
    requires Inv(c, w) && AllHitsOk(c, w) && CleanRun(c, w, moves) && |w.threads| <= CROWD
    ensures AllHitsOk(c, Run(c, w, moves))
  {
    hide Inv, AllHitsOk, CleanStep, Step;
    if moves != [] {
      var n := |moves| - 1;
      InvShape(c, w);
      CleanPrefix(c, w, moves, n);
      RunKeepsHits(c, w, moves[..n]);
      RunKeepsInv(c, w, moves[..n]);
      RunKeepsSize(c, w, moves[..n]);
      StepKeepsHits(c, Run(c, w, moves[..n]), moves[n].id, moves[n].ch);
    }
  }

  lemma InvShape(c: Config, w: World)
    requires Inv(c, w)
    ensures Shape(c, w)
  {
  }

  /**
   On the slots of entries in service, in every clean run: the hit counter stays between zero and
   2000 plus the number of threads, and the reference counter is at most the loans plus the threads.
   So the word keeps its fields apart as long as loans and threads fit in 30 bits.
   */
  lemma CountersStayInField(c: Config, n: nat, moves: seq<Move>, t: nat)
    requires c.Valid() && CleanRun(c, Initial(c, n), moves) && t < c.probe.length && n <= 57
    ensures var w := Run(c, Initial(c, n), moves);
            w.slots[t].meta.Shareable() ==>
              && 0 <= w.slots[t].meta.hits <= 2000 + n
              && 0 <= w.slots[t].meta.refs <= n + w.loans[t]
              && (n + w.loans[t] <= COUNTER_MASK ==> w.slots[t].meta.Fits())
  {
    hide Initial, Inv, AllHitsOk, CleanRun, Run;
    var init := Initial(c, n);
    InitialInv(c, n);
    InitialHitsOk(c, n);
    InitialSize(c, n);
    RunKeepsInv(c, init, moves);
    RunKeepsHits(c, init, moves);
    RunKeepsSize(c, init, moves);
    if Run(c, init, moves).slots[t].meta.Shareable() {
      SlotInField(c, Run(c, init, moves), t);
    }
  }

  lemma {:induction false} RunKeepsSize(c: Config, w: World, moves: seq<Move>)
    requires Shape(c, w)
    ensures var w' := Run(c, w, moves); Shape(c, w') && |w'.threads| == |w.threads|
  {
  }

  lemma InitialSize(c: Config, n: nat)
    requires c.Valid()
    ensures Shape(c, Initial(c, n)) && |Initial(c, n).threads| == n
  {
  }

  lemma SlotInField(c: Config, w: World, t: nat)
    requires Inv(c, w) && AllHitsOk(c, w) && t < |w.slots| && w.slots[t].meta.Shareable()
    ensures 0 <= w.slots[t].meta.hits <= MAX_HIT_COUNT + |w.threads|
    ensures 0 <= w.slots[t].meta.refs <= |w.threads| + w.loans[t]
  {
    assert HitsOk(c, w, t) && RefsAgree(c, w, t);
    hide Inv, AllHitsOk, Balanced;
    BalancedBounds(w.slots[t].meta.hits - MAX_HIT_COUNT, Excesses(c, w.threads, t));
    ThreadWeightsNonNegative(c, Holders(t), w);
    SumAtMostCount(ThreadWeights(c, Holders(t), w.threads));
  }
}
