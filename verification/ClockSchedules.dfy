/**
 Which schedules keep the accounts of the interleaved cache. An erasure increments a slot it finds
 not shareable and takes the increment back in a later step; what must not happen in between is
 that the slot's word is exchanged, by publishing an entry there or by emptying the slot.
 */
module ClockSchedules {
  import opened Sums
  import opened Walk
  import opened MetaWord
  import opened ClockTable
  import opened ClockMachine
  import opened ClockLedger
  import opened ClockSafety

  /** The thread has a stray increment on slot `t` to take back. */
  ghost predicate Stray(c: Config, pc: Pc, t: nat) {
    pc.Hunting? && pc.erase.EraseStray? && c.probe.at(pc.er.key, pc.n) == t
  }

  ghost function StrayWeights(c: Config, threads: seq<Pc>, t: nat): (ws: seq<int>)
    ensures |ws| == |threads| && NonNegative(ws)
  {
    seq(|threads|, i requires 0 <= i < |threads| => One(Stray(c, threads[i], t)))
  }

  ghost function Strays(c: Config, threads: seq<Pc>, t: nat): int {
    Sum(StrayWeights(c, threads, t))
  }

  /** Stray increments are on slots that are not shareable, and the word counts at least all of them. */
  ghost predicate StrayOk(c: Config, w: World, t: nat)
    requires t < |w.slots|
  {
    var m := w.slots[t].meta;
    Strays(c, w.threads, t) <= if m.Shareable() then 0 else m.refs
  }

  ghost predicate StraysOk(c: Config, w: World) {
    forall t: nat | t < |w.slots| :: StrayOk(c, w, t)
  }

  /** The next step of the thread exchanges the word of its slot. */
  ghost predicate Exchanges(pc: Pc) {
    || (pc.Placing? && pc.place.PlacePublish?)
    || (pc.Evicting? && pc.evict.EvictEmpty?)
    || (pc.Hunting? && pc.erase.EraseEmpty?)
  }

  /** The step does not exchange the word of a slot on which another thread has a stray increment. */
  ghost predicate Undisturbed(c: Config, w: World, id: nat, ch: Choice)
    requires Shape(c, w)
  {
    id < |w.threads| && Exchanges(w.threads[id]) ==>
      forall other: nat | other < |w.threads| :: !Stray(c, w.threads[other], Target(c, w.threads[id], ch))
  }

  // ---- One step ----

  lemma StraysUpdate(c: Config, threads: seq<Pc>, id: nat, pc: Pc, t: nat)
    requires id < |threads|
    ensures Strays(c, threads[id := pc], t) == Strays(c, threads, t) - One(Stray(c, threads[id], t)) + One(Stray(c, pc, t))
  {
    hide Stray;
    var ws := StrayWeights(c, threads, t);
    assert StrayWeights(c, threads[id := pc], t) == ws[id := One(Stray(c, pc, t))];
    SumUpdate(ws, id, One(Stray(c, pc, t)));
  }

  lemma StraysAtLeast(c: Config, threads: seq<Pc>, id: nat, t: nat)
    requires id < |threads|
    ensures One(Stray(c, threads[id], t)) <= Strays(c, threads, t)
  {
    SumAtLeast(StrayWeights(c, threads, t), id);
  }

  lemma NoStrays(c: Config, threads: seq<Pc>, t: nat)
    requires forall other: nat | other < |threads| :: !Stray(c, threads[other], t)
    ensures Strays(c, threads, t) == 0
  {
    SumZero(StrayWeights(c, threads, t));
  }

  /** A decrement that takes back a counted stray increment is clean. */
  lemma StraysAreClean(c: Config, w: World, id: nat, ch: Choice)
    requires Shape(c, w) && StraysOk(c, w)
    ensures CleanStep(c, w, id, ch)
  {
    if id < |w.threads| && w.threads[id].Hunting? && w.threads[id].erase.EraseStray? {
      var t := Target(c, w.threads[id], ch);
      if t < c.probe.length {
        StraysAtLeast(c, w.threads, id, t);
        assert StrayOk(c, w, t);
      }
    }
  }

  /** What one step does to the word of its slot and to its own stray increment. */
  ghost predicate StrayPost(c: Config, pc: Pc, t: nat, sh: Shared, f: Effect) {
    var m, m' := sh.slot.meta, f.now.slot.meta;
    && (forall u: nat | u != t :: Stray(c, f.pc, u) == Stray(c, pc, u))
    && (m'.Shareable() ==> !Stray(c, f.pc, t) && (m.Shareable() || Exchanges(pc)))
    && (!m'.Shareable() && m.Shareable() ==> Stray(c, f.pc, t) == Stray(c, pc, t) && 0 <= m'.refs)
    && (!m'.Shareable() && !m.Shareable() && !Exchanges(pc) ==>
          One(Stray(c, f.pc, t)) - One(Stray(c, pc, t)) <= m'.refs - m.refs)
    && (Exchanges(pc) ==> !Stray(c, f.pc, t) && 0 <= m'.refs)
  }

  lemma StrayErase(c: Config, pc: Pc, sh: Shared, ch: Choice)
    requires c.probe.length > 0 && pc.Hunting? && LocalPre(c, pc, Target(c, pc, ch), sh) && Clean(pc, sh)
    ensures StrayPost(c, pc, Target(c, pc, ch), sh, Exec(c, pc, sh, ch))
  {
    hide Claims, ChargeHeld, PlacesHeld, Dooms, SlotWeight;
  }

  lemma StrayEvict(c: Config, pc: Pc, sh: Shared, ch: Choice)
    requires c.probe.length > 0 && pc.Evicting? && LocalPre(c, pc, Target(c, pc, ch), sh)
    ensures StrayPost(c, pc, Target(c, pc, ch), sh, Exec(c, pc, sh, ch))
  {
    hide Claims, ChargeHeld, PlacesHeld, Dooms, SlotWeight;
  }

  lemma StrayPlace(c: Config, pc: Pc, sh: Shared, ch: Choice)
    requires c.probe.length > 0 && pc.Placing? && LocalPre(c, pc, Target(c, pc, ch), sh)
    ensures StrayPost(c, pc, Target(c, pc, ch), sh, Exec(c, pc, sh, ch))
  {
    hide Claims, ChargeHeld, PlacesHeld, Dooms, SlotWeight;
  }

  lemma StrayOther(c: Config, pc: Pc, sh: Shared, ch: Choice)
    requires c.probe.length > 0 && LocalPre(c, pc, Target(c, pc, ch), sh)
    requires !pc.Hunting? && !pc.Evicting? && !pc.Placing?
    ensures StrayPost(c, pc, Target(c, pc, ch), sh, Exec(c, pc, sh, ch))
  {
    hide Claims, ChargeHeld, PlacesHeld, Dooms, SlotWeight;
  }

  lemma StrayLocal(c: Config, pc: Pc, sh: Shared, ch: Choice)
    requires c.probe.length > 0 && LocalPre(c, pc, Target(c, pc, ch), sh) && Clean(pc, sh)
    ensures StrayPost(c, pc, Target(c, pc, ch), sh, Exec(c, pc, sh, ch))
  {
    hide LocalPre, StrayPost, Exec, Target;
    if pc.Hunting? {
      StrayErase(c, pc, sh, ch);
    } else if pc.Evicting? {
      StrayEvict(c, pc, sh, ch);
    } else if pc.Placing? {
      StrayPlace(c, pc, sh, ch);
    } else {
      StrayOther(c, pc, sh, ch);
    }
  }

  /** A step that disturbs no stray increment keeps them counted, at its slot and at any other. */
  lemma StrayKept(c: Config, w: World, id: nat, t: nat, f: Effect, u: nat)
    requires Shape(c, w) && StraysOk(c, w) && id < |w.threads| && t < |w.slots| && u < |w.slots|
    requires StrayPost(c, w.threads[id], t, See(w, t), f)
    requires Exchanges(w.threads[id]) ==> forall other: nat | other < |w.threads| :: !Stray(c, w.threads[other], t)
    ensures StrayOk(c, Apply(w, id, t, f), u)
  {
    hide Stray, Exchanges;
    StraysUpdate(c, w.threads, id, f.pc, u);
    assert StrayOk(c, w, u);
    if u == t && Exchanges(w.threads[id]) {
      NoStrays(c, w.threads, t);
    }
    if u == t {
      StraysAtLeast(c, w.threads, id, t);
    }
  }

  lemma UndisturbedKeepsStrays(c: Config, w: World, id: nat, ch: Choice)
    requires Inv(c, w) && StraysOk(c, w) && Undisturbed(c, w, id, ch)
    ensures StraysOk(c, Step(c, w, id, ch))
  {
    StraysAreClean(c, w, id, ch);
    hide StrayOk;
    if id < |w.threads| && Target(c, w.threads[id], ch) < c.probe.length {
      var pc, t := w.threads[id], Target(c, w.threads[id], ch);
      InvGivesLocalPre(c, w, id, t);
      StrayLocal(c, pc, See(w, t), ch);
      hide Exec, Target, StrayPost, LocalPre, Stray, Exchanges;
      forall u: nat | u < |w.slots|
        ensures StrayOk(c, Step(c, w, id, ch), u)
      {
        StrayKept(c, w, id, t, Exec(c, pc, See(w, t), ch), u);
      }
    }
  }

  // ---- Runs ----

  ghost predicate UndisturbedRun(c: Config, w: World, moves: seq<Move>)
    requires Shape(c, w)
  {
    forall i: nat | i < |moves| :: Undisturbed(c, Run(c, w, moves[..i]), moves[i].id, moves[i].ch)
  }

  lemma UndisturbedPrefix(c: Config, w: World, moves: seq<Move>, n: nat)
    requires Shape(c, w) && UndisturbedRun(c, w, moves) && n <= |moves|
    ensures UndisturbedRun(c, w, moves[..n])
  {
    hide Undisturbed, Run;
    forall i: nat | i < n
      ensures Undisturbed(c, Run(c, w, moves[..n][..i]), moves[..n][i].id, moves[..n][i].ch)
    {
      assert moves[..n][..i] == moves[..i];
    }
  }

  /**
   A schedule in which no word is exchanged under a stray increment is clean, so every ledger holds
   at its end.
   */
  lemma {:induction false} UndisturbedRunIsClean(c: Config, w: World, moves: seq<Move>)
    requires Inv(c, w) && StraysOk(c, w) && UndisturbedRun(c, w, moves)
    ensures CleanRun(c, w, moves) && Inv(c, Run(c, w, moves)) && StraysOk(c, Run(c, w, moves))
  {
    hide Inv, StraysOk, Undisturbed, CleanStep, Step;
    if moves != [] {
      ShapeOf(c, w);
      var n := |moves| - 1;
      var before, m := Run(c, w, moves[..n]), moves[n];
      UndisturbedPrefix(c, w, moves, n);
      UndisturbedRunIsClean(c, w, moves[..n]);
      assert Undisturbed(c, before, m.id, m.ch);
      StraysAreClean(c, before, m.id, m.ch);
      CleanExtend(c, w, moves[..n], m);
      assert moves[..n] + [m] == moves;
      CleanStepKeepsInv(c, before, m.id, m.ch);
      UndisturbedKeepsStrays(c, before, m.id, m.ch);
    }
  }

  lemma ShapeOf(c: Config, w: World)
    requires Inv(c, w)
    ensures Shape(c, w)
  {
  }

  lemma InitialHasNoStrays(c: Config, n: nat)
    requires c.Valid()
    ensures StraysOk(c, Initial(c, n))
  {
    var w := Initial(c, n);
    forall t: nat | t < |w.slots| ensures StrayOk(c, w, t) {
      NoStrays(c, w.threads, t);
    }
  }

  /** From the empty cache: no disturbance, no broken account. */
  lemma UndisturbedFromStart(c: Config, n: nat, moves: seq<Move>)
    requires c.Valid() && UndisturbedRun(c, Initial(c, n), moves)
    ensures CleanRun(c, Initial(c, n), moves) && Inv(c, Run(c, Initial(c, n), moves))
  {
    InitialInv(c, n);
    InitialHasNoStrays(c, n);
    UndisturbedRunIsClean(c, Initial(c, n), moves);
  }

  // ---- Erase's pair of accesses as one step ----

  /** The increment and the decrement taken as adjacent steps are always clean. */
  lemma AdjacentPairIsClean(c: Config, w: World, id: nat, ch: Choice, ch': Choice)
    requires Inv(c, w) && id < |w.threads| && w.threads[id].Hunting? && w.threads[id].erase.EraseIncr?
    ensures CleanStep(c, Step(c, w, id, ch), id, ch')
  {
    hide Inv, Holds, Exec, Step, Clean, CleanStep;
    HuntingInRange(c, w, id);
    var pc := w.threads[id];
    var t := Target(c, pc, ch);
    HolderFacts(c, w, id, t);
    PairLocal(c, pc, See(w, t), ch);
    StepIs(c, w, id, ch);
    CleanAfter(c, Step(c, w, id, ch), id, ch');
  }

  lemma HuntingInRange(c: Config, w: World, id: nat)
    requires Inv(c, w) && id < |w.threads| && w.threads[id].Hunting?
    ensures Shape(c, w) && c.probe.length > 0 && w.threads[id].n < c.probe.length
    ensures c.probe.at(w.threads[id].er.key, w.threads[id].n) < c.probe.length
  {
    assert PcOk(c, w.threads[id]);
  }

  lemma StepIs(c: Config, w: World, id: nat, ch: Choice)
    requires Shape(c, w) && id < |w.threads| && Target(c, w.threads[id], ch) < c.probe.length
    ensures var t := Target(c, w.threads[id], ch);
            Step(c, w, id, ch) == Apply(w, id, t, Exec(c, w.threads[id], See(w, t), ch))
  {
    hide Exec, Target;
  }

  lemma CleanAfter(c: Config, w: World, id: nat, ch: Choice)
    requires Shape(c, w) && id < |w.threads| && w.threads[id].Hunting? && !w.threads[id].erase.EraseUnwind?
    requires var t := c.probe.at(w.threads[id].er.key, w.threads[id].n);
             t < |w.slots| && (w.threads[id].erase.EraseStray? ==> !w.slots[t].meta.Shareable() && w.slots[t].meta.refs > 0)
    ensures CleanStep(c, w, id, ch)
  {
  }

  lemma PairLocal(c: Config, pc: Pc, sh: Shared, ch: Choice)
    requires c.probe.length > 0 && pc.Hunting? && pc.erase.EraseIncr?
    requires !sh.slot.meta.Shareable() ==> 0 <= sh.slot.meta.refs
    ensures var f := Exec(c, pc, sh, ch);
            && f.pc.Hunting? && f.pc.er == pc.er && f.pc.n == pc.n
            && (f.pc.erase.EraseStray? ==> !f.now.slot.meta.Shareable() && f.now.slot.meta.refs > 0)
            && (f.pc.erase.EraseStray? || f.pc.erase.EraseCompare? || f.pc.erase.EraseDecr?)
  {
  }

  /** A thread with a stray increment is always the next to move. */
  ghost predicate PairedRun(c: Config, w: World, moves: seq<Move>)
    requires Shape(c, w)
  {
    forall i: nat, id: nat | i < |moves| && id < |w.threads| && InStray(Run(c, w, moves[..i]).threads[id]) :: moves[i].id == id
  }

  ghost predicate InStray(pc: Pc) {
    pc.Hunting? && pc.erase.EraseStray?
  }

  /** If every stray decrement follows its increment at once, all ledgers hold after every run. */
  lemma PairedRunIsClean(c: Config, n: nat, moves: seq<Move>)
    requires c.Valid() && PairedRun(c, Initial(c, n), moves)
    ensures CleanRun(c, Initial(c, n), moves) && Inv(c, Run(c, Initial(c, n), moves))
  {
    var w := Initial(c, n);
    forall i: nat | i < |moves|
      ensures Undisturbed(c, Run(c, w, moves[..i]), moves[i].id, moves[i].ch)
    {
      hide Run;
      var here := Run(c, w, moves[..i]);
      assert forall other: nat | other < |w.threads| && InStray(here.threads[other]) :: moves[i].id == other;
    }
    UndisturbedFromStart(c, n, moves);
  }
}
