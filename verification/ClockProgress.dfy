/**
 How long the searches of the interleaved cache can take, counted in their own steps: a placement is
 wait-free, and an erasure takes more than its bound only by swaps it lost.
 */
module ClockProgress {
  import opened Walk
  import opened ClockTable
  import opened ClockMachine
  import opened ClockLedger
  import opened ClockSafety
  import ClockCalls
  import opened ClockEffort
  import ClockSolo

  // ---- Placements ----

  /** Own steps left before a placement must end, at most. */
  ghost function PlaceRank(c: Config, n: nat, phase: PlacePhase): int {
    if phase.PlaceUnwind? then n - phase.j
    else
      c.probe.length + 5 * (c.probe.length - 1 - n) +
        match phase
        case PlaceOr => 5
        case PlaceIncr => 4
        case PlaceCompare => 3
        case PlaceDecr(_) => 2
        case PlaceWrite => 2
        case _ => 1
  }

  lemma PlaceExecRank(c: Config, h: Handle, again: bool, n: nat, phase: PlacePhase, sh: Shared)
    requires n < c.probe.length && (phase.PlaceUnwind? ==> phase.j < n)
    ensures 0 < PlaceRank(c, n, phase) <= 6 * c.probe.length
    ensures var pc := ExecPlace(c, h, again, n, phase, sh).pc;
            pc.Placing? ==> pc.h == h && pc.again == again && PlaceRank(c, pc.n, pc.place) < PlaceRank(c, n, phase)
  {
  }

  /** A placement is wait-free: each of its own steps ends it or lowers a rank of at most `6 * length`. */
  lemma PlaceIsWaitFree(c: Config, w: World, id: nat, ch: Choice)
    requires Inv(c, w) && id < |w.threads| && w.threads[id].Placing?
    ensures 0 < PlaceRank(c, w.threads[id].n, w.threads[id].place) <= 6 * c.probe.length
    ensures var pc, pc' := w.threads[id], Step(c, w, id, ch).threads[id];
            pc'.Placing? ==> pc'.h == pc.h && pc'.again == pc.again && PlaceRank(c, pc'.n, pc'.place) < PlaceRank(c, pc.n, pc.place)
  {
    var pc := w.threads[id];
    assert PcOk(c, pc);
    TargetInRange(c, pc, ch);
    hide Inv, ExecPlace, PlaceRank;
    PlaceExecRank(c, pc.h, pc.again, pc.n, pc.place, See(w, Target(c, pc, ch)));
  }

  // ---- Erasures ----

  /** Steps on one slot, lost swaps aside: at most these, a whole rollback included. */
  ghost function EraseWork(c: Config): nat {
    c.probe.length + 11
  }

  ghost function OnSlot(c: Config, n: nat, phase: ErasePhase): int {
    match phase
    case EraseIncr => c.probe.length + 10
    case EraseCompare => c.probe.length + 9
    case EraseHide => c.probe.length + 8
    case EraseTake(_) => c.probe.length + 7
    case EraseFree(_) => c.probe.length + 6
    case EraseEmpty(_) => c.probe.length + 5
    case EraseOccupancy(_) => c.probe.length + 4
    case EraseUsage(_) => c.probe.length + 3
    case EraseUnwind(j) => n - j + 2
    case EraseDecr => 2
    case EraseStray => 2
    case EraseStop => 1
  }

  ghost function EraseRank(c: Config, n: nat, phase: ErasePhase): int {
    (c.probe.length - 1 - n) * EraseWork(c) + OnSlot(c, n, phase)
  }

  ghost function RankOf(c: Config, pc: Pc): int
    requires ClockCalls.Hunts(pc)
  {
    EraseRank(c, pc.n, pc.erase)
  }

  /** The erasure is about to lose the swap that takes its copy. */
  ghost predicate LosesTake(phase: ErasePhase, sh: Shared, ch: Choice) {
    phase.EraseTake? && (ch.spurious || sh.slot.meta != phase.seen)
  }

  lemma OnSlotBounded(c: Config, n: nat, phase: ErasePhase)
    requires n < c.probe.length && (phase.EraseUnwind? ==> phase.j < n)
    ensures 0 < OnSlot(c, n, phase) < EraseWork(c)
    ensures 0 < EraseRank(c, n, phase) < c.probe.length * EraseWork(c)
  {
    Scaled(c.probe.length - 1 - n, c.probe.length - 1, EraseWork(c));
    Scaled(c.probe.length - 1, c.probe.length - 1, EraseWork(c));
    assert (c.probe.length - 1 - n) * EraseWork(c) >= 0;
  }

  lemma EraseExecRank(c: Config, er: Erasing, n: nat, phase: ErasePhase, sh: Shared, ch: Choice)
    requires n < c.probe.length && (phase.EraseUnwind? ==> phase.j < n)
    ensures var pc := ExecErase(c, er, n, phase, sh, ch).pc;
            pc.Hunting? ==>
              || (pc.n == n && OnSlot(c, n, pc.erase) < OnSlot(c, n, phase))
              || (pc.n == n + 1 < c.probe.length && phase.EraseStop? && pc.erase.EraseIncr?)
              || (pc.n == n && pc.erase.EraseTake? && LosesTake(phase, sh, ch))
  {
  }

  lemma NextSlot(c: Config, n: nat)
    requires n + 1 < c.probe.length
    ensures EraseRank(c, n + 1, EraseIncr) < EraseRank(c, n, EraseStop)
  {
    Scaled(c.probe.length - 2 - n, c.probe.length - 2 - n, EraseWork(c));
  }

  /**
   Each own step of an erasure ends it, lowers a rank below `length * (length + 11)`, or is a swap it
   lost, because the word had changed or for no reason; then it is where it was.
   */
  lemma EraseStepsOrRetries(c: Config, w: World, id: nat, ch: Choice)
    requires Inv(c, w) && id < |w.threads| && ClockCalls.Hunts(w.threads[id])
    ensures 0 < RankOf(c, w.threads[id]) < c.probe.length * (c.probe.length + 11)
    ensures ClockCalls.Hunts(Step(c, w, id, ch).threads[id]) ==>
              RankOf(c, Step(c, w, id, ch).threads[id]) < RankOf(c, w.threads[id]) + if LosesSwap(c, w, id, ch) then 1 else 0
  {
    hide Inv, Step, ExecErase, LocalPre, EraseRank, LosesTake;
    var pc := w.threads[id];
    HuntOk(c, w, id);
    ClockCalls.EraseApplies(c, w, id, ch);
    OnSlotBounded(c, pc.n, pc.erase);
    RankStep(c, pc.er, pc.n, pc.erase, See(w, Target(c, pc, ch)), ch);
  }

  lemma HuntOk(c: Config, w: World, id: nat)
    requires Inv(c, w) && id < |w.threads| && ClockCalls.Hunts(w.threads[id])
    ensures var pc := w.threads[id]; pc.n < c.probe.length && (pc.erase.EraseUnwind? ==> pc.erase.j < pc.n)
  {
    assert PcOk(c, w.threads[id]);
  }

  lemma RankStep(c: Config, er: Erasing, n: nat, phase: ErasePhase, sh: Shared, ch: Choice)
    requires n < c.probe.length && (phase.EraseUnwind? ==> phase.j < n)
    ensures var pc := ExecErase(c, er, n, phase, sh, ch).pc;
            pc.Hunting? ==> EraseRank(c, pc.n, pc.erase) < EraseRank(c, n, phase) + if LosesTake(phase, sh, ch) then 1 else 0
  {
    EraseExecRank(c, er, n, phase, sh, ch);
    var pc := ExecErase(c, er, n, phase, sh, ch).pc;
    hide ExecErase, EraseRank, LosesTake;
    if pc.Hunting? {
      if pc.n == n {
        SameSlot(c, n, pc.erase, phase);
      } else {
        NextSlot(c, n);
      }
    }
  }

  lemma SameSlot(c: Config, n: nat, a: ErasePhase, b: ErasePhase)
    ensures EraseRank(c, n, a) - EraseRank(c, n, b) == OnSlot(c, n, a) - OnSlot(c, n, b)
  {
  }

  ghost predicate LosesSwap(c: Config, w: World, id: nat, ch: Choice)
    requires id < |w.threads|
  {
    var pc := w.threads[id];
    c.probe.length > 0 && pc.Hunting? && Target(c, pc, ch) < |w.slots| == |w.loans| && LosesTake(pc.erase, See(w, Target(c, pc, ch)), ch)
  }

  /** How many swaps the thread's erasure loses in a run. */
  ghost function LostSwaps(c: Config, w: World, moves: seq<Move>, id: nat): (k: nat)
    requires Shape(c, w) && id < |w.threads|
  {
    if moves == [] then 0
    else
      var n := |moves| - 1;
      LostSwaps(c, w, moves[..n], id) + if moves[n].id == id && LosesSwap(c, Run(c, w, moves[..n]), id, moves[n].ch) then 1 else 0
  }

  /** Whatever other threads do, an erasure takes no more own steps than its rank and the swaps it has lost. */
  lemma {:induction false} ErasesEnd(c: Config, w: World, moves: seq<Move>, id: nat)
    requires Inv(c, w) && CleanRun(c, w, moves) && id < |w.threads| && ClockCalls.HuntsThroughout(c, w, moves, id)
    ensures ClockCalls.Hunts(w.threads[id]) && ClockCalls.Hunts(Run(c, w, moves).threads[id])
    ensures RankOf(c, Run(c, w, moves).threads[id]) + OwnMoves(moves, id) <= RankOf(c, w.threads[id]) + LostSwaps(c, w, moves, id)
  {
    ClockCalls.InvShape(c, w);
    assert moves[..0] == [] && moves[..|moves|] == moves;
    hide Inv, CleanStep, Step, ClockCalls.Hunts, RankOf, LosesSwap;
    ClockCalls.HuntsPrefix(c, w, moves, id, 0);
    ClockCalls.HuntsPrefix(c, w, moves, id, |moves|);
    if moves != [] {
      var n := |moves| - 1;
      CleanPrefix(c, w, moves, n);
      ClockCalls.HuntsPrefix(c, w, moves, id, n);
      ErasesEnd(c, w, moves[..n], id);
      RunKeepsInv(c, w, moves[..n]);
      var here := Run(c, w, moves[..n]);
      if moves[n].id == id {
        EraseStepsOrRetries(c, here, id, moves[n].ch);
      } else {
        OthersKeepPc(c, here, moves[n].id, moves[n].ch, id);
      }
    }
  }

  /** In particular, an erasure still under way has taken fewer own steps than `length * (length + 11)`, lost swaps aside. */
  lemma {:induction false} ErasesAreShort(c: Config, w: World, moves: seq<Move>, id: nat)
    requires Inv(c, w) && CleanRun(c, w, moves) && id < |w.threads| && ClockCalls.HuntsThroughout(c, w, moves, id)
    ensures OwnMoves(moves, id) < c.probe.length * (c.probe.length + 11) + LostSwaps(c, w, moves, id)
  {
    ErasesEnd(c, w, moves, id);
    RunKeepsInv(c, w, moves);
    hide Inv, Run, RankOf, LostSwaps, ClockCalls.Hunts, ClockCalls.HuntsThroughout, CleanRun;
    EraseStepsOrRetries(c, w, id, Choice(Rest, false, 0));
    EraseStepsOrRetries(c, Run(c, w, moves), id, Choice(Rest, false, 0));
  }

  // ---- An erasure by itself ----

  /** The erasure's view of the word it is about to swap is still true. */
  ghost predicate SawIt(c: Config, w: World, id: nat)
    requires id < |w.threads|
  {
    var pc := w.threads[id];
    pc.Hunting? && pc.erase.EraseTake? ==>
      c.probe.at(pc.er.key, pc.n) < |w.slots| && w.slots[c.probe.at(pc.er.key, pc.n)].meta == pc.erase.seen
  }

  ghost predicate NeverSpurious(moves: seq<Move>) {
    forall i: nat | i < |moves| :: !moves[i].ch.spurious
  }

  lemma ExecSawIt(c: Config, er: Erasing, n: nat, phase: ErasePhase, sh: Shared, ch: Choice)
    requires !LosesTake(phase, sh, ch)
    ensures var f := ExecErase(c, er, n, phase, sh, ch);
            f.pc.Hunting? && f.pc.erase.EraseTake? ==> phase.EraseHide? && f.pc.er.key == er.key && f.pc.n == n && f.now.slot.meta == f.pc.erase.seen
  {
  }

  lemma KeepsSawIt(c: Config, w: World, id: nat, ch: Choice)
    requires Inv(c, w) && id < |w.threads| && ClockCalls.Hunts(w.threads[id]) && SawIt(c, w, id) && !ch.spurious
    ensures !LosesSwap(c, w, id, ch) && SawIt(c, Step(c, w, id, ch), id)
  {
    var pc := w.threads[id];
    ClockCalls.EraseApplies(c, w, id, ch);
    hide Inv, ExecErase, LocalPre;
    ExecSawIt(c, pc.er, pc.n, pc.erase, See(w, Target(c, pc, ch)), ch);
  }

  /** An erasure that nobody disturbs and whose swaps do not fail for no reason ends in fewer than `length * (length + 11)` steps. */
  lemma {:induction false} UndisturbedEraseEnds(c: Config, w: World, moves: seq<Move>, id: nat, k: Key, why: Why)
    requires Inv(c, w) && id < |w.threads| && ClockSolo.ByItself(moves, id) && NeverSpurious(moves)
    requires w.threads[id] == Hunting(Erasing(k, false, false, why), 0, EraseIncr) && ClockCalls.HuntsThroughout(c, w, moves, id)
    ensures |moves| < c.probe.length * (c.probe.length + 11)
  {
    SoloRank(c, w, moves, id, k, why);
    ClockSolo.SoloEraseRun(c, w, moves, id, k, why);
    hide Inv, Run, RankOf, ClockCalls.Hunts, ClockSolo.SoloErase, ClockCalls.HuntsThroughout;
    EraseStepsOrRetries(c, w, id, Choice(Rest, false, 0));
    EraseStepsOrRetries(c, Run(c, w, moves), id, Choice(Rest, false, 0));
  }

  lemma {:induction false} SoloRank(c: Config, w: World, moves: seq<Move>, id: nat, k: Key, why: Why)
    requires Inv(c, w) && id < |w.threads| && ClockSolo.ByItself(moves, id) && NeverSpurious(moves)
    requires w.threads[id] == Hunting(Erasing(k, false, false, why), 0, EraseIncr) && ClockCalls.HuntsThroughout(c, w, moves, id)
    ensures ClockCalls.Hunts(w.threads[id]) && ClockCalls.Hunts(Run(c, w, moves).threads[id])
    ensures SawIt(c, Run(c, w, moves), id) && RankOf(c, Run(c, w, moves).threads[id]) + |moves| <= RankOf(c, w.threads[id])
  {
    ClockCalls.InvShape(c, w);
    assert moves[..|moves|] == moves;
    hide Inv, Step, RankOf, LosesSwap, ClockSolo.SoloErase;
    ClockCalls.HuntsPrefix(c, w, moves, id, |moves|);
    if moves != [] {
      var n := |moves| - 1;
      ClockCalls.HuntsPrefix(c, w, moves, id, n);
      SoloRank(c, w, moves[..n], id, k, why);
      ClockSolo.SoloEraseRun(c, w, moves[..n], id, k, why);
      var here := Run(c, w, moves[..n]);
      hide SawIt;
      KeepsSawIt(c, here, id, moves[n].ch);
      EraseStepsOrRetries(c, here, id, moves[n].ch);
    }
  }
}
