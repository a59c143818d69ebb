/** How long the sweep of an eviction can take in the interleaved cache, counted in its own steps. */
module ClockEffort {
  import opened Sums
  import opened Walk
  import opened MetaWord
  import opened ClockTable
  import opened ClockMachine
  import opened ClockLedger
  import opened ClockSafety

  /** The thread is moving the clock hand: from the start of an eviction up to its settlement. */
  ghost predicate Sweeps(pc: Pc) {
    pc.Evicting? && !pc.evict.SettleOccupancy? && !pc.evict.SettleUsage?
  }

  /** The hand is ahead of the round a thread is in, and the bound of the sweep is three turns from where it began. */
  ghost predicate Paced(c: Config, clock: nat, pc: Pc) {
    Sweeps(pc) && !pc.evict.EvictStart? ==>
      && pc.e.at + STEP_SIZE <= clock && pc.e.max <= pc.e.at + MAX_COUNTDOWN * c.probe.length
      && (pc.evict.EvictClock? ==> pc.e.at < pc.e.max)
  }

  ghost predicate AllPaced(c: Config, w: World) {
    forall id: nat | id < |w.threads| :: Paced(c, w.clock, w.threads[id])
  }

  // ---- The rank ----

  /** Steps on one slot, and on one round, at most. */
  ghost function SlotWork(c: Config): nat {
    c.probe.length + 4
  }

  ghost function RoundWork(c: Config): nat {
    STEP_SIZE * SlotWork(c) + 2
  }

  ghost function RoundsLeft(at: int, max: int): nat {
    if max <= at then 0 else (max - at + STEP_SIZE - 1) / STEP_SIZE
  }

  ghost function AllRounds(c: Config): nat {
    RoundsLeft(0, MAX_COUNTDOWN * c.probe.length)
  }

  ghost function InRound(c: Config, phase: EvictPhase): int {
    match phase
    case EvictLoad(i) => (STEP_SIZE - i) * SlotWork(c) + 1
    case EvictDecay(i, _) => (STEP_SIZE - 1 - i) * SlotWork(c) + 2
    case EvictTake(i, _) => (STEP_SIZE - 1 - i) * SlotWork(c) + SlotWork(c)
    case EvictUnwind(i, x, t, j) => (STEP_SIZE - 1 - i) * SlotWork(c) + (c.probe.index(x.key, t) - j) + 3
    case EvictFree(i, _, _) => (STEP_SIZE - 1 - i) * SlotWork(c) + 3
    case EvictEmpty(i, _) => (STEP_SIZE - 1 - i) * SlotWork(c) + 2
    case _ => 1
  }

  ghost function SweepRank(c: Config, pc: Pc): int
    requires Sweeps(pc)
  {
    if pc.evict.EvictStart? then (AllRounds(c) + 1) * RoundWork(c)
    else RoundsLeft(pc.e.at, pc.e.max) * RoundWork(c) + InRound(c, pc.evict)
  }

  lemma Scaled(a: nat, b: nat, k: nat)
    requires a <= b
    ensures a * k <= b * k && (b + 1) * k == b * k + k
  {
  }

  lemma RoundsBounded(c: Config, at: int, max: int)
    requires max <= at + MAX_COUNTDOWN * c.probe.length
    ensures RoundsLeft(at, max) <= AllRounds(c)
  {
  }

  lemma RankBounded(c: Config, pc: Pc, clock: nat)
    requires Sweeps(pc) && PcOk(c, pc) && Paced(c, clock, pc) && c.Valid()
    ensures 0 < SweepRank(c, pc) <= (AllRounds(c) + 1) * RoundWork(c)
  {
    hide RoundWork, InRound, RoundsLeft, AllRounds, Permutes, EvictionOk;
    Scaled(AllRounds(c), AllRounds(c), RoundWork(c));
    InRoundBounded(c, EvictLoad(0));
    if !pc.evict.EvictStart? {
      InRoundBounded(c, pc.evict);
      RoundsBounded(c, pc.e.at, pc.e.max);
      Scaled(RoundsLeft(pc.e.at, pc.e.max), AllRounds(c), RoundWork(c));
    }
  }

  lemma InRoundBounded(c: Config, phase: EvictPhase)
    requires c.Valid() && EvictPhaseOk(c, phase)
    ensures 0 < InRound(c, phase) < RoundWork(c)
  {
    if phase.EvictUnwind? {
      assert c.probe.index(phase.x.key, phase.t) < c.probe.length;
    }
  }

  // ---- One step ----

  /** A step of a sweep ends it, goes on in its round, or begins the next one. */
  lemma SweepExec(c: Config, e: Eviction, phase: EvictPhase, sh: Shared, ch: Choice)
    requires c.Valid() && Sweeps(Evicting(e, phase)) && EvictPhaseOk(c, phase)
    requires Paced(c, sh.clock, Evicting(e, phase))
    ensures var f := ExecEvict(c, e, phase, sh, ch);
            && f.pc.Evicting? && Paced(c, f.now.clock, f.pc) && sh.clock <= f.now.clock
            && (Sweeps(f.pc) ==>
                  if phase.EvictStart? || phase.EvictClock? then
                    f.pc.evict == EvictLoad(0) && f.pc.e.at == sh.clock
                    && f.pc.e.max == if phase.EvictStart? then sh.clock + MAX_COUNTDOWN * c.probe.length else e.max
                  else f.pc.e.at == e.at && f.pc.e.max == e.max && InRound(c, f.pc.evict) < InRound(c, phase))
  {
    if phase.EvictTake? {
      assert c.probe.index(sh.slot.entry.key, EvictTarget(c, e, phase.i)) < c.probe.length;
      assert c.probe.at(sh.slot.entry.key, c.probe.index(sh.slot.entry.key, EvictTarget(c, e, phase.i))) == EvictTarget(c, e, phase.i);
    }
    if phase.EvictUnwind? {
      assert c.probe.at(phase.x.key, c.probe.index(phase.x.key, phase.t)) == phase.t;
    }
  }

  /** The next round begins at least four positions on, so that fewer rounds are left. */
  lemma NextRound(at: int, at': int, max: int)
    requires at + STEP_SIZE <= at' && at < max
    ensures RoundsLeft(at', max) + 1 <= RoundsLeft(at, max)
  {
  }

  lemma RankLowered(c: Config, e: Eviction, phase: EvictPhase, sh: Shared, ch: Choice)
    requires c.Valid() && Sweeps(Evicting(e, phase)) && EvictPhaseOk(c, phase)
    requires Paced(c, sh.clock, Evicting(e, phase))
    ensures var f := ExecEvict(c, e, phase, sh, ch); Sweeps(f.pc) ==> SweepRank(c, f.pc) < SweepRank(c, Evicting(e, phase))
  {
    var f := ExecEvict(c, e, phase, sh, ch);
    SweepExec(c, e, phase, sh, ch);
    InRoundBounded(c, EvictLoad(0));
    assert InRound(c, EvictClock) == 1;
    hide ExecEvict, RoundWork, InRound, RoundsLeft, Permutes;
    if Sweeps(f.pc) {
      if phase.EvictStart? {
        assert RoundsLeft(f.pc.e.at, f.pc.e.max) == AllRounds(c) by {
          SameRounds(sh.clock, MAX_COUNTDOWN * c.probe.length);
        }
        Scaled(AllRounds(c), AllRounds(c), RoundWork(c));
      } else if phase.EvictClock? {
        NextRound(e.at, sh.clock, e.max);
        var r := RoundsLeft(sh.clock, e.max);
        Scaled(r + 1, RoundsLeft(e.at, e.max), RoundWork(c));
        Scaled(r, r, RoundWork(c));
      }
    }
  }

  lemma SameRounds(at: int, turn: int)
    ensures RoundsLeft(at, at + turn) == RoundsLeft(0, turn)
  {
  }

  /** Every step of a sweep, in any state of any clean run, ends it or lowers its rank; other steps leave it. */
  lemma SweepIsWaitFree(c: Config, w: World, id: nat, ch: Choice)
    requires Inv(c, w) && AllPaced(c, w) && id < |w.threads| && Sweeps(w.threads[id])
    ensures 0 < SweepRank(c, w.threads[id]) <= (AllRounds(c) + 1) * RoundWork(c)
    ensures var pc := Step(c, w, id, ch).threads[id];
            pc.Evicting? && (Sweeps(pc) ==> SweepRank(c, pc) < SweepRank(c, w.threads[id]))
  {
    var pc := w.threads[id];
    assert PcOk(c, pc) && Paced(c, w.clock, pc);
    TargetInRange(c, pc, ch);
    hide Inv, ExecEvict, Paced, SweepRank, EvictionOk, EvictPhaseOk, AllRounds, RoundWork;
    RankBounded(c, pc, w.clock);
    var sh := See(w, Target(c, pc, ch));
    RankLowered(c, pc.e, pc.evict, sh, ch);
    SweepExec(c, pc.e, pc.evict, sh, ch);
  }

  // ---- Runs ----

  lemma ClockGrows(c: Config, pc: Pc, sh: Shared, ch: Choice)
    requires c.probe.length > 0
    ensures sh.clock <= Exec(c, pc, sh, ch).now.clock
    ensures !pc.Evicting? && Sweeps(Exec(c, pc, sh, ch).pc) ==> Exec(c, pc, sh, ch).pc.evict.EvictStart?
    ensures pc.Evicting? && !Sweeps(pc) ==> !Sweeps(Exec(c, pc, sh, ch).pc)
  {
  }

  lemma StepKeepsPace(c: Config, w: World, id: nat, ch: Choice)
    requires Inv(c, w) && AllPaced(c, w)
    ensures AllPaced(c, Step(c, w, id, ch)) && w.clock <= Step(c, w, id, ch).clock
  {
    if id < |w.threads| && Target(c, w.threads[id], ch) < c.probe.length {
      var pc, t := w.threads[id], Target(c, w.threads[id], ch);
      assert PcOk(c, pc) && Paced(c, w.clock, pc) && c.Valid();
      if Sweeps(pc) {
        SweepExec(c, pc.e, pc.evict, See(w, t), ch);
      }
      ClockGrows(c, pc, See(w, t), ch);
      hide Inv, Exec, ExecEvict;
      var f := Exec(c, pc, See(w, t), ch);
      assert Paced(c, f.now.clock, f.pc);
    }
  }

  lemma {:induction false} RunKeepsPace(c: Config, w: World, moves: seq<Move>)
    requires Inv(c, w) && AllPaced(c, w) && CleanRun(c, w, moves)
    ensures Shape(c, w) && AllPaced(c, Run(c, w, moves))
  {
    InvShape(c, w);
    hide Inv, AllPaced, CleanStep, Step;
    if moves != [] {
      var n := |moves| - 1;
      CleanPrefix(c, w, moves, n);
      RunKeepsPace(c, w, moves[..n]);
      RunKeepsInv(c, w, moves[..n]);
      StepKeepsPace(c, Run(c, w, moves[..n]), moves[n].id, moves[n].ch);
    }
  }

  lemma InvShape(c: Config, w: World)
    requires Inv(c, w)
    ensures Shape(c, w)
  {
  }

  lemma InitialPaced(c: Config, n: nat)
    requires c.Valid()
    ensures AllPaced(c, Initial(c, n))
  {
  }

  /** How many of the moves are the thread's own. */
  ghost function OwnMoves(moves: seq<Move>, id: nat): nat {
    if moves == [] then 0 else OwnMoves(moves[..|moves| - 1], id) + (if moves[|moves| - 1].id == id then 1 else 0)
  }

  /** The thread is in its sweep in every state of the run. */
  ghost predicate SweepsThroughout(c: Config, w: World, moves: seq<Move>, id: nat)
    requires Shape(c, w) && id < |w.threads|
  {
    forall i: nat | i <= |moves| :: Sweeps(Run(c, w, moves[..i]).threads[id])
  }

  lemma SweepsPrefix(c: Config, w: World, moves: seq<Move>, id: nat, n: nat)
    requires Shape(c, w) && id < |w.threads| && SweepsThroughout(c, w, moves, id) && n <= |moves|
    ensures SweepsThroughout(c, w, moves[..n], id) && Sweeps(Run(c, w, moves[..n]).threads[id])
  {
    hide Run, Sweeps;
    forall i: nat | i <= n ensures Sweeps(Run(c, w, moves[..n][..i]).threads[id]) {
      assert moves[..n][..i] == moves[..i];
    }
  }

  /** However long a run is and whatever other threads do, a sweep takes no more own steps than its rank. */
  lemma {:induction false} SweepsEnd(c: Config, w: World, moves: seq<Move>, id: nat)
    requires Inv(c, w) && AllPaced(c, w) && CleanRun(c, w, moves) && id < |w.threads| && SweepsThroughout(c, w, moves, id)
    ensures Sweeps(w.threads[id]) && Sweeps(Run(c, w, moves).threads[id])
    ensures SweepRank(c, Run(c, w, moves).threads[id]) + OwnMoves(moves, id) <= SweepRank(c, w.threads[id])
  {
    InvShape(c, w);
    assert moves[..0] == [] && moves[..|moves|] == moves;
    hide Inv, AllPaced, CleanStep, Step, Sweeps, SweepRank;
    SweepsPrefix(c, w, moves, id, 0);
    SweepsPrefix(c, w, moves, id, |moves|);
    if moves != [] {
      var n := |moves| - 1;
      CleanPrefix(c, w, moves, n);
      SweepsPrefix(c, w, moves, id, n);
      SweepsEnd(c, w, moves[..n], id);
      RunKeepsInv(c, w, moves[..n]);
      RunKeepsPace(c, w, moves[..n]);
      var here := Run(c, w, moves[..n]);
      if moves[n].id == id {
        SweepIsWaitFree(c, here, id, moves[n].ch);
      } else {
        OthersKeepPc(c, here, moves[n].id, moves[n].ch, id);
      }
    }
  }

  /** In particular, from the empty cache: at most three turns of rounds, each of at most four slots' work. */
  lemma {:induction false} SweepsAreShort(c: Config, n: nat, before: seq<Move>, moves: seq<Move>, id: nat)
    requires c.Valid() && id < n && CleanRun(c, Initial(c, n), before)
    requires var w := Run(c, Initial(c, n), before);
             CleanRun(c, w, moves) && id < |w.threads| && SweepsThroughout(c, w, moves, id)
    ensures OwnMoves(moves, id) < (AllRounds(c) + 1) * RoundWork(c)
  {
    hide Initial, Run, CleanRun, AllPaced, SweepRank, AllRounds, RoundWork;
    InitialInv(c, n);
    InitialPaced(c, n);
    RunKeepsInv(c, Initial(c, n), before);
    RunKeepsPace(c, Initial(c, n), before);
    var w := Run(c, Initial(c, n), before);
    SweepsEnd(c, w, moves, id);
    RunKeepsInv(c, w, moves);
    RunKeepsPace(c, w, moves);
    hide Inv;
    SweepIsWaitFree(c, w, id, Choice(Rest, false, 0));
    SweepIsWaitFree(c, Run(c, w, moves), id, Choice(Rest, false, 0));
  }
}
