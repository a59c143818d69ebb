/** Runs of the interleaved cache in which Erase's stray decrement breaks the reference accounts. */
module ClockRuns {
  import opened Sums
  import opened Walk
  import opened MetaWord
  import opened ClockTable
  import opened ClockMachine
  import opened ClockLedger
  import opened ClockSafety

  /** Two slots, capacity 10, one place; the walk of `k` starts at slot 0. */
  ghost predicate Tiny(c: Config, k: Key) {
    c.Valid() && c.probe.length == 2 && c.capacity == 10 && c.limit == 1 && c.probe.at(k, 0) == 0
  }

  /** The table of length two that the program itself builds, and a key whose second hash is even. */
  lemma ProgramIsTiny(k: Key)
    requires k.h1 % 2 == 0
    ensures IsPow2(2) && Tiny(Config(OddProbe(2), 10, 1), k)
  {
    assert IsPow2(2) by {
      assert IsPow2(1);
    }
    OddProbePermutes(2);
    assert OddProbe(2).at(k, 0) == Visit(k, 2, 0);
  }

  /**
   Thread 0 erases an absent key and is preempted between its increment of the empty slot 0 and
   the matching decrement. Meanwhile thread 1 publishes an entry there, up to move 9, and erases
   it again, up to move 16.
   */
  ghost function PreemptedMoves(k: Key): (moves: seq<Move>)
    ensures |moves| == 16
  {
    var go := Choice(Rest, false, 0);
    [Move(0, Choice(StartErase(k), false, 0)), Move(0, go),
     Move(1, Choice(StartInsert(Handle(7, true, k, 1)), false, 0)),
     Move(1, go), Move(1, go), Move(1, go), Move(1, go), Move(1, go), Move(1, go),
     Move(1, Choice(StartErase(k), false, 0)),
     Move(1, go), Move(1, go), Move(1, go), Move(1, go), Move(1, go), Move(1, go)]
  }

  /** The move that makes the decrement. */
  ghost function StrayMove(): Move {
    Move(0, Choice(Rest, false, 0))
  }

  ghost function ThreadZero(k: Key, i: nat): Pc {
    var er := Erasing(k, false, false, Alone);
    if i == 0 then Done(Nothing) else Hunting(er, 0, if i == 1 then EraseIncr else EraseStray)
  }

  ghost function ThreadOne(k: Key, i: nat): Pc {
    var h, er := Handle(7, true, k, 1), Erasing(k, false, false, Alone);
    if i <= 2 then Done(Nothing)
    else if i == 3 then Reserving(h, InsertOccupy)
    else if i == 4 then Reserving(h, ChargeLoad(false))
    else if i == 5 then Reserving(h, ChargeCas(false, 0))
    else if i == 6 then Placing(h, false, 0, PlaceOr)
    else if i == 7 then Placing(h, false, 0, PlaceWrite)
    else if i == 8 then Placing(h, false, 0, PlacePublish)
    else if i == 9 then Done(Inserted(true))
    else if i == 10 then Hunting(er, 0, EraseIncr)
    else if i == 11 then Hunting(er, 0, EraseCompare)
    else if i == 12 then Hunting(er.(found := true), 0, EraseHide)
    else if i == 13 then Hunting(er.(found := true), 0, EraseTake(Hide(AddRefs(Published(), 1))))
    else if i == 14 then Hunting(er.(found := true), 0, EraseFree(h))
    else if i == 15 then Hunting(er.(found := true), 0, EraseEmpty(1))
    else Hunting(er.(found := true), 0, EraseOccupancy(1))
  }

  ghost function SlotZero(k: Key, i: nat): Slot {
    var h := Handle(7, true, k, 1);
    var meta :=
      if i <= 1 then Vacant()
      else if i <= 6 then Meta(1, 0, false, Empty)
      else if i <= 8 then Meta(1, 0, false, Construction)
      else if i <= 10 then Published()
      else if i <= 12 then AddRefs(Published(), 1)
      else if i == 13 then Hide(AddRefs(Published(), 1))
      else if i <= 15 then Meta(0, 0, false, Construction)
      else Vacant();
    Slot(meta, if i <= 7 then FreshSlot().entry else if i <= 14 then h else h.FreeData(), 0)
  }

  /** The world after the first `i` of these moves. */
  ghost function PreemptedWorld(k: Key, i: nat): World {
    World([SlotZero(k, i), FreshSlot()], [0, 0], [ThreadZero(k, i), ThreadOne(k, i)],
          if i >= 6 then 1 else 0, if i >= 4 then 1 else 0, 0,
          if i >= 9 then multiset{7} else multiset{}, if i >= 15 then multiset{7} else multiset{})
  }

  ghost predicate PreemptedStepOk(c: Config, k: Key, i: nat)
    requires Tiny(c, k) && i < 16
  {
    var m, w := PreemptedMoves(k)[i], PreemptedWorld(k, i);
    CleanStep(c, w, m.id, m.ch) && Step(c, w, m.id, m.ch) == PreemptedWorld(k, i + 1)
  }

  lemma {:induction false} PreemptedStepsStart(c: Config, k: Key, i: nat)
    requires Tiny(c, k) && i < 3
    ensures PreemptedStepOk(c, k, i)
  {
  }

  lemma {:induction false} PreemptedStepsReserve(c: Config, k: Key, i: nat)
    requires Tiny(c, k) && 3 <= i < 6
    ensures PreemptedStepOk(c, k, i)
  {
  }

  lemma {:induction false} PreemptedStepsPlace(c: Config, k: Key, i: nat)
    requires Tiny(c, k) && 6 <= i < 9
    ensures PreemptedStepOk(c, k, i)
  {
  }

  lemma {:induction false} PreemptedStepsMatch(c: Config, k: Key, i: nat)
    requires Tiny(c, k) && 9 <= i < 13
    ensures PreemptedStepOk(c, k, i)
  {
  }

  lemma {:induction false} PreemptedStepsTake(c: Config, k: Key)
    requires Tiny(c, k)
    ensures PreemptedStepOk(c, k, 13)
  {
  }

  lemma {:induction false} PreemptedStepsFree(c: Config, k: Key)
    requires Tiny(c, k)
    ensures PreemptedStepOk(c, k, 14)
  {
  }

  lemma {:induction false} PreemptedStepsEmpty(c: Config, k: Key)
    requires Tiny(c, k)
    ensures PreemptedStepOk(c, k, 15)
  {
  }

  lemma {:induction false} PreemptedStep(c: Config, k: Key, i: nat)
    requires Tiny(c, k) && i < 16
    ensures PreemptedStepOk(c, k, i)
  {
    hide PreemptedStepOk;
    if i < 3 {
      PreemptedStepsStart(c, k, i);
    } else if i < 6 {
      PreemptedStepsReserve(c, k, i);
    } else if i < 9 {
      PreemptedStepsPlace(c, k, i);
    } else if i < 13 {
      PreemptedStepsMatch(c, k, i);
    } else if i == 13 {
      PreemptedStepsTake(c, k);
    } else if i == 14 {
      PreemptedStepsFree(c, k);
    } else {
      PreemptedStepsEmpty(c, k);
    }
  }

  lemma {:induction false} PreemptedRun(c: Config, k: Key, i: nat)
    requires Tiny(c, k) && i <= 16
    ensures var w, ms := Initial(c, 2), PreemptedMoves(k)[..i];
            Run(c, w, ms) == PreemptedWorld(k, i) && CleanRun(c, w, ms)
  {
    hide PreemptedWorld, PreemptedMoves, CleanStep, Step, Initial;
    var w, ms := Initial(c, 2), PreemptedMoves(k);
    PreemptedStart(c, k);
    if i > 0 {
      PreemptedRun(c, k, i - 1);
      PreemptedStep(c, k, i - 1);
      CleanExtend(c, w, ms[..i - 1], ms[i - 1]);
      assert ms[..i - 1] + [ms[i - 1]] == ms[..i];
    }
  }

  lemma PreemptedStart(c: Config, k: Key)
    requires Tiny(c, k)
    ensures Shape(c, Initial(c, 2)) && Initial(c, 2) == PreemptedWorld(k, 0)
  {
  }

  /** What the stray decrement does to slot 0 after `i` moves, if it is not clean there. */
  lemma StrayAfter(c: Config, k: Key, i: nat)
    requires Tiny(c, k) && (i == 9 || i == 16)
    ensures var w, m := PreemptedWorld(k, i), StrayMove();
            && !CleanStep(c, w, m.id, m.ch)
            && Step(c, w, m.id, m.ch).slots[0].meta == AddRefs(SlotZero(k, i).meta, -1)
  {
  }

  /** Either decrement is reachable, and the reference ledger is broken after it. */
  lemma {:induction false} StrayDecrementIsReachable(c: Config, k: Key, i: nat)
    requires Tiny(c, k) && (i == 9 || i == 16)
    ensures var w, ms := Initial(c, 2), PreemptedMoves(k)[..i];
            && CleanRun(c, w, ms) && !ReferenceLedger(c, Run(c, w, ms + [StrayMove()]))
            && Run(c, w, ms + [StrayMove()]).slots[0].meta == AddRefs(SlotZero(k, i).meta, -1)
  {
    hide PreemptedWorld, PreemptedMoves, Initial, Step, CleanStep, CleanRun;
    var w, ms := Initial(c, 2), PreemptedMoves(k)[..i];
    PreemptedRun(c, k, i);
    StrayAfter(c, k, i);
    UncleanRunBreaksReferences(c, 2, ms, StrayMove());
    assert (ms + [StrayMove()])[..i] == ms;
  }

  /**
   On the program's own table: the first decrement takes a reference from an entry in service, the
   second turns the word of an empty slot into that of a visible one.
   */
  lemma ProgramReachesBoth(k: Key)
    requires k.h1 % 2 == 0
    ensures IsPow2(2) && Config(OddProbe(2), 10, 1).Valid()
    ensures var c, ms := Config(OddProbe(2), 10, 1), PreemptedMoves(k);
            var published := Run(c, Initial(c, 2), ms[..9] + [StrayMove()]);
            var erased := Run(c, Initial(c, 2), ms + [StrayMove()]);
            && !ReferenceLedger(c, published) && published.slots[0].meta == AddRefs(Published(), -1)
            && !ReferenceLedger(c, erased) && erased.slots[0].meta == AddRefs(Vacant(), -1)
            && StateOf(FetchSub(Pack(Vacant()), REF_INCREMENT)) == StateCode(Visible)
  {
    hide OddProbe, Step, Initial, ReferenceLedger, PreemptedMoves;
    ProgramIsTiny(k);
    var c := Config(OddProbe(2), 10, 1);
    StrayDecrementIsReachable(c, k, 9);
    StrayDecrementIsReachable(c, k, 16);
    assert PreemptedMoves(k)[..16] == PreemptedMoves(k);
    DecrementOfVacantForgesVisible();
  }
}
