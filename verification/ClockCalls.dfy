/**
 What erasures and insertions of the interleaved cache achieve and answer, whatever other threads do: an
 erasure leaves no copy that it could have seen, and an insertion is placed before every copy that stays.
 */
module ClockCalls {
  import opened Sums
  import opened Walk
  import opened MetaWord
  import opened ClockTable
  import opened ClockMachine
  import opened ClockLedger
  import opened ClockSafety

  // ---- Erasures reach every copy ----

  /** The erasure has not passed slot `t`, nor hidden what is there. */
  ghost predicate EraseNotPast(c: Config, pc: Pc, k: Key, t: nat) {
    && pc.Hunting? && pc.er.key == k
    && pc.n <= c.probe.index(k, t)
    && (pc.n == c.probe.index(k, t) ==> pc.erase.EraseIncr? || pc.erase.EraseCompare? || pc.erase.EraseHide?)
  }

  lemma EraseExecNotPast(c: Config, er: Erasing, n: nat, phase: ErasePhase, sh: Shared, ch: Choice, t: nat)
    requires c.Valid() && t < c.probe.length && EraseNotPast(c, Hunting(er, n, phase), er.key, t)
    requires n == c.probe.index(er.key, t) ==> sh.slot.ShowsKey(er.key) && ExecErase(c, er, n, phase, sh, ch).now.slot.ShowsKey(er.key)
    requires phase.EraseStop? ==> sh.slot.displacements > 0
    ensures EraseNotPast(c, ExecErase(c, er, n, phase, sh, ch).pc, er.key, t)
  {
    assert c.probe.index(er.key, t) < c.probe.length;
  }

  /** The facts about one step that all slots share. */
  lemma EraseApplies(c: Config, w: World, id: nat, ch: Choice)
    requires Inv(c, w) && id < |w.threads| && w.threads[id].Hunting?
    ensures var pc := w.threads[id]; var t := Target(c, pc, ch);
            && c.Valid() && pc.n < c.probe.length && t < c.probe.length == |w.slots| == |w.loans|
            && LocalPre(c, pc, t, See(w, t))
            && c.probe.at(pc.er.key, pc.n) < |w.slots|
            && (!pc.erase.EraseUnwind? ==> t == c.probe.at(pc.er.key, pc.n))
            && Step(c, w, id, ch) == Apply(w, id, t, ExecErase(c, pc.er, pc.n, pc.erase, See(w, t), ch))
  {
    var pc := w.threads[id];
    assert PcOk(c, pc);
    TargetInRange(c, pc, ch);
    InvGivesLocalPre(c, w, id, Target(c, pc, ch));
    assert c.probe.at(pc.er.key, pc.n) < c.probe.length;
    hide Inv, ExecErase, LocalPre;
  }

  lemma EraseSees(c: Config, w: World, id: nat, ch: Choice, k: Key, t: nat)
    requires Inv(c, w) && id < |w.threads| && t < |w.slots| == c.probe.length && c.Valid()
    requires w.slots[t].ShowsKey(k) && EraseNotPast(c, w.threads[id], k, t)
    ensures var pc, s := w.threads[id], Target(c, w.threads[id], ch);
            && (pc.n == c.probe.index(k, t) ==> s == t)
            && (pc.erase.EraseStop? && s < |w.slots| ==> w.slots[s].displacements > 0)
  {
    hide Inv;
    var pc := w.threads[id];
    assert c.probe.index(k, t) < c.probe.length && c.probe.at(k, c.probe.index(k, t)) == t;
    if pc.erase.EraseStop? {
      PathIsMarked(c, w, k, t, pc.n);
    }
  }

  lemma EraseStepNotPast(c: Config, w: World, id: nat, k: Key, t: nat, ch: Choice)
    requires Inv(c, w) && id < |w.threads| && t < |w.slots|
    requires w.slots[t].ShowsKey(k) && Step(c, w, id, ch).slots[t].ShowsKey(k) && EraseNotPast(c, w.threads[id], k, t)
    ensures EraseNotPast(c, Step(c, w, id, ch).threads[id], k, t)
  {
    var pc, s := w.threads[id], Target(c, w.threads[id], ch);
    hide Inv, ExecErase, EraseNotPast, Target, LocalPre, Step;
    HuntsForKey(c, pc, k, t);
    EraseApplies(c, w, id, ch);
    EraseSees(c, w, id, ch, k, t);
    EraseExecNotPast(c, pc.er, pc.n, pc.erase, See(w, s), ch, t);
  }

  lemma HuntsForKey(c: Config, pc: Pc, k: Key, t: nat)
    requires EraseNotPast(c, pc, k, t)
    ensures pc.Hunting? && pc.er.key == k
  {
  }

  /**
   No entry for `k` outlasts an erasure of `k` in sight: as long as one slot shows `k`, from the start of
   the erasure on, the erasure has not come to its end, whatever the other threads do.
   */
  lemma {:induction false} EraseNeverPasses(c: Config, w: World, moves: seq<Move>, id: nat, k: Key, t: nat)
    requires Inv(c, w) && CleanRun(c, w, moves) && id < |w.threads| && t < c.probe.length
    requires EraseNotPast(c, w.threads[id], k, t) && StaysVisible(c, w, moves, t, k)
    ensures EraseNotPast(c, Run(c, w, moves).threads[id], k, t)
  {
    InvShape(c, w);
    hide Inv, EraseNotPast, CleanStep, StaysVisible, Step, CleanRun;
    if moves != [] {
      var n := |moves| - 1;
      CleanPrefix(c, w, moves, n);
      StaysPrefix(c, w, moves, n, t, k);
      StaysPrefix(c, w, moves, |moves|, t, k);
      assert moves[..|moves|] == moves;
      EraseNeverPasses(c, w, moves[..n], id, k, t);
      RunKeepsInv(c, w, moves[..n]);
      EraseOneMore(c, Run(c, w, moves[..n]), id, k, t, moves[n]);
    }
  }

  lemma InvShape(c: Config, w: World)
    requires Inv(c, w)
    ensures Shape(c, w)
  {
  }

  lemma EraseOneMore(c: Config, w: World, id: nat, k: Key, t: nat, m: Move)
    requires Inv(c, w) && id < |w.threads| && t < |w.slots|
    requires w.slots[t].ShowsKey(k) && Step(c, w, m.id, m.ch).slots[t].ShowsKey(k) && EraseNotPast(c, w.threads[id], k, t)
    ensures EraseNotPast(c, Step(c, w, m.id, m.ch).threads[id], k, t)
  {
    hide Inv, EraseNotPast;
    if m.id == id {
      EraseStepNotPast(c, w, id, k, t, m.ch);
    } else {
      InvShape(c, w);
      OthersKeepPc(c, w, m.id, m.ch, id);
    }
  }

  lemma StaysPrefix(c: Config, w: World, moves: seq<Move>, n: nat, t: nat, k: Key)
    requires Shape(c, w) && t < c.probe.length && n <= |moves| && StaysVisible(c, w, moves, t, k)
    ensures StaysVisible(c, w, moves[..n], t, k)
    ensures Run(c, w, moves[..n]).slots[t].ShowsKey(k)
  {
    hide Run;
    forall i: nat | i <= n ensures Run(c, w, moves[..n][..i]).slots[t].ShowsKey(k) {
      assert moves[..n][..i] == moves[..i];
    }
  }

  /** In particular, an erasure that has ended has met no such entry. */
  lemma {:induction false} EndedEraseHidAll(c: Config, w: World, moves: seq<Move>, id: nat, k: Key, why: Why, t: nat)
    requires Inv(c, w) && CleanRun(c, w, moves) && id < |w.threads| && t < c.probe.length
    requires w.threads[id] == Hunting(Erasing(k, false, false, why), 0, EraseIncr)
    requires !Run(c, w, moves).threads[id].Hunting?
    ensures !StaysVisible(c, w, moves, t, k)
  {
    if StaysVisible(c, w, moves, t, k) {
      EraseNeverPasses(c, w, moves, id, k, t);
    }
  }

  // ---- What an erasure answers ----

  /** The thread's step hides the copy it holds, or finds it hidden by another erasure. */
  ghost predicate Strikes(c: Config, w: World, id: nat, ch: Choice)
    requires Shape(c, w)
  {
    && id < |w.threads| && w.threads[id].Hunting? && w.threads[id].erase.EraseHide?
    && var t := Target(c, w.threads[id], ch);
       t < |w.slots| && Step(c, w, id, ch).slots[t].meta.state.Invisible? && Step(c, w, id, ch).slots[t].entry.key == w.threads[id].er.key
  }

  /** The thread's step empties the slot of a copy it has taken. */
  ghost predicate Empties(c: Config, w: World, id: nat, ch: Choice)
    requires Shape(c, w)
  {
    && id < |w.threads| && w.threads[id].Hunting?
    && var t := Target(c, w.threads[id], ch);
       t < |w.slots| && w.slots[t].meta.state.Construction? && Step(c, w, id, ch).slots[t].meta == Vacant()
  }

  ghost predicate EverStrikes(c: Config, w: World, moves: seq<Move>, id: nat)
    requires Shape(c, w)
  {
    moves != [] &&
    var n := |moves| - 1;
    EverStrikes(c, w, moves[..n], id) || (moves[n].id == id && Strikes(c, Run(c, w, moves[..n]), id, moves[n].ch))
  }

  ghost predicate EverEmpties(c: Config, w: World, moves: seq<Move>, id: nat)
    requires Shape(c, w)
  {
    moves != [] &&
    var n := |moves| - 1;
    EverEmpties(c, w, moves[..n], id) || (moves[n].id == id && Empties(c, Run(c, w, moves[..n]), id, moves[n].ch))
  }

  /** What an erasure remembers is what it has done. */
  ghost predicate Remembers(pc: Pc, struck: bool, emptied: bool) {
    && pc.Hunting?
    && (pc.er.found <==> struck || pc.erase.EraseHide?)
    && (emptied <==> pc.er.succ || pc.erase.EraseOccupancy? || pc.erase.EraseUsage? || pc.erase.EraseUnwind?)
  }

  /** Where an erasure goes when it ends. */
  ghost function EraseAnswer(why: Why, ok: bool): Pc {
    match why
    case Alone => Done(Erased(ok))
    case ForInsert(h) => if ok then Placing(h, true, 0, PlaceOr) else Failing(h, FailOccupancy(true))
  }

  lemma HuntingStep(c: Config, w: World, id: nat, ch: Choice, struck: bool, emptied: bool)
    requires Inv(c, w) && id < |w.threads| && Remembers(w.threads[id], struck, emptied)
    ensures var pc, pc' := w.threads[id], Step(c, w, id, ch).threads[id];
            var struck', emptied' := struck || Strikes(c, w, id, ch), emptied || Empties(c, w, id, ch);
            if pc'.Hunting? then Remembers(pc', struck', emptied') && pc'.er.why == pc.er.why && pc'.er.key == pc.er.key
            else pc' == EraseAnswer(pc.er.why, emptied' || !struck')
  {
    var pc := w.threads[id];
    assert PcOk(c, pc);
    TargetInRange(c, pc, ch);
    var t := Target(c, pc, ch);
    InvGivesLocalPre(c, w, id, t);
    hide Inv;
    EraseLocalStep(c, pc.er, pc.n, pc.erase, See(w, t), ch, struck, emptied);
  }

  lemma EraseLocalStep(c: Config, er: Erasing, n: nat, phase: ErasePhase, sh: Shared, ch: Choice, struck: bool, emptied: bool)
    requires c.probe.length > 0 && LocalPre(c, Hunting(er, n, phase), Target(c, Hunting(er, n, phase), ch), sh) && Remembers(Hunting(er, n, phase), struck, emptied)
    ensures var f := ExecErase(c, er, n, phase, sh, ch);
            var struck' := struck || (phase.EraseHide? && f.now.slot.meta.state.Invisible? && f.now.slot.entry.key == er.key);
            var emptied' := emptied || (sh.slot.meta.state.Construction? && f.now.slot.meta == Vacant());
            if f.pc.Hunting? then Remembers(f.pc, struck', emptied') && f.pc.er.why == er.why && f.pc.er.key == er.key
            else f.pc == EraseAnswer(er.why, emptied' || !struck')
  {
    hide Claims, ChargeHeld, PlacesHeld, Dooms, SlotWeight;
  }

  ghost predicate Hunts(pc: Pc) {
    pc.Hunting?
  }

  ghost predicate HuntsThroughout(c: Config, w: World, moves: seq<Move>, id: nat)
    requires Shape(c, w) && id < |w.threads|
  {
    forall i: nat | i <= |moves| :: Hunts(Run(c, w, moves[..i]).threads[id])
  }

  lemma HuntsPrefix(c: Config, w: World, moves: seq<Move>, id: nat, n: nat)
    requires Shape(c, w) && id < |w.threads| && HuntsThroughout(c, w, moves, id) && n <= |moves|
    ensures HuntsThroughout(c, w, moves[..n], id) && Hunts(Run(c, w, moves[..n]).threads[id])
  {
    hide Run, Hunts;
    forall i: nat | i <= n ensures Hunts(Run(c, w, moves[..n][..i]).threads[id]) {
      assert moves[..n][..i] == moves[..i];
    }
  }

  lemma OthersRemember(c: Config, w: World, m: Move, id: nat, struck: bool, emptied: bool)
    requires Inv(c, w) && id < |w.threads| && Remembers(w.threads[id], struck, emptied)
    ensures var pc, pc' := w.threads[id], Step(c, w, m.id, m.ch).threads[id];
            var struck', emptied' := struck || (m.id == id && Strikes(c, w, id, m.ch)), emptied || (m.id == id && Empties(c, w, id, m.ch));
            if pc'.Hunting? then Remembers(pc', struck', emptied') && pc'.er.why == pc.er.why && pc'.er.key == pc.er.key
            else m.id == id && pc' == EraseAnswer(pc.er.why, emptied' || !struck')
  {
    InvShape(c, w);
    hide Inv, Remembers, Strikes, Empties;
    if m.id == id {
      HuntingStep(c, w, id, m.ch, struck, emptied);
    } else {
      OthersKeepPc(c, w, m.id, m.ch, id);
    }
    assert w.threads[id].Hunting? by {
      StillHunting(w.threads[id], struck, emptied);
    }
  }

  lemma StillHunting(pc: Pc, struck: bool, emptied: bool)
    requires Remembers(pc, struck, emptied)
    ensures pc.Hunting?
  {
  }

  lemma {:induction false} RunRemembers(c: Config, w: World, moves: seq<Move>, id: nat, k: Key, why: Why)
    requires Inv(c, w) && CleanRun(c, w, moves) && id < |w.threads| && HuntsThroughout(c, w, moves, id)
    requires w.threads[id] == Hunting(Erasing(k, false, false, why), 0, EraseIncr)
    ensures var pc := Run(c, w, moves).threads[id];
            Remembers(pc, EverStrikes(c, w, moves, id), EverEmpties(c, w, moves, id)) && pc.Hunting? && pc.er.why == why && pc.er.key == k
  {
    InvShape(c, w);
    hide Inv, CleanStep, Step, CleanRun, Strikes, Empties, Run;
    if moves == [] {
      RunOfNothing(c, w);
    } else {
      hide Remembers;
      var n := |moves| - 1;
      CleanPrefix(c, w, moves, n);
      HuntsPrefix(c, w, moves, id, n);
      HuntsPrefix(c, w, moves, id, |moves|);
      assert moves[..|moves|] == moves;
      RunRemembers(c, w, moves[..n], id, k, why);
      RunKeepsInv(c, w, moves[..n]);
      RunLast(c, w, moves);
      var struck, emptied := EverStrikes(c, w, moves[..n], id), EverEmpties(c, w, moves[..n], id);
      EverLast(c, w, moves, id);
      hide EverStrikes, EverEmpties, HuntsThroughout;
      OthersRemember(c, Run(c, w, moves[..n]), moves[n], id, struck, emptied);
    }
  }

  lemma EverLast(c: Config, w: World, moves: seq<Move>, id: nat)
    requires Shape(c, w) && moves != []
    ensures var n := |moves| - 1; var m, here := moves[n], Run(c, w, moves[..n]);
            && (EverStrikes(c, w, moves, id) <==> EverStrikes(c, w, moves[..n], id) || (m.id == id && Strikes(c, here, id, m.ch)))
            && (EverEmpties(c, w, moves, id) <==> EverEmpties(c, w, moves[..n], id) || (m.id == id && Empties(c, here, id, m.ch)))
  {
    hide Strikes, Empties, Run;
  }

  lemma RunOfNothing(c: Config, w: World)
    requires Shape(c, w)
    ensures Run(c, w, []) == w
  {
  }

  lemma RunLast(c: Config, w: World, moves: seq<Move>)
    requires Shape(c, w) && moves != []
    ensures var n := |moves| - 1; Run(c, w, moves) == Step(c, Run(c, w, moves[..n]), moves[n].id, moves[n].ch)
  {
    hide Step;
  }

  /**
   An erasure answers false if and only if it has hidden some copy and emptied none; one that belongs to
   an insertion goes on to place or to fail accordingly.
   */
  lemma {:induction false} EraseAnswersExactly(c: Config, w: World, moves: seq<Move>, id: nat, k: Key, why: Why, m: Move)
    requires Inv(c, w) && CleanRun(c, w, moves) && id < |w.threads| && HuntsThroughout(c, w, moves, id)
    requires w.threads[id] == Hunting(Erasing(k, false, false, why), 0, EraseIncr)
    requires !Step(c, Run(c, w, moves), m.id, m.ch).threads[id].Hunting?
    ensures m.id == id
    ensures Step(c, Run(c, w, moves), m.id, m.ch).threads[id]
         == EraseAnswer(why, !(EverStrikes(c, w, moves, id) && !EverEmpties(c, w, moves, id)))
  {
    InvShape(c, w);
    RunRemembers(c, w, moves, id, k, why);
    RunKeepsInv(c, w, moves);
    hide Inv, CleanStep, CleanRun, Run, EverStrikes, EverEmpties, HuntsThroughout;
    OthersRemember(c, Run(c, w, moves), m, id, EverStrikes(c, w, moves, id), EverEmpties(c, w, moves, id));
    StopsIdle(c, Run(c, w, moves), id, m.ch);
  }

  /** The step that ends an erasure neither hides nor empties anything. */
  lemma StopsIdle(c: Config, w: World, id: nat, ch: Choice)
    requires Shape(c, w) && id < |w.threads| && w.threads[id].Hunting? && !Step(c, w, id, ch).threads[id].Hunting?
    ensures !Strikes(c, w, id, ch) && !Empties(c, w, id, ch)
  {
  }

  // ---- Insertions are placed before copies that stay ----

  /** The placement has not passed slot `t`, or has found a copy of its key. */
  ghost predicate PlaceNotPast(c: Config, k: Key, n: nat, phase: PlacePhase, t: nat) {
    if phase.PlaceUnwind? then phase.matched
    else
      && n <= c.probe.index(k, t)
      && (n == c.probe.index(k, t) ==> phase.PlaceOr? || phase.PlaceIncr? || phase.PlaceCompare? || phase == PlaceDecr(true))
  }

  /** The thread is inserting `h` and, if it is at the table at all, has not passed slot `t`. */
  ghost predicate InsertNotPast(c: Config, pc: Pc, h: Handle, t: nat) {
    match pc
    case Reserving(h', _) => h' == h
    case Evicting(e, _) => e.h == h
    case Placing(h', _, n, phase) => h' == h && PlaceNotPast(c, h.key, n, phase, t)
    case Failing(h', _) => h' == h
    case Hunting(er, _, _) => er.why == ForInsert(h) && EraseNotPast(c, pc, h.key, t)
    case _ => false
  }

  /** How an insertion ends: it has failed, or has just published `h` in a slot before `t`. */
  ghost predicate InsertEnds(c: Config, pc: Pc, pc': Pc, h: Handle, t: nat) {
    || pc' == Done(Inserted(false))
    || (pc' == Done(Inserted(true)) && pc.Placing? && pc.h == h && pc.place.PlacePublish? && pc.n < c.probe.index(h.key, t))
  }

  lemma PlaceExecNotPast(c: Config, h: Handle, again: bool, n: nat, phase: PlacePhase, sh: Shared, t: nat)
    requires c.Valid() && t < c.probe.length && n < c.probe.length && PlaceNotPast(c, h.key, n, phase, t)
    requires n == c.probe.index(h.key, t) && !phase.PlaceUnwind? ==> sh.slot.ShowsKey(h.key)
    ensures var pc' := ExecPlace(c, h, again, n, phase, sh).pc;
            InsertNotPast(c, pc', h, t) || InsertEnds(c, Placing(h, again, n, phase), pc', h, t)
  {
    assert c.probe.index(h.key, t) < c.probe.length;
  }

  lemma PlaceStepNotPast(c: Config, w: World, id: nat, h: Handle, t: nat, ch: Choice)
    requires Inv(c, w) && id < |w.threads| && t < |w.slots| && w.threads[id].Placing?
    requires w.slots[t].ShowsKey(h.key) && InsertNotPast(c, w.threads[id], h, t)
    ensures var pc' := Step(c, w, id, ch).threads[id]; InsertNotPast(c, pc', h, t) || InsertEnds(c, w.threads[id], pc', h, t)
  {
    var pc := w.threads[id];
    assert PcOk(c, pc);
    assert c.Valid() && c.probe.at(h.key, c.probe.index(h.key, t)) == t;
    TargetInRange(c, pc, ch);
    var s := Target(c, pc, ch);
    assert pc.n == c.probe.index(h.key, t) && !pc.place.PlaceUnwind? ==> s == t;
    hide Inv;
    PlaceExecNotPast(c, h, pc.again, pc.n, pc.place, See(w, s), t);
    hide ExecPlace;
  }

  lemma ReserveExecNotPast(c: Config, pc: Pc, sh: Shared, ch: Choice, h: Handle, t: nat)
    requires c.probe.length > 0 && 0 <= c.probe.index(h.key, t)
    requires pc.Reserving? || pc.Evicting? || pc.Failing?
    requires InsertNotPast(c, pc, h, t)
    ensures var pc' := Exec(c, pc, sh, ch).pc; InsertNotPast(c, pc', h, t) || InsertEnds(c, pc, pc', h, t)
  {
    hide EraseNotPast;
  }

  lemma ReserveStepNotPast(c: Config, w: World, id: nat, h: Handle, t: nat, ch: Choice)
    requires Inv(c, w) && id < |w.threads| && t < |w.slots|
    requires w.threads[id].Reserving? || w.threads[id].Evicting? || w.threads[id].Failing?
    requires InsertNotPast(c, w.threads[id], h, t)
    ensures var pc' := Step(c, w, id, ch).threads[id]; InsertNotPast(c, pc', h, t) || InsertEnds(c, w.threads[id], pc', h, t)
  {
    InvShape(c, w);
    hide Inv, Exec, InsertNotPast, InsertEnds;
    var u := Target(c, w.threads[id], ch);
    if u < c.probe.length {
      ReserveExecNotPast(c, w.threads[id], See(w, u), ch, h, t);
    }
  }

  lemma InsertStepNotPast(c: Config, w: World, id: nat, h: Handle, t: nat, ch: Choice)
    requires Inv(c, w) && id < |w.threads| && t < |w.slots| && InsertNotPast(c, w.threads[id], h, t)
    requires w.slots[t].ShowsKey(h.key) && Step(c, w, id, ch).slots[t].ShowsKey(h.key)
    ensures var pc' := Step(c, w, id, ch).threads[id]; InsertNotPast(c, pc', h, t) || InsertEnds(c, w.threads[id], pc', h, t)
  {
    var pc := w.threads[id];
    InvShape(c, w);
    if pc.Placing? {
      hide Inv, InsertNotPast, InsertEnds;
      PlaceStepNotPast(c, w, id, h, t, ch);
    } else if pc.Hunting? {
      hide Inv, EraseNotPast, InsertEnds, Exec;
      EraseStepNotPast(c, w, id, h.key, t, ch);
      HuntsForKey(c, Step(c, w, id, ch).threads[id], h.key, t);
      HuntKeepsWhy(c, w, id, ch);
    } else {
      hide Inv, InsertEnds, Exec;
      ReserveStepNotPast(c, w, id, h, t, ch);
    }
  }

  lemma HuntKeepsWhy(c: Config, w: World, id: nat, ch: Choice)
    requires Shape(c, w) && id < |w.threads| && w.threads[id].Hunting? && Step(c, w, id, ch).threads[id].Hunting?
    ensures Step(c, w, id, ch).threads[id].er.why == w.threads[id].er.why
  {
  }

  /**
   While a copy of its key stays visible in slot `t`, from the start on, an insertion does not get past
   it: it is still under way on this side of `t`.
   */
  lemma {:induction false} InsertNeverPasses(c: Config, w: World, moves: seq<Move>, id: nat, h: Handle, t: nat)
    requires Inv(c, w) && CleanRun(c, w, moves) && id < |w.threads| && t < c.probe.length
    requires InsertNotPast(c, w.threads[id], h, t) && StaysVisible(c, w, moves, t, h.key) && InsertsThroughout(c, w, moves, id)
    ensures InsertNotPast(c, Run(c, w, moves).threads[id], h, t)
  {
    InvShape(c, w);
    hide Inv, InsertNotPast, CleanStep, StaysVisible, Step, CleanRun, Run;
    if moves == [] {
      RunOfNothing(c, w);
    } else {
      var n := |moves| - 1;
      CleanPrefix(c, w, moves, n);
      StaysPrefix(c, w, moves, n, t, h.key);
      StaysPrefix(c, w, moves, |moves|, t, h.key);
      InsertsPrefix(c, w, moves, id, n);
      InsertsPrefix(c, w, moves, id, |moves|);
      assert moves[..|moves|] == moves;
      RunLast(c, w, moves);
      InsertNeverPasses(c, w, moves[..n], id, h, t);
      RunKeepsInv(c, w, moves[..n]);
      InsertOneMore(c, Run(c, w, moves[..n]), id, h, t, moves[n]);
    }
  }

  lemma InsertOneMore(c: Config, w: World, id: nat, h: Handle, t: nat, m: Move)
    requires Inv(c, w) && id < |w.threads| && t < |w.slots| && InsertNotPast(c, w.threads[id], h, t)
    requires w.slots[t].ShowsKey(h.key) && Step(c, w, m.id, m.ch).slots[t].ShowsKey(h.key)
    ensures InInsert(Step(c, w, m.id, m.ch).threads[id]) ==> InsertNotPast(c, Step(c, w, m.id, m.ch).threads[id], h, t)
    ensures m.id == id && !InInsert(Step(c, w, m.id, m.ch).threads[id]) ==> InsertEnds(c, w.threads[id], Step(c, w, m.id, m.ch).threads[id], h, t)
  {
    InvShape(c, w);
    hide Inv, Step;
    if m.id == id {
      InsertStepNotPast(c, w, id, h, t, m.ch);
    } else {
      OthersKeepPc(c, w, m.id, m.ch, id);
    }
  }

  ghost predicate InInsert(pc: Pc) {
    pc.Reserving? || pc.Evicting? || pc.Placing? || pc.Failing? || pc.Hunting?
  }

  ghost predicate InsertsThroughout(c: Config, w: World, moves: seq<Move>, id: nat)
    requires Shape(c, w) && id < |w.threads|
  {
    forall i: nat | i <= |moves| :: InInsert(Run(c, w, moves[..i]).threads[id])
  }

  lemma InsertsPrefix(c: Config, w: World, moves: seq<Move>, id: nat, n: nat)
    requires Shape(c, w) && id < |w.threads| && InsertsThroughout(c, w, moves, id) && n <= |moves|
    ensures InsertsThroughout(c, w, moves[..n], id) && InInsert(Run(c, w, moves[..n]).threads[id])
  {
    hide Run, InInsert;
    forall i: nat | i <= n ensures InInsert(Run(c, w, moves[..n][..i]).threads[id]) {
      assert moves[..n][..i] == moves[..i];
    }
  }

  /**
   An insertion that succeeds while a copy of its key stays visible in slot `t` has put its entry
   before `t` on the path of the key, whatever the other threads do.
   */
  lemma {:induction false} InsertedBeforeStays(c: Config, w: World, moves: seq<Move>, id: nat, h: Handle, t: nat, ch: Choice) returns (p: nat)
    requires Inv(c, w) && CleanRun(c, w, moves) && id < |w.threads| && t < c.probe.length
    requires w.threads[id] == Reserving(h, InsertOccupy) && InsertsThroughout(c, w, moves, id) && StaysVisible(c, w, moves, t, h.key)
    requires var here := Run(c, w, moves); Step(c, here, id, ch).slots[t].ShowsKey(h.key) && Step(c, here, id, ch).threads[id] == Done(Inserted(true))
    ensures p < c.probe.length && c.probe.index(h.key, p) < c.probe.index(h.key, t)
    ensures var pc := Run(c, w, moves).threads[id]; pc.Placing? && pc.place.PlacePublish? && pc.h == h && p == c.probe.at(h.key, pc.n)
    ensures var end := Step(c, Run(c, w, moves), id, ch); end.slots[p].ShowsKey(h.key) && end.slots[p].entry == h
  {
    InvShape(c, w);
    hide Inv, CleanStep, CleanRun, Run;
    InsertNeverPasses(c, w, moves, id, h, t);
    RunKeepsInv(c, w, moves);
    StaysPrefix(c, w, moves, |moves|, t, h.key);
    assert moves[..|moves|] == moves;
    var here := Run(c, w, moves);
    hide StaysVisible, InsertsThroughout, Step;
    InsertOneMore(c, here, id, h, t, Move(id, ch));
    p := c.probe.at(h.key, here.threads[id].n);
    PublishesEntry(c, here, id, ch, h, t);
  }

  lemma PublishesEntry(c: Config, w: World, id: nat, ch: Choice, h: Handle, t: nat)
    requires Inv(c, w) && id < |w.threads| && t < c.probe.length
    requires InsertEnds(c, w.threads[id], Done(Inserted(true)), h, t)
    ensures var n := w.threads[id].n; var p := c.probe.at(h.key, n);
            && p < c.probe.length && c.probe.index(h.key, p) == n < c.probe.index(h.key, t)
            && Step(c, w, id, ch).slots[p].ShowsKey(h.key) && Step(c, w, id, ch).slots[p].entry == h
  {
    var pc := w.threads[id];
    assert PcOk(c, pc);
    TargetInRange(c, pc, ch);
    InvGivesLocalPre(c, w, id, Target(c, pc, ch));
    assert c.probe.at(h.key, pc.n) < c.probe.length && c.probe.index(h.key, c.probe.at(h.key, pc.n)) == pc.n;
    hide Inv;
  }

  // ---- A lookup finds the first of the copies that stay ----

  /** The entry of a slot stays what it is while some thread holds the slot. */
  lemma HeldEntryStays(c: Config, w: World, id: nat, ch: Choice, holder: nat, t: nat)
    requires Inv(c, w) && CleanStep(c, w, id, ch) && t < |w.slots| && holder < |w.threads| && Holds(c, w.threads[holder], t)
    ensures Step(c, w, id, ch).slots[t].entry == w.slots[t].entry
  {
    HolderFacts(c, w, holder, t);
    if id < |w.threads| && Target(c, w.threads[id], ch) == t {
      var pc := w.threads[id];
      InvGivesLocalPre(c, w, id, t);
      ExecLocal(c, pc, See(w, t), ch);
      hide Exec, Target, ThreadTotal, Account, Holds;
      if Owns(c, pc, t) {
        OwnerFacts(c, w, id, t);
      }
    }
  }

  /** The lookup of `k` has not passed slot `p` and is not about to take another one before it. */
  ghost predicate LooksFor(c: Config, w: World, id: nat, k: Key, p: nat)
    requires id < |w.threads|
  {
    var pc := w.threads[id];
    && NotPast(c, pc, k, p)
    && (pc.n < c.probe.index(k, p) ==>
          && !pc.look.LookupHit? && !pc.look.LookupHitFix?
          && (pc.look.LookupCompare? ==> c.probe.at(k, pc.n) < |w.slots| && w.slots[c.probe.at(k, pc.n)].entry.key != k))
  }

  /** Slot `p` shows `k`, and no slot before it on the path does. */
  ghost predicate Foremost(c: Config, w: World, k: Key, p: nat) {
    && p < |w.slots| && w.slots[p].ShowsKey(k)
    && forall u: nat | u < |w.slots| && c.probe.index(k, u) < c.probe.index(k, p) :: !w.slots[u].ShowsKey(k)
  }

  lemma LookupExecFirst(c: Config, k: Key, n: nat, phase: LookupPhase, sh: Shared, p: nat)
    requires c.Valid() && p < c.probe.length && NotPast(c, Looking(k, n, phase), k, p)
    requires n == c.probe.index(k, p) ==> sh.slot.ShowsKey(k)
    requires n < c.probe.index(k, p) ==> !sh.slot.ShowsKey(k)
    requires n < c.probe.index(k, p) ==> !phase.LookupHit? && !phase.LookupHitFix? && (phase.LookupCompare? ==> sh.slot.entry.key != k)
    requires phase.LookupStop? ==> sh.slot.displacements > 0
    ensures var f := ExecLookup(c, k, n, phase, sh);
            if f.pc.Done? then f.pc == Done(Found(p))
            else
              && NotPast(c, f.pc, k, p)
              && (f.pc.n < c.probe.index(k, p) ==>
                    && !f.pc.look.LookupHit? && !f.pc.look.LookupHitFix?
                    && (f.pc.look.LookupCompare? ==> f.pc.n == n && f.now.slot.entry.key != k))
  {
    assert c.probe.at(k, c.probe.index(k, p)) == p;
  }

  /** The slot a lookup steps on. */
  lemma LookupApplies(c: Config, w: World, id: nat, ch: Choice)
    requires Inv(c, w) && id < |w.threads| && w.threads[id].Looking?
    ensures var pc := w.threads[id]; var s := c.probe.at(pc.k, pc.n);
            && c.Valid() && s < |w.slots| == |w.loans| == c.probe.length && pc.n < c.probe.length && c.probe.index(pc.k, s) == pc.n
            && Step(c, w, id, ch) == Apply(w, id, s, ExecLookup(c, pc.k, pc.n, pc.look, See(w, s)))
  {
    var pc := w.threads[id];
    assert PcOk(c, pc);
    assert c.probe.at(pc.k, pc.n) < c.probe.length && c.probe.index(pc.k, c.probe.at(pc.k, pc.n)) == pc.n;
    hide Inv, ExecLookup;
  }

  lemma LookupReads(c: Config, w: World, id: nat, k: Key, p: nat, ch: Choice)
    requires Inv(c, w) && id < |w.threads| && LooksFor(c, w, id, k, p) && Foremost(c, w, k, p)
    ensures var pc := w.threads[id];
            && pc.Looking? && pc.k == k && NotPast(c, pc, k, p) && c.Valid() && p < c.probe.length
            && var s := c.probe.at(k, pc.n);
               && s < |w.slots| == |w.loans| == c.probe.length
               && (pc.n == c.probe.index(k, p) ==> w.slots[s].ShowsKey(k))
               && (pc.n < c.probe.index(k, p) ==> !w.slots[s].ShowsKey(k))
               && (pc.look.LookupStop? ==> w.slots[s].displacements > 0)
               && Step(c, w, id, ch) == Apply(w, id, s, ExecLookup(c, k, pc.n, pc.look, See(w, s)))
  {
    hide Inv, ExecLookup, Step;
    LooksNotPast(c, w, id, k, p);
    LookupApplies(c, w, id, ch);
    LookupSees(c, w, id, k, p);
    hide NotPast, LooksFor;
  }

  lemma LookupOwnFirst(c: Config, w: World, id: nat, k: Key, p: nat, ch: Choice)
    requires Inv(c, w) && id < |w.threads| && LooksFor(c, w, id, k, p) && Foremost(c, w, k, p)
    ensures var w' := Step(c, w, id, ch); w'.threads[id] == Done(Found(p)) || LooksFor(c, w', id, k, p)
  {
    var pc := w.threads[id];
    LookupReads(c, w, id, k, p, ch);
    hide Inv, Foremost, NotPast, Step, ExecLookup;
    LookupExecFirst(c, k, pc.n, pc.look, See(w, c.probe.at(k, pc.n)), p);
  }

  lemma LooksNotPast(c: Config, w: World, id: nat, k: Key, p: nat)
    requires id < |w.threads| && LooksFor(c, w, id, k, p)
    ensures w.threads[id].Looking? && w.threads[id].k == k && NotPast(c, w.threads[id], k, p)
  {
  }

  lemma LooksForStays(c: Config, w: World, m: Move, id: nat, k: Key, p: nat)
    requires Inv(c, w) && CleanStep(c, w, m.id, m.ch) && id < |w.threads| && m.id != id && LooksFor(c, w, id, k, p)
    ensures LooksFor(c, Step(c, w, m.id, m.ch), id, k, p)
  {
    InvShape(c, w);
    var pc := w.threads[id];
    OthersKeepPc(c, w, m.id, m.ch, id);
    if pc.look.LookupCompare? && pc.n < c.probe.index(k, p) {
      HeldEntryStays(c, w, m.id, m.ch, id, c.probe.at(k, pc.n));
    }
    hide Inv, CleanStep, Step, NotPast;
  }

  /** In every state of the run `p` shows `k`, and no slot before it does. */
  ghost predicate ForemostThroughout(c: Config, w: World, moves: seq<Move>, k: Key, p: nat)
    requires Shape(c, w)
  {
    forall i: nat | i <= |moves| :: Foremost(c, Run(c, w, moves[..i]), k, p)
  }

  lemma ForemostPrefix(c: Config, w: World, moves: seq<Move>, n: nat, k: Key, p: nat)
    requires Shape(c, w) && n <= |moves| && ForemostThroughout(c, w, moves, k, p)
    ensures ForemostThroughout(c, w, moves[..n], k, p) && Foremost(c, Run(c, w, moves[..n]), k, p)
  {
    hide Run, Foremost;
    forall i: nat | i <= n ensures Foremost(c, Run(c, w, moves[..n][..i]), k, p) {
      assert moves[..n][..i] == moves[..i];
    }
  }

  ghost predicate LooksThroughTo(c: Config, w: World, moves: seq<Move>, id: nat)
    requires Shape(c, w) && id < |w.threads|
  {
    forall i: nat | i < |moves| :: Looks(Run(c, w, moves[..i]).threads[id])
  }

  ghost predicate Looks(pc: Pc) {
    pc.Looking?
  }

  lemma LooksThroughPrefix(c: Config, w: World, moves: seq<Move>, id: nat, n: nat)
    requires Shape(c, w) && id < |w.threads| && LooksThroughTo(c, w, moves, id) && n < |moves|
    ensures LooksThroughTo(c, w, moves[..n], id) && Looks(Run(c, w, moves[..n]).threads[id])
  {
    hide Run, Looks;
    forall i: nat | i < n ensures Looks(Run(c, w, moves[..n][..i]).threads[id]) {
      assert moves[..n][..i] == moves[..i];
    }
  }

  /** A lookup of `k` ends at the first slot of the path that shows `k` all the while, if none before it ever does. */
  lemma {:induction false} LookupFindsForemost(c: Config, w: World, moves: seq<Move>, id: nat, k: Key, p: nat)
    requires Inv(c, w) && CleanRun(c, w, moves) && id < |w.threads| && p < c.probe.length
    requires w.threads[id] == Looking(k, 0, LookupIncr)
    requires ForemostThroughout(c, w, moves, k, p) && LooksThroughTo(c, w, moves, id)
    ensures var w' := Run(c, w, moves); w'.threads[id] == Done(Found(p)) || LooksFor(c, w', id, k, p)
  {
    InvShape(c, w);
    hide Inv, CleanStep, CleanRun, Step, ForemostThroughout, Run, Foremost;
    if moves == [] {
      RunOfNothing(c, w);
      ValidIndex(c, w, k, p);
    } else {
      var n := |moves| - 1;
      CleanPrefix(c, w, moves, n);
      ForemostPrefix(c, w, moves, n, k, p);
      LooksThroughPrefix(c, w, moves, id, n);
      RunLast(c, w, moves);
      CleanLast(c, w, moves);
      LookupFindsForemost(c, w, moves[..n], id, k, p);
      RunKeepsInv(c, w, moves[..n]);
      hide LooksFor, LooksThroughTo;
      if moves[n].id == id {
        LookupOwnFirst(c, Run(c, w, moves[..n]), id, k, p, moves[n].ch);
      } else {
        LooksForStays(c, Run(c, w, moves[..n]), moves[n], id, k, p);
      }
    }
  }

  lemma ValidIndex(c: Config, w: World, k: Key, p: nat)
    requires Shape(c, w) && p < c.probe.length
    ensures c.probe.index(k, p) < c.probe.length
  {
  }

  lemma CleanLast(c: Config, w: World, moves: seq<Move>)
    requires Shape(c, w) && CleanRun(c, w, moves) && moves != []
    ensures var n := |moves| - 1; CleanStep(c, Run(c, w, moves[..n]), moves[n].id, moves[n].ch)
  {
    hide CleanStep;
  }
}
