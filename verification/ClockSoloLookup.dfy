/** A lookup of the interleaved cache when only its thread moves, and one that follows an insertion. */
module ClockSoloLookup {
  import opened Walk
  import opened MetaWord
  import opened ClockTable
  import opened ClockMachine
  import opened ClockLedger
  import opened ClockSafety
  import opened ClockIndex
  import opened ClockCalls
  import ClockObject
  import opened ClockSolo
  import opened ClockSoloSweep
  import opened ClockSoloPlace
  import opened ClockSoloInsert

  /** The same entries are in sight. */
  ghost predicate SameSight(a: seq<Slot>, b: seq<Slot>) {
    |a| == |b| && forall t: nat | t < |a| :: a[t].meta.state == b[t].meta.state && a[t].entry == b[t].entry
  }

  lemma LookupExecSight(c: Config, k: Key, n: nat, phase: LookupPhase, sh: Shared)
    ensures var f := ExecLookup(c, k, n, phase, sh); f.now.slot.meta.state == sh.slot.meta.state && f.now.slot.entry == sh.slot.entry
  {
  }

  lemma LookupKeepsSight(c: Config, w: World, id: nat, ch: Choice)
    requires Shape(c, w) && id < |w.threads| && w.threads[id].Looking? && Inv(c, w)
    ensures SameSight(Step(c, w, id, ch).slots, w.slots) && CleanStep(c, w, id, ch)
  {
    hide Inv, ExecLookup, Step;
    var pc := w.threads[id];
    LookupApplies(c, w, id, ch);
    LookupExecSight(c, pc.k, pc.n, pc.look, See(w, c.probe.at(pc.k, pc.n)));
  }

  lemma SightSame(a: seq<Slot>)
    ensures SameSight(a, a)
  {
  }

  lemma SightTransitive(a: seq<Slot>, b: seq<Slot>, d: seq<Slot>)
    requires SameSight(b, a) && SameSight(d, b)
    ensures SameSight(d, a)
  {
  }

  lemma SightForemost(c: Config, a: World, b: World, k: Key, p: nat)
    requires SameSight(b.slots, a.slots) && Foremost(c, a, k, p)
    ensures Foremost(c, b, k, p)
  {
  }

  /** An undisturbed lookup of `k` is at the foremost slot that shows `k`, or on its way there. */
  lemma {:induction false} UndisturbedLookup(c: Config, w: World, moves: seq<Move>, id: nat, k: Key, p: nat)
    requires Shape(c, w) && id < |w.threads| && w.threads[id] == Looking(k, 0, LookupIncr) && Foremost(c, w, k, p)
    requires ByItself(moves, id) && LooksThroughTo(c, w, moves, id) && Inv(c, w)
    ensures var end := Run(c, w, moves); (end.threads[id] == Done(Found(p)) || LooksFor(c, end, id, k, p)) && SameSight(end.slots, w.slots) && Inv(c, end)
  {
    hide Inv, Step, Run, Foremost, CleanStep, SameSight;
    if moves == [] {
      RunOfNothing(c, w);
      SightSame(w.slots);
      ForemostInTable(c, w, k, p);
      ValidIndex(c, w, k, p);
    } else {
      var n := |moves| - 1;
      var here := Run(c, w, moves[..n]);
      LooksThroughPrefix(c, w, moves, id, n);
      RunLast(c, w, moves);
      UndisturbedLookup(c, w, moves[..n], id, k, p);
      hide LooksFor, LooksThroughTo;
      SightForemost(c, w, here, k, p);
      StillLooks(c, here, id, k, p);
      hide Looks;
      LookupKeepsSight(c, here, id, moves[n].ch);
      SightTransitive(w.slots, here.slots, Run(c, w, moves).slots);
      LookupOwnFirst(c, here, id, k, p, moves[n].ch);
      CleanStepKeepsInv(c, here, id, moves[n].ch);
    }
  }

  lemma ForemostInTable(c: Config, w: World, k: Key, p: nat)
    requires Shape(c, w) && Foremost(c, w, k, p)
    ensures p < c.probe.length
  {
  }

  lemma StillLooks(c: Config, w: World, id: nat, k: Key, p: nat)
    requires id < |w.threads| && Looks(w.threads[id])
    requires w.threads[id] == Done(Found(p)) || LooksFor(c, w, id, k, p)
    ensures w.threads[id].Looking? && LooksFor(c, w, id, k, p)
  {
  }

  // ---- With no copy in sight ----

  ghost predicate NothingInSight(w: World, k: Key) {
    forall t: nat | t < |w.slots| :: !w.slots[t].ShowsKey(k)
  }

  /** The lookup is not about to take any slot. */
  ghost predicate LooksInVain(c: Config, w: World, id: nat, k: Key)
    requires id < |w.threads|
  {
    var pc := w.threads[id];
    && pc.Looking? && pc.k == k && !pc.look.LookupHit? && !pc.look.LookupHitFix?
    && (pc.look.LookupCompare? ==> c.probe.at(k, pc.n) < |w.slots| && w.slots[c.probe.at(k, pc.n)].entry.key != k)
  }

  lemma VainExec(c: Config, k: Key, n: nat, phase: LookupPhase, sh: Shared)
    requires !sh.slot.ShowsKey(k) && !phase.LookupHit? && !phase.LookupHitFix? && (phase.LookupCompare? ==> sh.slot.entry.key != k)
    ensures var f := ExecLookup(c, k, n, phase, sh);
            || f.pc == Done(Missed(k))
            || (f.pc.Looking? && f.pc.k == k && !f.pc.look.LookupHit? && !f.pc.look.LookupHitFix?
                && (f.pc.look.LookupCompare? ==> f.pc.n == n && f.now.slot.entry.key != k))
  {
  }

  lemma VainStep(c: Config, w: World, id: nat, k: Key, ch: Choice)
    requires Inv(c, w) && id < |w.threads| && LooksInVain(c, w, id, k) && NothingInSight(w, k)
    ensures var w' := Step(c, w, id, ch); w'.threads[id] == Done(Missed(k)) || LooksInVain(c, w', id, k)
  {
    var pc := w.threads[id];
    LookupApplies(c, w, id, ch);
    hide Inv, Step, ExecLookup;
    VainExec(c, k, pc.n, pc.look, See(w, c.probe.at(k, pc.n)));
  }

  /** An undisturbed lookup of a key that no slot shows can only miss. */
  lemma {:induction false} UndisturbedMiss(c: Config, w: World, moves: seq<Move>, id: nat, k: Key)
    requires Shape(c, w) && id < |w.threads| && w.threads[id] == Looking(k, 0, LookupIncr) && NothingInSight(w, k)
    requires ByItself(moves, id) && LooksThroughTo(c, w, moves, id) && Inv(c, w)
    ensures var end := Run(c, w, moves); (end.threads[id] == Done(Missed(k)) || LooksInVain(c, end, id, k)) && NothingInSight(end, k) && Inv(c, end)
  {
    hide Inv, Step, Run, CleanStep;
    if moves == [] {
      RunOfNothing(c, w);
    } else {
      var n := |moves| - 1;
      var here := Run(c, w, moves[..n]);
      LooksThroughPrefix(c, w, moves, id, n);
      RunLast(c, w, moves);
      UndisturbedMiss(c, w, moves[..n], id, k);
      assert here.threads[id].Looking?;
      VainStep(c, here, id, k, moves[n].ch);
      LookupKeepsSight(c, here, id, moves[n].ch);
      CleanStepKeepsInv(c, here, id, moves[n].ch);
      hide LooksInVain, LooksThroughTo;
    }
  }

  // ---- After an insertion ----

  lemma PlacedIsForemost(c: Config, w: World, base: seq<Slot>, h: Handle) returns (p: nat)
    requires PlacedOn(c.probe, base, h, w.slots)
    ensures Foremost(c, w, h.key, p) && w.slots[p].entry == h
  {
    p :| p < |base| && base[p].meta.state.Empty? && Passable(c.probe, base, h.key, c.probe.index(h.key, p)) && MatchesBut(w.slots, base, p, Published(), h);
  }

  lemma SucceededIsForemost(c: Config, w0: World, w: World, h: Handle, delta: int) returns (p: nat)
    requires |w0.slots| > 0 && Succeeded(c, w0, h, delta, w.slots)
    ensures Foremost(c, w, h.key, p) && w.slots[p].entry == h
  {
    hide PlacedOn, Foremost, Table1, Table2, FallsShort;
    if PlacedOn(c.probe, Table1(c, w0, h, delta), h, w.slots) {
      p := PlacedIsForemost(c, w, Table1(c, w0, h, delta), h);
    } else {
      p := PlacedIsForemost(c, w, Table2(c, w0, h, delta), h);
    }
  }

  /**
   An undisturbed lookup after an undisturbed insertion that has succeeded, from any state, finds the slot just
   filled, whatever copies there were.
   */
  lemma {:induction false} InsertedIsFound(c: Config, w: World, moves: seq<Move>, id: nat, h: Handle, delta: int, ch: Choice, start: Choice, looks: seq<Move>)
      returns (p: nat)
    requires Inv(c, w) && id < |w.threads| && w.threads[id] == Reserving(h, InsertOccupy)
    requires AloneWith(moves, id, delta) && InsertsThroughout(c, w, moves, id) && ch.decay + 1 == delta
    requires Step(c, Run(c, w, moves), id, ch).threads[id] == Done(Inserted(true)) && start.op == StartLookup(h.key)
    requires var begun := Step(c, Step(c, Run(c, w, moves), id, ch), id, start); ByItself(looks, id) && id < |begun.threads| && LooksThroughTo(c, begun, looks, id)
    ensures var end := Run(c, Step(c, Step(c, Run(c, w, moves), id, ch), id, start), looks);
            && p < |end.slots| && end.slots[p].entry == h
            && (end.threads[id].Done? ==> end.threads[id] == Done(Found(p)))
  {
    InvShape(c, w);
    UndisturbedInsert(c, w, moves, id, h, delta, ch);
    var done := Step(c, Run(c, w, moves), id, ch);
    hide Inv, Run, Step, Succeeded, Failed, AloneWith, InsertsThroughout;
    p := SucceededIsForemost(c, w, done, h, delta);
    StartsLooking(c, done, id, h.key, p, start);
    var begun := Step(c, done, id, start);
    UndisturbedLookup(c, begun, looks, id, h.key, p);
    var end := Run(c, begun, looks);
    NotDoneYet(c, end, id, h.key, p);
    SightForemost(c, done, end, h.key, p);
    hide LooksFor;
  }

  lemma NotDoneYet(c: Config, w: World, id: nat, k: Key, p: nat)
    requires id < |w.threads|
    ensures LooksFor(c, w, id, k, p) ==> w.threads[id].Looking?
  {
  }

  lemma StartsLooking(c: Config, w: World, id: nat, k: Key, p: nat, start: Choice)
    requires Inv(c, w) && Shape(c, w) && id < |w.threads| && w.threads[id].Done? && start.op == StartLookup(k) && Foremost(c, w, k, p)
    ensures var w' := Step(c, w, id, start);
            Inv(c, w') && w'.threads[id] == Looking(k, 0, LookupIncr) && w'.slots == w.slots && Foremost(c, w', k, p)
  {
    StepKeepsInvFree(c, w, id, start);
    hide Inv;
    assert w.slots[0 := w.slots[0]] == w.slots;
  }
}
