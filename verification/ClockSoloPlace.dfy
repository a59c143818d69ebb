/** The placement of an insertion in the interleaved cache, when only its thread moves. */
module ClockSoloPlace {
  import opened Sums
  import opened Walk
  import opened MetaWord
  import opened ClockTable
  import opened ClockMachine
  import opened ClockLedger
  import opened ClockSafety
  import opened ClockIndex
  import ClockCalls
  import ClockObject
  import ClockSolo
  import opened ClockSoloSweep

  /** The first `n` slots of the path are in use and show no copy. */
  ghost predicate Passable(p: Probe, base: seq<Slot>, k: Key, n: nat) {
    ClockObject.FullTo(p, base, k, n) && !ClockObject.ShownBefore(p, base, k, n, false)
  }

  /** The same contents, but slot `t` has the word `m` and the entry `x`. */
  ghost predicate MatchesBut(slots: seq<Slot>, base: seq<Slot>, t: nat, m: Meta, x: Handle) {
    && |slots| == |base| && t < |base| && slots[t].meta == m && slots[t].entry == x
    && forall u: nat | u < |base| && u != t :: SameContent(slots[u], base[u])
  }

  /** Where a placement of `h` stands on the table `base`; `t` is the slot it is at. */
  ghost predicate PlaceOk(p: Probe, base: seq<Slot>, h: Handle, n: nat, phase: PlacePhase, slots: seq<Slot>, t: nat) {
    && |slots| == |base| == p.length && n < p.length && t == p.at(h.key, n) && t < |base|
    && Passable(p, base, h.key, n)
    && var a := base[t];
       match phase
       case PlaceOr => Matches(slots, base)
       case PlaceWrite => a.meta.state.Empty? && MatchesBut(slots, base, t, a.meta.(state := Construction), a.entry)
       case PlacePublish => a.meta.state.Empty? && MatchesBut(slots, base, t, a.meta.(state := Construction), h)
       case PlaceIncr => a.meta.state.Visible? && Matches(slots, base)
       case PlaceCompare => a.meta.state.Visible? && MatchesBut(slots, base, t, AddRefs(a.meta, 1), a.entry)
       case PlaceDecr(matched) => a.meta.state.Visible? && MatchesBut(slots, base, t, AddRefs(a.meta, 1), a.entry) && matched == (a.entry.key == h.key)
       case PlaceNext => !a.meta.state.Empty? && !a.ShowsKey(h.key) && Matches(slots, base)
       case PlaceUnwind(_, matched) =>
         Matches(slots, base) && !a.meta.state.Empty? && (if matched then a.ShowsKey(h.key) else n + 1 == p.length && !a.ShowsKey(h.key))
  }

  /** How a placement ends: in the first empty slot before any copy, at a copy, or on a full table without one. */
  ghost predicate PlaceEnds(p: Probe, base: seq<Slot>, h: Handle, again: bool, pc': Pc, after: seq<Slot>) {
    || (pc' == Done(Inserted(true)) &&
          exists t: nat :: t < |base| && base[t].meta.state.Empty? && Passable(p, base, h.key, p.index(h.key, t)) && MatchesBut(after, base, t, Published(), h))
    || (pc' == PlaceEnd(h, again, true) && Matches(after, base) &&
          exists t: nat :: t < |base| && base[t].ShowsKey(h.key) && Passable(p, base, h.key, p.index(h.key, t)))
    || (pc' == PlaceEnd(h, again, false) && Matches(after, base) && Passable(p, base, h.key, p.length))
  }

  lemma PassNext(p: Probe, base: seq<Slot>, k: Key, n: nat)
    requires Permutes(p) && |base| == p.length && n < p.length && p.at(k, n) < |base| && Passable(p, base, k, n)
    requires !base[p.at(k, n)].meta.state.Empty? && !base[p.at(k, n)].ShowsKey(k)
    ensures Passable(p, base, k, n + 1)
  {
    ClockObject.FullStep(p, base, k, n);
    ClockObject.ShownStep(p, base, k, n, false);
  }

  /** One step of a placement that nobody disturbs, other than at its end. */
  lemma PlaceStepHere(c: Config, base: seq<Slot>, h: Handle, again: bool, n: nat, phase: PlacePhase, slots: seq<Slot>, t: nat, sh: Shared)
    requires c.Valid() && |base| == c.probe.length && PlaceOk(c.probe, base, h, n, phase, slots, t) && t < |slots| && sh.slot == slots[t]
    requires !phase.PlaceNext? && !phase.PlaceUnwind?
    ensures var f := ExecPlace(c, h, again, n, phase, sh);
            var slots' := slots[t := f.now.slot];
            if f.pc.Placing? && f.pc.again == again then f.pc.h == h && f.pc.n == n && PlaceOk(c.probe, base, h, n, f.pc.place, slots', t)
            else PlaceEnds(c.probe, base, h, again, f.pc, slots')
  {
    assert c.probe.index(h.key, t) == n;
    hide Passable;
  }

  lemma PlaceStepOn(c: Config, base: seq<Slot>, h: Handle, again: bool, n: nat, phase: PlacePhase, slots: seq<Slot>, t: nat, u: nat, sh: Shared)
    requires c.Valid() && |base| == c.probe.length && PlaceOk(c.probe, base, h, n, phase, slots, t) && u < |slots| && sh.slot == slots[u]
    requires phase.PlaceNext? || phase.PlaceUnwind?
    ensures var f := ExecPlace(c, h, again, n, phase, sh);
            var slots' := slots[u := f.now.slot];
            if f.pc.Placing? && f.pc.again == again then
              f.pc.h == h && f.pc.n < c.probe.length && PlaceOk(c.probe, base, h, f.pc.n, f.pc.place, slots', c.probe.at(h.key, f.pc.n))
            else PlaceEnds(c.probe, base, h, again, f.pc, slots')
  {
    assert c.probe.index(h.key, t) == n;
    if phase.PlaceNext? {
      PassNext(c.probe, base, h.key, n);
      if n + 1 < c.probe.length {
        assert c.probe.at(h.key, n + 1) < c.probe.length;
      }
    } else if !phase.matched {
      PassNext(c.probe, base, h.key, n);
    }
    hide Passable, Permutes;
  }

  /** One step of a placement that nobody disturbs; `u` is the slot it touches. */
  lemma PlaceStep(c: Config, base: seq<Slot>, h: Handle, again: bool, n: nat, phase: PlacePhase, slots: seq<Slot>, t: nat, u: nat, sh: Shared)
    requires c.Valid() && |base| == c.probe.length && PlaceOk(c.probe, base, h, n, phase, slots, t)
    requires u < |slots| && sh.slot == slots[u] && (!phase.PlaceUnwind? ==> u == t)
    ensures var f := ExecPlace(c, h, again, n, phase, sh);
            var slots' := slots[u := f.now.slot];
            if f.pc.Placing? && f.pc.again == again then
              f.pc.h == h && f.pc.n < c.probe.length && PlaceOk(c.probe, base, h, f.pc.n, f.pc.place, slots', c.probe.at(h.key, f.pc.n))
            else PlaceEnds(c.probe, base, h, again, f.pc, slots')
  {
    assert t == c.probe.at(h.key, n) && n < c.probe.length;
    hide PlaceOk, PlaceEnds, ExecPlace;
    if phase.PlaceNext? || phase.PlaceUnwind? {
      PlaceStepOn(c, base, h, again, n, phase, slots, t, u, sh);
    } else {
      PlaceStepHere(c, base, h, again, n, phase, slots, t, sh);
    }
  }
}
