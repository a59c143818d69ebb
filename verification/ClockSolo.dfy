/**
 The interleaved cache when one thread acts and the others stand still, wherever they may be: its calls do
 what the class says, slot by slot.
 */
module ClockSolo {
  import opened Sums
  import opened Walk
  import opened MetaWord
  import opened ClockTable
  import opened ClockMachine
  import opened ClockLedger
  import opened ClockSafety
  import opened ClockIndex
  import ClockCalls
  import ClockObject

  /** All moves are the thread's own. */
  ghost predicate ByItself(moves: seq<Move>, id: nat) {
    forall i: nat | i < |moves| :: moves[i].id == id
  }

  // ---- An erasure by itself ----

  ghost predicate OneMoreRef(a: Slot, b: Slot) {
    b.entry == a.entry && b.meta == AddRefs(a.meta, 1)
  }

  /** What the erasure has made of slot `a`, `pos` steps down the path. */
  ghost predicate EraseCell(k: Key, a: Slot, b: Slot, pos: int, n: nat, phase: ErasePhase) {
    if pos < n then SameContent(b, ClockObject.AfterErase(k, a))
    else if pos > n then SameContent(b, a)
    else
      match phase
      case EraseIncr => SameContent(b, a)
      case EraseCompare => a.meta.state.Visible? && OneMoreRef(a, b)
      case EraseHide => a.ShowsKey(k) && OneMoreRef(a, b)
      case EraseTake(seen) => a.ShowsKey(k) && a.meta.refs == 0 && b.entry == a.entry && b.meta == seen == AddRefs(a.meta, 1).(state := Invisible)
      case EraseFree(x) => a.ShowsKey(k) && a.meta.refs == 0 && b.entry == a.entry && b.meta.state.Construction?
      case EraseEmpty(_) => a.ShowsKey(k) && a.meta.refs == 0 && b.entry == a.entry.FreeData() && b.meta.state.Construction?
      case EraseDecr =>
        && b.entry == a.entry
        && (if a.ShowsKey(k) then a.meta.refs > 0 && b.meta == AddRefs(a.meta, 1).(state := Invisible)
            else a.Resident() && b.meta == AddRefs(a.meta, 1))
      case EraseStray => !a.Resident() && OneMoreRef(a, b)
      case EraseStop => SameContent(b, ClockObject.AfterErase(k, a))
      case _ => a.ShowsKey(k) && a.meta.refs == 0 && SameContent(b, ClockObject.AfterErase(k, a))
  }

  ghost predicate EraseCells(c: Config, k: Key, before: seq<Slot>, w: World, n: nat, phase: ErasePhase) {
    |before| == |w.slots| && forall t: nat | t < |before| :: EraseCell(k, before[t], w.slots[t], c.probe.index(k, t), n, phase)
  }

  lemma EraseCellStep(c: Config, er: Erasing, n: nat, phase: ErasePhase, sh: Shared, ch: Choice, a: Slot)
    requires c.probe.length > 0 && LocalPre(c, Hunting(er, n, phase), Target(c, Hunting(er, n, phase), ch), sh)
    requires 0 <= a.meta.refs
    requires if phase.EraseUnwind? then true else EraseCell(er.key, a, sh.slot, n, n, phase)
    ensures var f := ExecErase(c, er, n, phase, sh, ch);
            if phase.EraseUnwind? then
              SameContent(f.now.slot, sh.slot) && f.pc.Hunting? && f.pc.n == n && (f.pc.erase.EraseUnwind? || f.pc.erase.EraseStop?)
            else if f.pc.Hunting? then EraseCell(er.key, a, f.now.slot, n, f.pc.n, f.pc.erase) && n <= f.pc.n <= n + 1 && (f.pc.n == n + 1 ==> f.pc.erase.EraseIncr?)
            else SameContent(f.now.slot, ClockObject.AfterErase(er.key, a))
  {
    hide Claims, ChargeHeld, PlacesHeld, Dooms, SlotWeight;
  }

  /** The erasure has compared the entry at its position. */
  ghost predicate Compared(phase: ErasePhase) {
    !phase.EraseIncr? && !phase.EraseCompare? && !phase.EraseStray?
  }

  /** What the erasure remembers, from the table it began with. */
  ghost predicate EraseTally(c: Config, before: seq<Slot>, er: Erasing, n: nat, phase: ErasePhase, here: Slot) {
    && er.found == (ClockObject.ShownBefore(c.probe, before, er.key, n, false) || (Compared(phase) && here.ShowsKey(er.key)))
    && er.succ == (ClockObject.ShownBefore(c.probe, before, er.key, n, true) || (phase.EraseStop? && here.ShowsKey(er.key) && here.meta.refs == 0))
  }

  ghost predicate SoloErase(c: Config, before: seq<Slot>, w: World, id: nat, k: Key)
    requires Shape(c, w)
  {
    && id < |w.threads| && w.threads[id].Hunting? && w.threads[id].er.key == k
    && var pc := w.threads[id];
       && pc.n < c.probe.length && c.probe.at(k, pc.n) < |before|
       && EraseCells(c, k, before, w, pc.n, pc.erase)
       && EraseTally(c, before, pc.er, pc.n, pc.erase, before[c.probe.at(k, pc.n)])
  }

  lemma TallyAtStop(c: Config, before: seq<Slot>, er: Erasing, n: nat, phase: ErasePhase, sh: Shared, ch: Choice)
    requires c.Valid() && |before| == c.probe.length && n < c.probe.length && c.probe.at(er.key, n) < |before|
    requires LocalPre(c, Hunting(er, n, phase), Target(c, Hunting(er, n, phase), ch), sh)
    requires 0 <= before[c.probe.at(er.key, n)].meta.refs
    requires !phase.EraseUnwind? ==> EraseCell(er.key, before[c.probe.at(er.key, n)], sh.slot, n, n, phase)
    requires phase.EraseUnwind? ==> before[c.probe.at(er.key, n)].ShowsKey(er.key) && before[c.probe.at(er.key, n)].meta.refs == 0
    requires EraseTally(c, before, er, n, phase, before[c.probe.at(er.key, n)])
    requires phase.EraseStop?
    ensures var pc' := ExecErase(c, er, n, phase, sh, ch).pc;
            if pc'.Hunting? then
              pc'.n < c.probe.length ==> c.probe.at(er.key, pc'.n) < |before| && EraseTally(c, before, pc'.er, pc'.n, pc'.erase, before[c.probe.at(er.key, pc'.n)])
            else
              pc' == ClockCalls.EraseAnswer(er.why,
                ClockObject.ShownBefore(c.probe, before, er.key, n + 1, true) || !ClockObject.ShownBefore(c.probe, before, er.key, n + 1, false))
  {
    ClockObject.ShownStep(c.probe, before, er.key, n, true);
    ClockObject.ShownStep(c.probe, before, er.key, n, false);
    hide ClockObject.ShownBefore, Claims, ChargeHeld, PlacesHeld, Dooms, SlotWeight, ClockObject.AfterErase;
  }

  lemma TallyElsewhere(c: Config, before: seq<Slot>, er: Erasing, n: nat, phase: ErasePhase, sh: Shared, ch: Choice)
    requires c.Valid() && |before| == c.probe.length && n < c.probe.length && c.probe.at(er.key, n) < |before|
    requires LocalPre(c, Hunting(er, n, phase), Target(c, Hunting(er, n, phase), ch), sh)
    requires 0 <= before[c.probe.at(er.key, n)].meta.refs
    requires !phase.EraseUnwind? ==> EraseCell(er.key, before[c.probe.at(er.key, n)], sh.slot, n, n, phase)
    requires phase.EraseUnwind? ==> before[c.probe.at(er.key, n)].ShowsKey(er.key) && before[c.probe.at(er.key, n)].meta.refs == 0
    requires EraseTally(c, before, er, n, phase, before[c.probe.at(er.key, n)])
    requires !phase.EraseStop?
    ensures var pc' := ExecErase(c, er, n, phase, sh, ch).pc;
            if pc'.Hunting? then
              pc'.n < c.probe.length ==> c.probe.at(er.key, pc'.n) < |before| && EraseTally(c, before, pc'.er, pc'.n, pc'.erase, before[c.probe.at(er.key, pc'.n)])
            else
              pc' == ClockCalls.EraseAnswer(er.why,
                ClockObject.ShownBefore(c.probe, before, er.key, n + 1, true) || !ClockObject.ShownBefore(c.probe, before, er.key, n + 1, false))
  {
    hide ClockObject.ShownBefore, Claims, ChargeHeld, PlacesHeld, Dooms, SlotWeight, ClockObject.AfterErase, Permutes;
  }

  lemma EraseTallyStep(c: Config, before: seq<Slot>, er: Erasing, n: nat, phase: ErasePhase, sh: Shared, ch: Choice)
    requires c.Valid() && |before| == c.probe.length && n < c.probe.length && c.probe.at(er.key, n) < |before|
    requires LocalPre(c, Hunting(er, n, phase), Target(c, Hunting(er, n, phase), ch), sh)
    requires 0 <= before[c.probe.at(er.key, n)].meta.refs
    requires !phase.EraseUnwind? ==> EraseCell(er.key, before[c.probe.at(er.key, n)], sh.slot, n, n, phase)
    requires phase.EraseUnwind? ==> before[c.probe.at(er.key, n)].ShowsKey(er.key) && before[c.probe.at(er.key, n)].meta.refs == 0
    requires EraseTally(c, before, er, n, phase, before[c.probe.at(er.key, n)])
    ensures var pc' := ExecErase(c, er, n, phase, sh, ch).pc;
            if pc'.Hunting? then
              pc'.n < c.probe.length ==> c.probe.at(er.key, pc'.n) < |before| && EraseTally(c, before, pc'.er, pc'.n, pc'.erase, before[c.probe.at(er.key, pc'.n)])
            else
              pc' == ClockCalls.EraseAnswer(er.why,
                ClockObject.ShownBefore(c.probe, before, er.key, n + 1, true) || !ClockObject.ShownBefore(c.probe, before, er.key, n + 1, false))
  {
    hide ClockObject.ShownBefore, EraseTally, EraseCell, LocalPre, ExecErase, ClockCalls.EraseAnswer;
    if phase.EraseStop? {
      TallyAtStop(c, before, er, n, phase, sh, ch);
    } else {
      TallyElsewhere(c, before, er, n, phase, sh, ch);
    }
  }

  ghost predicate RefsNatural(slots: seq<Slot>) {
    forall t: nat | t < |slots| :: 0 <= slots[t].meta.refs
  }

  /** Beyond the slot where it stops there is nothing to erase. */
  lemma NothingBeyond(c: Config, w: World, k: Key, n: nat, t: nat)
    requires Inv(c, w) && t < |w.slots| && n < c.probe.length && c.probe.at(k, n) < |w.slots| && n < c.probe.index(k, t)
    requires w.slots[c.probe.at(k, n)].displacements == 0 || n + 1 == c.probe.length
    ensures !w.slots[t].ShowsKey(k)
  {
    assert c.probe.index(k, t) < c.probe.length;
    if w.slots[t].ShowsKey(k) {
      PathIsMarked(c, w, k, t, n);
    }
  }

  lemma AfterEraseElsewhere(k: Key, a: Slot, b: Slot)
    requires SameContent(b, a) && !b.ShowsKey(k)
    ensures SameContent(b, ClockObject.AfterErase(k, a))
  {
  }

  lemma EraseCellElsewhere(c: Config, k: Key, before: seq<Slot>, w: World, f: Effect, n: nat, phase: ErasePhase, t: nat, u: nat)
    requires c.Valid() && |before| == |w.slots| == c.probe.length && t < |w.slots| && u < |w.slots| && n < c.probe.length
    requires EraseCell(k, before[u], w.slots[u], c.probe.index(k, u), n, phase)
    requires f.pc.Hunting? && n <= f.pc.n <= n + 1 && (f.pc.n == n + 1 ==> f.pc.erase.EraseIncr?)
    requires !phase.EraseUnwind? ==> t == c.probe.at(k, n) && EraseCell(k, before[t], f.now.slot, n, f.pc.n, f.pc.erase)
    requires phase.EraseUnwind? ==> SameContent(f.now.slot, w.slots[t]) && f.pc.n == n && (f.pc.erase.EraseUnwind? || f.pc.erase.EraseStop?)
    ensures EraseCell(k, before[u], w.slots[t := f.now.slot][u], c.probe.index(k, u), f.pc.n, f.pc.erase)
  {
    assert c.probe.at(k, c.probe.index(k, u)) == u;
    assert c.probe.index(k, c.probe.at(k, n)) == n;
  }

  /** What a step of the erasure makes of its slot `t`, and what it remembers then. */
  ghost predicate EraseFacts(c: Config, before: seq<Slot>, er: Erasing, n: nat, phase: ErasePhase, slot: Slot, t: nat, f: Effect)
    requires t < |before|
  {
    var k, pc' := er.key, f.pc;
    if pc'.Hunting? then
      && pc'.n < c.probe.length && pc'.er.key == k && n <= pc'.n <= n + 1 && (pc'.n == n + 1 ==> pc'.erase.EraseIncr?)
      && (if phase.EraseUnwind? then
            SameContent(f.now.slot, slot) && pc'.n == n && (pc'.erase.EraseUnwind? || pc'.erase.EraseStop?)
          else t == c.probe.at(k, n) && EraseCell(k, before[t], f.now.slot, n, pc'.n, pc'.erase))
      && c.probe.at(k, pc'.n) < |before| && EraseTally(c, before, pc'.er, pc'.n, pc'.erase, before[c.probe.at(k, pc'.n)])
    else
      && phase.EraseStop? && t == c.probe.at(k, n) && (slot.displacements == 0 || n + 1 == c.probe.length)
      && SameContent(f.now.slot, ClockObject.AfterErase(k, before[t]))
      && pc' == ClockCalls.EraseAnswer(er.why,
           ClockObject.ShownBefore(c.probe, before, k, n + 1, true) || !ClockObject.ShownBefore(c.probe, before, k, n + 1, false))
  }

  lemma EraseLocally(c: Config, before: seq<Slot>, er: Erasing, n: nat, phase: ErasePhase, sh: Shared, ch: Choice, t: nat)
    requires c.Valid() && |before| == c.probe.length && n < c.probe.length && t < |before|
    requires t == Target(c, Hunting(er, n, phase), ch) && LocalPre(c, Hunting(er, n, phase), t, sh) && RefsNatural(before)
    requires c.probe.at(er.key, n) < |before| && EraseTally(c, before, er, n, phase, before[c.probe.at(er.key, n)])
    requires !phase.EraseUnwind? ==> EraseCell(er.key, before[t], sh.slot, n, n, phase)
    requires phase.EraseUnwind? ==> before[c.probe.at(er.key, n)].ShowsKey(er.key) && before[c.probe.at(er.key, n)].meta.refs == 0
    ensures EraseFacts(c, before, er, n, phase, sh.slot, t, ExecErase(c, er, n, phase, sh, ch))
  {
    var s := c.probe.at(er.key, n);
    assert 0 <= before[s].meta.refs;
    assert !phase.EraseUnwind? ==> t == s;
    EraseKeepsN(c, er, n, phase, sh, ch);
    hide LocalPre, EraseCell, ExecErase, EraseTally, ClockObject.AfterErase, ClockObject.ShownBefore, Target;
    EraseCellStep(c, er, n, phase, sh, ch, before[s]);
    EraseTallyStep(c, before, er, n, phase, sh, ch);
    if ExecErase(c, er, n, phase, sh, ch).pc.Hunting? {
      IndexAt(c, er.key, ExecErase(c, er, n, phase, sh, ch).pc.n);
    }
  }

  lemma EraseOwn(c: Config, before: seq<Slot>, w: World, id: nat, k: Key, ch: Choice)
    requires Inv(c, w) && SoloErase(c, before, w, id, k) && RefsNatural(before)
    ensures var pc := w.threads[id]; var t := Target(c, pc, ch);
            && t < c.probe.length == |w.slots| == |w.loans| == |before| && c.Valid() && pc.n < c.probe.length
            && var f := ExecErase(c, pc.er, pc.n, pc.erase, See(w, t), ch);
               Step(c, w, id, ch) == Apply(w, id, t, f) && EraseFacts(c, before, pc.er, pc.n, pc.erase, w.slots[t], t, f)
  {
    var pc := w.threads[id];
    var t := Target(c, pc, ch);
    ClockCalls.InvShape(c, w);
    hide Inv, Target, LocalPre, Step, EraseCell, ExecErase, EraseTally, EraseFacts, RefsNatural, EraseCells, SoloErase;
    SoloEraseOpens(c, before, w, id, k);
    ClockCalls.EraseApplies(c, w, id, ch);
    var s := c.probe.at(k, pc.n);
    IndexAt(c, k, pc.n);
    CellAt(c, k, before, w, pc.n, pc.erase, s);
    UnwindMeans(k, before[s], w.slots[s], pc.n, pc.erase);
    EraseLocally(c, before, pc.er, pc.n, pc.erase, See(w, t), ch, t);
  }

  lemma IndexAt(c: Config, k: Key, n: nat)
    requires c.Valid() && n < c.probe.length
    ensures c.probe.at(k, n) < c.probe.length && c.probe.index(k, c.probe.at(k, n)) == n
  {
  }

  lemma UnwindMeans(k: Key, a: Slot, b: Slot, n: nat, phase: ErasePhase)
    requires EraseCell(k, a, b, n, n, phase)
    ensures phase.EraseUnwind? ==> a.ShowsKey(k) && a.meta.refs == 0
  {
  }

  lemma EraseFactsSpread(c: Config, before: seq<Slot>, w: World, er: Erasing, n: nat, phase: ErasePhase, t: nat, f: Effect)
    requires c.Valid() && |before| == |w.slots| == c.probe.length && n < c.probe.length && t < |before| && f.pc.Hunting?
    requires EraseCells(c, er.key, before, w, n, phase) && EraseFacts(c, before, er, n, phase, w.slots[t], t, f)
    ensures forall u: nat | u < |before| :: EraseCell(er.key, before[u], w.slots[t := f.now.slot][u], c.probe.index(er.key, u), f.pc.n, f.pc.erase)
    ensures f.pc.n < c.probe.length && f.pc.er.key == er.key && c.probe.at(er.key, f.pc.n) < |before|
    ensures EraseTally(c, before, f.pc.er, f.pc.n, f.pc.erase, before[c.probe.at(er.key, f.pc.n)])
  {
    hide EraseCell, EraseTally;
    forall u: nat | u < |before| ensures EraseCell(er.key, before[u], w.slots[t := f.now.slot][u], c.probe.index(er.key, u), f.pc.n, f.pc.erase) {
      EraseCellElsewhere(c, er.key, before, w, f, n, phase, t, u);
    }
  }

  lemma SoloEraseOpens(c: Config, before: seq<Slot>, w: World, id: nat, k: Key)
    requires Shape(c, w) && SoloErase(c, before, w, id, k)
    ensures id < |w.threads| && w.threads[id].Hunting? && w.threads[id].er.key == k && |before| == |w.slots| == c.probe.length && c.Valid()
    ensures var pc := w.threads[id];
            && pc.n < c.probe.length && c.probe.at(k, pc.n) < |before|
            && EraseCells(c, k, before, w, pc.n, pc.erase)
            && EraseTally(c, before, pc.er, pc.n, pc.erase, before[c.probe.at(k, pc.n)])
  {
    hide EraseTally;
  }

  lemma SoloEraseCloses(c: Config, before: seq<Slot>, w: World, id: nat, k: Key)
    requires Shape(c, w) && id < |w.threads| && w.threads[id].Hunting? && w.threads[id].er.key == k && |before| == |w.slots|
    requires var pc := w.threads[id];
             && pc.n < c.probe.length && c.probe.at(k, pc.n) < |before|
             && (forall u: nat | u < |before| :: EraseCell(k, before[u], w.slots[u], c.probe.index(k, u), pc.n, pc.erase))
             && EraseTally(c, before, pc.er, pc.n, pc.erase, before[c.probe.at(k, pc.n)])
    ensures SoloErase(c, before, w, id, k)
  {
    hide EraseTally, EraseCell;
  }

  lemma SoloEraseStep(c: Config, before: seq<Slot>, w: World, id: nat, k: Key, ch: Choice)
    requires Inv(c, w) && SoloErase(c, before, w, id, k) && RefsNatural(before)
    requires Step(c, w, id, ch).threads[id].Hunting?
    ensures SoloErase(c, before, Step(c, w, id, ch), id, k)
  {
    var pc := w.threads[id];
    var t := Target(c, pc, ch);
    ClockCalls.InvShape(c, w);
    hide Inv, ExecErase, EraseCell, EraseCells, EraseTally, EraseFacts, Target, Step, SoloErase, RefsNatural;
    SoloEraseOpens(c, before, w, id, k);
    EraseOwn(c, before, w, id, k, ch);
    var f := ExecErase(c, pc.er, pc.n, pc.erase, See(w, t), ch);
    EraseFactsSpread(c, before, w, pc.er, pc.n, pc.erase, t, f);
    SoloEraseCloses(c, before, Step(c, w, id, ch), id, k);
  }

  lemma EraseKeepsN(c: Config, er: Erasing, n: nat, phase: ErasePhase, sh: Shared, ch: Choice)
    requires n < c.probe.length
    ensures var pc' := ExecErase(c, er, n, phase, sh, ch).pc;
            && (pc'.Hunting? ==> pc'.n < c.probe.length && pc'.er.key == er.key && pc'.er.why == er.why)
            && (!pc'.Hunting? ==> phase.EraseStop? && (sh.slot.displacements == 0 || n + 1 == c.probe.length))
  {
  }

  lemma StrayCell(k: Key, a: Slot, b: Slot, n: nat, phase: ErasePhase)
    requires EraseCell(k, a, b, n, n, phase) && phase.EraseStray? && 0 <= a.meta.refs
    ensures !b.meta.Shareable() && b.meta.refs > 0
  {
  }

  lemma CellAt(c: Config, k: Key, before: seq<Slot>, w: World, n: nat, phase: ErasePhase, u: nat)
    requires EraseCells(c, k, before, w, n, phase) && u < |before|
    ensures u < |w.slots| && EraseCell(k, before[u], w.slots[u], c.probe.index(k, u), n, phase)
  {
  }

  /** A decrement that follows the thread's own increment is clean. */
  lemma SoloEraseIsClean(c: Config, before: seq<Slot>, w: World, id: nat, k: Key, ch: Choice)
    requires Inv(c, w) && SoloErase(c, before, w, id, k) && RefsNatural(before)
    ensures Shape(c, w) && CleanStep(c, w, id, ch)
  {
    var pc := w.threads[id];
    ClockCalls.InvShape(c, w);
    assert RefsNatural(before);
    hide Inv, EraseCells, EraseTally, LocalPre, EraseCell, ExecErase, SoloErase;
    SoloEraseOpens(c, before, w, id, k);
    ClockCalls.EraseApplies(c, w, id, ch);
    IndexAt(c, k, pc.n);
    var s := c.probe.at(k, pc.n);
    CellAt(c, k, before, w, pc.n, pc.erase, s);
    if pc.erase.EraseStray? {
      StrayCell(k, before[s], w.slots[s], pc.n, pc.erase);
    }
  }

  /** The table after an erasure of `k` that nobody disturbed. */
  ghost predicate Erased(before: seq<Slot>, after: seq<Slot>, k: Key) {
    |before| == |after| && forall t: nat | t < |before| :: SameContent(after[t], ClockObject.AfterErase(k, before[t]))
  }

  /** It answers true if and only if there was no visible copy, or an unpinned one. */
  ghost predicate EraseSucceeds(before: seq<Slot>, k: Key) {
    ClockObject.NoneShows(before, k) || exists t: nat :: t < |before| && before[t].ShowsKey(k) && before[t].meta.refs == 0
  }

  lemma FactsAtEnd(c: Config, before: seq<Slot>, er: Erasing, n: nat, phase: ErasePhase, slot: Slot, t: nat, f: Effect)
    requires t < |before| && EraseFacts(c, before, er, n, phase, slot, t, f) && !f.pc.Hunting?
    ensures phase.EraseStop? && t == c.probe.at(er.key, n) && (slot.displacements == 0 || n + 1 == c.probe.length)
    ensures SameContent(f.now.slot, ClockObject.AfterErase(er.key, before[t]))
    ensures f.pc == ClockCalls.EraseAnswer(er.why,
              ClockObject.ShownBefore(c.probe, before, er.key, n + 1, true) || !ClockObject.ShownBefore(c.probe, before, er.key, n + 1, false))
  {
    hide ClockObject.ShownBefore, ClockObject.AfterErase;
  }

  lemma ErasedWithLast(before: seq<Slot>, slots: seq<Slot>, k: Key, t: nat, x: Slot)
    requires |before| == |slots| && t < |slots| && SameContent(x, ClockObject.AfterErase(k, before[t]))
    requires forall u: nat | u < |before| :: SameContent(slots[u], ClockObject.AfterErase(k, before[u]))
    ensures Erased(before, slots[t := x], k)
  {
    hide ClockObject.AfterErase;
  }

  /** The erasure has ended in `w` as it should. */
  ghost predicate EndsErased(before: seq<Slot>, w: World, id: nat, k: Key, why: Why) {
    id < |w.threads| && Erased(before, w.slots, k) && w.threads[id] == ClockCalls.EraseAnswer(why, EraseSucceeds(before, k))
  }

  ghost predicate HuntsIn(w: World, id: nat) {
    id < |w.threads| && w.threads[id].Hunting?
  }

  lemma SoloEraseEnds(c: Config, before: seq<Slot>, w: World, id: nat, k: Key, why: Why, ch: Choice)
    requires Shape(c, w) && HuntsIn(w, id) && w.threads[id].er.why == why && !HuntsIn(Step(c, w, id, ch), id)
    requires SoloErase(c, before, w, id, k) && RefsNatural(before) && Inv(c, w)
    ensures EndsErased(before, Step(c, w, id, ch), id, k, why)
  {
    hide Inv, ExecErase, Target, Step, SoloErase, RefsNatural, EraseFacts, EraseSucceeds, Erased, EraseTally, EraseCells, ClockObject.AfterErase;
    SoloEraseOpens(c, before, w, id, k);
    EraseOwn(c, before, w, id, k, ch);
    var pc := w.threads[id];
    var t := Target(c, pc, ch);
    var f := ExecErase(c, pc.er, pc.n, pc.erase, See(w, t), ch);
    FactsAtEnd(c, before, pc.er, pc.n, pc.erase, w.slots[t], t, f);
    forall u: nat | u < |before|
      ensures SameContent(w.slots[u], ClockObject.AfterErase(k, before[u])) && (before[u].ShowsKey(k) ==> c.probe.index(k, u) < pc.n + 1)
    {
      EraseEndsAt(c, before, w, id, k, pc.n, u);
    }
    ErasedWithLast(before, w.slots, k, t, f.now.slot);
    ShownAll(c, before, k, pc.n + 1);
  }

  lemma ShownAll(c: Config, before: seq<Slot>, k: Key, n: nat)
    requires c.Valid() && |before| == c.probe.length
    requires forall u: nat | u < |before| && before[u].ShowsKey(k) :: c.probe.index(k, u) < n
    ensures EraseSucceeds(before, k) <==> ClockObject.ShownBefore(c.probe, before, k, n, true) || !ClockObject.ShownBefore(c.probe, before, k, n, false)
  {
    hide Permutes;
    ClockObject.ShownEverywhere(c.probe, before, k, n, true);
    ClockObject.ShownEverywhere(c.probe, before, k, n, false);
    ClockObject.NoneShowsExists(before, k);
    hide ClockObject.ShownBefore;
  }

  lemma CellAtEnd(k: Key, a: Slot, b: Slot, pos: int, n: nat)
    requires EraseCell(k, a, b, pos, n, EraseStop)
    ensures pos <= n ==> SameContent(b, ClockObject.AfterErase(k, a))
    ensures pos > n ==> SameContent(b, a)
  {
  }

  lemma EndCell(k: Key, a: Slot, b: Slot, pos: int, n: nat)
    requires EraseCell(k, a, b, pos, n, EraseStop) && (pos > n ==> !b.ShowsKey(k))
    ensures SameContent(b, ClockObject.AfterErase(k, a)) && (a.ShowsKey(k) ==> pos < n + 1)
  {
    hide EraseCell, ClockObject.AfterErase;
    CellAtEnd(k, a, b, pos, n);
    if pos > n {
      AfterEraseElsewhere(k, a, b);
    }
  }

  lemma EraseEndsAt(c: Config, before: seq<Slot>, w: World, id: nat, k: Key, n: nat, u: nat)
    requires Inv(c, w) && SoloErase(c, before, w, id, k) && u < |before|
    requires w.threads[id].erase.EraseStop? && n == w.threads[id].n
    requires c.probe.at(k, n) < |w.slots| && (w.slots[c.probe.at(k, n)].displacements == 0 || n + 1 == c.probe.length)
    ensures |before| == |w.slots| && SameContent(w.slots[u], ClockObject.AfterErase(k, before[u])) && (before[u].ShowsKey(k) ==> c.probe.index(k, u) < n + 1)
  {
    ClockCalls.InvShape(c, w);
    hide Inv, SoloErase, EraseCells, EraseTally, EraseCell, ClockObject.AfterErase;
    SoloEraseOpens(c, before, w, id, k);
    CellAt(c, k, before, w, n, EraseStop, u);
    if c.probe.index(k, u) > n {
      NothingBeyond(c, w, k, n, u);
    }
    EndCell(k, before[u], w.slots[u], c.probe.index(k, u), n);
  }

  /** From the start of an erasure on, as long as only its thread moves. */
  lemma {:induction false} SoloEraseRun(c: Config, w: World, moves: seq<Move>, id: nat, k: Key, why: Why)
    requires Inv(c, w) && id < |w.threads| && ByItself(moves, id) && ClockCalls.HuntsThroughout(c, w, moves, id)
    requires w.threads[id] == Hunting(Erasing(k, false, false, why), 0, EraseIncr)
    ensures Inv(c, Run(c, w, moves)) && SoloErase(c, w.slots, Run(c, w, moves), id, k) && Run(c, w, moves).threads[id].er.why == why
    ensures RefsNatural(w.slots)
  {
    ClockCalls.InvShape(c, w);
    NaturalFromInv(c, w);
    hide Inv, Step, Run, RefsNatural;
    if moves == [] {
      ClockCalls.RunOfNothing(c, w);
      SoloEraseStarts(c, w, id, k, why);
    } else {
      hide SoloErase;
      var n := |moves| - 1;
      ClockCalls.HuntsPrefix(c, w, moves, id, n);
      ClockCalls.HuntsPrefix(c, w, moves, id, |moves|);
      assert moves[..|moves|] == moves;
      ClockCalls.RunLast(c, w, moves);
      SoloEraseRun(c, w, moves[..n], id, k, why);
      var here := Run(c, w, moves[..n]);
      SoloEraseIsClean(c, w.slots, here, id, k, moves[n].ch);
      CleanStepKeepsInv(c, here, id, moves[n].ch);
      SoloEraseStep(c, w.slots, here, id, k, moves[n].ch);
      HuntKeeps(c, here, id, moves[n].ch);
    }
  }

  lemma HuntKeeps(c: Config, w: World, id: nat, ch: Choice)
    requires Shape(c, w) && id < |w.threads| && w.threads[id].Hunting? && Step(c, w, id, ch).threads[id].Hunting?
    ensures Step(c, w, id, ch).threads[id].er.why == w.threads[id].er.why
  {
  }

  lemma NaturalFromInv(c: Config, w: World)
    requires Inv(c, w)
    ensures RefsNatural(w.slots)
  {
    forall t: nat | t < |w.slots| ensures 0 <= w.slots[t].meta.refs {
      assert RefsAgree(c, w, t);
      ThreadWeightsNonNegative(c, Holders(t), w);
    }
  }

  lemma CellsStart(c: Config, w: World, k: Key)
    requires c.Valid() && |w.slots| == c.probe.length
    ensures EraseCells(c, k, w.slots, w, 0, EraseIncr)
  {
    forall t: nat | t < |w.slots| ensures EraseCell(k, w.slots[t], w.slots[t], c.probe.index(k, t), 0, EraseIncr) {
      assert c.probe.index(k, t) < c.probe.length;
    }
    hide Permutes;
  }

  lemma TallyStarts(c: Config, before: seq<Slot>, k: Key, why: Why, here: Slot)
    ensures EraseTally(c, before, Erasing(k, false, false, why), 0, EraseIncr, here)
  {
  }

  lemma SoloEraseStarts(c: Config, w: World, id: nat, k: Key, why: Why)
    requires Inv(c, w) && id < |w.threads| && w.threads[id] == Hunting(Erasing(k, false, false, why), 0, EraseIncr)
    ensures Shape(c, w) && SoloErase(c, w.slots, w, id, k)
  {
    ClockCalls.InvShape(c, w);
    hide Inv, EraseCells, EraseTally;
    assert c.probe.length > 0;
    IndexAt(c, k, 0);
    CellsStart(c, w, k);
    TallyStarts(c, w.slots, k, why, w.slots[c.probe.at(k, 0)]);
  }

  /**
   An erasure that nobody disturbs, from any state, does to every slot what the class does: unpinned visible
   copies are gone, pinned ones hidden, all else is as it was; and it answers as the class does.
   */
  lemma {:induction false} UndisturbedErase(c: Config, w: World, moves: seq<Move>, id: nat, k: Key, why: Why, ch: Choice)
    requires Inv(c, w) && id < |w.threads| && ByItself(moves, id) && ClockCalls.HuntsThroughout(c, w, moves, id)
    requires w.threads[id] == Hunting(Erasing(k, false, false, why), 0, EraseIncr)
    requires !Step(c, Run(c, w, moves), id, ch).threads[id].Hunting?
    ensures var end := Step(c, Run(c, w, moves), id, ch);
            && Inv(c, end) && Erased(w.slots, end.slots, k)
            && end.threads[id] == ClockCalls.EraseAnswer(why, EraseSucceeds(w.slots, k))
  {
    ClockCalls.InvShape(c, w);
    SoloEraseRun(c, w, moves, id, k, why);
    hide Inv, Run, SoloErase, RefsNatural, Erased, EraseSucceeds;
    var here := Run(c, w, moves);
    SoloEraseIsClean(c, w.slots, here, id, k, ch);
    CleanStepKeepsInv(c, here, id, ch);
    SoloEraseEnds(c, w.slots, here, id, k, why, ch);
  }
}
