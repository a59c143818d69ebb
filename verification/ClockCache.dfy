/**
 The CLOCK cache as an object whose operations run one at a time. References handed out by `Lookup`
 stay held across calls. A compare-and-swap that nobody can disturb succeeds, so the retry loops
 around them do not appear.
 */
module ClockObject {
  import opened Walk
  import opened MetaWord
  import opened ClockTable
  import opened ClockIndex
  import opened ClockSweep
  import opened ClockHand

  /** Position-wise facts about a slot between operations. */
  ghost predicate SlotOk(slot: Slot, loan: int) {
    SlotAtRest(slot, loan) && 0 <= slot.meta.hits && (slot.Resident() ==> slot.meta.hits <= MAX_HIT_COUNT)
  }

  ghost predicate SlotsOk(slots: seq<Slot>, loans: seq<int>) {
    |slots| == |loans| && forall t | 0 <= t < |slots| :: SlotOk(slots[t], loans[t])
  }

  /** Of two visible copies of a key, the one met first on the probe path was inserted later. */
  ghost predicate NewestFirst(p: Probe, slots: seq<Slot>, stamps: seq<nat>, now: nat) {
    && |slots| == |stamps| == p.length
    && (forall t: nat | t < |stamps| :: stamps[t] < now)
    && (forall t: nat, u: nat | t < |slots| && u < |slots| && BothShow(slots[t], slots[u]) && p.index(slots[t].entry.key, t) < p.index(slots[t].entry.key, u) ::
          stamps[u] < stamps[t])
  }

  ghost predicate BothShow(a: Slot, b: Slot) {
    a.meta.state.Visible? && b.ShowsKey(a.entry.key)
  }

  /** Slot `t` shows `k` and is the first on its path to do so. */
  ghost predicate FirstShowing(p: Probe, slots: seq<Slot>, k: Key, t: nat) {
    && t < |slots| && slots[t].ShowsKey(k)
    && forall u: nat | u < |slots| && slots[u].ShowsKey(k) :: p.index(k, t) <= p.index(k, u)
  }

  ghost predicate NoneShows(slots: seq<Slot>, k: Key) {
    forall u: nat | u < |slots| :: !slots[u].ShowsKey(k)
  }

  /** The content of a slot after an erasure of `k` has passed over it. */
  ghost function AfterErase(k: Key, a: Slot): Slot {
    if !a.ShowsKey(k) then a
    else if a.meta.refs == 0 then a.(meta := Vacant(), entry := a.entry.FreeData())
    else a.(meta := Hide(a.meta))
  }

  /** A lookup leaves a stray reference on an empty slot it passes, and nothing anywhere else. */
  ghost function Touched(a: Slot): Slot {
    if a.meta.state.Empty? then a.(meta := AddRefs(a.meta, 1)) else a
  }

  ghost function TouchedTo(p: Probe, slots: seq<Slot>, k: Key, n: nat): (r: seq<Slot>)
    ensures |r| == |slots|
    ensures forall s | 0 <= s < |slots| :: r[s] == slots[s] || r[s] == Touched(slots[s])
  {
    seq(|slots|, s requires 0 <= s < |slots| => if p.index(k, s) < n then Touched(slots[s]) else slots[s])
  }

  lemma TouchedStep(p: Probe, slots: seq<Slot>, k: Key, n: nat)
    requires Permutes(p) && |slots| == p.length && n < p.length
    ensures p.at(k, n) < p.length
    ensures var r, t := TouchedTo(p, slots, k, n), p.at(k, n);
            r[t] == slots[t] && TouchedTo(p, slots, k, n + 1) == r[t := Touched(slots[t])]
  {
    var r, t := TouchedTo(p, slots, k, n), p.at(k, n);
    assert p.index(k, t) == n;
    var r' := r[t := Touched(slots[t])];
    forall s: nat | s < |slots|
      ensures TouchedTo(p, slots, k, n + 1)[s] == r'[s]
    {
      assert p.at(k, p.index(k, s)) == s;
    }
  }

  lemma TouchedNone(p: Probe, slots: seq<Slot>, k: Key)
    ensures TouchedTo(p, slots, k, 0) == slots && !ShownBefore(p, slots, k, 0, false)
  {
  }

  /** A search that stops at position `n` has met every resident of its key. */
  lemma EndOfPath(p: Probe, slots: seq<Slot>, k: Key, n: nat, t: nat)
    requires IndexOk(p, slots) && n < p.length && p.at(k, n) < p.length
    requires slots[p.at(k, n)].displacements == 0 || n + 1 == p.length
    requires t < p.length && slots[t].Resident() && slots[t].entry.key == k
    ensures p.index(k, t) <= n
  {
    if n + 1 < p.length {
      ZeroEndsPath(p, slots, k, n, t);
    }
  }

  /** The walk is back at its start only after its last slot. */
  lemma BackAtStart(p: Probe, k: Key, n: nat)
    requires Permutes(p) && Follows(p) && n < p.length
    ensures Advance(p.at(k, n), k, p.length) == First(k, p.length) <==> n + 1 == p.length
    ensures n + 1 < p.length ==> Advance(p.at(k, n), k, p.length) == p.at(k, n + 1)
  {
    hide Advance;
    hide First;
    assert First(k, p.length) == p.at(k, 0);
    assert p.index(k, p.at(k, 0)) == 0;
    if n + 1 < p.length {
      assert p.index(k, p.at(k, n + 1)) == n + 1;
    }
  }

  /** Hiding or removing entries keeps the order of the visible copies. */
  lemma NewestFirstKept(p: Probe, a: seq<Slot>, b: seq<Slot>, stamps: seq<nat>, now: nat)
    requires NewestFirst(p, a, stamps, now) && |a| == |b|
    requires forall t: nat | t < |b| && b[t].meta.state.Visible? :: a[t].meta.state.Visible? && a[t].entry.key == b[t].entry.key
    ensures NewestFirst(p, b, stamps, now)
  {
    forall t: nat, u: nat | t < |b| && u < |b| && BothShow(b[t], b[u]) && p.index(b[t].entry.key, t) < p.index(b[t].entry.key, u)
      ensures stamps[u] < stamps[t]
    {
      assert BothShow(a[t], a[u]);
    }
  }

  /** Some slot among the first `n` on the path of `k` shows it; with `free`, one without references. */
  ghost predicate ShownBefore(p: Probe, slots: seq<Slot>, k: Key, n: nat, free: bool) {
    exists t: nat :: t < |slots| && p.index(k, t) < n && slots[t].ShowsKey(k) && (free ==> slots[t].meta.refs == 0)
  }

  lemma ShownStep(p: Probe, slots: seq<Slot>, k: Key, n: nat, free: bool)
    requires Permutes(p) && |slots| == p.length && n < p.length && p.at(k, n) < p.length
    ensures var a := slots[p.at(k, n)];
            ShownBefore(p, slots, k, n + 1, free) <==> ShownBefore(p, slots, k, n, free) || (a.ShowsKey(k) && (free ==> a.meta.refs == 0))
  {
    var s := p.at(k, n);
    assert p.index(k, s) == n;
    forall t: nat | t < |slots| && p.index(k, t) == n
      ensures t == s
    {
      assert p.at(k, p.index(k, t)) == t;
    }
  }

  /** Nothing beyond a stopping point of the search counts. */
  lemma ShownEverywhere(p: Probe, slots: seq<Slot>, k: Key, n: nat, free: bool)
    requires Permutes(p) && |slots| == p.length
    requires forall t: nat | t < |slots| && slots[t].ShowsKey(k) :: p.index(k, t) < n
    ensures ShownBefore(p, slots, k, n, free) <==> exists t: nat :: t < |slots| && slots[t].ShowsKey(k) && (free ==> slots[t].meta.refs == 0)
  {
    if t: nat :| t < |slots| && slots[t].ShowsKey(k) && (free ==> slots[t].meta.refs == 0) {
      assert p.index(k, t) < n;
    }
  }

  /** The accounts hold, with `charge` and `places` reserved but not yet used. */
  ghost predicate Books(p: Probe, slots: seq<Slot>, loans: seq<int>, usage: int, occupancy: int, charge: int, places: int) {
    && IndexOk(p, slots)
    && SlotsOk(slots, loans)
    && usage == SlotTotal(p, Charges, slots) + charge
    && occupancy == SlotTotal(p, Residents, slots) + places
  }

  /** Changes that move no entry keep the accounts. */
  lemma BooksRelabelled(p: Probe, a: seq<Slot>, b: seq<Slot>, loans: seq<int>, loans': seq<int>, usage: int, occupancy: int, charge: int, places: int)
    requires Books(p, a, loans, usage, occupancy, charge, places)
    requires |a| == |b| && SlotsOk(b, loans')
    requires forall t | 0 <= t < |a| :: SameResident(a[t], b[t]) && a[t].displacements == b[t].displacements
    ensures Books(p, b, loans', usage, occupancy, charge, places)
  {
    RelabelKeepsIndex(p, a, b);
    SameResidentsSameTotal(p, Charges, a, b);
    SameResidentsSameTotal(p, Residents, a, b);
  }

  lemma SlotsOkUpdate(slots: seq<Slot>, loans: seq<int>, t: nat, x: Slot, loan: int)
    requires SlotsOk(slots, loans) && t < |slots| && SlotOk(x, loan)
    ensures SlotsOk(slots[t := x], loans[t := loan])
  {
  }

  /** Reclaiming an entry moves its charge and its place out of the totals. */
  lemma BooksReclaimed(p: Probe, slots: seq<Slot>, loans: seq<int>, t: nat, usage: int, occupancy: int, charge: int, places: int)
    requires Books(p, slots, loans, usage, occupancy, charge, places)
    requires t < |slots| && slots[t].Resident() && slots[t].meta.refs == 0
    ensures Books(p, Reclaimed(p, slots, t), loans, usage - slots[t].entry.charge, occupancy - 1, charge, places)
    ensures forall u: nat | u < |slots| && u != t :: SameContent(Reclaimed(p, slots, t)[u], slots[u])
  {
    hide SlotTotal;
    ReclaimKeepsIndex(p, slots, t);
    ReclaimTotal(p, Charges, slots, t);
    ReclaimTotal(p, Residents, slots, t);
    hide IndexOk;
    forall u: nat | u < |slots|
      ensures SlotOk(Reclaimed(p, slots, t)[u], loans[u])
    {
      assert SlotOk(slots[u], loans[u]);
    }
  }

  /** The slot array after Erase has treated slot `t`. */
  ghost function ErasedAt(p: Probe, slots: seq<Slot>, k: Key, t: nat): (r: seq<Slot>)
    requires t < |slots|
    ensures |r| == |slots|
  {
    if !slots[t].ShowsKey(k) then slots
    else if slots[t].meta.refs == 0 then Reclaimed(p, slots, t)
    else slots[t := slots[t].(meta := Hide(slots[t].meta))]
  }

  lemma RollbackReclaims(p: Probe, slots: seq<Slot>, t: nat)
    requires Permutes(p) && t < |slots|
    ensures var x := slots[t].(meta := Vacant(), entry := slots[t].entry.FreeData());
            Adjusted(p, slots[t := x], slots[t].entry.key, p.index(slots[t].entry.key, t), -1) == Reclaimed(p, slots, t)
  {
  }

  lemma BooksHidden(p: Probe, slots: seq<Slot>, loans: seq<int>, t: nat, usage: int, occupancy: int, charge: int, places: int)
    requires Books(p, slots, loans, usage, occupancy, charge, places) && t < |slots| && slots[t].meta.state.Visible?
    ensures Books(p, slots[t := slots[t].(meta := Hide(slots[t].meta))], loans, usage, occupancy, charge, places)
  {
    var b := slots[t := slots[t].(meta := Hide(slots[t].meta))];
    assert SlotOk(slots[t], loans[t]);
    SlotsOkUpdate(slots, loans, t, b[t], loans[t]);
    assert loans[t := loans[t]] == loans;
    hide IndexOk, SlotTotal, SlotsOk;
    BooksRelabelled(p, slots, b, loans, loans, usage, occupancy, charge, places);
  }

  lemma BooksErasedAt(p: Probe, slots: seq<Slot>, loans: seq<int>, k: Key, t: nat, usage: int, occupancy: int, charge: int, places: int)
    requires Books(p, slots, loans, usage, occupancy, charge, places) && t < |slots|
    ensures var gone := slots[t].ShowsKey(k) && slots[t].meta.refs == 0;
            Books(p, ErasedAt(p, slots, k, t), loans, usage - (if gone then slots[t].entry.charge else 0), occupancy - (if gone then 1 else 0), charge, places)
    ensures forall u: nat | u < |slots| :: SameContent(ErasedAt(p, slots, k, t)[u], if u == t then AfterErase(k, slots[u]) else slots[u])
  {
    hide Books;
    if slots[t].ShowsKey(k) {
      if slots[t].meta.refs == 0 {
        BooksReclaimed(p, slots, loans, t, usage, occupancy, charge, places);
      } else {
        BooksHidden(p, slots, loans, t, usage, occupancy, charge, places);
      }
    }
  }

  /** The first `n` slots on the path of `k` have been treated by Erase, the others have not. */
  ghost predicate ErasedTo(p: Probe, before: seq<Slot>, after: seq<Slot>, k: Key, n: nat) {
    |before| == |after| && forall t: nat {:trigger after[t]} | t < |after| :: SameContent(after[t], if p.index(k, t) < n then AfterErase(k, before[t]) else before[t])
  }

  lemma ErasedNone(p: Probe, slots: seq<Slot>, k: Key)
    ensures ErasedTo(p, slots, slots, k, 0) && !ShownBefore(p, slots, k, 0, false) && !ShownBefore(p, slots, k, 0, true)
  {
  }

  lemma UntreatedSame(p: Probe, before: seq<Slot>, after: seq<Slot>, k: Key, n: nat)
    requires Permutes(p) && n < p.length == |after| && ErasedTo(p, before, after, k, n)
    ensures p.at(k, n) < p.length && SameContent(after[p.at(k, n)], before[p.at(k, n)])
  {
    assert p.index(k, p.at(k, n)) == n;
  }

  lemma SameContentSameErase(k: Key, a: Slot, b: Slot)
    requires SameContent(a, b)
    ensures SameContent(AfterErase(k, a), AfterErase(k, b))
  {
  }

  lemma ErasedToStep(p: Probe, before: seq<Slot>, slots: seq<Slot>, k: Key, n: nat, after: seq<Slot>)
    requires Permutes(p) && n < p.length == |slots| == |after| && p.at(k, n) < p.length && ErasedTo(p, before, slots, k, n)
    requires forall u: nat | u < |slots| :: SameContent(after[u], if u == p.at(k, n) then AfterErase(k, slots[u]) else slots[u])
    ensures ErasedTo(p, before, after, k, n + 1)
  {
    forall t: nat | t < |after|
      ensures SameContent(after[t], if p.index(k, t) < n + 1 then AfterErase(k, before[t]) else before[t])
    {
      assert p.at(k, p.index(k, t)) == t && p.index(k, p.at(k, n)) == n;
      assert SameContent(slots[t], if p.index(k, t) < n then AfterErase(k, before[t]) else before[t]);
      hide AfterErase;
      if t == p.at(k, n) {
        SameContentSameErase(k, slots[t], before[t]);
      }
    }
  }

  /** Where the search of Erase stops it has treated every visible copy. */
  lemma EraseEnds(p: Probe, before: seq<Slot>, after: seq<Slot>, k: Key, n: nat, stamps: seq<nat>, now: nat)
    requires Permutes(p) && n < p.length && p.at(k, n) < p.length && |before| == |after| == p.length
    requires IndexOk(p, after) && ErasedTo(p, before, after, k, n + 1) && NewestFirst(p, before, stamps, now)
    requires after[p.at(k, n)].displacements == 0 || n + 1 == p.length
    ensures forall t: nat | t < p.length && before[t].ShowsKey(k) :: p.index(k, t) < n + 1
    ensures forall t: nat | t < p.length :: SameContent(after[t], AfterErase(k, before[t]))
    ensures NoneShows(after, k) && NewestFirst(p, after, stamps, now)
    ensures ShownBefore(p, before, k, n + 1, false) <==> !NoneShows(before, k)
    ensures ShownBefore(p, before, k, n + 1, true) <==> exists t: nat :: t < |before| && before[t].ShowsKey(k) && before[t].meta.refs == 0
  {
    hide Permutes;
    hide IndexOk;
    hide ErasedTo;
    hide NewestFirst;
    hide NoneShows;
    hide ShownBefore;
    hide AfterErase;
    EraseEndsContent(p, before, after, k, n);
    ShownEverywhere(p, before, k, n + 1, false);
    ShownEverywhere(p, before, k, n + 1, true);
    NoneShowsExists(before, k);
    NewestFirstKept(p, before, after, stamps, now);
  }

  lemma NoneShowsExists(slots: seq<Slot>, k: Key)
    ensures NoneShows(slots, k) <==> !exists t: nat :: t < |slots| && slots[t].ShowsKey(k) && (false ==> slots[t].meta.refs == 0)
  {
  }

  /** A visible copy that Erase has not reached would lie beyond the end of its search. */
  lemma EraseReaches(p: Probe, before: seq<Slot>, after: seq<Slot>, k: Key, n: nat, t: nat)
    requires n < p.length && p.at(k, n) < p.length && |before| == p.length
    requires IndexOk(p, after) && ErasedTo(p, before, after, k, n + 1)
    requires after[p.at(k, n)].displacements == 0 || n + 1 == p.length
    requires t < p.length && before[t].ShowsKey(k)
    ensures p.index(k, t) < n + 1
  {
    hide SlotTotal;
    if p.index(k, t) >= n + 1 {
      assert SameContent(after[t], before[t]);
      EndOfPath(p, after, k, n, t);
    }
  }

  lemma EraseLeaves(p: Probe, before: seq<Slot>, after: seq<Slot>, k: Key, n: nat, t: nat)
    requires |after| == |before| && t < |after| && ErasedTo(p, before, after, k, n)
    requires before[t].ShowsKey(k) ==> p.index(k, t) < n
    ensures SameContent(after[t], AfterErase(k, before[t]))
    ensures !after[t].ShowsKey(k)
    ensures after[t].meta.state.Visible? ==> before[t].meta.state.Visible? && after[t].entry.key == before[t].entry.key
  {
    EraseHides(k, before[t]);
  }

  lemma EraseEndsContent(p: Probe, before: seq<Slot>, after: seq<Slot>, k: Key, n: nat)
    requires n < p.length && p.at(k, n) < p.length && |before| == |after| == p.length
    requires IndexOk(p, after) && ErasedTo(p, before, after, k, n + 1)
    requires after[p.at(k, n)].displacements == 0 || n + 1 == p.length
    ensures forall t: nat | t < p.length && before[t].ShowsKey(k) :: p.index(k, t) < n + 1
    ensures forall t: nat | t < p.length :: SameContent(after[t], AfterErase(k, before[t]))
    ensures NoneShows(after, k)
    ensures forall t: nat | t < p.length && after[t].meta.state.Visible? :: before[t].meta.state.Visible? && after[t].entry.key == before[t].entry.key
  {
    hide IndexOk;
    hide ErasedTo;
    hide SameContent;
    hide AfterErase;
    forall t: nat | t < p.length
      ensures before[t].ShowsKey(k) ==> p.index(k, t) < n + 1
      ensures SameContent(after[t], AfterErase(k, before[t])) && !after[t].ShowsKey(k)
      ensures after[t].meta.state.Visible? ==> before[t].meta.state.Visible? && after[t].entry.key == before[t].entry.key
    {
      if before[t].ShowsKey(k) {
        EraseReaches(p, before, after, k, n, t);
      }
      EraseLeaves(p, before, after, k, n + 1, t);
    }
  }

  lemma EraseHides(k: Key, a: Slot)
    ensures !AfterErase(k, a).ShowsKey(k)
  {
  }

  lemma FreshBooks(p: Probe, slots: seq<Slot>, loans: seq<int>)
    requires Permutes(p) && |slots| == |loans| == p.length
    requires forall t | 0 <= t < |slots| :: slots[t].meta == Vacant() && slots[t].displacements == 0 && loans[t] == 0
    ensures Books(p, slots, loans, 0, 0, 0, 0)
  {
    forall q: Query
      ensures SlotTotal(p, q, slots) == 0
    {
      SlotTotalEmpty(p, q, slots);
    }
    hide SlotTotal;
  }

  /** A lookup that stops without a match has seen that no slot shows `k`. */
  lemma LookupMissed(p: Probe, before: seq<Slot>, loans: seq<int>, k: Key, n: nat, usage: int, occupancy: int, stamps: seq<nat>, now: nat)
    requires Permutes(p) && n < p.length == |before| && p.at(k, n) < p.length
    requires Books(p, before, loans, usage, occupancy, 0, 0) && NewestFirst(p, before, stamps, now)
    requires before[p.at(k, n)].displacements == 0 || n + 1 == p.length
    requires !ShownBefore(p, before, k, n + 1, false)
    ensures Books(p, TouchedTo(p, before, k, n + 1), loans, usage, occupancy, 0, 0) && NoneShows(before, k)
    ensures NewestFirst(p, TouchedTo(p, before, k, n + 1), stamps, now)
  {
    hide Permutes;
    hide SlotTotal;
    SearchExhausted(p, before, k, n);
    hide NewestFirst;
    hide NoneShows;
    hide ShownBefore;
    hide IndexOk;
    TouchedBooks(p, before, loans, k, n + 1, usage, occupancy);
    TouchedShows(p, before, k, n + 1);
    hide TouchedTo;
    NewestFirstKept(p, before, TouchedTo(p, before, k, n + 1), stamps, now);
  }

  lemma SearchExhausted(p: Probe, slots: seq<Slot>, k: Key, n: nat)
    requires |slots| == p.length && n < p.length && p.at(k, n) < p.length && IndexOk(p, slots)
    requires slots[p.at(k, n)].displacements == 0 || n + 1 == p.length
    requires !ShownBefore(p, slots, k, n + 1, false)
    ensures NoneShows(slots, k)
  {
    hide IndexOk;
    forall t: nat | t < |slots|
      ensures !slots[t].ShowsKey(k)
    {
      if slots[t].ShowsKey(k) {
        ExhaustedAt(p, slots, k, n, t);
      }
    }
  }

  lemma ExhaustedAt(p: Probe, slots: seq<Slot>, k: Key, n: nat, t: nat)
    requires n < p.length && p.at(k, n) < p.length && IndexOk(p, slots)
    requires slots[p.at(k, n)].displacements == 0 || n + 1 == p.length
    requires t < |slots| && slots[t].ShowsKey(k)
    ensures p.index(k, t) <= n
  {
    EndOfPath(p, slots, k, n, t);
  }

  lemma TouchedShows(p: Probe, slots: seq<Slot>, k: Key, n: nat)
    ensures forall t: nat | t < |slots| && TouchedTo(p, slots, k, n)[t].meta.state.Visible? ::
      slots[t].meta.state.Visible? && TouchedTo(p, slots, k, n)[t].entry.key == slots[t].entry.key
  {
  }

  lemma TouchedBooks(p: Probe, slots: seq<Slot>, loans: seq<int>, k: Key, n: nat, usage: int, occupancy: int)
    requires Books(p, slots, loans, usage, occupancy, 0, 0)
    ensures Books(p, TouchedTo(p, slots, k, n), loans, usage, occupancy, 0, 0)
  {
    hide SlotTotal;
    var r := TouchedTo(p, slots, k, n);
    forall t | 0 <= t < |r|
      ensures SlotOk(r[t], loans[t])
      ensures SameResident(slots[t], r[t]) && slots[t].displacements == r[t].displacements
    {
      assert SlotOk(slots[t], loans[t]);
    }
    hide IndexOk;
    BooksRelabelled(p, slots, r, loans, loans, usage, occupancy, 0, 0);
  }

  /** A lookup that matches at position `n` has found the first, and so the newest, visible copy. */
  lemma LookupFound(p: Probe, before: seq<Slot>, loans: seq<int>, k: Key, n: nat, r: nat, x: Slot, usage: int, occupancy: int, stamps: seq<nat>, now: nat)
    requires Permutes(p) && n < p.length == |before| && r == p.at(k, n) < p.length && p.index(k, r) == n
    requires Books(p, before, loans, usage, occupancy, 0, 0) && NewestFirst(p, before, stamps, now)
    requires before[r].ShowsKey(k)
    requires x == before[r].(meta := before[r].meta.(refs := before[r].meta.refs + 1, hits := x.meta.hits))
    requires x.meta.hits == if before[r].meta.hits < MAX_HIT_COUNT then before[r].meta.hits + 1 else MAX_HIT_COUNT
    requires !ShownBefore(p, before, k, n, false)
    ensures Books(p, TouchedTo(p, before, k, n)[r := x], loans[r := loans[r] + 1], usage, occupancy, 0, 0)
    ensures NewestFirst(p, TouchedTo(p, before, k, n)[r := x], stamps, now)
    ensures FirstShowing(p, before, k, r) && !NoneShows(before, k)
    ensures forall u: nat | u < p.length && before[u].ShowsKey(k) :: stamps[u] <= stamps[r]
  {
    hide Permutes;
    hide SlotTotal;
    hide TouchedTo;
    hide ShownBefore;
    hide NewestFirst;
    hide IndexOk;
    TouchedBooks(p, before, loans, k, n, usage, occupancy);
    var mid := TouchedTo(p, before, k, n);
    TouchedAt(p, before, k, n, r);
    assert SlotOk(before[r], loans[r]);
    SlotsOkUpdate(mid, loans, r, x, loans[r] + 1);
    BooksRelabelled(p, mid, mid[r := x], loans, loans[r := loans[r] + 1], usage, occupancy, 0, 0);
    NewestFirstKept(p, before, mid[r := x], stamps, now);
    forall u: nat | u < p.length && before[u].ShowsKey(k)
      ensures stamps[u] <= stamps[r] && p.index(k, r) <= p.index(k, u)
    {
      NewestByPosition(p, before, stamps, now, k, r, u);
    }
  }

  lemma TouchedAt(p: Probe, slots: seq<Slot>, k: Key, n: nat, r: nat)
    requires r < |slots| && p.index(k, r) >= n
    ensures TouchedTo(p, slots, k, n)[r] == slots[r]
  {
  }

  lemma NewestByPosition(p: Probe, slots: seq<Slot>, stamps: seq<nat>, now: nat, k: Key, r: nat, u: nat)
    requires Permutes(p) && NewestFirst(p, slots, stamps, now) && r < |slots| && u < |slots|
    requires slots[r].ShowsKey(k) && slots[u].ShowsKey(k) && !ShownBefore(p, slots, k, p.index(k, r), false)
    ensures stamps[u] <= stamps[r] && p.index(k, r) <= p.index(k, u)
  {
    assert p.at(k, p.index(k, r)) == r && p.at(k, p.index(k, u)) == u;
    assert p.index(k, r) <= p.index(k, u);
    if u != r {
      assert BothShow(slots[r], slots[u]);
    }
  }

  // ---- Placement ----

  /** None of the first `n` slots on the path of `k` is empty. */
  ghost predicate FullTo(p: Probe, slots: seq<Slot>, k: Key, n: nat) {
    forall t: nat {:trigger slots[t]} | t < |slots| && p.index(k, t) < n :: !slots[t].meta.state.Empty?
  }

  /** An empty slot comes before every visible copy on the path of `k`. */
  ghost predicate EmptyFirst(p: Probe, slots: seq<Slot>, k: Key) {
    exists t: nat {:trigger slots[t]} :: t < |slots| && slots[t].meta.state.Empty? && !ShownBefore(p, slots, k, p.index(k, t), false)
  }

  lemma CopyFirst(p: Probe, slots: seq<Slot>, k: Key, n: nat)
    requires Permutes(p) && |slots| == p.length && n < p.length && p.at(k, n) < p.length && FullTo(p, slots, k, n)
    requires slots[p.at(k, n)].ShowsKey(k)
    ensures !EmptyFirst(p, slots, k)
  {
    var s := p.at(k, n);
    assert p.index(k, s) == n;
    forall t: nat | t < |slots| && slots[t].meta.state.Empty? ensures ShownBefore(p, slots, k, p.index(k, t), false) {
      assert p.at(k, p.index(k, t)) == t;
      if p.index(k, t) <= n {
        assert false;
      }
    }
  }

  /** If the first slot on its path is empty, `h` is placed there and nothing else changes. */
  ghost predicate FirstTaken(p: Probe, before: seq<Slot>, after: seq<Slot>, h: Handle, ok: bool) {
    var t := p.at(h.key, 0);
    t < |before| && before[t].meta.state.Empty? ==> ok && after == Placed(p, before, h, t)
  }

  lemma FirstIsEmpty(p: Probe, slots: seq<Slot>, k: Key)
    requires Permutes(p) && |slots| == p.length && p.at(k, 0) < p.length && slots[p.at(k, 0)].meta.state.Empty?
    ensures EmptyFirst(p, slots, k)
  {
    assert p.index(k, p.at(k, 0)) == 0;
  }

  lemma PlacedFirst(p: Probe, slots: seq<Slot>, k: Key, t: nat)
    requires Permutes(p) && |slots| == p.length && t < p.length && FullTo(p, slots, k, p.index(k, t))
    requires p.at(k, 0) < p.length && slots[p.at(k, 0)].meta.state.Empty?
    ensures t == p.at(k, 0)
  {
    assert p.index(k, p.at(k, 0)) == 0;
    assert p.at(k, p.index(k, t)) == t;
  }

  lemma FullStep(p: Probe, slots: seq<Slot>, k: Key, n: nat)
    requires Permutes(p) && |slots| == p.length && n < p.length && p.at(k, n) < p.length && FullTo(p, slots, k, n)
    requires !slots[p.at(k, n)].meta.state.Empty?
    ensures FullTo(p, slots, k, n + 1)
  {
    forall t: nat | t < |slots| && p.index(k, t) == n
      ensures t == p.at(k, n)
    {
      assert p.at(k, p.index(k, t)) == t;
    }
  }

  lemma PlacementStarts(p: Probe, slots: seq<Slot>, k: Key)
    ensures Adjusted(p, slots, k, 0, 1) == slots && FullTo(p, slots, k, 0) && !ShownBefore(p, slots, k, 0, false)
  {
  }

  /** A walk over the whole table has seen every slot. */
  lemma WholePath(p: Probe, slots: seq<Slot>, k: Key)
    requires Permutes(p) && |slots| == p.length && FullTo(p, slots, k, p.length)
    requires !ShownBefore(p, slots, k, p.length, false)
    ensures forall t: nat | t < |slots| :: !slots[t].meta.state.Empty?
    ensures NoneShows(slots, k)
  {
    forall t: nat | t < |slots|
      ensures !slots[t].meta.state.Empty? && !slots[t].ShowsKey(k)
    {
      assert p.index(k, t) < p.length;
    }
  }

  /** The slot array with `h` placed in slot `t`. */
  ghost function Placed(p: Probe, slots: seq<Slot>, h: Handle, t: nat): (r: seq<Slot>)
    requires t < |slots|
    ensures |r| == |slots|
  {
    Adjusted(p, slots, h.key, p.index(h.key, t), 1)[t := Slot(Published(), h, slots[t].displacements)]
  }

  lemma PlacedContent(p: Probe, slots: seq<Slot>, h: Handle, t: nat)
    requires t < |slots|
    ensures forall u: nat | u < |slots| && u != t :: SameContent(Placed(p, slots, h, t)[u], slots[u])
    ensures Placed(p, slots, h, t)[t] == Slot(Published(), h, slots[t].displacements)
  {
  }

  lemma PlacedSlotsOk(p: Probe, slots: seq<Slot>, loans: seq<int>, h: Handle, t: nat)
    requires SlotsOk(slots, loans) && t < |slots| && slots[t].meta.state.Empty?
    ensures SlotsOk(Placed(p, slots, h, t), loans)
  {
    PlacedContent(p, slots, h, t);
    hide Placed;
    forall u: nat | u < |slots|
      ensures SlotOk(Placed(p, slots, h, t)[u], loans[u])
    {
      assert SlotOk(slots[u], loans[u]);
    }
  }

  /** A placed entry uses up its reservation. */
  lemma BooksPlaced(p: Probe, slots: seq<Slot>, loans: seq<int>, h: Handle, t: nat, usage: int, occupancy: int)
    requires Permutes(p) && t < |slots| == p.length
    requires Books(p, slots, loans, usage, occupancy, h.charge, 1) && slots[t].meta.state.Empty?
    ensures Books(p, Placed(p, slots, h, t), loans, usage, occupancy, 0, 0)
  {
    var n, x := p.index(h.key, t), Slot(Published(), h, slots[t].displacements);
    assert p.at(h.key, n) == t;
    assert SlotWeight(p, Charges, t, x) == h.charge && SlotWeight(p, Residents, t, x) == 1;
    hide SlotTotal;
    hide SlotWeight;
    hide IndexOk;
    hide Adjusted;
    PlaceKeepsIndex(p, slots, h.key, n, x);
    PlaceTotal(p, Charges, slots, h.key, n, t, x);
    PlaceTotal(p, Residents, slots, h.key, n, t, x);
    PlacedSlotsOk(p, slots, loans, h, t);
  }

  /** A copy placed before every visible copy of its key keeps the order, as the newest one. */
  lemma PlacedNewest(p: Probe, slots: seq<Slot>, h: Handle, t: nat, stamps: seq<nat>, now: nat)
    requires Permutes(p) && NewestFirst(p, slots, stamps, now) && t < |slots|
    requires !ShownBefore(p, slots, h.key, p.index(h.key, t), false)
    ensures NewestFirst(p, Placed(p, slots, h, t), stamps[t := now], now + 1)
    ensures FirstShowing(p, Placed(p, slots, h, t), h.key, t)
  {
    var r := Placed(p, slots, h, t);
    forall u: nat | u < |r| && u != t
      ensures SameContent(r[u], slots[u])
      ensures r[u].ShowsKey(h.key) ==> p.index(h.key, t) < p.index(h.key, u)
    {
      assert p.at(h.key, p.index(h.key, u)) == u && p.at(h.key, p.index(h.key, t)) == t;
      if slots[u].ShowsKey(h.key) {
        assert p.index(h.key, t) <= p.index(h.key, u);
      }
    }
    assert r[t] == Slot(Published(), h, slots[t].displacements);
    hide Placed;
    forall u: nat, v: nat | u < |r| && v < |r| && BothShow(r[u], r[v]) && p.index(r[u].entry.key, u) < p.index(r[u].entry.key, v)
      ensures stamps[t := now][v] < stamps[t := now][u]
    {
      if u != t && v != t {
        assert BothShow(slots[u], slots[v]);
      }
    }
  }

  // ---- Eviction ----

  /** Every entry is unpinned and has hits to lose. */
  ghost predicate AllHot(slots: seq<Slot>) {
    forall t: nat | t < |slots| && slots[t].Resident() :: slots[t].meta.refs <= 0 && slots[t].meta.state.Visible? && slots[t].meta.hits > 0
  }

  /** During its first turn over such a table the hand frees nothing, meets no pinned entry, and finds what lies ahead as it was. */
  ghost predicate FirstTurn(p: Probe, before: seq<Slot>, slots: seq<Slot>, from: nat, pos: nat, d: EvictionData)
    requires p.length > 0 && |before| == |slots|
  {
    AllHot(before) && |slots| == p.length && pos <= from + p.length ==>
      && d.freedCount == 0 && d.freedCharge == 0 && d.seenPinned == 0
      && forall x: nat | pos <= x < from + p.length :: SameContent(before[x % p.length], slots[x % p.length])
  }

  lemma FirstTurnStep(p: Probe, before: seq<Slot>, slots: seq<Slot>, from: nat, pos: nat, t: nat, d: EvictionData, delta: int)
    requires p.length > 0 && |before| == |slots| && from <= pos && t < |slots| && t == pos % p.length
    requires FirstTurn(p, before, slots, from, pos, d)
    ensures FirstTurn(p, before, Swept(p, slots, t, delta), from, pos + 1, SweptData(slots[t], d))
  {
    if AllHot(before) && |slots| == p.length && pos + 1 <= from + p.length {
      assert SameContent(before[t], slots[t]);
      forall x: nat | pos + 1 <= x < from + p.length
        ensures SameContent(before[x % p.length], Swept(p, slots, t, delta)[x % p.length])
      {
        WithinOneTurn(pos, x, p.length);
      }
    }
  }

  /** The state of a sweep that began at hand position `from` and has treated the positions before `pos`. */
  ghost predicate Sweeping(p: Probe, before: seq<Slot>, slots: seq<Slot>, from: nat, pos: nat, d: EvictionData)
    requires p.length > 0
  {
    && |before| == |slots|
    && IndexOk(p, slots)
    && (forall t: nat {:trigger slots[t]} | t < |slots| :: SlotSwept(before[t], slots[t], Visits(from, pos, p.length, t)))
    && Counted(p, before, slots, d)
    && FirstTurn(p, before, slots, from, pos, d)
  }

  lemma SweepingStarts(p: Probe, slots: seq<Slot>, loans: seq<int>, from: nat)
    requires IndexOk(p, slots) && SlotsOk(slots, loans)
    ensures Sweeping(p, slots, slots, from, from, EvictionData(0, 0, 0))
  {
    hide SlotTotal;
    forall t: nat | t < |slots|
      ensures SlotSwept(slots[t], slots[t], 0)
    {
      assert SlotOk(slots[t], loans[t]);
    }
  }

  /** One more visit, at slot `t`: what `SlotSwept` says of each slot. */
  lemma SlotsSweptStep(p: Probe, before: seq<Slot>, slots: seq<Slot>, from: nat, pos: nat, t: nat, delta: int)
    requires p.length > 0 && from <= pos && delta >= 1 && |before| == |slots| && t < |slots| && t == pos % p.length
    requires forall s: nat | s < |slots| :: SlotSwept(before[s], slots[s], Visits(from, pos, p.length, s))
    ensures forall s: nat | s < |slots| :: SlotSwept(before[s], Swept(p, slots, t, delta)[s], Visits(from, pos + 1, p.length, s))
  {
    var after := Swept(p, slots, t, delta);
    assert |after| == |slots|;
    hide SlotSwept, Visits, Swept;
    forall s: nat | s < |slots|
      ensures SlotSwept(before[s], after[s], Visits(from, pos + 1, p.length, s))
    {
      VisitsNext(from, pos, p.length, s);
      SweptSlots(p, before, slots, t, delta, s, Visits(from, pos, p.length, s));
    }
  }

  /** What has been freed is what is missing from the totals. */
  ghost predicate Counted(p: Probe, before: seq<Slot>, slots: seq<Slot>, d: EvictionData) {
    && d.freedCharge == SlotTotal(p, Charges, before) - SlotTotal(p, Charges, slots)
    && d.freedCount == SlotTotal(p, Residents, before) - SlotTotal(p, Residents, slots)
    && (d.freedCount == 0 ==> d.freedCharge == 0)
  }

  lemma CountedStep(p: Probe, before: seq<Slot>, slots: seq<Slot>, t: nat, d: EvictionData, delta: int)
    requires t < |slots| && Counted(p, before, slots, d)
    ensures Counted(p, before, Swept(p, slots, t, delta), SweptData(slots[t], d))
  {
    SweptTotals(p, slots, t, delta, d);
    SweptDataGrows(slots[t], d);
    hide SlotTotal, Swept, SweptData;
  }

  lemma SweepingStep(p: Probe, before: seq<Slot>, slots: seq<Slot>, from: nat, pos: nat, t: nat, d: EvictionData, delta: int)
    requires p.length > 0 && from <= pos && delta >= 1 && t < |slots| && t == pos % p.length
    requires Sweeping(p, before, slots, from, pos, d)
    ensures Sweeping(p, before, Swept(p, slots, t, delta), from, pos + 1, SweptData(slots[t], d))
  {
    SlotsSweptStep(p, before, slots, from, pos, t, delta);
    hide FirstTurn, SweptData, SlotSwept, Visits, Counted, IndexOk;
    SweptKeepsIndex(p, slots, t, delta);
    FirstTurnStep(p, before, slots, from, pos, t, d, delta);
    CountedStep(p, before, slots, t, d, delta);
    hide Swept;
  }

  lemma VisitsNext(from: nat, pos: nat, length: nat, t: nat)
    requires length > 0 && from <= pos
    ensures Visits(from, pos + 1, length, t) == Visits(from, pos, length, t) + if pos % length == t then 1 else 0
  {
  }

  /** What is left of a slot after a sweep is in order. */
  lemma SweptSlotOk(a: Slot, b: Slot, v: nat, loan: int)
    requires SlotOk(a, loan) && SlotSwept(a, b, v)
    ensures SlotOk(b, loan)
    ensures SlotSwept(a, b, 0)
    ensures b.meta.state.Visible? ==> a.meta.state.Visible? && b.entry.key == a.entry.key
  {
  }

  lemma SweepingEnds(p: Probe, before: seq<Slot>, slots: seq<Slot>, loans: seq<int>, from: nat, pos: nat, d: EvictionData, stamps: seq<nat>, now: nat)
    requires p.length > 0 && Sweeping(p, before, slots, from, pos, d)
    requires SlotsOk(before, loans) && NewestFirst(p, before, stamps, now)
    ensures SlotsOk(slots, loans) && NewestFirst(p, slots, stamps, now)
    ensures forall t: nat | t < |slots| :: SlotSwept(before[t], slots[t], 0)
  {
    hide NewestFirst;
    hide SlotTotal;
    hide SlotSwept;
    hide Visits;
    hide SlotOk;
    forall t: nat | t < |slots|
      ensures SlotOk(slots[t], loans[t]) && SlotSwept(before[t], slots[t], 0)
      ensures slots[t].meta.state.Visible? ==> before[t].meta.state.Visible? && slots[t].entry.key == before[t].entry.key
    {
      assert SlotOk(before[t], loans[t]);
      SweptSlotOk(before[t], slots[t], Visits(from, pos, p.length, t), loans[t]);
    }
    NewestFirstKept(p, before, slots, stamps, now);
  }

  /** Three turns of the hand evict every entry that began unpinned with at most two hits. */
  lemma ThreeTurnsEvict(p: Probe, before: seq<Slot>, slots: seq<Slot>, from: nat, pos: nat, d: EvictionData, t: nat)
    requires p.length > 0 && Sweeping(p, before, slots, from, pos, d) && from + 3 * p.length <= pos
    requires t < |slots| && |slots| == p.length && before[t].Resident() && before[t].meta.refs <= 0 && before[t].meta.hits <= 2
    ensures Gone(before[t], slots[t])
  {
    hide SlotTotal;
    hide Visits;
    ThreeTurns(from, pos, p.length, t);
    assert SlotSwept(before[t], slots[t], Visits(from, pos, p.length, t));
  }

  // ---- What an insertion may do to other entries ----

  /** Nothing new appears in the slot, and an entry with references stays resident, with them. */
  ghost predicate Carried(a: Slot, b: Slot) {
    && (b.Resident() ==>
          a.Resident() && a.entry == b.entry && a.meta.refs == b.meta.refs && (b.meta.state.Visible? ==> a.meta.state.Visible?))
    && (a.Resident() && a.meta.refs > 0 ==> b.Resident())
  }

  ghost predicate AllCarried(a: seq<Slot>, b: seq<Slot>) {
    |a| == |b| && forall u: nat {:trigger b[u]} | u < |b| :: Carried(a[u], b[u])
  }

  /** `h` sits in slot `t` as the newest copy of its key, in a slot that nobody was using. */
  ghost predicate InsertedAt(p: Probe, before: seq<Slot>, after: seq<Slot>, stamps: seq<nat>, now: nat, h: Handle, t: nat) {
    && |before| == |after| == |stamps|
    && FirstShowing(p, after, h.key, t)
    && after[t].entry == h && after[t].meta == Published()
    && stamps[t] == now
    && !(before[t].Resident() && before[t].meta.refs > 0)
    && forall u: nat | u < |after| && u != t :: Carried(before[u], after[u])
  }

  lemma SweptCarried(a: seq<Slot>, b: seq<Slot>, loans: seq<int>)
    requires SlotsOk(a, loans) && |a| == |b| && forall t: nat | t < |a| :: SlotSwept(a[t], b[t], 0)
    ensures AllCarried(a, b)
  {
    forall t: nat | t < |b|
      ensures Carried(a[t], b[t])
    {
      assert SlotOk(a[t], loans[t]);
      assert SlotSwept(a[t], b[t], 0);
    }
  }

  lemma ErasedCarried(a: seq<Slot>, b: seq<Slot>, c: seq<Slot>, loans: seq<int>, k: Key)
    requires SlotsOk(b, loans) && |b| == |c| && AllCarried(a, b)
    requires forall t: nat | t < |b| :: SameContent(c[t], AfterErase(k, b[t]))
    ensures AllCarried(a, c)
  {
    forall t: nat | t < |c|
      ensures Carried(a[t], c[t])
    {
      assert Carried(a[t], b[t]) && SlotOk(b[t], loans[t]);
      assert SameContent(c[t], AfterErase(k, b[t]));
    }
  }

  /** With a place reserved within the limit, some slot is empty. */
  lemma RoomForOne(p: Probe, slots: seq<Slot>, loans: seq<int>, usage: int, occupancy: int, charge: int)
    requires Books(p, slots, loans, usage, occupancy, charge, 1) && occupancy <= p.length
    ensures exists t: nat :: t < |slots| && slots[t].meta.state.Empty?
  {
    var t := RoomLeft(p, slots);
    assert SlotOk(slots[t], loans[t]);
  }

  /** Everything that follows from placing `h`. */
  lemma InsertPlaced(p: Probe, before: seq<Slot>, mid: seq<Slot>, loans: seq<int>, stamps: seq<nat>, now: nat, h: Handle, t: nat, usage: int, occupancy: int)
    requires Permutes(p) && t < |mid| == |stamps| == p.length && mid[t].meta.state.Empty?
    requires Books(p, mid, loans, usage, occupancy, h.charge, 1) && NewestFirst(p, mid, stamps, now)
    requires !ShownBefore(p, mid, h.key, p.index(h.key, t), false)
    requires AllCarried(before, mid)
    ensures Books(p, Placed(p, mid, h, t), loans, usage, occupancy, 0, 0)
    ensures NewestFirst(p, Placed(p, mid, h, t), stamps[t := now], now + 1)
    ensures InsertedAt(p, before, Placed(p, mid, h, t), stamps[t := now], now, h, t)
  {
    hide ShownBefore;
    hide NewestFirst;
    hide Permutes;
    hide SlotTotal;
    hide IndexOk;
    hide FirstShowing;
    BooksPlaced(p, mid, loans, h, t, usage, occupancy);
    PlacedNewest(p, mid, h, t, stamps, now);
    PlacedContent(p, mid, h, t);
    hide Books;
    hide Placed;
    var after := Placed(p, mid, h, t);
    assert Carried(before[t], mid[t]);
    forall u: nat | u < |after| && u != t
      ensures Carried(before[u], after[u])
    {
      assert Carried(before[u], mid[u]);
    }
  }

  /** A key whose erasure failed had only pinned visible copies. */
  lemma PinnedWitness(before: seq<Slot>, mid: seq<Slot>, loans: seq<int>, k: Key) returns (u: nat)
    requires AllCarried(before, mid) && SlotsOk(mid, loans) && !NoneShows(mid, k)
    requires !exists t: nat :: t < |mid| && mid[t].ShowsKey(k) && mid[t].meta.refs == 0
    ensures u < |before| && before[u].ShowsKey(k) && before[u].meta.refs > 0
    ensures forall t: nat | t < |mid| && mid[t].ShowsKey(k) :: mid[t].meta.refs > 0
  {
    forall t: nat | t < |mid| && mid[t].ShowsKey(k) ensures mid[t].meta.refs > 0 {
      assert SlotOk(mid[t], loans[t]);
    }
    u :| u < |mid| && mid[u].ShowsKey(k);
    assert Carried(before[u], mid[u]) && SlotOk(mid[u], loans[u]);
  }

  lemma CarriedItself(slots: seq<Slot>)
    ensures AllCarried(slots, slots)
  {
  }

  /** A copy that was visible at first was pinned all along, or evicted. */
  ghost predicate AllPinned(a: seq<Slot>, b: seq<Slot>, k: Key) {
    && |a| == |b| && NoneShows(b, k)
    && (exists u: nat :: u < |a| && a[u].ShowsKey(k) && a[u].meta.refs > 0)
    && (forall u: nat | u < |a| && a[u].ShowsKey(k) :: a[u].meta.refs > 0 || !b[u].Resident())
  }

  /** An empty slot comes first on the path, or one visible copy can be erased. */
  ghost predicate Placeable(p: Probe, slots: seq<Slot>, k: Key) {
    EmptyFirst(p, slots, k) || exists u: nat :: u < |slots| && slots[u].ShowsKey(k) && slots[u].meta.refs == 0
  }

  lemma PinnedOrEvicted(before: seq<Slot>, swept: seq<Slot>, after: seq<Slot>, loans: seq<int>, k: Key)
    requires |before| == |swept| && (forall t: nat | t < |before| :: SlotSwept(before[t], swept[t], 0))
    requires SlotsOk(before, loans) && AllCarried(swept, after) && NoneShows(after, k)
    requires exists u: nat :: u < |before| && before[u].ShowsKey(k) && before[u].meta.refs > 0
    requires forall u: nat | u < |swept| && swept[u].ShowsKey(k) :: swept[u].meta.refs > 0
    ensures AllPinned(before, after, k)
  {
    forall u: nat | u < |before| && before[u].ShowsKey(k) ensures before[u].meta.refs > 0 || !after[u].Resident() {
      assert SlotSwept(before[u], swept[u], 0) && SlotOk(before[u], loans[u]);
      assert Carried(swept[u], after[u]);
    }
  }

  lemma TotalsNonNegative(p: Probe, slots: seq<Slot>)
    ensures 0 <= SlotTotal(p, Charges, slots) && 0 <= SlotTotal(p, Residents, slots)
  {
    SlotTotalNonNegative(p, Charges, slots);
    SlotTotalNonNegative(p, Residents, slots);
  }

  lemma SweepNothing(slots: seq<Slot>, loans: seq<int>)
    requires SlotsOk(slots, loans)
    ensures forall t: nat | t < |slots| :: SlotSwept(slots[t], slots[t], 0)
  {
    forall t: nat | t < |slots|
      ensures SlotSwept(slots[t], slots[t], 0)
    {
      assert SlotOk(slots[t], loans[t]);
    }
  }

  /** The sum of cooled hit counts that an eviction keeps in a local variable and passes by address. */
  class HitSum {
    var value: int

    constructor ()
      ensures value == 0
    {
      value := 0;
    }
  }

  /** The cache: the source's fields, and ghost fields for the probe order, the loans and the insertion times. */
  class ClockCache {
    const capacity: nat
    const length: nat
    const occupancyLimit: nat
    const hitDecrDeltaMin: int
    const slots: array<Slot>
    var clockPointer: nat
    var occupancy: int
    var usage: int
    var hitDecrDelta: int

    ghost const probe: Probe
    /** References handed out and not yet released, by slot. */
    ghost var loans: seq<int>
    /** When the entry of each slot was inserted. */
    ghost var stamps: seq<nat>
    ghost var now: nat

    ghost predicate Shape()
      reads this, slots
    {
      && slots.Length == length == |loans| == |stamps| == probe.length
      && Permutes(probe) && Follows(probe)
      && occupancyLimit < length
      && hitDecrDelta >= 1
    }

    ghost predicate Accounted(charge: int, places: int)
      reads this, slots
    {
      Shape() && Books(probe, slots[..], loans, usage, occupancy, charge, places)
    }

    /** The invariant of every operation. */
    ghost predicate Valid()
      reads this, slots
    {
      && Accounted(0, 0)
      && usage <= capacity
      && occupancy <= occupancyLimit
      && NewestFirst(probe, slots[..], stamps, now)
    }

    constructor (capacity: nat, length: nat, occupancyLimit: nat, hitDecrDeltaMin: int)
      requires IsPow2(length) && length <= WORD && occupancyLimit < length
      ensures Valid() && fresh(slots)
      ensures this.capacity == capacity && this.length == length && this.occupancyLimit == occupancyLimit && this.hitDecrDeltaMin == hitDecrDeltaMin
      ensures clockPointer == 0 && occupancy == 0 && usage == 0 && hitDecrDelta == 1
      ensures forall t | 0 <= t < length :: slots[t].meta == Vacant()
    {
      hide OddProbe;
      hide IsPow2;
      hide SlotTotal;
      this.capacity := capacity;
      this.length := length;
      this.occupancyLimit := occupancyLimit;
      this.hitDecrDeltaMin := hitDecrDeltaMin;
      slots := new Slot[length](_ => Slot(Vacant(), Handle(0, false, Key(0, 0), 0), 0));
      clockPointer, occupancy, usage, hitDecrDelta := 0, 0, 0, 1;
      probe := OddProbe(length);
      loans := seq(length, _ => 0);
      stamps := seq(length, _ => 0);
      now := 1;
      new;
      OddProbePermutes(length);
      FreshBooks(probe, slots[..], loans);
    }

    // ---- Rollback ----

    /** Takes one off the counter of every slot of the path of `k` before slot `t`. */
    method Rollback(k: Key, t: nat)
      requires Shape() && t < length
      modifies slots
      ensures slots[..] == Adjusted(probe, old(slots[..]), k, probe.index(k, t), -1)
    {
      hide First;
      hide Advance;
      hide Adjusted;
      ghost var before := slots[..];
      ghost var n := 0;
      var current := First(k, length);
      AdjustedNone(probe, before, k, -1);
      assert probe.at(k, probe.index(k, t)) == t;
      while current != t
        invariant n <= probe.index(k, t) < length && current == probe.at(k, n)
        invariant slots[..] == Adjusted(probe, before, k, n, -1)
        decreases probe.index(k, t) - n
      {
        AdjustedStep(probe, before, k, n, -1);
        slots[current] := slots[current].(displacements := slots[current].displacements - 1);
        current := Advance(current, k, length);
        n := n + 1;
      }
      assert probe.index(k, probe.at(k, n)) == n;
    }

    method FreeDataMarkEmpty(t: nat)
      requires t < slots.Length
      modifies slots
      ensures slots[..] == old(slots[..])[t := old(slots[t]).(meta := Vacant(), entry := old(slots[t]).entry.FreeData())]
    {
      slots[t] := slots[t].(entry := slots[t].entry.FreeData());
      slots[t] := slots[t].(meta := Vacant());
    }

    // ---- Lookup and Release ----

    /** One more hit, kept at or below the maximum. */
    method HitIncr(t: nat)
      requires t < slots.Length
      modifies slots
      ensures var m := old(slots[t]).meta;
              slots[..] == old(slots[..])[t := old(slots[t]).(meta := m.(hits := if m.hits < MAX_HIT_COUNT then m.hits + 1 else MAX_HIT_COUNT))]
    {
      var overflow := slots[t].meta.hits + 1 - MAX_HIT_COUNT;
      slots[t] := slots[t].(meta := AddHits(slots[t].meta, 1));
      if overflow > 0 {
        slots[t] := slots[t].(meta := AddHits(slots[t].meta, -overflow));
      }
    }

    /** The match function of Lookup on one slot. */
    method LookupAt(k: Key, t: nat) returns (hit: bool)
      requires t < slots.Length
      modifies slots
      ensures hit == old(slots[t]).ShowsKey(k)
      ensures var a, m := old(slots[t]), old(slots[t]).meta;
              slots[..] == old(slots[..])[t :=
                if hit then a.(meta := m.(refs := m.refs + 1, hits := if m.hits < MAX_HIT_COUNT then m.hits + 1 else MAX_HIT_COUNT))
                else if m.Shareable() then a
                else a.(meta := AddRefs(m, 1))]
    {
      var state := slots[t].meta.state;
      slots[t] := slots[t].(meta := AddRefs(slots[t].meta, 1));
      if state.Visible? {
        if slots[t].entry.key == k {
          HitIncr(t);
          return true;
        } else {
          slots[t] := slots[t].(meta := AddRefs(slots[t].meta, -1));
        }
      } else if state.Invisible? {
        slots[t] := slots[t].(meta := AddRefs(slots[t].meta, -1));
      }
      return false;
    }

    /**
     Finds `k` if and only if some slot shows it, although the search stops at a zero counter, and
     returns the newest visible copy. The copy gains a reference and a hit; the caller owns the
     reference until Release.
     */
    method Lookup(k: Key) returns (r: int)
      requires Valid()
      modifies slots, this`loans
      ensures Valid()
      ensures r < 0 <==> NoneShows(old(slots[..]), k)
      ensures r < 0 ==> loans == old(loans)
      ensures 0 <= r ==>
                && FirstShowing(probe, old(slots[..]), k, r)
                && (forall u: nat | u < length && old(slots[u]).ShowsKey(k) :: stamps[u] <= stamps[r])
                && loans == old(loans)[r := old(loans)[r] + 1]
                && slots[r].entry == old(slots[r].entry)
                && slots[r].meta == old(slots[r].meta).(refs := old(slots[r].meta.refs) + 1, hits := slots[r].meta.hits)
                && slots[r].meta.hits == if old(slots[r].meta.hits) < MAX_HIT_COUNT then old(slots[r].meta.hits) + 1 else MAX_HIT_COUNT
      ensures forall t: nat | t < length && t != r :: slots[t] == old(slots[t]) || slots[t] == Touched(old(slots[t]))
    {
      hide First;
      hide Advance;
      hide SlotTotal;
      hide TouchedTo;
      hide NewestFirst;
      hide FirstShowing;
      hide NoneShows;
      hide ShownBefore;
      ghost var before := slots[..];
      assert SlotsOk(before, loans);
      hide Books;
      ghost var n := 0;
      var current := First(k, length);
      TouchedNone(probe, before, k);
      while true
        invariant Shape() && n < length && current == probe.at(k, n) < length && loans == old(loans)
        invariant slots[..] == TouchedTo(probe, before, k, n)
        invariant !ShownBefore(probe, before, k, n, false)
        decreases length - n
      {
        TouchedStep(probe, before, k, n);
        ShownStep(probe, before, k, n, false);
        var hit := LookupAt(k, current);
        if hit {
          LookupFound(probe, before, loans, k, n, current, slots[current], usage, occupancy, stamps, now);
          loans := loans[current := loans[current] + 1];
          return current;
        }
        assert slots[..] == TouchedTo(probe, before, k, n + 1);
        BackAtStart(probe, k, n);
        if slots[current].displacements == 0 || Advance(current, k, length) == First(k, length) {
          LookupMissed(probe, before, loans, k, n, usage, occupancy, stamps, now);
          return -1;
        }
        current := Advance(current, k, length);
        n := n + 1;
      }
    }

    /** Gives back a reference obtained from Lookup. */
    method Release(t: nat)
      requires Valid() && t < length && loans[t] > 0
      modifies slots, this`loans
      ensures Valid()
      ensures loans == old(loans)[t := old(loans)[t] - 1]
      ensures slots[..] == old(slots[..])[t := old(slots[t]).(meta := AddRefs(old(slots[t]).meta, -1))]
    {
      hide NewestFirst;
      hide SlotTotal;
      ghost var before := slots[..];
      assert SlotOk(before[t], loans[t]);
      slots[t] := slots[t].(meta := AddRefs(slots[t].meta, -1));
      loans := loans[t := loans[t] - 1];
      SlotsOkUpdate(before, old(loans), t, slots[t], loans[t]);
      BooksRelabelled(probe, before, slots[..], old(loans), loans, usage, occupancy, 0, 0);
      NewestFirstKept(probe, before, slots[..], stamps, now);
    }

    // ---- Erase ----

    method ReclaimEntryUsage(charge: nat)
      modifies this`occupancy, this`usage
      ensures occupancy == old(occupancy) - 1 && usage == old(usage) - charge
    {
      occupancy := occupancy - 1;
      usage := usage - charge;
    }

    /** The match function of Erase on one slot. */
    method EraseAt(k: Key, t: nat) returns (found: bool, succ: bool)
      requires Shape() && t < length && SlotOk(slots[t], loans[t])
      modifies slots, this`occupancy, this`usage
      ensures slots[..] == ErasedAt(probe, old(slots[..]), k, t)
      ensures found == old(slots[t]).ShowsKey(k)
      ensures succ == (found && old(slots[t].meta.refs) == 0)
      ensures usage == old(usage) - (if succ then old(slots[t].entry.charge) else 0)
      ensures occupancy == old(occupancy) - (if succ then 1 else 0)
    {
      ghost var before := slots[..];
      found, succ := false, false;
      var state := slots[t].meta.state;
      slots[t] := slots[t].(meta := AddRefs(slots[t].meta, 1));
      if state.Visible? && slots[t].entry.key == k {
        found := true;
        var seen := Hide(slots[t].meta);
        slots[t] := slots[t].(meta := Hide(slots[t].meta));
        if seen.refs > 1 {
          slots[t] := slots[t].(meta := AddRefs(slots[t].meta, -1));
        } else {
          slots[t] := slots[t].(meta := Meta(0, 0, false, Construction));
          var totalCharge := slots[t].entry.charge;
          FreeDataMarkEmpty(t);
          ReclaimEntryUsage(totalCharge);
          Rollback(k, t);
          RollbackReclaims(probe, before, t);
          succ := true;
        }
      } else {
        slots[t] := slots[t].(meta := AddRefs(slots[t].meta, -1));
      }
    }

    /**
     Hides every visible copy of `k`, removing those without references. Succeeds if and only if
     there was no visible copy or at least one could be removed.
     */
    method Erase(k: Key, ghost charge: int := 0, ghost places: int := 0) returns (ok: bool)
      requires Accounted(charge, places) && NewestFirst(probe, slots[..], stamps, now)
      modifies slots, this`occupancy, this`usage
      ensures Accounted(charge, places) && NewestFirst(probe, slots[..], stamps, now)
      ensures usage <= old(usage) && occupancy <= old(occupancy)
      ensures old(Valid()) && charge == 0 && places == 0 ==> Valid()
      ensures forall t: nat | t < length :: SameContent(slots[t], AfterErase(k, old(slots[t])))
      ensures NoneShows(slots[..], k)
      ensures ok <==> NoneShows(old(slots[..]), k) || exists t: nat :: t < length && old(slots[t]).ShowsKey(k) && old(slots[t].meta.refs) == 0
    {
      hide First;
      hide Advance;
      hide SlotTotal;
      hide AfterErase;
      hide ErasedTo;
      hide ErasedAt;
      hide NewestFirst;
      hide NoneShows;
      hide ShownBefore;
      ghost var before := slots[..];
      ghost var n := 0;
      ErasedNone(probe, before, k);
      var found, succ := false, false;
      var current := First(k, length);
      while true
        invariant Accounted(charge, places) && n < length && current == probe.at(k, n) < length
        invariant usage <= old(usage) && occupancy <= old(occupancy)
        invariant ErasedTo(probe, before, slots[..], k, n)
        invariant found == ShownBefore(probe, before, k, n, false)
        invariant succ == ShownBefore(probe, before, k, n, true)
        decreases length - n
      {
        ShownStep(probe, before, k, n, false);
        ShownStep(probe, before, k, n, true);
        assert probe.index(k, current) == n;
        BooksErasedAt(probe, slots[..], loans, k, current, usage, occupancy, charge, places);
        ghost var here := slots[..];
        assert SlotOk(here[current], loans[current]);
        UntreatedSame(probe, before, here, k, n);
        var f, s := EraseAt(k, current);
        ErasedToStep(probe, before, here, k, n, slots[..]);
        found, succ := found || f, succ || s;
        BackAtStart(probe, k, n);
        if slots[current].displacements == 0 || Advance(current, k, length) == First(k, length) {
          break;
        }
        current := Advance(current, k, length);
        n := n + 1;
      }
      ok := succ || !found;
      assert slots[..][current].displacements == 0 || n + 1 == length;
      EraseEnds(probe, before, slots[..], k, n, stamps, now);
    }

    // ---- Placement ----

    /** Takes the slot if it is empty; reports a visible entry for the same key. */
    method TryInsert(h: Handle, t: nat) returns (inserted: bool, matches: bool)
      requires t < slots.Length
      modifies slots
      ensures inserted == old(slots[t]).meta.state.Empty? && matches == old(slots[t]).ShowsKey(h.key)
      ensures slots[..] == old(slots[..])[t := if inserted then Slot(Published(), h, old(slots[t]).displacements) else old(slots[t])]
    {
      matches := false;
      var state := slots[t].meta.state;
      slots[t] := slots[t].(meta := Occupy(slots[t].meta));
      if state.Empty? {
        slots[t] := slots[t].(entry := h);
        slots[t] := slots[t].(meta := Published());
        return true, false;
      } else if state.Visible? {
        slots[t] := slots[t].(meta := AddRefs(slots[t].meta, 1));
        matches := slots[t].entry.key == h.key;
        slots[t] := slots[t].(meta := AddRefs(slots[t].meta, -1));
      }
      inserted := false;
    }

    /**
     Places `h` in the first empty slot of its path unless a visible copy of its key comes before
     it; otherwise leaves the table as it was.
     */
    method DoInsert(h: Handle) returns (placed: int, matches: bool)
      requires Shape()
      modifies slots
      ensures 0 <= placed ==>
                && placed < length && !matches
                && old(slots[placed]).meta.state.Empty?
                && !ShownBefore(probe, old(slots[..]), h.key, probe.index(h.key, placed), false)
                && FullTo(probe, old(slots[..]), h.key, probe.index(h.key, placed))
                && slots[..] == Placed(probe, old(slots[..]), h, placed)
      ensures placed < 0 ==> slots[..] == old(slots[..])
      ensures placed < 0 && matches ==> !NoneShows(old(slots[..]), h.key)
      ensures placed < 0 && !matches ==> forall t: nat | t < length :: !old(slots[t]).meta.state.Empty?
      ensures 0 <= placed <==> EmptyFirst(probe, old(slots[..]), h.key)
    {
      hide First;
      hide Advance;
      hide Adjusted;
      hide ShownBefore;
      hide FullTo;
      ghost var before, k := slots[..], h.key;
      ghost var n := 0;
      PlacementStarts(probe, before, k);
      var current := First(h.key, length);
      while true
        invariant Shape() && n < length && current == probe.at(k, n) < length
        invariant slots[..] == Adjusted(probe, before, k, n, 1)
        invariant !ShownBefore(probe, before, k, n, false) && FullTo(probe, before, k, n)
        decreases length - n
      {
        assert probe.index(k, probe.at(k, n)) == n;
        AdjustedStep(probe, before, k, n, 1);
        ShownStep(probe, before, k, n, false);
        BackAtStart(probe, k, n);
        var inserted, m := TryInsert(h, current);
        if inserted {
          return current, false;
        }
        assert slots[..] == Adjusted(probe, before, k, n, 1);
        if m {
          assert before[current].ShowsKey(k);
          assert !NoneShows(before, k);
          Rollback(h.key, current);
          AdjustedBack(probe, before, k, n);
          CopyFirst(probe, before, k, n);
          return -1, true;
        }
        FullStep(probe, before, k, n);
        var h' := current;
        current := Advance(current, h.key, length);
        if current == First(h.key, length) {
          Rollback(h.key, h');
          AdjustedBack(probe, before, k, n);
          WholePath(probe, before, k);
          return -1, false;
        }
        slots[h'] := slots[h'].(displacements := slots[h'].displacements + 1);
        n := n + 1;
      }
    }

    // ---- Eviction ----

    /**
     The clock hand looks at one slot. `sum` is an address passed by value, and the new hit count
     goes to the address: `into` is how far it has moved, and the sum is not written.
     */
    method ClockUpdate(t: nat, data: EvictionData, sum: HitSum, delta: int) returns (took: bool, data': EvictionData, ghost moved: int)
      requires t < slots.Length
      modifies slots
      ensures moved == CooledHits(old(slots[t]), delta)
      ensures var a, m := old(slots[t]), old(slots[t]).meta;
              && took == (m.Shareable() && m.refs <= 0 && !(m.state.Visible? && m.hits > 0))
              && data' == SweptData(a, data)
              && slots[..] == old(slots[..])[t :=
                   if took then a.(meta := Meta(0, 0, m.hitBit, Construction))
                   else if m.state.Visible? && m.refs <= 0 then a.(meta := Meta(0, if m.hits > delta then m.hits - delta else 0, m.hitBit, Visible))
                   else a]
    {
      var m := slots[t].meta;
      var into := 0;
      if !m.Shareable() {
        return false, data, into;
      }
      if m.refs > 0 {
        return false, data.(seenPinned := data.seenPinned + 1), into;
      }
      if m.state.Visible? && m.hits > 0 {
        var hits := if m.hits - delta > 0 then m.hits - delta else 0;
        slots[t] := slots[t].(meta := Meta(0, hits, m.hitBit, Visible));
        into := into + hits;
        return false, data, into;
      }
      slots[t] := slots[t].(meta := Meta(0, 0, m.hitBit, Construction));
      return true, data.(freedCharge := data.freedCharge + slots[t].entry.charge, freedCount := data.freedCount + 1), into;
    }

    /** One slot of an eviction round: an entry taken by the hand is rolled back, freed and its slot emptied. */
    method EvictSlot(t: nat, data: EvictionData, sum: HitSum, delta: int) returns (data': EvictionData)
      requires Shape() && t < length && SlotOk(slots[t], loans[t]) && delta >= 1
      modifies slots
      ensures slots[..] == Swept(probe, old(slots[..]), t, delta)
      ensures data' == SweptData(old(slots[t]), data)
    {
      ghost var before := slots[..];
      var took;
      ghost var moved;
      took, data', moved := ClockUpdate(t, data, sum, delta);
      if took {
        Rollback(slots[t].entry.key, t);
        FreeDataMarkEmpty(t);
        EvictedIsReclaimed(probe, before, t);
      }
    }

    /** One round of the clock hand, over the four slots from position `at` on. */
    method EvictRound(at: nat, data0: EvictionData, sum: HitSum, delta: int, ghost before: seq<Slot>, ghost start: nat, ghost offset: nat) returns (data: EvictionData)
      requires Shape() && delta >= 1 && start <= at && SlotsOk(before, loans)
      requires Sweeping(probe, before, slots[..], start, at, data0)
      modifies slots
      ensures Sweeping(probe, before, slots[..], start, at + STEP_SIZE, data)
      ensures Sweep(slots[..], data, 0, delta, at, offset) == Passed(probe, Sweep(old(slots[..]), data0, 0, delta, at, offset), STEP_SIZE, false)
      ensures data0.freedCount <= data.freedCount && data.seenPinned <= data0.seenPinned + STEP_SIZE
    {
      hide SlotTotal;
      hide Swept;
      hide SweptData;
      hide Sweeping, Passed;
      data := data0;
      ghost var begun := Sweep(slots[..], data, 0, delta, at, offset);
      PassedNone(probe, begun, false);
      var i := 0;
      while i < STEP_SIZE
        invariant 0 <= i <= STEP_SIZE
        invariant Sweeping(probe, before, slots[..], start, at + i, data)
        invariant Sweep(slots[..], data, 0, delta, at, offset) == Passed(probe, begun, i, false)
        invariant data0.freedCount <= data.freedCount && data.seenPinned <= data0.seenPinned + i
      {
        ghost var here := slots[..];
        var t := (at + i) % length;
        SweepingSlotOk(probe, before, here, loans, start, at + i, data, t);
        SweepingStep(probe, before, here, start, at + i, t, data, delta);
        PassedLast(probe, begun, i + 1, false);
        SweptDataGrows(here[t], data);
        data := EvictSlot(t, data, sum, delta);
        i := i + 1;
      }
    }

    /**
     Sweeps the clock hand until enough charge is freed, three turns are done, or too many pinned
     entries have been met for what was freed.

     The decrement of hit counters is drawn from a sum that ClockUpdate never writes, so from the
     5000th position on it is 1 or the configured minimum, and before that the one left by the last
     eviction.
     */
    method Evict(requested: int) returns (data: EvictionData)
      requires Shape() && requested > 0
      requires IndexOk(probe, slots[..]) && SlotsOk(slots[..], loans) && NewestFirst(probe, slots[..], stamps, now)
      modifies slots, this`clockPointer, this`hitDecrDelta
      ensures Shape()
      ensures IndexOk(probe, slots[..]) && SlotsOk(slots[..], loans) && NewestFirst(probe, slots[..], stamps, now)
      ensures data.freedCharge == SlotTotal(probe, Charges, old(slots[..])) - SlotTotal(probe, Charges, slots[..])
      ensures data.freedCount == SlotTotal(probe, Residents, old(slots[..])) - SlotTotal(probe, Residents, slots[..])
      ensures data.freedCount == 0 ==> data.freedCharge == 0
      ensures forall t: nat | t < length :: SlotSwept(old(slots[t]), slots[t], 0)
      ensures data.seenPinned < EFFORT_CAP * (data.freedCount + 1) + STEP_SIZE
      ensures old(clockPointer) < clockPointer <= old(clockPointer) + STEP_SIZE * ((MAX_COUNTDOWN * length + 3) / STEP_SIZE + 1)
      ensures data.freedCharge < requested && !data.EffortExceeded() ==> clockPointer - STEP_SIZE >= old(clockPointer) + MAX_COUNTDOWN * length
      ensures AllHot(old(slots[..])) ==> clockPointer > old(clockPointer) + length
      ensures hitDecrDelta == StoredDelta(clockPointer - old(clockPointer), old(hitDecrDelta), hitDecrDeltaMin)
      ensures var e := EvictionOf(probe, old(slots[..]), old(clockPointer), old(hitDecrDelta), requested, hitDecrDeltaMin, false);
              slots[..] == e.slots && data == e.data && clockPointer == e.at + STEP_SIZE && hitDecrDelta == e.delta
      ensures EndsFirst(probe, old(slots[..]), old(clockPointer), old(hitDecrDelta), hitDecrDeltaMin, requested, slots[..], clockPointer)
      ensures data.seenPinned == PinnedVisits(old(slots[..]), old(clockPointer), clockPointer)
      ensures clockPointer - STEP_SIZE >= old(clockPointer) + MAX_COUNTDOWN * length ==>
                forall t: nat | t < length && old(slots[t]).Resident() && old(slots[t].meta.refs) == 0 && old(slots[t].meta.hits) <= 2 ::
                  Gone(old(slots[t]), slots[t])
    {
      hide SlotTotal;
      hide Swept;
      hide SweptData;
      hide Sweeping;
      hide NewestFirst, IndexOk, SlotsOk, SlotSwept, Gone, Permutes, Follows, AllHot, EvictionFrom, Passed, StoredDelta, EndsFirst, PinnedVisits;
      ghost var before, start, rounds: nat := slots[..], clockPointer, 0;
      data := EvictionData(0, 0, 0);
      var at := clockPointer;
      clockPointer := clockPointer + STEP_SIZE;
      var max := at + MAX_COUNTDOWN * length;
      var offset, delta := 0, hitDecrDelta;
      var sum := new HitSum();
      SweepingStarts(probe, before, loans, start);
      while true
        invariant Shape() && delta >= 1
        invariant at == start + STEP_SIZE * rounds && clockPointer == at + STEP_SIZE && max == start + MAX_COUNTDOWN * length
        invariant at < max + STEP_SIZE && 0 <= offset
        invariant Sweeping(probe, before, slots[..], start, at, data)
        invariant EvictionFrom(probe, Sweep(slots[..], data, 0, delta, at, offset), requested, max, hitDecrDeltaMin, false)
               == EvictionOf(probe, before, start, old(hitDecrDelta), requested, hitDecrDeltaMin, false)
        invariant data.seenPinned < EFFORT_CAP * (data.freedCount + 1)
        invariant fresh(sum) && sum.value == 0 && offset == at - start && hitDecrDelta == old(hitDecrDelta)
        decreases max + STEP_SIZE - at
      {
        ghost var here := Sweep(slots[..], data, 0, delta, at, offset);
        data := EvictRound(at, data, sum, delta, before, start, offset);
        PlainRound(probe, here, Sweep(slots[..], data, 0, delta, at, offset), requested, max, hitDecrDeltaMin);
        if at >= max {
          ClockBoundEvicts(probe, before, slots[..], start, at + STEP_SIZE, data);
        }
        FirstTurnFrees(probe, before, slots[..], start, at + STEP_SIZE, data);
        if data.freedCharge >= requested {
          break;
        }
        if at >= max {
          break;
        }
        if data.EffortExceeded() {
          break;
        }
        at := clockPointer;
        rounds := rounds + 1;
        clockPointer := clockPointer + STEP_SIZE;
        offset := offset + STEP_SIZE;
        if offset + STEP_SIZE >= DECR_HIT_PER_ENTRY_COUNT {
          assert sum.value == 0;
          delta := DeltaFor(sum.value, hitDecrDeltaMin);
          sum.value := 0;
        }
      }
      hitDecrDelta := delta;
      StoredIsPlain(probe, before, start, old(hitDecrDelta), requested, hitDecrDeltaMin);
      EvictionEnds(probe, before, start, old(hitDecrDelta), requested, hitDecrDeltaMin);
      SweepingEnds(probe, before, slots[..], loans, start, at + STEP_SIZE, data, stamps, now);
      SweepingTotals(probe, before, slots[..], start, at + STEP_SIZE, data);
    }

    /** An eviction of `requested` from the table `before` has left `after`, the clock hand and the decrement as they are. */
    ghost predicate Evicted(before: seq<Slot>, clock: nat, delta: int, requested: int, after: seq<Slot>)
      reads this`clockPointer, this`hitDecrDelta
    {
      |before| > 0 &&
      var e := EvictionOf(probe, before, clock, delta, requested, hitDecrDeltaMin, false);
      && after == e.slots && clockPointer == e.at + STEP_SIZE && hitDecrDelta == e.delta
      && EndsFirst(probe, before, clock, delta, hitDecrDeltaMin, requested, after, clockPointer)
    }

    /**
     Reserves `charge` units of usage, evicting if they or the place they need do not fit. On
     success the reservation is in place; on failure what did not fit still does not fit, and
     nothing stays reserved.
     */
    method EvictForCharge(charge: nat, crowded: bool) returns (ok: bool)
      requires Accounted(0, 1) && usage <= capacity && NewestFirst(probe, slots[..], stamps, now)
      modifies slots, this`clockPointer, this`hitDecrDelta, this`usage, this`occupancy
      ensures Accounted(if ok then charge else 0, 1) && NewestFirst(probe, slots[..], stamps, now)
      ensures usage <= capacity && occupancy <= old(occupancy)
      ensures forall t: nat | t < length :: SlotSwept(old(slots[t]), slots[t], 0)
      ensures ok <==> SlotTotal(probe, Charges, slots[..]) + charge <= capacity && (crowded ==> occupancy < old(occupancy))
      ensures !crowded && old(usage) + charge <= capacity ==> ok && slots[..] == old(slots[..]) && clockPointer == old(clockPointer)
      ensures crowded || old(usage) + charge > capacity ==> AllHot(old(slots[..])) ==> clockPointer > old(clockPointer) + length
      ensures crowded || old(usage) + charge > capacity ==>
        Evicted(old(slots[..]), old(clockPointer), old(hitDecrDelta), if old(usage) + charge > capacity then old(usage) + charge - capacity else 1, slots[..])
      ensures hitDecrDelta == StoredDelta(clockPointer - old(clockPointer), old(hitDecrDelta), hitDecrDeltaMin)
    {
      hide SlotTotal;
      hide NewestFirst;
      hide IndexOk, SlotsOk, SlotSwept, AllHot, EvictionOf, EndsFirst;
      ghost var before := slots[..];
      TotalsNonNegative(probe, before);
      var oldUsage := usage;
      var newUsage := if capacity < oldUsage + charge then capacity else oldUsage + charge;
      usage := newUsage;
      var need := oldUsage + charge - newUsage;
      var request := if crowded && need == 0 then 1 else need;
      if request > 0 {
        var data := Evict(request);
        TotalsNonNegative(probe, slots[..]);
        occupancy := occupancy - data.freedCount;
        if data.freedCharge > need {
          assert data.freedCount > 0;
          usage := usage - (data.freedCharge - need);
        } else if data.freedCharge < need || (crowded && data.freedCount == 0) {
          usage := usage - (data.freedCharge + (newUsage - oldUsage));
          return false;
        }
        assert data.freedCount > 0;
      } else {
        SweepNothing(before, loans);
      }
      return true;
    }

    // ---- Insert ----

    /** The two placement attempts of Insert, with charge and place reserved. */
    method InsertReserved(h: Handle, ghost before: seq<Slot>) returns (ok: bool)
      requires Accounted(h.charge, 1) && NewestFirst(probe, slots[..], stamps, now)
      requires occupancy <= occupancyLimit && AllCarried(before, slots[..])
      modifies slots, this`usage, this`occupancy, this`stamps, this`now
      ensures Accounted(if ok then 0 else h.charge, if ok then 0 else 1) && NewestFirst(probe, slots[..], stamps, now)
      ensures usage <= old(usage) && occupancy <= old(occupancy)
      ensures ok ==> exists t: nat :: InsertedAt(probe, before, slots[..], stamps, old(now), h, t)
      ensures !ok ==> AllCarried(before, slots[..]) && NoneShows(slots[..], h.key)
      ensures !ok ==> exists u: nat :: u < |before| && before[u].ShowsKey(h.key) && before[u].meta.refs > 0
      ensures !ok ==> AllCarried(old(slots[..]), slots[..])
      ensures !ok ==> forall u: nat | u < length && old(slots[u]).ShowsKey(h.key) :: old(slots[u].meta.refs) > 0
      ensures ok <==> Placeable(probe, old(slots[..]), h.key)
      ensures FirstTaken(probe, old(slots[..]), slots[..], h, ok)
    {
      hide SlotTotal;
      hide NewestFirst;
      hide AllCarried;
      hide Placed;
      hide NoneShows;
      hide AfterErase;
      hide InsertedAt;
      hide ShownBefore;
      hide FullTo;
      hide IndexOk;
      hide SlotsOk;
      ghost var swept := slots[..];
      RoomForOne(probe, swept, loans, usage, occupancy, h.charge);
      var placed, matches := DoInsert(h);
      if swept[probe.at(h.key, 0)].meta.state.Empty? {
        FirstIsEmpty(probe, swept, h.key);
        PlacedFirst(probe, swept, h.key, placed);
      }
      hide Permutes, Follows, EmptyFirst;
      if 0 <= placed {
        InsertPlaced(probe, before, swept, loans, stamps, now, h, placed, usage, occupancy);
        stamps, now := stamps[placed := now], now + 1;
        return true;
      }
      if matches {
        var erased := Erase(h.key, h.charge, 1);
        ghost var mid := slots[..];
        ErasedCarried(before, swept, mid, loans, h.key);
        if erased {
          RoomForOne(probe, mid, loans, usage, occupancy, h.charge);
          placed, matches := DoInsert(h);
          if 0 <= placed {
            InsertPlaced(probe, before, mid, loans, stamps, now, h, placed, usage, occupancy);
            stamps, now := stamps[placed := now], now + 1;
            return true;
          }
        } else {
          CarriedItself(swept);
          ErasedCarried(swept, swept, mid, loans, h.key);
          ghost var u := PinnedWitness(before, swept, loans, h.key);
        }
      }
      return false;
    }

    /**
     On success `h` is the newest copy of its key and the first one a lookup meets. On failure
     either it does not fit after eviction, or every visible copy of its key was pinned, unless
     evicted, and is hidden now. Either way entries on loan stay where they are. `swept` is the table
     the eviction left; on it success is decided: the entry fits, and it can be placed.
     */
    method Insert(h: Handle) returns (ok: bool, ghost swept: seq<Slot>)
      requires Valid()
      modifies slots, this`clockPointer, this`hitDecrDelta, this`usage, this`occupancy, this`stamps, this`now
      ensures Valid()
      ensures ok ==> exists t: nat :: InsertedAt(probe, old(slots[..]), slots[..], stamps, old(now), h, t)
      ensures !ok ==> AllCarried(old(slots[..]), slots[..])
      ensures !ok ==>
        || usage + h.charge > capacity
        || occupancy + 1 > occupancyLimit
        || AllPinned(old(slots[..]), slots[..], h.key)
      ensures |swept| == length && forall t: nat | t < length :: SlotSwept(old(slots[t]), swept[t], 0)
      ensures ok <==>
        && SlotTotal(probe, Charges, swept) + h.charge <= capacity
        && (old(occupancy) + 1 > occupancyLimit ==> SlotTotal(probe, Residents, swept) < old(occupancy))
        && Placeable(probe, swept, h.key)
      ensures old(occupancy) + 1 <= occupancyLimit && old(usage) + h.charge <= capacity ==>
        swept == old(slots[..]) && clockPointer == old(clockPointer) && FirstTaken(probe, swept, slots[..], h, ok)
      ensures old(occupancy) + 1 > occupancyLimit || old(usage) + h.charge > capacity ==>
        AllHot(old(slots[..])) ==> clockPointer > old(clockPointer) + length
      ensures old(occupancy) + 1 > occupancyLimit || old(usage) + h.charge > capacity ==>
        Evicted(old(slots[..]), old(clockPointer), old(hitDecrDelta), if old(usage) + h.charge > capacity then old(usage) + h.charge - capacity else 1, swept)
      ensures hitDecrDelta == StoredDelta(clockPointer - old(clockPointer), old(hitDecrDelta), hitDecrDeltaMin)
    {
      hide SlotTotal, EvictionOf, Evicted, AllHot, AllPinned, FirstTaken, Permutes, Follows, Placeable;
      hide NewestFirst;
      hide SlotSwept;
      hide AllCarried;
      hide Placed;
      hide NoneShows;
      hide AfterErase;
      hide InsertedAt;
      hide ShownBefore;
      hide FullTo;
      hide IndexOk;
      hide SlotsOk;
      ghost var before := slots[..];
      TotalsNonNegative(probe, before);
      var oldOccupancy := occupancy;
      occupancy := occupancy + 1;
      var fits := EvictForCharge(h.charge, oldOccupancy + 1 > occupancyLimit);
      swept := slots[..];
      SweptCarried(before, swept, loans);
      if !fits {
        occupancy := occupancy - 1;
        return false, swept;
      }
      ok := InsertReserved(h, before);
      if ok {
        return true, swept;
      }
      PinnedOrEvicted(before, swept, slots[..], loans, h.key);
      occupancy := occupancy - 1;
      usage := usage - h.charge;
      return false, swept;
    }

    /** A successful insertion is what the next lookup of its key returns. */
    method InsertThenLookup(h: Handle) returns (ok: bool, r: int)
      requires Valid()
      modifies slots, this
      ensures Valid()
      ensures ok ==> 0 <= r < length && slots[r].entry == h && loans[r] == slots[r].meta.refs == 1
    {
      hide SlotTotal;
      hide NewestFirst;
      hide IndexOk;
      hide FirstShowing;
      hide InsertedAt;
      ghost var before, moment := slots[..], now;
      ghost var swept;
      ok, swept := Insert(h);
      ghost var after := slots[..];
      assert SlotsOk(after, loans);
      r := Lookup(h.key);
      if ok {
        ghost var t: nat :| InsertedAt(probe, before, after, stamps, moment, h, t);
        InsertedIsFound(probe, before, after, old(loans), stamps, moment, h, t, r);
      }
    }

    // ---- Tear-down ----

    /**
     Frees every entry and unwinds its accounts. From any table at rest without references on loan
     this brings every displacement counter, `usage` and `occupancy` to zero.
     */
    method Destroy()
      requires Shape() && Settled(probe, slots[..], loans, usage, occupancy)
      requires forall t: nat | t < length :: loans[t] == 0
      modifies slots, this`usage, this`occupancy
      ensures forall t: nat | t < length :: slots[t].displacements == 0
      ensures usage == 0 && occupancy == 0
      ensures forall t: nat | t < length && old(slots[t]).Resident() :: slots[t].entry == old(slots[t]).entry.FreeData()
    {
      hide SlotTotal;
      hide Masked;
      ghost var before := slots[..];
      MaskedNone(probe, before, loans, usage, occupancy);
      for i := 0 to length
        invariant Shape()
        invariant IndexOk(probe, Masked(slots[..], i))
        invariant usage == SlotTotal(probe, Charges, Masked(slots[..], i))
        invariant occupancy == SlotTotal(probe, Residents, Masked(slots[..], i))
        invariant forall t: nat | t < length :: slots[t].meta == before[t].meta
        invariant forall t: nat | t < length :: slots[t].entry == if t < i && before[t].Resident() then before[t].entry.FreeData() else before[t].entry
      {
        ghost var here := slots[..];
        if slots[i].meta.Shareable() {
          assert SlotAtRest(before[i], loans[i]);
          assert slots[i].meta.refs == 0;
          slots[i] := slots[i].(entry := slots[i].entry.FreeData());
          Rollback(slots[i].entry.key, i);
          ReclaimEntryUsage(slots[i].entry.charge);
          MaskedReclaims(probe, here, i);
          ReclaimKeepsIndex(probe, Masked(here, i), i);
          ReclaimTotal(probe, Charges, Masked(here, i), i);
          ReclaimTotal(probe, Residents, Masked(here, i), i);
          UnwoundContent(probe, here, i);
        } else {
          assert SlotAtRest(before[i], loans[i]);
          MaskedSkips(probe, here, i);
        }
      }
      MaskedAll(probe, slots[..]);
    }
  }

  lemma InsertedIsFound(p: Probe, before: seq<Slot>, after: seq<Slot>, loans: seq<int>, stamps: seq<nat>, now: nat, h: Handle, t: nat, r: int)
    requires Permutes(p) && |after| == p.length && SlotsOk(after, loans)
    requires InsertedAt(p, before, after, stamps, now, h, t)
    requires if r < 0 then NoneShows(after, h.key) else FirstShowing(p, after, h.key, r)
    ensures r == t && t < |after| && after[t].entry == h && after[t].meta.refs == loans[t] == 0
  {
    assert after[t].ShowsKey(h.key);
    FirstShowingUnique(p, after, h.key, t, r);
    assert SlotOk(after[t], loans[t]);
  }

  lemma FirstShowingUnique(p: Probe, slots: seq<Slot>, k: Key, t: nat, u: nat)
    requires Permutes(p) && |slots| == p.length && FirstShowing(p, slots, k, t) && FirstShowing(p, slots, k, u)
    ensures t == u
  {
    assert p.at(k, p.index(k, t)) == t && p.at(k, p.index(k, u)) == u;
  }

  /** The table as if the first `i` slots had been emptied. */
  ghost function Masked(slots: seq<Slot>, i: nat): (r: seq<Slot>)
    ensures |r| == |slots|
  {
    seq(|slots|, t requires 0 <= t < |slots| => if t < i then slots[t].(meta := Vacant()) else slots[t])
  }

  lemma MaskedNone(p: Probe, slots: seq<Slot>, loans: seq<int>, usage: int, occupancy: int)
    requires Permutes(p) && Settled(p, slots, loans, usage, occupancy)
    ensures Masked(slots, 0) == slots && IndexOk(p, slots)
  {
  }

  /** The slot array after the destructor has treated entry `i`: freed and rolled back, its word kept. */
  ghost function Unwound(p: Probe, slots: seq<Slot>, i: nat): (r: seq<Slot>)
    requires i < |slots|
    ensures |r| == |slots|
  {
    var x := slots[i].(entry := slots[i].entry.FreeData());
    Adjusted(p, slots[i := x], x.entry.key, p.index(x.entry.key, i), -1)
  }

  lemma UnwoundContent(p: Probe, slots: seq<Slot>, i: nat)
    requires i < |slots|
    ensures forall t: nat | t < |slots| ::
      Unwound(p, slots, i)[t].meta == slots[t].meta
      && Unwound(p, slots, i)[t].entry == if t == i then slots[t].entry.FreeData() else slots[t].entry
  {
  }

  lemma MaskedReclaims(p: Probe, slots: seq<Slot>, i: nat)
    requires Permutes(p) && i < |slots| && slots[i].Resident()
    ensures Masked(slots, i)[i] == slots[i]
    ensures Masked(Unwound(p, slots, i), i + 1) == Reclaimed(p, Masked(slots, i), i)
  {
    var a, b := Masked(Unwound(p, slots, i), i + 1), Reclaimed(p, Masked(slots, i), i);
    forall t: nat | t < |slots|
      ensures a[t] == b[t]
    {
    }
  }

  lemma MaskedSkips(p: Probe, slots: seq<Slot>, i: nat)
    requires IndexOk(p, Masked(slots, i)) && i < |slots| && !slots[i].Resident()
    ensures IndexOk(p, Masked(slots, i + 1))
    ensures SlotTotal(p, Charges, Masked(slots, i + 1)) == SlotTotal(p, Charges, Masked(slots, i))
    ensures SlotTotal(p, Residents, Masked(slots, i + 1)) == SlotTotal(p, Residents, Masked(slots, i))
  {
    hide IndexOk;
    hide SlotTotal;
    forall t | 0 <= t < |slots|
      ensures SameResident(Masked(slots, i)[t], Masked(slots, i + 1)[t])
      ensures Masked(slots, i)[t].displacements == Masked(slots, i + 1)[t].displacements
    {
    }
    hide Masked;
    RelabelKeepsIndex(p, Masked(slots, i), Masked(slots, i + 1));
    SameResidentsSameTotal(p, Charges, Masked(slots, i), Masked(slots, i + 1));
    SameResidentsSameTotal(p, Residents, Masked(slots, i), Masked(slots, i + 1));
  }

  lemma MaskedAll(p: Probe, slots: seq<Slot>)
    requires IndexOk(p, Masked(slots, |slots|))
    ensures forall t: nat | t < |slots| :: slots[t].displacements == 0
    ensures SlotTotal(p, Charges, Masked(slots, |slots|)) == 0 && SlotTotal(p, Residents, Masked(slots, |slots|)) == 0
  {
    var m := Masked(slots, |slots|);
    forall q: Query
      ensures SlotTotal(p, q, m) == 0
    {
      SlotTotalEmpty(p, q, m);
    }
    hide SlotTotal;
    forall t: nat | t < |slots|
      ensures slots[t].displacements == 0
    {
      assert m[t].displacements == SlotTotal(p, Passing(t), m);
    }
  }

  lemma SweepingSlotOk(p: Probe, before: seq<Slot>, slots: seq<Slot>, loans: seq<int>, from: nat, pos: nat, d: EvictionData, t: nat)
    requires p.length > 0 && Sweeping(p, before, slots, from, pos, d) && SlotsOk(before, loans) && t < |slots|
    ensures SlotOk(slots[t], loans[t])
  {
    hide SlotTotal;
    hide Visits;
    assert SlotOk(before[t], loans[t]);
    assert SlotSwept(before[t], slots[t], Visits(from, pos, p.length, t));
    SweptSlotOk(before[t], slots[t], Visits(from, pos, p.length, t), loans[t]);
  }

  lemma SweptDataGrows(a: Slot, d: EvictionData)
    ensures SweptData(a, d).freedCount >= d.freedCount && SweptData(a, d).seenPinned <= d.seenPinned + 1
  {
  }

  lemma ClockBoundEvicts(p: Probe, before: seq<Slot>, slots: seq<Slot>, from: nat, pos: nat, d: EvictionData)
    requires p.length > 0 && Sweeping(p, before, slots, from, pos, d) && from + 3 * p.length <= pos && |before| == |slots| == p.length
    ensures forall t: nat | t < |slots| && before[t].Resident() && before[t].meta.refs <= 0 && before[t].meta.hits <= 2 :: Gone(before[t], slots[t])
  {
    hide Sweeping;
    forall t: nat | t < |slots| && before[t].Resident() && before[t].meta.refs <= 0 && before[t].meta.hits <= 2
      ensures Gone(before[t], slots[t])
    {
      ThreeTurnsEvict(p, before, slots, from, pos, d, t);
    }
  }

  lemma SweepingTotals(p: Probe, before: seq<Slot>, slots: seq<Slot>, from: nat, pos: nat, d: EvictionData)
    requires p.length > 0 && Sweeping(p, before, slots, from, pos, d)
    ensures IndexOk(p, slots)
    ensures d.freedCharge == SlotTotal(p, Charges, before) - SlotTotal(p, Charges, slots)
    ensures d.freedCount == SlotTotal(p, Residents, before) - SlotTotal(p, Residents, slots)
    ensures d.freedCount == 0 ==> d.freedCharge == 0
  {
  }

  /** A first turn over a table of hot entries gives no reason to stop. */
  lemma FirstTurnFrees(p: Probe, before: seq<Slot>, slots: seq<Slot>, from: nat, pos: nat, d: EvictionData)
    requires p.length > 0 && Sweeping(p, before, slots, from, pos, d) && |slots| == p.length
    ensures AllHot(before) && pos <= from + p.length ==> d.freedCharge == 0 && !d.EffortExceeded()
  {
  }

  lemma EvictedIsReclaimed(p: Probe, slots: seq<Slot>, t: nat)
    requires Permutes(p) && t < |slots|
    ensures var m := slots[t].meta;
            var k := slots[t].entry.key;
            var r := Adjusted(p, slots[t := slots[t].(meta := Meta(0, 0, m.hitBit, Construction))], k, p.index(k, t), -1);
            r[t := r[t].(meta := Vacant(), entry := r[t].entry.FreeData())] == Reclaimed(p, slots, t)
  {
  }
}
