/**
 With 58 threads or more there is a run in which lookups take back so much that the hit counter falls
 below zero; together with `ClockHits` this is the exact number of threads.
 */
module ClockHitRuns {
  import opened Sums
  import opened Walk
  import opened MetaWord
  import opened ClockTable
  import opened ClockMachine
  import opened ClockLedger
  import opened ClockSafety
  import opened HitExcess
  import ClockHits

  // ---- Putting clean runs together ----

  lemma {:induction false} CleanAppend(c: Config, w: World, a: seq<Move>, b: seq<Move>)
    requires Shape(c, w) && CleanRun(c, w, a) && CleanRun(c, Run(c, w, a), b)
    ensures CleanRun(c, w, a + b) && Run(c, w, a + b) == Run(c, Run(c, w, a), b)
  {
    hide CleanRun, CleanStep, Step;
    if b == [] {
      assert a + b == a;
    } else {
      var n := |b| - 1;
      CleanPrefix(c, Run(c, w, a), b, n);
      CleanAppend(c, w, a, b[..n]);
      LastIsClean(c, Run(c, w, a), b);
      CleanExtend(c, w, a + b[..n], b[n]);
      assert a + b[..n] + [b[n]] == a + b;
    }
  }

  lemma LastIsClean(c: Config, w: World, b: seq<Move>)
    requires Shape(c, w) && CleanRun(c, w, b) && b != []
    ensures var n := |b| - 1; CleanStep(c, Run(c, w, b[..n]), b[n].id, b[n].ch)
  {
    hide CleanStep;
  }

  ghost function Go(id: nat): Move {
    Move(id, Choice(Rest, false, 0))
  }

  // ---- One lookup ----

  /** The first probe of `k` is slot 0, which shows `k`. */
  ghost predicate Hot(c: Config, w: World, k: Key) {
    Shape(c, w) && c.probe.at(k, 0) == 0 && 0 < c.probe.length && w.slots[0].ShowsKey(k)
  }

  /** After a lookup of `k` by thread `id`, up to its excess if it has one. */
  ghost function Hit(w: World, id: nat, k: Key): World
    requires 0 < |w.slots| == |w.loans| && id < |w.threads|
  {
    var m, over := w.slots[0].meta, w.slots[0].meta.hits + 1 - MAX_HIT_COUNT;
    w.(slots := w.slots[0 := w.slots[0].(meta := m.(refs := m.refs + 1, hits := m.hits + 1))],
       loans := if over > 0 then w.loans else w.loans[0 := w.loans[0] + 1],
       threads := w.threads[id := if over > 0 then Looking(k, 0, LookupHitFix(over)) else Done(Found(0))])
  }

  ghost function HitMoves(id: nat, k: Key): seq<Move> {
    [Move(id, Choice(StartLookup(k), false, 0)), Go(id), Go(id), Go(id)]
  }

  ghost function Counted(w: World, id: nat, look: LookupPhase, k: Key): World
    requires 0 < |w.slots| && id < |w.threads|
  {
    w.(slots := w.slots[0 := w.slots[0].(meta := AddRefs(w.slots[0].meta, 1))], threads := w.threads[id := Looking(k, 0, look)])
  }

  lemma {:induction false} FirstHitSteps(c: Config, w: World, id: nat, k: Key)
    requires Hot(c, w, k) && id < |w.threads| && w.threads[id].Done?
    ensures var w1 := w.(threads := w.threads[id := Looking(k, 0, LookupIncr)]);
            && Step(c, w, id, HitMoves(id, k)[0].ch) == w1
            && Step(c, w1, id, Go(id).ch) == Counted(w, id, LookupCompare, k)
  {
    assert w.slots[0 := w.slots[0]] == w.slots && w.loans[0 := w.loans[0]] == w.loans;
  }

  lemma {:induction false} LastHitSteps(c: Config, w: World, id: nat, k: Key)
    requires Hot(c, w, k) && id < |w.threads| && w.threads[id].Done?
    ensures Step(c, Counted(w, id, LookupCompare, k), id, Go(id).ch) == Counted(w, id, LookupHit, k)
    ensures Step(c, Counted(w, id, LookupHit, k), id, Go(id).ch) == Hit(w, id, k)
  {
    assert w.slots[0 := w.slots[0]] == w.slots && w.loans[0 := w.loans[0]] == w.loans;
  }

  lemma HuntersOnly(c: Config, w: World, id: nat, ch: Choice)
    requires Shape(c, w) && id < |w.threads| && !w.threads[id].Hunting?
    ensures CleanStep(c, w, id, ch)
  {
  }

  lemma {:induction false} OneHit(c: Config, w: World, id: nat, k: Key)
    requires Hot(c, w, k) && id < |w.threads| && w.threads[id].Done?
    ensures CleanRun(c, w, HitMoves(id, k)) && Run(c, w, HitMoves(id, k)) == Hit(w, id, k)
    ensures Hot(c, Hit(w, id, k), k)
  {
    var ms := HitMoves(id, k);
    var w1 := w.(threads := w.threads[id := Looking(k, 0, LookupIncr)]);
    FirstHitSteps(c, w, id, k);
    LastHitSteps(c, w, id, k);
    HuntersOnly(c, w, id, ms[0].ch);
    HuntersOnly(c, w1, id, ms[1].ch);
    HuntersOnly(c, Counted(w, id, LookupCompare, k), id, ms[2].ch);
    HuntersOnly(c, Counted(w, id, LookupHit, k), id, ms[3].ch);
    hide CleanStep, Step, CleanRun, Hit, Counted;
    NothingIsClean(c, w);
    CleanExtend(c, w, [], ms[0]);
    CleanExtend(c, w, [] + [ms[0]], ms[1]);
    CleanExtend(c, w, [] + [ms[0]] + [ms[1]], ms[2]);
    CleanExtend(c, w, [] + [ms[0]] + [ms[1]] + [ms[2]], ms[3]);
    assert [] + [ms[0]] + [ms[1]] + [ms[2]] + [ms[3]] == ms;
    HitStaysHot(c, w, id, k);
  }

  lemma NothingIsClean(c: Config, w: World)
    requires Shape(c, w)
    ensures CleanRun(c, w, []) && Run(c, w, []) == w
  {
  }

  lemma HitStaysHot(c: Config, w: World, id: nat, k: Key)
    requires Hot(c, w, k) && id < |w.threads|
    ensures Hot(c, Hit(w, id, k), k)
  {
  }

  // ---- From the empty cache to a hot entry ----

  ghost function InsertMoves(k: Key): (ms: seq<Move>)
    ensures |ms| == 7 && forall i | 0 <= i < 7 :: ms[i].id == 0
  {
    [Move(0, Choice(StartInsert(Handle(7, true, k, 1)), false, 0)), Go(0), Go(0), Go(0), Go(0), Go(0), Go(0)]
  }

  ghost predicate Roomy(c: Config, k: Key) {
    c.Valid() && c.capacity >= 1 && c.limit >= 1 && c.probe.at(k, 0) == 0
  }

  /** The world after `i` steps of an insertion into the empty cache. */
  ghost function Inserting(c: Config, n: nat, k: Key, i: nat): World
    requires Roomy(c, k) && n > 0
  {
    var h, w := Handle(7, true, k, 1), Initial(c, n);
    var pc :=
      if i == 0 then Done(Nothing)
      else if i == 1 then Reserving(h, InsertOccupy)
      else if i == 2 then Reserving(h, ChargeLoad(false))
      else if i == 3 then Reserving(h, ChargeCas(false, 0))
      else if i == 4 then Placing(h, false, 0, PlaceOr)
      else if i == 5 then Placing(h, false, 0, PlaceWrite)
      else if i == 6 then Placing(h, false, 0, PlacePublish)
      else Done(Inserted(true));
    var meta := if i <= 4 then Vacant() else if i <= 6 then Meta(0, 0, false, Construction) else Published();
    World(w.slots[0 := Slot(meta, if i <= 5 then FreshSlot().entry else h, 0)], w.loans, w.threads[0 := pc],
          if i >= 4 then 1 else 0, if i >= 2 then 1 else 0, 0, if i >= 7 then multiset{7} else multiset{}, multiset{})
  }

  lemma {:induction false} ReservingStep(c: Config, n: nat, k: Key, i: nat)
    requires Roomy(c, k) && n > 0 && i < 4
    ensures Shape(c, Inserting(c, n, k, i)) && !Inserting(c, n, k, i).threads[0].Hunting?
    ensures Step(c, Inserting(c, n, k, i), 0, InsertMoves(k)[i].ch) == Inserting(c, n, k, i + 1)
  {
    var w := Initial(c, n);
    assert w.loans[0 := w.loans[0]] == w.loans;
  }

  lemma {:induction false} PlacingStep(c: Config, n: nat, k: Key, i: nat)
    requires Roomy(c, k) && n > 0 && 4 <= i < 7
    ensures Shape(c, Inserting(c, n, k, i)) && !Inserting(c, n, k, i).threads[0].Hunting?
    ensures Step(c, Inserting(c, n, k, i), 0, InsertMoves(k)[i].ch) == Inserting(c, n, k, i + 1)
  {
    var w := Initial(c, n);
    assert w.loans[0 := w.loans[0]] == w.loans;
  }

  lemma {:induction false} InsertingStep(c: Config, n: nat, k: Key, i: nat)
    requires Roomy(c, k) && n > 0 && i < 7
    ensures Shape(c, Inserting(c, n, k, i))
    ensures Step(c, Inserting(c, n, k, i), 0, InsertMoves(k)[i].ch) == Inserting(c, n, k, i + 1)
    ensures CleanStep(c, Inserting(c, n, k, i), 0, InsertMoves(k)[i].ch)
  {
    if i < 4 {
      ReservingStep(c, n, k, i);
    } else {
      PlacingStep(c, n, k, i);
    }
    hide Step, InsertMoves, CleanStep;
    HuntersOnly(c, Inserting(c, n, k, i), 0, InsertMoves(k)[i].ch);
  }

  lemma {:induction false} InsertRun(c: Config, n: nat, k: Key, i: nat)
    requires Roomy(c, k) && n > 0 && i <= 7
    ensures Shape(c, Initial(c, n))
    ensures CleanRun(c, Initial(c, n), InsertMoves(k)[..i]) && Run(c, Initial(c, n), InsertMoves(k)[..i]) == Inserting(c, n, k, i)
  {
    hide Initial, Inserting, CleanStep, Step, CleanRun, Run;
    InsertingStarts(c, n, k);
    var w, ms := Initial(c, n), InsertMoves(k);
    if i == 0 {
      NothingIsClean(c, w);
      assert ms[..0] == [];
    } else {
      InsertRun(c, n, k, i - 1);
      InsertingStep(c, n, k, i - 1);
      CleanExtend(c, w, ms[..i - 1], ms[i - 1]);
      assert ms[..i - 1] + [ms[i - 1]] == ms[..i];
    }
  }

  lemma InsertingStarts(c: Config, n: nat, k: Key)
    requires Roomy(c, k) && n > 0
    ensures Shape(c, Initial(c, n)) && Initial(c, n) == Inserting(c, n, k, 0)
  {
    var w := Initial(c, n);
    assert w.slots[0 := FreshSlot()] == w.slots && w.threads[0 := Done(Nothing)] == w.threads;
  }

  // ---- The crowd ----

  /** All threads are at rest and slot 0 has `hits` hits. */
  ghost predicate Resting(c: Config, w: World, k: Key, n: nat, hits: int) {
    && Hot(c, w, k) && |w.threads| == n && w.slots[0].meta.hits == hits
    && forall id: nat | id < n :: w.threads[id].Done?
  }

  lemma {:induction false} WarmUp(c: Config, k: Key, n: nat, hits: nat) returns (ms: seq<Move>)
    requires Roomy(c, k) && n > 0 && INIT_HIT_COUNT <= hits <= MAX_HIT_COUNT
    ensures Shape(c, Initial(c, n)) && CleanRun(c, Initial(c, n), ms) && Resting(c, Run(c, Initial(c, n), ms), k, n, hits)
    decreases hits
  {
    if hits == INIT_HIT_COUNT {
      ms := InsertMoves(k)[..7];
      InsertRun(c, n, k, 7);
      hide Run, CleanRun;
      InsertedIsResting(c, k, n);
    } else {
      hide Initial, CleanRun, Run, Hot;
      ms := WarmUp(c, k, n, hits - 1);
      var w := Run(c, Initial(c, n), ms);
      OneHit(c, w, 0, k);
      CleanAppend(c, Initial(c, n), ms, HitMoves(0, k));
      HotIsShaped(c, w, k);
      ms := ms + HitMoves(0, k);
    }
  }

  lemma HotIsShaped(c: Config, w: World, k: Key)
    requires Hot(c, w, k)
    ensures Shape(c, w) && 0 < |w.slots|
  {
  }

  lemma InsertedIsResting(c: Config, k: Key, n: nat)
    requires Roomy(c, k) && n > 0
    ensures Resting(c, Inserting(c, n, k, 7), k, n, INIT_HIT_COUNT)
  {
  }

  /** Slot 0 is `over` above the maximum; thread `id` has `es[id]` to take back, or is at rest if that is 0. */
  ghost predicate Crowd(c: Config, w: World, k: Key, es: seq<int>, over: int) {
    && Hot(c, w, k) && |w.threads| == |es| && w.slots[0].meta.hits == MAX_HIT_COUNT + over && NonNegative(es)
    && forall id: nat | id < |es| ::
         if es[id] == 0 then w.threads[id].Done? else w.threads[id] == Looking(k, 0, LookupHitFix(es[id]))
  }

  /** The clean run `ms` of `|es|` threads from the empty cache leads to such a crowd. */
  ghost predicate Reached(c: Config, k: Key, ms: seq<Move>, es: seq<int>, over: int) {
    c.Valid() &&
    var w := Initial(c, |es|);
    Shape(c, w) && CleanRun(c, w, ms) && Crowd(c, Run(c, w, ms), k, es, over)
  }

  lemma {:induction false} AddsHit(c: Config, w: World, k: Key, es: seq<int>, over: nat, id: nat)
    requires Crowd(c, w, k, es, over) && id < |es| && es[id] == 0
    ensures Shape(c, w) && Crowd(c, Hit(w, id, k), k, es[id := over + 1], over + 1)
  {
    HitStaysHot(c, w, id, k);
  }

  lemma {:induction false} Adds(c: Config, k: Key, ms: seq<Move>, es: seq<int>, over: nat, id: nat) returns (ms': seq<Move>)
    requires Reached(c, k, ms, es, over) && id < |es| && es[id] == 0
    ensures Reached(c, k, ms', es[id := over + 1], over + 1)
  {
    hide Initial, CleanRun, Run, Hit;
    var w := Run(c, Initial(c, |es|), ms);
    OneHit(c, w, id, k);
    AddsHit(c, w, k, es, over, id);
    CleanAppend(c, Initial(c, |es|), ms, HitMoves(id, k));
    ms' := ms + HitMoves(id, k);
  }

  lemma {:induction false} FixStep(c: Config, w: World, k: Key, es: seq<int>, over: int, id: nat)
    requires Crowd(c, w, k, es, over) && id < |es| && es[id] > 0
    ensures CleanStep(c, w, id, Go(id).ch) && Crowd(c, Step(c, w, id, Go(id).ch), k, es[id := 0], over - es[id])
  {
  }

  lemma {:induction false} TakesBack(c: Config, k: Key, ms: seq<Move>, es: seq<int>, over: int, id: nat) returns (ms': seq<Move>)
    requires Reached(c, k, ms, es, over) && id < |es| && es[id] > 0
    ensures Reached(c, k, ms', es[id := 0], over - es[id])
  {
    hide Initial, CleanRun, Run, CleanStep, Step, Crowd;
    FixStep(c, Run(c, Initial(c, |es|), ms), k, es, over, id);
    CleanExtend(c, Initial(c, |es|), ms, Go(id));
    ms' := ms + [Go(id)];
  }

  // ---- The schedule ----

  /** The first `j` threads have added their hits in turn: they owe 1, 2, ..., `j`. */
  ghost function Queued(n: nat, j: nat): (es: seq<int>)
    ensures |es| == n
  {
    seq(n, i requires 0 <= i < n => if i < j then i + 1 else 0)
  }

  lemma {:induction false} FirstQueue(c: Config, k: Key, n: nat) returns (ms: seq<Move>)
    requires Roomy(c, k) && n > 0
    ensures Reached(c, k, ms, Queued(n, 0), 0)
  {
    hide Initial, CleanRun, Run, Hot;
    ms := WarmUp(c, k, n, MAX_HIT_COUNT);
  }

  lemma {:induction false} AllAdd(c: Config, k: Key, n: nat, j: nat) returns (ms: seq<Move>)
    requires Roomy(c, k) && j <= n && n > 0
    ensures Reached(c, k, ms, Queued(n, j), j) && Sum(Queued(n, j)) == Triangle(j + 1)
    decreases j
  {
    hide Reached, Roomy;
    if j == 0 {
      ms := FirstQueue(c, k, n);
      SumZero(Queued(n, 0));
    } else {
      ms := AllAdd(c, k, n, j - 1);
      assert Queued(n, j) == Queued(n, j - 1)[j - 1 := j];
      SumUpdate(Queued(n, j - 1), j - 1, j);
      TriangleNext(j);
      ms := Adds(c, k, ms, Queued(n, j - 1), j - 1, j - 1);
    }
  }

  /** How far the counter is above its maximum after `b` of the least excesses were taken back and added anew. */
  ghost function Lead(b: nat): int {
    CROWD + 1 - Triangle(b)
  }

  /** The first `b` threads of the queue took back early and owe more than before. */
  ghost function Requeued(n: nat, b: nat): (es: seq<int>)
    ensures |es| == n
  {
    seq(n, i requires 0 <= i < n => if i < b then Lead(i + 1) else if i < CROWD + 1 then i + 1 else 0)
  }

  /** What the excesses amount to beyond the lead: what the counter is short of its maximum in the end. */
  ghost function Shortage(b: nat): int {
    if b == 0 then Triangle(CROWD + 2) - (CROWD + 1) else Shortage(b - 1) + Lead(b - 1) - b
  }

  lemma LeadLasts(b: nat)
    requires b <= 10
    ensures b + 1 <= Lead(b) && Lead(b + 1) == Lead(b) - b
  {
    TriangleNext(b);
    assert b * (b - 1) <= 90 by {
      if b > 0 {
        assert b * (b - 1) <= 10 * (b - 1);
      }
    }
  }

  lemma {:induction false} Requeue(c: Config, k: Key, n: nat, b: nat) returns (ms: seq<Move>)
    requires Roomy(c, k) && n > CROWD && b <= 11
    ensures Reached(c, k, ms, Requeued(n, b), Lead(b)) && Sum(Requeued(n, b)) - Lead(b) == Shortage(b)
    decreases b
  {
    hide Reached, Roomy, Lead, Triangle;
    if b == 0 {
      ms := AllAdd(c, k, n, CROWD + 1);
      assert Requeued(n, 0) == Queued(n, CROWD + 1);
      LeadStarts();
    } else {
      ms := Requeue(c, k, n, b - 1);
      LeadLasts(b - 1);
      var es := Requeued(n, b - 1);
      assert es[b - 1] == b;
      ms := TakesBack(c, k, ms, es, Lead(b - 1), b - 1);
      ms := Adds(c, k, ms, es[b - 1 := 0], Lead(b - 1) - b, b - 1);
      assert es[b - 1 := 0][b - 1 := Lead(b)] == Requeued(n, b) == es[b - 1 := Lead(b)];
      SumUpdate(es, b - 1, Lead(b));
    }
  }

  lemma LeadStarts()
    ensures Lead(0) == CROWD + 1
  {
  }

  /** Thread `id` takes back what it owes, if anything; the difference of debts and lead stays. */
  lemma {:induction false} Settles(c: Config, k: Key, ms: seq<Move>, es: seq<int>, over: int, id: nat) returns (ms': seq<Move>)
    requires Reached(c, k, ms, es, over) && id < |es|
    ensures Reached(c, k, ms', es[id := 0], over - es[id]) && Sum(es[id := 0]) == Sum(es) - es[id]
  {
    ReachedOwes(c, k, ms, es, over);
    hide Reached;
    SumUpdate(es, id, 0);
    if es[id] > 0 {
      ms' := TakesBack(c, k, ms, es, over, id);
    } else {
      ms' := ms;
      assert es[id := 0] == es;
    }
  }

  /** In the end everybody takes back. */
  lemma {:induction false} AllTakeBack(c: Config, k: Key, ms: seq<Move>, es: seq<int>, over: int, r: nat)
      returns (ms': seq<Move>, es': seq<int>, over': int)
    requires Reached(c, k, ms, es, over) && r <= |es|
    ensures Reached(c, k, ms', es', over') && |es'| == |es| && Sum(es') - over' == Sum(es) - over
    ensures forall i: nat | i < r :: es'[i] == 0
    decreases r
  {
    hide Reached, Sum;
    if r == 0 {
      ms', es', over' := ms, es, over;
    } else {
      ms', es', over' := AllTakeBack(c, k, ms, es, over, r - 1);
      ms' := Settles(c, k, ms', es', over', r - 1);
      es', over' := es'[r - 1 := 0], over' - es'[r - 1];
    }
  }

  lemma ReachedOwes(c: Config, k: Key, ms: seq<Move>, es: seq<int>, over: int)
    requires Reached(c, k, ms, es, over)
    ensures NonNegative(es)
  {
    hide Initial, CleanRun, Run, Hot;
  }

  /** From 58 threads on, lookups alone take the counter of an entry in service below zero. */
  lemma {:induction false} CrowdUnderflows(c: Config, k: Key, n: nat) returns (ms: seq<Move>)
    requires Roomy(c, k) && n >= 58
    ensures Shape(c, Initial(c, n)) && CleanRun(c, Initial(c, n), ms)
    ensures var m := Run(c, Initial(c, n), ms).slots[0].meta; m.state.Visible? && m.hits < 0
  {
    ms := Requeue(c, k, n, 11);
    var es, over;
    ms, es, over := AllTakeBack(c, k, ms, Requeued(n, 11), Lead(11), n);
    SumZero(es);
    ShortageExceeds();
    hide Initial, CleanRun, Run;
  }

  lemma ShortageExceeds()
    ensures Shortage(11) > MAX_HIT_COUNT
  {
  }

  /** No clean run of `n` threads takes the hits of an entry in service below zero. */
  ghost predicate HitsNeverBorrow(c: Config, n: nat)
    requires c.Valid()
  {
    forall moves: seq<Move>, t: nat | t < c.probe.length ::
      var w := Initial(c, n);
      CleanRun(c, w, moves) && Run(c, w, moves).slots[t].meta.Shareable() ==> 0 <= Run(c, w, moves).slots[t].meta.hits
  }

  /** The hit counter keeps to its own bits in every clean run if and only if there are at most 57 threads. */
  lemma {:induction false} HitsNeverBorrowIff(c: Config, k: Key, n: nat)
    requires Roomy(c, k)
    ensures HitsNeverBorrow(c, n) <==> n <= 57
  {
    if n <= CROWD {
      forall moves: seq<Move>, t: nat | t < c.probe.length && CleanRun(c, Initial(c, n), moves) && Run(c, Initial(c, n), moves).slots[t].meta.Shareable()
        ensures 0 <= Run(c, Initial(c, n), moves).slots[t].meta.hits
      {
        ClockHits.CountersStayInField(c, n, moves, t);
      }
    } else {
      var ms := CrowdUnderflows(c, k, n);
      assert Run(c, Initial(c, n), ms).slots[0].meta.Shareable();
    }
  }
}
