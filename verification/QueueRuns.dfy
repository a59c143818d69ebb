/** Particular runs of the queue, and what they show about its bound and its refusals. */
module QueueRuns {
  import opened Options
  import opened QueueMachine
  import opened QueueProofs

  // ---- Putting runs together ----

  lemma {:induction false} RunAppend<T>(st: State<T>, a: seq<Move<T>>, b: seq<Move<T>>)
    requires |st.ring| > 0
    ensures Run(st, a + b) == Run(Run(st, a), b)
  {
    if b == [] {
      assert a + b == a;
    } else {
      var n := |b| - 1;
      assert (a + b)[..|a + b| - 1] == a + b[..n];
      RunAppend(st, a, b[..n]);
    }
  }

  /** A step more at the end of a run that leads to `a`. */
  lemma {:induction false} RunThen<T>(st: State<T>, ms: seq<Move<T>>, m: Move<T>, a: State<T>)
    requires |st.ring| > 0 && Run(st, ms) == a
    ensures Run(st, ms + [m]) == Step(a, m)
  {
    hide Step;
    assert (ms + [m])[..|ms|] == ms;
  }

  /** Six steps after a run. */
  lemma {:induction false} SixMore<T>(st: State<T>, ms: seq<Move<T>>, a: Move<T>, b: Move<T>, c: Move<T>, d: Move<T>, e: Move<T>, f: Move<T>,
                   s0: State<T>, s1: State<T>, s2: State<T>, s3: State<T>, s4: State<T>, s5: State<T>)
    requires |st.ring| > 0 && |s0.ring| > 0 && |s1.ring| > 0 && |s2.ring| > 0 && |s3.ring| > 0 && |s4.ring| > 0 && |s5.ring| > 0
    requires Run(st, ms) == s0 && Step(s0, a) == s1 && Step(s1, b) == s2 && Step(s2, c) == s3 && Step(s3, d) == s4 && Step(s4, e) == s5
    ensures Run(st, ms + [a, b, c, d] + [e, f]) == Step(s5, f)
  {
    hide Step, Run;
    RunThen(st, ms, a, s0);
    RunThen(st, ms + [a], b, s1);
    RunThen(st, ms + [a] + [b], c, s2);
    RunThen(st, ms + [a] + [b] + [c], d, s3);
    RunThen(st, ms + [a] + [b] + [c] + [d], e, s4);
    RunThen(st, ms + [a] + [b] + [c] + [d] + [e], f, s5);
    assert ms + [a] + [b] + [c] + [d] + [e] + [f] == ms + [a, b, c, d] + [e, f];
  }

  function Go<T>(id: nat): Move<T> {
    Move(id, Rest, false)
  }

  /** A step of thread `id` that leaves slot, head and tail alone. */
  lemma SilentStepIs<T>(st: State<T>, m: Move<T>, pc: Pc<T>)
    requires |st.ring| > 0 && m.id < |st.threads|
    requires var i := Position(st.threads[m.id]) % |st.ring|;
             Exec(|st.ring|, st.threads[m.id], View(st.ring[i], st.head, st.tail), m) == Effect(pc, View(st.ring[i], st.head, st.tail))
    requires !st.threads[m.id].PopRead?
    ensures Step(st, m) == st.(threads := st.threads[m.id := pc])
  {
    var i := Position(st.threads[m.id]) % |st.ring|;
    assert st.ring[i := st.ring[i]] == st.ring;
  }

  // ---- A push with nobody in its way ----

  ghost function PushMoves<T>(id: nat, v: T): (ms: seq<Move<T>>) {
    [Move(id, StartPush(v), false), Go(id), Go(id), Go(id), Go(id), Go(id)]
  }

  ghost function AfterPush<T>(st: State<T>, id: nat, v: T): State<T>
    requires |st.ring| > 0 && id < |st.threads|
  {
    State(st.ring[st.head % |st.ring| := Node(st.head + 1, v)], st.head + 1, st.tail,
          st.threads[id := Ready(Pushed(true))], st.log + [v], st.outs)
  }

  lemma SoloSteps<T>(st: State<T>, id: nat, v: T)
    requires |st.ring| > 0 && id < |st.threads|
    requires st.ring[st.head % |st.ring|].seqNo == st.head
    ensures var pos, i := st.head, st.head % |st.ring|;
            var s3 := st.(threads := st.threads[id := PushCas(v, pos)]);
            var s4 := st.(threads := st.threads[id := PushWrite(v, pos)], head := pos + 1, log := st.log + [v]);
            var s5 := s4.(threads := st.threads[id := PushPublish(v, pos)], ring := st.ring[i := st.ring[i].(data := v)]);
            Step(s3, Go(id)) == s4 && Step(s4, Go(id)) == s5 && Step(s5, Go(id)) == AfterPush(st, id, v)
  {
    assert st.ring[st.head % |st.ring| := st.ring[st.head % |st.ring|]] == st.ring;
  }

  lemma {:induction false} SoloPush<T>(st: State<T>, id: nat, v: T)
    requires |st.ring| > 0 && id < |st.threads| && st.threads[id].Ready?
    requires st.ring[st.head % |st.ring|].seqNo == st.head
    ensures Run(st, PushMoves(id, v)) == AfterPush(st, id, v)
  {
    var pos, i := st.head, st.head % |st.ring|;
    var start: Move<T>, go: Move<T> := Move(id, StartPush(v), false), Go(id);
    var s1 := st.(threads := st.threads[id := PushLoad(v)]);
    var s2 := st.(threads := st.threads[id := PushSeq(v, pos)]);
    var s3 := st.(threads := st.threads[id := PushCas(v, pos)]);
    var s4 := st.(threads := st.threads[id := PushWrite(v, pos)], head := pos + 1, log := st.log + [v]);
    var s5 := s4.(threads := st.threads[id := PushPublish(v, pos)], ring := st.ring[i := st.ring[i].(data := v)]);
    SilentStepIs(st, start, PushLoad(v));
    SilentStepIs(s1, go, PushSeq(v, pos));
    SilentStepIs(s2, go, PushCas(v, pos));
    SoloSteps(st, id, v);
    hide Step, Run, AfterPush;
    assert Run(st, []) == st by {
      RunNothing(st);
    }
    SixMore(st, [], start, go, go, go, go, go, st, s1, s2, s3, s4, s5);
    assert [] + [start, go, go, go] + [go, go] == PushMoves(id, v);
  }

  /** With no other operation under way and room left, a push that is not disturbed succeeds in six steps. */
  lemma {:induction false} QuietPushSucceeds<T>(st: State<T>, id: nat, v: T)
    requires Inv(st) && NoneBusy(st) && id < |st.threads| && st.threads[id].Ready? && |st.Abstract()| < |st.ring|
    ensures Run(st, PushMoves(id, v)) == AfterPush(st, id, v)
    ensures Inv(AfterPush(st, id, v)) && AfterPush(st, id, v).Abstract() == st.Abstract() + [v]
  {
    QuietSlot(st, st.head);
    SoloPush(st, id, v);
    RunKeepsInv(st, PushMoves(id, v));
    var q := st.log[st.tail..];
    assert (st.log + [v])[st.tail..] == q + [v];
  }

  // ---- A pop with nobody in its way ----

  ghost function PopMoves<T>(id: nat): (ms: seq<Move<T>>) {
    [Move(id, StartPop, false), Go(id), Go(id), Go(id), Go(id), Go(id)]
  }

  ghost function AfterPop<T>(st: State<T>, id: nat): State<T>
    requires |st.ring| > 0 && id < |st.threads|
  {
    var x := st.ring[st.tail % |st.ring|].data;
    State(st.ring[st.tail % |st.ring| := Node(st.tail + |st.ring|, x)], st.head, st.tail + 1,
          st.threads[id := Ready(Popped(Some(x)))], st.log, st.outs[st.tail := x])
  }

  lemma SoloPopSteps<T>(st: State<T>, id: nat)
    requires |st.ring| > 0 && id < |st.threads|
    requires st.ring[st.tail % |st.ring|].seqNo == st.tail + 1
    ensures var pos, x := st.tail, st.ring[st.tail % |st.ring|].data;
            var s3 := st.(threads := st.threads[id := PopCas(pos)]);
            var s4 := st.(threads := st.threads[id := PopRead(pos)], tail := pos + 1);
            var s5 := s4.(threads := st.threads[id := PopRecycle(pos, x)], outs := st.outs[pos := x]);
            Step(s3, Go(id)) == s4 && Step(s4, Go(id)) == s5 && Step(s5, Go(id)) == AfterPop(st, id)
  {
    assert st.ring[st.tail % |st.ring| := st.ring[st.tail % |st.ring|]] == st.ring;
  }

  /** With no other operation under way and something to take, a pop that is not disturbed takes the front in six steps. */
  lemma {:induction false} QuietPopSucceeds<T>(st: State<T>, id: nat)
    requires Inv(st) && NoneBusy(st) && id < |st.threads| && st.threads[id].Ready? && st.Abstract() != []
    ensures Run(st, PopMoves(id)) == AfterPop(st, id)
    ensures AfterPop(st, id).threads[id] == Ready(Popped(Some(st.Abstract()[0])))
    ensures Inv(AfterPop(st, id)) && AfterPop(st, id).Abstract() == st.Abstract()[1..]
  {
    QuietSlot(st, st.tail);
    assert SlotOk(st, st.tail % |st.ring|);
    var pos, x := st.tail, st.ring[st.tail % |st.ring|].data;
    var start: Move<T>, go: Move<T> := Move(id, StartPop, false), Go(id);
    var s1 := st.(threads := st.threads[id := PopLoad]);
    var s2 := st.(threads := st.threads[id := PopSeq(pos)]);
    var s3 := st.(threads := st.threads[id := PopCas(pos)]);
    var s4 := st.(threads := st.threads[id := PopRead(pos)], tail := pos + 1);
    var s5 := s4.(threads := st.threads[id := PopRecycle(pos, x)], outs := st.outs[pos := x]);
    SilentStepIs(st, start, PopLoad);
    SilentStepIs(s1, go, PopSeq(pos));
    SilentStepIs(s2, go, PopCas(pos));
    SoloPopSteps(st, id);
    RunNothing(st);
    RunKeepsInv(st, PopMoves(id));
    assert st.log[st.tail..][1..] == st.log[st.tail + 1..];
    hide Step, Run;
    SixMore(st, [], start, go, go, go, go, go, st, s1, s2, s3, s4, s5);
    assert [] + [start, go, go, go] + [go, go] == PopMoves(id);
  }

  lemma RunNothing<T>(st: State<T>)
    requires |st.ring| > 0
    ensures Run(st, []) == st
  {
  }

  // ---- Exactly two slots are needed ----

  /** In every run the queue never holds more than its capacity. */
  ghost predicate NeverOverfull<T(!new)>(capacity: nat, n: nat, filler: T)
    requires capacity > 0
  {
    forall moves: seq<Move<T>> :: Run(Initial(capacity, n, filler), moves).head - Run(Initial(capacity, n, filler), moves).tail <= capacity
  }

  /** Two pushes of thread 0 in a row, where both find their slot free. */
  lemma {:induction false} TwoPushes<T>(capacity: nat, n: nat, v: T)
    requires 0 < capacity <= 2 && n >= 1
    ensures Run(Initial(capacity, n, v), PushMoves(0, v) + PushMoves(0, v)) == AfterPush(AfterPush(Initial(capacity, n, v), 0, v), 0, v)
  {
    var st := Initial(capacity, n, v);
    SoloPush(st, 0, v);
    SoloPush(AfterPush(st, 0, v), 0, v);
    RunAppend(st, PushMoves(0, v), PushMoves(0, v));
  }

  /** On a single slot two pushes in a row both succeed, the second over the first. */
  lemma {:induction false} OneSlotOverflows<T>(n: nat, v: T)
    requires n >= 1
    ensures var st := Run(Initial(1, n, v), PushMoves(0, v) + PushMoves(0, v)); st.head == 2 && st.tail == 0
  {
    TwoPushes(1, n, v);
  }

  /** With any number of threads but none, the bound holds for exactly the capacities of at least two. */
  lemma {:induction false} BoundHoldsExactly<T(!new)>(capacity: nat, n: nat, filler: T)
    requires capacity > 0 && n > 0
    ensures NeverOverfull(capacity, n, filler) <==> capacity >= 2
  {
    if capacity >= 2 {
      forall moves: seq<Move<T>>
        ensures Run(Initial(capacity, n, filler), moves).head - Run(Initial(capacity, n, filler), moves).tail <= capacity
      {
        InitialInv(capacity, n, filler);
        RunKeepsInv(Initial(capacity, n, filler), moves);
      }
    } else {
      OneSlotOverflows(n, filler);
    }
  }

  // ---- Refusals that do not mean what the comments say ----

  /** Two pushes fill two slots; thread 1 then wins the tail and stops before it recycles its slot. */
  ghost function SlowConsumer<T>(v: T): seq<Move<T>> {
    PushMoves(0, v) + PushMoves(0, v) + [Move(1, StartPop, false), Go(1), Go(1), Go(1)] + [Move(0, StartPush(v), false), Go(0)]
  }

  /** From two full slots: thread 1 wins the tail, thread 0 starts a push. */
  lemma SlowConsumerSteps<T>(full: State<T>, v: T)
    requires |full.ring| == |full.threads| == 2 && full.head == 2 && full.tail == 0
    requires full.threads[0].Ready? && full.threads[1].Ready? && full.ring[0].seqNo == 1
    ensures var s1 := full.(threads := full.threads[1 := PopLoad]);
            var s2 := full.(threads := full.threads[1 := PopSeq(0)]);
            var s3 := full.(threads := full.threads[1 := PopCas(0)]);
            var s4 := full.(threads := full.threads[1 := PopRead(0)], tail := 1);
            var s5 := s4.(threads := s4.threads[0 := PushLoad(v)]);
            var s6 := s4.(threads := s4.threads[0 := PushSeq(v, 2)]);
            && Step(full, Move(1, StartPop, false)) == s1 && Step(s1, Go(1)) == s2 && Step(s2, Go(1)) == s3 && Step(s3, Go(1)) == s4
            && Step(s4, Move(0, StartPush(v), false)) == s5 && Step(s5, Go(0)) == s6
            && Step(s6, Go(0)).threads[0] == Ready(Pushed(false))
  {
    assert full.ring[0 := full.ring[0]] == full.ring;
    var s1 := full.(threads := full.threads[1 := PopLoad]);
    var s2 := full.(threads := full.threads[1 := PopSeq(0)]);
    var s3 := full.(threads := full.threads[1 := PopCas(0)]);
    var s4 := full.(threads := full.threads[1 := PopRead(0)], tail := 1);
    var s5 := s4.(threads := s4.threads[0 := PushLoad(v)]);
    var s6 := s4.(threads := s4.threads[0 := PushSeq(v, 2)]);
    SilentStepIs(full, Move(1, StartPop, false), PopLoad);
    SilentStepIs(s1, Go(1), PopSeq(0));
    SilentStepIs(s2, Go(1), PopCas(0));
    assert Step(s3, Go(1)) == s4;
    hide Step;
    SilentStepIs(s4, Move(0, StartPush(v), false), PushLoad(v));
    SilentStepIs(s5, Go(0), PushSeq(v, 2));
    SilentStepIs(s6, Go(0), Ready(Pushed(false)));
  }

  /** The next step refuses a push although one of the two places is free. */
  lemma {:induction false} RefusedPushNeedNotMeanFull<T>(v: T)
    ensures var st := Run(Initial(2, 2, v), SlowConsumer(v));
            && Inv(st) && st.threads[0].PushSeq? && Step(st, Go(0)).threads[0] == Ready(Pushed(false))
            && |st.Abstract()| == 1 < |st.ring|
  {
    hide Step, Run, Inv, Exec;
    InitialInv(2, 2, v);
    RunKeepsInv(Initial(2, 2, v), SlowConsumer(v));
    TwoPushes(2, 2, v);
    var init: State<T> := Initial(2, 2, v);
    var full := AfterPush(AfterPush(init, 0, v), 0, v);
    SlowConsumerSteps(full, v);
    var s4 := full.(threads := full.threads[1 := PopRead(0)], tail := 1);
    SixMore(init, PushMoves(0, v) + PushMoves(0, v), Move(1, StartPop, false), Go(1), Go(1), Go(1), Move(0, StartPush(v), false), Go(0),
            full, full.(threads := full.threads[1 := PopLoad]), full.(threads := full.threads[1 := PopSeq(0)]),
            full.(threads := full.threads[1 := PopCas(0)]), s4, s4.(threads := s4.threads[0 := PushLoad(v)]));
  }

  /** Thread 0 wins the head and stops before it publishes; thread 1 then starts a pop. */
  ghost function SlowProducer<T>(v: T): seq<Move<T>> {
    [] + [Move(0, StartPush(v), false), Go(0), Go(0), Go(0)] + [Move(1, StartPop, false), Go(1)]
  }

  lemma SlowProducerSteps<T>(init: State<T>, v: T)
    requires |init.ring| == |init.threads| == 2 && init.head == 0 && init.tail == 0 && init.log == []
    requires init.threads[0].Ready? && init.threads[1].Ready? && init.ring[0].seqNo == 0
    ensures var s1 := init.(threads := init.threads[0 := PushLoad(v)]);
            var s2 := init.(threads := init.threads[0 := PushSeq(v, 0)]);
            var s3 := init.(threads := init.threads[0 := PushCas(v, 0)]);
            var s4 := init.(threads := init.threads[0 := PushWrite(v, 0)], head := 1, log := [v]);
            var s5 := s4.(threads := s4.threads[1 := PopLoad]);
            var s6 := s4.(threads := s4.threads[1 := PopSeq(0)]);
            && Step(init, Move(0, StartPush(v), false)) == s1 && Step(s1, Go(0)) == s2 && Step(s2, Go(0)) == s3 && Step(s3, Go(0)) == s4
            && Step(s4, Move(1, StartPop, false)) == s5 && Step(s5, Go(1)) == s6
            && Step(s6, Go(1)).threads[1] == Ready(Popped(None))
  {
    assert init.ring[0 := init.ring[0]] == init.ring;
    var s1 := init.(threads := init.threads[0 := PushLoad(v)]);
    var s2 := init.(threads := init.threads[0 := PushSeq(v, 0)]);
    var s3 := init.(threads := init.threads[0 := PushCas(v, 0)]);
    var s4 := init.(threads := init.threads[0 := PushWrite(v, 0)], head := 1, log := [v]);
    var s5 := s4.(threads := s4.threads[1 := PopLoad]);
    var s6 := s4.(threads := s4.threads[1 := PopSeq(0)]);
    SilentStepIs(init, Move(0, StartPush(v), false), PushLoad(v));
    SilentStepIs(s1, Go(0), PushSeq(v, 0));
    SilentStepIs(s2, Go(0), PushCas(v, 0));
    assert Step(s3, Go(0)) == s4;
    hide Step;
    SilentStepIs(s4, Move(1, StartPop, false), PopLoad);
    SilentStepIs(s5, Go(1), PopSeq(0));
    SilentStepIs(s6, Go(1), Ready(Popped(None)));
  }

  /** The next step refuses a pop although a value has been pushed and not popped. */
  lemma {:induction false} RefusedPopNeedNotMeanEmpty<T>(v: T)
    ensures var st := Run(Initial(2, 2, v), SlowProducer(v));
            && Inv(st) && st.threads[1].PopSeq? && Step(st, Go(1)).threads[1] == Ready(Popped(None))
            && st.Abstract() == [v]
  {
    hide Step, Run, Inv, Exec;
    InitialInv(2, 2, v);
    RunKeepsInv(Initial(2, 2, v), SlowProducer(v));
    var init: State<T> := Initial(2, 2, v);
    RunNothing(init);
    SlowProducerSteps(init, v);
    var s4 := init.(threads := init.threads[0 := PushWrite(v, 0)], head := 1, log := [v]);
    SixMore(init, [], Move(0, StartPush(v), false), Go(0), Go(0), Go(0), Move(1, StartPop, false), Go(1),
            init, init.(threads := init.threads[0 := PushLoad(v)]), init.(threads := init.threads[0 := PushSeq(v, 0)]),
            init.(threads := init.threads[0 := PushCas(v, 0)]), s4, s4.(threads := s4.threads[1 := PopLoad]));
  }
}
