/** The queue refines a bounded FIFO for any number of producers and consumers. */
module QueueProofs {
  import opened Options
  import opened Sums
  import opened QueueMachine

  // ---- Slots ----

  /** A slot is filled when its sequence number is not congruent to its index. */
  ghost predicate Filled<T>(st: State<T>, i: nat)
    requires i < |st.ring|
  {
    st.ring[i].seqNo % |st.ring| != i
  }

  /** The ticket a slot is serving. */
  ghost function Ticket<T>(st: State<T>, i: nat): int
    requires i < |st.ring|
  {
    if Filled(st, i) then st.ring[i].seqNo - 1 else st.ring[i].seqNo
  }

  ghost predicate SlotOk<T>(st: State<T>, i: nat)
    requires i < |st.ring|
  {
    var p := Ticket(st, i);
    && 0 <= p && p % |st.ring| == i
    && (if Filled(st, i) then p < st.head == |st.log| && st.head <= p + |st.ring| && st.ring[i].data == st.log[p]
        else st.tail <= p < st.tail + |st.ring|)
  }

  // ---- Threads ----

  ghost predicate Pushing<T>(pc: Pc<T>, i: nat, capacity: nat)
    requires capacity > 0
  {
    (pc.PushWrite? || pc.PushPublish?) && pc.pos % capacity == i
  }

  ghost predicate Popping<T>(pc: Pc<T>, i: nat, capacity: nat)
    requires capacity > 0
  {
    (pc.PopRead? || pc.PopRecycle?) && pc.pos % capacity == i
  }

  ghost function Weight<T>(pc: Pc<T>, i: nat, capacity: nat, push: bool): int
    requires capacity > 0
  {
    if (if push then Pushing(pc, i, capacity) else Popping(pc, i, capacity)) then 1 else 0
  }

  ghost function Weights<T>(threads: seq<Pc<T>>, i: nat, capacity: nat, push: bool): (ws: seq<int>)
    requires capacity > 0
    ensures |ws| == |threads| && NonNegative(ws)
  {
    seq(|threads|, id requires 0 <= id < |threads| => Weight(threads[id], i, capacity, push))
  }

  /** How many threads are between winning a ticket of slot `i` and publishing or recycling it. */
  ghost function Busy<T>(threads: seq<Pc<T>>, i: nat, capacity: nat, push: bool): int
    requires capacity > 0
  {
    Sum(Weights(threads, i, capacity, push))
  }

  ghost predicate ThreadOk<T>(st: State<T>, pc: Pc<T>)
    requires |st.ring| > 0
  {
    var i := Position(pc) % |st.ring|;
    match pc
    case PushSeq(_, pos) => pos <= st.head
    case PushCas(_, pos) => pos <= st.head && (pos == st.head ==> st.ring[i].seqNo == pos)
    case PushWrite(v, pos) => pos < st.head == |st.log| && st.ring[i].seqNo == pos && st.log[pos] == v
    case PushPublish(v, pos) => pos < st.head == |st.log| && st.ring[i].seqNo == pos && st.log[pos] == v && st.ring[i].data == v
    case PopSeq(pos) => pos <= st.tail
    case PopCas(pos) => pos <= st.tail && (pos == st.tail ==> st.ring[i].seqNo == pos + 1)
    case PopRead(pos) => pos < st.tail && st.ring[i].seqNo == pos + 1 && pos !in st.outs
    case PopRecycle(pos, v) => pos < st.tail && st.ring[i].seqNo == pos + 1 && pos in st.outs && st.outs[pos] == v
    case _ => true
  }

  // ---- The invariant ----

  ghost predicate Occupancy<T>(st: State<T>, i: nat)
    requires i < |st.ring|
  {
    && Busy(st.threads, i, |st.ring|, true) == (if !Filled(st, i) && Ticket(st, i) < st.head then 1 else 0)
    && Busy(st.threads, i, |st.ring|, false) == (if Filled(st, i) && Ticket(st, i) < st.tail then 1 else 0)
  }

  ghost predicate OutsOk<T>(st: State<T>) {
    forall p: nat | p in st.outs :: p < st.tail && p < |st.log| && st.outs[p] == st.log[p]
  }

  ghost predicate Inv<T>(st: State<T>) {
    && |st.ring| >= 2
    && st.tail <= st.head == |st.log| && st.head <= st.tail + |st.ring|
    && (forall i: nat | i < |st.ring| :: SlotOk(st, i) && Occupancy(st, i))
    && (forall id: nat | id < |st.threads| :: ThreadOk(st, st.threads[id]))
    && OutsOk(st)
  }

  // ---- Arithmetic of tickets ----

  /** Two positions of the same slot less than a full turn apart are equal. */
  lemma SameSlot(a: int, b: int, capacity: nat)
    requires capacity > 0 && a % capacity == b % capacity && -(capacity as int) < a - b < capacity
    ensures a == b
  {
    var q := a / capacity - b / capacity;
    assert a - b == capacity * q;
    assert q >= 1 ==> capacity * q >= capacity;
    assert q <= -1 ==> capacity * q <= -(capacity as int);
  }

  lemma NextTurn(p: int, capacity: nat)
    requires capacity > 0
    ensures (p + capacity) % capacity == p % capacity
  {
    var q, r := p / capacity, p % capacity;
    assert p == capacity * q + r;
    assert p + capacity == capacity * (q + 1) + r;
    Remainder(q + 1, r, capacity);
  }

  lemma Remainder(q: int, r: nat, capacity: nat)
    requires r < capacity
    ensures (capacity * q + r) % capacity == r
  {
    var x := capacity * q + r;
    assert x == capacity * (x / capacity) + x % capacity;
    var d := x / capacity - q;
    assert capacity * d == r - x % capacity;
    assert d >= 1 ==> capacity * d >= capacity;
    assert d <= -1 ==> capacity * d <= -(capacity as int);
  }

  /** With at least two slots, a ticket and its successor live in different slots. */
  lemma NextSlot(p: nat, capacity: nat)
    requires capacity >= 2
    ensures (p + 1) % capacity != p % capacity
  {
    if (p + 1) % capacity == p % capacity {
      SameSlot(p + 1, p, capacity);
    }
  }

  // ---- Threads and slots ----

  lemma BusyUpdate<T>(threads: seq<Pc<T>>, id: nat, pc: Pc<T>, i: nat, capacity: nat, push: bool)
    requires capacity > 0 && id < |threads|
    ensures Busy(threads[id := pc], i, capacity, push)
         == Busy(threads, i, capacity, push) - Weight(threads[id], i, capacity, push) + Weight(pc, i, capacity, push)
  {
    hide Weight;
    var ws := Weights(threads, i, capacity, push);
    assert Weights(threads[id := pc], i, capacity, push) == ws[id := Weight(pc, i, capacity, push)];
    SumUpdate(ws, id, Weight(pc, i, capacity, push));
  }

  /** A busy thread's slot serves its ticket, and no other thread is busy there on the same side. */
  lemma BusyFacts<T>(st: State<T>, id: nat, push: bool)
    requires Inv(st) && id < |st.threads|
    ensures var i := Position(st.threads[id]) % |st.ring|;
            i < |st.ring| && (Weight(st.threads[id], i, |st.ring|, push) == 1 ==>
              && Filled(st, i) == !push
              && Ticket(st, i) < (if push then st.head else st.tail)
              && forall other: nat | other < |st.threads| && other != id :: Weight(st.threads[other], i, |st.ring|, push) == 0)
  {
    var i := Position(st.threads[id]) % |st.ring|;
    var ws := Weights(st.threads, i, |st.ring|, push);
    assert Occupancy(st, i);
    if Weight(st.threads[id], i, |st.ring|, push) == 1 {
      SumAtLeast(ws, id);
      forall other: nat | other < |st.threads| && other != id
        ensures Weight(st.threads[other], i, |st.ring|, push) == 0
      {
        SumAtLeastTwo(ws, id, other);
      }
    }
  }

  /** The slot of position `pos` serves a ticket of the same slot. */
  lemma SlotFacts<T>(st: State<T>, pos: nat)
    requires Inv(st)
    ensures var i := pos % |st.ring|;
            && i < |st.ring| && SlotOk(st, i)
            && (st.ring[i].seqNo == pos ==> !Filled(st, i) && Ticket(st, i) == pos)
            && (st.ring[i].seqNo == pos + 1 ==> Filled(st, i) && Ticket(st, i) == pos)
  {
    NextSlot(pos, |st.ring|);
  }

  // ---- Each kind of step ----

  lemma WinHead<T>(st: State<T>, id: nat, v: T, pos: nat, st': State<T>)
    requires Inv(st) && id < |st.threads| && st.threads[id] == PushCas(v, pos) && st.head == pos
    requires st' == st.(head := pos + 1, log := st.log + [v], threads := st.threads[id := PushWrite(v, pos)])
    ensures Inv(st')
  {
    var n, i0 := |st.ring|, pos % |st.ring|;
    SlotFacts(st, pos);
    assert ThreadOk(st, st.threads[id]);
    forall i: nat | i < n
      ensures SlotOk(st', i) && Occupancy(st', i)
    {
      assert SlotOk(st, i) && Occupancy(st, i);
      assert Filled(st', i) == Filled(st, i) && Ticket(st', i) == Ticket(st, i);
      BusyUpdate(st.threads, id, PushWrite(v, pos), i, n, true);
      BusyUpdate(st.threads, id, PushWrite(v, pos), i, n, false);
      if i != i0 {
        assert Ticket(st, i) != pos;
        if Filled(st, i) && st.head == Ticket(st, i) + n {
          NextTurn(Ticket(st, i), n);
        }
      }
    }
    forall other: nat | other < |st.threads|
      ensures ThreadOk(st', st'.threads[other])
    {
      assert ThreadOk(st, st.threads[other]);
    }
  }

  lemma WinTail<T>(st: State<T>, id: nat, pos: nat, st': State<T>)
    requires Inv(st) && id < |st.threads| && st.threads[id] == PopCas(pos) && st.tail == pos
    requires st' == st.(tail := pos + 1, threads := st.threads[id := PopRead(pos)])
    ensures Inv(st')
  {
    var n, i0 := |st.ring|, pos % |st.ring|;
    SlotFacts(st, pos);
    assert ThreadOk(st, st.threads[id]);
    forall i: nat | i < n
      ensures SlotOk(st', i) && Occupancy(st', i)
    {
      assert SlotOk(st, i) && Occupancy(st, i);
      assert Filled(st', i) == Filled(st, i) && Ticket(st', i) == Ticket(st, i);
      BusyUpdate(st.threads, id, PopRead(pos), i, n, true);
      BusyUpdate(st.threads, id, PopRead(pos), i, n, false);
      if i != i0 {
        assert Ticket(st, i) != pos;
      }
    }
    forall other: nat | other < |st.threads|
      ensures ThreadOk(st', st'.threads[other])
    {
      assert ThreadOk(st, st.threads[other]);
    }
  }

  lemma Write<T>(st: State<T>, id: nat, v: T, pos: nat, st': State<T>)
    requires Inv(st) && id < |st.threads| && st.threads[id] == PushWrite(v, pos)
    requires st' == st.(ring := st.ring[pos % |st.ring| := st.ring[pos % |st.ring|].(data := v)], threads := st.threads[id := PushPublish(v, pos)])
    ensures Inv(st')
  {
    var n, i0 := |st.ring|, pos % |st.ring|;
    SlotFacts(st, pos);
    BusyFacts(st, id, true);
    assert ThreadOk(st, st.threads[id]);
    forall i: nat | i < n
      ensures SlotOk(st', i) && Occupancy(st', i)
    {
      assert SlotOk(st, i) && Occupancy(st, i);
      assert Filled(st', i) == Filled(st, i) && Ticket(st', i) == Ticket(st, i);
      BusyUpdate(st.threads, id, PushPublish(v, pos), i, n, true);
      BusyUpdate(st.threads, id, PushPublish(v, pos), i, n, false);
    }
    forall other: nat | other < |st.threads|
      ensures ThreadOk(st', st'.threads[other])
    {
      assert ThreadOk(st, st.threads[other]);
      if other != id {
        assert Weight(st.threads[other], i0, n, true) == 0;
      }
    }
  }

  lemma PublishSlots<T>(st: State<T>, id: nat, v: T, pos: nat, st': State<T>)
    requires Inv(st) && id < |st.threads| && st.threads[id] == PushPublish(v, pos)
    requires st' == st.(ring := st.ring[pos % |st.ring| := st.ring[pos % |st.ring|].(seqNo := pos + 1)], threads := st.threads[id := Ready(Pushed(true))])
    ensures forall i: nat | i < |st.ring| :: SlotOk(st', i) && Occupancy(st', i)
  {
    var n, i0 := |st.ring|, pos % |st.ring|;
    SlotFacts(st, pos);
    BusyFacts(st, id, true);
    NextSlot(pos, n);
    assert ThreadOk(st, st.threads[id]);
    forall i: nat | i < n
      ensures SlotOk(st', i) && Occupancy(st', i)
    {
      assert SlotOk(st, i) && Occupancy(st, i);
      assert i != i0 ==> Filled(st', i) == Filled(st, i) && Ticket(st', i) == Ticket(st, i);
      BusyUpdate(st.threads, id, Ready(Pushed(true)), i, n, true);
      BusyUpdate(st.threads, id, Ready(Pushed(true)), i, n, false);
    }
  }

  lemma PublishThreads<T>(st: State<T>, id: nat, v: T, pos: nat, st': State<T>)
    requires Inv(st) && id < |st.threads| && st.threads[id] == PushPublish(v, pos)
    requires st' == st.(ring := st.ring[pos % |st.ring| := st.ring[pos % |st.ring|].(seqNo := pos + 1)], threads := st.threads[id := Ready(Pushed(true))])
    ensures forall other: nat | other < |st.threads| :: ThreadOk(st', st'.threads[other])
  {
    hide Occupancy;
    var n, i0 := |st.ring|, pos % |st.ring|;
    SlotFacts(st, pos);
    BusyFacts(st, id, true);
    NextSlot(pos, n);
    assert ThreadOk(st, st.threads[id]);
    forall other: nat | other < |st.threads|
      ensures ThreadOk(st', st'.threads[other])
    {
      var pc := st.threads[other];
      assert ThreadOk(st, pc);
      NextSlot(Position(pc), n);
      if other != id {
        assert Weight(pc, i0, n, true) == 0;
      }
    }
  }

  lemma Publish<T>(st: State<T>, id: nat, v: T, pos: nat, st': State<T>)
    requires Inv(st) && id < |st.threads| && st.threads[id] == PushPublish(v, pos)
    requires st' == st.(ring := st.ring[pos % |st.ring| := st.ring[pos % |st.ring|].(seqNo := pos + 1)], threads := st.threads[id := Ready(Pushed(true))])
    ensures Inv(st')
  {
    hide SlotOk, Occupancy, ThreadOk;
    PublishSlots(st, id, v, pos, st');
    PublishThreads(st, id, v, pos, st');
  }

  lemma Read<T>(st: State<T>, id: nat, pos: nat, st': State<T>)
    requires Inv(st) && id < |st.threads| && st.threads[id] == PopRead(pos)
    requires var x := st.ring[pos % |st.ring|].data;
             st' == st.(outs := st.outs[pos := x], threads := st.threads[id := PopRecycle(pos, x)])
    ensures Inv(st')
  {
    var n, i0 := |st.ring|, pos % |st.ring|;
    var x := st.ring[i0].data;
    SlotFacts(st, pos);
    BusyFacts(st, id, false);
    assert ThreadOk(st, st.threads[id]);
    forall i: nat | i < n
      ensures SlotOk(st', i) && Occupancy(st', i)
    {
      assert SlotOk(st, i) && Occupancy(st, i);
      assert Filled(st', i) == Filled(st, i) && Ticket(st', i) == Ticket(st, i);
      BusyUpdate(st.threads, id, PopRecycle(pos, x), i, n, true);
      BusyUpdate(st.threads, id, PopRecycle(pos, x), i, n, false);
    }
    forall other: nat | other < |st.threads|
      ensures ThreadOk(st', st'.threads[other])
    {
      assert ThreadOk(st, st.threads[other]);
      if other != id {
        assert Weight(st.threads[other], i0, n, false) == 0;
      }
    }
  }

  lemma RecycleSlots<T>(st: State<T>, id: nat, pos: nat, v: T, st': State<T>)
    requires Inv(st) && id < |st.threads| && st.threads[id] == PopRecycle(pos, v)
    requires st' == st.(ring := st.ring[pos % |st.ring| := st.ring[pos % |st.ring|].(seqNo := pos + |st.ring|)],
                        threads := st.threads[id := Ready(Popped(Some(v)))])
    ensures forall i: nat | i < |st.ring| :: SlotOk(st', i) && Occupancy(st', i)
  {
    var n, i0 := |st.ring|, pos % |st.ring|;
    SlotFacts(st, pos);
    BusyFacts(st, id, false);
    NextTurn(pos, n);
    assert ThreadOk(st, st.threads[id]);
    forall i: nat | i < n
      ensures SlotOk(st', i) && Occupancy(st', i)
    {
      assert SlotOk(st, i) && Occupancy(st, i);
      assert i != i0 ==> Filled(st', i) == Filled(st, i) && Ticket(st', i) == Ticket(st, i);
      BusyUpdate(st.threads, id, Ready(Popped(Some(v))), i, n, true);
      BusyUpdate(st.threads, id, Ready(Popped(Some(v))), i, n, false);
    }
  }

  lemma RecycleThreads<T>(st: State<T>, id: nat, pos: nat, v: T, st': State<T>)
    requires Inv(st) && id < |st.threads| && st.threads[id] == PopRecycle(pos, v)
    requires st' == st.(ring := st.ring[pos % |st.ring| := st.ring[pos % |st.ring|].(seqNo := pos + |st.ring|)],
                        threads := st.threads[id := Ready(Popped(Some(v)))])
    ensures forall other: nat | other < |st.threads| :: ThreadOk(st', st'.threads[other])
  {
    hide Occupancy;
    var n, i0 := |st.ring|, pos % |st.ring|;
    SlotFacts(st, pos);
    BusyFacts(st, id, false);
    NextTurn(pos, n);
    assert ThreadOk(st, st.threads[id]);
    forall other: nat | other < |st.threads|
      ensures ThreadOk(st', st'.threads[other])
    {
      var pc := st.threads[other];
      assert ThreadOk(st, pc);
      NextSlot(pos, n);
      if other != id {
        assert Weight(pc, i0, n, false) == 0;
      }
    }
  }

  lemma Recycle<T>(st: State<T>, id: nat, pos: nat, v: T, st': State<T>)
    requires Inv(st) && id < |st.threads| && st.threads[id] == PopRecycle(pos, v)
    requires st' == st.(ring := st.ring[pos % |st.ring| := st.ring[pos % |st.ring|].(seqNo := pos + |st.ring|)],
                        threads := st.threads[id := Ready(Popped(Some(v)))])
    ensures Inv(st')
  {
    hide SlotOk, Occupancy, ThreadOk;
    RecycleSlots(st, id, pos, v, st');
    RecycleThreads(st, id, pos, v, st');
  }

  /** A step that changes only its own program counter, to one that is busy nowhere. */
  lemma Silent<T>(st: State<T>, id: nat, pc: Pc<T>)
    requires Inv(st) && id < |st.threads| && ThreadOk(st, pc)
    requires forall i: nat, push: bool | i < |st.ring| :: Weight(st.threads[id], i, |st.ring|, push) == Weight(pc, i, |st.ring|, push) == 0
    ensures Inv(st.(threads := st.threads[id := pc]))
  {
    var st' := st.(threads := st.threads[id := pc]);
    forall i: nat | i < |st.ring|
      ensures SlotOk(st', i) && Occupancy(st', i)
    {
      assert SlotOk(st, i) && Occupancy(st, i);
      BusyUpdate(st.threads, id, pc, i, |st.ring|, true);
      BusyUpdate(st.threads, id, pc, i, |st.ring|, false);
    }
    forall other: nat | other < |st.threads|
      ensures ThreadOk(st', st'.threads[other])
    {
      assert ThreadOk(st, st.threads[other]);
    }
  }

  lemma SilentStep<T>(st: State<T>, m: Move<T>)
    requires Inv(st) && m.id < |st.threads|
    requires var pc := st.threads[m.id];
             !pc.PushWrite? && !pc.PushPublish? && !pc.PopRead? && !pc.PopRecycle?
             && !(pc.PushCas? && st.head == pc.pos && !m.spurious) && !(pc.PopCas? && st.tail == pc.pos && !m.spurious)
    ensures Inv(Step(st, m))
  {
    var pc := st.threads[m.id];
    var i := Position(pc) % |st.ring|;
    var pc' := Exec(|st.ring|, pc, View(st.ring[i], st.head, st.tail), m).pc;
    assert ThreadOk(st, pc);
    assert ThreadOk(st, pc');
    Silent(st, m.id, pc');
    assert st.ring[i := st.ring[i]] == st.ring;
    assert Step(st, m) == st.(threads := st.threads[m.id := pc']);
  }

  // ---- Main results ----

  lemma StepKeepsInv<T>(st: State<T>, m: Move<T>)
    requires Inv(st)
    ensures Inv(Step(st, m))
  {
    if m.id < |st.threads| {
      var pc, st' := st.threads[m.id], Step(st, m);
      var i := Position(pc) % |st.ring|;
      assert ThreadOk(st, pc);
      if pc.PushCas? && st.head == pc.pos && !m.spurious {
        assert st.ring[i := st.ring[i]] == st.ring;
        WinHead(st, m.id, pc.v, pc.pos, st');
      } else if pc.PopCas? && st.tail == pc.pos && !m.spurious {
        assert st.ring[i := st.ring[i]] == st.ring;
        WinTail(st, m.id, pc.pos, st');
      } else if pc.PushWrite? {
        Write(st, m.id, pc.v, pc.pos, st');
      } else if pc.PushPublish? {
        Publish(st, m.id, pc.v, pc.pos, st');
      } else if pc.PopRead? {
        assert st.ring[i := st.ring[i]] == st.ring;
        Read(st, m.id, pc.pos, st');
      } else if pc.PopRecycle? {
        Recycle(st, m.id, pc.pos, pc.v, st');
      } else {
        SilentStep(st, m);
      }
    }
  }

  lemma InitialInv<T>(capacity: nat, n: nat, filler: T)
    requires capacity >= 2
    ensures Inv(Initial(capacity, n, filler))
  {
    var st := Initial(capacity, n, filler);
    forall i: nat | i < capacity
      ensures SlotOk(st, i) && Occupancy(st, i)
    {
      SmallRemainder(i, capacity);
      SumZero(Weights(st.threads, i, capacity, true));
      SumZero(Weights(st.threads, i, capacity, false));
    }
  }

  lemma SmallRemainder(i: nat, capacity: nat)
    requires i < capacity
    ensures i % capacity == i
  {
  }

  /** Every reachable state of a queue with at least two slots satisfies the invariant. */
  lemma {:induction false} RunKeepsInv<T>(st: State<T>, moves: seq<Move<T>>)
    requires Inv(st)
    ensures Inv(Run(st, moves))
  {
    if moves != [] {
      RunKeepsInv(st, moves[..|moves| - 1]);
      StepKeepsInv(Run(st, moves[..|moves| - 1]), moves[|moves| - 1]);
    }
  }

  /**
   Refinement of a FIFO bounded by the capacity: a push takes effect when its producer wins the
   head, a pop when its consumer wins the tail, and no other step changes the queue.
   */
  lemma StepRefinesFifo<T>(st: State<T>, m: Move<T>)
    requires Inv(st)
    ensures Inv(Step(st, m))
    ensures var q, q' := st.Abstract(), Step(st, m).Abstract();
            && |q'| <= |st.ring|
            && (|| q' == q
                || (m.id < |st.threads| && st.threads[m.id].PushCas? && Step(st, m).threads[m.id].PushWrite? && q' == q + [st.threads[m.id].v])
                || (m.id < |st.threads| && st.threads[m.id].PopCas? && Step(st, m).threads[m.id] == PopRead(st.tail) && q != [] && q' == q[1..] && q[0] == st.log[st.tail]))
  {
    StepKeepsInv(st, m);
    var st' := Step(st, m);
    if m.id < |st.threads| {
      var pc := st.threads[m.id];
      assert ThreadOk(st, pc);
      if pc.PushCas? && st.head == pc.pos && !m.spurious {
        assert st'.log[st'.tail..] == st.log[st.tail..] + [pc.v];
      } else if pc.PopCas? && st.tail == pc.pos && !m.spurious {
        SlotFacts(st, pc.pos);
        assert st'.log[st'.tail..] == st.log[st.tail..][1..];
      }
    }
  }

  /**
   A finished pop returns the value pushed with its ticket, no ticket is read twice, and the slot
   of an unread ticket still holds its value when it is read.
   */
  lemma PopReturnsTicketValue<T>(st: State<T>, m: Move<T>)
    requires Inv(st) && m.id < |st.threads|
    ensures var pc := st.threads[m.id];
            && (pc.PopRead? ==> pc.pos !in st.outs && pc.pos < |st.log| && Step(st, m).outs == st.outs[pc.pos := st.log[pc.pos]])
            && (pc.PopRecycle? ==> pc.pos < |st.log| && Step(st, m).threads[m.id] == Ready(Popped(Some(st.log[pc.pos]))))
            && (!pc.PopRead? ==> Step(st, m).outs == st.outs)
  {
    var pc := st.threads[m.id];
    assert ThreadOk(st, pc);
    if pc.PopRead? {
      SlotFacts(st, pc.pos);
    }
  }

  // ---- What a refusal means ----

  /** Sequence numbers never fall behind a position that has been won. */
  lemma SeqKeepsUp<T>(st: State<T>, pos: nat)
    requires Inv(st)
    ensures pos < st.head ==> st.At(pos).seqNo >= pos
    ensures pos < st.tail ==> st.At(pos).seqNo >= pos + 1
  {
    var n, i := |st.ring|, pos % |st.ring|;
    SlotFacts(st, pos);
    var p := Ticket(st, i);
    if p < pos {
      SameSlotBelow(p, pos, n);
    }
  }

  lemma SameSlotBelow(p: int, pos: int, n: nat)
    requires n > 0 && p % n == pos % n && p < pos
    ensures p + n <= pos
  {
    if pos - p < n {
      SameSlot(pos, p, n);
    }
  }

  /**
   A push is refused exactly if, when it reads the sequence number, its position is still the head
   and the ticket one turn earlier is not yet recycled.
   */
  lemma RefusedPush<T>(st: State<T>, m: Move<T>)
    requires Inv(st) && m.id < |st.threads| && st.threads[m.id].PushSeq?
    ensures Step(st, m).threads[m.id] == Ready(Pushed(false)) <==>
              && st.threads[m.id].pos == st.head
              && st.head >= |st.ring|
              && Ticket(st, st.head % |st.ring|) == st.head - |st.ring|
  {
    var pos, n := st.threads[m.id].pos, |st.ring|;
    assert ThreadOk(st, st.threads[m.id]);
    SeqKeepsUp(st, pos);
    SlotFacts(st, pos);
    var p := Ticket(st, pos % n);
    if st.ring[pos % n].seqNo < pos {
      SameSlotBelow(p, pos, n);
    }
  }

  /** A refused push means "full" exactly if no consumer is at work in the slot it was refused at. */
  lemma RefusedPushMeansFull<T>(st: State<T>, m: Move<T>)
    requires Inv(st) && m.id < |st.threads| && st.threads[m.id].PushSeq?
    requires Step(st, m).threads[m.id] == Ready(Pushed(false))
    ensures |st.Abstract()| == |st.ring| <==> Busy(st.threads, st.head % |st.ring|, |st.ring|, false) == 0
  {
    RefusedPush(st, m);
    assert SlotOk(st, st.head % |st.ring|) && Occupancy(st, st.head % |st.ring|);
  }

  /**
   A pop is refused exactly if its position is still the tail and the ticket there is unpublished;
   if that ticket has been won at all, its producer is still at work in the slot.
   */
  lemma RefusedPop<T>(st: State<T>, m: Move<T>)
    requires Inv(st) && m.id < |st.threads| && st.threads[m.id].PopSeq?
    ensures Step(st, m).threads[m.id] == Ready(Popped(None)) <==>
              && st.threads[m.id].pos == st.tail
              && !(Filled(st, st.tail % |st.ring|) && Ticket(st, st.tail % |st.ring|) == st.tail)
    ensures Step(st, m).threads[m.id] == Ready(Popped(None)) && st.tail < st.head ==>
              !Filled(st, st.tail % |st.ring|) && Ticket(st, st.tail % |st.ring|) == st.tail
  {
    var pos, n := st.threads[m.id].pos, |st.ring|;
    assert ThreadOk(st, st.threads[m.id]);
    SeqKeepsUp(st, pos);
    SlotFacts(st, pos);
    var p := Ticket(st, pos % n);
    if p < pos {
      SameSlotBelow(p, pos, n);
    } else if pos < p {
      SameSlotBelow(pos, p, n);
    }
  }

  /** A refused pop means "empty" exactly if no producer is at work in the slot it was refused at. */
  lemma RefusedPopMeansEmpty<T>(st: State<T>, m: Move<T>)
    requires Inv(st) && m.id < |st.threads| && st.threads[m.id].PopSeq?
    requires Step(st, m).threads[m.id] == Ready(Popped(None))
    ensures st.Abstract() == [] <==> Busy(st.threads, st.tail % |st.ring|, |st.ring|, true) == 0
  {
    RefusedPop(st, m);
    SlotFacts(st, st.tail);
    var p := Ticket(st, st.tail % |st.ring|);
    assert SlotOk(st, st.tail % |st.ring|) && Occupancy(st, st.tail % |st.ring|);
    if p < st.tail {
      SameSlotBelow(p, st.tail, |st.ring|);
    } else if st.tail < p {
      SameSlotBelow(st.tail, p, |st.ring|);
    }
  }

  ghost predicate NoneBusy<T>(st: State<T>) {
    forall id: nat | id < |st.threads| ::
      var pc := st.threads[id]; !pc.PushWrite? && !pc.PushPublish? && !pc.PopRead? && !pc.PopRecycle?
  }

  /** With no other operation under way a push at the head is refused exactly when the queue is full. */
  lemma QuietPushRefusedIffFull<T>(st: State<T>, m: Move<T>)
    requires Inv(st) && NoneBusy(st) && m.id < |st.threads|
    requires st.threads[m.id].PushSeq? && st.threads[m.id].pos == st.head
    ensures Step(st, m).threads[m.id] == Ready(Pushed(false)) <==> |st.Abstract()| == |st.ring|
    ensures Step(st, m).threads[m.id] == Ready(Pushed(false)) || Step(st, m).threads[m.id].PushCas?
  {
    QuietSlot(st, st.head);
    RefusedPush(st, m);
  }

  /** ... and a pop at the tail exactly when it is empty. */
  lemma QuietPopRefusedIffEmpty<T>(st: State<T>, m: Move<T>)
    requires Inv(st) && NoneBusy(st) && m.id < |st.threads|
    requires st.threads[m.id].PopSeq? && st.threads[m.id].pos == st.tail
    ensures Step(st, m).threads[m.id] == Ready(Popped(None)) <==> st.Abstract() == []
    ensures Step(st, m).threads[m.id] == Ready(Popped(None)) || Step(st, m).threads[m.id].PopCas?
  {
    QuietSlot(st, st.tail);
    RefusedPop(st, m);
  }

  /** With nobody busy every slot between the ends is filled and every other one is free. */
  lemma QuietSlot<T>(st: State<T>, pos: nat)
    requires Inv(st) && NoneBusy(st) && st.tail <= pos <= st.tail + |st.ring|
    ensures var i := pos % |st.ring|;
            if pos < st.head then Filled(st, i) && Ticket(st, i) == pos
            else if pos < st.tail + |st.ring| then !Filled(st, i) && Ticket(st, i) == pos
            else Ticket(st, i) == pos - |st.ring|
  {
    var n, i := |st.ring|, pos % |st.ring|;
    SlotFacts(st, pos);
    assert Occupancy(st, i);
    SumZero(Weights(st.threads, i, n, true));
    SumZero(Weights(st.threads, i, n, false));
    var p := Ticket(st, i);
    if p < pos {
      SameSlotBelow(p, pos, n);
    } else if pos < p {
      SameSlotBelow(pos, p, n);
    }
  }
}
