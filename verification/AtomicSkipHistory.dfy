/**
 Without deletions the concurrent skip list is a map: each lookup and each insertion takes effect at one
 of its own steps and answers what the map held there. An insertion that has lost a swap puts nothing in
 the place of what it was given; `AtomicSkipSafety.FinishedInsertion` says when.
 */
module AtomicSkipHistory {
  import opened Options
  import opened TaggedPtr
  import opened AtomicSkipMachine
  import opened AtomicSkipProofs
  import opened AtomicSkipSafety

  // ---- The map ----

  ghost predicate Holds<V>(h: Heap<V>, id: nat, key: int) {
    id in h.order && id < |h.nodes| && h.nodes[id].key == key
  }

  /** What the list holds for `key`: the handle of its listed node, and nothing if there is none. */
  ghost function Value<V>(h: Heap<V>, key: int): Option<V> {
    if exists id: nat :: Holds(h, id, key) then
      var id: nat :| Holds(h, id, key);
      h.nodes[id].handle
    else None
  }

  lemma ValueAt<V>(h: Heap<V>, id: nat)
    requires Ordered(h) && id in h.order
    ensures id < |h.nodes| && Value(h, h.nodes[id].key) == h.nodes[id].handle
  {
    ListedInRange(h);
    var key := h.nodes[id].key;
    assert Holds(h, id, key);
    forall other: nat | Holds(h, other, key) ensures other == id {
      KeysAreUnique(h, other, id);
    }
  }

  lemma ValueNowhere<V>(h: Heap<V>, key: int)
    requires Ordered(h)
    ensures !HasKey(h, key) ==> Value(h, key) == None
  {
    forall id: nat | Holds(h, id, key) ensures HasKey(h, key) {
      var i := Position(h, id);
      BottomNext(h, i);
      assert Listed(h, id, 0);
    }
  }

  /** The same nodes with the same keys and handles make the same map. */
  lemma ValueSame<V>(h: Heap<V>, h': Heap<V>, key: int)
    requires Ordered(h) && Ordered(h')
    requires forall id: nat :: Holds(h, id, key) <==> Holds(h', id, key)
    requires forall id: nat | Holds(h, id, key) && Holds(h', id, key) :: h'.nodes[id].handle == h.nodes[id].handle
    ensures Value(h', key) == Value(h, key)
  {
    hide Ordered;
    if id: nat :| Holds(h, id, key) {
      ValueAt(h, id);
      ValueAt(h', id);
    }
  }

  // ---- Histories ----

  datatype Event<+V> =
    | Read(id: nat, key: int, value: Option<V>)
    | Put(id: nat, key: int, item: Option<V>, value: Option<V>)
    | Ignored(id: nat)

  /** What `key` maps to after the events of `log`. */
  ghost function Replay<V>(init: Option<V>, key: int, log: seq<Event<V>>): Option<V> {
    if log == [] then init
    else
      var e := log[|log| - 1];
      if e.Put? && e.key == key then e.item else Replay(init, key, log[..|log| - 1])
  }

  /** Every event reports what the map held for its key just before it. */
  ghost predicate Legal<V>(h: Heap<V>, log: seq<Event<V>>) {
    forall i: nat | i < |log| && !log[i].Ignored? :: log[i].value == Replay(Value(h, log[i].key), log[i].key, log[..i])
  }

  /** The event a step commits, with the value its thread goes on to answer. */
  ghost function Commit<V>(st: State<V>, m: Move<V>): seq<Event<V>> {
    if !Acts(st, m) then [] else
      var h, f := st.heap, Target(st, m);
      match st.threads[m.id]
      case Idle(_) => if m.op.Insert? && IsKey(m.op.key) && m.op.handle.None? then [Ignored(m.id)] else []
      case Find(goal, key, _, _, _, _) => if goal.ForGet? && f.pc.Idle? then [Read(m.id, key, None)] else []
      case GetHandle(node) => if node < |h.nodes| then [Read(m.id, h.nodes[node].key, h.nodes[node].handle)] else []
      case UpdateHandle(node, handle) => if node < |h.nodes| then [Put(m.id, h.nodes[node].key, handle, h.nodes[node].handle)] else []
      case LinkBottom(key, node, _) =>
        if (f.pc.LinkUpper? || f.pc.CountNode?) && node < |h.nodes| then [Put(m.id, key, h.nodes[node].handle, None)] else []
      case _ => []
  }

  ghost function History<V>(st: State<V>, moves: seq<Move<V>>): seq<Event<V>> {
    if moves == [] then []
    else History(st, moves[..|moves| - 1]) + Commit(Run(st, moves[..|moves| - 1]), moves[|moves| - 1])
  }

  /** What the last event of a thread says it answers. */
  ghost function Outcome<V>(log: seq<Event<V>>, id: nat): Output<V> {
    if log == [] then Nothing
    else
      var e := log[|log| - 1];
      if e.id != id then Outcome(log[..|log| - 1], id)
      else
        match e
        case Read(_, _, v) => Got(v)
        case Put(_, _, _, v) => Inserted(v)
        case Ignored(_) => Inserted(None)
  }

  /** A thread at rest has answered, and one past its commit will answer, what its last event says. */
  ghost predicate Answers<V>(pc: Pc<V>, log: seq<Event<V>>, id: nat) {
    match pc
    case Idle(out) => out == Outcome(log, id)
    case LinkUpper(_, _, _, _) => Outcome(log, id) == Inserted(None)
    case CountNode(_) => Outcome(log, id) == Inserted(None)
    case Find(goal, _, _, _, _, _) => goal.ForRelink? ==> Outcome(log, id) == Inserted(None)
    case _ => true
  }

  // ---- Nothing is marked ----

  ghost predicate Plain<V>(pc: Pc<V>) {
    !pc.MarkRead? && !pc.MarkSwap? && !pc.MarkHandle?
  }

  ghost predicate Unmarked<V>(st: State<V>) {
    && (forall id: nat | id < |st.threads| :: Plain(st.threads[id]))
    && (forall id: nat, l: nat | HasLink(st.heap.nodes, id, l) :: !st.heap.nodes[id].nexts[l].mark)
  }

  lemma StepStaysUnmarked<V>(st: State<V>, m: Move<V>)
    requires Unmarked(st) && !m.op.MarkDeleted?
    ensures Unmarked(Step(st, m))
  {
    if Acts(st, m) {
      var pc := st.threads[m.id];
      assert Plain(pc);
      assert Plain(Target(st, m).pc);
    }
  }

  // ---- One step ----

  /** What a step that puts `item` for `key` does to the map, and what any other step does: nothing. */
  ghost predicate Updates<V>(h: Heap<V>, h': Heap<V>, log: seq<Event<V>>) {
    forall key: int :: Value(h', key) == Replay(Value(h, key), key, log)
  }

  ghost predicate SameMap<V>(h: Heap<V>, h': Heap<V>) {
    && h'.order == h.order && |h.nodes| <= |h'.nodes|
    && forall id: nat | id < |h.nodes| :: h'.nodes[id].key == h.nodes[id].key && h'.nodes[id].handle == h.nodes[id].handle
  }

  lemma SameMapUpdates<V>(h: Heap<V>, h': Heap<V>, log: seq<Event<V>>)
    requires Ordered(h) && Ordered(h') && SameMap(h, h') && |log| <= 1 && forall e | e in log :: !e.Put?
    ensures Updates(h, h', log)
  {
    ListedInRange(h);
    assert log != [] ==> log[..0] == [];
    hide Ordered;
    forall key: int ensures Value(h', key) == Replay(Value(h, key), key, log) {
      ValueSame(h, h', key);
    }
  }

  lemma HandleUpdates<V>(h: Heap<V>, node: nat, handle: Option<V>, log: seq<Event<V>>)
    requires Ordered(h) && node in h.order && node < |h.nodes| && Ordered(SetHandle(h, node, handle))
    requires |log| == 1 && log[0].Put? && log[0].key == h.nodes[node].key && log[0].item == handle
    ensures Updates(h, SetHandle(h, node, handle), log)
  {
    var h' := SetHandle(h, node, handle);
    ValueAt(h, node);
    ValueAt(h', node);
    assert log[..0] == [];
    forall key: int ensures Value(h', key) == Replay(Value(h, key), key, log) {
      if key != h.nodes[node].key {
        ValueSame(h, h', key);
      }
    }
  }

  /** Only the linked node is new in the list; keys and handles are as they were. */
  lemma BottomHolds<V>(h: Heap<V>, i: nat, node: nat, w: Tag, key: int, id: nat)
    requires FitsBehind(h, i, node)
    ensures node < |h.nodes| && |BottomLinked(h, i, node, w).nodes| == |h.nodes| && node in BottomLinked(h, i, node, w).order
    ensures Holds(BottomLinked(h, i, node, w), id, key) <==> Holds(h, id, key) || (id == node && h.nodes[node].key == key)
    ensures id < |h.nodes| ==> BottomLinked(h, i, node, w).nodes[id].handle == h.nodes[id].handle && BottomLinked(h, i, node, w).nodes[id].key == h.nodes[id].key
  {
    hide Leads;
  }

  lemma BottomUpdates<V>(h: Heap<V>, i: nat, node: nat, w: Tag, log: seq<Event<V>>)
    requires HeapOk(h) && FitsBehind(h, i, node) && HeapOk(BottomLinked(h, i, node, w))
    requires node < |h.nodes| && |log| == 1 && log[0].Put? && log[0].key == h.nodes[node].key && log[0].item == h.nodes[node].handle
    ensures Updates(h, BottomLinked(h, i, node, w), log)
  {
    var h' := BottomLinked(h, i, node, w);
    InvOrdered(h);
    InvOrdered(h');
    hide HeapOk, FitsBehind, BottomLinked;
    forall key: int, id: nat
      ensures Holds(h', id, key) <==> Holds(h, id, key) || (id == node && h.nodes[node].key == key)
      ensures id < |h.nodes| <==> id < |h'.nodes|
      ensures id < |h.nodes| ==> h'.nodes[id].handle == h.nodes[id].handle && h'.nodes[id].key == h.nodes[id].key
      ensures node in h'.order
    {
      BottomHolds(h, i, node, w, key, id);
    }
    ValueAt(h', node);
    assert log[..0] == [];
    hide Ordered, Holds;
    forall key: int ensures Value(h', key) == Replay(Value(h, key), key, log) {
      if key != h.nodes[node].key {
        ValueSame(h, h', key);
      }
    }
  }

  /** A step changes the map exactly by committing a put, and whatever it commits reports the map. */
  ghost predicate Commits<V>(st: State<V>, m: Move<V>) {
    && |Commit(st, m)| <= 1
    && (forall e | e in Commit(st, m) && !e.Ignored? :: e.value == Value(st.heap, e.key))
    && Updates(st.heap, Step(st, m).heap, Commit(st, m))
  }

  lemma PutCommits<V>(st: State<V>, m: Move<V>)
    requires Inv(st) && Acts(st, m) && st.threads[m.id].UpdateHandle?
    ensures Commits(st, m)
  {
    var h, pc := st.heap, st.threads[m.id];
    assert ThreadOk(h, pc);
    InvOrdered(h);
    ValueAt(h, pc.node);
    StepOrdered(st, m);
    HandleUpdates(h, pc.node, pc.handle, Commit(st, m));
    hide Inv;
  }

  lemma StepOrdered<V>(st: State<V>, m: Move<V>)
    requires Inv(st)
    ensures Inv(Step(st, m)) && HeapOk(st.heap) && Ordered(st.heap) && Ordered(Step(st, m).heap)
  {
    StepKeepsInv(st, m);
    hide Step, Ordered, LinksOk, ThreadsOk, CountOk, Exclusive;
    InvOrdered(st.heap);
    InvOrdered(Step(st, m).heap);
  }

  ghost predicate LinkReady<V>(h: Heap<V>, pc: Pc<V>) {
    && HeapOk(h) && pc.LinkBottom? && ThreadOk(h, pc)
    && |pc.trail.preds| == |pc.trail.succs| == TOP + 1 && HasLink(h.nodes, pc.trail.preds[0], 0)
    && h.nodes[pc.trail.preds[0]].nexts[0] == pc.trail.succs[0]
  }

  lemma LinkedHeap<V>(h: Heap<V>, pc: Pc<V>, m: Move<V>) returns (i: nat)
    requires LinkReady(h, pc)
    ensures FitsBehind(h, i, pc.node) && h.nodes[pc.node].key == pc.key
    ensures Exec(pc, h, m).heap == BottomLinked(h, i, pc.node, Linked(pc.trail.succs[0], pc.node))
  {
    InvOrdered(h);
    i := BottomFits(h, pc);
    hide Ordered, LinksOk, FitsBehind, Place, Leads, TrailOk, BottomLinked;
    BottomSucceeds(h, pc, i, m);
  }

  lemma LinkedPut<V>(h: Heap<V>, pc: Pc<V>, m: Move<V>, log: seq<Event<V>>)
    requires LinkReady(h, pc) && pc.node < |h.nodes| && log == [Put(m.id, pc.key, h.nodes[pc.node].handle, None)]
    ensures Updates(h, Exec(pc, h, m).heap, log) && Value(h, pc.key) == None
  {
    InvOrdered(h);
    var i := LinkedHeap(h, pc, m);
    var w := Linked(pc.trail.succs[0], pc.node);
    AbsentBetween(h, i, pc.node, pc.key);
    ValueNowhere(h, pc.key);
    BottomKeeps(h, i, pc.node, w);
    hide Exec, Updates, BottomLinked, FitsBehind, HasKey, Value, Ordered, LinkReady, HeapOk;
    BottomUpdates(h, i, pc.node, w, log);
  }

  lemma LinkWins<V>(st: State<V>, m: Move<V>)
    requires Inv(st) && Acts(st, m) && LinkReady(st.heap, st.threads[m.id])
    ensures Commits(st, m)
  {
    var h, pc := st.heap, st.threads[m.id];
    LinkLists(h, pc, m);
    assert pc.node < |h.nodes|;
    hide Inv, LinkReady, Exec, Updates, Value, Listed, Ordered;
    LinkedPut(h, pc, m, [Put(m.id, pc.key, h.nodes[pc.node].handle, None)]);
  }

  lemma LinkLoses<V>(st: State<V>, m: Move<V>)
    requires Inv(st) && Acts(st, m) && st.threads[m.id].LinkBottom? && ThreadOk(st.heap, st.threads[m.id])
    requires var pc, h := st.threads[m.id], st.heap;
             && |pc.trail.preds| == |pc.trail.succs| == TOP + 1 && HasLink(h.nodes, pc.trail.preds[0], 0)
             && h.nodes[pc.trail.preds[0]].nexts[0] != pc.trail.succs[0]
    ensures Commits(st, m)
  {
    StepOrdered(st, m);
    hide Ordered, Inv;
    LinkFails(st.heap, st.threads[m.id], m);
    hide Exec, StartFind, ThreadOk;
    SameMapUpdates(st.heap, Step(st, m).heap, Commit(st, m));
  }

  lemma LinkCommitsPut<V>(st: State<V>, m: Move<V>)
    requires Inv(st) && Acts(st, m) && st.threads[m.id].LinkBottom?
    ensures Commits(st, m)
  {
    var h, pc := st.heap, st.threads[m.id];
    assert ThreadOk(h, pc);
    BottomPred(h, pc);
    InvOrdered(h);
    hide ThreadOk, Commits, Ordered, LinksOk;
    if h.nodes[pc.trail.preds[0]].nexts[0] == pc.trail.succs[0] {
      assert LinkReady(h, pc);
      LinkWins(st, m);
    } else {
      LinkLoses(st, m);
    }
  }

  /** All other steps leave the map alone; those that end a lookup report what it holds. */
  lemma OtherSteps<V>(st: State<V>, m: Move<V>)
    requires Inv(st) && Acts(st, m) && !st.threads[m.id].LinkBottom? && !st.threads[m.id].UpdateHandle? && Plain(st.threads[m.id])
    ensures SameMap(st.heap, Step(st, m).heap)
    ensures forall e | e in Commit(st, m) :: !e.Put?
  {
    hide Inv, FindStep;
  }

  lemma ReadsCommit<V>(st: State<V>, m: Move<V>)
    requires Inv(st) && Acts(st, m) && (st.threads[m.id].Find? || st.threads[m.id].GetHandle?)
    ensures forall e | e in Commit(st, m) :: e.value == Value(st.heap, e.key)
  {
    var h, pc := st.heap, st.threads[m.id];
    assert ThreadOk(h, pc);
    InvOrdered(h);
    if pc.GetHandle? {
      ValueAt(h, pc.node);
    } else if pc.goal.ForGet? {
      SearchIsExact(st, m);
      ValueNowhere(h, pc.key);
    }
    hide Inv, Ordered, ThreadOk, FindStep, Value, HasKey;
  }

  lemma StepCommits<V>(st: State<V>, m: Move<V>)
    requires Inv(st) && Unmarked(st) && Acts(st, m)
    ensures Commits(st, m)
  {
    var pc := st.threads[m.id];
    assert Plain(pc);
    if pc.LinkBottom? {
      LinkCommitsPut(st, m);
    } else if pc.UpdateHandle? {
      PutCommits(st, m);
    } else {
      OtherSteps(st, m);
      StepOrdered(st, m);
      if pc.Find? || pc.GetHandle? {
        ReadsCommit(st, m);
      }
      CommitSmall(st, m);
      hide Inv, Exec, Unmarked, Ordered;
      SameMapUpdates(st.heap, Step(st, m).heap, Commit(st, m));
    }
  }

  lemma CommitSmall<V>(st: State<V>, m: Move<V>)
    ensures |Commit(st, m)| <= 1
    ensures Acts(st, m) && !st.threads[m.id].Find? && !st.threads[m.id].GetHandle? && !st.threads[m.id].LinkBottom? && !st.threads[m.id].UpdateHandle? ==>
              forall e | e in Commit(st, m) :: e.Ignored?
  {
    hide Exec;
  }

  /** A call that has not taken effect yet. */
  ghost predicate Pending<V>(pc: Pc<V>) {
    (pc.Find? && !pc.goal.ForRelink?) || pc.GetMark? || pc.GetHandle? || pc.UpdateHandle? || pc.NewNode? || pc.LinkBottom?
  }

  lemma MarkIsOff<V>(st: State<V>, m: Move<V>)
    requires Unmarked(st) && Acts(st, m) && st.threads[m.id].GetMark?
    ensures !Target(st, m).pc.Idle? && Target(st, m).heap == st.heap
  {
  }

  lemma FindStepGoal<V>(pc: Pc<V>, nodes: seq<Node<V>>)
    requires pc.Find?
    ensures var pc' := FindStep(pc, nodes);
            && (pc'.Find? ==> pc'.goal == pc.goal && pc'.key == pc.key)
            && (!pc'.Find? && !pc'.Fault? ==>
                  match pc.goal
                  case ForGet => pc' == Idle(Got(None)) || pc'.GetMark?
                  case ForInsert(_) => pc'.UpdateHandle? || (pc'.NewNode? && pc'.key == pc.key)
                  case ForRelink(_, _) => pc'.LinkUpper?)
  {
  }

  /** A call takes effect exactly once: on the step on which it stops being pending. */
  lemma CommitsOnce<V>(st: State<V>, m: Move<V>)
    requires Inv(st) && Unmarked(st) && Acts(st, m) && Pending(st.threads[m.id])
    ensures |Commit(st, m)| == 1 <==> !Pending(Target(st, m).pc)
  {
    var pc := st.threads[m.id];
    assert ThreadOk(st.heap, pc);
    OwnNeverFaults(st, m);
    if pc.Find? {
      FindStepGoal(pc, st.heap.nodes);
    } else if pc.GetMark? {
      MarkIsOff(st, m);
    }
    hide Inv, FindStep, Unmarked;
  }

  lemma OwnNeverFaults<V>(st: State<V>, m: Move<V>)
    requires Inv(st) && Acts(st, m)
    ensures Target(st, m).pc != Fault
  {
    StepKeepsInv(st, m);
    hide Exec;
    assert ThreadOk(Step(st, m).heap, Step(st, m).threads[m.id]);
  }

  // ---- Answers ----

  lemma OutcomeAppend<V>(log: seq<Event<V>>, more: seq<Event<V>>, id: nat)
    requires |more| <= 1
    ensures Outcome(log + more, id) ==
            if more == [] || more[0].id != id then Outcome(log, id)
            else match more[0] case Read(_, _, v) => Got(v) case Put(_, _, _, v) => Inserted(v) case Ignored(_) => Inserted(None)
  {
    if more == [] {
      assert log + more == log;
    } else {
      assert (log + more)[..|log + more| - 1] == log;
    }
  }

  lemma CallAnswer<V>(st: State<V>, m: Move<V>, log: seq<Event<V>>)
    requires Acts(st, m) && (st.threads[m.id].Idle? || st.threads[m.id].Find?) && !m.op.MarkDeleted? && Answers(st.threads[m.id], log, m.id)
    ensures Answers(Target(st, m).pc, log + Commit(st, m), m.id)
  {
    var pc := st.threads[m.id];
    CommitSmall(st, m);
    OutcomeAppend(log, Commit(st, m), m.id);
    if pc.Find? {
      FindStepGoal(pc, st.heap.nodes);
    }
    hide FindStep, Outcome;
  }

  lemma LinkAnswer<V>(st: State<V>, m: Move<V>, log: seq<Event<V>>)
    requires Acts(st, m) && (st.threads[m.id].LinkUpper? || st.threads[m.id].LinkBottom? || st.threads[m.id].CountNode?) && Answers(st.threads[m.id], log, m.id)
    ensures Answers(Target(st, m).pc, log + Commit(st, m), m.id)
  {
    CommitSmall(st, m);
    OutcomeAppend(log, Commit(st, m), m.id);
    hide Outcome, SetLink, Place, Linked;
  }

  lemma ReadAnswer<V>(st: State<V>, m: Move<V>, log: seq<Event<V>>)
    requires Acts(st, m) && Unmarked(st) && Answers(st.threads[m.id], log, m.id)
    requires var pc := st.threads[m.id]; pc.GetMark? || pc.GetHandle? || pc.UpdateHandle? || pc.NewNode? || pc.Fault?
    ensures Answers(Target(st, m).pc, log + Commit(st, m), m.id)
  {
    CommitSmall(st, m);
    OutcomeAppend(log, Commit(st, m), m.id);
    if st.threads[m.id].GetMark? {
      MarkIsOff(st, m);
    }
    hide Outcome, Unmarked;
  }

  lemma OwnAnswer<V>(st: State<V>, m: Move<V>, log: seq<Event<V>>)
    requires Unmarked(st) && Acts(st, m) && !m.op.MarkDeleted? && Answers(st.threads[m.id], log, m.id)
    ensures Answers(Target(st, m).pc, log + Commit(st, m), m.id)
  {
    var pc := st.threads[m.id];
    assert Plain(pc);
    hide Exec, Commit, Answers, Unmarked;
    if pc.Idle? || pc.Find? {
      CallAnswer(st, m, log);
    } else if pc.LinkUpper? || pc.LinkBottom? || pc.CountNode? {
      LinkAnswer(st, m, log);
    } else {
      ReadAnswer(st, m, log);
    }
  }

  lemma StepAnswers<V>(st: State<V>, m: Move<V>, log: seq<Event<V>>, id: nat)
    requires Inv(st) && Unmarked(st) && !m.op.MarkDeleted? && id < |st.threads| && Answers(st.threads[id], log, id)
    ensures Answers(Step(st, m).threads[id], log + Commit(st, m), id)
  {
    if Acts(st, m) && m.id == id {
      OwnAnswer(st, m, log);
    } else {
      CommitSmall(st, m);
      OthersCommit(st, m);
      OutcomeAppend(log, Commit(st, m), id);
    }
  }

  lemma OthersCommit<V>(st: State<V>, m: Move<V>)
    ensures forall e | e in Commit(st, m) :: e.id == m.id
  {
    hide Exec;
  }

  // ---- Whole runs ----

  lemma ReplayAppend<V>(init: Option<V>, key: int, log: seq<Event<V>>, more: seq<Event<V>>)
    requires |more| <= 1
    ensures Replay(init, key, log + more) == Replay(Replay(init, key, log), key, more)
  {
    if more == [] {
      assert log + more == log;
    } else {
      assert (log + more)[..|log + more| - 1] == log && more[..0] == [];
    }
  }

  lemma LegalAppend<V>(h: Heap<V>, h': Heap<V>, log: seq<Event<V>>, more: seq<Event<V>>)
    requires |more| <= 1 && Legal(h, log) && Updates(h, h', log)
    requires forall e | e in more && !e.Ignored? :: e.value == Value(h', e.key)
    ensures Legal(h, log + more)
  {
    var both := log + more;
    forall i: nat | i < |both| && !both[i].Ignored?
      ensures both[i].value == Replay(Value(h, both[i].key), both[i].key, both[..i])
    {
      if i < |log| {
        assert both[..i] == log[..i] && both[i] == log[i];
      } else {
        assert both[..i] == log && both[i] in more;
      }
    }
  }

  lemma UpdatesAppend<V>(h: Heap<V>, mid: Heap<V>, end: Heap<V>, log: seq<Event<V>>, more: seq<Event<V>>)
    requires |more| <= 1 && Updates(h, mid, log) && Updates(mid, end, more)
    ensures Updates(h, end, log + more)
  {
    forall key: int ensures Value(end, key) == Replay(Value(h, key), key, log + more) {
      ReplayAppend(Value(h, key), key, log, more);
    }
  }

  lemma {:induction false} RunStaysUnmarked<V>(st: State<V>, moves: seq<Move<V>>)
    requires Unmarked(st) && NoDeletion(moves)
    ensures Unmarked(Run(st, moves))
  {
    hide Unmarked, Step;
    if moves != [] {
      var n := |moves| - 1;
      assert !moves[n].op.MarkDeleted?;
      RunStaysUnmarked(st, moves[..n]);
      StepStaysUnmarked(Run(st, moves[..n]), moves[n]);
    }
  }

  /**
   Any run without deletions is a legal history of the map, ends with the map the history makes, and
   every thread answers as the history says, whatever swaps are lost.
   */
  lemma {:induction false} Linearizes<V>(st: State<V>, moves: seq<Move<V>>, id: nat)
    requires Inv(st) && Unmarked(st) && NoDeletion(moves) && id < |st.threads| && st.threads[id] == Idle(Nothing)
    ensures Legal(st.heap, History(st, moves))
    ensures Updates(st.heap, Run(st, moves).heap, History(st, moves))
    ensures Answers(Run(st, moves).threads[id], History(st, moves), id)
  {
    if moves == [] {
      assert Updates(st.heap, st.heap, []);
    } else {
      hide Inv, Unmarked, Step, Answers, Commit, Legal, Updates;
      var n := |moves| - 1;
      var before := Run(st, moves[..n]);
      assert !moves[n].op.MarkDeleted?;
      Linearizes(st, moves[..n], id);
      RunKeepsInv(st, moves[..n]);
      RunStaysUnmarked(st, moves[..n]);
      OneMore(st.heap, before, moves[n], History(st, moves[..n]));
      StepAnswers(before, moves[n], History(st, moves[..n]), id);
    }
  }

  lemma OneMore<V>(h: Heap<V>, st: State<V>, m: Move<V>, log: seq<Event<V>>)
    requires Inv(st) && Unmarked(st) && Legal(h, log) && Updates(h, st.heap, log)
    ensures Legal(h, log + Commit(st, m)) && Updates(h, Step(st, m).heap, log + Commit(st, m))
  {
    hide Inv, Unmarked, Exec, Legal, Updates;
    CommitSmall(st, m);
    if Acts(st, m) {
      StepCommits(st, m);
      hide Commit;
      LegalAppend(h, st.heap, log, Commit(st, m));
      UpdatesAppend(h, st.heap, Step(st, m).heap, log, Commit(st, m));
    } else {
      assert log + [] == log;
    }
  }

  lemma InitialUnmarked<V>(n: nat)
    ensures Unmarked(Initial<V>(n)) && forall key: int :: Value(Initial<V>(n).heap, key) == None
  {
    var h := Initial<V>(n).heap;
    forall key: int ensures Value(h, key) == None {
    }
  }

  // ---- The key of a call ----

  /** The pending call is for `key`: it searches for it, or has the node of it in hand. */
  ghost predicate Serves<V>(h: Heap<V>, pc: Pc<V>, key: int)
    requires Pending(pc)
  {
    match pc
    case Find(_, k, _, _, _, _) => k == key
    case NewNode(k, _, _) => k == key
    case LinkBottom(k, node, _) => k == key
    case GetMark(node) => node < |h.nodes| && h.nodes[node].key == key
    case GetHandle(node) => node < |h.nodes| && h.nodes[node].key == key
    case UpdateHandle(node, _) => node < |h.nodes| && h.nodes[node].key == key
  }

  lemma CallServes<V>(st: State<V>, m: Move<V>)
    requires Acts(st, m) && st.threads[m.id].Idle? && Pending(Target(st, m).pc)
    ensures m.op.Get? || m.op.Insert?
    ensures Serves(Target(st, m).heap, Target(st, m).pc, m.op.key)
  {
  }

  lemma FindServes<V>(st: State<V>, m: Move<V>, key: int)
    requires Inv(st) && Acts(st, m) && st.threads[m.id].Find? && Pending(st.threads[m.id]) && Serves(st.heap, st.threads[m.id], key)
    ensures Pending(Target(st, m).pc) ==> Serves(Target(st, m).heap, Target(st, m).pc, key)
  {
    SearchIsExact(st, m);
    FindStepGoal(st.threads[m.id], st.heap.nodes);
    hide Inv, HasKey, FindStep;
  }

  lemma NodeServes<V>(h: Heap<V>, pc: Pc<V>, m: Move<V>, key: int)
    requires Pending(pc) && !pc.Find? && Serves(h, pc, key) && Pending(Exec(pc, h, m).pc)
    ensures Serves(Exec(pc, h, m).heap, Exec(pc, h, m).pc, key)
  {
  }

  lemma CommitServes<V>(st: State<V>, m: Move<V>, key: int)
    requires Acts(st, m) && Pending(st.threads[m.id]) && Serves(st.heap, st.threads[m.id], key)
    ensures forall e | e in Commit(st, m) && !e.Ignored? :: e.key == key
  {
    hide Exec;
  }

  lemma OwnServes<V>(st: State<V>, m: Move<V>, key: int)
    requires Inv(st) && Acts(st, m) && Pending(st.threads[m.id]) && Serves(st.heap, st.threads[m.id], key)
    ensures Pending(Target(st, m).pc) ==> Serves(Target(st, m).heap, Target(st, m).pc, key)
    ensures forall e | e in Commit(st, m) && !e.Ignored? :: e.key == key
  {
    hide Inv, Exec, Commit, Serves, Pending;
    CommitServes(st, m, key);
    if st.threads[m.id].Find? {
      FindServes(st, m, key);
    } else if Pending(Target(st, m).pc) {
      NodeServes(st.heap, st.threads[m.id], m, key);
    }
  }

  lemma ServesStep<V>(st: State<V>, m: Move<V>, id: nat, key: int)
    requires Inv(st) && id < |st.threads| && Pending(st.threads[id]) && Serves(st.heap, st.threads[id], key)
    ensures Pending(Step(st, m).threads[id]) ==> Serves(Step(st, m).heap, Step(st, m).threads[id], key)
  {
    if Acts(st, m) && m.id == id {
      OwnServes(st, m, key);
    } else {
      StepExtends(st, m);
    }
    hide Inv, Exec;
  }

  ghost predicate PendingThroughout<V>(st: State<V>, moves: seq<Move<V>>, id: nat)
    requires id < |st.threads|
  {
    forall i: nat | i <= |moves| :: Pending(Run(st, moves[..i]).threads[id])
  }

  lemma {:induction false} PendingPrefix<V>(st: State<V>, moves: seq<Move<V>>, id: nat, n: nat)
    requires id < |st.threads| && PendingThroughout(st, moves, id) && n <= |moves|
    ensures PendingThroughout(st, moves[..n], id) && Pending(Run(st, moves[..n]).threads[id])
  {
    hide Pending, Run;
    forall i: nat | i <= n ensures Pending(Run(st, moves[..n][..i]).threads[id]) {
      assert moves[..n][..i] == moves[..i];
    }
  }

  lemma {:induction false} ServesThroughout<V>(st: State<V>, moves: seq<Move<V>>, id: nat, key: int)
    requires Inv(st) && id < |st.threads| && PendingThroughout(st, moves, id)
    requires Pending(st.threads[id]) && Serves(st.heap, st.threads[id], key)
    ensures Pending(Run(st, moves).threads[id]) && Serves(Run(st, moves).heap, Run(st, moves).threads[id], key)
  {
    hide Inv, Step, Pending, Serves;
    PendingPrefix(st, moves, id, |moves|);
    assert moves[..|moves|] == moves;
    if moves != [] {
      var n := |moves| - 1;
      PendingPrefix(st, moves, id, n);
      ServesThroughout(st, moves[..n], id, key);
      RunKeepsInv(st, moves[..n]);
      ServesStep(Run(st, moves[..n]), moves[n], id, key);
    }
  }

  /** A lookup of `key` answers what the map holds for `key` at its last step, however long it has taken. */
  lemma {:induction false} LookupAnswersMap<V>(st: State<V>, moves: seq<Move<V>>, m: Move<V>, key: int)
    requires Inv(st) && Unmarked(st) && NoDeletion(moves) && m.id < |st.threads| && PendingThroughout(st, moves, m.id)
    requires Pending(st.threads[m.id]) && Serves(st.heap, st.threads[m.id], key)
    requires var here := Run(st, moves); Step(here, m).threads[m.id].Idle? && Step(here, m).threads[m.id].out.Got?
    ensures var here := Run(st, moves); Step(here, m).threads[m.id] == Idle(Got(Value(here.heap, key)))
  {
    ServesThroughout(st, moves, m.id, key);
    RunKeepsInv(st, moves);
    RunStaysUnmarked(st, moves);
    var here := Run(st, moves);
    hide Run, Inv, Unmarked, Serves;
    OwnServes(here, m, key);
    StepCommits(here, m);
    CommitsOnce(here, m);
    hide Updates;
    assert Commit(here, m)[0] in Commit(here, m);
    GotIsRead(here, m);
  }

  lemma GotIsRead<V>(st: State<V>, m: Move<V>)
    requires Unmarked(st) && Acts(st, m) && Pending(st.threads[m.id]) && Target(st, m).pc.Idle? && Target(st, m).pc.out.Got?
    ensures |Commit(st, m)| == 1 && Commit(st, m)[0].Read? && Target(st, m).pc.out.handle == Commit(st, m)[0].value
  {
    if st.threads[m.id].Find? {
      FindStepGoal(st.threads[m.id], st.heap.nodes);
    } else if st.threads[m.id].GetMark? {
      MarkIsOff(st, m);
    }
    hide FindStep, Unmarked;
  }
}
