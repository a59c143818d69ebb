/** What the concurrent skip list guarantees in every reachable state. */
module AtomicSkipSafety {
  import opened Options
  import opened Sums
  import opened TaggedPtr
  import opened AtomicSkipMachine
  import opened AtomicSkipProofs

  lemma KeyInRange<V>(h: Heap<V>, id: nat)
    requires Ordered(h) && id in h.order
    ensures MIN_KEY <= h.nodes[id].key <= MAX_KEY
    ensures h.nodes[id].key == MAX_KEY <==> id == TAIL
  {
    var i := Position(h, id);
    OrderReflects(h, 0, i);
    OrderReflects(h, i, |h.order| - 1);
    OrderReflects(h, i, 0);
  }

  lemma LeadsOn<V>(h: Heap<V>, id: nat, level: nat)
    requires HeapOk(h) && Listed(h, id, level) && id != TAIL
    ensures Leads(h, h.nodes[id].nexts[level].addr, level, h.nodes[id].key)
    ensures h.nodes[h.nodes[id].nexts[level].addr].key <= MAX_KEY
  {
    assert Leads(h, h.nodes[id].nexts[level].addr, level, h.nodes[id].key);
    KeyInRange(h, h.nodes[id].nexts[level].addr);
  }

  /** The nodes met on `level` from `id` to the tail. */
  ghost function Walk<V>(h: Heap<V>, id: nat, level: nat): (ids: seq<nat>)
    requires HeapOk(h) && Listed(h, id, level)
    decreases MAX_KEY - h.nodes[id].key
  {
    if id == TAIL then [TAIL] else
      LeadsOn(h, id, level);
      [id] + Walk(h, h.nodes[id].nexts[level].addr, level)
  }

  ghost predicate AscendingPath<V>(h: Heap<V>, ids: seq<nat>) {
    && (forall i: nat | i < |ids| :: ids[i] in h.order && ids[i] < |h.nodes|)
    && forall i: nat, j: nat | i < j < |ids| :: h.nodes[ids[i]].key < h.nodes[ids[j]].key
  }

  /** Every level runs from its start to the tail over listed nodes with strictly ascending keys. */
  lemma {:induction false} WalkAscends<V>(h: Heap<V>, id: nat, level: nat)
    requires HeapOk(h) && Listed(h, id, level)
    ensures var ids := Walk(h, id, level);
            ids != [] && ids[0] == id && ids[|ids| - 1] == TAIL && AscendingPath(h, ids)
    decreases MAX_KEY - h.nodes[id].key
  {
    hide HeapOk;
    if id != TAIL {
      LeadsOn(h, id, level);
      var t := h.nodes[id].nexts[level].addr;
      var rest := Walk(h, t, level);
      WalkAscends(h, t, level);
      var ids := [id] + rest;
      forall i: nat, j: nat | i < j < |ids| ensures h.nodes[ids[i]].key < h.nodes[ids[j]].key {
        assert ids[j] == rest[j - 1];
        if i == 0 {
          assert j == 1 || h.nodes[rest[0]].key < h.nodes[rest[j - 1]].key;
        } else {
          assert ids[i] == rest[i - 1];
        }
      }
    }
  }

  /** Level 0 is `order`: the history the invariant speaks of is the list itself. */
  lemma {:induction false} BottomIsOrder<V>(h: Heap<V>, i: nat)
    requires HeapOk(h) && i < |h.order| && Listed(h, h.order[i], 0)
    ensures Walk(h, h.order[i], 0) == h.order[i..]
    decreases |h.order| - i
  {
    hide HeapOk, Listed, Walk;
    InvOrdered(h);
    BottomNext(h, i);
    WalkStep(h, h.order[i], 0);
    if i + 1 < |h.order| {
      BottomNext(h, i + 1);
      BottomIsOrder(h, i + 1);
      assert h.order[i..] == [h.order[i]] + h.order[i + 1..];
    }
  }

  lemma InvOrdered<V>(h: Heap<V>)
    requires HeapOk(h)
    ensures Ordered(h)
  {
  }

  lemma WalkStep<V>(h: Heap<V>, id: nat, level: nat)
    requires HeapOk(h) && Listed(h, id, level)
    ensures id == TAIL ==> Walk(h, id, level) == [TAIL]
    ensures id != TAIL ==>
              && Listed(h, h.nodes[id].nexts[level].addr, level)
              && Walk(h, id, level) == [id] + Walk(h, h.nodes[id].nexts[level].addr, level)
  {
    if id != TAIL {
      LeadsOn(h, id, level);
    }
  }

  lemma BottomNext<V>(h: Heap<V>, i: nat)
    requires Ordered(h) && i < |h.order|
    ensures Listed(h, h.order[i], 0) && (h.order[i] == TAIL <==> i + 1 == |h.order|)
    ensures i + 1 < |h.order| ==> h.nodes[h.order[i]].nexts[0].addr == h.order[i + 1]
  {
    OrderReflects(h, i, |h.order| - 1);
  }

  /** In every reachable state every level is a strictly ascending path of level-0 nodes from head to tail. */
  lemma LevelsStayOrdered<V>(n: nat, moves: seq<Move<V>>, level: nat)
    requires level <= 15
    ensures var h := Run(Initial(n), moves).heap;
            && HeapOk(h) && Listed(h, HEAD, level) && AscendingPath(h, Walk(h, HEAD, level))
            && Walk(h, HEAD, level)[|Walk(h, HEAD, level)| - 1] == TAIL
            && Walk(h, HEAD, 0) == h.order
  {
    InitialInv<V>(n);
    RunKeepsInv(Initial(n), moves);
    var h := Run(Initial<V>(n), moves).heap;
    WalkAscends(h, HEAD, level);
    BottomIsOrder(h, 0);
  }

  /** No key is held by two nodes of level 0. */
  lemma KeysAreUnique<V>(h: Heap<V>, a: nat, b: nat)
    requires Ordered(h) && a in h.order && b in h.order && h.nodes[a].key == h.nodes[b].key
    ensures a == b
  {
    var i := Position(h, a);
    var j := Position(h, b);
    OrderReflects(h, i, j);
    OrderReflects(h, j, i);
  }

  /** Level 0 never loses a node, nor a node its key or its height. */
  lemma {:induction false} NodesStay<V>(st: State<V>, moves: seq<Move<V>>)
    requires Inv(st)
    ensures forall id | id in st.heap.order :: id in Run(st, moves).heap.order && id < |st.heap.nodes| <= |Run(st, moves).heap.nodes|
    ensures forall id: nat | id < |st.heap.nodes| ::
      && id < |Run(st, moves).heap.nodes| && Run(st, moves).heap.nodes[id].key == st.heap.nodes[id].key
      && |Run(st, moves).heap.nodes[id].nexts| == |st.heap.nodes[id].nexts|
  {
    hide Step, ThreadsOk, LinksOk, CountOk, Exclusive;
    ListedInRange(st.heap);
    if moves != [] {
      var before := Run(st, moves[..|moves| - 1]);
      NodesStay(st, moves[..|moves| - 1]);
      RunKeepsInv(st, moves[..|moves| - 1]);
      StepExtends(before, moves[|moves| - 1]);
    }
  }

  lemma StepExtends<V>(st: State<V>, m: Move<V>)
    requires Inv(st)
    ensures Extends(st.heap, Step(st, m).heap)
  {
    hide HeapOk, Exec;
    if Acts(st, m) {
      MoverKeeps(st.heap, st.threads[m.id], m);
    }
  }

  /** A key enters the list exactly when its node is linked at the bottom, and it was absent until then. */
  lemma LinkCommits<V>(st: State<V>, m: Move<V>)
    requires Inv(st) && Acts(st, m)
    ensures Step(st, m).heap.order != st.heap.order ==>
      && st.threads[m.id].LinkBottom?
      && !HasKey(st.heap, st.threads[m.id].key) && HasKey(Step(st, m).heap, st.threads[m.id].key)
      && Listed(Step(st, m).heap, st.threads[m.id].node, 0)
  {
    hide LinksOk, TrailOk;
    var h := st.heap;
    var pc := st.threads[m.id];
    assert ThreadOk(h, pc);
    if Step(st, m).heap.order != h.order {
      assert pc.LinkBottom?;
      BottomPred(h, pc);
      var i := BottomFits(h, pc);
      AbsentBetween(h, i, pc.node, pc.key);
      BottomSucceeds(h, pc, i, m);
      assert Listed(Step(st, m).heap, pc.node, 0);
    }
  }

  lemma AbsentBetween<V>(h: Heap<V>, i: nat, node: nat, key: int)
    requires Ordered(h) && FitsBehind(h, i, node) && h.nodes[node].key == key
    ensures !HasKey(h, key)
  {
    assert Leads(h, h.order[i + 1], 0, key);
    forall id: nat | Listed(h, id, 0) ensures h.nodes[id].key != key {
      var j := Position(h, id);
      OrderReflects(h, i, j);
      OrderReflects(h, j, i + 1);
    }
  }

  /** A search answers for the very moment of its last load: found exactly if level 0 holds the key then. */
  lemma SearchIsExact<V>(st: State<V>, m: Move<V>)
    requires Inv(st) && Acts(st, m)
    requires st.threads[m.id].Find? && !st.threads[m.id].goal.ForRelink?
    ensures var key := st.threads[m.id].key;
            var pc := Target(st, m).pc;
            && (pc.GetMark? || pc.UpdateHandle? ==> Listed(st.heap, pc.node, 0) && st.heap.nodes[pc.node].key == key)
            && (pc.Idle? || pc.NewNode? ==> !HasKey(st.heap, key))
            && (pc.Find? || pc.GetMark? || pc.UpdateHandle? || pc.Idle? || pc.NewNode?)
  {
    hide Ordered, LinksOk;
    var h := st.heap;
    var pc := st.threads[m.id];
    assert ThreadOk(h, pc);
    FindMoves(h, pc);
    if pc.level == 0 && pc.key <= h.nodes[h.nodes[pc.pred].nexts[0].addr].key {
      FindEnds(h, pc);
    }
  }

  /** No thread follows a null link or reads beyond an array. */
  lemma NeverFaults<V>(n: nat, moves: seq<Move<V>>, id: nat)
    requires id < n
    ensures Run(Initial<V>(n), moves).threads[id] != Fault
  {
    InitialInv<V>(n);
    RunKeepsInv(Initial(n), moves);
    assert ThreadOk(Run(Initial<V>(n), moves).heap, Run(Initial<V>(n), moves).threads[id]);
  }

  /** With no insert under way, the counter is the number of nodes between head and tail. */
  lemma QuiescentCount<V>(st: State<V>)
    requires Inv(st) && forall id: nat | id < |st.threads| :: st.threads[id].Idle?
    ensures st.heap.nodeNum == |st.heap.order| - 2
  {
    SumZero(Weights(st.threads));
  }

  // ---- What becomes of the handle of an insertion ----

  /** The thread has been given a handle to insert and has not yet put it, or a node, into the list. */
  ghost predicate Inserting<V>(pc: Pc<V>) {
    (pc.Find? && pc.goal.ForInsert?) || pc.NewNode? || pc.LinkBottom? || pc.UpdateHandle?
  }

  /** The handle it still has to offer: its own, or the one it moved into its private node. */
  ghost function Carries<V>(h: Heap<V>, pc: Pc<V>): Option<V>
    requires Inserting(pc)
  {
    match pc
    case Find(goal, _, _, _, _, _) => goal.handle
    case NewNode(_, handle, _) => handle
    case UpdateHandle(_, handle) => handle
    case LinkBottom(_, node, _) => if node < |h.nodes| then h.nodes[node].handle else None
  }

  /** The step is a failing swap on level 0; the node, with the handle in it, is deleted. */
  ghost predicate LosesLink<V>(st: State<V>, m: Move<V>) {
    && Acts(st, m) && st.threads[m.id].LinkBottom?
    && Target(st, m).pc.Find?
  }

  /** An insertion keeps its handle from step to step until it hands it over, unless it loses its swap. */
  ghost predicate HandsOver<V>(st: State<V>, m: Move<V>)
    requires Acts(st, m) && Inserting(st.threads[m.id])
  {
    var pc, pc', h' := st.threads[m.id], Target(st, m).pc, Target(st, m).heap;
    if LosesLink(st, m) then Inserting(pc') && Carries(h', pc') == None
    else if Inserting(pc') then Carries(h', pc') == Carries(st.heap, pc)
    else (pc.UpdateHandle? || pc.LinkBottom?) && Listed(h', pc.node, 0) && h'.nodes[pc.node].handle == Carries(st.heap, pc)
  }

  lemma FindHandsOver<V>(st: State<V>, m: Move<V>)
    requires Inv(st) && Acts(st, m) && Inserting(st.threads[m.id]) && st.threads[m.id].Find?
    ensures HandsOver(st, m)
  {
    assert ThreadOk(st.heap, st.threads[m.id]);
    FindMoves(st.heap, st.threads[m.id]);
    hide Ordered, LinksOk, TrailOk, Leads;
  }

  lemma LinkFails<V>(h: Heap<V>, pc: Pc<V>, m: Move<V>)
    requires Ordered(h) && pc.LinkBottom? && ThreadOk(h, pc)
    requires |pc.trail.preds| == |pc.trail.succs| == TOP + 1 && HasLink(h.nodes, pc.trail.preds[0], 0)
    requires h.nodes[pc.trail.preds[0]].nexts[0] != pc.trail.succs[0]
    ensures Exec(pc, h, m) == Effect(StartFind(ForInsert(None), pc.key), h)
  {
    hide Ordered, TrailOk, Leads, StartFind;
  }

  lemma LinkLists<V>(h: Heap<V>, pc: Pc<V>, m: Move<V>)
    requires HeapOk(h) && pc.LinkBottom? && ThreadOk(h, pc)
    requires |pc.trail.preds| == |pc.trail.succs| == TOP + 1 && HasLink(h.nodes, pc.trail.preds[0], 0)
    requires h.nodes[pc.trail.preds[0]].nexts[0] == pc.trail.succs[0]
    ensures var f := Exec(pc, h, m);
            && (f.pc.LinkUpper? || f.pc.CountNode?)
            && Listed(f.heap, pc.node, 0) && f.heap.nodes[pc.node].handle == h.nodes[pc.node].handle
  {
    hide Ordered, LinksOk, ThreadOk, MoverOk, FitsBehind, BottomLinked, Place, Listed;
    var i := BottomFits(h, pc);
    NewlyListed(h, i, pc.node, Linked(pc.trail.succs[0], pc.node));
    BottomSucceeds(h, pc, i, m);
  }

  lemma NewlyListed<V>(h: Heap<V>, i: nat, node: nat, w: Tag)
    requires FitsBehind(h, i, node)
    ensures node < |h.nodes| && Listed(BottomLinked(h, i, node, w), node, 0) && BottomLinked(h, i, node, w).nodes[node].handle == h.nodes[node].handle
  {
    hide Leads;
  }

  lemma LinkHandsOver<V>(st: State<V>, m: Move<V>)
    requires Inv(st) && Acts(st, m) && st.threads[m.id].LinkBottom?
    ensures HandsOver(st, m)
  {
    var h, pc := st.heap, st.threads[m.id];
    assert ThreadOk(h, pc);
    BottomPred(h, pc);
    assert pc.node < |h.nodes|;
    hide Ordered, LinksOk, ThreadOk, Exec;
    if h.nodes[pc.trail.preds[0]].nexts[0] == pc.trail.succs[0] {
      LinkLists(h, pc, m);
    } else {
      LinkFails(h, pc, m);
    }
  }

  lemma InsertionStep<V>(st: State<V>, m: Move<V>)
    requires Inv(st) && Acts(st, m) && Inserting(st.threads[m.id])
    ensures HandsOver(st, m)
  {
    if st.threads[m.id].Find? {
      FindHandsOver(st, m);
    } else if st.threads[m.id].LinkBottom? {
      LinkHandsOver(st, m);
    } else {
      assert ThreadOk(st.heap, st.threads[m.id]);
      hide Ordered, LinksOk, TrailOk;
    }
  }

  /** Nobody else touches what an insertion has to offer. */
  lemma OthersLeaveHandle<V>(st: State<V>, m: Move<V>, id: nat)
    requires Inv(st) && id < |st.threads| && id != m.id && Inserting(st.threads[id])
    ensures Carries(Step(st, m).heap, st.threads[id]) == Carries(st.heap, st.threads[id])
  {
    assert ThreadOk(st.heap, st.threads[id]);
    StepExtends(st, m);
  }

  ghost predicate InsertingThroughout<V>(st: State<V>, moves: seq<Move<V>>, id: nat)
    requires id < |st.threads|
  {
    forall i: nat | i <= |moves| :: Inserting(Run(st, moves[..i]).threads[id])
  }

  ghost predicate EverLosesLink<V>(st: State<V>, moves: seq<Move<V>>, id: nat) {
    exists i: nat :: i < |moves| && moves[i].id == id && LosesLink(Run(st, moves[..i]), moves[i])
  }

  lemma {:induction false} InsertingPrefix<V>(st: State<V>, moves: seq<Move<V>>, id: nat, n: nat)
    requires id < |st.threads| && InsertingThroughout(st, moves, id) && n <= |moves|
    ensures InsertingThroughout(st, moves[..n], id)
    ensures Inserting(Run(st, moves[..n]).threads[id])
  {
    hide Inserting, Run;
    forall i: nat | i <= n ensures Inserting(Run(st, moves[..n][..i]).threads[id]) {
      assert moves[..n][..i] == moves[..i];
    }
  }

  lemma {:induction false} EverLosesStep<V>(st: State<V>, moves: seq<Move<V>>, id: nat)
    requires moves != []
    ensures var n := |moves| - 1;
            EverLosesLink(st, moves, id) <==>
              EverLosesLink(st, moves[..n], id) || (moves[n].id == id && LosesLink(Run(st, moves[..n]), moves[n]))
  {
    hide Run, LosesLink;
    var n := |moves| - 1;
    if i: nat :| i < n && moves[..n][i].id == id && LosesLink(Run(st, moves[..n][..i]), moves[..n][i]) {
      assert moves[..n][..i] == moves[..i];
    }
    if i: nat :| i < |moves| && moves[i].id == id && LosesLink(Run(st, moves[..i]), moves[i]) {
      if i < n {
        assert moves[..n][..i] == moves[..i] && moves[..n][i] == moves[i];
      }
    }
  }

  /**
   The handle an insertion puts into the list at its end is the one it was given, if and only if it
   has never lost a swap on level 0; after a loss there is nothing left to put in.
   */
  lemma {:induction false} HandleArrivesIffNoLinkIsLost<V>(st: State<V>, moves: seq<Move<V>>, id: nat, v: V)
    requires Inv(st) && id < |st.threads| && InsertingThroughout(st, moves, id)
    requires Inserting(st.threads[id]) && Carries(st.heap, st.threads[id]) == Some(v)
    ensures var end := Run(st, moves);
            Inserting(end.threads[id]) && Carries(end.heap, end.threads[id]) == if EverLosesLink(st, moves, id) then None else Some(v)
  {
    hide Inv, Step, Inserting, Carries, LosesLink;
    InsertingPrefix(st, moves, id, |moves|);
    assert moves[..|moves|] == moves;
    if moves != [] {
      var n := |moves| - 1;
      var here := Run(st, moves[..n]);
      InsertingPrefix(st, moves, id, n);
      HandleArrivesIffNoLinkIsLost(st, moves[..n], id, v);
      RunKeepsInv(st, moves[..n]);
      EverLosesStep(st, moves, id);
      CarryStep(here, moves[n], id);
    }
  }

  lemma CarryStep<V>(st: State<V>, m: Move<V>, id: nat)
    requires Inv(st) && id < |st.threads| && Inserting(st.threads[id]) && Inserting(Step(st, m).threads[id])
    ensures Carries(Step(st, m).heap, Step(st, m).threads[id]) ==
            if m.id == id && LosesLink(st, m) then None else Carries(st.heap, st.threads[id])
  {
    hide Inv, Inserting, Carries, LosesLink, Exec;
    if m.id == id {
      InsertionStep(st, m);
    } else {
      OthersLeaveHandle(st, m, id);
    }
  }

  /** The insertion is for `key`: it searches for it, or has the node of it in hand. */
  ghost predicate Aims<V>(h: Heap<V>, pc: Pc<V>, key: int)
    requires Inserting(pc)
  {
    match pc
    case Find(_, k, _, _, _, _) => k == key
    case NewNode(k, _, _) => k == key
    case LinkBottom(k, node, _) => k == key && node < |h.nodes| && h.nodes[node].key == key
    case UpdateHandle(node, _) => node < |h.nodes| && h.nodes[node].key == key
  }

  lemma FindAim<V>(st: State<V>, m: Move<V>, key: int)
    requires Inv(st) && Acts(st, m) && st.threads[m.id].Find? && st.threads[m.id].goal.ForInsert?
    requires st.threads[m.id].key == key && Inserting(Target(st, m).pc)
    ensures Aims(Target(st, m).heap, Target(st, m).pc, key)
  {
    SearchIsExact(st, m);
    hide Inv, HasKey;
  }

  lemma NodeAim<V>(h: Heap<V>, pc: Pc<V>, m: Move<V>, key: int)
    requires (pc.NewNode? || pc.LinkBottom? || pc.UpdateHandle?) && Aims(h, pc, key) && Inserting(Exec(pc, h, m).pc)
    ensures Aims(Exec(pc, h, m).heap, Exec(pc, h, m).pc, key)
  {
  }

  lemma OwnAim<V>(st: State<V>, m: Move<V>, key: int)
    requires Inv(st) && Acts(st, m) && Inserting(st.threads[m.id]) && Aims(st.heap, st.threads[m.id], key)
    requires Inserting(Target(st, m).pc)
    ensures Aims(Target(st, m).heap, Target(st, m).pc, key)
  {
    hide Inv, Exec;
    if st.threads[m.id].Find? {
      FindAim(st, m, key);
    } else {
      NodeAim(st.heap, st.threads[m.id], m, key);
    }
  }

  lemma AimStep<V>(st: State<V>, m: Move<V>, id: nat, key: int)
    requires Inv(st) && id < |st.threads| && Inserting(st.threads[id]) && Aims(st.heap, st.threads[id], key)
    requires Inserting(Step(st, m).threads[id])
    ensures Aims(Step(st, m).heap, Step(st, m).threads[id], key)
  {
    hide Exec, HeapOk, ThreadsOk, Exclusive, CountOk;
    if m.id == id {
      OwnAim(st, m, key);
    } else {
      StepExtends(st, m);
    }
  }

  lemma {:induction false} AimKept<V>(st: State<V>, moves: seq<Move<V>>, id: nat, key: int)
    requires Inv(st) && id < |st.threads| && InsertingThroughout(st, moves, id)
    requires Inserting(st.threads[id]) && Aims(st.heap, st.threads[id], key)
    ensures Inserting(Run(st, moves).threads[id]) && Aims(Run(st, moves).heap, Run(st, moves).threads[id], key)
  {
    hide Inv, Step, Inserting, Aims;
    InsertingPrefix(st, moves, id, |moves|);
    assert moves[..|moves|] == moves;
    if moves != [] {
      var n := |moves| - 1;
      InsertingPrefix(st, moves, id, n);
      AimKept(st, moves[..n], id, key);
      RunKeepsInv(st, moves[..n]);
      AimStep(Run(st, moves[..n]), moves[n], id, key);
    }
  }

  /** The last move finishes the insertion of thread `id`, which has been under way until then. */
  ghost predicate Finishes<V>(st: State<V>, moves: seq<Move<V>>, id: nat) {
    && moves != [] && id < |st.threads|
    && moves[|moves| - 1].id == id
    && InsertingThroughout(st, moves[..|moves| - 1], id)
    && !Inserting(Run(st, moves).threads[id])
  }

  lemma {:induction false} LastStepIsNoLoss<V>(st: State<V>, m: Move<V>)
    requires Inv(st) && Acts(st, m) && Inserting(st.threads[m.id]) && !Inserting(Step(st, m).threads[m.id])
    ensures var pc, h' := st.threads[m.id], Step(st, m).heap;
            && !LosesLink(st, m) && (pc.UpdateHandle? || pc.LinkBottom?)
            && Listed(h', pc.node, 0) && h'.nodes[pc.node].handle == Carries(st.heap, pc)
            && forall key: int | Aims(st.heap, pc, key) :: h'.nodes[pc.node].key == key
  {
    InsertionStep(st, m);
    StepExtends(st, m);
    hide Inv, Exec, Carries, Listed;
  }

  /**
   A finished insertion of `v` has put a handle into the listed node of its key in its last step: `v`
   if and only if it has lost no swap on level 0, and none otherwise.
   */
  lemma {:induction false} FinishedInsertion<V>(st: State<V>, moves: seq<Move<V>>, id: nat, key: int, v: V)
    requires Inv(st) && Finishes(st, moves, id)
    requires Inserting(st.threads[id]) && Aims(st.heap, st.threads[id], key) && Carries(st.heap, st.threads[id]) == Some(v)
    ensures var pc, h := Run(st, moves[..|moves| - 1]).threads[id], Run(st, moves).heap;
            && (pc.UpdateHandle? || pc.LinkBottom?) && Listed(h, pc.node, 0) && h.nodes[pc.node].key == key
            && h.nodes[pc.node].handle == if EverLosesLink(st, moves, id) then None else Some(v)
  {
    var n := |moves| - 1;
    HandleArrivesIffNoLinkIsLost(st, moves[..n], id, v);
    AimKept(st, moves[..n], id, key);
    RunKeepsInv(st, moves[..n]);
    EverLosesStep(st, moves, id);
    hide Inv, Step, Inserting, Carries, Aims, LosesLink, Listed, EverLosesLink;
    LastStepIsNoLoss(Run(st, moves[..n]), moves[n]);
  }
}
