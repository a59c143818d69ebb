/** An insertion that returns has linked its node on every level the node has. */
module AtomicSkipLevels {
  import opened Options
  import opened TaggedPtr
  import opened AtomicSkipMachine
  import opened AtomicSkipProofs
  import opened AtomicSkipSafety
  import opened AtomicSkipDeletions

  /** The level a thread is linking `node` on, and the height of the node once it is done. */
  ghost predicate AtLevel<V>(h: Heap<V>, pc: Pc<V>, node: nat, level: nat) {
    || (pc.LinkUpper? && pc.node == node && pc.level == level)
    || (pc.Find? && pc.goal == ForRelink(node, level))
    || (pc == CountNode(node) && node < |h.nodes| && level == |h.nodes[node].nexts|)
  }

  /** The step makes a link of level `level` lead to `node`. */
  ghost predicate LinksOn<V>(st: State<V>, m: Move<V>, node: nat, level: nat) {
    && Acts(st, m) && st.threads[m.id].LinkUpper? && st.threads[m.id].node == node && st.threads[m.id].level == level
    && level < |st.threads[m.id].trail.preds|
    && var pred := st.threads[m.id].trail.preds[level];
       HasLink(Step(st, m).heap.nodes, pred, level) && Step(st, m).heap.nodes[pred].nexts[level].addr == node
       && HasLink(st.heap.nodes, pred, level) && st.heap.nodes[pred].nexts[level] != Step(st, m).heap.nodes[pred].nexts[level]
  }

  ghost predicate EverLinksOn<V>(st: State<V>, moves: seq<Move<V>>, id: nat, node: nat, level: nat) {
    moves != [] &&
    var n := |moves| - 1;
    EverLinksOn(st, moves[..n], id, node, level) || (moves[n].id == id && LinksOn(Run(st, moves[..n]), moves[n], node, level))
  }

  lemma RelinkGoal<V>(pc: Pc<V>, nodes: seq<Node<V>>)
    requires pc.Find? && pc.goal.ForRelink?
    ensures var pc' := FindStep(pc, nodes);
            pc'.Fault? || (pc'.Find? && pc'.goal == pc.goal) || (pc'.LinkUpper? && pc'.node == pc.goal.node && pc'.level == pc.goal.level)
  {
  }

  lemma RelinkLevel<V>(st: State<V>, m: Move<V>, node: nat, level: nat)
    requires Acts(st, m) && AtLevel(st.heap, st.threads[m.id], node, level) && st.threads[m.id].Find? && Target(st, m).pc != Fault
    ensures AtLevel(Step(st, m).heap, Step(st, m).threads[m.id], node, level)
  {
    RelinkGoal(st.threads[m.id], st.heap.nodes);
    hide FindStep;
  }

  lemma UpperLevel<V>(st: State<V>, m: Move<V>, node: nat, level: nat)
    requires Acts(st, m) && AtLevel(st.heap, st.threads[m.id], node, level) && st.threads[m.id].LinkUpper? && Target(st, m).pc != Fault
    requires node < |st.heap.nodes| && level < |st.heap.nodes[node].nexts|
    ensures var h', pc' := Step(st, m).heap, Step(st, m).threads[m.id];
            AtLevel(h', pc', node, level) || (LinksOn(st, m, node, level) && AtLevel(h', pc', node, level + 1))
  {
    UpperExec(st.heap, st.threads[m.id], m);
    hide Exec;
  }

  /** A step of the linking stays on its level, or links there and goes on to the next one. */
  lemma OwnLevel<V>(st: State<V>, m: Move<V>, node: nat, level: nat)
    requires Inv(st) && Acts(st, m) && AtLevel(st.heap, st.threads[m.id], node, level) && !st.threads[m.id].CountNode?
    ensures var h', pc' := Step(st, m).heap, Step(st, m).threads[m.id];
            AtLevel(h', pc', node, level) || (LinksOn(st, m, node, level) && AtLevel(h', pc', node, level + 1))
  {
    assert ThreadOk(st.heap, st.threads[m.id]);
    UpperLevels(st, m);
    hide Inv, Exec, Step, LinksOn;
    if st.threads[m.id].Find? {
      RelinkLevel(st, m, node, level);
    } else {
      UpperLevel(st, m, node, level);
    }
  }

  lemma UpperExec<V>(h: Heap<V>, pc: Pc<V>, m: Move<V>)
    requires pc.LinkUpper? && Exec(pc, h, m).pc != Fault
    ensures var f, level := Exec(pc, h, m), pc.level;
            && level < |pc.trail.preds| && HasLink(h.nodes, pc.trail.preds[level], level) && pc.node < |h.nodes|
            && var pred := pc.trail.preds[level];
               if f.pc.Find? then f == Effect(StartFind(ForRelink(pc.node, level), pc.key), h)
               else
                 && f.heap == SetLink(h, pred, level, f.heap.nodes[pred].nexts[level]) && HasLink(f.heap.nodes, pred, level)
                 && f.heap.nodes[pred].nexts[level].addr == pc.node && f.heap.nodes[pred].nexts[level] != h.nodes[pred].nexts[level]
                 && f.pc == AfterLevel(pc.key, pc.node, level, h.nodes, pc.trail)
  {
  }

  lemma OthersLevel<V>(st: State<V>, m: Move<V>, id: nat, node: nat, level: nat)
    requires Inv(st) && id < |st.threads| && m.id != id && AtLevel(st.heap, st.threads[id], node, level)
    ensures AtLevel(Step(st, m).heap, Step(st, m).threads[id], node, level)
  {
    StepExtends(st, m);
    hide Inv, Exec;
  }

  /** The thread is at one of the levels of `node` in every state of the run. */
  ghost predicate LinksThroughout<V>(st: State<V>, moves: seq<Move<V>>, id: nat)
    requires id < |st.threads|
  {
    forall i: nat | i < |moves| :: !Counts(Run(st, moves[..i]).threads[id])
  }

  ghost predicate Counts<V>(pc: Pc<V>) {
    pc.CountNode?
  }

  lemma LinksPrefix<V>(st: State<V>, moves: seq<Move<V>>, id: nat)
    requires id < |st.threads| && LinksThroughout(st, moves, id) && moves != []
    ensures var n := |moves| - 1; LinksThroughout(st, moves[..n], id) && !Counts(Run(st, moves[..n]).threads[id])
  {
    hide Run, Counts;
    var n := |moves| - 1;
    forall i: nat | i < n ensures !Counts(Run(st, moves[..n][..i]).threads[id]) {
      assert moves[..n][..i] == moves[..i];
    }
  }

  ghost predicate LinkedUpTo<V>(st: State<V>, moves: seq<Move<V>>, id: nat, node: nat, level: nat) {
    forall l: nat | 1 <= l < level :: EverLinksOn(st, moves, id, node, l)
  }

  lemma EverLater<V>(st: State<V>, moves: seq<Move<V>>, id: nat, node: nat, level: nat)
    requires moves != [] && LinkedUpTo(st, moves[..|moves| - 1], id, node, level)
    ensures LinkedUpTo(st, moves, id, node, level)
    ensures var n := |moves| - 1;
            moves[n].id == id && LinksOn(Run(st, moves[..n]), moves[n], node, level) ==> LinkedUpTo(st, moves, id, node, level + 1)
  {
    hide LinksOn, Run;
    forall l: nat | 1 <= l < level ensures EverLinksOn(st, moves, id, node, l) {
      assert EverLinksOn(st, moves[..|moves| - 1], id, node, l);
    }
  }

  lemma {:induction false} LevelNow<V>(st: State<V>, moves: seq<Move<V>>, id: nat, node: nat) returns (level: nat)
    requires Inv(st) && id < |st.threads| && LinksThroughout(st, moves, id) && AtLevel(st.heap, st.threads[id], node, 1)
    ensures AtLevel(Run(st, moves).heap, Run(st, moves).threads[id], node, level) && LinkedUpTo(st, moves, id, node, level)
  {
    if moves == [] {
      level := 1;
    } else {
      hide Inv, AtLevel, Step, LinksOn, LinkedUpTo;
      var n := |moves| - 1;
      var here := Run(st, moves[..n]);
      LinksPrefix(st, moves, id);
      level := LevelNow(st, moves[..n], id, node);
      RunKeepsInv(st, moves[..n]);
      EverLater(st, moves, id, node, level);
      if moves[n].id == id {
        NotCounting(here.threads[id]);
        OwnLevel(here, moves[n], node, level);
        if !AtLevel(Run(st, moves).heap, Run(st, moves).threads[id], node, level) {
          level := level + 1;
        }
      } else {
        OthersLevel(here, moves[n], id, node, level);
      }
    }
  }

  lemma NotCounting<V>(pc: Pc<V>)
    requires !Counts(pc)
    ensures !pc.CountNode?
  {
  }

  /**
   From its bottom link on: when the thread comes to count its node, it has linked the node on every level
   the node has, whatever swaps have failed on the way.
   */
  lemma {:induction false} CountedIsLinked<V>(st: State<V>, moves: seq<Move<V>>, id: nat, node: nat)
    requires Inv(st) && id < |st.threads| && LinksThroughout(st, moves, id) && AtLevel(st.heap, st.threads[id], node, 1)
    requires Run(st, moves).threads[id] == CountNode(node)
    ensures node < |Run(st, moves).heap.nodes|
    ensures forall l: nat | 1 <= l < |Run(st, moves).heap.nodes[node].nexts| :: EverLinksOn(st, moves, id, node, l)
  {
    var level := LevelNow(st, moves, id, node);
    hide Inv, EverLinksOn, Run;
  }

  /** A successful bottom link leads to the first level above, or to the count if there is none. */
  lemma BottomThenUpper<V>(st: State<V>, m: Move<V>)
    requires Inv(st) && Acts(st, m) && st.threads[m.id].LinkBottom? && !Target(st, m).pc.Find?
    ensures AtLevel(Step(st, m).heap, Step(st, m).threads[m.id], st.threads[m.id].node, 1)
  {
    assert ThreadOk(st.heap, st.threads[m.id]);
    UpperLevels(st, m);
    hide Inv, Place, TrailOk;
  }
}
