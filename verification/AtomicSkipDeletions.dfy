/**
 Deletions in the concurrent skip list. Marking and emptying a node are two accesses, and a link of a
 neighbour may clear the mark again; what each call answers is fixed by what it meets at its own
 steps, in every run.
 */
module AtomicSkipDeletions {
  import opened Options
  import opened TaggedPtr
  import opened AtomicSkipMachine
  import opened AtomicSkipProofs
  import opened AtomicSkipSafety

  ghost predicate InMark<V>(pc: Pc<V>) {
    pc.MarkRead? || pc.MarkSwap? || pc.MarkHandle?
  }

  ghost predicate IsMarked<V>(h: Heap<V>, node: nat) {
    HasLink(h.nodes, node, 0) && h.nodes[node].nexts[0].mark
  }

  /** What a deletion expects to swap is unmarked. */
  ghost predicate ExpectsUnmarked<V>(pc: Pc<V>) {
    pc.MarkSwap? ==> !pc.expected.mark
  }

  ghost predicate AllExpect<V>(st: State<V>) {
    forall id: nat | id < |st.threads| :: ExpectsUnmarked(st.threads[id])
  }

  lemma StepExpects<V>(st: State<V>, m: Move<V>)
    requires AllExpect(st)
    ensures AllExpect(Step(st, m))
  {
    if Acts(st, m) {
      assert ExpectsUnmarked(Target(st, m).pc) by {
        hide FindStep;
      }
    }
  }

  lemma {:induction false} RunExpects<V>(st: State<V>, moves: seq<Move<V>>)
    requires AllExpect(st)
    ensures AllExpect(Run(st, moves))
  {
    hide AllExpect, Step;
    if moves != [] {
      RunExpects(st, moves[..|moves| - 1]);
      StepExpects(Run(st, moves[..|moves| - 1]), moves[|moves| - 1]);
    }
  }

  // ---- Any step of a deletion ----

  /** The step wins the mark: it swaps the unmarked word the thread expects for a marked one. */
  ghost predicate WinsMark<V>(st: State<V>, m: Move<V>) {
    Acts(st, m) && st.threads[m.id].MarkSwap? && Target(st, m).pc.MarkHandle?
  }

  /**
   Whatever a deletion is about to do: it wins if and only if it swaps the word it expects, which marks the
   node and changes nothing else; it answers that there was nothing if and only if it meets a marked
   word; a winner answers exactly the handle the node holds at its last step, and leaves none there.
   */
  lemma MarkStep<V>(st: State<V>, m: Move<V>)
    requires Inv(st) && AllExpect(st) && Acts(st, m) && InMark(st.threads[m.id])
    ensures var pc, h, pc', h' := st.threads[m.id], st.heap, Target(st, m).pc, Target(st, m).heap;
            var node := pc.node;
            && HasLink(h.nodes, node, 0)
            && var w := h.nodes[node].nexts[0];
               if pc.MarkHandle? then
                 pc' == Idle(Marked(h.nodes[node].handle)) && h' == SetHandle(h, node, None)
               else if pc.MarkSwap? && w == pc.expected && !m.spurious then
                 pc' == MarkHandle(node) && !w.mark && h' == SetLink(h, node, 0, Tag(w.addr, (w.version + 1) % VERSIONS, true))
               else if w.mark then
                 pc' == Idle(Marked(None)) && h' == h
               else
                 pc' == MarkSwap(node, w) && h' == h
  {
    assert ThreadOk(st.heap, st.threads[m.id]);
    assert ExpectsUnmarked(st.threads[m.id]);
    hide Inv;
  }

  // ---- What every step does to handles and marks ----

  /** The step links a node behind `node`, which clears the mark there. */
  ghost predicate LinksBehind<V>(st: State<V>, m: Move<V>, node: nat) {
    && Acts(st, m) && st.threads[m.id].LinkBottom? && !Target(st, m).pc.Find?
    && |st.threads[m.id].trail.preds| > 0 && st.threads[m.id].trail.preds[0] == node
  }

  /** What a step makes of the handle and the mark of a node. */
  ghost predicate NodeEffect<V>(h: Heap<V>, pc: Pc<V>, f: Effect<V>, node: nat)
    requires HasLink(h.nodes, node, 0)
  {
    && HasLink(f.heap.nodes, node, 0)
    && f.heap.nodes[node].handle ==
         (if pc.UpdateHandle? && pc.node == node then pc.handle
          else if pc.MarkHandle? && pc.node == node then None
          else h.nodes[node].handle)
    && IsMarked(f.heap, node) ==
         (if pc.MarkSwap? && f.pc.MarkHandle? && pc.node == node then true
          else if pc.LinkBottom? && !f.pc.Find? && |pc.trail.preds| > 0 && pc.trail.preds[0] == node then false
          else IsMarked(h, node))
  }

  lemma LinkEffect<V>(h: Heap<V>, pc: Pc<V>, m: Move<V>, node: nat)
    requires (pc.LinkBottom? || pc.LinkUpper?) && HasLink(h.nodes, node, 0) && (pc.LinkUpper? ==> pc.level >= 1)
    requires Exec(pc, h, m).pc != Fault
    ensures NodeEffect(h, pc, Exec(pc, h, m), node)
  {
    hide Place;
  }

  lemma MarkEffect<V>(h: Heap<V>, pc: Pc<V>, m: Move<V>, node: nat)
    requires (pc.MarkSwap? || pc.MarkHandle? || pc.UpdateHandle?) && HasLink(h.nodes, node, 0) && Exec(pc, h, m).pc != Fault
    ensures NodeEffect(h, pc, Exec(pc, h, m), node)
  {
  }

  lemma OtherEffect<V>(h: Heap<V>, pc: Pc<V>, m: Move<V>, node: nat)
    requires !pc.LinkBottom? && !pc.LinkUpper? && !pc.MarkSwap? && !pc.MarkHandle? && !pc.UpdateHandle? && HasLink(h.nodes, node, 0)
    ensures NodeEffect(h, pc, Exec(pc, h, m), node)
  {
    hide FindStep;
  }

  lemma UpperLevels<V>(st: State<V>, m: Move<V>)
    requires Inv(st) && Acts(st, m)
    ensures Target(st, m).pc != Fault && (st.threads[m.id].LinkUpper? ==> st.threads[m.id].level >= 1)
  {
    assert ThreadOk(st.heap, st.threads[m.id]);
    StepKeepsInv(st, m);
    hide Exec;
    assert ThreadOk(Step(st, m).heap, Step(st, m).threads[m.id]);
  }

  /**
   In every run, deletions included: a handle changes only by an insertion that updates it, to what it carries,
   or by a deletion that empties it; a mark is set only by a deletion that wins it, and cleared only by a
   link behind the node.
   */
  lemma NodeStep<V>(st: State<V>, m: Move<V>, node: nat)
    requires Inv(st) && Acts(st, m) && HasLink(st.heap.nodes, node, 0)
    ensures var h, h', pc := st.heap, Step(st, m).heap, st.threads[m.id];
            && HasLink(h'.nodes, node, 0)
            && h'.nodes[node].handle ==
                 (if pc.UpdateHandle? && pc.node == node then pc.handle
                  else if pc.MarkHandle? && pc.node == node then None
                  else h.nodes[node].handle)
            && IsMarked(h', node) ==
                 (if WinsMark(st, m) && pc.node == node then true
                  else if LinksBehind(st, m, node) then false
                  else IsMarked(h, node))
  {
    var h, pc := st.heap, st.threads[m.id];
    UpperLevels(st, m);
    hide Inv, Exec;
    if pc.LinkBottom? || pc.LinkUpper? {
      LinkEffect(h, pc, m, node);
    } else if pc.MarkSwap? || pc.MarkHandle? || pc.UpdateHandle? {
      MarkEffect(h, pc, m, node);
    } else {
      OtherEffect(h, pc, m, node);
    }
  }

  // ---- Any step of a lookup ----

  ghost predicate InGet<V>(pc: Pc<V>) {
    (pc.Find? && pc.goal.ForGet?) || pc.GetMark? || pc.GetHandle?
  }

  /**
   Whatever a lookup is about to do: at the last load of its search it answers nothing if and only if the
   list has no node of the key, at its mark load if and only if the node is marked then, and otherwise it
   answers the handle the node holds at its last step.
   */
  lemma GetStep<V>(st: State<V>, m: Move<V>)
    requires Inv(st) && Acts(st, m) && InGet(st.threads[m.id])
    ensures Target(st, m).heap == st.heap
    ensures var pc, h, pc' := st.threads[m.id], st.heap, Target(st, m).pc;
            match pc
            case Find(_, key, _, _, _, _) =>
              || (pc'.Find? && pc'.goal.ForGet? && pc'.key == key)
              || (pc' == Idle(Got(None)) && !HasKey(h, key))
              || (pc'.GetMark? && Listed(h, pc'.node, 0) && h.nodes[pc'.node].key == key)
            case GetMark(node) => pc' == if IsMarked(h, node) then Idle(Got(None)) else GetHandle(node)
            case GetHandle(node) => node < |h.nodes| && pc' == Idle(Got(h.nodes[node].handle))
  {
    var pc := st.threads[m.id];
    assert ThreadOk(st.heap, pc);
    if pc.Find? {
      SearchIsExact(st, m);
      FindGoal(pc, st.heap.nodes);
    }
    hide Inv, FindStep, HasKey;
  }

  lemma FindGoal<V>(pc: Pc<V>, nodes: seq<Node<V>>)
    requires pc.Find? && pc.goal.ForGet?
    ensures var pc' := FindStep(pc, nodes);
            && (pc'.Find? ==> pc'.goal == pc.goal && pc'.key == pc.key)
            && (pc'.Find? || pc'.Fault? || pc' == Idle(Got(None)) || pc'.GetMark?)
  {
  }

  // ---- Whole deletions ----

  ghost predicate MarksNode<V>(pc: Pc<V>, node: nat) {
    InMark(pc) && pc.node == node
  }

  /** Thread `id` is deleting `node`. */
  ghost predicate Deletes<V>(st: State<V>, id: nat, node: nat) {
    id < |st.threads| && MarksNode(st.threads[id], node)
  }

  ghost predicate MarksThroughout<V>(st: State<V>, moves: seq<Move<V>>, id: nat, node: nat)
    requires id < |st.threads|
  {
    forall i: nat | i <= |moves| :: Deletes(Run(st, moves[..i]), id, node)
  }

  lemma MarksPrefix<V>(st: State<V>, moves: seq<Move<V>>, id: nat, node: nat, n: nat)
    requires id < |st.threads| && MarksThroughout(st, moves, id, node) && n <= |moves|
    ensures MarksThroughout(st, moves[..n], id, node) && Deletes(Run(st, moves[..n]), id, node)
  {
    hide Deletes, Run;
    var prefix := moves[..n];
    forall i: nat | i <= |prefix| ensures Deletes(Run(st, prefix[..i]), id, node) {
      assert prefix[..i] == moves[..i];
    }
  }

  /** How often a deletion wins the mark of `node` in a run. */
  ghost function Wins<V>(st: State<V>, moves: seq<Move<V>>, node: nat): nat {
    if moves == [] then 0
    else
      var n := |moves| - 1;
      var here := Run(st, moves[..n]);
      Wins(st, moves[..n], node) + if WinsMark(here, moves[n]) && here.threads[moves[n].id].node == node then 1 else 0
  }

  /** Nothing is linked right behind `node` during the run. */
  ghost predicate NoLinkBehind<V>(st: State<V>, moves: seq<Move<V>>, node: nat) {
    forall i: nat | i < |moves| :: !LinksBehind(Run(st, moves[..i]), moves[i], node)
  }

  lemma NoLinkPrefix<V>(st: State<V>, moves: seq<Move<V>>, node: nat)
    requires NoLinkBehind(st, moves, node) && moves != []
    ensures var n := |moves| - 1; NoLinkBehind(st, moves[..n], node) && !LinksBehind(Run(st, moves[..n]), moves[n], node)
  {
    hide Run, LinksBehind;
    var n := |moves| - 1;
    forall i: nat | i < n ensures !LinksBehind(Run(st, moves[..n][..i]), moves[..n][i], node) {
      assert moves[..n][..i] == moves[..i];
    }
  }

  /** A winner meets an unmarked node and leaves it marked. */
  lemma WinnerMeetsUnmarked<V>(st: State<V>, m: Move<V>)
    requires Inv(st) && AllExpect(st) && WinsMark(st, m)
    ensures !IsMarked(st.heap, st.threads[m.id].node)
  {
    MarkStep(st, m);
    hide Inv, Exec;
  }

  lemma OneMoreWin<V>(st: State<V>, m: Move<V>, node: nat)
    requires Inv(st) && AllExpect(st) && HasLink(st.heap.nodes, node, 0) && !LinksBehind(st, m, node)
    ensures var won := WinsMark(st, m) && st.threads[m.id].node == node;
            && HasLink(Step(st, m).heap.nodes, node, 0)
            && (won ==> !IsMarked(st.heap, node))
            && (IsMarked(Step(st, m).heap, node) <==> won || IsMarked(st.heap, node))
  {
    hide Inv, Exec, LinksBehind;
    if Acts(st, m) {
      NodeStep(st, m, node);
      if WinsMark(st, m) {
        WinnerMeetsUnmarked(st, m);
      }
    }
  }

  /**
   Of all deletions that meet a node unmarked, one wins at most, and exactly one once the node is marked,
   as long as nothing is linked behind it.
   */
  lemma {:induction false} OneWins<V>(st: State<V>, moves: seq<Move<V>>, node: nat)
    requires Inv(st) && AllExpect(st) && HasLink(st.heap.nodes, node, 0) && !IsMarked(st.heap, node) && NoLinkBehind(st, moves, node)
    ensures var end := Run(st, moves);
            HasLink(end.heap.nodes, node, 0) && Wins(st, moves, node) == if IsMarked(end.heap, node) then 1 else 0
  {
    if moves != [] {
      hide Inv, AllExpect, Step, IsMarked, WinsMark, HasLink;
      var n := |moves| - 1;
      NoLinkPrefix(st, moves, node);
      OneWins(st, moves[..n], node);
      RunKeepsInv(st, moves[..n]);
      RunExpects(st, moves[..n]);
      OneMoreWin(Run(st, moves[..n]), moves[n], node);
    }
  }

  /**
   A deletion of `node` that ends has either won, and then answers exactly the handle the node held at its
   last step and leaves none there; or it has met a marked word at its last step and answers nothing.
   */
  lemma {:induction false} DeletionAnswers<V>(st: State<V>, moves: seq<Move<V>>, m: Move<V>, node: nat)
    requires Inv(st) && AllExpect(st) && m.id < |st.threads| && MarksThroughout(st, moves, m.id, node)
    requires Step(Run(st, moves), m).threads[m.id].Idle?
    ensures var here, end := Run(st, moves), Step(Run(st, moves), m);
            && node < |here.heap.nodes| && node < |end.heap.nodes|
            && if here.threads[m.id].MarkHandle? then
                 end.threads[m.id] == Idle(Marked(here.heap.nodes[node].handle)) && end.heap.nodes[node].handle == None
               else
                 IsMarked(here.heap, node) && end.threads[m.id] == Idle(Marked(None)) && end.heap == here.heap
  {
    MarksPrefix(st, moves, m.id, node, |moves|);
    assert moves[..|moves|] == moves;
    RunKeepsInv(st, moves);
    RunExpects(st, moves);
    hide Run, Inv, MarksThroughout;
    MarkStep(Run(st, moves), m);
    hide Exec;
  }

  /** If one deletion of an unmarked node has ended, exactly one has won, as long as nothing is linked behind it. */
  lemma {:induction false} EndedMeansOneWon<V>(st: State<V>, moves: seq<Move<V>>, m: Move<V>, node: nat)
    requires Inv(st) && AllExpect(st) && m.id < |st.threads| && MarksThroughout(st, moves, m.id, node)
    requires st.threads[m.id] == MarkRead(node) && !IsMarked(st.heap, node) && NoLinkBehind(st, moves, node)
    requires Step(Run(st, moves), m).threads[m.id].Idle?
    ensures Wins(st, moves, node) == 1
  {
    StartsLinked(st, m.id);
    OneWins(st, moves, node);
    DeletionAnswers(st, moves, m, node);
    if Run(st, moves).threads[m.id].MarkHandle? {
      HolderHasWon(st, moves, m.id, node);
    }
  }

  lemma StartsLinked<V>(st: State<V>, id: nat)
    requires Inv(st) && id < |st.threads| && st.threads[id].MarkRead?
    ensures HasLink(st.heap.nodes, st.threads[id].node, 0)
  {
    assert ThreadOk(st.heap, st.threads[id]);
  }

  /** A deletion about to take the handle has won before. */
  lemma {:induction false} HolderHasWon<V>(st: State<V>, moves: seq<Move<V>>, id: nat, node: nat)
    requires Inv(st) && AllExpect(st) && id < |st.threads| && MarksThroughout(st, moves, id, node)
    requires st.threads[id] == MarkRead(node) && Run(st, moves).threads[id].MarkHandle?
    ensures Wins(st, moves, node) >= 1
  {
    hide Inv, AllExpect;
    if moves != [] {
      var n := |moves| - 1;
      var here := Run(st, moves[..n]);
      MarksPrefix(st, moves, id, node, n);
      hide MarksThroughout;
      if here.threads[id].MarkHandle? {
        HolderHasWon(st, moves[..n], id, node);
      } else {
        BecomesHolder(here, moves[n], id, node);
      }
    }
  }

  lemma BecomesHolder<V>(st: State<V>, m: Move<V>, id: nat, node: nat)
    requires id < |st.threads| && MarksNode(st.threads[id], node) && !st.threads[id].MarkHandle? && Step(st, m).threads[id].MarkHandle?
    ensures WinsMark(st, m) && m.id == id && st.threads[m.id].node == node
  {
  }

  lemma InitialExpects<V>(n: nat)
    ensures AllExpect(Initial<V>(n))
  {
  }
}
